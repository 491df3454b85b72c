/** The query builder as the translator sees it: an append-only log of the
    builder calls it makes, in call order. */
module QueryLog {
  import opened PhpValues

  /** A sort direction that reached `orderBy`. */
  datatype Direction = Asc | Desc {
    function Name(): string {
      match this
      case Asc => "asc"
      case Desc => "desc"
    }
  }

  datatype Clause =
    | Where(field: string, op: string, value: Value)
    | WhereIn(field: string, values: Value)
    | WhereNotIn(field: string, values: Value)
    | Having(field: string, op: string, value: Value)
    | OrderBy(column: string, direction: Direction)
      /** A callable rule invoked with the builder and the raw input value. */
    | Callback(tag: string, value: Value)
      /** The pre-pagination hook of `lists` invoked with the builder. */
    | Hook(tag: string)
}
