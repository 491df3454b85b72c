/** The order resolver of `ModelSelect::order` and the sort-link closure of
    `ModelSelect::orderToString`, as functions of an input snapshot, the
    configured order/by key names and the caller's whitelist. */
module OrderResolver {
  import opened PhpValues
  import opened QueryLog

  /** Public sort-key name to physical column: the whitelist. */
  type OrderSpec = map<string, string>

  /** `in_array($by, ['desc', 'asc'], true)`. */
  predicate ValidDirection(dir: Value) {
    dir == Str("asc") || dir == Str("desc")
  }

  /** The direction `order` applies: the requested one when it is exactly
      "asc" or "desc", otherwise "desc". */
  function NormalizeDirection(dir: Value): (d: Direction)
    ensures d == Asc <==> dir == Str("asc")
    ensures d == Desc <==> dir != Str("asc")
    ensures ValidDirection(dir) ==> Str(d.Name()) == dir
  {
    if dir == Str("asc") then Asc else Desc
  }

  /** The column `order` sorts by: the input's order-key value must be truthy
      and name a whitelisted key whose column is truthy. */
  function OrderColumn(input: Input, orderKey: string, spec: OrderSpec): (r: Option<string>)
    ensures r.Some? <==>
              Truthy(Lookup(input, orderKey))
              && ArrayKey(Lookup(input, orderKey)).Some?
              && ArrayKey(Lookup(input, orderKey)).value in spec
              && Truthy(Str(spec[ArrayKey(Lookup(input, orderKey)).value]))
    ensures r.Some? ==> r.value == spec[ArrayKey(Lookup(input, orderKey)).value]
    ensures r.Some? ==> r.value in spec.Values && r.value != "" && r.value != "0"
  {
    var name := Lookup(input, orderKey);
    if IsEmpty(name) then None
    else match ArrayKey(name)
      case None => None
      case Some(k) => if k in spec && Truthy(Str(spec[k])) then Some(spec[k]) else None
  }

  /** The clause `order` appends. */
  function OrderClauses(input: Input, orderKey: string, byKey: string, spec: OrderSpec): (cs: seq<Clause>)
    ensures |cs| <= 1
    ensures cs != [] <==> OrderColumn(input, orderKey, spec).Some?
    ensures cs != [] ==> cs[0].OrderBy? && cs[0].column in spec.Values
    ensures cs != [] ==>
              cs == [OrderBy(spec[ArrayKey(Lookup(input, orderKey)).value], NormalizeDirection(Lookup(input, byKey)))]
  {
    match OrderColumn(input, orderKey, spec)
    case None => []
    case Some(col) => [OrderBy(col, NormalizeDirection(Lookup(input, byKey)))]
  }

  /** The input after `order`: when a column is applied and the requested
      direction is not valid, the by-key is rewritten to "desc". */
  function OrderedInput(input: Input, orderKey: string, byKey: string, spec: OrderSpec): (r: Input)
    ensures OrderColumn(input, orderKey, spec).None? ==> r == input
    ensures OrderColumn(input, orderKey, spec).Some? ==> ValidDirection(Lookup(r, byKey))
    ensures forall k :: k != byKey ==> Lookup(r, k) == Lookup(input, k)
    ensures r.Keys <= input.Keys + {byKey}
  {
    if OrderColumn(input, orderKey, spec).Some? && !ValidDirection(Lookup(input, byKey))
    then input[byKey := Str("desc")]
    else input
  }

  /** The rewritten input names the direction that was applied. */
  lemma OrderedInputAgreesWithClause(input: Input, orderKey: string, byKey: string, spec: OrderSpec, col: string)
    requires OrderColumn(input, orderKey, spec) == Some(col)
    ensures OrderClauses(input, orderKey, byKey, spec)
            == [OrderBy(col, NormalizeDirection(Lookup(OrderedInput(input, orderKey, byKey, spec), byKey)))]
    ensures Lookup(OrderedInput(input, orderKey, byKey, spec), byKey)
            == Str(NormalizeDirection(Lookup(input, byKey)).Name())
  {
  }

  /** Applying `order` twice with distinct key names: the second call leaves
      the input as the first left it and orders by the same column and
      direction. */
  lemma OrderIdempotent(input: Input, orderKey: string, byKey: string, spec: OrderSpec)
    requires orderKey != byKey
    ensures var once := OrderedInput(input, orderKey, byKey, spec);
            && OrderedInput(once, orderKey, byKey, spec) == once
            && OrderClauses(once, orderKey, byKey, spec) == OrderClauses(input, orderKey, byKey, spec)
  {
  }

  // ---------------------------------------------------------------------
  // Sort links

  /** What `orderToString` captures: the input without the order and by keys
      (the base query string, before URL encoding) and the two class names. */
  datatype LinkHelper = LinkHelper(query: Input, descClassName: string, ascClassName: string)

  /** What the closure returns: a link to the current page with the base query
      and the two sort parameters appended, or a CSS class name. */
  datatype SortLinkOutput =
    | Url(query: Input, sortParams: seq<(string, string)>)
    | CssClass(name: string)

  /** `array_forget($input, [$orderKey, $byKey])`. */
  function BaseQuery(input: Input, orderKey: string, byKey: string): (q: Input)
    ensures orderKey !in q && byKey !in q
    ensures q.Keys == input.Keys - {orderKey, byKey}
    ensures forall k :: k in q ==> q[k] == input[k]
  {
    input - {orderKey, byKey}
  }

  /** The direction the closure treats as current for column `name`: the
      input's by-value when the column is the one sorted on and the value is
      a valid direction, otherwise `defaultBy`. */
  function ResolvedDirection(input: Input, orderKey: string, byKey: string, name: string, defaultBy: string): (d: string)
    ensures Lookup(input, orderKey) == Str(name) && Lookup(input, byKey) == Str("asc") ==> d == "asc"
    ensures Lookup(input, orderKey) == Str(name) && Lookup(input, byKey) == Str("desc") ==> d == "desc"
    ensures !(Lookup(input, orderKey) == Str(name) && ValidDirection(Lookup(input, byKey))) ==> d == defaultBy
  {
    var dir := if orderKey in input && input[orderKey] == Str(name) && byKey in input then input[byKey] else Null;
    if ValidDirection(dir) then dir.s else defaultBy
  }

  /** `$by == 'asc' ? 'desc' : 'asc'`. */
  function Flip(dir: string): (r: string)
    ensures r in {"asc", "desc"}
    ensures r == "desc" <==> dir == "asc"
  {
    if dir == "asc" then "desc" else "asc"
  }

  /** `[$orderKey => $name, $byKey => $by]`: with equal key names the second
      entry overwrites the first. */
  function SortParams(orderKey: string, byKey: string, name: string, dir: string): seq<(string, string)> {
    if orderKey == byKey then [(byKey, dir)] else [(orderKey, name), (byKey, dir)]
  }

  /** The closure returned by `orderToString`, called on column `name`. */
  function SortLink(h: LinkHelper, input: Input, orderKey: string, byKey: string,
                    name: string, getUrl: bool, defaultBy: string): (r: SortLinkOutput)
    ensures r.Url? <==> getUrl
    ensures r.Url? ==>
              && r.query == h.query
              && |r.sortParams| >= 1
              && r.sortParams[|r.sortParams| - 1]
                 == (byKey, Flip(ResolvedDirection(input, orderKey, byKey, name, defaultBy)))
    ensures r.Url? && orderKey != byKey ==> |r.sortParams| == 2 && r.sortParams[0] == (orderKey, name)
    ensures r.CssClass? ==>
              r.name == if ResolvedDirection(input, orderKey, byKey, name, defaultBy) == "asc"
                        then h.ascClassName else h.descClassName
  {
    var dir := ResolvedDirection(input, orderKey, byKey, name, defaultBy);
    if getUrl then Url(h.query, SortParams(orderKey, byKey, name, Flip(dir)))
    else CssClass(if dir == "asc" then h.ascClassName else h.descClassName)
  }

  /** The direction a link requests. */
  function RequestedDirection(out: SortLinkOutput): string
    requires out.Url? && out.sortParams != []
  {
    out.sortParams[|out.sortParams| - 1].1
  }

  /** Clicking the column currently sorted flips its direction; any other
      column requests the opposite of `defaultBy`. */
  lemma LinkToggles(h: LinkHelper, input: Input, orderKey: string, byKey: string, name: string, defaultBy: string)
    ensures var out := SortLink(h, input, orderKey, byKey, name, true, defaultBy);
            && (Lookup(input, orderKey) == Str(name) && Lookup(input, byKey) == Str("asc") ==> RequestedDirection(out) == "desc")
            && (Lookup(input, orderKey) == Str(name) && Lookup(input, byKey) == Str("desc") ==> RequestedDirection(out) == "asc")
            && (Lookup(input, orderKey) != Str(name) ==> RequestedDirection(out) == Flip(defaultBy))
  {
  }

  /** The link and the class agree: the class is the ascending one exactly
      when the link requests a descending sort. */
  lemma LinkAndClassAgree(h: LinkHelper, input: Input, orderKey: string, byKey: string, name: string, defaultBy: string)
    requires h.ascClassName != h.descClassName
    ensures var url := SortLink(h, input, orderKey, byKey, name, true, defaultBy);
            var cls := SortLink(h, input, orderKey, byKey, name, false, defaultBy);
            cls.name == h.ascClassName <==> RequestedDirection(url) == "desc"
  {
  }

  /** After `order` has run, the link helper sees the direction that `order`
      applied for the sorted column: the in-place rewrite keeps the builder
      and the rendered sort state consistent. */
  lemma OrderAndLinkAgree(input: Input, orderKey: string, byKey: string, spec: OrderSpec,
                             name: string, col: string, defaultBy: string)
    requires orderKey != byKey
    requires Lookup(input, orderKey) == Str(name)
    requires OrderColumn(input, orderKey, spec) == Some(col)
    ensures OrderClauses(input, orderKey, byKey, spec)
            == [OrderBy(col, if ResolvedDirection(OrderedInput(input, orderKey, byKey, spec), orderKey, byKey, name, defaultBy) == "asc"
                             then Asc else Desc)]
  {
  }
}
