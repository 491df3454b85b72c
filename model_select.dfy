/** The `ModelSelect` service: it owns the request input and the query builder
    of one request, and shapes the builder through `where`, `having` and
    `order`. The builder is the append-only clause log `clauses`; the ambient
    request is passed in and handed back explicitly. */
module ModelSelectService {
  import opened PhpValues
  import opened QueryLog
  import opened RuleEngine
  import opened OrderResolver

  /** The first constructor argument: a model class name, a model instance,
      or anything else. */
  datatype ModelArg = ClassName(name: string) | Instance(className: string) | Unsupported

  datatype ConfigError = UnsupportedModel

  /** The model class the service queries; anything but a class name or a
      model instance is a configuration error. */
  function ModelClassOf(model: ModelArg): (r: Result<string, ConfigError>)
    ensures r.Failure? <==> model.Unsupported?
    ensures model.ClassName? ==> r == Success(model.name)
    ensures model.Instance? ==> r == Success(model.className)
  {
    match model
    case ClassName(n) => Success(n)
    case Instance(c) => Success(c)
    case Unsupported => Failure(UnsupportedModel)
  }

  /** The constructor's defaults, in declaration order. */
  type Defaults = seq<(string, Value)>

  predicate DistinctKeys(defaults: Defaults) {
    forall i, j :: 0 <= i < j < |defaults| ==> defaults[i].0 != defaults[j].0
  }

  /** The request after the constructor's defaults loop: each default is
      merged in turn, and only where the request holds null or nothing. */
  function MergedRequest(request: Input, defaults: Defaults): Input
    decreases |defaults|
  {
    if defaults == [] then request
    else
      var before := MergedRequest(request, defaults[..|defaults| - 1]);
      var (k, v) := defaults[|defaults| - 1];
      if Lookup(before, k) != Null then before else before[k := v]
  }

  /** A value the caller supplied is never replaced by a default. */
  lemma {:induction false} SuppliedValuesKept(request: Input, defaults: Defaults, k: string)
    requires Lookup(request, k) != Null
    ensures Lookup(MergedRequest(request, defaults), k) == Lookup(request, k)
    decreases |defaults|
  {
    if defaults != [] {
      SuppliedValuesKept(request, defaults[..|defaults| - 1], k);
    }
  }

  /** A key the request holds as null or not at all receives its default;
      other keys are left as the request has them. */
  lemma {:induction false} DefaultsFillGaps(request: Input, defaults: Defaults, i: nat)
    requires DistinctKeys(defaults)
    requires i < |defaults|
    ensures Lookup(MergedRequest(request, defaults), defaults[i].0)
            == if Lookup(request, defaults[i].0) == Null then defaults[i].1 else Lookup(request, defaults[i].0)
    decreases |defaults|
  {
    var init := defaults[..|defaults| - 1];
    if i == |defaults| - 1 {
      var k := defaults[i].0;
      if Lookup(request, k) != Null {
        SuppliedValuesKept(request, defaults, k);
      } else {
        UntouchedKey(request, init, k);
      }
    } else {
      DefaultsFillGaps(request, init, i);
    }
  }

  /** A key no default names keeps its value from the request. */
  lemma {:induction false} UntouchedKey(request: Input, defaults: Defaults, k: string)
    requires forall j :: 0 <= j < |defaults| ==> defaults[j].0 != k
    ensures Lookup(MergedRequest(request, defaults), k) == Lookup(request, k)
    decreases |defaults|
  {
    if defaults != [] {
      UntouchedKey(request, defaults[..|defaults| - 1], k);
    }
  }

  /** The `foreach ($default ...)` loop of the constructor. */
  method MergeDefaults(request: Input, defaults: Defaults) returns (merged: Input)
    ensures merged == MergedRequest(request, defaults)
  {
    merged := request;
    var i := 0;
    while i < |defaults|
      invariant 0 <= i <= |defaults|
      invariant merged == MergedRequest(request, defaults[..i])
    {
      var (k, v) := defaults[i];
      if Lookup(merged, k) == Null {
        merged := merged[k := v];
      }
      assert defaults[..i + 1][..i] == defaults[..i];
      i := i + 1;
    }
    assert defaults[..|defaults|] == defaults;
  }

  /** `$input ?: Request::all()`: a non-empty explicit input replaces the
      request entirely. */
  function SelectInput(explicit: Input, request: Input): (r: Input)
    ensures explicit != map[] ==> r == explicit
    ensures explicit == map[] ==> r == request
  {
    if explicit != map[] then explicit else request
  }

  /** What `lists` does once the pre-hook has run. */
  datatype PageMode = AllRows | Paginate(perPage: int)

  /** The page-size decision of `lists`: null fetches every row, a size below
      one falls back to the model's default page size. */
  function PageSize(perPage: Option<int>, modelPerPage: int): (m: PageMode)
    ensures m.AllRows? <==> perPage.None?
    ensures perPage.Some? && perPage.value >= 1 ==> m == Paginate(perPage.value)
    ensures perPage.Some? && perPage.value < 1 ==> m == Paginate(modelPerPage)
    ensures m.Paginate? && modelPerPage >= 1 ==> m.perPage >= 1
  {
    match perPage
    case None => AllRows
    case Some(n) => if n < 1 then Paginate(modelPerPage) else Paginate(n)
  }

  class ModelSelect {
    var modelClass: string
    var input: Input
    var clauses: seq<Clause>
    var orderKey: string
    var byKey: string

    /** The part of `__construct` after the model argument was accepted: a
        fresh builder and the default key names. */
    constructor (modelClass: string, input: Input)
      ensures this.modelClass == modelClass && this.input == input
      ensures clauses == [] && orderKey == "order" && byKey == "by"
    {
      this.modelClass := modelClass;
      this.input := input;
      clauses := [];
      orderKey := "order";
      byKey := "by";
    }

    /** `new ModelSelect($model, $input, $default)`: fails before touching the
        request when the model argument is unsupported; otherwise merges the
        defaults into the request and takes the explicit input if it is not
        empty, the merged request if it is. Returns the request as left. */
    static method Make(model: ModelArg, request: Input, explicit: Input := map[], defaults: Defaults := [])
        returns (r: Result<ModelSelect, ConfigError>, request': Input)
      ensures r.Failure? <==> model.Unsupported?
      ensures r.Failure? ==> request' == request
      ensures r.Success? ==>
                && fresh(r.value)
                && request' == MergedRequest(request, defaults)
                && r.value.modelClass == ModelClassOf(model).value
                && r.value.input == SelectInput(explicit, request')
                && r.value.clauses == []
                && r.value.orderKey == "order" && r.value.byKey == "by"
    {
      var cls := ModelClassOf(model);
      if cls.Failure? {
        return Failure(cls.error), request;
      }
      request' := MergeDefaults(request, defaults);
      var s := new ModelSelect(cls.value, SelectInput(explicit, request'));
      r := Success(s);
    }

    /** The closures `where` and `having` pass to `rule`. */
    method Apply(sink: Sink, field: string, op: string, v: Value)
      modifies this`clauses
      ensures clauses == old(clauses) + SinkClauses(sink, field, op, v)
    {
      match sink {
        case ToWhere =>
          if op == "not in" {
            clauses := clauses + [WhereNotIn(field, v)];
          } else if op == "in" {
            clauses := clauses + [WhereIn(field, v)];
          }
          clauses := clauses + [Clause.Where(field, op, v)];
        case ToHaving =>
          clauses := clauses + [Clause.Having(field, op, v)];
      }
    }

    /** One iteration of the `foreach` in `rule`: normalise the rule, skip it on
        an empty value, hand a callable the builder and the raw value, and
        otherwise pass the (field, operator, value) triple to the sink. */
    method ApplyRule(key: RuleKey, rule: Rule, sink: Sink)
      modifies this`clauses
      ensures clauses == old(clauses) + EntryClauses((key, rule), input, sink)
    {
      var field := KeyString(key);
      var target: Option<string> := None;
      var op: Option<string> := None;
      var transform: Option<Value -> Value> := None;
      match rule {
        case StrRule(s) =>
          if key.Position? {
            field := s;
          } else {
            op := Some(s);
          }
        case ArrRule(t, o, f) =>
          target, op, transform := t, o, f;
        case CallRule(_) =>
        case OtherRule =>
      }
      var v := Lookup(input, field);
      if IsEmpty(v) {
        // skipped: nothing reaches the builder
      } else if rule.CallRule? {
        clauses := clauses + [Callback(rule.tag, v)];
      } else {
        if target.Some? {
          field := target.value;
        }
        var operator := if op.Some? then op.value else "=";
        if transform.Some? {
          v := transform.value(v);
        }
        if operator == "like" {
          v := Str("%" + ToPhpString(v) + "%");
        }
        Apply(sink, field, operator, v);
      }
    }

    /** `rule`: the rules are applied one by one in declaration order. */
    method Rule(rules: Rules, sink: Sink)
      modifies this`clauses
      ensures clauses == old(clauses) + RulesClauses(rules, input, sink)
    {
      var i := 0;
      while i < |rules|
        invariant 0 <= i <= |rules|
        invariant clauses == old(clauses) + RulesClauses(rules[..i], input, sink)
      {
        ApplyRule(rules[i].0, rules[i].1, sink);
        assert rules[..i + 1][..i] == rules[..i];
        i := i + 1;
      }
      assert rules[..|rules|] == rules;
    }

    /** `where`: rules become `where` clauses, with an extra set-membership
        clause for `in` and `not in`. */
    method Where(rules: Rules)
      modifies this`clauses
      ensures clauses == old(clauses) + RulesClauses(rules, input, ToWhere)
    {
      Rule(rules, ToWhere);
    }

    /** `having`: rules become `having` clauses, whatever the operator. */
    method Having(rules: Rules)
      modifies this`clauses
      ensures clauses == old(clauses) + RulesClauses(rules, input, ToHaving)
    {
      Rule(rules, ToHaving);
    }

    /** `order`: sort by the whitelisted column the input names, in the
        requested direction if it is exactly "asc" or "desc", otherwise in
        "desc", which is then written back to the input. */
    method Order(spec: OrderSpec)
      modifies this`input, this`clauses
      ensures input == OrderedInput(old(input), orderKey, byKey, spec)
      ensures clauses == old(clauses) + OrderClauses(old(input), orderKey, byKey, spec)
    {
      var name := Lookup(input, orderKey);
      if Truthy(name) {
        var k := ArrayKey(name);
        if k.Some? && k.value in spec && Truthy(Str(spec[k.value])) {
          var field := spec[k.value];
          var requested := Lookup(input, byKey);
          var dir := Desc;
          if requested == Str("asc") {
            dir := Asc;
          } else if requested != Str("desc") {
            input := input[byKey := Str("desc")];
          }
          clauses := clauses + [OrderBy(field, dir)];
        }
      }
    }

    /** `setOrderKey`: the input keys that carry the sort key and direction. */
    method SetOrderKey(orderKey: string := "order", byKey: string := "by")
      modifies this`orderKey, this`byKey
      ensures this.orderKey == orderKey && this.byKey == byKey
    {
      this.orderKey := orderKey;
      this.byKey := byKey;
    }

    /** `orderToString`: snapshot the input without the order and by keys; the
        closure it returns is `SortLinkFor`. */
    method OrderToString(descClassName: string := "order-desc", ascClassName: string := "order-asc") returns (h: LinkHelper)
      ensures orderKey !in h.query && byKey !in h.query
      ensures forall k :: k in input && k != orderKey && k != byKey ==> k in h.query && h.query[k] == input[k]
      ensures h.query.Keys <= input.Keys
      ensures h.descClassName == descClassName && h.ascClassName == ascClassName
    {
      var query := BaseQuery(input, orderKey, byKey);
      h := LinkHelper(query, descClassName, ascClassName);
    }

    /** The closure of `orderToString`: it reads the live input and key names
        through `$this`, and the query snapshot through `h`. */
    function SortLinkFor(h: LinkHelper, name: string, getUrl: bool := true, defaultBy: string := "desc"): (r: SortLinkOutput)
      reads this
      ensures r.Url? <==> getUrl
      ensures getUrl ==>
                && r.query == h.query
                && r.sortParams != []
                && RequestedDirection(r) == Flip(ResolvedDirection(input, orderKey, byKey, name, defaultBy))
      ensures !getUrl ==>
                r == CssClass(if ResolvedDirection(input, orderKey, byKey, name, defaultBy) == "asc"
                              then h.ascClassName else h.descClassName)
    {
      SortLink(h, input, orderKey, byKey, name, getUrl, defaultBy)
    }

    /** `lists` up to the query it runs: the optional hook sees the builder,
        then the page-size decision is made. */
    method Lists(modelPerPage: int, hook: Option<string> := None, perPage: Option<int> := Some(0)) returns (mode: PageMode)
      modifies this`clauses
      ensures clauses == old(clauses) + (if hook.Some? then [Hook(hook.value)] else [])
      ensures mode == PageSize(perPage, modelPerPage)
    {
      if hook.Some? {
        clauses := clauses + [Hook(hook.value)];
      }
      if perPage.None? {
        return AllRows;
      }
      var n := perPage.value;
      if n < 1 {
        n := modelPerPage;
      }
      mode := Paginate(n);
    }
  }

  /** A list page filtered by name and sorted by creation time with a bogus
      direction: `like` wraps the name, the direction falls back to "desc",
      and the input records that fallback. The menu list's header for the
      creation column, built with the closure's default arguments, then shows
      the descending class and links to the ascending sort. */
  method AdminByCreatedScenario() returns (s: ModelSelect, h: LinkHelper)
    ensures s.clauses == [Where("name", "like", Str("%admin%")), OrderBy("created_at", Desc)]
    ensures Lookup(s.input, "by") == Str("desc")
    ensures s.SortLinkFor(h, "created", false) == CssClass("order-desc")
    ensures var link := s.SortLinkFor(h, "created");
            link.Url? && link.sortParams == [("order", "created"), ("by", "asc")]
  {
    var request := map["name" := Str("admin"), "order" := Str("created"), "by" := Str("bogus")];
    var r, _ := ModelSelect.Make(ClassName("Menu"), map[], request);
    s := r.value;
    assert s.input == request;
    var rules := [(Name("name"), StrRule("like"))];
    assert rules[..0] == [];
    LikeWrapsString("name", "admin", s.input);
    assert "%" + "admin" + "%" == "%admin%";
    assert RulesClauses(rules, s.input, ToWhere) == EntryClauses(rules[0], s.input, ToWhere);
    WhereClausesForOperator("name", "like", Str("%admin%"));
    assert EntryClauses(rules[0], s.input, ToWhere) == [Where("name", "like", Str("%admin%"))];
    s.Where(rules);
    assert s.clauses == [Where("name", "like", Str("%admin%"))];
    var spec := map["created" := "created_at"];
    assert OrderColumn(s.input, "order", spec) == Some("created_at");
    s.Order(spec);
    assert s.input == request["by" := Str("desc")];
    h := s.OrderToString();
  }
}
