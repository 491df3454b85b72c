/** The rule engine of `ModelSelect::rule`: each declared rule, read against the
    input, becomes nothing (empty value), a callable invocation, or a
    (field, operator, value) triple that `where` or `having` turns into builder
    clauses. Everything here is a function of the rules and an input snapshot;
    the loop that appends the clauses lives in the ModelSelect class. */
module RuleEngine {
  import opened PhpValues
  import opened QueryLog

  /** The key a rule is declared under: PHP arrays key by integer or string. */
  datatype RuleKey = Position(index: int) | Name(name: string)

  /** The shapes a declared rule can take. */
  datatype Rule =
      /** A bare string: equality on that field under an integer key, the
          operator under a string key. */
    | StrRule(s: string)
      /** `[field?, operator?, transform?]`; an unset or null slot is None, and a
          slot 2 that is not callable is None too. */
    | ArrRule(target: Option<string>, op: Option<string>, transform: Option<Value -> Value>)
      /** A callable (closure or callable array) receiving the builder and the value. */
    | CallRule(tag: string)
      /** Any other value (an int, a bool, null ...). */
    | OtherRule

  type Rules = seq<(RuleKey, Rule)>

  /** The rule after shape normalisation: where the value is read from, and
      either the callable or the field, operator and transform. */
  datatype Shape =
    | Callable(lookup: string, tag: string)
    | Triple(lookup: string, field: string, op: string, transform: Option<Value -> Value>)

  /** What one rule contributes once its value is known to be non-empty. */
  datatype Resolved =
    | Invoke(tag: string, raw: Value)
    | Emit(field: string, op: string, value: Value)

  /** The two closures `where` and `having` hand to `rule`. */
  datatype Sink = ToWhere | ToHaving

  function KeyString(key: RuleKey): string {
    match key
    case Position(i) => DecimalString(i)
    case Name(n) => n
  }

  /** Shape normalisation: a string under an integer key names the field and
      means `=`; a string under a name is the operator; slot 0 renames the
      field, slot 1 is the operator (default `=`), slot 2 the transform. The
      value is read under the rule's own key except for a string rule under an
      integer key, which reads under the field it names. */
  function Normalize(key: RuleKey, rule: Rule): (sh: Shape)
    ensures !(key.Position? && rule.StrRule?) ==> sh.lookup == KeyString(key)
    ensures key.Position? && rule.StrRule? ==> sh == Triple(rule.s, rule.s, "=", None)
    ensures key.Name? && rule.StrRule? ==> sh == Triple(key.name, key.name, rule.s, None)
    ensures rule.ArrRule? ==>
              sh == Triple(KeyString(key), rule.target.GetOr(KeyString(key)), rule.op.GetOr("="), rule.transform)
    ensures sh.Callable? <==> rule.CallRule?
    ensures rule.OtherRule? ==> sh == Triple(KeyString(key), KeyString(key), "=", None)
  {
    match rule
    case StrRule(s) =>
      if key.Position? then Triple(s, s, "=", None)
      else Triple(key.name, key.name, s, None)
    case ArrRule(target, op, xf) =>
      Triple(KeyString(key), target.GetOr(KeyString(key)), op.GetOr("="), xf)
    case CallRule(tag) => Callable(KeyString(key), tag)
    case OtherRule => Triple(KeyString(key), KeyString(key), "=", None)
  }

  /** The value as it reaches the builder: transformed first, then wrapped in
      wildcards for `like`. */
  function ShapeValue(op: string, transform: Option<Value -> Value>, raw: Value): (r: Value)
    ensures op != "like" && transform.None? ==> r == raw
    ensures op != "like" && transform.Some? ==> r == transform.value(raw)
    ensures op == "like" ==>
              && r.Str? && |r.s| >= 2 && r.s[0] == '%' && r.s[|r.s| - 1] == '%'
              && r.s[1..|r.s| - 1] == ToPhpString(if transform.Some? then transform.value(raw) else raw)
  {
    var v := if transform.Some? then transform.value(raw) else raw;
    if op == "like" then Str("%" + ToPhpString(v) + "%") else v
  }

  /** One iteration of the `foreach` in `rule`. */
  function RuleStep(key: RuleKey, rule: Rule, input: Input): (r: Option<Resolved>)
    ensures r.None? <==> IsEmpty(Lookup(input, Normalize(key, rule).lookup))
    ensures r.Some? ==> (r.value.Invoke? <==> rule.CallRule?)
    ensures r.Some? && r.value.Invoke? ==>
              r.value == Invoke(rule.tag, Lookup(input, KeyString(key)))
  {
    var shape := Normalize(key, rule);
    var raw := Lookup(input, shape.lookup);
    if IsEmpty(raw) then None
    else match shape
      case Callable(_, tag) => Some(Invoke(tag, raw))
      case Triple(_, field, op, xf) => Some(Emit(field, op, ShapeValue(op, xf, raw)))
  }

  /** The builder calls the `where` or `having` closure makes for one triple. */
  function SinkClauses(sink: Sink, field: string, op: string, v: Value): seq<Clause> {
    match sink
    case ToWhere =>
      (if op == "not in" then [WhereNotIn(field, v)]
       else if op == "in" then [WhereIn(field, v)]
       else [])
      + [Where(field, op, v)]
    case ToHaving => [Having(field, op, v)]
  }

  function StepClauses(step: Option<Resolved>, sink: Sink): seq<Clause> {
    match step
    case None => []
    case Some(Invoke(tag, raw)) => [Callback(tag, raw)]
    case Some(Emit(field, op, v)) => SinkClauses(sink, field, op, v)
  }

  /** Every clause the rules append, rule by rule in declaration order. */
  function RulesClauses(rules: Rules, input: Input, sink: Sink): seq<Clause>
    decreases |rules|
  {
    if rules == [] then []
    else RulesClauses(rules[..|rules| - 1], input, sink) + EntryClauses(rules[|rules| - 1], input, sink)
  }

  function EntryClauses(entry: (RuleKey, Rule), input: Input, sink: Sink): seq<Clause> {
    StepClauses(RuleStep(entry.0, entry.1, input), sink)
  }

  /** The rules whose input value is not empty. */
  function Firing(rules: Rules, input: Input): nat
    decreases |rules|
  {
    if rules == [] then 0
    else
      var last := rules[|rules| - 1];
      Firing(rules[..|rules| - 1], input)
        + (if RuleStep(last.0, last.1, input).Some? then 1 else 0)
  }

  predicate IsSetOp(step: Option<Resolved>) {
    step.Some? && step.value.Emit? && step.value.op in {"in", "not in"}
  }

  /** The firing rules whose operator is `in` or `not in`. */
  function FiringSetOps(rules: Rules, input: Input): nat
    decreases |rules|
  {
    if rules == [] then 0
    else
      var last := rules[|rules| - 1];
      FiringSetOps(rules[..|rules| - 1], input)
        + (if IsSetOp(RuleStep(last.0, last.1, input)) then 1 else 0)
  }

  // ---------------------------------------------------------------------
  // Rule shapes

  /** A string under an integer key is equality on the field it names, read
      from the input under that field. */
  lemma PositionalStringIsEquality(i: int, s: string, input: Input)
    ensures RuleStep(Position(i), StrRule(s), input)
            == if IsEmpty(Lookup(input, s)) then None else Some(Emit(s, "=", Lookup(input, s)))
  {
  }

  /** A string under a field name is the operator for that field. */
  lemma NamedStringIsOperator(n: string, op: string, input: Input)
    requires op != "like"
    ensures RuleStep(Name(n), StrRule(op), input)
            == if IsEmpty(Lookup(input, n)) then None else Some(Emit(n, op, Lookup(input, n)))
  {
  }

  /** The value is always read under the rule's own key; slot 0 only renames
      the field of the emitted clause, an unset slot 1 means `=`, and slot 2
      transforms the value. */
  lemma ArrayRuleReadsOwnKey(key: RuleKey, t: Option<string>, o: Option<string>, xf: Option<Value -> Value>, input: Input)
    requires Truthy(Lookup(input, KeyString(key)))
    requires o != Some("like")
    ensures var raw := Lookup(input, KeyString(key));
            RuleStep(key, ArrRule(t, o, xf), input)
            == Some(Emit(t.GetOr(KeyString(key)), o.GetOr("="), if xf.Some? then xf.value(raw) else raw))
  {
  }

  /** Every rule but a string under an integer key reads its value under its
      own key, whatever slot 0 says. */
  lemma ReadsOwnKey(key: RuleKey, rule: Rule, input: Input)
    requires !(key.Position? && rule.StrRule?)
    ensures RuleStep(key, rule, input).None? <==> IsEmpty(Lookup(input, KeyString(key)))
  {
  }

  /** The transform runs before `like` wraps the value. */
  lemma TransformThenLike(key: RuleKey, target: Option<string>, f: Value -> Value, input: Input)
    requires Truthy(Lookup(input, KeyString(key)))
    ensures RuleStep(key, ArrRule(target, Some("like"), Some(f)), input)
            == Some(Emit(target.GetOr(KeyString(key)), "like",
                         Str("%" + ToPhpString(f(Lookup(input, KeyString(key)))) + "%")))
  {
  }

  /** `like` on a string input `s` matches `%s%`. */
  lemma LikeWrapsString(n: string, s: string, input: Input)
    requires Lookup(input, n) == Str(s) && s != "" && s != "0"
    ensures RuleStep(Name(n), StrRule("like"), input) == Some(Emit(n, "like", Str("%" + s + "%")))
  {
  }

  /** Emptiness is tested on the raw value: a transform that returns an empty
      value still reaches the builder. */
  lemma EmptinessTestedBeforeTransform(n: string, input: Input)
    requires Truthy(Lookup(input, n))
    ensures RuleStep(Name(n), ArrRule(None, None, Some((v: Value) => Null)), input)
            == Some(Emit(n, "=", Null))
  {
  }

  /** A callable rule sees the raw value, untransformed and unwrapped, and is
      the only thing its rule contributes, under either sink. */
  lemma CallableGetsRawValue(key: RuleKey, tag: string, input: Input, sink: Sink)
    requires Truthy(Lookup(input, KeyString(key)))
    ensures StepClauses(RuleStep(key, CallRule(tag), input), sink)
            == [Callback(tag, Lookup(input, KeyString(key)))]
  {
  }

  /** A rule whose value is empty contributes nothing and invokes nothing. */
  lemma EmptyValueEmitsNothing(key: RuleKey, rule: Rule, input: Input, sink: Sink)
    requires IsEmpty(Lookup(input, Normalize(key, rule).lookup))
    ensures StepClauses(RuleStep(key, rule, input), sink) == []
  {
  }

  // ---------------------------------------------------------------------
  // Clauses of `where` and `having`

  /** `in` and `not in` under `where` emit the set-membership clause and then
      the generic clause; every other operator emits the generic clause alone. */
  lemma WhereClausesForOperator(field: string, op: string, v: Value)
    ensures op == "in" ==> SinkClauses(ToWhere, field, op, v) == [WhereIn(field, v), Where(field, op, v)]
    ensures op == "not in" ==> SinkClauses(ToWhere, field, op, v) == [WhereNotIn(field, v), Where(field, op, v)]
    ensures op !in {"in", "not in"} ==> SinkClauses(ToWhere, field, op, v) == [Where(field, op, v)]
  {
  }

  /** Rules are applied in declaration order: the clauses of a concatenation
      are the clauses of its parts, in order. */
  lemma {:induction false} RulesClausesAppend(a: Rules, b: Rules, input: Input, sink: Sink)
    ensures RulesClauses(a + b, input, sink) == RulesClauses(a, input, sink) + RulesClauses(b, input, sink)
    decreases |b|
  {
    if b == [] {
      assert a + b == a;
    } else {
      var b', last := b[..|b| - 1], b[|b| - 1];
      assert (a + b)[..|a + b| - 1] == a + b';
      assert (a + b)[|a + b| - 1] == last;
      calc {
        RulesClauses(a + b, input, sink);
        RulesClauses(a + b', input, sink) + EntryClauses(last, input, sink);
        { RulesClausesAppend(a, b', input, sink); }
        RulesClauses(a, input, sink) + RulesClauses(b', input, sink) + EntryClauses(last, input, sink);
        RulesClauses(a, input, sink) + RulesClauses(b, input, sink);
      }
    }
  }

  /** Rules whose values are all empty leave the builder untouched. */
  lemma {:induction false} AllEmptyEmitsNothing(rules: Rules, input: Input, sink: Sink)
    requires forall k :: 0 <= k < |rules| ==> IsEmpty(Lookup(input, Normalize(rules[k].0, rules[k].1).lookup))
    ensures RulesClauses(rules, input, sink) == []
    decreases |rules|
  {
    if rules != [] {
      var init := rules[..|rules| - 1];
      forall k | 0 <= k < |init|
        ensures IsEmpty(Lookup(input, Normalize(init[k].0, init[k].1).lookup))
      {
        assert init[k] == rules[k];
      }
      AllEmptyEmitsNothing(init, input, sink);
    }
  }

  /** `having` appends exactly one clause per rule whose value is not empty,
      and never a `where` or set-membership clause. */
  lemma {:induction false} HavingOnePerFiringRule(rules: Rules, input: Input)
    ensures |RulesClauses(rules, input, ToHaving)| == Firing(rules, input)
    ensures forall c :: c in RulesClauses(rules, input, ToHaving) ==> c.Having? || c.Callback?
    decreases |rules|
  {
    if rules != [] {
      HavingOnePerFiringRule(rules[..|rules| - 1], input);
    }
  }

  /** `where` appends one clause per firing rule plus one set-membership
      clause per firing `in` / `not in` rule. */
  lemma {:induction false} WhereClauseCount(rules: Rules, input: Input)
    ensures |RulesClauses(rules, input, ToWhere)| == Firing(rules, input) + FiringSetOps(rules, input)
    ensures forall c :: c in RulesClauses(rules, input, ToWhere) ==> !c.Having?
    decreases |rules|
  {
    if rules != [] {
      WhereClauseCount(rules[..|rules| - 1], input);
    }
  }
}
