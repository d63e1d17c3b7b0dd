/** Delivery filter rules, and their agreement on scrubbed and original payloads. */
module FilterEngine {
  import opened Wrappers
  import opened JsonTree
  import PiiScrubber
  import Strings

  datatype Operator = Eq | Neq | Gt | Lt | Contains | Exists | Unknown

  datatype Rule = Rule(field: string, operator: Operator, value: Option<Json>)

  /** JavaScript's `>`, `<` and `includes` with a rule value of any type on the right. */
  datatype Coercions = Coercions(
    greater: (real, Option<Json>) -> bool,
    less: (real, Option<Json>) -> bool,
    includes: (string, Option<Json>) -> bool)

  predicate Truthy(t: Json) {
    match t
    case Null => false
    case Bool(b) => b
    case Num(n) => n != 0.0
    case Str(s) => s != ""
    case Node(_, _) => true
  }

  /** One step along a path: the property's value, or undefined when the object is falsy or lacks the key. */
  function Property(current: Option<Json>, key: string): Option<Json> {
    if current.Some? && Truthy(current.value) && current.value.Node? && key in current.value.kids
    then Some(current.value.kids[key])
    else None
  }

  function Reduce(current: Option<Json>, path: Path): Option<Json>
    decreases |path|
  {
    if path == [] then current else Reduce(Property(current, path[0]), path[1..])
  }

  function GetNestedValue(t: Json, field: string): Option<Json> {
    Reduce(Some(t), Strings.Split(field, '.'))
  }

  /** `===`: objects are never identical to the rule's value. */
  predicate StrictEquals(a: Option<Json>, b: Option<Json>) {
    a == b && !(a.Some? && a.value.Node?)
  }

  function Subject(eventType: string, payload: Json): Json {
    Node(false, map["eventType" := Str(eventType), "payload" := payload])
  }

  predicate EvaluateRule(c: Coercions, rule: Rule, eventType: string, payload: Json) {
    var actual := GetNestedValue(Subject(eventType, payload), rule.field);
    match rule.operator
    case Eq => StrictEquals(actual, rule.value)
    case Neq => !StrictEquals(actual, rule.value)
    case Gt => actual.Some? && actual.value.Num? && c.greater(actual.value.n, rule.value)
    case Lt => actual.Some? && actual.value.Num? && c.less(actual.value.n, rule.value)
    case Contains => actual.Some? && actual.value.Str? && c.includes(actual.value.s, rule.value)
    case Exists => actual.Some? && actual.value != Null
    case Unknown => true
  }

  predicate Evaluate(c: Coercions, rules: seq<Rule>, eventType: string, payload: Json) {
    forall rule <- rules :: EvaluateRule(c, rule, eventType, payload)
  }

  // ---------- the path that `reduce` follows ----------

  lemma {:induction false} ReduceNothing(path: Path)
    ensures Reduce(None, path) == None
  {
    if path != [] {
      ReduceNothing(path[1..]);
    }
  }

  /** Following a path by `reduce` is looking it up. */
  lemma {:induction false} ReduceIsLookup(t: Json, path: Path)
    ensures Reduce(Some(t), path) == Lookup(t, path)
    decreases |path|
  {
    if path != [] {
      if t.Node? && path[0] in t.kids {
        ReduceIsLookup(t.kids[path[0]], path[1..]);
      } else {
        ReduceNothing(path[1..]);
      }
    }
  }

  /** The payload path of a rule, if it looks into the payload. */
  function PayloadPath(rule: Rule): Option<Path> {
    var path := Strings.Split(rule.field, '.');
    if path[0] == "payload" then Some(path[1..]) else None
  }

  lemma ActualValue(rule: Rule, eventType: string, payload: Json)
    ensures GetNestedValue(Subject(eventType, payload), rule.field) ==
            if PayloadPath(rule).Some? then Lookup(payload, PayloadPath(rule).value)
            else Lookup(Subject(eventType, Null), Strings.Split(rule.field, '.'))
  {
    var path := Strings.Split(rule.field, '.');
    ReduceIsLookup(Subject(eventType, payload), path);
  }

  // ---------- what verdicts mean ----------

  /** Every rule must pass: rule lists conjoin, and no rules pass. */
  lemma RulesConjoin(c: Coercions, a: seq<Rule>, b: seq<Rule>, rule: Rule, eventType: string, payload: Json)
    ensures Evaluate(c, a + b, eventType, payload) <==> Evaluate(c, a, eventType, payload) && Evaluate(c, b, eventType, payload)
    ensures Evaluate(c, [rule], eventType, payload) <==> EvaluateRule(c, rule, eventType, payload)
    ensures Evaluate(c, [], eventType, payload)
  {
    if Evaluate(c, a + b, eventType, payload) {
      assert forall r <- a :: r in a + b;
      assert forall r <- b :: r in a + b;
    }
    assert rule in [rule];
  }

  /** A rule reads the value at its dotted field, in an object holding the event type and the payload. */
  lemma ReadsField(eventType: string, payload: Json, keys: Path)
    requires keys != [] && Strings.Free(keys, '.')
    ensures GetNestedValue(Subject(eventType, payload), Strings.Joined(keys, '.')) ==
            if keys[0] == "payload" then Lookup(payload, keys[1..])
            else if keys == ["eventType"] then Some(Str(eventType))
            else None
  {
    var subject := Subject(eventType, payload);
    Strings.JoinSplits(keys, '.');
    ReduceIsLookup(subject, keys);
    if keys[0] == "eventType" {
      assert subject.kids[keys[0]] == Str(eventType);
      assert keys == [keys[0]] + keys[1..];
    }
  }

  /** `eq` asks for the same primitive value, and `neq` is its negation. */
  lemma EqualityMeaning(c: Coercions, field: string, value: Option<Json>, eventType: string, payload: Json)
    ensures var actual := GetNestedValue(Subject(eventType, payload), field);
            && (EvaluateRule(c, Rule(field, Eq, value), eventType, payload) <==>
                  actual == value && (actual.Some? ==> !actual.value.Node?))
            && (EvaluateRule(c, Rule(field, Neq, value), eventType, payload) <==>
                  !EvaluateRule(c, Rule(field, Eq, value), eventType, payload))
  {
  }

  /** `contains` is of strings only, `exists` fails for a missing value and null, and an unknown operator passes. */
  lemma PresenceMeaning(c: Coercions, field: string, value: Option<Json>, eventType: string, payload: Json)
    ensures var actual := GetNestedValue(Subject(eventType, payload), field);
            && (EvaluateRule(c, Rule(field, Contains, value), eventType, payload) <==>
                  actual.Some? && actual.value.Str? && c.includes(actual.value.s, value))
            && (EvaluateRule(c, Rule(field, Exists, value), eventType, payload) <==> actual != None && actual != Some(Null))
            && EvaluateRule(c, Rule(field, Unknown, value), eventType, payload)
  {
  }

  /** The comparisons of two numbers are those of the reals. */
  ghost predicate RealOrder(c: Coercions) {
    && (forall a: real, b: real :: c.greater(a, Some(Num(b))) <==> a > b)
    && (forall a: real, b: real :: c.less(a, Some(Num(b))) <==> a < b)
  }

  /** `gt` and `lt` compare numbers only; of a number with a number exactly one of `gt`, `eq` and `lt` holds. */
  lemma OrderMeaning(c: Coercions, field: string, value: Option<Json>, eventType: string, payload: Json)
    ensures var actual := GetNestedValue(Subject(eventType, payload), field);
            var gt := EvaluateRule(c, Rule(field, Gt, value), eventType, payload);
            var lt := EvaluateRule(c, Rule(field, Lt, value), eventType, payload);
            && (gt <==> actual.Some? && actual.value.Num? && c.greater(actual.value.n, value))
            && (lt <==> actual.Some? && actual.value.Num? && c.less(actual.value.n, value))
            && (RealOrder(c) && actual.Some? && actual.value.Num? && value.Some? && value.value.Num? ==>
                  && (gt <==> actual.value.n > value.value.n)
                  && (lt <==> actual.value.n < value.value.n)
                  && (EvaluateRule(c, Rule(field, Eq, value), eventType, payload) <==> !gt && !lt))
  {
    EqualityMeaning(c, field, value, eventType, payload);
  }

  // ---------- scrubbing does not change verdicts ----------

  /** No scrubbed path is the rule's payload path or leads to it. */
  ghost predicate Visible(rule: Rule, paths: set<Path>) {
    PayloadPath(rule).Some? ==> PiiScrubber.Untouched(paths, PayloadPath(rule).value)
  }

  lemma RuleUnaffected(c: Coercions, rule: Rule, eventType: string, payload: Json, fields: seq<string>, mask: string)
    requires Visible(rule, PiiScrubber.SetOf(PiiScrubber.PathsOf(fields)))
    ensures EvaluateRule(c, rule, eventType, PiiScrubber.Scrub(payload, fields, mask))
            == EvaluateRule(c, rule, eventType, payload)
  {
    ActualValue(rule, eventType, payload);
    ActualValue(rule, eventType, PiiScrubber.Scrub(payload, fields, mask));
    if PayloadPath(rule).Some? {
      PiiScrubber.ScrubPositions(payload, fields, mask, PayloadPath(rule).value);
    }
  }

  /** When no scrubbed field is at or above a rule's path, the verdict on the scrubbed payload is that on the original. */
  lemma VerdictUnaffected(c: Coercions, rules: seq<Rule>, eventType: string, payload: Json, fields: seq<string>, mask: string)
    requires forall rule <- rules :: Visible(rule, PiiScrubber.SetOf(PiiScrubber.PathsOf(fields)))
    ensures Evaluate(c, rules, eventType, PiiScrubber.Scrub(payload, fields, mask)) == Evaluate(c, rules, eventType, payload)
  {
    forall rule | rule in rules
      ensures EvaluateRule(c, rule, eventType, PiiScrubber.Scrub(payload, fields, mask))
              == EvaluateRule(c, rule, eventType, payload)
    {
      RuleUnaffected(c, rule, eventType, payload, fields, mask);
    }
  }

  /** Objects nested along a path, with a value at its end. */
  function Chain(path: Path, value: Json): Json {
    if path == [] then value else Node(false, map[path[0] := Chain(path[1..], value)])
  }

  lemma {:induction false} ChainLookup(path: Path, value: Json)
    ensures Lookup(Chain(path, value), path) == Some(value)
  {
    if path != [] {
      ChainLookup(path[1..], value);
    }
  }

  /** The condition is exact: a field at or above a rule's path flips the verdict of an equality rule on some payload. */
  lemma HiddenRuleCanFlip(c: Coercions, field: string, eventType: string, fields: seq<string>, mask: string)
    requires !Visible(Rule(field, Eq, Some(Num(1.0))), PiiScrubber.SetOf(PiiScrubber.PathsOf(fields)))
    ensures var rule := Rule(field, Eq, Some(Num(1.0)));
            var payload := Chain(PayloadPath(rule).value, Num(1.0));
            && EvaluateRule(c, rule, eventType, payload)
            && !EvaluateRule(c, rule, eventType, PiiScrubber.Scrub(payload, fields, mask))
  {
    var rule := Rule(field, Eq, Some(Num(1.0)));
    var path := PayloadPath(rule).value;
    var payload := Chain(path, Num(1.0));
    var paths := PiiScrubber.SetOf(PiiScrubber.PathsOf(fields));
    ChainLookup(path, Num(1.0));
    ActualValue(rule, eventType, payload);
    ActualValue(rule, eventType, PiiScrubber.Scrub(payload, fields, mask));
    PiiScrubber.MaskAllIsScrubSet(payload, PiiScrubber.PathsOf(fields), Str(mask));
    PiiScrubber.PositionsAfter(payload, paths, Str(mask), path);
    var p :| p in paths && PiiScrubber.Prefix(p, path);
    if p == path {
      assert path in paths;
    } else {
      assert PiiScrubber.Cut(paths, path);
    }
  }
}
