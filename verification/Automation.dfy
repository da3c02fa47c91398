/**
 Automation conditions: a small parser for "field operator value", the builder
 that sorts conditions into understood and invalid ones, and the interpreter that
 triggers only on what it understands.
 */
module Automation {
  import opened Prelude
  import Lexicographic

  const MAX_CONDITION: nat := 500
  const MAX_ACTIONS: nat := 10
  const MAX_TEXT: nat := 200

  datatype Operator = Equal | NotEqual | AtLeast | AtMost | Above | Below

  datatype Value = Null | Bool(b: bool) | Num(n: real) | Str(s: string) | List(items: seq<Value>) | Dict(entries: map<string, Value>)

  // A stored definition may name any operator; the parser only names those below.
  datatype Condition = Condition(field: string, operator: string, value: Value)

  datatype Definition = Definition(conditions: seq<Condition>, invalid: seq<string>, actions: seq<string>)

  function Text(op: Operator): (t: string)
    ensures 1 <= |t| <= 2 && forall c :: c in t ==> c in "=!<>"
  {
    match op
    case Equal => "=="
    case NotEqual => "!="
    case AtLeast => ">="
    case AtMost => "<="
    case Above => ">"
    case Below => "<"
  }

  // The order in which operators are looked for.
  const OPERATORS: seq<Operator> := [Equal, NotEqual, AtLeast, AtMost, Above, Below]

  function Rank(op: Operator): (r: nat)
    ensures r < |OPERATORS| && OPERATORS[r] == op
  {
    match op
    case Equal => 0
    case NotEqual => 1
    case AtLeast => 2
    case AtMost => 3
    case Above => 4
    case Below => 5
  }

  // ------------------------------------------------------------- text tools

  predicate IsSpace(c: char) {
    var u := c as int;
    || 9 <= u <= 13 || 28 <= u <= 32 || u == 133 || u == 160 || u == 5760 || 8192 <= u <= 8202
    || u == 8232 || u == 8233 || u == 8239 || u == 8287 || u == 12288
  }

  function StripLeft(s: string): string {
    if s != "" && IsSpace(s[0]) then StripLeft(s[1..]) else s
  }

  function StripRight(s: string): string {
    if s != "" && IsSpace(s[|s| - 1]) then StripRight(s[..|s| - 1]) else s
  }

  function Strip(s: string): string { StripRight(StripLeft(s)) }

  // Stripping takes off white space at both ends, all of it and nothing else.
  lemma {:induction false} StripTakesBlanks(s: string) returns (left: string, right: string)
    ensures s == left + Strip(s) + right
    ensures (forall c :: c in left + right ==> IsSpace(c)) && (Strip(s) == "" || Trimmed(Strip(s)))
  {
    left := LeftBlanks(s);
    var rest := StripLeft(s);
    right := RightBlanks(rest);
    if Strip(s) != "" {
      assert Strip(s)[0] == rest[0];
    }
  }

  lemma {:induction false} LeftBlanks(s: string) returns (left: string)
    ensures s == left + StripLeft(s) && forall c :: c in left ==> IsSpace(c)
    ensures StripLeft(s) == "" || !IsSpace(StripLeft(s)[0])
  {
    left := "";
    if s != "" && IsSpace(s[0]) {
      left := LeftBlanks(s[1..]);
      left := [s[0]] + left;
    }
  }

  lemma {:induction false} RightBlanks(s: string) returns (right: string)
    ensures s == StripRight(s) + right && forall c :: c in right ==> IsSpace(c)
    ensures StripRight(s) == "" || !IsSpace(StripRight(s)[|StripRight(s)| - 1])
  {
    right := "";
    if s != "" && IsSpace(s[|s| - 1]) {
      right := RightBlanks(s[..|s| - 1]);
      right := right + [s[|s| - 1]];
    }
  }

  predicate OccursAt(s: string, t: string, i: int) {
    0 <= i && i + |t| <= |s| && s[i..i + |t|] == t
  }

  // First position of t in s, or -1.
  function Find(s: string, t: string): (at: int)
    requires t != ""
    ensures at == -1 || OccursAt(s, t, at)
    ensures forall i :: OccursAt(s, t, i) ==> 0 <= at <= i
  {
    FindFrom(s, t, 0)
  }

  function FindFrom(s: string, t: string, from: nat): (at: int)
    requires t != "" && from <= |s|
    ensures at == -1 || (from <= at && OccursAt(s, t, at))
    ensures forall i :: from <= i && OccursAt(s, t, i) ==> 0 <= at <= i
    decreases |s| - from
  {
    if OccursAt(s, t, from) then from
    else if from == |s| then -1
    else FindFrom(s, t, from + 1)
  }

  // ---------------------------------------------------------------- parsing

  datatype Parts = Parts(field: string, operator: Operator, text: string)

  function SplitAt(s: string, op: Operator, at: nat): Parts
    requires at + |Text(op)| <= |s|
  {
    Parts(Strip(s[..at]), op, Strip(s[at + |Text(op)|..]))
  }

  function SplitFrom(s: string, rank: nat): Option<Parts>
    requires rank <= |OPERATORS|
    decreases |OPERATORS| - rank
  {
    if rank == |OPERATORS| then None
    else if Find(s, Text(OPERATORS[rank])) > 0 then Some(SplitAt(s, OPERATORS[rank], Find(s, Text(OPERATORS[rank]))))
    else SplitFrom(s, rank + 1)
  }

  function SplitCondition(raw: string): Option<Parts> {
    var s := Strip(raw);
    if s == "" || |s| > MAX_CONDITION then None else SplitFrom(s, 0)
  }

  predicate Letter(c: char) { 'A' <= c <= 'Z' || 'a' <= c <= 'z' || c == '_' }

  predicate FieldPattern(f: string) {
    1 <= |f| <= 65 && Letter(f[0]) && forall i :: 0 < i < |f| ==> Letter(f[i]) || '0' <= f[i] <= '9'
  }

  // One to 65 letters, digits and underscores, the first no digit.
  lemma FieldIsAccepted(f: string)
    ensures FieldPattern(f) <==>
              && 1 <= |f| <= 65 && !('0' <= f[0] <= '9')
              && forall i :: 0 <= i < |f| ==>
                   'a' <= f[i] <= 'z' || 'A' <= f[i] <= 'Z' || '0' <= f[i] <= '9' || f[i] == '_'
  {
    if 1 <= |f| <= 65 && Letter(f[0]) && !FieldPattern(f) {
      var i :| 0 < i < |f| && !(Letter(f[i]) || '0' <= f[i] <= '9');
    }
  }

  // `json` gives the parsed value, or none where parsing fails.
  function ParseCondition(json: string -> Option<Value>, raw: string): Option<Condition> {
    var parts := SplitCondition(raw);
    if parts.None? || parts.value.field == "" || parts.value.text == "" then None
    else if !FieldPattern(parts.value.field) then None
    else
      var value := json(parts.value.text);
      if value.None? || value.value.List? || value.value.Dict? then None
      else Some(Condition(parts.value.field, Text(parts.value.operator), value.value))
  }

  // ----------------------------------------------------------- interpreting

  function AsNumber(v: Value): Option<real> {
    match v
    case Num(n) => Some(n)
    case Bool(b) => Some(if b then 1.0 else 0.0)
    case _ => None
  }

  // Truth values equal the numbers 0 and 1, also inside lists and dictionaries.
  predicate SameValue(actual: Value, expected: Value)
    decreases actual
  {
    if AsNumber(actual).Some? && AsNumber(expected).Some? then AsNumber(actual) == AsNumber(expected)
    else
      match (actual, expected)
      case (List(x), List(y)) => |x| == |y| && forall i :: 0 <= i < |x| ==> SameValue(x[i], y[i])
      case (Dict(x), Dict(y)) => x.Keys == y.Keys && forall k :: k in x ==> SameValue(x[k], y[k])
      case _ => actual == expected
  }

  // The first position from `from` on where two lists differ, or where one of them ends.
  function DifferAt(x: seq<Value>, y: seq<Value>, from: nat): (k: nat)
    requires from <= |x| && from <= |y|
    ensures from <= k <= |x| && k <= |y|
    ensures forall i :: from <= i < k ==> SameValue(x[i], y[i])
    ensures k < |x| && k < |y| ==> !SameValue(x[k], y[k])
    decreases |x| - from
  {
    if from == |x| || from == |y| || !SameValue(x[from], y[from]) then from else DifferAt(x, y, from + 1)
  }

  datatype Comparison = Smaller | Same | Greater

  function CompareNumbers(a: real, b: real): Comparison {
    if a < b then Smaller else if a == b then Same else Greater
  }

  function CompareStrings(a: string, b: string): Comparison {
    if Lexicographic.Less(a, b) then Smaller else if a == b then Same else Greater
  }

  // Lists compare by their first difference, or else by length; values of kinds that
  // have no common order do not compare.
  function CompareValues(actual: Value, expected: Value): Option<Comparison>
    decreases actual
  {
    var a, e := AsNumber(actual), AsNumber(expected);
    if a.Some? && e.Some? then Some(CompareNumbers(a.value, e.value))
    else
      match (actual, expected)
      case (Str(x), Str(y)) => Some(CompareStrings(x, y))
      case (List(x), List(y)) =>
        var k := DifferAt(x, y, 0);
        if k < |x| && k < |y| then CompareValues(x[k], y[k]) else Some(CompareNumbers(|x| as real, |y| as real))
      case _ => None
  }

  // What has no order counts as not holding.
  predicate Ordered(op: Operator, actual: Value, expected: Value) {
    match (op, CompareValues(actual, expected))
    case (Above, Some(c)) => c.Greater?
    case (Below, Some(c)) => c.Smaller?
    case (AtLeast, Some(c)) => !c.Smaller?
    case (AtMost, Some(c)) => !c.Greater?
    case _ => false
  }

  // Values that compare do so as the same exactly when they are equal, and turning the
  // comparison round turns its result round.
  lemma {:induction false} ComparisonIsConsistent(a: Value, b: Value)
    requires CompareValues(a, b).Some?
    ensures CompareValues(a, b).value.Same? <==> SameValue(a, b)
    ensures CompareValues(b, a) == Some(match CompareValues(a, b).value case Smaller => Greater case Same => Same case Greater => Smaller)
    decreases a
  {
    if a.Str? && b.Str? {
      Lexicographic.Total(a.s, b.s);
      if Lexicographic.Leq(a.s, b.s) && Lexicographic.Leq(b.s, a.s) {
        Lexicographic.Antisymmetric(a.s, b.s);
      }
    } else if a.List? && b.List? {
      var k := DifferAt(a.items, b.items, 0);
      SameValueTurns(a.items, b.items);
      DifferAtTurns(a.items, b.items, 0);
      if k < |a.items| && k < |b.items| {
        ComparisonIsConsistent(a.items[k], b.items[k]);
      }
    }
  }

  lemma {:induction false} SameTurns(a: Value, b: Value)
    ensures SameValue(a, b) <==> SameValue(b, a)
    decreases a
  {
    if a.List? && b.List? {
      SameValueTurns(a.items, b.items);
    } else if a.Dict? && b.Dict? && a.entries.Keys == b.entries.Keys {
      forall k | k in a.entries ensures SameValue(a.entries[k], b.entries[k]) <==> SameValue(b.entries[k], a.entries[k]) {
        SameTurns(a.entries[k], b.entries[k]);
      }
    }
  }

  lemma {:induction false} SameValueTurns(x: seq<Value>, y: seq<Value>)
    ensures forall i :: 0 <= i < |x| && i < |y| ==> (SameValue(x[i], y[i]) <==> SameValue(y[i], x[i]))
    decreases x
  {
    forall i | 0 <= i < |x| && i < |y| ensures SameValue(x[i], y[i]) <==> SameValue(y[i], x[i]) {
      SameTurns(x[i], y[i]);
    }
  }

  lemma {:induction false} DifferAtTurns(x: seq<Value>, y: seq<Value>, from: nat)
    requires from <= |x| && from <= |y|
    requires forall i :: 0 <= i < |x| && i < |y| ==> (SameValue(x[i], y[i]) <==> SameValue(y[i], x[i]))
    ensures DifferAt(y, x, from) == DifferAt(x, y, from)
    decreases |x| - from
  {
    if from < |x| && from < |y| && SameValue(x[from], y[from]) {
      DifferAtTurns(x, y, from + 1);
    }
  }

  function Recognised(text: string): (op: Option<Operator>)
    ensures op.Some? ==> Text(op.value) == text
    ensures forall o: Operator :: Text(o) == text ==> op == Some(o)
  {
    if text == "==" then Some(Equal)
    else if text == "!=" then Some(NotEqual)
    else if text == ">=" then Some(AtLeast)
    else if text == "<=" then Some(AtMost)
    else if text == ">" then Some(Above)
    else if text == "<" then Some(Below)
    else None
  }

  predicate Holds(c: Condition, event: map<string, Value>) {
    var actual := if c.field in event then event[c.field] else Null;
    match Recognised(c.operator)
    case Some(Equal) => SameValue(actual, c.value)
    case Some(NotEqual) => !SameValue(actual, c.value)
    case Some(op) => actual != Null && c.value != Null && Ordered(op, actual, c.value)
    case None => false
  }

  // Numbers: each operator holds when it should.
  lemma NumbersDecide(field: string, x: real, y: real, event: map<string, Value>)
    requires field in event && event[field] == Num(x)
    ensures Holds(Condition(field, "==", Num(y)), event) <==> x == y
    ensures Holds(Condition(field, "!=", Num(y)), event) <==> x != y
    ensures Holds(Condition(field, ">", Num(y)), event) <==> x > y
    ensures Holds(Condition(field, "<", Num(y)), event) <==> x < y
    ensures Holds(Condition(field, ">=", Num(y)), event) <==> x >= y
    ensures Holds(Condition(field, "<=", Num(y)), event) <==> x <= y
  {
  }

  // Strings, by character code.
  lemma StringsDecide(field: string, x: string, y: string, event: map<string, Value>)
    requires field in event && event[field] == Str(x)
    ensures Holds(Condition(field, "==", Str(y)), event) <==> x == y
    ensures Holds(Condition(field, "!=", Str(y)), event) <==> x != y
    ensures Holds(Condition(field, ">", Str(y)), event) <==> Lexicographic.Less(y, x)
    ensures Holds(Condition(field, "<", Str(y)), event) <==> Lexicographic.Less(x, y)
    ensures Holds(Condition(field, ">=", Str(y)), event) <==> Lexicographic.Leq(y, x)
    ensures Holds(Condition(field, "<=", Str(y)), event) <==> Lexicographic.Leq(x, y)
  {
    hide Lexicographic.Leq;
    Lexicographic.Total(x, y);
    if Lexicographic.Leq(x, y) && Lexicographic.Leq(y, x) {
      Lexicographic.Antisymmetric(x, y);
    }
  }

  // Lists: the first difference decides, and without one the longer list is the greater.
  lemma ListsDecide(x: seq<Value>, y: seq<Value>, k: nat)
    requires k <= |x| && k <= |y| && forall i :: 0 <= i < k ==> SameValue(x[i], y[i])
    ensures k < |x| && k < |y| && !SameValue(x[k], y[k]) ==> CompareValues(List(x), List(y)) == CompareValues(x[k], y[k])
    ensures k == |x| < |y| ==> CompareValues(List(x), List(y)) == Some(Smaller)
    ensures k == |y| < |x| ==> CompareValues(List(x), List(y)) == Some(Greater)
  {
    var d := DifferAt(x, y, 0);
    if k < |x| && k < |y| && !SameValue(x[k], y[k]) {
      assert d == k;
    }
  }

  // A field that is missing or null equals null only and is never ordered; kinds that do
  // not compare are unequal and never ordered; truth values are the numbers 1 and 0; an
  // operator that is not one of the six never holds.
  lemma OthersDecide(field: string, op: string, v: Value, event: map<string, Value>)
    ensures field !in event || event[field] == Null ==>
              && (Holds(Condition(field, "==", v), event) <==> v == Null)
              && (Holds(Condition(field, "!=", v), event) <==> v != Null)
              && (op in {">", "<", ">=", "<="} ==> !Holds(Condition(field, op, v), event))
    ensures field in event && ((event[field].Str? && v.Num?) || (event[field].Num? && v.Str?)) ==>
              && !Holds(Condition(field, "==", v), event) && Holds(Condition(field, "!=", v), event)
              && (op in {">", "<", ">=", "<="} ==> !Holds(Condition(field, op, v), event))
    ensures field in event && event[field].Bool? ==>
              (Holds(Condition(field, "==", Num(1.0)), event) <==> event[field].b)
              && (Holds(Condition(field, "==", Num(0.0)), event) <==> !event[field].b)
    ensures op !in {"==", "!=", ">", "<", ">=", "<="} ==> !Holds(Condition(field, op, v), event)
  {
  }

  datatype Verdict = Triggered(actions: seq<string>) | InvalidDefinition | NotMet(field: string, operator: string)

  method EvaluateDefinition(d: Definition, event: map<string, Value>) returns (v: Verdict)
    ensures v.Triggered? <==> d.invalid == [] && forall c :: c in d.conditions ==> Holds(c, event)
    ensures v.Triggered? ==> v.actions == d.actions
    ensures v.InvalidDefinition? <==> d.invalid != []
    ensures v.NotMet? ==> exists i :: 0 <= i < |d.conditions| && !Holds(d.conditions[i], event)
                            && d.conditions[i].field == v.field && d.conditions[i].operator == v.operator
                            && forall j :: 0 <= j < i ==> Holds(d.conditions[j], event)
  {
    if d.invalid != [] {
      return InvalidDefinition;
    }
    for i := 0 to |d.conditions|
      invariant forall j :: 0 <= j < i ==> Holds(d.conditions[j], event)
    {
      var c := d.conditions[i];
      if !Holds(c, event) {
        assert c in d.conditions;
        return NotMet(c.field, c.operator);
      }
    }
    return Triggered(d.actions);
  }

  // --------------------------------------------------------------- building

  const DEFAULT_CONDITIONS: seq<string> := ["status == \"pending\""]

  function Submitted(conditions: seq<string>): seq<string> {
    if conditions == [] then DEFAULT_CONDITIONS else conditions
  }

  function Truncated(s: string, n: nat): string { if |s| <= n then s else s[..n] }

  // Trimmed, cut, non-empty and at most MAX_ACTIONS of them.
  function SafeActions(actions: seq<string>): (safe: seq<string>)
    ensures |safe| <= MAX_ACTIONS
  {
    var kept := NonEmptyActions(actions);
    if |kept| <= MAX_ACTIONS then kept else kept[..MAX_ACTIONS]
  }

  function NonEmptyActions(actions: seq<string>): (kept: seq<string>)
    ensures forall a :: a in kept ==> a != "" && |a| <= MAX_TEXT
  {
    if actions == [] then []
    else
      var cut, rest := Truncated(Strip(actions[0]), MAX_TEXT), NonEmptyActions(actions[1..]);
      if cut == "" then rest else [cut] + rest
  }

  // What the parser makes of the conditions, in the order submitted, and the texts it does not understand.
  function Understood(json: string -> Option<Value>, raws: seq<string>): seq<Condition> {
    if raws == [] then []
    else
      var before, c := Understood(json, raws[..|raws| - 1]), ParseCondition(json, raws[|raws| - 1]);
      if c.Some? then before + [c.value] else before
  }

  function NotUnderstood(json: string -> Option<Value>, raws: seq<string>): seq<string> {
    if raws == [] then []
    else
      var before, raw := NotUnderstood(json, raws[..|raws| - 1]), raws[|raws| - 1];
      if ParseCondition(json, raw).Some? then before else before + [Truncated(raw, MAX_TEXT)]
  }

  // The actions kept are the submitted ones in order, trimmed and cut to 200 characters,
  // without those that are blank, and the first ten of them.
  lemma {:induction false} ActionsKept(actions: seq<string>, a: string)
    ensures NonEmptyActions(actions + [a]) ==
            NonEmptyActions(actions) + (if Strip(a) == "" then [] else [if |Strip(a)| <= 200 then Strip(a) else Strip(a)[..200]])
    ensures NonEmptyActions([]) == []
    ensures SafeActions(actions) <= NonEmptyActions(actions)
    ensures |SafeActions(actions)| == if |NonEmptyActions(actions)| < 10 then |NonEmptyActions(actions)| else 10
  {
    hide Strip;
    if actions != [] {
      ActionsKept(actions[1..], a);
      assert (actions + [a])[1..] == actions[1..] + [a];
    }
  }

  lemma NoneUnderstood(json: string -> Option<Value>, raws: seq<string>)
    ensures Understood(json, raws[..0]) == [] && NotUnderstood(json, raws[..0]) == []
  {
  }

  lemma OneMoreParsed(json: string -> Option<Value>, raws: seq<string>, i: nat)
    requires i < |raws|
    ensures var c := ParseCondition(json, raws[i]);
            && Understood(json, raws[..i + 1]) == Understood(json, raws[..i]) + (if c.Some? then [c.value] else [])
            && NotUnderstood(json, raws[..i + 1])
               == NotUnderstood(json, raws[..i]) + (if c.Some? then [] else [Truncated(raws[i], MAX_TEXT)])
  {
    hide ParseCondition;
    assert raws[..i + 1][..i] == raws[..i];
  }

  lemma {:induction false} WhatIsUnderstood(json: string -> Option<Value>, raws: seq<string>)
    ensures NotUnderstood(json, raws) == [] <==> forall raw :: raw in raws ==> ParseCondition(json, raw).Some?
    ensures forall c :: c in Understood(json, raws) <==> exists raw :: raw in raws && ParseCondition(json, raw) == Some(c)
    ensures |Understood(json, raws)| + |NotUnderstood(json, raws)| == |raws|
  {
    hide ParseCondition;
    if raws != [] {
      var n := |raws| - 1;
      WhatIsUnderstood(json, raws[..n]);
      assert forall raw :: raw in raws <==> raw in raws[..n] || raw == raws[n];
    }
  }

  method BuildAutomation(json: string -> Option<Value>, actions: seq<string>, conditions: seq<string>)
    returns (d: Definition)
    ensures d.actions == SafeActions(actions)
    ensures d.conditions == Understood(json, Submitted(conditions)) && d.invalid == NotUnderstood(json, Submitted(conditions))
    ensures d.invalid == [] <==> forall raw :: raw in Submitted(conditions) ==> ParseCondition(json, raw).Some?
    ensures forall c :: c in d.conditions <==>
              exists raw :: raw in Submitted(conditions) && ParseCondition(json, raw) == Some(c)
    ensures |d.conditions| + |d.invalid| == |Submitted(conditions)|
  {
    hide ParseCondition, SafeActions, Understood, NotUnderstood;
    var submitted := if conditions == [] then DEFAULT_CONDITIONS else conditions;
    var parsed: seq<Condition> := [];
    var invalid: seq<string> := [];
    NoneUnderstood(json, submitted);
    for i := 0 to |submitted|
      invariant parsed == Understood(json, submitted[..i]) && invalid == NotUnderstood(json, submitted[..i])
    {
      OneMoreParsed(json, submitted, i);
      var raw := submitted[i];
      var condition := ParseCondition(json, raw);
      if condition.Some? {
        parsed := parsed + [condition.value];
      } else {
        invalid := invalid + [Truncated(raw, MAX_TEXT)];
      }
    }
    assert submitted[..|submitted|] == submitted;
    WhatIsUnderstood(json, submitted);
    return Definition(parsed, invalid, SafeActions(actions));
  }

  // An automation built from any conditions triggers on an event exactly when every
  // submitted condition is understood and holds of the event.
  method BuildAndEvaluate(json: string -> Option<Value>, actions: seq<string>, conditions: seq<string>, event: map<string, Value>)
    returns (v: Verdict)
    ensures v.Triggered? <==> forall raw :: raw in Submitted(conditions) ==>
              ParseCondition(json, raw).Some? && Holds(ParseCondition(json, raw).value, event)
    ensures v.Triggered? ==> v.actions == SafeActions(actions)
  {
    var d := BuildAutomation(json, actions, conditions);
    v := EvaluateDefinition(d, event);
    if d.invalid == [] {
      forall raw | raw in Submitted(conditions)
        ensures ParseCondition(json, raw).Some? && ParseCondition(json, raw).value in d.conditions
      {
        assert ParseCondition(json, raw) == Some(ParseCondition(json, raw).value);
      }
    }
  }

  // ------------------------------------------------------ the chosen operator

  // The split is at the first occurrence of the operator of highest priority
  // whose first occurrence is not at the very start.
  lemma {:induction false} SplitFromChooses(s: string, rank: nat)
    requires rank <= |OPERATORS|
    ensures SplitFrom(s, rank).None? <==> forall r :: rank <= r < |OPERATORS| ==> Find(s, Text(OPERATORS[r])) <= 0
    ensures SplitFrom(s, rank).Some? ==>
              var op := SplitFrom(s, rank).value.operator;
              && rank <= Rank(op) && Find(s, Text(op)) > 0
              && SplitFrom(s, rank).value == SplitAt(s, op, Find(s, Text(op)))
              && forall r :: rank <= r < Rank(op) ==> Find(s, Text(OPERATORS[r])) <= 0
    decreases |OPERATORS| - rank
  {
    hide Find, Strip, Text;
    if rank < |OPERATORS| {
      RankOf(rank);
      if Find(s, Text(OPERATORS[rank])) <= 0 {
        SplitFromChooses(s, rank + 1);
      }
    }
  }

  lemma RankOf(r: nat)
    requires r < |OPERATORS|
    ensures Rank(OPERATORS[r]) == r
  {
  }

  // ------------------------------------------------------------- round trip

  predicate Trimmed(s: string) {
    s != "" && !IsSpace(s[0]) && !IsSpace(s[|s| - 1])
  }

  function Print(field: string, op: Operator, text: string): string {
    field + " " + Text(op) + " " + text
  }

  // The value text holds no operator that is looked for before op.
  ghost predicate NoEarlierOperator(text: string, op: Operator) {
    forall r, i :: 0 <= r < Rank(op) ==> !OccursAt(text, Text(OPERATORS[r]), i)
  }

  lemma TrimmedIsStripped(s: string)
    requires Trimmed(s)
    ensures Strip(s) == s
  {
  }

  lemma StripOneSpace(s: string)
    requires Trimmed(s)
    ensures Strip(s + " ") == s && Strip(" " + s) == s
  {
    TrimmedIsStripped(s);
    assert IsSpace(' ');
    var after, before := s + " ", " " + s;
    assert after[|s|] == ' ' && after[..|s|] == s && after[0] == s[0];
    assert StripRight(after) == StripRight(s);
    assert before[0] == ' ' && before[1..] == s;
    assert StripLeft(before) == StripLeft(s);
  }

  lemma FieldIsPlain(f: string)
    requires FieldPattern(f)
    ensures Trimmed(f) && forall i :: 0 <= i < |f| ==> f[i] !in "=!<> "
  {
    forall i | 0 <= i < |f| ensures f[i] !in "=!<> " && !IsSpace(f[i]) {
      assert Letter(f[i]) || '0' <= f[i] <= '9';
    }
  }

  lemma SliceOfSlice(s: string, a: nat, b: nat, i: nat, j: nat)
    requires a <= i <= j <= b <= |s|
    ensures s[a..b][i - a..j - a] == s[i..j]
  {
    forall k | 0 <= k < j - i ensures s[a..b][i - a..j - a][k] == s[i..j][k] {
    }
  }

  lemma MiddleSlice(x: string, y: string, z: string)
    ensures (x + y + z)[|x|..|x| + |y|] == y
  {
  }

  // The printed text has its blanks around the operator and the value at the end.
  lemma PrintedShape(f: string, op: Operator, text: string)
    ensures var s, start, from := Print(f, op, text), |f| + 1, |f| + 1 + |Text(op)| + 1;
            && |s| == from + |text|
            && s[|f|] == ' ' && s[start + |Text(op)|] == ' '
            && s[start..start + |Text(op)|] == Text(op) && s[from..] == text
            && forall k :: 0 <= k < |f| ==> s[k] == f[k]
  {
    hide Text;
    MiddleSlice(f + " ", Text(op), " " + text);
    assert Print(f, op, text) == (f + " ") + Text(op) + (" " + text);
  }

  lemma OccursInSlice(s: string, a: nat, b: nat, t: string, i: nat)
    requires a <= i && i + |t| <= b <= |s| && OccursAt(s, t, i)
    ensures OccursAt(s[a..b], t, i - a)
  {
    SliceOfSlice(s, a, b, i, i + |t|);
  }

  lemma OccurrenceAvoids(s: string, t: string, i: int, p: nat)
    requires OccursAt(s, t, i) && p < |s| && s[p] !in t
    ensures p < i || i + |t| <= p
  {
    OccurrenceCopies(s, t, i);
  }

  lemma OccurrenceCopies(s: string, t: string, i: int)
    requires OccursAt(s, t, i)
    ensures forall q :: i <= q < i + |t| ==> s[q] in t
  {
    forall q | i <= q < i + |t| ensures s[q] in t {
      assert s[i..i + |t|][q - i] == t[q - i];
    }
  }

  lemma OperatorHasNoBlank(op: Operator, c: char)
    requires c !in "=!<>"
    ensures c !in Text(op)
  {
  }

  // An operator found in the printed text lies within the operator or the value.
  lemma {:induction false} OccurrenceIsInside(f: string, op: Operator, text: string, other: Operator, i: int)
    requires FieldPattern(f) && OccursAt(Print(f, op, text), Text(other), i)
    ensures var start := |f| + 1;
            || (start <= i && i + |Text(other)| <= start + |Text(op)|)
            || (start + |Text(op)| + 1 <= i && OccursAt(text, Text(other), i - (start + |Text(op)| + 1)))
  {
    hide Print, FieldPattern, Text, OccursAt;
    var s, o, start := Print(f, op, text), Text(other), |f| + 1;
    var from := start + |Text(op)| + 1;
    FieldIsPlain(f);
    PrintedShape(f, op, text);
    OperatorHasNoBlank(other, ' ');
    OccurrenceAvoids(s, o, i, |f|);
    OccurrenceAvoids(s, o, i, from - 1);
    OccursWithin(s, o, i);
    if i < |f| {
      OperatorHasNoBlank(other, f[i]);
      OccurrenceAvoids(s, o, i, i);
    } else if i >= from {
      assert s[from..|s|] == text;
      OccursInSlice(s, from, |s|, o, i);
    }
  }

  lemma OccursWithin(s: string, t: string, i: int)
    requires OccursAt(s, t, i)
    ensures 0 <= i && i + |t| <= |s|
  {
  }

  lemma InsideIsItself(op: Operator, other: Operator, k: int)
    requires OccursAt(Text(op), Text(other), k) && Rank(other) <= Rank(op)
    ensures other == op && k == 0
  {
    var t, o := Text(op), Text(other);
    assert t[k..k + |o|][0] == t[k];
    assert |o| == 2 ==> t[k..k + |o|][1] == t[k + 1];
  }

  lemma PrintedOperatorFound(f: string, op: Operator, text: string)
    requires FieldPattern(f) && NoEarlierOperator(text, op)
    ensures Find(Print(f, op, text), Text(op)) == |f| + 1
    ensures forall r :: 0 <= r < Rank(op) ==> Find(Print(f, op, text), Text(OPERATORS[r])) == -1
  {
    var s, start := Print(f, op, text), |f| + 1;
    assert s[start..start + |Text(op)|] == Text(op);
    assert OccursAt(s, Text(op), start);
    forall i | OccursAt(s, Text(op), i) ensures i >= start {
      OccurrenceIsInside(f, op, text, op, i);
    }
    forall r | 0 <= r < Rank(op) ensures Find(s, Text(OPERATORS[r])) == -1 {
      NothingEarlier(f, op, text, r);
    }
  }

  lemma OperatorInPlace(f: string, op: Operator, text: string)
    ensures |f| + 1 + |Text(op)| <= |Print(f, op, text)|
    ensures Print(f, op, text)[|f| + 1..|f| + 1 + |Text(op)|] == Text(op)
  {
    PrintedShape(f, op, text);
  }

  lemma InsideOperator(f: string, op: Operator, text: string, other: Operator, i: int)
    requires OccursAt(Print(f, op, text), Text(other), i)
    requires |f| + 1 <= i && i + |Text(other)| <= |f| + 1 + |Text(op)|
    ensures OccursAt(Text(op), Text(other), i - |f| - 1)
  {
    hide Print, Text, OccursAt;
    OperatorInPlace(f, op, text);
    OccursInSlice(Print(f, op, text), |f| + 1, |f| + 1 + |Text(op)|, Text(other), i);
  }

  lemma NothingEarlier(f: string, op: Operator, text: string, r: nat)
    requires FieldPattern(f) && NoEarlierOperator(text, op) && r < Rank(op)
    ensures forall i :: !OccursAt(Print(f, op, text), Text(OPERATORS[r]), i)
  {
    hide FieldPattern, Text, Print, OccursAt;
    RankOf(r);
    forall i ensures !OccursAt(Print(f, op, text), Text(OPERATORS[r]), i) {
      if OccursAt(Print(f, op, text), Text(OPERATORS[r]), i) {
        OccurrenceIsInside(f, op, text, OPERATORS[r], i);
        var start := |f| + 1;
        if start <= i && i + |Text(OPERATORS[r])| <= start + |Text(op)| {
          InsideOperator(f, op, text, OPERATORS[r], i);
          InsideIsItself(op, OPERATORS[r], i - start);
        }
      }
    }
  }

  lemma PrintedIsSplit(f: string, op: Operator, text: string)
    requires FieldPattern(f) && Trimmed(text)
    ensures var s := Print(f, op, text);
            Strip(s) == s && SplitAt(s, op, |f| + 1) == Parts(f, op, text)
  {
    hide IsSpace, StripLeft, StripRight;
    var s, start := Print(f, op, text), |f| + 1;
    FieldIsPlain(f);
    assert s[0] == f[0] && s[|s| - 1] == text[|text| - 1];
    TrimmedIsStripped(s);
    assert s[..start] == f + " ";
    assert s[start + |Text(op)|..] == " " + text;
    StripOneSpace(f);
    StripOneSpace(text);
  }

  // A value text with an operator looked for earlier is split there instead.
  lemma EarlierOperatorWins(f: string, op: Operator, text: string, r: nat, i: int)
    requires FieldPattern(f) && r < Rank(op) && OccursAt(text, Text(OPERATORS[r]), i)
    ensures Find(Print(f, op, text), Text(OPERATORS[r])) > 0
  {
    var s, from := Print(f, op, text), |f| + 1 + |Text(op)| + 1;
    assert s[from + i..from + i + |Text(OPERATORS[r])|] == text[i..i + |Text(OPERATORS[r])|];
    assert OccursAt(s, Text(OPERATORS[r]), from + i);
    if Find(s, Text(OPERATORS[r])) == 0 {
      OccurrenceIsInside(f, op, text, OPERATORS[r], 0);
    }
  }

  // Parsing undoes printing, exactly for the value texts without an earlier operator.
  lemma {:induction false} ParsingUndoesPrinting(json: string -> Option<Value>, f: string, op: Operator, text: string)
    requires FieldPattern(f) && Trimmed(text) && |Print(f, op, text)| <= MAX_CONDITION
    ensures SplitCondition(Print(f, op, text)) == Some(Parts(f, op, text)) <==> NoEarlierOperator(text, op)
    ensures NoEarlierOperator(text, op) && json(text).Some? && !json(text).value.List? && !json(text).value.Dict? ==>
              ParseCondition(json, Print(f, op, text)) == Some(Condition(f, Text(op), json(text).value))
  {
    hide Strip, Text, Find, SplitFrom, OccursAt, FieldPattern, IsSpace;
    PrintedIsSplit(f, op, text);
    assert Print(f, op, text) != "";
    if NoEarlierOperator(text, op) {
      PrintedOperatorFound(f, op, text);
      FoundIsChosen(Print(f, op, text), op, 0);
    } else {
      var r, i :| 0 <= r < Rank(op) && OccursAt(text, Text(OPERATORS[r]), i);
      EarlierOperatorWins(f, op, text, r, i);
      SplitFromChooses(Print(f, op, text), 0);
    }
    FieldIsPlain(f);
  }

  lemma {:induction false} FoundIsChosen(s: string, op: Operator, rank: nat)
    requires rank <= Rank(op) && Find(s, Text(op)) > 0
    requires forall r :: rank <= r < Rank(op) ==> Find(s, Text(OPERATORS[r])) == -1
    ensures SplitFrom(s, rank) == Some(SplitAt(s, op, Find(s, Text(op))))
    decreases |OPERATORS| - rank
  {
    if rank < Rank(op) {
      FoundIsChosen(s, op, rank + 1);
    }
  }

  // What is understood is safe: a field of at most 65 letters, digits and underscores that
  // does not start with a digit, one of the six operators, a scalar, from at most 500
  // characters.
  lemma ParsedIsSafe(json: string -> Option<Value>, raw: string)
    requires ParseCondition(json, raw).Some?
    ensures var c := ParseCondition(json, raw).value;
            && 1 <= |c.field| <= 65 && !('0' <= c.field[0] <= '9')
            && (forall i :: 0 <= i < |c.field| ==>
                  'a' <= c.field[i] <= 'z' || 'A' <= c.field[i] <= 'Z' || '0' <= c.field[i] <= '9' || c.field[i] == '_')
            && c.operator in {"==", "!=", ">=", "<=", ">", "<"}
            && !c.value.List? && !c.value.Dict?
            && |Strip(raw)| <= 500
  {
    hide Strip, Find;
    SplitFromChooses(Strip(raw), 0);
  }

  // Without conditions an automation waits for the status "pending".
  lemma DefaultIsPending(json: string -> Option<Value>, event: map<string, Value>)
    requires json("\"pending\"") == Some(Str("pending"))
    ensures forall raw :: raw in Submitted([]) ==>
              ParseCondition(json, raw) == Some(Condition("status", "==", Str("pending")))
    ensures |Submitted([])| == 1
  {
    var text := "\"pending\"";
    assert DEFAULT_CONDITIONS[0] == Print("status", Equal, text);
    assert text[0] == '\"' && text[8] == '\"';
    ParsingUndoesPrinting(json, "status", Equal, text);
  }
}
