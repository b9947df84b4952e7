/** Checking a value against a signature: a second walker that consumes the signature's text in step
    with the parser. */
module Validate {
  import opened Wrappers
  import opened Typedescr

  /** A decoded value. `Scalar` stands for every value that holds no other value. */
  datatype Value =
    | Scalar(tag: char)
    | ArrayOf(elemTag: char, items: seq<Value>)
    | PairOf(first: Value, second: Value)
    | TupleOf(items: seq<Value>)

  const ERROR_TAG := 'e'

  predicate IsScalarTag(c: char) {
    IsLeaf(c) && c != VARIANT
  }

  ghost predicate WellTyped(v: Value) {
    match v
    case Scalar(c) => IsScalarTag(c)
    case ArrayOf(c, items) => (IsScalarTag(c) || IsContainer(c)) && forall x | x in items :: WellTyped(x)
    case PairOf(a, b) => WellTyped(a) && WellTyped(b)
    case TupleOf(items) => forall x | x in items :: WellTyped(x)
  }

  function TagOf(v: Value): char {
    match v
    case Scalar(c) => c
    case ArrayOf(_, _) => ARRAY_START
    case PairOf(_, _) => PAIR_START
    case TupleOf(_) => TUPLE_START
  }

  function HeadOf(sig: Sig): char {
    match sig
    case Leaf(c) => c
    case Array(_) => ARRAY_START
    case Pair(_, _) => PAIR_START
    case Tuple(_) => TUPLE_START
  }

  predicate IsCompatible(tag: char, wanted: char) {
    wanted == VARIANT || tag == wanted
  }

  // ---------- what it means to fit ----------

  /** The variant takes anything, an array is judged on its element type only, pairs and tuples element
      by element. */
  ghost predicate Fits(sig: Sig, v: Value) {
    match sig
    case Leaf(c) => c == 'v' || v == Scalar(c)
    case Array(e) => v.ArrayOf? && (e == Leaf('v') || v.elemTag == HeadOf(e))
    case Pair(a, b) => v.PairOf? && Fits(a, v.first) && Fits(b, v.second)
    case Tuple(es) =>
      v.TupleOf? && |v.items| == |es| && forall i | 0 <= i < |es| :: Fits(es[i], v.items[i])
  }

  /** A signature without variants, whose arrays hold no containers: it leaves no choice. */
  ghost predicate Plain(sig: Sig) {
    match sig
    case Leaf(c) => c != 'v'
    case Array(e) => e.Leaf? && e.tag != 'v'
    case Pair(a, b) => Plain(a) && Plain(b)
    case Tuple(es) => forall e | e in es :: Plain(e)
  }

  /** The signature a value has by itself. */
  function ShapeOf(v: Value): Sig {
    match v
    case Scalar(c) => Leaf(c)
    case ArrayOf(c, _) => Array(Leaf(c))
    case PairOf(a, b) => Pair(ShapeOf(a), ShapeOf(b))
    case TupleOf(items) => Tuple(seq(|items|, i requires 0 <= i < |items| => ShapeOf(items[i])))
  }

  /** What fits a plain signature is exactly what has that shape. */
  lemma {:induction false} PlainFits(sig: Sig, v: Value)
    requires Plain(sig)
    ensures Fits(sig, v) <==> sig == ShapeOf(v)
    decreases sig
  {
    match (sig, v)
    case (Pair(a, b), PairOf(x, y)) =>
      PlainFits(a, x);
      PlainFits(b, y);
    case (Tuple(es), TupleOf(items)) =>
      forall i | 0 <= i < |es| && i < |items| ensures Fits(es[i], items[i]) <==> es[i] == ShapeOf(items[i]) {
        assert es[i] in es;
        PlainFits(es[i], items[i]);
      }
    case _ =>
  }

  /** Reading from the left, everything fits until some tuple has no more elements for its signature. */
  ghost predicate RunsOut(sig: Sig, v: Value) {
    match sig
    case Leaf(_) => false
    case Array(_) => false
    case Pair(a, b) => v.PairOf? && (RunsOut(a, v.first) || (Fits(a, v.first) && RunsOut(b, v.second)))
    case Tuple(es) => v.TupleOf? && AllRunOut(es, v.items)
  }

  ghost predicate AllRunOut(es: seq<Sig>, vs: seq<Value>) {
    && es != []
    && (vs == [] || RunsOut(es[0], vs[0]) || (Fits(es[0], vs[0]) && AllRunOut(es[1..], vs[1..])))
  }

  /** Some tuple inside `v` has fewer elements than the signature asks for at that place. */
  ghost predicate HasShortTuple(sig: Sig, v: Value) {
    match sig
    case Leaf(_) => false
    case Array(_) => false
    case Pair(a, b) => v.PairOf? && (HasShortTuple(a, v.first) || HasShortTuple(b, v.second))
    case Tuple(es) =>
      v.TupleOf? && (|v.items| < |es| ||
        exists i | 0 <= i < |es| && i < |v.items| :: HasShortTuple(es[i], v.items[i]))
  }

  // ---------- what the walker answers ----------

  /** `AssertFails` is a call that one of the walker's own assertions stops. */
  datatype Verdict = Accept | Reject | AssertFails

  function Judge(sig: Sig, v: Value): Verdict
    decreases sig, 0
  {
    if !IsCompatible(TagOf(v), HeadOf(sig)) then Reject
    else
      match (sig, v)
      case (Array(e), ArrayOf(tag, _)) => if IsCompatible(tag, HeadOf(e)) then Accept else Reject
      case (Pair(a, b), PairOf(x, y)) => if Judge(a, x) == Accept then Judge(b, y) else Judge(a, x)
      case (Tuple(es), TupleOf(items)) => JudgeAll(es, items)
      case _ => Accept
  }

  function JudgeAll(es: seq<Sig>, vs: seq<Value>): Verdict
    decreases es, 1
  {
    if vs == [] then (if es == [] then Accept else AssertFails)
    else if es == [] then Reject
    else if Judge(es[0], vs[0]) == Accept then JudgeAll(es[1..], vs[1..])
    else Judge(es[0], vs[0])
  }

  /** The walker accepts exactly the values that fit, and one of its assertions stops it exactly when a
      tuple runs out before anything else is wrong. */
  lemma {:induction false} JudgeMeansFits(sig: Sig, v: Value)
    requires WellFormed(sig) && WellTyped(v)
    ensures Judge(sig, v) == Accept <==> Fits(sig, v)
    ensures Judge(sig, v) == AssertFails <==> RunsOut(sig, v)
    decreases sig, 0
  {
    match (sig, v)
    case (Pair(a, b), PairOf(x, y)) =>
      JudgeMeansFits(a, x);
      JudgeMeansFits(b, y);
    case (Tuple(es), TupleOf(items)) =>
      JudgeAllMeansFits(es, items);
    case _ =>
  }

  lemma {:induction false} JudgeAllMeansFits(es: seq<Sig>, vs: seq<Value>)
    requires (forall e | e in es :: WellFormed(e)) && (forall x | x in vs :: WellTyped(x))
    ensures JudgeAll(es, vs) == Accept <==> |vs| == |es| && forall i | 0 <= i < |es| :: Fits(es[i], vs[i])
    ensures JudgeAll(es, vs) == AssertFails <==> AllRunOut(es, vs)
    decreases es, 1
  {
    if vs != [] && es != [] {
      JudgeMeansFits(es[0], vs[0]);
      JudgeAllMeansFits(es[1..], vs[1..]);
      if |vs| == |es| && forall i | 0 <= i < |es[1..]| :: Fits(es[1..][i], vs[1..][i]) {
        forall i | 1 <= i < |es| ensures Fits(es[i], vs[i]) {
          assert Fits(es[1..][i - 1], vs[1..][i - 1]);
        }
      }
    }
  }

  /** So a value without a short tuple is judged by fitting alone. */
  lemma {:induction false} RunningOutIsShort(sig: Sig, v: Value)
    requires RunsOut(sig, v)
    ensures HasShortTuple(sig, v)
    decreases sig, 0
  {
    match (sig, v)
    case (Pair(a, b), PairOf(x, y)) =>
      if RunsOut(a, x) {
        RunningOutIsShort(a, x);
      } else {
        RunningOutIsShort(b, y);
      }
    case (Tuple(es), TupleOf(items)) =>
      AllRunningOutIsShort(es, items);
    case _ =>
  }

  lemma {:induction false} AllRunningOutIsShort(es: seq<Sig>, vs: seq<Value>)
    requires AllRunOut(es, vs)
    ensures |vs| < |es| || exists i | 0 <= i < |es| && i < |vs| :: HasShortTuple(es[i], vs[i])
    decreases es, 1
  {
    if vs != [] {
      if RunsOut(es[0], vs[0]) {
        RunningOutIsShort(es[0], vs[0]);
      } else {
        AllRunningOutIsShort(es[1..], vs[1..]);
        if |vs| >= |es| {
          var i :| 0 <= i < |es[1..]| && i < |vs[1..]| && HasShortTuple(es[1..][i], vs[1..][i]);
          assert HasShortTuple(es[i + 1], vs[i + 1]);
        }
      }
    }
  }

  /** A tuple of one against a signature of two: nothing rejects it, an assertion stops the walker. */
  lemma ShortTupleAsserts(c: char)
    requires IsScalarTag(c)
    ensures WellFormed(Tuple([Leaf(c), Leaf(c)])) && !Fits(Tuple([Leaf(c), Leaf(c)]), TupleOf([Scalar(c)]))
    ensures Judge(Tuple([Leaf(c), Leaf(c)]), TupleOf([Scalar(c)])) == AssertFails
  {
    var es, vs := [Leaf(c), Leaf(c)], [Scalar(c)];
    assert es[1..] == [Leaf(c)] && vs[1..] == [];
    assert JudgeAll(es[1..], vs[1..]) == AssertFails;
    assert Judge(es[0], vs[0]) == Accept;
  }

  // ---------- the walker itself ----------

  /** Skips the closing character of a container, which the source only asserts. */
  method SkipChar(text: string, pos: nat, close: char) returns (verdict: Verdict, next: nat)
    requires pos <= |text|
    ensures pos <= next <= |text|
    ensures verdict == if pos < |text| && text[pos] == close then Accept else AssertFails
    ensures verdict == Accept ==> next == pos + 1
  {
    var c;
    c, next := TakeOne(text, pos);
    verdict := if c == Some(close) then Accept else AssertFails;
  }

  /** On a text that starts with a signature the walker answers what `Judge` says, and on acceptance it
      stops right behind that signature. Where no signature starts it rejects. */
  method CheckSig(text: string, pos: nat, v: Value) returns (verdict: Verdict, next: nat)
    requires pos <= |text| && WellTyped(v)
    ensures pos <= next <= |text|
    ensures Read(text[pos..]).Some? ==>
      && verdict == Judge(Read(text[pos..]).value.0, v)
      && (verdict == Accept ==> text[next..] == Read(text[pos..]).value.1)
    ensures pos == |text| || !(IsLeaf(text[pos]) || IsContainer(text[pos])) ==> verdict == Reject
    decreases v
  {
    var elem;
    elem, next := TakeOne(text, pos);
    if elem.None? || !IsCompatible(TagOf(v), elem.value) {
      if pos < |text| {
        HeadIsFirst(text[pos..]);
      }
      return Reject, next;
    }
    HeadIsFirst(text[pos..]);
    assert text[pos..][1..] == text[next..];
    match elem.value {
      case '[' =>
        verdict, next := CheckArray(text, next, v);
      case '(' =>
        verdict, next := CheckTuple(text, next, v.items);
      case '{' =>
        verdict, next := CheckPair(text, next, v.first, v.second);
      case _ =>
        verdict := Accept;
    }
  }

  method CheckArray(text: string, pos: nat, v: Value) returns (verdict: Verdict, next: nat)
    requires pos <= |text| && v.ArrayOf?
    ensures pos <= next <= |text|
    ensures var e := Read(text[pos..]);
      e.Some? && |e.value.1| > 0 && e.value.1[0] == ARRAY_END ==>
        && verdict == (if IsCompatible(v.elemTag, HeadOf(e.value.0)) then Accept else Reject)
        && (verdict == Accept ==> text[next..] == e.value.1[1..])
  {
    var elem, _ := TakeOne(text, pos);
    if elem.None? {
      return AssertFails, pos;
    }
    HeadIsFirst(text[pos..]);
    if !IsCompatible(v.elemTag, elem.value) {
      return Reject, pos;
    }
    var ok, cur := ParseType(text, pos);
    if !ok {
      return AssertFails, pos;
    }
    verdict, next := SkipChar(text, cur, ARRAY_END);
    assert cur < |text| ==> text[cur..][0] == text[cur] && text[cur..][1..] == text[cur + 1..];
  }

  method CheckPair(text: string, pos: nat, first: Value, second: Value) returns (verdict: Verdict, next: nat)
    requires pos <= |text| && WellTyped(first) && WellTyped(second)
    ensures pos <= next <= |text|
    ensures var a := Read(text[pos..]);
      a.Some? ==>
        var b := Read(a.value.1);
        b.Some? && |b.value.1| > 0 && b.value.1[0] == PAIR_END ==>
          && verdict ==
             (if Judge(a.value.0, first) == Accept then Judge(b.value.0, second) else Judge(a.value.0, first))
          && (verdict == Accept ==> text[next..] == b.value.1[1..])
    decreases PairOf(first, second), 0
  {
    verdict, next := CheckSig(text, pos, first);
    if verdict != Accept {
      return;
    }
    verdict, next := CheckSig(text, next, second);
    if verdict != Accept {
      return;
    }
    ghost var cur := next;
    verdict, next := SkipChar(text, next, PAIR_END);
    assert cur < |text| ==> text[cur..][0] == text[cur] && text[cur..][1..] == text[cur + 1..];
  }

  method CheckTuple(text: string, pos: nat, items: seq<Value>) returns (verdict: Verdict, next: nat)
    requires pos <= |text| && forall x | x in items :: WellTyped(x)
    ensures pos <= next <= |text|
    ensures var es := ReadTuple(text[pos..]);
      es.Some? ==>
        && verdict == JudgeAll(es.value.0, items)
        && (verdict == Accept ==> text[next..] == es.value.1)
    decreases items, 0
  {
    ghost var es := ReadTuple(text[pos..]);
    next := pos;
    for i := 0 to |items|
      invariant pos <= next <= |text|
      invariant es.Some? ==> InStep(es.value.0, es.value.1, items, i, text, next)
    {
      ghost var before := next;
      verdict, next := CheckSig(text, next, items[i]);
      if es.Some? {
        StepTuple(es.value.0, es.value.1, items, i, text, before, next, verdict);
      }
      if verdict != Accept {
        return;
      }
    }
    ghost var cur := next;
    verdict, next := SkipChar(text, next, TUPLE_END);
    if es.Some? {
      EndTuple(es.value.0, es.value.1, items, text, cur);
    }
  }

  /** After `i` accepted elements the cursor stands before the rest of the tuple's signature. */
  ghost predicate InStep(es: seq<Sig>, rest: string, items: seq<Value>, i: nat, text: string, cur: nat)
    requires i <= |items| && cur <= |text|
  {
    && i <= |es|
    && JudgeAll(es, items) == JudgeAll(es[i..], items[i..])
    && if i < |es| then ReadTuple(text[cur..]) == Some((es[i..], rest)) else text[cur..] == [TUPLE_END] + rest
  }

  lemma StepTuple(
    es: seq<Sig>, rest: string, items: seq<Value>, i: nat, text: string, cur: nat, next: nat, verdict: Verdict)
    requires i < |items| && cur <= next <= |text| && InStep(es, rest, items, i, text, cur)
    requires Read(text[cur..]).Some? ==>
      && verdict == Judge(Read(text[cur..]).value.0, items[i])
      && (verdict == Accept ==> text[next..] == Read(text[cur..]).value.1)
    requires cur == |text| || !(IsLeaf(text[cur]) || IsContainer(text[cur])) ==> verdict == Reject
    ensures if verdict == Accept then InStep(es, rest, items, i + 1, text, next) else verdict == JudgeAll(es, items)
  {
    if i < |es| {
      assert es[i..][0] == es[i] && es[i..][1..] == es[i + 1..] && items[i..][1..] == items[i + 1..];
      ReadTupleStep(text[cur..]);
    } else {
      assert text[cur] == text[cur..][0] == TUPLE_END;
    }
  }

  /** The elements of a tuple are read one after the other. */
  lemma ReadTupleStep(s: string)
    requires ReadTuple(s).Some?
    ensures var (es, rest) := ReadTuple(s).value;
      && Read(s).Some? && Read(s).value.0 == es[0]
      && if |es| == 1 then Read(s).value.1 == [TUPLE_END] + rest
         else ReadTuple(Read(s).value.1) == Some((es[1..], rest))
  {
    var (e, after) := Read(s).value;
    assert after == [after[0]] + after[1..];
  }

  lemma EndTuple(es: seq<Sig>, rest: string, items: seq<Value>, text: string, cur: nat)
    requires cur <= |text| && InStep(es, rest, items, |items|, text, cur)
    ensures JudgeAll(es, items) == if cur < |text| && text[cur] == TUPLE_END then Accept else AssertFails
    ensures JudgeAll(es, items) == Accept ==> text[cur + 1..] == rest
  {
    if |items| < |es| {
      ReadTupleStep(text[cur..]);
      HeadIsFirst(text[cur..]);
      assert text[cur..][0] == text[cur];
    } else {
      assert text[cur] == text[cur..][0] && text[cur + 1..] == text[cur..][1..];
    }
  }

  /** A signature's text starts with its head, which is a type character. */
  lemma HeadIsFirst(s: string)
    ensures Read(s).Some? ==>
      s != "" && HeadOf(Read(s).value.0) == s[0] && (IsLeaf(s[0]) || IsContainer(s[0]))
  {}

  // ---------- the public checks ----------

  /** The verdict is acceptance exactly for a value that fits, and an assertion stops the check exactly when a tuple
      runs out first. So a value without a short tuple is accepted if it fits and rejected if not. */
  ghost predicate Decided(sig: Sig, v: Value, verdict: Verdict) {
    && (verdict == Accept <==> Fits(sig, v))
    && (verdict == AssertFails <==> RunsOut(sig, v))
    && (!HasShortTuple(sig, v) ==> verdict == if Fits(sig, v) then Accept else Reject)
  }

  lemma JudgeDecides(sig: Sig, v: Value)
    requires WellFormed(sig) && WellTyped(v)
    ensures Decided(sig, v, Judge(sig, v))
  {
    JudgeMeansFits(sig, v);
    if RunsOut(sig, v) {
      RunningOutIsShort(sig, v);
    }
  }

  lemma PrintedIsDecided(sig: Sig, rest: string, v: Value, verdict: Verdict)
    requires WellFormed(sig) && WellTyped(v)
    requires var text := Print(sig) + rest; Read(text).Some? ==> verdict == Judge(Read(text).value.0, v)
    ensures Decided(sig, v, verdict)
  {
    ReadUndoesPrint(sig, rest);
    JudgeDecides(sig, v);
  }

  /** The verdict a descriptor asks for on `v`: its input side when `input` holds, else its output side. */
  ghost predicate DescribedVerdict(s: string, input: bool, v: Value, verdict: Verdict) {
    && (forall sig | WellFormed(sig) && s == Print(sig) :: Decided(sig, v, verdict))
    && (forall a, before, after, b | IsOperation(s, a, before, after, b) ::
          Decided(if input then a else b, v, verdict))
    && ((s == "" || !IsDescriptor(s)) ==> verdict == Reject)
  }

  ghost predicate IsDescriptor(s: string) {
    IsValueText(s) || exists a, before, after, b :: IsOperation(s, a, before, after, b)
  }

  method CheckAgainst(v: Value, sigstr: string, input: bool) returns (verdict: Verdict)
    requires WellTyped(v)
    ensures DescribedVerdict(sigstr, input, v, verdict)
  {
    var descr := Parse(sigstr);
    if descr.None? {
      return Reject;
    }
    var text: string;
    match descr.value {
      case Value(value) => text := value + "\0"; // the view of a whole C string includes its terminator
      case Functional(i, o) => text := if input then i else o;
    }
    var next;
    verdict, next := CheckSig(text, 0, v);
    assert text[0..] == text;
    forall sig | WellFormed(sig) && sigstr == Print(sig) ensures Decided(sig, v, verdict) {
      assert IsValueText(sigstr);
      PrintedIsDecided(sig, "\0", v, verdict);
    }
    forall a, before, after, b | IsOperation(sigstr, a, before, after, b)
      ensures Decided(if input then a else b, v, verdict)
    {
      assert text == text + "";
      PrintedIsDecided(if input then a else b, "", v, verdict);
    }
  }

  /** An error can be returned by anything; any other value has to match the output side. */
  method CanBeReturnedFrom(v: Value, sigstr: string) returns (verdict: Verdict)
    requires WellTyped(v)
    ensures v == Scalar('e') ==> verdict == Accept
    ensures v != Scalar('e') ==> DescribedVerdict(sigstr, false, v, verdict)
  {
    if TagOf(v) == ERROR_TAG {
      return Accept;
    }
    verdict := CheckAgainst(v, sigstr, false);
  }

  /** A value is compatible with a descriptor through its input side. */
  method IsCompatibleWith(v: Value, sigstr: string) returns (verdict: Verdict)
    requires WellTyped(v)
    ensures DescribedVerdict(sigstr, true, v, verdict)
  {
    verdict := CheckAgainst(v, sigstr, true);
  }
}
