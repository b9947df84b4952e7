/** Type descriptors: the signature grammar, its printer and the recursive-descent recogniser. */
module Typedescr {
  import opened Strings
  import opened Wrappers

  const ARRAY_START := '['
  const ARRAY_END := ']'
  const PAIR_START := '{'
  const PAIR_END := '}'
  const TUPLE_START := '('
  const TUPLE_END := ')'
  const VARIANT := 'v'

  predicate IsContainer(c: char) {
    c == ARRAY_START || c == PAIR_START || c == TUPLE_START
  }

  /** A valid type or the variant tag that is not a container. */
  predicate IsLeaf(c: char) {
    c in "$bcfnixqutys#@%ev"
  }

  /** A signature. The grammar asks for at least one element in a tuple. */
  datatype Sig = Leaf(tag: char) | Array(elem: Sig) | Pair(first: Sig, second: Sig) | Tuple(elems: seq<Sig>)

  ghost predicate WellFormed(sig: Sig) {
    match sig
    case Leaf(c) => IsLeaf(c)
    case Array(e) => WellFormed(e)
    case Pair(a, b) => WellFormed(a) && WellFormed(b)
    case Tuple(es) => es != [] && forall e | e in es :: WellFormed(e)
  }

  function Print(sig: Sig): string {
    match sig
    case Leaf(c) => [c]
    case Array(e) => [ARRAY_START] + Print(e) + [ARRAY_END]
    case Pair(a, b) => [PAIR_START] + (Print(a) + Print(b)) + [PAIR_END]
    case Tuple(es) => [TUPLE_START] + PrintAll(es) + [TUPLE_END]
  }

  function PrintAll(sigs: seq<Sig>): string {
    if sigs == [] then "" else Print(sigs[0]) + PrintAll(sigs[1..])
  }

  /** How signatures are spelled. */
  lemma Spelled(sig: Sig)
    ensures sig.Array? ==> Print(sig) == "[" + Print(sig.elem) + "]"
    ensures sig.Pair? ==> Print(sig) == "{" + Print(sig.first) + Print(sig.second) + "}"
    ensures sig.Tuple? && sig.elems != [] ==>
      Print(sig) == "(" + Print(sig.elems[0]) + PrintAll(sig.elems[1..]) + ")"
    ensures sig.Leaf? ==> Print(sig) == [sig.tag]
    ensures sig.Leaf? && WellFormed(sig) <==>
      sig.Leaf? && (sig.tag in {'$', 'b', 'c', 'f'} || sig.tag in {'n', 'i', 'x', 'q', 'u', 't'}
                    || sig.tag in {'y', 's', '#', '@', '%', 'e', 'v'})
    ensures sig == Tuple([]) ==> !WellFormed(sig)
  {
    match sig
    case Pair(a, b) => Assoc("{", Print(a), Print(b));
    case Tuple(es) =>
      if es != [] {
        Assoc("(", Print(es[0]), PrintAll(es[1..]));
      }
    case _ =>
  }

  // ---------- reading one signature off the front of a text ----------

  /** The signature at the front of `s`, and the text behind it. */
  function Read(s: string): (r: Option<(Sig, string)>)
    ensures r.Some? ==> |r.value.1| < |s|
    decreases |s|, 0
  {
    if s == "" then None
    else if s[0] == ARRAY_START then
      var e := Read(s[1..]);
      if e.Some? && |e.value.1| > 0 && e.value.1[0] == ARRAY_END
      then Some((Array(e.value.0), e.value.1[1..])) else None
    else if s[0] == PAIR_START then
      var a := Read(s[1..]);
      if a.None? then None else
      var b := Read(a.value.1);
      if b.Some? && |b.value.1| > 0 && b.value.1[0] == PAIR_END
      then Some((Pair(a.value.0, b.value.0), b.value.1[1..])) else None
    else if s[0] == TUPLE_START then
      var es := ReadTuple(s[1..]);
      if es.Some? then Some((Tuple(es.value.0), es.value.1)) else None
    else if IsLeaf(s[0]) then Some((Leaf(s[0]), s[1..]))
    else None
  }

  /** The elements up to and including the closing parenthesis. */
  function ReadTuple(s: string): (r: Option<(seq<Sig>, string)>)
    ensures r.Some? ==> |r.value.1| < |s| && r.value.0 != []
    decreases |s|, 1
  {
    var e := Read(s);
    if e.None? || e.value.1 == "" then None
    else if e.value.1[0] == TUPLE_END then Some(([e.value.0], e.value.1[1..]))
    else
      var es := ReadTuple(e.value.1);
      if es.None? then None else Some(([e.value.0] + es.value.0, es.value.1))
  }

  lemma Bracketed(open: char, x: string, close: char, rest: string)
    ensures var s := [open] + x + [close] + rest; s[0] == open && s[1..] == x + ([close] + rest)
  {}

  /** Whatever is read off the front is the printing of one well-formed signature. */
  lemma {:induction false} ReadIsSound(s: string)
    ensures Read(s).Some? ==>
      WellFormed(Read(s).value.0) && s == Print(Read(s).value.0) + Read(s).value.1
    decreases |s|, 0
  {
    if s != "" && Read(s).Some? {
      assert s == [s[0]] + s[1..];
      if s[0] == ARRAY_START {
        ReadIsSound(s[1..]);
        var (e, rest) := Read(s[1..]).value;
        assert rest == [ARRAY_END] + rest[1..];
      } else if s[0] == PAIR_START {
        ReadPairIsSound(s);
      } else if s[0] == TUPLE_START {
        ReadTupleIsSound(s[1..]);
      }
    }
  }

  lemma {:induction false} ReadPairIsSound(s: string)
    requires s != "" && s[0] == PAIR_START && Read(s).Some?
    ensures WellFormed(Read(s).value.0) && s == Print(Read(s).value.0) + Read(s).value.1
    decreases |s| - 1, 1
  {
    ReadIsSound(s[1..]);
    var (a, restA) := Read(s[1..]).value;
    ReadIsSound(restA);
    var (b, restB) := Read(restA).value;
    assert restB == [PAIR_END] + restB[1..];
    Assoc(Print(a), Print(b), restB);
    Bracketed(PAIR_START, Print(a) + Print(b), PAIR_END, restB[1..]);
    assert s == [PAIR_START] + s[1..];
  }

  lemma {:induction false} ReadTupleIsSound(s: string)
    ensures ReadTuple(s).Some? ==>
      var (es, rest) := ReadTuple(s).value;
      es != [] && (forall e | e in es :: WellFormed(e)) && s == PrintAll(es) + [TUPLE_END] + rest
    decreases |s|, 1
  {
    if ReadTuple(s).Some? {
      ReadIsSound(s);
      var (e, rest) := Read(s).value;
      if rest[0] == TUPLE_END {
        assert PrintAll([e]) == Print(e) + PrintAll([]);
        assert rest == [TUPLE_END] + rest[1..];
      } else {
        ReadTupleIsSound(rest);
        var (es, rest') := ReadTuple(rest).value;
        assert ([e] + es)[1..] == es;
      }
    }
  }

  /** Reading undoes printing, whatever text follows. */
  lemma {:induction false} ReadUndoesPrint(sig: Sig, rest: string)
    requires WellFormed(sig)
    ensures Read(Print(sig) + rest) == Some((sig, rest))
    decreases sig, 1
  {
    match sig
    case Leaf(c) =>
      assert ([c] + rest)[1..] == rest;
    case Array(e) =>
      Bracketed(ARRAY_START, Print(e), ARRAY_END, rest);
      ReadUndoesPrint(e, [ARRAY_END] + rest);
    case Pair(a, b) =>
      ReadPairUndoesPrint(a, b, rest);
    case Tuple(es) =>
      Bracketed(TUPLE_START, PrintAll(es), TUPLE_END, rest);
      ReadTupleUndoesPrint(es, rest);
  }

  lemma {:induction false} ReadPairUndoesPrint(a: Sig, b: Sig, rest: string)
    requires WellFormed(a) && WellFormed(b)
    ensures Read(Print(Pair(a, b)) + rest) == Some((Pair(a, b), rest))
    decreases Pair(a, b), 0
  {
    Bracketed(PAIR_START, Print(a) + Print(b), PAIR_END, rest);
    Assoc(Print(a), Print(b), [PAIR_END] + rest);
    ReadUndoesPrint(a, Print(b) + ([PAIR_END] + rest));
    ReadUndoesPrint(b, [PAIR_END] + rest);
  }

  lemma {:induction false} ReadTupleUndoesPrint(es: seq<Sig>, rest: string)
    requires es != [] && forall e | e in es :: WellFormed(e)
    ensures ReadTuple(PrintAll(es) + ([TUPLE_END] + rest)) == Some((es, rest))
    decreases es, 0
  {
    var tail := PrintAll(es[1..]) + ([TUPLE_END] + rest);
    Assoc(Print(es[0]), PrintAll(es[1..]), [TUPLE_END] + rest);
    ReadUndoesPrint(es[0], tail);
    if |es| > 1 {
      PrintAllStarts(es[1..]);
      ReadTupleUndoesPrint(es[1..], rest);
      assert [es[0]] + es[1..] == es;
    } else {
      assert tail == [TUPLE_END] + rest && es == [es[0]];
    }
  }

  lemma PrintAllStarts(es: seq<Sig>)
    requires es != [] && forall e | e in es :: WellFormed(e)
    ensures |PrintAll(es)| > 0 && PrintAll(es)[0] != TUPLE_END
  {
    PrintStarts(es[0]);
  }

  lemma PrintStarts(sig: Sig)
    requires WellFormed(sig)
    ensures |Print(sig)| > 0 && (IsLeaf(Print(sig)[0]) || IsContainer(Print(sig)[0]))
  {}

  /** No printing is a prefix of another: a text starts with at most one signature. */
  lemma PrintIsPrefixFree(a: Sig, x: string, b: Sig, y: string)
    requires WellFormed(a) && WellFormed(b) && Print(a) + x == Print(b) + y
    ensures a == b && x == y
  {
    ReadUndoesPrint(a, x);
    ReadUndoesPrint(b, y);
  }

  // ---------- the recogniser: a cursor moving over a text ----------

  method MatchExact(s: string, start: nat, tag: string) returns (ok: bool, cur: nat)
    requires start <= |s|
    ensures ok <==> tag <= s[start..]
    ensures start <= cur <= |s| && (ok ==> cur == start + |tag|)
  {
    cur := start;
    for i := 0 to |tag|
      invariant cur == start + i <= |s| && tag[..i] == s[start..cur]
    {
      if cur == |s| || s[cur] != tag[i] {
        return false, cur;
      }
      cur := cur + 1;
    }
    ok := true;
    assert s[start..][..|tag|] == tag;
  }

  predicate IsSpace(c: char) {
    c == ' ' || c == '\t' || c == '\n' || c == '\r' || c as int == 11 || c as int == 12
  }

  /** White space is the blank and the five control characters from the tab on. */
  lemma SpacesAre(c: char)
    ensures IsSpace(c) <==> c as int == 32 || 9 <= c as int <= 13
  {}

  predicate AllSpace(s: string) {
    forall c | c in s :: IsSpace(c)
  }

  method SkipWhitespace(s: string, start: nat) returns (cur: nat)
    requires start <= |s|
    ensures start <= cur <= |s| && AllSpace(s[start..cur])
    ensures cur < |s| ==> !IsSpace(s[cur])
  {
    cur := start;
    while cur != |s| && IsSpace(s[cur])
      invariant start <= cur <= |s| && AllSpace(s[start..cur])
    {
      cur := cur + 1;
    }
  }

  method TakeOne(s: string, start: nat) returns (c: Option<char>, cur: nat)
    requires start <= |s|
    ensures if start < |s| then c == Some(s[start]) && cur == start + 1 else c == None && cur == start
  {
    if start == |s| {
      return None, start;
    }
    return Some(s[start]), start + 1;
  }

  /** What a successful parse of one type leaves: nothing is consumed at the end of the text, and one
      signature elsewhere. */
  ghost predicate ParsedAt(s: string, start: nat, ok: bool, cur: nat)
    requires start <= |s|
  {
    && start <= cur <= |s|
    && (start == |s| ==> ok && cur == start)
    && (start < |s| ==> (ok <==> Read(s[start..]).Some?))
    && (ok && start < |s| ==> start < cur && s[cur..] == Read(s[start..]).value.1)
  }

  method ParseArray(s: string, start: nat) returns (ok: bool, cur: nat)
    requires 0 < start <= |s| && s[start - 1] == ARRAY_START
    ensures ParsedAt(s, start - 1, ok, cur)
    decreases |s| - start, 1
  {
    assert s[start - 1..][1..] == s[start..];
    ok, cur := ParseType(s, start);
    if !ok {
      return;
    }
    ghost var after := cur;
    var c;
    c, cur := TakeOne(s, cur);
    ok := c == Some(ARRAY_END);
    assert after < |s| ==> s[after..][0] == s[after] && s[after..][1..] == s[after + 1..];
  }

  method ParsePair(s: string, start: nat) returns (ok: bool, cur: nat)
    requires 0 < start <= |s| && s[start - 1] == PAIR_START
    ensures ParsedAt(s, start - 1, ok, cur)
    decreases |s| - start, 1
  {
    assert s[start - 1..][1..] == s[start..];
    ok, cur := ParseType(s, start);
    if !ok {
      return;
    }
    ok, cur := ParseType(s, cur);
    if !ok {
      return;
    }
    ghost var after := cur;
    var c;
    c, cur := TakeOne(s, cur);
    ok := c == Some(PAIR_END);
    assert after < |s| ==> s[after..][0] == s[after] && s[after..][1..] == s[after + 1..];
  }

  method ParseTuple(s: string, start: nat) returns (ok: bool, cur: nat)
    requires 0 < start <= |s| && s[start - 1] == TUPLE_START
    ensures ParsedAt(s, start - 1, ok, cur)
    decreases |s| - start, 1
  {
    assert s[start - 1..][1..] == s[start..];
    cur := start;
    while true
      invariant start <= cur <= |s|
      invariant ReadTuple(s[start..]).Some? <==> ReadTuple(s[cur..]).Some?
      invariant ReadTuple(s[start..]).Some? ==> ReadTuple(s[start..]).value.1 == ReadTuple(s[cur..]).value.1
      decreases |s| - cur
    {
      ghost var before := cur;
      ok, cur := ParseType(s, cur);
      if !ok {
        return;
      }
      if cur == |s| {
        return false, cur;
      }
      assert s[cur..][0] == s[cur] && s[cur..][1..] == s[cur + 1..];
      if s[cur] == TUPLE_END {
        var _, next := TakeOne(s, cur);
        return true, next;
      }
    }
  }

  method ParseType(s: string, start: nat) returns (ok: bool, cur: nat)
    requires start <= |s|
    ensures ParsedAt(s, start, ok, cur)
    decreases |s| - start, 0
  {
    if start == |s| {
      return true, start;
    }
    var first;
    first, cur := TakeOne(s, start);
    assert s[start..][0] == s[start] && s[start..][1..] == s[start + 1..];
    match first.value {
      case '[' => ok, cur := ParseArray(s, cur);
      case '{' => ok, cur := ParsePair(s, cur);
      case '(' => ok, cur := ParseTuple(s, cur);
      case c => ok := IsLeaf(c);
    }
  }

  /** Recognises one signature at the front of a view and moves the view past it. The empty view is
      accepted as it is. */
  method InView(view: string) returns (ok: bool, view': string)
    ensures ok <==> view == "" || exists sig, rest :: WellFormed(sig) && view == Print(sig) + rest
    ensures ok && view == "" ==> view' == ""
    ensures forall sig, rest | WellFormed(sig) && view == Print(sig) + rest :: view' == rest
    ensures !ok ==> view' == view
  {
    var cur;
    ok, cur := ParseType(view, 0);
    assert view[0..] == view;
    view' := if ok then view[cur..] else view;
    ReadIsSound(view);
    forall sig, rest | WellFormed(sig) && view == Print(sig) + rest
      ensures view != "" && Read(view) == Some((sig, rest))
    {
      ReadUndoesPrint(sig, rest);
      PrintStarts(sig);
    }
  }

  // ---------- whole descriptors ----------

  datatype Descr = Value(value: string) | Functional(input: string, output: string)

  ghost predicate IsValueText(s: string) {
    s == "" || exists sig :: WellFormed(sig) && s == Print(sig)
  }

  /** `s` is a signature, an arrow with optional white space around it, and a signature. */
  ghost predicate IsOperation(s: string, a: Sig, before: string, after: string, b: Sig) {
    && WellFormed(a) && WellFormed(b) && AllSpace(before) && AllSpace(after)
    && s == Print(a) + (before + "->" + after) + Print(b)
  }

  method ParseArrow(s: string, start: nat) returns (ok: bool, cur: nat)
    requires start <= |s|
    ensures start <= cur <= |s|
    ensures ok ==> (exists before, after ::
      AllSpace(before) && AllSpace(after) && s[start..cur] == before + "->" + after)
    ensures ok && cur < |s| ==> !IsSpace(s[cur])
    ensures forall before, after, rest |
      && AllSpace(before) && AllSpace(after) && s[start..] == before + "->" + after + rest
      && rest != "" && !IsSpace(rest[0]) :: ok && s[cur..] == rest
  {
    var p := SkipWhitespace(s, start);
    var q;
    ok, q := MatchExact(s, p, "->");
    cur := q;
    if ok {
      cur := SkipWhitespace(s, q);
      assert s[p..][..2] == s[p..q];
      assert s[start..cur] == s[start..p] + "->" + s[q..cur];
    }
    forall before, after, rest |
      && AllSpace(before) && AllSpace(after) && s[start..] == before + "->" + after + rest
      && rest != "" && !IsSpace(rest[0])
      ensures ok && s[cur..] == rest
    {
      SpacesEnd(s, start, p, before, "->" + after + rest);
      assert s[p..] == "->" + after + rest;
      assert s[p..][..2] == "->";
      assert s[q..] == after + rest;
      SpacesEnd(s, q, cur, after, rest);
    }
  }

  /** White space is skipped exactly up to the first character that is not. */
  lemma SpacesEnd(s: string, start: nat, cur: nat, space: string, rest: string)
    requires start <= cur <= |s| && s[start..] == space + rest
    requires AllSpace(space) && rest != "" && !IsSpace(rest[0])
    requires AllSpace(s[start..cur]) && (cur < |s| ==> !IsSpace(s[cur]))
    ensures cur == start + |space| && s[cur..] == rest
  {
    var k := start + |space|;
    assert s[start..][|space|] == rest[0] == s[k];
    assert s[k..] == s[start..][|space|..];
  }

  /** Parses a whole descriptor: exactly the value texts and exactly the operations are accepted, and
      an operation's views are its two printed signatures. */
  method Parse(s: string) returns (descr: Option<Descr>)
    ensures descr == Some(Value(s)) <==> IsValueText(s)
    ensures descr.Some? && descr.value.Value? ==> descr.value.value == s
    ensures descr.Some? && descr.value.Functional? ==>
      exists a, before, after, b ::
        IsOperation(s, a, before, after, b) && descr.value == Functional(Print(a), Print(b))
    ensures forall a, before, after, b | IsOperation(s, a, before, after, b) ::
      descr == Some(Functional(Print(a), Print(b)))
  {
    var ok, cur := ParseType(s, 0);
    assert s[0..] == s;
    ReadIsSound(s);
    forall sig | WellFormed(sig) && s == Print(sig) ensures Read(s) == Some((sig, "")) {
      ReadUndoesPrint(sig, "");
      assert Print(sig) + "" == s;
    }
    forall a, before, after, b | IsOperation(s, a, before, after, b)
      ensures Read(s) == Some((a, before + "->" + after + Print(b)))
    {
      assert s == Print(a) + (before + "->" + after + Print(b));
      ReadUndoesPrint(a, before + "->" + after + Print(b));
    }
    if !ok {
      return None;
    }
    if cur == |s| {
      if s != "" {
        assert s == Print(Read(s).value.0);
      }
      return Some(Value(s));
    }
    var input := s[..cur];
    var arrowOk, start := ParseArrow(s, cur);
    descr := None;
    forall a, before, after, b | IsOperation(s, a, before, after, b)
      ensures arrowOk && s[start..] == Print(b)
    {
      PrintStarts(b);
      LeadIsNotSpace(Print(b));
    }
    if arrowOk && start < |s| {
      var ok', cur' := ParseType(s, start);
      ReadIsSound(s[start..]);
      forall a, before, after, b | IsOperation(s, a, before, after, b)
        ensures ok' && cur' == |s| && input == Print(a) && s[start..] == Print(b)
      {
        ReadUndoesPrint(b, "");
        assert Print(b) + "" == s[start..];
      }
      if ok' && cur' == |s| {
        descr := Some(Functional(input, s[start..]));
        ghost var before, after :|
          AllSpace(before) && AllSpace(after) && s[cur..start] == before + "->" + after;
        ghost var a, b := Read(s).value.0, Read(s[start..]).value.0;
        assert Print(b) + "" == s[start..];
        OperationFound(s, cur, start, a, before, after, b);
      }
    }
  }

  lemma LeadIsNotSpace(p: string)
    requires p != "" && (IsLeaf(p[0]) || IsContainer(p[0]))
    ensures !IsSpace(p[0])
  {}

  lemma OperationFound(s: string, cur: nat, start: nat, a: Sig, before: string, after: string, b: Sig)
    requires cur <= start < |s| && WellFormed(a) && WellFormed(b)
    requires s == Print(a) + s[cur..] && s[start..] == Print(b)
    requires AllSpace(before) && AllSpace(after) && s[cur..start] == before + "->" + after
    ensures IsOperation(s, a, before, after, b) && s[..cur] == Print(a)
  {
    assert |s[cur..]| == |s| - cur;
    assert s == Print(a) + s[cur..start] + s[start..];
  }
}
