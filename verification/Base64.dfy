/** The base64 codec of section 5.2 of RFC 1341, with lines of 72 characters. Bit operations are written
    on the base-4 digits they move: `x >> 2k` is `x / 4^k`, `x & (4^k - 1)` is `x % 4^k`, and `|` of
    values without common bits is `+`. */
module Base64 {
  import opened Strings
  import opened Wrappers

  type Byte = b: int | 0 <= b < 256

  const UPPER := "ABCDEFGHIJKLMNOPQRSTUVWXYZ"
  const LOWER := "abcdefghijklmnopqrstuvwxyz"
  const DIGITS := "0123456789+/"
  const TABLE := UPPER + LOWER + DIGITS
  const INVALID := 0x80
  const SIZE_MAX_PLUS_1 := 0x1_0000_0000_0000_0000
  const LINE := 72

  // ---------- the alphabet ----------

  /** The character of a six-bit value by the ranges of the alphabet. */
  function Symbol(x: int): char
    requires 0 <= x < 64
  {
    if x < 26 then ('A' as int + x) as char
    else if x < 52 then ('a' as int + x - 26) as char
    else if x < 62 then ('0' as int + x - 52) as char
    else if x == 62 then '+'
    else '/'
  }

  /** The value of a character by the ranges of the alphabet; padding counts as zero. */
  function ValueOf(c: char): int {
    if 'A' <= c <= 'Z' then c as int - 'A' as int
    else if 'a' <= c <= 'z' then c as int - 'a' as int + 26
    else if '0' <= c <= '9' then c as int - '0' as int + 52
    else if c == '+' then 62
    else if c == '/' then 63
    else if c == '=' then 0
    else INVALID
  }

  lemma ValueOfSymbol(x: int)
    requires 0 <= x < 64
    ensures ValueOf(Symbol(x)) == x && Symbol(x) != '='
  {}

  /** The table spells out the alphabet. */
  lemma TableIsAlphabet(x: int)
    requires 0 <= x < 64
    ensures TABLE[x] == Symbol(x)
  {
    if x < 26 {
      assert TABLE[x] == UPPER[x];
    } else if x < 52 {
      assert TABLE[x] == LOWER[x - 26];
    } else {
      assert TABLE[x] == DIGITS[x - 52];
    }
  }

  lemma SymbolOfValue(c: char)
    requires ValueOf(c) != 0x80 && c != '='
    ensures 0 <= ValueOf(c) < 64 && Symbol(ValueOf(c)) == c
  {}

  /** The characters with a value are the padding, which counts as zero, and the 64 of the table, by their place. */
  lemma ValuesAreTheTable(c: char)
    ensures ValueOf(c) != 0x80 <==> c == '=' || exists x | 0 <= x < 64 :: TABLE[x] == c
    ensures ValueOf('=') == 0 && forall x | 0 <= x < 64 && TABLE[x] == c :: ValueOf(c) == x
  {
    forall x | 0 <= x < 64 && TABLE[x] == c ensures ValueOf(c) == x {
      TableIsAlphabet(x);
      ValueOfSymbol(x);
    }
    if ValueOf(c) != 0x80 && c != '=' {
      SymbolOfValue(c);
      TableIsAlphabet(ValueOf(c));
      assert TABLE[ValueOf(c)] == c;
    }
  }

  /** The decoding table, indexed by byte. */
  method DecodeTable() returns (table: seq<int>)
    ensures IsDecodeTable(table)
    ensures forall c: char | c as int < 256 :: table[c as int] != 0x80 <==> c == '=' || c in TABLE
  {
    var dtable := new int[256](_ => INVALID);
    for i := 0 to |TABLE|
      invariant forall c: char | c as int < 256 ::
        dtable[c as int] == if c != '=' && ValueOf(c) < i then ValueOf(c) else INVALID
    {
      TableIsAlphabet(i);
      ValueOfSymbol(i);
      dtable[TABLE[i] as int] := i;
    }
    dtable['=' as int] := 0;
    table := dtable[..];
    forall c: char | c as int < 256 ensures table[c as int] != 0x80 <==> c == '=' || c in TABLE {
      ValuesAreTheTable(c);
    }
  }

  ghost predicate IsDecodeTable(table: seq<int>) {
    |table| == 256 && forall c: char | c as int < 256 :: table[c as int] == ValueOf(c)
  }

  predicate AllValid(s: string) {
    forall i | 0 <= i < |s| :: ValueOf(s[i]) != INVALID
  }

  // ---------- one group of three bytes, four characters ----------

  function Quad(a: Byte, b: Byte, c: Byte): (q: string)
    ensures |q| == 4
  {
    [Symbol(a / 4), Symbol(a % 4 * 16 + b / 16), Symbol(b % 16 * 4 + c / 64), Symbol(c % 64)]
  }

  /** The last group, of one or two bytes. */
  function Tail(t: seq<Byte>): (q: string)
    requires |t| == 1 || |t| == 2
    ensures |q| == 4
  {
    if |t| == 1 then [Symbol(t[0] / 4), Symbol(t[0] % 4 * 16), '=', '=']
    else [Symbol(t[0] / 4), Symbol(t[0] % 4 * 16 + t[1] / 16), Symbol(t[1] % 16 * 4), '=']
  }

  /** The three bytes of a decoded block, each truncated to eight bits. */
  function Triple(q: string): (t: seq<Byte>)
    requires |q| == 4
    ensures |t| == 3
  {
    var w, x, y, z := ValueOf(q[0]), ValueOf(q[1]), ValueOf(q[2]), ValueOf(q[3]);
    [(w * 4 + x / 16) % 256, (x * 16 + y / 4) % 256, (y * 64 + z) % 256]
  }

  function Pads(q: string): (n: nat)
  {
    if q == "" then 0 else Pads(q[..|q| - 1]) + if q[|q| - 1] == '=' then 1 else 0
  }

  lemma FirstByte(a: Byte, b: Byte)
    ensures (a / 4 * 4 + (a % 4 * 16 + b / 16) / 16) % 256 == a
  {
    assert (a % 4 * 16 + b / 16) / 16 == a % 4;
  }

  lemma SecondByte(a: Byte, b: Byte, c: Byte)
    ensures ((a % 4 * 16 + b / 16) * 16 + (b % 16 * 4 + c / 64) / 4) % 256 == b
  {
    assert (b % 16 * 4 + c / 64) / 4 == b % 16;
    assert (a % 4 * 16 + b / 16) * 16 + b % 16 == a % 4 * 256 + b;
  }

  lemma ThirdByte(b: Byte, c: Byte)
    ensures ((b % 16 * 4 + c / 64) * 64 + c % 64) % 256 == c
  {
    assert (b % 16 * 4 + c / 64) * 64 + c % 64 == b % 16 * 256 + c;
  }

  lemma TripleUndoesQuad(a: Byte, b: Byte, c: Byte)
    ensures var q := Quad(a, b, c);
      && AllValid(q) && Triple(q) == [a, b, c] && Pads(q) == 0
  {
    ValueOfSymbol(a / 4);
    ValueOfSymbol(a % 4 * 16 + b / 16);
    ValueOfSymbol(b % 16 * 4 + c / 64);
    ValueOfSymbol(c % 64);
    FirstByte(a, b);
    SecondByte(a, b, c);
    ThirdByte(b, c);
    PadsOfFour(Quad(a, b, c));
  }

  lemma PadsOfFour(q: string)
    requires |q| == 4
    ensures Pads(q) == (if q[0] == '=' then 1 else 0) + (if q[1] == '=' then 1 else 0)
                       + (if q[2] == '=' then 1 else 0) + (if q[3] == '=' then 1 else 0)
  {
    assert q[..4] == q && q[..3][..2] == q[..2] && q[..2][..1] == q[..1] && q[..1][..0] == "";
    assert Pads(q[..1]) == Pads("") + if q[0] == '=' then 1 else 0;
    assert Pads(q[..2]) == Pads(q[..1]) + if q[1] == '=' then 1 else 0;
    assert Pads(q[..3]) == Pads(q[..2]) + if q[2] == '=' then 1 else 0;
  }

  lemma TripleUndoesTail(t: seq<Byte>)
    requires |t| == 1 || |t| == 2
    ensures var q := Tail(t);
      && AllValid(q) && Triple(q)[..|t|] == t && Pads(q) == 3 - |t|
  {
    ValueOfSymbol(t[0] / 4);
    PadsOfFour(Tail(t));
    if |t| == 1 {
      ValueOfSymbol(t[0] % 4 * 16);
      FirstByte(t[0], 0);
      assert Triple(Tail(t))[..1] == [t[0]];
    } else {
      ValueOfSymbol(t[0] % 4 * 16 + t[1] / 16);
      ValueOfSymbol(t[1] % 16 * 4);
      FirstByte(t[0], t[1]);
      SecondByte(t[0], t[1], 0);
      assert Triple(Tail(t))[..2] == [t[0], t[1]];
    }
  }

  // ---------- whole texts ----------

  /** The encoding without line feeds. */
  function Body(src: seq<Byte>): (b: string)
    ensures |b| == (|src| + 2) / 3 * 4
  {
    if |src| >= 3 then Quad(src[0], src[1], src[2]) + Body(src[3..])
    else if src == [] then ""
    else Tail(src)
  }

  /** A line feed behind every full line of 72 characters. */
  function Flow(b: string): string {
    if |b| < LINE then b else b[..LINE] + "\n" + Flow(b[LINE..])
  }

  /** The encoding: every line, the last one included, ends in a line feed. */
  function Encoding(src: seq<Byte>): string {
    Flow(Body(src)) + if |Body(src)| % LINE != 0 then "\n" else ""
  }

  /** The characters that stand for a value. */
  function Keep(s: string): string
  {
    if s == "" then "" else
    var c := s[|s| - 1];
    Keep(s[..|s| - 1]) + if ValueOf(c) != INVALID then [c] else ""
  }

  /** Decodes blocks of four up to the first one with padding. */
  function Blocks(f: string): Option<seq<Byte>> {
    if |f| < 4 then Some([]) else
    var q := f[..4];
    if Pads(q) == 0 then
      var rest := Blocks(f[4..]);
      if rest.Some? then Some(Triple(q) + rest.value) else None
    else if Pads(q) <= 2 then Some(Triple(q)[..3 - Pads(q)])
    else None
  }

  function Decoding(s: string): Option<seq<Byte>> {
    var f := Keep(s);
    if f == "" || |f| % 4 != 0 then None else Blocks(f)
  }

  lemma {:induction false} KeepConcat(x: string, y: string)
    ensures Keep(x + y) == Keep(x) + Keep(y)
  {
    if y == "" {
      assert x + y == x;
    } else {
      assert (x + y)[..|x + y| - 1] == x + y[..|y| - 1];
      KeepConcat(x, y[..|y| - 1]);
    }
  }

  lemma {:induction false} KeepAll(x: string)
    requires AllValid(x)
    ensures Keep(x) == x
  {
    if x != "" {
      KeepAll(x[..|x| - 1]);
      assert x == x[..|x| - 1] + [x[|x| - 1]];
    }
  }

  lemma {:induction false} BodyIsValid(src: seq<Byte>)
    ensures AllValid(Body(src))
  {
    if |src| >= 3 {
      TripleUndoesQuad(src[0], src[1], src[2]);
      BodyIsValid(src[3..]);
    } else if src != [] {
      TripleUndoesTail(src);
    }
  }

  /** Dropping the characters without a value removes the line feeds and nothing else. */
  lemma {:induction false} KeepUndoesFlow(b: string)
    requires AllValid(b)
    ensures Keep(Flow(b)) == b
  {
    if |b| < LINE {
      KeepAll(b);
    } else {
      KeepUndoesFlow(b[LINE..]);
      KeepAll(b[..LINE]);
      KeepConcat(b[..LINE] + "\n", Flow(b[LINE..]));
      KeepConcat(b[..LINE], "\n");
      KeepOfNewline();
      assert b == b[..LINE] + b[LINE..];
    }
  }

  lemma KeepOfNewline()
    ensures Keep("\n") == ""
  {
    assert "\n"[..0] == "";
  }

  lemma FirstBlock(q: string, f: string)
    requires |q| == 4 && Pads(q) == 0 && Blocks(f).Some?
    ensures Blocks(q + f) == Some(Triple(q) + Blocks(f).value)
  {
    assert (q + f)[..4] == q && (q + f)[4..] == f;
  }

  lemma {:induction false} BlocksUndoBody(src: seq<Byte>)
    ensures Blocks(Body(src)) == Some(src)
  {
    var b := Body(src);
    if |src| >= 3 {
      BlocksUndoBody(src[3..]);
      TripleUndoesQuad(src[0], src[1], src[2]);
      FirstBlock(Quad(src[0], src[1], src[2]), Body(src[3..]));
      assert src == [src[0], src[1], src[2]] + src[3..];
    } else if src != [] {
      TripleUndoesTail(src);
      assert b[..4] == b;
    }
  }

  lemma KeepUndoesEncoding(src: seq<Byte>)
    ensures Keep(Encoding(src)) == Body(src)
  {
    var b := Body(src);
    BodyIsValid(src);
    KeepUndoesFlow(b);
    KeepConcat(Flow(b), if |b| % LINE != 0 then "\n" else "");
    KeepOfNewline();
  }

  /** Decoding the encoding of any non-empty byte string gives that byte string back; the empty one
      encodes to an empty text, which the decoder refuses. */
  lemma RoundTrip(src: seq<Byte>)
    ensures Decoding(Encoding(src)) == if src == [] then None else Some(src)
  {
    KeepUndoesEncoding(src);
    BodyIsValid(src);
    BlocksUndoBody(src);
    WholeBlocks((|src| + 2) / 3);
    DecodesTo(Encoding(src), Body(src));
  }

  lemma WholeBlocks(n: nat)
    ensures n * 4 % 4 == 0
  {}

  lemma DecodesTo(s: string, f: string)
    requires Keep(s) == f && |f| % 4 == 0
    ensures Decoding(s) == if f == "" then None else Blocks(f)
  {}

  /** A character that is neither in the alphabet nor padding can stand anywhere in a text without changing what it
      decodes to. */
  lemma JunkIsSkipped(x: string, c: char, y: string)
    requires c != '=' && forall i | 0 <= i < 64 :: TABLE[i] != c
    ensures Decoding(x + [c] + y) == Decoding(x + y)
  {
    ValuesAreTheTable(c);
    KeepConcat(x + [c], y);
    KeepConcat(x, [c]);
    KeepConcat(x, y);
    assert [c][..0] == "";
    assert Keep([c]) == "";
    assert Keep(x + [c] + y) == Keep(x + y);
  }

  /** How many of four symbols are padding. */
  function PadsIn(q: string): int
    requires |q| == 4
  {
    (if q[0] == '=' then 1 else 0) + (if q[1] == '=' then 1 else 0)
    + (if q[2] == '=' then 1 else 0) + (if q[3] == '=' then 1 else 0)
  }

  /** Four symbols give three bytes, less one for each padding; three or four paddings are refused. */
  lemma OneBlock(q: string)
    requires |q| == 4
    ensures Blocks(q) == if PadsIn(q) >= 3 then None else Some(Triple(q)[..3 - PadsIn(q)])
  {
    PadsOfFour(q);
    assert q[..4] == q && q[4..] == "";
    assert Triple(q)[..3] == Triple(q) == Triple(q) + [];
  }

  lemma {:induction false} NoPads(q: string)
    ensures Pads(q) == 0 <==> '=' !in q
  {
    if q != "" {
      NoPads(q[..|q| - 1]);
      assert q == q[..|q| - 1] + [q[|q| - 1]];
    }
  }

  /** Symbols behind a block with padding do not count. */
  lemma {:induction false} PaddingEnds(f: string, g: string)
    requires |f| % 4 == 0 && '=' in f
    ensures Blocks(f + g) == Blocks(f)
  {
    var q, rest := f[..4], f[4..];
    assert (f + g)[..4] == q && (f + g)[4..] == rest + g && f == q + rest;
    NoPads(q);
    if '=' !in q {
      PaddingEnds(rest, g);
    }
  }

  /** Without padding every four symbols give three bytes, and what follows is decoded by itself. */
  lemma {:induction false} BlockByBlock(f: string, g: string)
    requires |f| % 4 == 0 && '=' !in f
    ensures Blocks(f).Some? && |Blocks(f).value| == |f| / 4 * 3
    ensures Blocks(f + g) == if Blocks(g).Some? then Some(Blocks(f).value + Blocks(g).value) else None
  {
    if f == "" {
      assert f + g == g;
      assert Blocks(g).Some? ==> [] + Blocks(g).value == Blocks(g).value;
    } else {
      var q, rest := f[..4], f[4..];
      assert (f + g)[..4] == q && (f + g)[4..] == rest + g && f == q + rest;
      NoPads(q);
      BlockByBlock(rest, g);
      if Blocks(g).Some? {
        var t, u, v := Triple(q), Blocks(rest).value, Blocks(g).value;
        assert t + (u + v) == (t + u) + v;
      }
    }
  }

  lemma {:induction false} FlowFeeds(b: string, i: nat)
    requires AllValid(b) && i < |Flow(b)|
    ensures Flow(b)[i] as int == 10 <==> i % 73 == 72
  {
    if |b| >= LINE {
      var line := b[..LINE] + "\n";
      if i >= 73 {
        assert Flow(b)[i] == Flow(b[LINE..])[i - 73];
        FlowFeeds(b[LINE..], i - 73);
      } else {
        assert Flow(b)[i] == line[i];
      }
    }
  }

  lemma LastLineIsFull(len: nat)
    requires len % 72 == 0 && len > 0
    ensures (len + len / 72 - 1) % 73 == 72
  {
    assert len + len / 72 - 1 == 73 * (len / 72 - 1) + 72;
  }

  /** Line feeds stand behind every 72 characters and at the end, and nowhere else. */
  lemma EncodingHasLines(src: seq<Byte>, i: nat)
    requires i < |Encoding(src)|
    ensures Encoding(src)[i] as int == 10 <==> i % 73 == 72 || i == |Encoding(src)| - 1
  {
    var b := Body(src);
    BodyIsValid(src);
    FlowLength(b);
    if i < |Flow(b)| {
      FlowFeeds(b, i);
    }
    if |b| % LINE == 0 {
      LastLineIsFull(|b|);
    }
  }

  // ---------- the encoder's buffer ----------

  /** The size the encoder allocates, in unbounded arithmetic. */
  function BufferSize(len: nat): nat {
    var olen := len * 4 / 3 + 4;
    olen + olen / LINE + 1
  }

  /** The bytes the encoder writes: the characters, a line feed per started line, and the terminator. */
  function Written(len: nat): nat {
    var chars := (len + 2) / 3 * 4;
    chars + (chars + LINE - 1) / LINE + 1
  }

  /** The buffer is never overrun, and it is filled to the last byte exactly for lengths one above a
      multiple of three whose last line is not full. */
  lemma BufferIsTight(len: nat)
    ensures Written(len) <= BufferSize(len)
    ensures Written(len) == BufferSize(len) <==> len % 3 == 1 && (len + 2) / 3 * 4 % LINE != 0
  {
    var k, r := len / 3, len % 3;
    assert len * 4 / 3 == 4 * k + r;
    if r == 0 {
      LineCounts(k);
      LineCounts(k + 1);
    } else {
      LineCounts(k + 1);
    }
  }

  lemma LineDiv(x: int, q: int, r: int)
    requires x == LINE * q + r && 0 <= r < LINE
    ensures x / LINE == q && x % LINE == r
  {}

  /** Lines of 4k characters, against the divisions in the size computation. */
  lemma LineCounts(k: nat)
    ensures var x := 4 * k;
      && x / LINE == (x + 1) / LINE == (x + 2) / LINE == k / 18 && x % LINE == 4 * (k % 18)
      && (x + LINE - 1) / LINE == k / 18 + if k % 18 == 0 then 0 else 1
  {
    var q, m := k / 18, k % 18;
    LineDiv(4 * k, q, 4 * m);
    LineDiv(4 * k + 1, q, 4 * m + 1);
    LineDiv(4 * k + 2, q, 4 * m + 2);
    if m == 0 {
      LineDiv(4 * k + LINE - 1, q, LINE - 1);
    } else {
      LineDiv(4 * k + LINE - 1, q + 1, 4 * m - 1);
    }
  }

  /** The comparison with the length catches every size computation that wrapped around. */
  lemma OverflowIsCaught(len: nat)
    requires len < SIZE_MAX_PLUS_1
    ensures var olen := len * 4 % SIZE_MAX_PLUS_1 / 3 + 4;
      olen + olen / LINE + 1 >= len <==> len * 4 < SIZE_MAX_PLUS_1
  {}

  lemma EncodingLength(src: seq<Byte>)
    ensures |Encoding(src)| + 1 == Written(|src|)
  {
    FlowLength(Body(src));
  }

  lemma {:induction false} FlowLength(b: string)
    ensures |Flow(b)| == |b| + |b| / LINE
  {
    if |b| >= LINE {
      FlowLength(b[LINE..]);
    }
  }

  // ---------- the encoder ----------

  lemma {:induction false} BodyConcat(x: seq<Byte>, y: seq<Byte>)
    requires |x| % 3 == 0
    ensures Body(x + y) == Body(x) + Body(y)
  {
    if x == [] {
      assert x + y == y;
    } else {
      assert (x + y)[3..] == x[3..] + y;
      BodyConcat(x[3..], y);
    }
  }

  /** A group never straddles two lines. */
  lemma FlowLine(x: string, y: string)
    requires |x| == LINE
    ensures Flow(x + y) == x + "\n" + Flow(y)
  {
    assert (x + y)[..LINE] == x && (x + y)[LINE..] == y;
  }

  lemma FlowShort(b: string, q: string)
    requires |b| % 4 == 0 && |q| == 4 && |b| < LINE
    ensures Flow(b + q) == b + q + if |b| + 4 == LINE then "\n" else ""
  {
    if |b| == LINE - 4 {
      FlowLine(b + q, "");
      assert b + q + "" == b + q;
    }
  }

  lemma {:induction false} FlowStep(b: string, q: string)
    requires |b| % 4 == 0 && |q| == 4
    ensures Flow(b + q) == Flow(b) + q + if (|b| + 4) % LINE == 0 then "\n" else ""
  {
    if |b| < LINE {
      FlowShort(b, q);
    } else {
      var front, tail := b[..LINE], b[LINE..];
      FlowStep(tail, q);
      Assoc(front, tail, q);
      FlowLine(front, tail + q);
      assert b == front + tail && (|tail| + 4) % LINE == (|b| + 4) % LINE;
      Assoc(front + "\n", Flow(tail) + q, if (|b| + 4) % LINE == 0 then "\n" else "");
      Assoc(front + "\n", Flow(tail), q);
    }
  }

  /** `text` is what the first `i` bytes give, with `lineLen` characters on the open line. */
  ghost predicate Wrote(src: seq<Byte>, i: nat, text: string, lineLen: nat)
    requires i <= |src|
  {
    i % 3 == 0 && text == Flow(Body(src[..i])) && lineLen == |Body(src[..i])| % LINE
  }

  /** One more whole group. */
  lemma EncodeStep(src: seq<Byte>, i: nat, text: string, lineLen: nat)
    requires i + 3 <= |src| && Wrote(src, i, text, lineLen)
    ensures var text' := text + Quad(src[i], src[i + 1], src[i + 2]);
      if lineLen + 4 >= LINE then Wrote(src, i + 3, text' + "\n", 0) else Wrote(src, i + 3, text', lineLen + 4)
  {
    BodySnoc(src, i);
    WholeBlocks((i + 2) / 3);
    LineGrows(Body(src[..i]), Quad(src[i], src[i + 1], src[i + 2]));
  }

  lemma BodySnoc(src: seq<Byte>, i: nat)
    requires i % 3 == 0 && i + 3 <= |src|
    ensures Body(src[..i + 3]) == Body(src[..i]) + Quad(src[i], src[i + 1], src[i + 2])
  {
    var g := src[i..i + 3];
    assert src[..i + 3] == src[..i] + g;
    BodyConcat(src[..i], g);
    assert Body(g) == Quad(g[0], g[1], g[2]) + Body(g[3..]);
  }

  lemma LineGrows(b: string, q: string)
    requires |b| % 4 == 0 && |q| == 4
    ensures if |b| % LINE + 4 >= LINE then Flow(b + q) == Flow(b) + q + "\n" && |b + q| % LINE == 0
            else Flow(b + q) == Flow(b) + q && |b + q| % LINE == |b| % LINE + 4
  {
    FlowStep(b, q);
    LineStep(|b| / 4);
  }

  lemma LineStep(k: nat)
    ensures if 4 * k % LINE + 4 >= LINE then (4 * k + 4) % LINE == 0 else (4 * k + 4) % LINE == 4 * k % LINE + 4
  {
    LineCounts(k);
    LineCounts(k + 1);
  }

  /** The text is complete after the last group and one more line feed, if a line is open. */
  lemma EncodeEnd(src: seq<Byte>, i: nat, text: string, lineLen: nat)
    requires i <= |src| < i + 3 && Wrote(src, i, text, lineLen)
    ensures Encoding(src) == if i < |src| then text + Tail(src[i..]) + "\n"
                             else if lineLen != 0 then text + "\n" else text
  {
    WholeBlocks((i + 2) / 3);
    if i == |src| {
      assert src[..i] == src;
      assert text + "" == text;
    } else {
      assert src == src[..i] + src[i..];
      BodyConcat(src[..i], src[i..]);
      FlowStep(Body(src[..i]), Tail(src[i..]));
      assert text + Tail(src[i..]) + "" == text + Tail(src[i..]);
    }
  }

  /** The first `i` bytes never fill the buffer. */
  lemma RoomLeft(src: seq<Byte>, i: nat, text: string, lineLen: nat)
    requires i <= |src| && Wrote(src, i, text, lineLen)
    ensures |text| < Written(|src|) && lineLen < LINE
    ensures i < |src| ==> |text| + 6 <= Written(|src|)
  {
    FlowLength(Body(src[..i]));
    assert (i + 2) / 3 == i / 3;
    Room(i / 3, (|src| + 2) / 3);
  }

  lemma Room(g: nat, n: nat)
    requires g <= n
    ensures 4 * g + 4 * g / LINE <= 4 * n + (4 * n + LINE - 1) / LINE
    ensures g < n ==> 4 * g + 4 * g / LINE + 5 <= 4 * n + (4 * n + LINE - 1) / LINE
  {
    LineCounts(g);
    LineCounts(n);
  }

  method PutQuad(buf: array<char>, pos: nat, q: string)
    requires pos + 4 <= buf.Length && |q| == 4
    modifies buf
    ensures buf[..pos + 4] == old(buf[..pos]) + q
  {
    buf[pos] := q[0];
    buf[pos + 1] := q[1];
    buf[pos + 2] := q[2];
    buf[pos + 3] := q[3];
  }

  method PutOne(buf: array<char>, pos: nat, c: char)
    requires pos < buf.Length
    modifies buf
    ensures buf[..pos] == old(buf[..pos]) && buf[..pos + 1] == old(buf[..pos]) + [c]
  {
    buf[pos] := c;
  }

  method CharAt(x: int) returns (c: char)
    requires 0 <= x < 64
    ensures c == Symbol(x)
  {
    TableIsAlphabet(x);
    c := TABLE[x];
  }

  /** The characters of the group that starts at `i`, looked up in the table. */
  method Group(src: seq<Byte>, i: nat) returns (q: string)
    requires i < |src|
    ensures q == if |src| - i >= 3 then Quad(src[i], src[i + 1], src[i + 2]) else Tail(src[i..])
  {
    var a := src[i];
    var w := CharAt(a / 4);
    if |src| - i >= 3 {
      var b, c := src[i + 1], src[i + 2];
      var x := CharAt(a % 4 * 16 + b / 16);
      var y := CharAt(b % 16 * 4 + c / 64);
      var z := CharAt(c % 64);
      q := [w, x, y, z];
    } else if |src| - i == 1 {
      var x := CharAt(a % 4 * 16);
      q := [w, x, '=', '='];
    } else {
      var b := src[i + 1];
      var x := CharAt(a % 4 * 16 + b / 16);
      var y := CharAt(b % 16 * 4);
      q := [w, x, y, '='];
    }
  }

  method EncodeGroups(src: seq<Byte>, buf: array<char>) returns (i: nat, pos: nat, lineLen: nat)
    requires buf.Length >= Written(|src|)
    modifies buf
    ensures i <= |src| < i + 3 && pos <= buf.Length && Wrote(src, i, buf[..pos], lineLen)
  {
    i, pos, lineLen := 0, 0, 0;
    while |src| - i >= 3
      invariant i <= |src| && pos <= buf.Length && Wrote(src, i, buf[..pos], lineLen)
    {
      ghost var text := buf[..pos];
      RoomLeft(src, i, text, lineLen);
      EncodeStep(src, i, text, lineLen);
      var q := Group(src, i);
      PutQuad(buf, pos, q);
      i, pos, lineLen := i + 3, pos + 4, lineLen + 4;
      if lineLen >= LINE {
        PutOne(buf, pos, '\n');
        pos, lineLen := pos + 1, 0;
      }
    }
  }

  /** The buffer size in 64-bit arithmetic; refuses exactly the lengths for which it wraps. */
  method AllocationFor(len: nat) returns (size: Option<nat>)
    requires len < SIZE_MAX_PLUS_1
    ensures size == if len * 4 < SIZE_MAX_PLUS_1 then Some(BufferSize(len)) else None
  {
    OverflowIsCaught(len);
    var bytes := len * 4 % SIZE_MAX_PLUS_1;
    assert len * 4 < SIZE_MAX_PLUS_1 ==> bytes == len * 4;
    var olen := bytes / 3 + 4;
    olen := olen + olen / LINE;
    olen := olen + 1;
    size := if olen < len then None else Some(olen);
  }

  /** Encodes within the allocated buffer. */
  method Encode(src: seq<Byte>) returns (out: Option<string>)
    requires |src| < SIZE_MAX_PLUS_1
    ensures out == if |src| * 4 < SIZE_MAX_PLUS_1 then Some(Encoding(src)) else None
  {
    var size := AllocationFor(|src|);
    if size.None? {
      return None;
    }
    BufferIsTight(|src|);
    var buf := new char[size.value];
    var i, pos, lineLen := EncodeGroups(src, buf);
    EncodeEnd(src, i, buf[..pos], lineLen);
    RoomLeft(src, i, buf[..pos], lineLen);
    if i < |src| {
      var q := Group(src, i);
      PutQuad(buf, pos, q);
      pos, lineLen := pos + 4, lineLen + 4;
    }
    if lineLen != 0 {
      PutOne(buf, pos, '\n');
      pos := pos + 1;
    }
    assert buf[..pos] == Encoding(src);
    EncodingLength(src);
    buf[pos] := '\0';
    out := Some(buf[..pos]);
  }

  // ---------- the decoder ----------

  function Prefixed(bytes: seq<Byte>, rest: Option<seq<Byte>>): Option<seq<Byte>> {
    if rest.Some? then Some(bytes + rest.value) else None
  }

  lemma BlocksCons(q: string, rest: string)
    requires |q| == 4
    ensures Blocks(q + rest) ==
      if Pads(q) == 0 then Prefixed(Triple(q), Blocks(rest))
      else if Pads(q) <= 2 then Some(Triple(q)[..3 - Pads(q)]) else None
  {
    assert (q + rest)[..4] == q && (q + rest)[4..] == rest;
  }

  lemma PrefixedTwice(x: seq<Byte>, y: seq<Byte>, rest: Option<seq<Byte>>)
    ensures Prefixed(x, Prefixed(y, rest)) == Prefixed(x + y, rest)
  {
    if rest.Some? {
      assert x + (y + rest.value) == x + y + rest.value;
    }
  }

  method CountValid(src: string, table: seq<int>) returns (count: nat)
    requires IsDecodeTable(table) && forall i | 0 <= i < |src| :: src[i] as int < 256
    ensures count == |Keep(src)|
  {
    count := 0;
    for i := 0 to |src|
      invariant count == |Keep(src[..i])|
    {
      assert src[..i + 1][..i] == src[..i];
      if table[src[i] as int] != INVALID {
        count := count + 1;
      }
    }
    assert src[..|src|] == src;
  }

  /** The blocks `f` decode to `bytes`, whatever follows them. */
  ghost predicate DecodesInFront(f: string, bytes: seq<Byte>) {
    forall rest {:trigger Blocks(f + rest)} :: Blocks(f + rest) == Prefixed(bytes, Blocks(rest))
  }

  /** Where the decoder stands after `i` characters: the `n` whole blocks `f` are written out and `q` waits. */
  ghost predicate Decoded(src: string, i: nat, n: nat, f: string, q: string, written: seq<Byte>)
    requires i <= |src|
  {
    && Keep(src[..i]) == f + q && |f| == 4 * n && |q| <= 4
    && |written| == 3 * n && DecodesInFront(f, written)
  }

  lemma KeepNext(src: string, i: nat)
    requires i < |src|
    ensures Keep(src[..i + 1]) == if ValueOf(src[i]) == INVALID then Keep(src[..i]) else Keep(src[..i]) + [src[i]]
  {
    assert src[..i + 1][..i] == src[..i];
  }

  lemma PadsNext(q: string, c: char)
    ensures Pads(q + [c]) == Pads(q) + if c == '=' then 1 else 0
  {
    assert (q + [c])[..|q|] == q;
  }

  lemma DecodeChar(src: string, i: nat, n: nat, f: string, q: string, written: seq<Byte>)
    requires i < |src| && Decoded(src, i, n, f, q, written) && |q| < 4
    ensures if ValueOf(src[i]) == INVALID then Decoded(src, i + 1, n, f, q, written)
            else Decoded(src, i + 1, n, f, q + [src[i]], written)
    ensures Pads(q + [src[i]]) == Pads(q) + if src[i] == '=' then 1 else 0
  {
    KeepNext(src, i);
    PadsNext(q, src[i]);
    Assoc(f, q, [src[i]]);
  }

  lemma KeepSplit(src: string, i: nat)
    requires i <= |src|
    ensures Keep(src) == Keep(src[..i]) + Keep(src[i..])
  {
    assert src == src[..i] + src[i..];
    KeepConcat(src[..i], src[i..]);
  }

  lemma RoomForBlock(src: string, i: nat, n: nat, f: string, q: string, written: seq<Byte>)
    requires i <= |src| && Decoded(src, i, n, f, q, written) && |q| == 4
    ensures 4 * n + 4 <= |Keep(src)|
  {
    KeepSplit(src, i);
  }

  /** A full block without padding is written out. */
  lemma BlockWritten(src: string, i: nat, n: nat, f: string, q: string, written: seq<Byte>, t: seq<Byte>)
    requires i <= |src| && Decoded(src, i, n, f, q, written) && |q| == 4 && Pads(q) == 0 && t == Triple(q)
    ensures Decoded(src, i, n + 1, f + q, "", written + t)
  {
    assert f + q + "" == f + q;
    forall rest ensures Blocks(f + q + rest) == Prefixed(written + t, Blocks(rest)) {
      assert f + q + rest == f + (q + rest);
      BlocksCons(q, rest);
      PrefixedTwice(written, t, Blocks(rest));
    }
  }

  /** A full block with padding ends the text. */
  lemma BlockEnds(src: string, i: nat, n: nat, f: string, q: string, written: seq<Byte>, t: seq<Byte>)
    requires i <= |src| && Decoded(src, i, n, f, q, written) && |q| == 4 && Pads(q) != 0 && t == Triple(q)
    ensures Blocks(Keep(src)) == if Pads(q) <= 2 then Some(written + t[..3 - Pads(q)]) else None
  {
    KeepSplit(src, i);
    EndsInFront(f, q, Keep(src[i..]), written, t);
  }

  lemma EndsInFront(f: string, q: string, rest: string, written: seq<Byte>, t: seq<Byte>)
    requires DecodesInFront(f, written) && |q| == 4 && Pads(q) != 0 && t == Triple(q)
    ensures Blocks(f + q + rest) == if Pads(q) <= 2 then Some(written + t[..3 - Pads(q)]) else None
  {
    assert f + q + rest == f + (q + rest);
    BlocksCons(q, rest);
    assert Blocks(f + (q + rest)) == Prefixed(written, Blocks(q + rest));
  }

  lemma TextDone(src: string, n: nat, f: string, q: string, written: seq<Byte>)
    requires Decoded(src, |src|, n, f, q, written) && |q| < 4 && |Keep(src)| % 4 == 0
    ensures Blocks(Keep(src)) == Some(written)
  {
    assert src[..|src|] == src;
    assert q == "" && f + q == f && f + "" == f && written + [] == written;
    assert Blocks(f + "") == Prefixed(written, Blocks(""));
  }

  method PutTriple(buf: array<Byte>, pos: nat, block: seq<int>, ghost q: string)
    requires pos + 3 <= buf.Length && |block| == |q| == 4
    requires forall j | 0 <= j < 4 :: block[j] == ValueOf(q[j])
    modifies buf
    ensures buf[..pos + 3] == old(buf[..pos]) + Triple(q)
  {
    buf[pos] := (block[0] * 4 + block[1] / 16) % 256;
    buf[pos + 1] := (block[1] * 16 + block[2] / 4) % 256;
    buf[pos + 2] := (block[2] * 64 + block[3]) % 256;
  }

  /** Writes out a full block and takes back what its padding stands for. */
  method FinishBlock(
    src: string, i: nat, buf: array<Byte>, start: nat, block: seq<int>, pad: nat,
    ghost n: nat, ghost f: string, ghost q: string)
    returns (pos: nat, last: bool)
    requires i <= |src| && start + 3 <= buf.Length && Decoded(src, i, n, f, q, buf[..start])
    requires |block| == |q| == 4 && pad == Pads(q) && forall j | 0 <= j < 4 :: block[j] == ValueOf(q[j])
    modifies buf
    ensures pos <= buf.Length && (last <==> pad != 0)
    ensures pad == 0 ==> Decoded(src, i, n + 1, f + q, "", buf[..pos])
    ensures pad != 0 ==> Blocks(Keep(src)) == if pad > 2 then None else Some(buf[..pos])
  {
    ghost var written := buf[..start];
    PutTriple(buf, start, block, q);
    pos, last := start + 3, pad != 0;
    ghost var t := Triple(q);
    if pad == 0 {
      BlockWritten(src, i, n, f, q, written, t);
    } else {
      BlockEnds(src, i, n, f, q, written, t);
      if pad <= 2 {
        TakeBack(buf[..pos], written, t, pad);
        assert buf[..pos][..pos - pad] == buf[..pos - pad];
        pos := pos - pad;
      }
    }
  }

  /** Decodes any text: what has no value is skipped, and only whole blocks are accepted. */
  method Decode(src: string) returns (out: Option<seq<Byte>>)
    requires forall i | 0 <= i < |src| :: src[i] as int < 256
    ensures out == Decoding(src)
  {
    var table := DecodeTable();
    var count := CountValid(src, table);
    if count == 0 || count % 4 != 0 {
      return None;
    }
    out := DecodeBlocks(src, table, count / 4);
    DecodesTo(src, Keep(src));
  }

  /** The decoder's variables between two characters. */
  ghost predicate Running(
    src: string, i: nat, g: Ghost, written: seq<Byte>, block: seq<int>, pad: nat)
  {
    && i <= |src| && Decoded(src, i, g.n, g.f, g.q, written) && |g.q| < 4
    && |block| == |g.q| && pad == Pads(g.q)
    && forall j | 0 <= j < |block| :: block[j] == ValueOf(g.q[j])
  }

  datatype Ghost = Ghost(n: nat, f: string, q: string)

  /** Handles character `i`; `last` says that the text ends with it. */
  method DecodeOne(
    src: string, i: nat, tmp: int, buf: array<Byte>, start: nat, block: seq<int>, pad: nat, ghost g: Ghost)
    returns (last: bool, pos: nat, block': seq<int>, pad': nat, ghost g': Ghost)
    requires i < |src| && tmp == ValueOf(src[i])
    requires start <= buf.Length && Running(src, i, g, buf[..start], block, pad)
    requires 4 * buf.Length == 3 * |Keep(src)|
    modifies buf
    ensures pos <= buf.Length
    ensures !last ==> Running(src, i + 1, g', buf[..pos], block', pad')
    ensures last ==> Blocks(Keep(src)) == if pad' > 2 then None else Some(buf[..pos])
  {
    last, pos, block', pad', g' := false, start, block, pad, g;
    DecodeChar(src, i, g.n, g.f, g.q, buf[..pos]);
    if tmp == INVALID {
      return;
    }
    if src[i] == '=' {
      pad' := pad + 1;
    }
    block', g' := block + [tmp], g.(q := g.q + [src[i]]);
    if |block'| == 4 {
      RoomForBlock(src, i + 1, g'.n, g'.f, g'.q, buf[..pos]);
      pos, last := FinishBlock(src, i + 1, buf, pos, block', pad', g'.n, g'.f, g'.q);
      block', g' := [], Ghost(g'.n + 1, g'.f + g'.q, "");
    }
  }

  method DecodeBlocks(src: string, table: seq<int>, blocks: nat) returns (out: Option<seq<Byte>>)
    requires IsDecodeTable(table) && forall i | 0 <= i < |src| :: src[i] as int < 256
    requires |Keep(src)| == 4 * blocks > 0
    ensures out == Blocks(Keep(src))
  {
    var buf := new Byte[blocks * 3];
    var pos: nat, pad: nat, block: seq<int>, last := 0, 0, [], false;
    ghost var g := Ghost(0, "", "");
    NothingInFront();
    for i := 0 to |src|
      invariant pos <= buf.Length && Running(src, i, g, buf[..pos], block, pad)
    {
      last, pos, block, pad, g := DecodeOne(src, i, table[src[i] as int], buf, pos, block, pad, g);
      if last {
        return if pad > 2 then None else Some(buf[..pos]);
      }
    }
    TextDone(src, g.n, g.f, g.q, buf[..pos]);
    out := Some(buf[..pos]);
  }

  lemma NothingInFront()
    ensures DecodesInFront("", [])
  {
    forall rest: string ensures Blocks("" + rest) == Prefixed([], Blocks(rest)) {
      assert "" + rest == rest;
      assert Blocks(rest).Some? ==> [] + Blocks(rest).value == Blocks(rest).value;
    }
  }

  lemma TakeBack(all: seq<Byte>, written: seq<Byte>, t: seq<Byte>, pad: nat)
    requires all == written + t && pad <= |t|
    ensures all[..|all| - pad] == written + t[..|t| - pad]
  {}
}
