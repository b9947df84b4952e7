/** The binary search over a ring's window, with the 64-bit arithmetic of its bounds: the right bound can drop
    below zero and wrap around, after which the search goes on over indices far outside the window. */
module RingSearch {
  import opened Arith
  import opened RequestRing
  import opened Wrappers

  const U64 := 0x1_0000_0000_0000_0000
  const TOP := 0xFFFF_FFFF_FFFF_FFFF
  const HALF := 0x8000_0000_0000_0000

  /** The window's length as the source computes it: zero for a full ring. */
  function TotalLen(r: Ring): int {
    if r.end >= r.start then r.end - r.start else |r.reqs| - (r.start - r.end)
  }

  /** The computed length is right exactly when the ring is not full. */
  lemma TotalLenIsRight(r: Ring)
    requires Shaped(r)
    ensures TotalLen(r) == |Window(r)| <==> !(r.start == r.end && r.len != 0)
  {}

  function SlotAt(r: Ring, m: int): (i: int)
    requires Shaped(r) && 0 <= m
    ensures 0 <= i < |r.reqs|
  {
    (r.start + m) % U64 % |r.reqs|
  }

  lemma SlotAtIsRot(r: Ring, m: int)
    requires Shaped(r) && 0 <= m < |r.reqs| <= HALF
    ensures SlotAt(r, m) == Rot(r.start, |r.reqs|, m)
  {
    WrapsOnce(r.start + m, |r.reqs|);
  }

  /** A search between two bounds, or how it ended. */
  datatype Search = Walking(lo: int, hi: int) | Found(index: int) | Absent

  datatype Sight = Below | Above | Here | Hole

  function SightOf(req: Request, seqNo: int): Sight {
    if req.packetSeq < seqNo then Below
    else if req.packetSeq > seqNo then Above
    else if req.message.Some? then Here
    else Hole
  }

  function Look(r: Ring, seqNo: int, m: int): Sight
    requires Shaped(r) && 0 <= m
  {
    SightOf(r.reqs[SlotAt(r, m)], seqNo)
  }

  function Middle(lo: int, hi: int): int {
    (lo + hi) % U64 / 2
  }

  /** One turn of the loop. At a hole that holds the number neither bound moves. */
  function Probe(r: Ring, seqNo: int, s: Search): Search
    requires Shaped(r)
  {
    if !s.Walking? then s
    else if s.lo > s.hi then Absent
    else
      var m := Middle(s.lo, s.hi);
      match Look(r, seqNo, m)
      case Below => Walking(m + 1, s.hi)
      case Above => Walking(s.lo, if m == 0 then TOP else m - 1)
      case Here => Found(m)
      case Hole => s
  }

  function Probes(r: Ring, seqNo: int, s: Search, n: nat): (t: Search)
    requires Shaped(r)
    ensures t.Found? ==> t == s || 0 <= t.index
    decreases n
  {
    if n == 0 then s else Probes(r, seqNo, Probe(r, seqNo, s), n - 1)
  }

  function Start(r: Ring): Search {
    Walking(0, if TotalLen(r) == 0 then TOP else TotalLen(r) - 1)
  }

  // ---------- a search ends soon or never ----------

  lemma {:induction false} ProbesAdd(r: Ring, seqNo: int, s: Search, n: nat, m: nat)
    requires Shaped(r)
    ensures Probes(r, seqNo, s, n + m) == Probes(r, seqNo, Probes(r, seqNo, s, n), m)
    decreases n
  {
    if n > 0 {
      ProbesAdd(r, seqNo, Probe(r, seqNo, s), n - 1, m);
    }
  }

  lemma {:induction false} StuckStays(r: Ring, seqNo: int, s: Search, n: nat)
    requires Shaped(r) && Probe(r, seqNo, s) == s
    ensures Probes(r, seqNo, s, n) == s
  {
    if n > 0 {
      StuckStays(r, seqNo, s, n - 1);
    }
  }

  /** A search that is still going on, later, was going on before. */
  lemma StillWalking(r: Ring, seqNo: int, s: Search, n: nat, m: nat)
    requires Shaped(r) && n <= m && Probes(r, seqNo, s, m).Walking?
    ensures Probes(r, seqNo, s, n).Walking?
  {
    ProbesAdd(r, seqNo, s, n, m - n);
    if !Probes(r, seqNo, s, n).Walking? {
      StuckStays(r, seqNo, Probes(r, seqNo, s, n), m - n);
    }
  }

  ghost predicate NeverEnds(r: Ring, seqNo: int, s: Search)
    requires Shaped(r)
  {
    forall n: nat :: Probes(r, seqNo, s, n).Walking?
  }

  lemma {:induction false} Revisits(r: Ring, seqNo: int, s: Search, n: nat, p: nat, k: nat) returns (m: nat)
    requires Shaped(r) && p > 0
    requires var t := Probes(r, seqNo, s, n); Probes(r, seqNo, t, p) == t
    ensures m >= k && Probes(r, seqNo, s, m) == Probes(r, seqNo, s, n)
    decreases k
  {
    m := n;
    if k > n {
      m := Revisits(r, seqNo, s, n, p, k - 1);
      ProbesAdd(r, seqNo, s, m, p);
      m := m + p;
    }
  }

  /** A search that comes back to where it was never ends. */
  lemma ReturnsForever(r: Ring, seqNo: int, s: Search, n: nat, p: nat)
    requires Shaped(r) && p > 0
    requires var t := Probes(r, seqNo, s, n); t.Walking? && Probes(r, seqNo, t, p) == t
    ensures NeverEnds(r, seqNo, s)
  {
    forall k: nat ensures Probes(r, seqNo, s, k).Walking? {
      var m := Revisits(r, seqNo, s, n, p, k);
      StillWalking(r, seqNo, s, k, m);
    }
  }

  function Pow2(j: nat): (p: nat)
    ensures p >= 1
  {
    if j == 0 then 1 else 2 * Pow2(j - 1)
  }

  /** The search ended, stands still, or its right bound has wrapped around. */
  ghost predicate Settled(r: Ring, seqNo: int, s: Search)
    requires Shaped(r)
  {
    !s.Walking? || Probe(r, seqNo, s) == s || s == Walking(0, TOP)
  }

  lemma Halves(lo: int, hi: int, j: nat)
    requires 0 <= lo <= hi < HALF && hi - lo + 1 < Pow2(j)
    ensures var m := (lo + hi) / 2;
      j > 0 && Middle(lo, hi) == m && lo <= m <= hi && hi - m < Pow2(j - 1) && m - lo < Pow2(j - 1)
  {}

  /** Between small bounds the distance halves at every turn. */
  lemma {:induction false} Narrows(r: Ring, seqNo: int, lo: int, hi: int, j: nat) returns (n: nat)
    requires Shaped(r) && 0 <= lo <= hi + 1 && 0 <= hi < HALF && hi - lo + 1 < Pow2(j)
    ensures n <= j + 1 && Settled(r, seqNo, Probes(r, seqNo, Walking(lo, hi), n))
    decreases j
  {
    var s := Walking(lo, hi);
    n := 1;
    assert Probes(r, seqNo, s, 1) == Probe(r, seqNo, s);
    if lo <= hi {
      Halves(lo, hi, j);
      var m := (lo + hi) / 2;
      var k := 0;
      match Look(r, seqNo, m)
      case Below =>
        k := Narrows(r, seqNo, m + 1, hi, j - 1);
        ProbesAdd(r, seqNo, s, 1, k);
        n := 1 + k;
      case Above =>
        if m > 0 {
          k := Narrows(r, seqNo, lo, m - 1, j - 1);
          ProbesAdd(r, seqNo, s, 1, k);
          n := 1 + k;
        }
      case _ =>
    }
  }

  lemma WrappedMiddle(half: int)
    requires 1 <= half && 2 * half <= HALF
    ensures Middle(2 * half, TOP) == half - 1
  {
    assert (2 * half + TOP) % U64 == 2 * half - 1;
  }

  /** Once the left bound is in the upper half the sum of the bounds wraps, and the probes come down again. */
  lemma {:induction false} ComesDown(r: Ring, seqNo: int, k: nat) returns (n: nat)
    requires Shaped(r) && 1 <= k <= 63 && Pow2(k) <= HALF
    ensures n <= k + 2
    ensures var s := Probes(r, seqNo, Walking(Pow2(k), TOP), n); Settled(r, seqNo, s) && s != Walking(0, TOP)
    decreases k
  {
    var s := Walking(Pow2(k), TOP);
    var m := Pow2(k - 1) - 1;
    WrappedMiddle(m + 1);
    assert Probes(r, seqNo, s, 1) == Probe(r, seqNo, s);
    n := 1;
    if Look(r, seqNo, m) == Below {
      if k == 1 {
        assert Middle(1, TOP) == 0;
      } else {
        var i := ComesDown(r, seqNo, k - 1);
        ProbesAdd(r, seqNo, s, 1, i);
        n := 1 + i;
      }
    } else if Look(r, seqNo, m) == Above && m > 0 {
      ProbesAdd(r, seqNo, s, 1, 1);
      n := 2;
    }
  }

  lemma PowersOfTwo()
    ensures Pow2(63) == HALF
  {
    Doublings(0);
    assert Pow2(8) == 0x100;
    Doublings(8);
    assert Pow2(16) == 0x1_0000;
    Doublings(16);
    assert Pow2(24) == 0x100_0000;
    Doublings(24);
    assert Pow2(32) == 0x1_0000_0000;
    Doublings(32);
    assert Pow2(40) == 0x100_0000_0000;
    Doublings(40);
    assert Pow2(48) == 0x1_0000_0000_0000;
    Doublings(48);
    assert Pow2(56) == 0x100_0000_0000_0000;
    Doublings(56);
  }

  lemma Doublings(j: nat)
    ensures Pow2(j + 8) == 256 * Pow2(j) && Pow2(j + 7) == 128 * Pow2(j)
  {
    assert Pow2(j + 2) == 2 * Pow2(j + 1) == 4 * Pow2(j);
    assert Pow2(j + 4) == 2 * Pow2(j + 3) == 4 * Pow2(j + 2);
    assert Pow2(j + 6) == 2 * Pow2(j + 5) == 4 * Pow2(j + 4);
    assert Pow2(j + 8) == 2 * Pow2(j + 7) == 4 * Pow2(j + 6);
  }

  lemma FromTheTop(r: Ring, seqNo: int) returns (n: nat)
    requires Shaped(r)
    ensures 0 < n <= 66 && Settled(r, seqNo, Probes(r, seqNo, Walking(0, TOP), n))
  {
    PowersOfTwo();
    var s := Walking(0, TOP);
    assert Middle(0, TOP) == HALF - 1;
    assert Probes(r, seqNo, s, 1) == Probe(r, seqNo, s);
    n := 1;
    var k := 0;
    match Look(r, seqNo, HALF - 1)
    case Below =>
      k := ComesDown(r, seqNo, 63);
      ProbesAdd(r, seqNo, s, 1, k);
      n := 1 + k;
    case Above =>
      k := Narrows(r, seqNo, 0, HALF - 2, 63);
      ProbesAdd(r, seqNo, s, 1, k);
      n := 1 + k;
    case _ =>
  }

  /** More turns than any search takes that ends. */
  const LIMIT: nat := 130

  function Result(r: Ring, seqNo: int): (t: Search)
    requires Shaped(r)
    ensures t.Found? ==> 0 <= t.index
  {
    Probes(r, seqNo, Start(r), LIMIT)
  }

  /** A search that has not ended after 130 turns never ends. */
  lemma EndsSoonOrNever(r: Ring, seqNo: int)
    requires Shaped(r) && |r.reqs| <= HALF
    ensures Result(r, seqNo).Walking? <==> NeverEnds(r, seqNo, Start(r))
  {
    if Result(r, seqNo).Walking? {
      PowersOfTwo();
      var s := Start(r);
      var n := 0;
      if TotalLen(r) != 0 {
        n := Narrows(r, seqNo, s.lo, s.hi, 63);
      }
      StaysOrReturns(r, seqNo, s, n);
    }
  }

  lemma StaysOrReturns(r: Ring, seqNo: int, s: Search, n: nat)
    requires Shaped(r) && n <= 64 && Settled(r, seqNo, Probes(r, seqNo, s, n))
    requires Probes(r, seqNo, s, LIMIT).Walking?
    ensures NeverEnds(r, seqNo, s)
  {
    var t := Probes(r, seqNo, s, n);
    StillWalking(r, seqNo, s, n, LIMIT);
    if Probe(r, seqNo, t) == t {
      assert Probes(r, seqNo, t, 1) == t;
      ReturnsForever(r, seqNo, s, n, 1);
    } else {
      var k := FromTheTop(r, seqNo);
      var u := Probes(r, seqNo, t, k);
      ProbesAdd(r, seqNo, s, n, k);
      StillWalking(r, seqNo, s, n + k, LIMIT);
      if Probe(r, seqNo, u) == u {
        assert Probes(r, seqNo, u, 1) == u;
        ReturnsForever(r, seqNo, s, n + k, 1);
      } else {
        ReturnsForever(r, seqNo, s, n, k);
      }
    }
  }

  // ---------- a search inside the window ----------

  /** What the search between two bounds of an ascending window comes to. */
  ghost predicate Decides(r: Ring, seqNo: int, s: Search)
    requires Shaped(r)
  {
    var w := Window(r);
    && (forall k {:trigger w[k]} | 0 <= k < |w| && w[k].packetSeq == seqNo ::
          if w[k].message.Some? then s == Found(k) else s.Walking? && Probe(r, seqNo, s) == s)
    && ((forall k {:trigger w[k]} | 0 <= k < |w| :: w[k].packetSeq != seqNo) ==> s == Absent)
  }

  lemma TurnInside(r: Ring, seqNo: int, lo: int, hi: int, m: int)
    requires Shaped(r) && |r.reqs| <= HALF && lo <= hi && 0 <= m == Middle(lo, hi) < |Window(r)|
    ensures var t := Probe(r, seqNo, Walking(lo, hi));
      match SightOf(Window(r)[m], seqNo)
      case Below => t == Walking(m + 1, hi)
      case Above => m > 0 ==> t == Walking(lo, m - 1)
      case Here => t == Found(m)
      case Hole => t == Walking(lo, hi)
  {
    SlotAtIsRot(r, m);
  }

  lemma AtTheNumber(r: Ring, seqNo: int, m: int, s: Search)
    requires Shaped(r) && Ascending(Window(r)) && 0 <= m < |Window(r)| && Window(r)[m].packetSeq == seqNo
    requires if Window(r)[m].message.Some? then s == Found(m) else s.Walking? && Probe(r, seqNo, s) == s
    ensures Decides(r, seqNo, s)
  {
    var w := Window(r);
    forall k | 0 <= k < |w| && w[k].packetSeq == seqNo ensures k == m {
      assert k < m ==> Lower(w, k, m);
      assert m < k ==> Lower(w, m, k);
    }
  }

  /** Everything left of the bounds is lower and everything right of them higher. */
  ghost predicate Between(w: seq<Request>, seqNo: int, lo: int, hi: int) {
    && 0 <= lo <= hi + 1 <= |w| && 0 <= hi
    && (forall k {:trigger w[k]} | 0 <= k < lo :: w[k].packetSeq < seqNo)
    && forall k {:trigger w[k]} | hi < k < |w| :: seqNo < w[k].packetSeq
  }

  lemma GoRight(w: seq<Request>, seqNo: int, lo: int, hi: int, m: int)
    requires Ascending(w) && Between(w, seqNo, lo, hi) && lo <= m <= hi && w[m].packetSeq < seqNo
    ensures Between(w, seqNo, m + 1, hi)
  {
    forall k | 0 <= k < m ensures w[k].packetSeq < seqNo {
      assert Lower(w, k, m);
    }
  }

  lemma GoLeft(w: seq<Request>, seqNo: int, lo: int, hi: int, m: int)
    requires Ascending(w) && Between(w, seqNo, lo, hi) && lo <= m <= hi && w[m].packetSeq > seqNo && 0 < m
    ensures Between(w, seqNo, lo, m - 1)
  {
    forall k | m < k < |w| ensures seqNo < w[k].packetSeq {
      assert Lower(w, m, k);
    }
  }

  lemma NotThere(r: Ring, seqNo: int, lo: int, hi: int)
    requires Shaped(r) && Between(Window(r), seqNo, lo, hi) && lo > hi
    ensures Decides(r, seqNo, Absent)
  {}

  /** The search closes in on the number, or on the place where it would be. */
  lemma {:induction false} ClosesIn(r: Ring, seqNo: int, lo: int, hi: int, j: nat)
    requires Shaped(r) && |r.reqs| <= HALF && Ascending(Window(r)) && |Window(r)| > 0
    requires Window(r)[0].packetSeq <= seqNo && Between(Window(r), seqNo, lo, hi) && hi - lo + 1 < Pow2(j)
    ensures Decides(r, seqNo, Probes(r, seqNo, Walking(lo, hi), j + 1))
    decreases j
  {
    var s, w := Walking(lo, hi), Window(r);
    if lo > hi {
      StuckStays(r, seqNo, Absent, j);
      NotThere(r, seqNo, lo, hi);
    } else {
      Halves(lo, hi, j);
      var m := (lo + hi) / 2;
      TurnInside(r, seqNo, lo, hi, m);
      if w[m].packetSeq < seqNo {
        GoRight(w, seqNo, lo, hi, m);
        ClosesIn(r, seqNo, m + 1, hi, j - 1);
      } else if w[m].packetSeq > seqNo {
        GoLeft(w, seqNo, lo, hi, m);
        ClosesIn(r, seqNo, lo, m - 1, j - 1);
      } else {
        StuckStays(r, seqNo, Probe(r, seqNo, s), j);
        AtTheNumber(r, seqNo, m, Probe(r, seqNo, s));
      }
    }
  }

  /** From a number not below an ascending window that does not fill the ring, the search never leaves the window:
      a live request is found at its own offset, a missing one is reported, and a hole with that number is never
      left again. */
  lemma SearchIsRight(r: Ring, seqNo: int)
    requires Shaped(r) && |r.reqs| <= HALF && r.start != r.end && Ascending(Window(r))
    requires Window(r)[0].packetSeq <= seqNo
    ensures Decides(r, seqNo, Result(r, seqNo))
  {
    PowersOfTwo();
    var s := Start(r);
    ClosesIn(r, seqNo, s.lo, s.hi, 63);
    ProbesAdd(r, seqNo, s, 64, LIMIT - 64);
    var t := Probes(r, seqNo, s, 64);
    assert Probe(r, seqNo, t) == t by {
      if exists k :: 0 <= k < |Window(r)| && Window(r)[k].packetSeq == seqNo {
        var k :| 0 <= k < |Window(r)| && Window(r)[k].packetSeq == seqNo;
      }
    }
    StuckStays(r, seqNo, t, LIMIT - 64);
  }

  /** Wherever the search stops, it stops at a live request with the sought number. */
  lemma {:induction false} FoundIsLive(r: Ring, seqNo: int, s: Search, n: nat)
    requires Shaped(r) && s.Walking? && Probes(r, seqNo, s, n).Found?
    ensures var m := Probes(r, seqNo, s, n).index;
      0 <= m && var req := r.reqs[SlotAt(r, m)]; req.packetSeq == seqNo && req.message.Some?
    decreases n
  {
    var t := Probe(r, seqNo, s);
    if t.Walking? {
      FoundIsLive(r, seqNo, t, n - 1);
    } else {
      StuckStays(r, seqNo, t, n - 1);
    }
  }

  /** The search for a number smaller than every slot's runs into its left end, wraps, and does so forever. */
  lemma BelowEverythingNeverEnds(r: Ring, seqNo: int)
    requires Shaped(r) && |r.reqs| <= HALF && forall j | 0 <= j < |r.reqs| :: r.reqs[j].packetSeq > seqNo
    ensures NeverEnds(r, seqNo, Start(r))
  {
    forall n: nat ensures Probes(r, seqNo, Start(r), n).Walking? {
      KeepsLeft(r, seqNo, Start(r).hi, n);
    }
  }

  lemma {:induction false} KeepsLeft(r: Ring, seqNo: int, hi: int, n: nat)
    requires Shaped(r) && 0 <= hi <= TOP && forall j | 0 <= j < |r.reqs| :: r.reqs[j].packetSeq > seqNo
    ensures Probes(r, seqNo, Walking(0, hi), n).Walking?
    decreases n
  {
    if n > 0 {
      var m := Middle(0, hi);
      assert Look(r, seqNo, m) == Above;
      KeepsLeft(r, seqNo, if m == 0 then TOP else m - 1, n - 1);
    }
  }

  // ---------- a search in a full ring ----------

  predicate Full(r: Ring) {
    r.start == r.end && r.len != 0
  }

  /** How many slots of an ascending window have a lower number. */
  function Rank(w: seq<Request>, seqNo: int): (k: nat)
    ensures k <= |w|
  {
    if w == [] || w[|w| - 1].packetSeq < seqNo then |w| else Rank(w[..|w| - 1], seqNo)
  }

  lemma {:induction false} RankSplits(w: seq<Request>, seqNo: int)
    requires Ascending(w)
    ensures forall i {:trigger w[i]} | 0 <= i < |w| :: w[i].packetSeq < seqNo <==> i < Rank(w, seqNo)
    ensures forall i {:trigger w[i]} | 0 <= i < |w| && w[i].packetSeq == seqNo :: i == Rank(w, seqNo)
  {
    if w != [] {
      var n := |w| - 1;
      forall i | 0 <= i < n ensures w[i].packetSeq < w[n].packetSeq {
        assert Lower(w, i, n);
      }
      if w[n].packetSeq >= seqNo {
        assert Ascending(w[..n]) by {
          forall i, j | 0 <= i < j < n ensures Lower(w[..n], i, j) {
            assert Lower(w, i, j);
          }
        }
        RankSplits(w[..n], seqNo);
        assert forall i | 0 <= i < n :: w[i] == w[..n][i];
      }
    }
  }

  /** What stands where the number would be. */
  function AtRank(w: seq<Request>, seqNo: int): Sight {
    var k := Rank(w, seqNo);
    if k == |w| || w[k].packetSeq != seqNo then Above
    else if w[k].message.Some? then Here
    else Hole
  }

  function PatternAt(rank: int, at: Sight, i: int): Request {
    if i < rank then Request(0, None)
    else if i > rank then Request(2, None)
    else if at == Here then Request(1, Some(0))
    else Request(if at == Hole then 1 else 2, None)
  }

  /** A full ring with `rank` slots below the number 1, the given sight behind them, and larger numbers from there. */
  function Pattern(cap: int, rank: int, at: Sight): (r: Ring)
    requires cap >= 2
    ensures Full(r) && |r.reqs| == cap
  {
    Ring(0, 0, 0, cap, seq(cap, i => PatternAt(rank, at, i)))
  }

  lemma PatternSlot(cap: int, rank: int, at: Sight, m: int)
    requires cap >= 2 && 0 <= m < HALF
    ensures 0 <= m % cap < cap
    ensures Pattern(cap, rank, at).reqs[SlotAt(Pattern(cap, rank, at), m)] == PatternAt(rank, at, m % cap)
  {}

  /** How the search in a full ring ends, from the capacity, the rank of the number and what stands there. */
  function FullResult(cap: int, rank: int, at: Sight): Search
    requires cap >= 2
  {
    Result(Pattern(cap, rank, at), 1)
  }

  /** Two searches that see the same go the same way. */
  lemma {:induction false} SameProbes(r: Ring, seqNo: int, r': Ring, seqNo': int, s: Search, n: nat)
    requires Shaped(r) && Shaped(r')
    requires forall m | 0 <= m < HALF :: Look(r, seqNo, m) == Look(r', seqNo', m)
    ensures Probes(r, seqNo, s, n) == Probes(r', seqNo', s, n)
    decreases n
  {
    if n > 0 {
      assert s.Walking? ==> 0 <= Middle(s.lo, s.hi) < HALF;
      SameProbes(r, seqNo, r', seqNo', Probe(r, seqNo, s), n - 1);
    }
  }

  /** In a full ring the probes go round and round. */
  lemma FullSlot(r: Ring, m: int)
    requires Shaped(r) && Full(r) && |r.reqs| <= HALF && 0 <= m < HALF
    ensures r.reqs[SlotAt(r, m)] == Window(r)[m % |r.reqs|]
  {
    WrapsOften(r.start, m, |r.reqs|);
  }

  lemma RankSight(w: seq<Request>, seqNo: int, i: int)
    requires Ascending(w) && 0 <= i < |w|
    ensures SightOf(w[i], seqNo) == SightOf(PatternAt(Rank(w, seqNo), AtRank(w, seqNo), i), 1)
  {
    RankSplits(w, seqNo);
  }

  lemma FullLook(r: Ring, seqNo: int, m: int)
    requires Shaped(r) && Full(r) && |r.reqs| <= HALF && Ascending(Window(r)) && 0 <= m < HALF
    ensures var w := Window(r);
      Look(r, seqNo, m) == Look(Pattern(|r.reqs|, Rank(w, seqNo), AtRank(w, seqNo)), 1, m)
  {
    var w := Window(r);
    FullSlot(r, m);
    PatternSlot(|r.reqs|, Rank(w, seqNo), AtRank(w, seqNo), m);
    RankSight(w, seqNo, m % |r.reqs|);
  }

  /** In a full ring only the capacity, the rank of the number and what stands there decide. */
  lemma FullSearch(r: Ring, seqNo: int)
    requires Shaped(r) && Full(r) && |r.reqs| <= HALF && Ascending(Window(r))
    ensures Result(r, seqNo) == FullResult(|r.reqs|, Rank(Window(r), seqNo), AtRank(Window(r), seqNo))
  {
    var w := Window(r);
    var p := Pattern(|r.reqs|, Rank(w, seqNo), AtRank(w, seqNo));
    forall m | 0 <= m < HALF ensures Look(r, seqNo, m) == Look(p, 1, m) {
      FullLook(r, seqNo, m);
    }
    SameProbes(r, seqNo, p, 1, Start(r), LIMIT);
  }

  ghost predicate HereOrAbove(r: Ring, seqNo: int, m: int)
    requires Shaped(r) && 0 <= m
  {
    Look(r, seqNo, m) == Here || (m > 0 && Look(r, seqNo, m) == Above)
  }

  lemma HalfOf(hi: int, j: nat)
    requires 0 <= hi <= TOP && hi < Pow2(j)
    ensures Middle(0, hi) == hi / 2 < HALF && (hi >= 2 ==> j > 0 && hi / 2 - 1 < Pow2(j - 1))
  {}

  lemma ToTheLeft(r: Ring, seqNo: int, hi: int)
    requires Shaped(r) && 0 <= hi && Middle(0, hi) == hi / 2 < HALF
    requires forall m | 0 <= m < HALF :: HereOrAbove(r, seqNo, m)
    ensures Probe(r, seqNo, Walking(0, hi)) ==
      if Look(r, seqNo, hi / 2) == Here then Found(hi / 2) else Walking(0, hi / 2 - 1)
    ensures Look(r, seqNo, hi / 2) == Here || hi >= 2
  {
    assert HereOrAbove(r, seqNo, hi / 2);
  }

  lemma {:induction false} HalvesDown(r: Ring, seqNo: int, hi: int, j: nat)
    requires Shaped(r) && 0 <= hi <= TOP && hi < Pow2(j)
    requires forall m | 0 <= m < HALF :: HereOrAbove(r, seqNo, m)
    ensures Probes(r, seqNo, Walking(0, hi), j + 1).Found?
    decreases j
  {
    var m := hi / 2;
    HalfOf(hi, j);
    ToTheLeft(r, seqNo, hi);
    if Look(r, seqNo, m) == Here {
      StuckStays(r, seqNo, Found(m), j);
    } else {
      HalvesDown(r, seqNo, m - 1, j - 1);
    }
  }

  lemma PatternOldest(cap: int, m: int)
    requires cap >= 2 && 0 <= m < HALF
    ensures HereOrAbove(Pattern(cap, 0, Here), 1, m)
  {
    PatternSlot(cap, 0, Here, m);
  }

  /** The oldest slot of a full ring is always found. */
  lemma OldestIsFound(cap: int)
    requires cap >= 2
    ensures FullResult(cap, 0, Here).Found?
  {
    PowersOfTwo();
    assert Pow2(64) == U64;
    var p := Pattern(cap, 0, Here);
    forall m | 0 <= m < HALF ensures HereOrAbove(p, 1, m) {
      PatternOldest(cap, m);
    }
    HalvesDown(p, 1, TOP, 64);
    ProbesAdd(p, 1, Start(p), 65, LIMIT - 65);
    StuckStays(p, 1, Probes(p, 1, Start(p), 65), LIMIT - 65);
  }

  /** The slot one less than a power of two from the start, around the ring, is below the rank. */
  predicate Short(cap: int, rank: int, i: nat)
    requires cap >= 2
  {
    (Pow2(i) - 1) % cap < rank
  }

  /** So is every slot that the wrapped bounds lead to. */
  ghost predicate OutOfReach(cap: int, rank: int)
    requires cap >= 2
  {
    forall i: nat | i <= 63 :: Short(cap, rank, i)
  }

  lemma {:induction false} Pow2Small(i: nat)
    requires i <= 63
    ensures Pow2(i) <= HALF
    decreases 63 - i
  {
    if i == 63 {
      PowersOfTwo();
    } else {
      Pow2Small(i + 1);
    }
  }

  lemma WrappedPower(i: nat)
    requires i <= 63
    ensures Middle(Pow2(i), TOP) == Pow2(if i == 0 then 0 else i - 1) - 1
  {
    if i > 0 {
      Pow2Small(i);
      WrappedMiddle(Pow2(i - 1));
    }
  }

  ghost predicate SeesBelow(r: Ring, seqNo: int, i: nat)
    requires Shaped(r)
  {
    Look(r, seqNo, Pow2(i) - 1) == Below
  }

  lemma {:induction false} KeepsDescending(r: Ring, seqNo: int, i: nat, n: nat)
    requires Shaped(r) && i <= 63 && forall j: nat | j <= 63 :: SeesBelow(r, seqNo, j)
    ensures Probes(r, seqNo, Walking(Pow2(i), TOP), n).Walking?
    decreases n
  {
    if n > 0 {
      Pow2Small(i);
      WrappedPower(i);
      var next := if i == 0 then 0 else i - 1;
      assert SeesBelow(r, seqNo, next);
      KeepsDescending(r, seqNo, next, n - 1);
    }
  }

  lemma PatternBelow(cap: int, rank: int, at: Sight, m: int)
    requires cap >= 2 && 0 <= m < HALF && m % cap < rank
    ensures Look(Pattern(cap, rank, at), 1, m) == Below
  {
    PatternSlot(cap, rank, at, m);
  }

  /** A number out of reach is looked for forever. */
  lemma OutOfReachNeverEnds(cap: int, rank: int, at: Sight)
    requires cap >= 2 && OutOfReach(cap, rank)
    ensures FullResult(cap, rank, at).Walking?
  {
    var p := Pattern(cap, rank, at);
    forall i: nat | i <= 63 ensures SeesBelow(p, 1, i) {
      Pow2Small(i);
      assert Short(cap, rank, i);
      PatternBelow(cap, rank, at, Pow2(i) - 1);
    }
    PowersOfTwo();
    assert Look(p, 1, HALF - 1) == Below by {
      assert SeesBelow(p, 1, 63);
    }
    assert Probe(p, 1, Walking(0, TOP)) == Walking(HALF, TOP);
    KeepsDescending(p, 1, 63, LIMIT - 1);
  }

  // ---------- the loop ----------

  /** The body of the loop. */
  method Turn(r: Ring, seqNo: int, lo: int, hi: int) returns (s: Search)
    requires Shaped(r)
    ensures s == Probe(r, seqNo, Walking(lo, hi))
  {
    if lo > hi {
      return Absent;
    }
    var m := (lo + hi) % U64 / 2;
    var req := r.reqs[(r.start + m) % U64 % |r.reqs|];
    if req.packetSeq < seqNo {
      return Walking(m + 1, hi);
    }
    if req.packetSeq > seqNo {
      return Walking(lo, if m == 0 then TOP else m - 1);
    }
    s := if req.message.Some? then Found(m) else Walking(lo, hi);
  }

  /** Runs the loop for as long as a search can take that ends; `Walking` means that it does not. */
  method SearchSeq(r: Ring, seqNo: int) returns (s: Search)
    requires Shaped(r)
    ensures s == Result(r, seqNo)
    ensures |r.reqs| <= HALF ==> (s.Walking? <==> NeverEnds(r, seqNo, Start(r)))
  {
    if |r.reqs| <= HALF {
      EndsSoonOrNever(r, seqNo);
    }
    var total := TotalLen(r);
    s := Walking(0, if total == 0 then TOP else total - 1);
    for n := 0 to LIMIT
      invariant s.Walking? && s == Probes(r, seqNo, Start(r), n)
    {
      OneMore(r, seqNo, n);
      s := Turn(r, seqNo, s.lo, s.hi);
      if !s.Walking? {
        StuckStays(r, seqNo, s, LIMIT - n - 1);
        return;
      }
    }
  }

  lemma OneMore(r: Ring, seqNo: int, n: nat)
    requires Shaped(r) && n < LIMIT
    ensures var t := Probe(r, seqNo, Probes(r, seqNo, Start(r), n));
      t == Probes(r, seqNo, Start(r), n + 1) && Result(r, seqNo) == Probes(r, seqNo, t, LIMIT - n - 1)
  {
    var s := Probes(r, seqNo, Start(r), n);
    ProbesAdd(r, seqNo, Start(r), n, 1);
    assert Probes(r, seqNo, s, 1) == Probes(r, seqNo, Probe(r, seqNo, s), 0);
    ProbesAdd(r, seqNo, Start(r), n + 1, LIMIT - n - 1);
  }
}
