/** The server's ring of pending requests: a window of ascending sequence numbers in a circular buffer,
    where completed requests leave holes that keep their number. */
module RequestRing {
  import opened Arith
  import opened Wrappers

  const FIRST_SEQ := 2
  const UINT32_MAX := 0xFFFF_FFFF
  const STARTING_CAP := 12

  /** A slot of the ring; without a message it is a hole. */
  datatype Request = Request(packetSeq: int, message: Option<int>)

  const BLANK := Request(0, None)

  datatype Ring = Ring(lastSeq: int, start: int, end: int, len: int, reqs: seq<Request>)

  function NextSeq(cur: int): int {
    if cur < UINT32_MAX - 2 then cur + 2 else FIRST_SEQ
  }

  // ---------- the window ----------

  ghost predicate Shaped(r: Ring) {
    |r.reqs| >= 2 && 0 <= r.start < |r.reqs| && 0 <= r.end < |r.reqs|
  }

  /** The index j places behind `base` in a circular buffer. */
  function Rot(base: int, cap: int, j: int): int {
    if base + j < cap then base + j else base + j - cap
  }

  /** How many places behind `start` an index is. */
  function Offset(r: Ring, j: int): int {
    if j >= r.start then j - r.start else j - r.start + |r.reqs|
  }

  /** Equal indices mean an empty ring when nothing is pending and a full one otherwise. */
  function WindowLen(r: Ring): int {
    if r.start == r.end then (if r.len == 0 then 0 else |r.reqs|)
    else if r.start < r.end then r.end - r.start
    else |r.reqs| - (r.start - r.end)
  }

  /** The first n slots from `start` on, around the end of the buffer. */
  function SlotsFrom(reqs: seq<Request>, start: int, n: int): (w: seq<Request>)
    requires 0 <= start < |reqs| && 0 <= n <= |reqs|
    ensures |w| == n && forall k {:trigger w[k]} | 0 <= k < n :: w[k] == reqs[Rot(start, |reqs|, k)]
  {
    seq(n, k requires 0 <= k < n => reqs[Rot(start, |reqs|, k)])
  }

  /** The slots from `start` up to `end`, holes included. */
  function Window(r: Ring): seq<Request>
    requires Shaped(r)
  {
    SlotsFrom(r.reqs, r.start, WindowLen(r))
  }

  predicate InWindow(r: Ring, j: int) {
    Offset(r, j) < WindowLen(r)
  }

  function Live(w: seq<Request>): seq<Request> {
    if w == [] then []
    else
      var n := |w| - 1;
      Live(w[..n]) + if w[n].message.Some? then [w[n]] else []
  }

  ghost predicate Lower(w: seq<Request>, i: int, j: int)
    requires 0 <= i < |w| && 0 <= j < |w|
  {
    w[i].packetSeq < w[j].packetSeq
  }

  ghost predicate Ascending(w: seq<Request>) {
    forall i, j {:trigger Lower(w, i, j)} | 0 <= i < j < |w| :: Lower(w, i, j)
  }

  /** Slots outside the window are holes that are older than everything in it. */
  ghost predicate Retired(r: Ring)
    requires Shaped(r)
  {
    forall j | 0 <= j < |r.reqs| && !InWindow(r, j) ::
      && r.reqs[j].message == None && r.reqs[j].packetSeq <= r.lastSeq
      && (Window(r) != [] ==> r.reqs[j].packetSeq < Window(r)[0].packetSeq)
  }

  ghost predicate Numbered(w: seq<Request>, lastSeq: int) {
    forall i | 0 <= i < |w| :: FIRST_SEQ <= w[i].packetSeq <= lastSeq
  }

  /** Numbers are 32 bits wide and ascend, so a ring with an ordered window never needs more slots than this. */
  const MAX_SLOTS := 0x2_0000_0000

  ghost predicate Ok(r: Ring) {
    && Shaped(r) && |r.reqs| <= MAX_SLOTS
    && r.lastSeq <= UINT32_MAX
    && r.len == |Live(Window(r))|
    && Ascending(Window(r))
    && Numbered(Window(r), r.lastSeq)
    && Retired(r)
  }

  // ---------- the list of live requests ----------

  lemma {:induction false} LiveConcat(x: seq<Request>, y: seq<Request>)
    ensures Live(x + y) == Live(x) + Live(y)
  {
    if y == [] {
      assert x + y == x;
    } else {
      assert (x + y)[..|x + y| - 1] == x + y[..|y| - 1];
      LiveConcat(x, y[..|y| - 1]);
    }
  }

  lemma LiveOne(x: Request)
    ensures Live([x]) == if x.message.Some? then [x] else []
  {
    assert [x][..0] == [];
  }

  /** Emptying one live slot removes that request and keeps the order of the others. */
  lemma LivePunch(w: seq<Request>, k: nat)
    requires k < |w| && w[k].message.Some?
    ensures Live(w) == Live(w[..k]) + [w[k]] + Live(w[k + 1..])
    ensures Live(w[k := w[k].(message := None)]) == Live(w[..k]) + Live(w[k + 1..])
  {
    var hole := w[k].(message := None);
    assert w == w[..k] + [w[k]] + w[k + 1..];
    assert w[k := hole] == w[..k] + [hole] + w[k + 1..];
    LiveConcat(w[..k] + [w[k]], w[k + 1..]);
    LiveConcat(w[..k], [w[k]]);
    LiveConcat(w[..k] + [hole], w[k + 1..]);
    LiveConcat(w[..k], [hole]);
    LiveOne(w[k]);
    LiveOne(hole);
  }

  // ---------- indices ----------

  method NextIndex(cap: int, i: int) returns (next: int)
    requires 0 <= i < cap
    ensures next == Rot(i, cap, 1)
  {
    WrapsOnce(i + 1, cap);
    next := (i + 1) % cap;
  }

  // ---------- completing a request ----------

  /** Overwriting slot `m` of the window changes that slot and nothing else. */
  lemma WindowUpdate(r: Ring, m: int, x: Request)
    requires Shaped(r) && 0 <= m < |Window(r)|
    ensures var i := Rot(r.start, |r.reqs|, m);
      && 0 <= i < |r.reqs| && InWindow(r, i) && Window(r)[m] == r.reqs[i]
      && Window(r.(reqs := r.reqs[i := x])) == Window(r)[m := x]
  {}

  /** The ring once slot `i` has been emptied. */
  function Invalidated(r: Ring, i: int): Ring
    requires 0 <= i < |r.reqs|
  {
    var cap := |r.reqs|;
    var r1 := r.(reqs := r.reqs[i := r.reqs[i].(message := None)], len := r.len - 1);
    if i == r.start then r1.(start := Rot(i, cap, 1))
    else if Rot(i, cap, 1) == r.end then r1.(end := Rot(r.end, cap, 1))
    else r1
  }

  method Invalidate(r: Ring, i: int) returns (r': Ring)
    requires Shaped(r) && 0 <= i < |r.reqs|
    ensures r' == Invalidated(r, i) && Shaped(r')
  {
    r' := r.(reqs := r.reqs[i := r.reqs[i].(message := None)], len := r.len - 1);
    var next := NextIndex(|r.reqs|, i);
    if i == r.start {
      r' := r'.(start := next);
    } else if next == r.end {
      var end' := NextIndex(|r.reqs|, r.end);
      r' := r'.(end := end');
    }
  }

  /** The newest request is completed and it is not also the oldest slot. Only if the ring thereby looks
      empty does the window survive. */
  ghost predicate NewestOnly(r: Ring, m: int)
    requires Shaped(r)
  {
    0 < m == |Window(r)| - 1 && !(r.len == 1 && |Window(r)| + 1 == |r.reqs|)
  }

  /** Emptying a live slot takes exactly that request out and keeps the ring in order, exactly unless it is
      the newest alone. */
  lemma InvalidatedIsOk(r: Ring, m: int)
    requires Ok(r) && 0 <= m < |Window(r)| && Window(r)[m].message.Some?
    ensures 0 <= Rot(r.start, |r.reqs|, m) < |r.reqs|
    ensures var r' := Invalidated(r, Rot(r.start, |r.reqs|, m));
      && Shaped(r') && r'.lastSeq == r.lastSeq
      && (Ok(r') <==> !NewestOnly(r, m))
      && (Ok(r') ==> Live(Window(r')) == Live(Window(r)[..m]) + Live(Window(r)[m + 1..]))
  {
    WindowUpdate(r, m, Window(r)[m]);
    var r' := Invalidated(r, Rot(r.start, |r.reqs|, m));
    if m == 0 {
      PunchOldest(r, r');
    } else if m < |Window(r)| - 1 {
      PunchInterior(r, r', m);
    } else if r.start != r.end {
      PunchNewest(r, r', m);
    } else {
      PunchNewestOfFull(r, r', m);
    }
  }

  lemma PunchOldest(r: Ring, r': Ring)
    requires Ok(r) && Window(r) != [] && Window(r)[0].message.Some? && r' == Invalidated(r, r.start)
    ensures Ok(r')
    ensures Live(Window(r')) == Live(Window(r)[..0]) + Live(Window(r)[1..])
  {
    OldestLive(Window(r));
    OldestWindow(r, r');
    OldestRetired(r, r');
    TailKeepsOrder(Window(r), r.lastSeq);
  }

  lemma OldestLive(w: seq<Request>)
    requires w != [] && w[0].message.Some?
    ensures Live(w) == [w[0]] + Live(w[1..]) && Live(w[..0]) + Live(w[1..]) == Live(w[1..])
  {
    LivePunch(w, 0);
    assert w[..0] == [];
  }

  lemma TailKeepsOrder(w: seq<Request>, lastSeq: int)
    requires w != [] && Ascending(w) && Numbered(w, lastSeq)
    ensures Ascending(w[1..]) && Numbered(w[1..], lastSeq)
  {
    forall i, j | 0 <= i < j < |w| - 1 ensures Lower(w[1..], i, j) {
      assert Lower(w, i + 1, j + 1);
    }
  }

  lemma OldestLen(r: Ring, r': Ring)
    requires Shaped(r) && WindowLen(r) > 0 && r' == Invalidated(r, r.start)
    requires WindowLen(r) == 1 ==> r'.len == 0
    ensures Shaped(r') && r'.start == Rot(r.start, |r.reqs|, 1) && WindowLen(r') == WindowLen(r) - 1
  {}

  lemma OldestWindow(r: Ring, r': Ring)
    requires Shaped(r) && Window(r) != [] && r.len == |Live(Window(r))| && r' == Invalidated(r, r.start)
    requires r'.len == |Live(Window(r)[1..])|
    ensures Shaped(r') && Window(r') == Window(r)[1..]
    ensures forall j | 0 <= j < |r.reqs| :: InWindow(r, j) && j != r.start ==> InWindow(r', j)
  {
    if WindowLen(r) == 1 {
      assert Window(r)[1..] == [];
    }
    OldestLen(r, r');
    forall k | 0 <= k < WindowLen(r') ensures Window(r')[k] == Window(r)[1..][k] {
      assert Rot(r'.start, |r.reqs|, k) == Rot(r.start, |r.reqs|, k + 1) != r.start;
    }
  }

  lemma OldestRetired(r: Ring, r': Ring)
    requires Shaped(r) && Retired(r) && Window(r) != [] && Ascending(Window(r)) && Numbered(Window(r), r.lastSeq)
    requires r' == Invalidated(r, r.start) && Shaped(r') && Window(r') == Window(r)[1..]
    requires forall j | 0 <= j < |r.reqs| :: InWindow(r, j) && j != r.start ==> InWindow(r', j)
    ensures Retired(r')
  {
    var w := Window(r);
    assert w[0] == r.reqs[r.start];
    assert |w| > 1 ==> Lower(w, 0, 1);
    forall j | 0 <= j < |r.reqs| && !InWindow(r', j)
      ensures r'.reqs[j].message == None && r'.reqs[j].packetSeq <= w[0].packetSeq
    {
      assert j == r.start || !InWindow(r, j);
    }
  }

  lemma PunchInterior(r: Ring, r': Ring, m: int)
    requires Ok(r) && 0 < m < |Window(r)| - 1 && Window(r)[m].message.Some?
    requires 0 <= Rot(r.start, |r.reqs|, m) < |r.reqs| && r' == Invalidated(r, Rot(r.start, |r.reqs|, m))
    ensures Ok(r')
    ensures Live(Window(r')) == Live(Window(r)[..m]) + Live(Window(r)[m + 1..])
  {
    var w, hole := Window(r), Window(r)[m].(message := None);
    var i := Rot(r.start, |r.reqs|, m);
    WindowUpdate(r, m, hole);
    LivePunch(w, m);
    assert r' == r.(reqs := r.reqs[i := hole], len := r.len - 1);
    if r.start == r.end && r'.len == 0 {
      LastOfFull(r, r', m);
    } else {
      HoleKeepsOk(r, r', m);
    }
  }

  lemma HoleKeepsOk(r: Ring, r': Ring, m: int)
    requires Ok(r) && 0 < m < |Window(r)| - 1 && (r.start == r.end ==> r'.len != 0)
    requires 0 <= Rot(r.start, |r.reqs|, m) < |r.reqs|
    requires var hole := Window(r)[m].(message := None);
      && r' == r.(reqs := r.reqs[Rot(r.start, |r.reqs|, m) := hole], len := r.len - 1)
      && r'.len == |Live(Window(r)[m := hole])|
    ensures Ok(r') && Window(r') == Window(r)[m := Window(r)[m].(message := None)]
  {
    var w, hole := Window(r), Window(r)[m].(message := None);
    WindowUpdate(r, m, hole);
    assert WindowLen(r') == WindowLen(r);
    assert Window(r') == w[m := hole];
    PunchKeepsOrder(w, m, r.lastSeq);
    InteriorRetired(r, r', m);
  }

  /** When the only live request of a full ring goes, the ring looks empty. */
  lemma LastOfFull(r: Ring, r': Ring, m: int)
    requires Ok(r) && r.start == r.end && r.len == 1 && 0 <= m < |Window(r)| && Window(r)[m].message.Some?
    requires Shaped(r') && r'.start == r'.end && r'.len == 0 && r'.lastSeq == r.lastSeq
    requires r'.reqs == r.reqs[Rot(r.start, |r.reqs|, m) := Window(r)[m].(message := None)]
    ensures Ok(r') && Window(r') == []
  {
    forall j | 0 <= j < |r'.reqs| ensures r'.reqs[j].message == None && r'.reqs[j].packetSeq <= r'.lastSeq {
      SlotInWindow(r, j);
      OnlyOneLive(Window(r), m, if r.start <= j then j - r.start else j + |r.reqs| - r.start);
    }
  }

  lemma PunchKeepsOrder(w: seq<Request>, m: int, lastSeq: int)
    requires 0 <= m < |w| && Ascending(w) && Numbered(w, lastSeq)
    ensures var w' := w[m := w[m].(message := None)]; Ascending(w') && Numbered(w', lastSeq)
  {
    var w' := w[m := w[m].(message := None)];
    forall i, j | 0 <= i < j < |w| ensures Lower(w', i, j) {
      assert Lower(w, i, j);
    }
  }

  lemma InteriorRetired(r: Ring, r': Ring, m: int)
    requires Shaped(r) && Retired(r) && 0 < m < |Window(r)| && Shaped(r')
    requires r' == r.(reqs := r'.reqs, len := r'.len) && (r.start == r.end ==> r'.len != 0)
    requires r'.reqs == r.reqs[Rot(r.start, |r.reqs|, m) := Window(r)[m].(message := None)]
    ensures Retired(r')
  {
    WindowUpdate(r, m, Window(r)[m].(message := None));
    assert Window(r')[0] == Window(r)[0];
    forall j | 0 <= j < |r.reqs| && !InWindow(r', j) ensures !InWindow(r, j) && r'.reqs[j] == r.reqs[j] {}
  }

  /** What the window looks like when `end` moves past the slot behind the newest request. */
  lemma NewestWindow(r: Ring, r': Ring, m: int)
    requires Shaped(r) && r.start != r.end && 0 < m == |Window(r)| - 1
    requires 0 <= Rot(r.start, |r.reqs|, m) < |r.reqs| && r' == Invalidated(r, Rot(r.start, |r.reqs|, m))
    ensures Shaped(r') && (r'.start == r'.end <==> |Window(r)| + 1 == |r.reqs|)
    ensures Window(r') == if r'.start == r'.end && r'.len == 0 then []
                          else Window(r)[m := Window(r)[m].(message := None)] + [r.reqs[r.end]]
    ensures !InWindow(r, r.end)
  {
    WindowUpdate(r, m, Window(r)[m].(message := None));
  }

  lemma PunchNewest(r: Ring, r': Ring, m: int)
    requires Ok(r) && r.start != r.end && 0 < m == |Window(r)| - 1 && Window(r)[m].message.Some?
    requires 0 <= Rot(r.start, |r.reqs|, m) < |r.reqs| && r' == Invalidated(r, Rot(r.start, |r.reqs|, m))
    ensures Shaped(r')
    ensures Ok(r') <==> r.len == 1 && |Window(r)| + 1 == |r.reqs|
    ensures Ok(r') ==> Live(Window(r')) == Live(Window(r)[..m]) + Live(Window(r)[m + 1..])
  {
    NewestWindow(r, r', m);
    if r'.start == r'.end && r'.len == 0 {
      EmptyAgain(r, r', m);
      LivePunch(Window(r), m);
    } else {
      StaleBreaksOrder(r, r', m);
    }
  }

  /** The slot behind the newest request remembers an older number, and now it is in the window. */
  lemma StaleBreaksOrder(r: Ring, r': Ring, m: int)
    requires Shaped(r) && Retired(r) && 0 < m == |Window(r)| - 1 && !InWindow(r, r.end) && Shaped(r')
    requires Window(r') == Window(r)[m := Window(r)[m].(message := None)] + [r.reqs[r.end]]
    ensures !Ascending(Window(r'))
  {
    assert Window(r')[0] == Window(r)[0] && Window(r')[m + 1] == r.reqs[r.end];
    assert !Lower(Window(r'), 0, m + 1);
  }

  /** In a full ring `end` moves past the oldest request, and the window shrinks to it. */
  lemma PunchNewestOfFull(r: Ring, r': Ring, m: int)
    requires Ok(r) && r.start == r.end && 0 < m == |Window(r)| - 1
    requires 0 <= Rot(r.start, |r.reqs|, m) < |r.reqs| && r' == Invalidated(r, Rot(r.start, |r.reqs|, m))
    ensures Shaped(r') && !Ok(r')
  {
    var i := Rot(r.start, |r.reqs|, m);
    WindowUpdate(r, m, Window(r)[m]);
    assert Window(r') == [r'.reqs[r.start]] && r'.reqs[r.start] == Window(r)[0];
    assert Lower(Window(r), 0, m);
    assert !InWindow(r', i) && r'.reqs[i].packetSeq > Window(r')[0].packetSeq;
  }

  lemma EmptyAgain(r: Ring, r': Ring, m: int)
    requires Ok(r) && r.start != r.end && 0 < m == |Window(r)| - 1 && Window(r)[m].message.Some?
    requires 0 <= Rot(r.start, |r.reqs|, m) < |r.reqs| && r' == Invalidated(r, Rot(r.start, |r.reqs|, m))
    requires r'.start == r'.end && r'.len == 0
    ensures Ok(r')
  {
    forall j | 0 <= j < |r'.reqs| ensures r'.reqs[j].message == None && r'.reqs[j].packetSeq <= r'.lastSeq {
      if InWindow(r, j) {
        SlotInWindow(r, j);
        OnlyOneLive(Window(r), m, if r.start <= j then j - r.start else j + |r.reqs| - r.start);
      }
    }
  }

  lemma OnlyOneLive(w: seq<Request>, m: int, k: int)
    requires 0 <= m < |w| && 0 <= k < |w| && w[m].message.Some? && |Live(w)| == 1
    ensures w[k].message.Some? ==> k == m
  {
    if w[k].message.Some? && k != m {
      LivePunch(w, m);
      LivePunch(w[m := w[m].(message := None)], k);
    }
  }

  // ---------- making room ----------

  /** The first slots of `reqs`, counted from `base`, hold `live`; the others are those of `target`. */
  ghost predicate Filled(reqs: seq<Request>, base: int, live: seq<Request>, target: seq<Request>) {
    && |reqs| == |target| && 0 <= base < |reqs| && |live| <= |reqs|
    && (forall j | 0 <= j < |live| :: reqs[Rot(base, |reqs|, j)] == live[j])
    && (forall j | |live| <= j < |reqs| :: reqs[Rot(base, |reqs|, j)] == target[Rot(base, |reqs|, j)])
  }

  lemma FillOne(reqs: seq<Request>, base: int, live: seq<Request>, target: seq<Request>, x: Request)
    requires Filled(reqs, base, live, target) && |live| < |reqs|
    ensures Filled(reqs[Rot(base, |reqs|, |live|) := x], base, live + [x], target)
  {}

  /** What moving slot `k` of the window does to the buffer being filled. */
  lemma CompactStep(w: seq<Request>, k: int, reqs: seq<Request>, base: int, target: seq<Request>)
    requires 0 <= k < |w| <= |reqs| && |Live(w[..k])| <= k && Filled(reqs, base, Live(w[..k]), target)
    ensures if w[k].message.Some?
            then Live(w[..k + 1]) == Live(w[..k]) + [w[k]]
                 && Filled(reqs[Rot(base, |reqs|, |Live(w[..k])|) := w[k]], base, Live(w[..k + 1]), target)
            else Live(w[..k + 1]) == Live(w[..k])
  {
    assert w[..k + 1][..k] == w[..k];
    if w[k].message.Some? {
      FillOne(reqs, base, Live(w[..k]), target, w[k]);
    }
  }

  lemma FullWindow(r: Ring)
    requires Shaped(r) && r.start == r.end && r.len > 0
    ensures |Window(r)| == |r.reqs|
    ensures forall k | 0 <= k < |r.reqs| :: Window(r)[k] == r.reqs[Rot(r.start, |r.reqs|, k)]
  {}

  /** Filling never overtakes reading, so also in place the slot read next is still the window's. */
  lemma SourceUntouched(r: Ring, reqs: seq<Request>, base: int, target: seq<Request>, done: int, k: int, inPlace: bool)
    requires Shaped(r) && r.start == r.end && r.len > 0 && 0 <= done <= k < |r.reqs|
    requires inPlace ==> target == r.reqs && base == r.start && |reqs| == |target|
    requires inPlace ==> forall j | done <= j < |reqs| :: reqs[Rot(base, |reqs|, j)] == target[Rot(base, |reqs|, j)]
    ensures var i := Rot(r.start, |r.reqs|, k);
      0 <= i < |r.reqs| && (if inPlace then reqs[i] else r.reqs[i]) == Window(r)[k]
  {
    FullWindow(r);
  }

  /** The buffer `target` with `live` written into it from `base` on. */
  function Placed(target: seq<Request>, base: int, live: seq<Request>): (reqs: seq<Request>)
    ensures |reqs| == |target|
  {
    seq(|target|, j requires 0 <= j < |target| =>
      var k := if j >= base then j - base else j - base + |target|;
      if 0 <= k < |live| then live[k] else target[j])
  }

  lemma FilledIsPlaced(reqs: seq<Request>, base: int, live: seq<Request>, target: seq<Request>)
    requires Filled(reqs, base, live, target)
    ensures reqs == Placed(target, base, live)
  {
    forall j | 0 <= j < |reqs| ensures reqs[j] == Placed(target, base, live)[j] {
      var k := if j >= base then j - base else j - base + |target|;
      assert Rot(base, |reqs|, k) == j;
    }
  }

  /** The first k slots of a full ring have been walked over: `i` is read next and `o` written next. */
  ghost predicate Walked(
    r: Ring, target: seq<Request>, base: int, k: int, i: int, o: int, reqs: seq<Request>)
    requires Shaped(r)
  {
    && 0 <= k <= |Window(r)| == |r.reqs| && i == Rot(r.start, |r.reqs|, k)
    && |Live(Window(r)[..k])| <= k && Filled(reqs, base, Live(Window(r)[..k]), target)
    && o == Rot(base, |target|, |Live(Window(r)[..k])|)
  }

  lemma WalkStarts(r: Ring, target: seq<Request>, base: int)
    requires Shaped(r) && r.start == r.end && r.len > 0 && 0 <= base < |target|
    ensures Walked(r, target, base, 0, r.start, base, target)
  {
    FullWindow(r);
    assert Window(r)[..0] == [];
  }

  lemma WalkEnds(r: Ring, k: int)
    requires Shaped(r) && |Window(r)| == |r.reqs| && 0 < k <= |r.reqs|
    ensures Rot(r.start, |r.reqs|, k) == r.start <==> k == |r.reqs|
    ensures k == |r.reqs| ==> Window(r)[..k] == Window(r)
  {
  }

  method MoveOne(r: Ring, ghost target: seq<Request>, ghost base: int, inPlace: bool, ghost k: int,
                 i: int, o: int, reqs: seq<Request>)
    returns (i': int, o': int, reqs': seq<Request>)
    requires Shaped(r) && r.start == r.end && r.len > 0
    requires 0 <= base < |target| && |r.reqs| <= |target| && (inPlace ==> target == r.reqs && base == r.start)
    requires Walked(r, target, base, k, i, o, reqs) && k < |r.reqs|
    ensures Walked(r, target, base, k + 1, i', o', reqs')
  {
    ghost var w := Window(r);
    CompactStep(w, k, reqs, base, target);
    SourceUntouched(r, reqs, base, target, |Live(w[..k])|, k, inPlace);
    var req := if inPlace then reqs[i] else r.reqs[i];
    o', reqs' := o, reqs;
    if req.message.Some? {
      reqs' := reqs[o := req];
      o' := NextIndex(|reqs|, o);
    }
    i' := NextIndex(|r.reqs|, i);
  }

  /** Walks once around a full ring and moves its live requests together, either into a new buffer or
      within the ring's own. */
  method Compact(r: Ring, target: seq<Request>, base: int, inPlace: bool) returns (reqs: seq<Request>)
    requires Shaped(r) && r.start == r.end && r.len > 0
    requires 0 <= base < |target| && |r.reqs| <= |target|
    requires inPlace ==> target == r.reqs && base == r.start
    ensures reqs == Placed(target, base, Live(Window(r)))
  {
    WalkStarts(r, target, base);
    var i, o := r.start, base;
    ghost var k := 0;
    reqs := target;
    while true
      invariant k < |r.reqs| && Walked(r, target, base, k, i, o, reqs)
      decreases |r.reqs| - k
    {
      i, o, reqs := MoveOne(r, target, base, inPlace, k, i, o, reqs);
      k := k + 1;
      WalkEnds(r, k);
      if i == r.end {
        break;
      }
    }
    FilledIsPlaced(reqs, base, Live(Window(r)), target);
  }

  /** More than 80% of the slots are live. */
  predicate Crowded(r: Ring) {
    r.len * 100 >= 81 * |r.reqs|
  }

  function Blanks(n: nat): (b: seq<Request>)
    ensures |b| == n && forall j | 0 <= j < n :: b[j] == BLANK
  {
    seq(n, _ => BLANK)
  }

  /** A ring whose indices met, once room has been made. Above 80% the live requests move to a larger buffer;
      below, they are compacted in place and `end` stays where it is. */
  function RoomMade(r: Ring): Ring
    requires Shaped(r)
  {
    if Crowded(r) then
      Ring(r.lastSeq, 0, r.len, r.len, Placed(Blanks(|r.reqs| * 3 / 2), 0, Live(Window(r))))
    else if r.len == 0 then r
    else r.(reqs := Placed(r.reqs, r.start, Live(Window(r))))
  }

  method MakeRoom(r: Ring) returns (r': Ring)
    requires Shaped(r) && r.start == r.end && 0 <= r.len <= |r.reqs|
    ensures r' == RoomMade(r) && Shaped(r')
  {
    DivBound(r.len * 100, |r.reqs|, 81);
    var occupation := r.len * 100 / |r.reqs|;
    r' := r;
    if occupation > 80 {
      var newCap := |r.reqs| * 3 / 2;
      var reqs := Compact(r, Blanks(newCap), 0, false);
      r' := r.(reqs := reqs, start := 0, end := r.len);
    } else if r.len != 0 {
      var reqs := Compact(r, r.reqs, r.start, true);
      r' := r.(reqs := reqs);
    }
  }

  lemma {:induction false} LiveKeepsOrder(w: seq<Request>, lastSeq: int)
    requires Ascending(w) && Numbered(w, lastSeq)
    ensures Ascending(Live(w)) && Numbered(Live(w), lastSeq)
    ensures forall x | x in Live(w) :: x in w && x.message.Some?
  {
    if w != [] {
      var n := |w| - 1;
      var live := Live(w[..n]);
      FrontKeepsOrder(w, lastSeq);
      LiveKeepsOrder(w[..n], lastSeq);
      forall i | 0 <= i < |live| ensures live[i].packetSeq < w[n].packetSeq {
        assert live[i] in w[..n];
        var k :| 0 <= k < n && w[k] == live[i];
        assert Lower(w, k, n);
      }
      if w[n].message.Some? {
        ExtendOrder(live, w[n]);
      } else {
        assert Live(w) == live;
      }
    }
  }

  lemma FrontKeepsOrder(w: seq<Request>, lastSeq: int)
    requires w != [] && Ascending(w) && Numbered(w, lastSeq)
    ensures var v := w[..|w| - 1]; Ascending(v) && Numbered(v, lastSeq)
  {
    var v := w[..|w| - 1];
    forall i, j | 0 <= i < j < |v| ensures Lower(v, i, j) {
      assert Lower(w, i, j);
    }
  }

  lemma ExtendOrder(w: seq<Request>, x: Request)
    requires Ascending(w) && forall i | 0 <= i < |w| :: w[i].packetSeq < x.packetSeq
    ensures Ascending(w + [x])
  {
    forall i, j | 0 <= i < j <= |w| ensures Lower(w + [x], i, j) {
      if j < |w| {
        assert Lower(w, i, j);
      }
    }
  }

  lemma {:induction false} AllLive(w: seq<Request>)
    requires forall x | x in w :: x.message.Some?
    ensures Live(w) == w
  {
    if w != [] {
      AllLive(w[..|w| - 1]);
      assert w == w[..|w| - 1] + [w[|w| - 1]];
    }
  }

  // ---------- adding a request ----------

  function PutIn(r: Ring, req: Request): Ring
    requires 0 <= r.end < |r.reqs|
  {
    r.(reqs := r.reqs[r.end := req], len := r.len + 1, end := Rot(r.end, |r.reqs|, 1))
  }

  /** The ring once a request has been added; nothing when the count exceeds the capacity of a full ring, which
      the source asserts never happens. */
  function AddedTo(r: Ring, req: Request): (r': Option<Ring>)
    requires Shaped(r)
    ensures r'.Some? ==> Shaped(r'.value) && r'.value.lastSeq == req.packetSeq
  {
    var r1 := r.(lastSeq := req.packetSeq);
    if r.start != r.end then Some(PutIn(r1, req))
    else if 0 <= r.len <= |r.reqs| then Some(PutIn(RoomMade(r1), req))
    else None
  }

  method AddTo(r: Ring, req: Request) returns (r': Option<Ring>)
    requires Shaped(r)
    ensures r' == AddedTo(r, req)
  {
    var r1 := r.(lastSeq := req.packetSeq);
    if r.start == r.end {
      if !(0 <= r.len <= |r.reqs|) {
        return None;
      }
      r1 := MakeRoom(r1);
    }
    var end' := NextIndex(|r1.reqs|, r1.end);
    r' := Some(r1.(reqs := r1.reqs[r1.end := req], len := r1.len + 1, end := end'));
  }

  lemma PutShape(r: Ring, req: Request)
    requires Shaped(r) && (r.start != r.end || r.len == 0) && r.len >= 0
    ensures var r' := PutIn(r.(lastSeq := req.packetSeq), req);
      && Shaped(r') && r'.start == r.start && WindowLen(r') == WindowLen(r) + 1
      && Rot(r.start, |r.reqs|, WindowLen(r)) == r.end && Offset(r, r.end) == WindowLen(r)
  {}

  lemma PutWindow(r: Ring, req: Request)
    requires Shaped(r) && (r.start != r.end || r.len == 0) && r.len >= 0
    ensures var r' := PutIn(r.(lastSeq := req.packetSeq), req);
      && Shaped(r') && Window(r') == Window(r) + [req]
      && forall j | 0 <= j < |r.reqs| :: InWindow(r', j) <==> InWindow(r, j) || j == r.end
  {
    PutShape(r, req);
    var n, r' := WindowLen(r), PutIn(r.(lastSeq := req.packetSeq), req);
    forall k | 0 <= k < n ensures Window(r')[k] == Window(r)[k] {
      assert Rot(r.start, |r.reqs|, k) != r.end;
    }
  }

  lemma PutOrder(w: seq<Request>, req: Request, lastSeq: int)
    requires Ascending(w) && Numbered(w, lastSeq) && lastSeq < req.packetSeq && FIRST_SEQ <= req.packetSeq
    ensures Ascending(w + [req]) && Numbered(w + [req], req.packetSeq)
  {
    ExtendOrder(w, req);
  }

  lemma PutRetired(r: Ring, req: Request, r': Ring)
    requires Shaped(r) && Retired(r) && Shaped(r') && r.lastSeq < req.packetSeq == r'.lastSeq
    requires r'.reqs == r.reqs[r.end := req] && Window(r') == Window(r) + [req]
    requires forall j | 0 <= j < |r.reqs| && !InWindow(r', j) :: !InWindow(r, j) && j != r.end
    ensures Retired(r')
  {
    assert Window(r')[0] == if Window(r) == [] then req else Window(r)[0];
  }

  /** A request with a larger number behind an ordered window. */
  lemma PutIsOk(r: Ring, req: Request)
    requires Ok(r) && (r.start != r.end || r.len == 0)
    requires req.message.Some? && r.lastSeq < req.packetSeq <= UINT32_MAX && FIRST_SEQ <= req.packetSeq
    ensures var r' := PutIn(r.(lastSeq := req.packetSeq), req);
      Ok(r') && Live(Window(r')) == Live(Window(r)) + [req]
  {
    PutLive(r, req);
    PutKeepsOk(r, req, PutIn(r.(lastSeq := req.packetSeq), req));
  }

  lemma PutKeepsOk(r: Ring, req: Request, r': Ring)
    requires Ok(r) && Shaped(r') && req.message.Some? && FIRST_SEQ <= req.packetSeq <= UINT32_MAX
    requires r.lastSeq < req.packetSeq == r'.lastSeq && r'.len == r.len + 1
    requires r'.reqs == r.reqs[r.end := req] && Window(r') == Window(r) + [req]
    requires forall j | 0 <= j < |r.reqs| && !InWindow(r', j) :: !InWindow(r, j) && j != r.end
    requires Live(Window(r')) == Live(Window(r)) + [req]
    ensures Ok(r')
  {
    PutOrder(Window(r), req, r.lastSeq);
    PutRetired(r, req, r');
  }

  /** Every slot but the one about to be written has a smaller number. */
  ghost predicate AllOlder(r: Ring, seqNo: int) {
    forall j | 0 <= j < |r.reqs| && j != r.end :: r.reqs[j].packetSeq < seqNo
  }

  /** A request with the first number again: the order survives exactly when nothing is in the window and no
      other slot remembers a number. */
  lemma PutAgainIsOk(r: Ring, req: Request)
    requires Ok(r) && (r.start != r.end || r.len == 0)
    requires req.message.Some? && req.packetSeq == FIRST_SEQ <= r.lastSeq
    ensures var r' := PutIn(r.(lastSeq := req.packetSeq), req);
      && Shaped(r') && Live(Window(r')) == Live(Window(r)) + [req]
      && (Ok(r') <==> Window(r) == [] && AllOlder(r, FIRST_SEQ))
  {
    PutLive(r, req);
    if Window(r) != [] {
      assert FIRST_SEQ <= Window(r)[0].packetSeq;
      NotAscending(Window(r), req);
    } else {
      PutAgainOnEmpty(r, req, PutIn(r.(lastSeq := req.packetSeq), req));
    }
  }

  /** A request put behind a window that is not full is behind the live ones. */
  lemma PutLive(r: Ring, req: Request)
    requires Shaped(r) && (r.start != r.end || r.len == 0) && r.len >= 0 && req.message.Some?
    ensures var r' := PutIn(r.(lastSeq := req.packetSeq), req);
      && Shaped(r') && Window(r') == Window(r) + [req] && Live(Window(r')) == Live(Window(r)) + [req]
      && forall j | 0 <= j < |r.reqs| :: InWindow(r', j) <==> InWindow(r, j) || j == r.end
  {
    PutWindow(r, req);
    LiveConcat(Window(r), [req]);
    LiveOne(req);
  }

  lemma PutAgainOnEmpty(r: Ring, req: Request, r': Ring)
    requires Shaped(r) && |r.reqs| <= MAX_SLOTS && Retired(r) && Window(r) == []
    requires req.message.Some? && req.packetSeq == FIRST_SEQ == r'.lastSeq
    requires Shaped(r') && r'.reqs == r.reqs[r.end := req] && r'.len == 1 && Window(r') == Window(r) + [req]
    requires Live(Window(r')) == Live(Window(r)) + [req]
    requires forall j | 0 <= j < |r.reqs| :: InWindow(r', j) <==> InWindow(r, j) || j == r.end
    ensures Ok(r') <==> AllOlder(r, FIRST_SEQ)
  {
    if AllOlder(r, FIRST_SEQ) {
      StartsOver(r, req, r');
    } else {
      RestRemembers(r, r');
    }
  }

  lemma NotAscending(w: seq<Request>, req: Request)
    requires w != [] && req.packetSeq <= w[0].packetSeq
    ensures !Ascending(w + [req])
  {
    assert !Lower(w + [req], 0, |w|);
  }

  lemma StartsOver(r: Ring, req: Request, r': Ring)
    requires Shaped(r) && |r.reqs| <= MAX_SLOTS && Retired(r) && Window(r) == []
    requires req.message.Some? && req.packetSeq == FIRST_SEQ == r'.lastSeq
    requires Shaped(r') && r'.reqs == r.reqs[r.end := req] && r'.len == 1 && Window(r') == Window(r) + [req]
    requires Live(Window(r')) == Live(Window(r)) + [req]
    requires forall j | 0 <= j < |r.reqs| :: InWindow(r', j) <==> InWindow(r, j) || j == r.end
    requires AllOlder(r, FIRST_SEQ)
    ensures Ok(r')
  {
    assert Window(r) + [req] == [req];
    RestRetired(r, r');
    OneIsOrdered(req);
  }

  lemma RestRemembers(r: Ring, r': Ring)
    requires Shaped(r) && Window(r) == [] && !AllOlder(r, FIRST_SEQ)
    requires Shaped(r') && |r'.reqs| == |r.reqs|
    requires forall j | 0 <= j < |r.reqs| && j != r.end :: r'.reqs[j] == r.reqs[j]
    requires Window(r') != [] && Window(r')[0].packetSeq == FIRST_SEQ
    requires forall j | 0 <= j < |r.reqs| :: InWindow(r', j) <==> InWindow(r, j) || j == r.end
    ensures !Retired(r')
  {
    var j :| 0 <= j < |r.reqs| && j != r.end && r.reqs[j].packetSeq >= FIRST_SEQ;
    assert !InWindow(r, j) && !InWindow(r', j) && r'.reqs[j] == r.reqs[j];
  }

  lemma OneIsOrdered(req: Request)
    requires FIRST_SEQ <= req.packetSeq
    ensures Ascending([req]) && Numbered([req], req.packetSeq)
  {}

  lemma RestRetired(r: Ring, r': Ring)
    requires Shaped(r) && Retired(r) && Window(r) == [] && AllOlder(r, FIRST_SEQ) && r'.lastSeq == FIRST_SEQ
    requires Shaped(r') && |r'.reqs| == |r.reqs|
    requires forall j | 0 <= j < |r.reqs| && j != r.end :: r'.reqs[j] == r.reqs[j]
    requires Window(r') != [] && Window(r')[0].packetSeq == FIRST_SEQ
    requires forall j | 0 <= j < |r.reqs| :: InWindow(r', j) <==> InWindow(r, j) || j == r.end
    ensures Retired(r')
  {
    forall j | 0 <= j < |r.reqs| && !InWindow(r', j) ensures r'.reqs[j].message == None {
      assert !InWindow(r, j);
    }
  }

  lemma {:induction false} NumbersAreSpread(w: seq<Request>, i: nat)
    requires Ascending(w) && i < |w| && forall j | 0 <= j < |w| :: FIRST_SEQ <= w[j].packetSeq
    ensures w[i].packetSeq >= FIRST_SEQ + i
  {
    if i > 0 {
      assert Lower(w, i - 1, i);
      NumbersAreSpread(w, i - 1);
    }
  }

  /** An ordered full ring has fewer slots than there are numbers, so growing it keeps within the bound. */
  lemma FullIsSmall(r: Ring)
    requires Ok(r) && r.start == r.end && r.len > 0
    ensures |r.reqs| <= UINT32_MAX
  {
    FullWindow(r);
    NumbersAreSpread(Window(r), |r.reqs| - 1);
  }

  /** Growing gives an ordered ring with the same live requests and no holes. */
  lemma GrownIsOk(r: Ring)
    requires Ok(r) && r.start == r.end && Crowded(r)
    ensures var r' := RoomMade(r);
      Ok(r') && r'.start != r'.end && Window(r') == Live(Window(r))
  {
    LiveIsShort(Window(r));
    WindowIsShort(r);
    FullIsSmall(r);
    GrownWindow(r);
    LiveKeepsOrder(Window(r), r.lastSeq);
    AllLive(Live(Window(r)));
    assert Window(RoomMade(r))[0].packetSeq >= FIRST_SEQ;
  }

  lemma GrownWindow(r: Ring)
    requires Shaped(r) && Crowded(r) && r.len == |Live(Window(r))| <= |r.reqs|
    ensures var r' := RoomMade(r);
      && Shaped(r') && r'.start != r'.end && Window(r') == Live(Window(r))
      && forall j | 0 <= j < |r'.reqs| && !InWindow(r', j) :: r'.reqs[j] == BLANK
  {
    var live, r' := Live(Window(r)), RoomMade(r);
    forall j | 0 <= j < |r'.reqs| ensures r'.reqs[j] == if j < |live| then live[j] else BLANK {}
  }

  lemma {:induction false} LiveIsShort(w: seq<Request>)
    ensures |Live(w)| <= |w|
  {
    if w != [] {
      LiveIsShort(w[..|w| - 1]);
    }
  }

  lemma WindowIsShort(r: Ring)
    requires Shaped(r)
    ensures |Window(r)| <= |r.reqs|
  {}

  lemma AllLiveAgain(w: seq<Request>)
    ensures Live(Live(w)) == Live(w)
  {
    LiveMembers(w);
    AllLive(Live(w));
  }

  lemma {:induction false} LiveMembers(w: seq<Request>)
    ensures forall x | x in Live(w) :: x.message.Some?
  {
    if w != [] {
      LiveMembers(w[..|w| - 1]);
    }
  }

  /** Compacting in place leaves `end` on the oldest request, which the new one then overwrites. */
  lemma AddedOver(r: Ring, req: Request)
    requires Shaped(r) && r.start == r.end && r.len == |Live(Window(r))| != 0 && !Crowded(r) && req.message.Some?
    ensures var r' := PutIn(RoomMade(r.(lastSeq := req.packetSeq)), req);
      Shaped(r') && Live(Window(r')) == [req] && r'.len != 1
  {
    var r' := PutIn(RoomMade(r.(lastSeq := req.packetSeq)), req);
    assert Window(r') == [req];
    LiveOne(req);
  }

  /** There is a free slot, nothing is pending, or the ring is crowded enough to be reallocated. */
  predicate CanTake(r: Ring) {
    r.start != r.end || r.len == 0 || Crowded(r)
  }

  /** The number is larger than all before, or the numbers start over in a ring that remembers none. */
  ghost predicate Follows(r: Ring, seqNo: int)
    requires Shaped(r)
  {
    r.lastSeq < seqNo || (Window(r) == [] && AllOlder(r, seqNo))
  }

  /** What adding the next number does: the live requests grow by exactly that request and the order survives if
      and only if the ring can take it and its number follows. */
  lemma AddedIsOk(r: Ring, req: Request)
    requires Ok(r) && FIRST_SEQ <= r.lastSeq && req.message.Some? && req.packetSeq == NextSeq(r.lastSeq)
    ensures AddedTo(r, req).Some?
    ensures var r' := AddedTo(r, req).value;
      && Shaped(r') && r'.lastSeq == req.packetSeq
      && (Ok(r') && Live(Window(r')) == Live(Window(r)) + [req] <==> CanTake(r) && Follows(r, req.packetSeq))
      && |r'.reqs| == if r.start == r.end && r.len * 100 / |r.reqs| > 80 then |r.reqs| * 3 / 2 else |r.reqs|
    ensures CanTake(r) <==> r.start != r.end || r.len == 0 || r.len * 100 / |r.reqs| > 80
  {
    LiveIsShort(Window(r));
    WindowIsShort(r);
    DivBound(r.len * 100, |r.reqs|, 81);
    if r.start != r.end || r.len == 0 {
      AddedBehind(r, req);
    } else if Crowded(r) {
      AddedGrown(r, req);
    } else {
      AddedOver(r, req);
      assert Live(Window(r)) + [req] != [req];
    }
  }

  lemma AddedBehind(r: Ring, req: Request)
    requires Ok(r) && FIRST_SEQ <= r.lastSeq && (r.start != r.end || r.len == 0)
    requires req.message.Some? && req.packetSeq == NextSeq(r.lastSeq)
    ensures AddedTo(r, req) == Some(PutIn(r.(lastSeq := req.packetSeq), req))
    ensures var r' := PutIn(r.(lastSeq := req.packetSeq), req);
      && Shaped(r') && Live(Window(r')) == Live(Window(r)) + [req]
      && (Ok(r') <==> Follows(r, req.packetSeq))
  {
    if r.lastSeq < req.packetSeq {
      PutIsOk(r, req);
    } else {
      PutAgainIsOk(r, req);
    }
  }

  lemma AddedGrown(r: Ring, req: Request)
    requires Ok(r) && FIRST_SEQ <= r.lastSeq && r.start == r.end && Crowded(r)
    requires req.message.Some? && req.packetSeq == NextSeq(r.lastSeq)
    ensures 0 <= r.len <= |r.reqs|
    ensures var r' := PutIn(RoomMade(r.(lastSeq := req.packetSeq)), req);
      && Shaped(r') && Live(Window(r')) == Live(Window(r)) + [req]
      && (Ok(r') <==> Follows(r, req.packetSeq))
  {
    LiveIsShort(Window(r));
    WindowIsShort(r);
    GrownIsOk(r);
    AllLiveAgain(Window(r));
    assert Window(r.(lastSeq := req.packetSeq)) == Window(r);
    AddedBehind(RoomMade(r), req);
    assert RoomMade(r.(lastSeq := req.packetSeq)) == RoomMade(r).(lastSeq := req.packetSeq);
  }

  /** Passing the gate without adding keeps the order exactly when no slot remembers a larger number. */
  lemma SkippedIsOk(r: Ring, seqNo: int)
    requires Ok(r) && seqNo <= UINT32_MAX
    ensures Window(r.(lastSeq := seqNo)) == Window(r)
    ensures Ok(r.(lastSeq := seqNo)) <==> forall j | 0 <= j < |r.reqs| :: r.reqs[j].packetSeq <= seqNo
  {
    var r' := r.(lastSeq := seqNo);
    assert Window(r') == Window(r);
    if Ok(r') {
      forall j | 0 <= j < |r.reqs| ensures r.reqs[j].packetSeq <= seqNo {
        if InWindow(r, j) {
          SlotInWindow(r, j);
        } else {
          assert !InWindow(r', j);
        }
      }
    }
    if forall j | 0 <= j < |r.reqs| :: r.reqs[j].packetSeq <= seqNo {
      forall k | 0 <= k < |Window(r)| ensures FIRST_SEQ <= Window(r)[k].packetSeq <= seqNo {
        WindowUpdate(r, k, Window(r)[k]);
      }
      SkippedRetired(r, seqNo);
    }
  }

  lemma SlotInWindow(r: Ring, j: int)
    requires Shaped(r) && 0 <= j < |r.reqs| && InWindow(r, j)
    ensures var k := if r.start <= j then j - r.start else j + |r.reqs| - r.start;
      0 <= k < |Window(r)| && Window(r)[k] == r.reqs[j] && Rot(r.start, |r.reqs|, k) == j
  {}

  lemma SkippedRetired(r: Ring, seqNo: int)
    requires Shaped(r) && Retired(r) && forall j | 0 <= j < |r.reqs| :: r.reqs[j].packetSeq <= seqNo
    requires Window(r.(lastSeq := seqNo)) == Window(r)
    ensures Retired(r.(lastSeq := seqNo))
  {
    forall j | 0 <= j < |r.reqs| && !InWindow(r.(lastSeq := seqNo), j) ensures !InWindow(r, j) {}
  }

  function NewRing(lastSeq: int): Ring {
    Ring(lastSeq, 0, 0, 0, Blanks(STARTING_CAP))
  }

  lemma NewRingIsOk(lastSeq: int)
    requires 0 <= lastSeq <= UINT32_MAX
    ensures Ok(NewRing(lastSeq)) && Window(NewRing(lastSeq)) == []
  {}
}
