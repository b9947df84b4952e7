/** The requests a client waits for, as the server keeps them: a gate that lets numbers through in order, and the
    operations on the ring behind it, measured against a plain list of requests. */
module PendingReqs {
  import opened RequestRing
  import opened RingSearch
  import opened Wrappers

  datatype Op = AddOp(req: Request) | CompleteOp(seqNo: int) | SkipOp(skipped: int)

  /** What callers owe: a message with a 32-bit number to add, and a number other than zero to complete. */
  predicate ValidOp(op: Op) {
    match op
    case AddOp(req) => req.message.Some? && 0 <= req.packetSeq <= UINT32_MAX
    case CompleteOp(seqNo) => 0 < seqNo <= UINT32_MAX
    case SkipOp(seqNo) => 0 <= seqNo <= UINT32_MAX
  }

  /** The number the gate lets through next. */
  function Expected(reqs: Option<Ring>): int {
    if reqs.None? then FIRST_SEQ else NextSeq(reqs.value.lastSeq)
  }

  ghost predicate ShapedPtr(reqs: Option<Ring>) {
    reqs.Some? ==> Shaped(reqs.value)
  }

  // ---------- the operations ----------

  /** The ring and the code after an operation. Nothing stands for a call that does not return: an assertion stops
      it, or its search never ends. */
  function Step(reqs: Option<Ring>, op: Op): (result: Option<(Option<Ring>, Error)>)
    requires ShapedPtr(reqs)
    ensures result.Some? ==> ShapedPtr(result.value.0)
  {
    match op
    case AddOp(req) =>
      if req.packetSeq != Expected(reqs) then Some((reqs, ESEQNUM_MISMATCH))
      else if reqs.None? then Some((Some(PutIn(NewRing(req.packetSeq), req)), OK))
      else
        (match AddedTo(reqs.value, req)
         case Some(r) => Some((Some(r), OK))
         case None => None)
    case SkipOp(seqNo) =>
      if seqNo != Expected(reqs) then Some((reqs, ESEQNUM_MISMATCH))
      else if reqs.None? then Some((Some(NewRing(seqNo)), OK))
      else Some((Some(reqs.value.(lastSeq := seqNo)), OK))
    case CompleteOp(seqNo) =>
      if reqs.None? || reqs.value.len == 0 then Some((reqs, ENOENT))
      else
        match Result(reqs.value, seqNo)
        case Found(m) => Some((Some(Invalidated(reqs.value, SlotAt(reqs.value, m))), OK))
        case Absent => Some((reqs, ENOENT))
        case Walking(_, _) => None
  }

  method Add(reqs: Option<Ring>, req: Request) returns (result: Option<(Option<Ring>, Error)>)
    requires ShapedPtr(reqs)
    ensures result == Step(reqs, AddOp(req))
  {
    if req.packetSeq != Expected(reqs) {
      return Some((reqs, ESEQNUM_MISMATCH));
    }
    if reqs.None? {
      var r := NewRing(req.packetSeq);
      var end' := NextIndex(|r.reqs|, r.end);
      return Some((Some(r.(reqs := r.reqs[r.end := req], len := r.len + 1, end := end')), OK));
    }
    var r' := AddTo(reqs.value, req);
    result := if r'.Some? then Some((r', OK)) else None;
  }

  method Skip(reqs: Option<Ring>, seqNo: int) returns (result: Option<(Option<Ring>, Error)>)
    requires ShapedPtr(reqs)
    ensures result == Step(reqs, SkipOp(seqNo))
  {
    if seqNo != Expected(reqs) {
      return Some((reqs, ESEQNUM_MISMATCH));
    }
    var r := if reqs.Some? then reqs.value.(lastSeq := seqNo) else NewRing(seqNo);
    result := Some((Some(r), OK));
  }

  method Complete(reqs: Option<Ring>, seqNo: int) returns (result: Option<(Option<Ring>, Error)>)
    requires ShapedPtr(reqs)
    ensures result == Step(reqs, CompleteOp(seqNo))
  {
    if reqs.None? || reqs.value.len == 0 {
      return Some((reqs, ENOENT));
    }
    var s := SearchSeq(reqs.value, seqNo);
    match s
    case Found(m) =>
      var r' := Invalidate(reqs.value, (reqs.value.start + m) % U64 % |reqs.value.reqs|);
      result := Some((Some(r'), OK));
    case Absent =>
      result := Some((reqs, ENOENT));
    case Walking(_, _) =>
      result := None;
  }

  // ---------- the list of requests ----------

  /** The last number seen and the live requests, oldest first. */
  datatype Pending = Pending(lastSeq: Option<int>, live: seq<Request>)

  function RemoveSeq(live: seq<Request>, seqNo: int): seq<Request> {
    if live == [] then []
    else if live[0].packetSeq == seqNo then live[1..]
    else [live[0]] + RemoveSeq(live[1..], seqNo)
  }

  predicate HasSeq(live: seq<Request>, seqNo: int) {
    exists i | 0 <= i < |live| :: live[i].packetSeq == seqNo
  }

  function ExpectedBy(p: Pending): int {
    if p.lastSeq.None? then FIRST_SEQ else NextSeq(p.lastSeq.value)
  }

  /** The request list every operation is measured against. */
  function Ideal(p: Pending, op: Op): (Pending, Error) {
    match op
    case AddOp(req) =>
      if req.packetSeq != ExpectedBy(p) then (p, ESEQNUM_MISMATCH)
      else (Pending(Some(req.packetSeq), p.live + [req]), OK)
    case SkipOp(seqNo) =>
      if seqNo != ExpectedBy(p) then (p, ESEQNUM_MISMATCH) else (p.(lastSeq := Some(seqNo)), OK)
    case CompleteOp(seqNo) =>
      if HasSeq(p.live, seqNo) then (p.(live := RemoveSeq(p.live, seqNo)), OK) else (p, ENOENT)
  }

  ghost predicate OkPtr(reqs: Option<Ring>) {
    reqs.Some? ==> Ok(reqs.value) && FIRST_SEQ <= reqs.value.lastSeq
  }

  /** What the ring stands for. */
  ghost function Meaning(reqs: Option<Ring>): Pending
    requires ShapedPtr(reqs)
  {
    if reqs.None? then Pending(None, [])
    else Pending(Some(reqs.value.lastSeq), Live(Window(reqs.value)))
  }

  /** The operation returns, leaves an ordered ring, and that ring and the code are those of the request list. */
  ghost predicate Faithful(reqs: Option<Ring>, op: Op)
    requires ShapedPtr(reqs)
  {
    var result := Step(reqs, op);
    && result.Some? && OkPtr(result.value.0)
    && (Meaning(result.value.0), result.value.1) == Ideal(Meaning(reqs), op)
  }

  // ---------- exactly when the ring follows the list ----------

  ghost predicate LiveAt(r: Ring, seqNo: int, k: int)
    requires Shaped(r)
  {
    0 <= k < |Window(r)| && Window(r)[k].packetSeq == seqNo && Window(r)[k].message.Some?
  }

  /** In a full ring it depends on the capacity, and on the rank of the number and what stands there, whether the
      search ends, and whether it finds a live request. The oldest is always found. */
  ghost predicate AnswersFull(cap: int, rank: int, at: Sight)
    requires cap >= 2
  {
    if at == Here then rank == 0 || FullResult(cap, rank, Here).Found? else !FullResult(cap, rank, at).Walking?
  }

  /** Inside the window the search answers unless it meets a hole with that number. For a number below the window its
      bounds wrap around, and it answers if it ends. */
  ghost predicate Answers(r: Ring, seqNo: int)
    requires Shaped(r)
  {
    var w := Window(r);
    if r.start == r.end then AnswersFull(|r.reqs|, Rank(w, seqNo), AtRank(w, seqNo))
    else if w[0].packetSeq <= seqNo then
      forall k {:trigger w[k]} | 0 <= k < |w| && w[k].packetSeq == seqNo :: w[k].message.Some?
    else !Result(r, seqNo).Walking?
  }

  ghost predicate Steady(reqs: Option<Ring>, op: Op)
    requires ShapedPtr(reqs)
  {
    reqs.Some? ==>
      var r := reqs.value;
      match op
      case AddOp(req) => req.packetSeq != Expected(reqs) || (CanTake(r) && Follows(r, req.packetSeq))
      case SkipOp(seqNo) =>
        seqNo != Expected(reqs) || forall j | 0 <= j < |r.reqs| :: r.reqs[j].packetSeq <= seqNo
      case CompleteOp(seqNo) =>
        r.len == 0 || (Answers(r, seqNo) && forall k | LiveAt(r, seqNo, k) :: !NewestOnly(r, k))
  }

  lemma FirstIsFaithful(op: Op)
    requires ValidOp(op)
    ensures Faithful(None, op)
  {
    match op
    case AddOp(req) =>
      if req.packetSeq == FIRST_SEQ {
        NewRingIsOk(0);
        PutIsOk(NewRing(0), req);
        assert NewRing(0).(lastSeq := FIRST_SEQ) == NewRing(FIRST_SEQ);
      }
    case SkipOp(seqNo) => NewRingIsOk(FIRST_SEQ);
    case CompleteOp(_) =>
  }

  lemma AddIsFaithful(r: Ring, req: Request)
    requires OkPtr(Some(r)) && ValidOp(AddOp(req))
    ensures Faithful(Some(r), AddOp(req)) <==> Steady(Some(r), AddOp(req))
  {
    if req.packetSeq == Expected(Some(r)) {
      AddedIsOk(r, req);
    }
  }

  lemma SkipIsFaithful(r: Ring, seqNo: int)
    requires OkPtr(Some(r)) && ValidOp(SkipOp(seqNo))
    ensures Faithful(Some(r), SkipOp(seqNo)) <==> Steady(Some(r), SkipOp(seqNo))
  {
    if seqNo == Expected(Some(r)) {
      SkippedIsOk(r, seqNo);
    }
  }

  /** In an ordered ring a search that stops has found the only request with that number. */
  lemma FoundInWindow(r: Ring, seqNo: int) returns (k: int)
    requires Ok(r) && Result(r, seqNo).Found?
    ensures LiveAt(r, seqNo, k) && SlotAt(r, Result(r, seqNo).index) == Rot(r.start, |r.reqs|, k)
    ensures forall i | LiveAt(r, seqNo, i) :: i == k
  {
    FoundIsLive(r, seqNo, Start(r), LIMIT);
    var j := SlotAt(r, Result(r, seqNo).index);
    assert InWindow(r, j);
    SlotInWindow(r, j);
    k := Offset(r, j);
    var w := Window(r);
    forall i | LiveAt(r, seqNo, i) ensures i == k {
      assert i < k ==> Lower(w, i, k);
      assert k < i ==> Lower(w, k, i);
    }
  }

  lemma CompleteFound(r: Ring, seqNo: int)
    requires OkPtr(Some(r)) && r.len != 0 && Result(r, seqNo).Found?
    ensures Faithful(Some(r), CompleteOp(seqNo)) <==> forall k | LiveAt(r, seqNo, k) :: !NewestOnly(r, k)
    ensures exists k :: LiveAt(r, seqNo, k)
  {
    var k := FoundInWindow(r, seqNo);
    InvalidatedIsOk(r, k);
    CompletedMeaning(Window(r), k);
  }

  lemma HasLive(r: Ring, seqNo: int)
    requires Shaped(r)
    ensures HasSeq(Live(Window(r)), seqNo) <==> exists k :: LiveAt(r, seqNo, k)
  {
    var w := Window(r);
    if k :| LiveAt(r, seqNo, k) {
      LivePunch(w, k);
      assert Live(w)[|Live(w[..k])|] == w[k];
    } else {
      forall i | 0 <= i < |w| && w[i].message.Some? ensures w[i].packetSeq != seqNo {
        assert !LiveAt(r, seqNo, i);
      }
      LiveAbsent(w, seqNo);
    }
  }

  lemma CompleteMissed(r: Ring, seqNo: int)
    requires OkPtr(Some(r)) && r.len != 0 && Result(r, seqNo).Absent?
    ensures Faithful(Some(r), CompleteOp(seqNo)) <==> forall k :: !LiveAt(r, seqNo, k)
  {
    assert Step(Some(r), CompleteOp(seqNo)) == Some((Some(r), ENOENT));
    HasLive(r, seqNo);
  }

  lemma CompleteIsFaithful(r: Ring, seqNo: int)
    requires OkPtr(Some(r)) && ValidOp(CompleteOp(seqNo))
    ensures Faithful(Some(r), CompleteOp(seqNo)) <==> Steady(Some(r), CompleteOp(seqNo))
  {
    if r.len == 0 {
      NothingLive(r);
    } else {
      if r.start == r.end {
        AnswersInFull(r, seqNo);
      } else if Window(r)[0].packetSeq <= seqNo {
        SearchIsRight(r, seqNo);
        AnswersInside(r, seqNo);
      } else {
        NothingBelow(r, seqNo);
      }
      match Result(r, seqNo)
      case Found(_) => CompleteFound(r, seqNo);
      case Absent => CompleteMissed(r, seqNo);
      case Walking(_, _) =>
    }
  }

  /** A live request in the oldest slot can always be completed, also in a full ring. */
  lemma OldestCompletes(r: Ring)
    requires OkPtr(Some(r)) && |Window(r)| > 0 && Window(r)[0].message.Some?
    ensures Faithful(Some(r), CompleteOp(Window(r)[0].packetSeq))
  {
    var w := Window(r);
    var seqNo := w[0].packetSeq;
    RankSplits(w, seqNo);
    assert Rank(w, seqNo) == 0 && AtRank(w, seqNo) == Here;
    assert Steady(Some(r), CompleteOp(seqNo));
    CompleteIsFaithful(r, seqNo);
  }

  lemma NothingLive(r: Ring)
    requires Shaped(r) && |Live(Window(r))| == 0
    ensures forall seqNo :: !HasSeq(Live(Window(r)), seqNo)
  {}

  lemma LiveRank(r: Ring, seqNo: int)
    requires Shaped(r) && Ascending(Window(r))
    ensures AtRank(Window(r), seqNo) == Here <==> exists k :: LiveAt(r, seqNo, k)
  {
    RankSplits(Window(r), seqNo);
    if AtRank(Window(r), seqNo) == Here {
      assert LiveAt(r, seqNo, Rank(Window(r), seqNo));
    }
  }

  lemma AnswersInFull(r: Ring, seqNo: int)
    requires Ok(r) && Full(r)
    ensures Answers(r, seqNo) <==>
      if exists k :: LiveAt(r, seqNo, k) then Result(r, seqNo).Found? else !Result(r, seqNo).Walking?
  {
    FullSearch(r, seqNo);
    LiveRank(r, seqNo);
    OldestIsFound(|r.reqs|);
  }

  lemma NothingBelow(r: Ring, seqNo: int)
    requires Shaped(r) && Ascending(Window(r)) && |Window(r)| > 0 && seqNo < Window(r)[0].packetSeq
    ensures forall k :: !LiveAt(r, seqNo, k)
  {
    var w := Window(r);
    forall k | 0 < k < |w| ensures seqNo < w[k].packetSeq {
      assert Lower(w, 0, k);
    }
  }

  lemma AnswersInside(r: Ring, seqNo: int)
    requires Shaped(r) && r.start != r.end && Window(r)[0].packetSeq <= seqNo && Decides(r, seqNo, Result(r, seqNo))
    ensures Answers(r, seqNo) <==> !Result(r, seqNo).Walking?
    ensures Result(r, seqNo).Absent? ==> forall k :: !LiveAt(r, seqNo, k)
  {
    var w := Window(r);
    if k :| 0 <= k < |w| && w[k].packetSeq == seqNo {
      assert Decides(r, seqNo, Result(r, seqNo));
    }
  }

  /** From an ordered ring an operation does what the request list does, and leaves an ordered ring, exactly when it
      is steady. */
  lemma StepIsFaithful(reqs: Option<Ring>, op: Op)
    requires OkPtr(reqs) && ValidOp(op)
    ensures Faithful(reqs, op) <==> Steady(reqs, op)
  {
    if reqs.None? {
      FirstIsFaithful(op);
    } else {
      match op
      case AddOp(req) => AddIsFaithful(reqs.value, req);
      case SkipOp(seqNo) => SkipIsFaithful(reqs.value, seqNo);
      case CompleteOp(seqNo) => CompleteIsFaithful(reqs.value, seqNo);
    }
  }

  lemma {:induction false} RemoveFrom(a: seq<Request>, x: Request, b: seq<Request>)
    requires !HasSeq(a, x.packetSeq)
    ensures RemoveSeq(a + [x] + b, x.packetSeq) == a + b
  {
    var all := a + [x] + b;
    if a == [] {
      assert all[1..] == b;
    } else {
      assert all[0] == a[0] && all[1..] == a[1..] + [x] + b;
      assert !HasSeq(a[1..], x.packetSeq);
      RemoveFrom(a[1..], x, b);
      assert a == [a[0]] + a[1..];
    }
  }

  lemma CompletedMeaning(w: seq<Request>, k: int)
    requires 0 <= k < |w| && w[k].message.Some? && Ascending(w)
    ensures HasSeq(Live(w), w[k].packetSeq)
    ensures RemoveSeq(Live(w), w[k].packetSeq) == Live(w[..k]) + Live(w[k + 1..])
  {
    LivePunch(w, k);
    forall i | 0 <= i < k ensures w[..k][i].packetSeq != w[k].packetSeq {
      assert Lower(w, i, k);
    }
    LiveAbsent(w[..k], w[k].packetSeq);
    RemoveFrom(Live(w[..k]), w[k], Live(w[k + 1..]));
    assert Live(w)[|Live(w[..k])|] == w[k];
  }

  lemma {:induction false} LiveAbsent(w: seq<Request>, seqNo: int)
    requires forall i | 0 <= i < |w| && w[i].message.Some? :: w[i].packetSeq != seqNo
    ensures !HasSeq(Live(w), seqNo)
  {
    if w != [] {
      LiveAbsent(w[..|w| - 1], seqNo);
    }
  }

  // ---------- whole runs ----------

  /** The ring and the codes after a run from nothing, unless some call does not return. */
  function RunOf(ops: seq<Op>): (result: Option<(Option<Ring>, seq<Error>)>)
    ensures result.Some? ==> ShapedPtr(result.value.0) && |result.value.1| == |ops|
  {
    if ops == [] then Some((None, []))
    else
      var n := |ops| - 1;
      match RunOf(ops[..n])
      case None => None
      case Some((reqs, errs)) =>
        match Step(reqs, ops[n])
        case None => None
        case Some((reqs', err)) => Some((reqs', errs + [err]))
  }

  function IdealRun(ops: seq<Op>): (Pending, seq<Error>) {
    if ops == [] then (Pending(None, []), [])
    else
      var n := |ops| - 1;
      var (p, errs) := IdealRun(ops[..n]);
      var (p', err) := Ideal(p, ops[n]);
      (p', errs + [err])
  }

  /** Every operation of the run was faithful in the ring it met. */
  ghost predicate FaithfulRun(ops: seq<Op>) {
    ops == [] ||
    var n := |ops| - 1;
    FaithfulRun(ops[..n]) && RunOf(ops[..n]).Some? && Faithful(RunOf(ops[..n]).value.0, ops[n])
  }

  ghost predicate SteadyRun(ops: seq<Op>) {
    ops == [] ||
    var n := |ops| - 1;
    SteadyRun(ops[..n]) && RunOf(ops[..n]).Some? && Steady(RunOf(ops[..n]).value.0, ops[n])
  }

  /** A run follows the request list at every step exactly when every operation is steady in the ring it meets, and
      then its codes and its last ring are those of the list. */
  lemma {:induction false} RunIsFaithful(ops: seq<Op>)
    requires forall i | 0 <= i < |ops| :: ValidOp(ops[i])
    ensures FaithfulRun(ops) <==> SteadyRun(ops)
    ensures SteadyRun(ops) ==>
      && RunOf(ops).Some? && OkPtr(RunOf(ops).value.0)
      && (Meaning(RunOf(ops).value.0), RunOf(ops).value.1) == IdealRun(ops)
  {
    if ops != [] {
      var n := |ops| - 1;
      RunIsFaithful(ops[..n]);
      if SteadyRun(ops[..n]) {
        StepIsFaithful(RunOf(ops[..n]).value.0, ops[n]);
      }
    }
  }

  // ---------- a run that goes astray ----------

  function Msg(seqNo: int): Request {
    Request(seqNo, Some(seqNo))
  }

  /** Two requests, the newer one completed, two more, and then the oldest completed. */
  function Script(): (ops: seq<Op>)
    ensures |ops| == 6
  {
    [AddOp(Msg(2)), AddOp(Msg(4)), CompleteOp(4), AddOp(Msg(6)), AddOp(Msg(8)), CompleteOp(2)]
  }

  /** The rings the script goes through, up to its last operation. */
  function RingAt(k: nat): Option<Ring>
    requires k <= 5
  {
    if k == 0 then None
    else
      var one := Blanks(STARTING_CAP)[0 := Msg(2)];
      var two := one[1 := Msg(4)];
      var hole := one[1 := Request(4, None)];
      Some(if k == 1 then Ring(2, 0, 1, 1, one)
           else if k == 2 then Ring(4, 0, 2, 2, two)
           else if k == 3 then Ring(4, 0, 3, 1, hole)
           else if k == 4 then Ring(6, 0, 4, 2, hole[3 := Msg(6)])
           else Ring(8, 0, 5, 3, hole[3 := Msg(6)][4 := Msg(8)]))
  }

  function PendingAt(k: nat): Pending
    requires k <= 5
  {
    if k == 0 then Pending(None, [])
    else if k == 1 then Pending(Some(2), [Msg(2)])
    else if k == 2 then Pending(Some(4), [Msg(2), Msg(4)])
    else if k == 3 then Pending(Some(4), [Msg(2)])
    else if k == 4 then Pending(Some(6), [Msg(2), Msg(6)])
    else Pending(Some(8), [Msg(2), Msg(6), Msg(8)])
  }

  function Oks(k: nat): (errs: seq<Error>)
    ensures |errs| == k && forall i | 0 <= i < k :: errs[i] == OK
  {
    seq(k, _ => OK)
  }

  lemma ResultIs(r: Ring, seqNo: int, n: nat, s: Search)
    requires Shaped(r) && n <= LIMIT && Probes(r, seqNo, Start(r), n) == s && !s.Walking?
    ensures Result(r, seqNo) == s
  {
    ProbesAdd(r, seqNo, Start(r), n, LIMIT - n);
    StuckStays(r, seqNo, s, LIMIT - n);
  }

  lemma FindsNewest()
    ensures Result(RingAt(2).value, 4) == Found(1) && SlotAt(RingAt(2).value, 1) == 1
  {
    var r := RingAt(2).value;
    assert Look(r, 4, 0) == Below && Look(r, 4, 1) == Here;
    assert Probe(r, 4, Walking(0, 1)) == Walking(1, 1) && Probe(r, 4, Walking(1, 1)) == Found(1);
    assert Probes(r, 4, Walking(0, 1), 2) == Probes(r, 4, Walking(1, 1), 1) == Probes(r, 4, Found(1), 0);
    ResultIs(r, 4, 2, Found(1));
  }

  /** The search for the oldest of five slots meets a lower number at offset two. */
  lemma MissesAtTwo(r: Ring)
    requires Shaped(r) && r.start == 0 && r.end == 5 && |r.reqs| == STARTING_CAP
    requires r.reqs[2].packetSeq < 2 < r.reqs[3].packetSeq
    ensures Result(r, 2) == Absent
  {
    assert Look(r, 2, 2) == Below && Look(r, 2, 3) == Above;
    assert Probe(r, 2, Walking(0, 4)) == Walking(3, 4) && Probe(r, 2, Walking(3, 4)) == Walking(3, 2);
    assert Probes(r, 2, Walking(0, 4), 3) == Probes(r, 2, Walking(3, 4), 2) == Probes(r, 2, Walking(3, 2), 1)
      == Probes(r, 2, Absent, 0);
    ResultIs(r, 2, 3, Absent);
  }

  /** In the script that is the slot that was never used. */
  lemma MissesOldest()
    ensures Result(RingAt(5).value, 2) == Absent
  {
    MissesAtTwo(RingAt(5).value);
  }

  lemma ScriptAdds(k: nat)
    requires k == 0 || k == 1 || k == 3 || k == 4
    ensures Step(RingAt(k), Script()[k]) == Some((RingAt(k + 1), OK))
    ensures Ideal(PendingAt(k), Script()[k]) == (PendingAt(k + 1), OK)
  {
    if k == 0 {
      assert Script()[0] == AddOp(Msg(2));
      assert PutIn(NewRing(2), Msg(2)) == RingAt(1).value;
      assert PendingAt(0).live + [Msg(2)] == PendingAt(1).live;
    } else {
      var req := Msg(if k == 1 then 4 else if k == 3 then 6 else 8);
      assert Script()[k] == AddOp(req);
      assert AddedTo(RingAt(k).value, req) == RingAt(k + 1);
      assert PendingAt(k).live + [req] == PendingAt(k + 1).live;
    }
  }

  lemma ScriptCompletes()
    ensures Step(RingAt(2), Script()[2]) == Some((RingAt(3), OK))
    ensures Ideal(PendingAt(2), Script()[2]) == (PendingAt(3), OK)
  {
    assert Script()[2] == CompleteOp(4);
    FindsNewest();
    assert Invalidated(RingAt(2).value, 1) == RingAt(3).value;
    RemovesSecond(Msg(2), Msg(4));
  }

  lemma RemovesSecond(x: Request, y: Request)
    requires x.packetSeq != y.packetSeq
    ensures HasSeq([x, y], y.packetSeq) && RemoveSeq([x, y], y.packetSeq) == [x]
  {
    assert [x, y][1] == y && [x, y][1..] == [y] && [y][1..] == [];
    assert RemoveSeq([x, y], y.packetSeq) == [x] + RemoveSeq([y], y.packetSeq);
  }

  lemma {:induction false} ScriptRuns(k: nat)
    requires k <= 5
    ensures RunOf(Script()[..k]) == Some((RingAt(k), Oks(k))) && IdealRun(Script()[..k]) == (PendingAt(k), Oks(k))
  {
    if k > 0 {
      ScriptRuns(k - 1);
      assert Script()[..k][..k - 1] == Script()[..k - 1];
      assert Oks(k) == Oks(k - 1) + [OK];
      if k == 3 {
        ScriptCompletes();
      } else {
        ScriptAdds(k - 1);
      }
    }
  }

  /** At the end of the script the oldest request, which is still pending, is reported missing. */
  lemma NewestCompletedGoesAstray()
    ensures RunOf(Script()).Some? && RunOf(Script()).value.1 == Oks(5) + [ENOENT]
    ensures IdealRun(Script()).1 == Oks(6)
  {
    ScriptRuns(5);
    MissesOldest();
    assert Script()[5] == CompleteOp(2);
    assert PendingAt(5).live[0].packetSeq == 2;
    assert Oks(6) == Oks(5) + [OK];
  }

  // ---------- a run that never returns ----------

  /** The requests 2, 4, ... until there are k. */
  function Adds(k: nat): (ops: seq<Op>)
    ensures |ops| == k && forall i | 0 <= i < k :: ops[i] == AddOp(Msg(2 * i + 2))
  {
    seq(k, i => AddOp(Msg(2 * i + 2)))
  }

  function Msgs(k: nat): seq<Request> {
    seq(k, i => Msg(2 * i + 2))
  }

  function RingOf(k: nat): Ring
    requires 1 <= k <= STARTING_CAP
  {
    Ring(2 * k, 0, if k == STARTING_CAP then 0 else k, k, Msgs(k) + Blanks(STARTING_CAP - k))
  }

  lemma AddOneMore(k: nat)
    requires 1 <= k < STARTING_CAP
    ensures Step(Some(RingOf(k)), AddOp(Msg(2 * k + 2))) == Some((Some(RingOf(k + 1)), OK))
  {
    var req := Msg(2 * k + 2);
    assert (Msgs(k) + Blanks(STARTING_CAP - k))[k := req] == Msgs(k + 1) + Blanks(STARTING_CAP - (k + 1));
    assert AddedTo(RingOf(k), req) == Some(RingOf(k + 1));
  }

  lemma {:induction false} AddsRun(k: nat)
    requires 1 <= k <= STARTING_CAP
    ensures RunOf(Adds(k)) == Some((Some(RingOf(k)), Oks(k)))
    ensures IdealRun(Adds(k)) == (Pending(Some(2 * k), Msgs(k)), Oks(k))
  {
    var n := k - 1;
    assert Adds(k)[..n] == Adds(n) && Oks(k) == Oks(n) + [OK] && Msgs(k) == Msgs(n) + [Msg(2 * k)];
    if k == 1 {
      assert PutIn(NewRing(2), Msg(2)) == RingOf(1);
    } else {
      AddsRun(n);
      AddOneMore(n);
    }
  }

  /** Powers of two modulo 12. */
  lemma {:induction false} TwelveLeaves(i: nat)
    ensures Pow2(i) % STARTING_CAP in {1, 2, 4, 8}
  {
    if i > 0 {
      TwelveLeaves(i - 1);
    }
  }

  lemma TwelveOutOfReach(rank: int)
    requires rank >= 8
    ensures OutOfReach(STARTING_CAP, rank)
  {
    forall i: nat | i <= 63 ensures Short(STARTING_CAP, rank, i) {
      TwelveLeaves(i);
    }
  }

  /** In a full ring the search for a number out of reach never returns. */
  lemma FullNeverReturns(r: Ring, seqNo: int)
    requires Shaped(r) && Full(r) && |r.reqs| <= HALF && Ascending(Window(r))
    requires OutOfReach(|r.reqs|, Rank(Window(r), seqNo))
    ensures Step(Some(r), CompleteOp(seqNo)) == None && NeverEnds(r, seqNo, Start(r))
  {
    FullSearch(r, seqNo);
    OutOfReachNeverEnds(|r.reqs|, Rank(Window(r), seqNo), AtRank(Window(r), seqNo));
    EndsSoonOrNever(r, seqNo);
  }

  lemma TwelveWindow()
    ensures Window(RingOf(STARTING_CAP)) == Msgs(STARTING_CAP) && Ascending(Msgs(STARTING_CAP))
  {
    var w := Msgs(STARTING_CAP);
    assert Window(RingOf(STARTING_CAP)) == w;
    forall i, j | 0 <= i < j < |w| ensures Lower(w, i, j) {}
  }

  lemma TwelveRank(seqNo: int)
    requires 18 <= seqNo
    ensures Rank(Msgs(STARTING_CAP), seqNo) >= 8
  {
    var w := Msgs(STARTING_CAP);
    TwelveWindow();
    RankSplits(w, seqNo);
    assert w[7].packetSeq == 16;
  }

  lemma TwelveStuck(seqNo: int)
    requires 18 <= seqNo
    ensures Step(Some(RingOf(STARTING_CAP)), CompleteOp(seqNo)) == None
  {
    TwelveWindow();
    TwelveRank(seqNo);
    TwelveOutOfReach(Rank(Msgs(STARTING_CAP), seqNo));
    FullNeverReturns(RingOf(STARTING_CAP), seqNo);
  }

  /** With the requests 2 to 24 pending, none of the last four can be completed: the call never returns. */
  lemma FullRingNeverReturns(i: nat)
    requires 8 <= i < STARTING_CAP
    ensures var ops := Adds(STARTING_CAP) + [CompleteOp(2 * i + 2)];
      RunOf(ops) == None && IdealRun(ops).1 == Oks(STARTING_CAP + 1)
  {
    var seqNo := 2 * i + 2;
    var ops := Adds(STARTING_CAP) + [CompleteOp(seqNo)];
    AddsRun(STARTING_CAP);
    assert ops[..STARTING_CAP] == Adds(STARTING_CAP) && Oks(STARTING_CAP + 1) == Oks(STARTING_CAP) + [OK];
    TwelveStuck(seqNo);
    assert HasSeq(Msgs(STARTING_CAP), seqNo) by {
      assert Msgs(STARTING_CAP)[i].packetSeq == seqNo;
    }
  }

  /** What the server keeps for a client: a ring that the first request allocates. */
  class Handle {
    var reqs: Option<Ring>

    ghost predicate Valid()
      reads this
    {
      ShapedPtr(reqs)
    }

    constructor ()
      ensures Valid() && reqs == None
    {
      reqs := None;
    }

    /** Updates the ring in place; no code means that the call does not return. */
    method Apply(op: Op) returns (err: Option<Error>)
      requires Valid() && ValidOp(op)
      modifies this
      ensures Valid() && (err.Some? <==> Step(old(reqs), op).Some?)
      ensures err.Some? ==> Step(old(reqs), op) == Some((reqs, err.value))
      ensures OkPtr(old(reqs)) && Steady(old(reqs), op) ==>
        err.Some? && OkPtr(reqs) && (Meaning(reqs), err.value) == Ideal(Meaning(old(reqs)), op)
    {
      if OkPtr(reqs) {
        StepIsFaithful(reqs, op);
      }
      var result;
      match op {
        case AddOp(req) => result := Add(reqs, req);
        case SkipOp(seqNo) => result := Skip(reqs, seqNo);
        case CompleteOp(seqNo) => result := Complete(reqs, seqNo);
      }
      if result.None? {
        return None;
      }
      reqs := result.value.0;
      err := Some(result.value.1);
    }
  }

  lemma {:induction false} StuckRun(ops: seq<Op>, i: nat)
    requires i <= |ops| && RunOf(ops[..i]).None?
    ensures RunOf(ops).None?
  {
    if i < |ops| {
      var n := |ops| - 1;
      assert ops[..n][..i] == ops[..i];
      StuckRun(ops[..n], i);
    } else {
      assert ops[..i] == ops;
    }
  }

  /** Drives the operations in order, as far as they return. */
  method Run(ops: seq<Op>) returns (errs: seq<Error>, ring: Option<Ring>)
    requires forall i | 0 <= i < |ops| :: ValidOp(ops[i])
    ensures |errs| <= |ops| && RunOf(ops[..|errs|]) == Some((ring, errs))
    ensures |errs| < |ops| ==> RunOf(ops[..|errs| + 1]).None?
    ensures SteadyRun(ops) ==> |errs| == |ops| && errs == IdealRun(ops).1
  {
    var handle := new Handle();
    errs, ring := [], None;
    RunIsFaithful(ops);
    for i := 0 to |ops|
      invariant fresh(handle) && handle.Valid() && handle.reqs == ring && |errs| == i
      invariant RunOf(ops[..i]) == Some((ring, errs))
    {
      assert ops[..i + 1][..i] == ops[..i];
      var err := handle.Apply(ops[i]);
      if err.None? {
        StuckRun(ops, i + 1);
        return;
      }
      errs, ring := errs + [err.value], handle.reqs;
    }
    assert ops[..|ops|] == ops;
  }
}
