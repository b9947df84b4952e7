/** The client's side of the request protocol: sequence numbers, the list of waiting tasks, and the server
    gate that expects the same numbers. */
module Client {
  import opened Arith
  import opened PendingReqs
  import opened RequestRing
  import opened Wrappers

  /** How many different numbers there are before they repeat. */
  const CYCLE := 0x7FFF_FFFF

  /** The n-th number drawn since the last reset, counting from zero. */
  function Nth(n: nat): int {
    2 * (n % CYCLE) + 2
  }

  /** The next value of the 32-bit counter; zero is skipped. */
  function Advance(cur: int): int {
    if (cur + 2) % U32 == 0 then 2 else (cur + 2) % U32
  }

  lemma NthAdvances(n: nat)
    ensures Advance(Nth(n)) == Nth(n + 1)
    ensures RequestRing.NextSeq(Nth(n)) == Nth(n + 1)
    ensures Nth(n) % 2 == 0 && 2 <= Nth(n) <= 0xFFFF_FFFE
  {
    var q, m := n / CYCLE, n % CYCLE;
    if m + 1 < CYCLE {
      assert n + 1 == CYCLE * q + (m + 1);
    } else {
      assert n + 1 == CYCLE * (q + 1);
    }
  }

  /** Two numbers of one run are equal exactly when a whole number of cycles lies between them. */
  lemma NthRepeats(i: nat, j: nat)
    requires i < j
    ensures Nth(i) == Nth(j) <==> (j - i) % CYCLE == 0
  {
    var a, b := i / CYCLE, i % CYCLE;
    var c, d := j / CYCLE, j % CYCLE;
    assert j - i == CYCLE * (c - a) + (d - b);
  }

  // ---------- client and server in step ----------

  /** An operation of the server that takes a number past its gate. */
  predicate Presents(op: Op) {
    !op.CompleteOp?
  }

  function NumberOf(op: Op): int
    requires Presents(op)
  {
    if op.AddOp? then op.req.packetSeq else op.skipped
  }

  /** How many numbers the gate has let through in a run. */
  function LetThrough(ops: seq<Op>): nat
    requires RunOf(ops).Some?
  {
    if ops == [] then 0
    else
      var n := |ops| - 1;
      LetThrough(ops[..n]) + if Presents(ops[n]) && RunOf(ops).value.1[n] == OK then 1 else 0
  }

  lemma GateStep(reqs: Option<Ring>, op: Op)
    requires ShapedPtr(reqs) && Step(reqs, op).Some?
    ensures var (reqs', err) := Step(reqs, op).value;
      if Presents(op) && NumberOf(op) == Expected(reqs) then err == OK && Expected(reqs') == NextSeq(Expected(reqs))
      else Expected(reqs') == Expected(reqs) && (Presents(op) ==> err == ESEQNUM_MISMATCH)
  {
  }

  /** After every run of adding, skipping and completing on the server's ring, through any number of wrap-arounds and
      whatever became of the ring, the gate expects the number that the client draws next. */
  lemma {:induction false} GateExpectsNth(ops: seq<Op>)
    requires RunOf(ops).Some?
    ensures Expected(RunOf(ops).value.0) == Nth(LetThrough(ops))
  {
    if ops != [] {
      var n := |ops| - 1;
      GateExpectsNth(ops[..n]);
      GateStep(RunOf(ops[..n]).value.0, ops[n]);
      NthAdvances(LetThrough(ops[..n]));
    }
  }

  /** How many numbers the client has drawn for these operations. */
  function Presented(ops: seq<Op>): nat {
    if ops == [] then 0
    else Presented(ops[..|ops| - 1]) + if Presents(ops[|ops| - 1]) then 1 else 0
  }

  /** The numbers presented are the client's, in the order in which it draws them. */
  ghost predicate InOrder(ops: seq<Op>) {
    forall i | 0 <= i < |ops| && Presents(ops[i]) :: NumberOf(ops[i]) == Nth(Presented(ops[..i]))
  }

  /** The gate never refuses the client's numbers. */
  lemma {:induction false} GateTakesTheClient(ops: seq<Op>)
    requires InOrder(ops) && RunOf(ops).Some?
    ensures LetThrough(ops) == Presented(ops)
    ensures forall i | 0 <= i < |ops| && Presents(ops[i]) :: RunOf(ops).value.1[i] == OK
  {
    if ops != [] {
      var n := |ops| - 1;
      forall i | 0 <= i < n && Presents(ops[..n][i])
        ensures NumberOf(ops[..n][i]) == Nth(Presented(ops[..n][..i]))
      {
        assert ops[..n][..i] == ops[..i];
      }
      GateTakesTheClient(ops[..n]);
      GateExpectsNth(ops[..n]);
      GateStep(RunOf(ops[..n]).value.0, ops[n]);
      var errs := RunOf(ops[..n]).value.1;
      assert forall i | 0 <= i < n :: RunOf(ops).value.1[i] == errs[i];
    }
  }

  // ---------- the waiting list ----------

  datatype Waiting = Waiting(packetSeq: int, taskId: int)

  datatype Kind = Bye | Hello | Response | Signal | Request

  datatype Event =
    | Connect(taskId: int)
    | Issue(taskId: int, written: bool)
    | SendBye
    | Packet(kind: Kind, packetSeq: int)
    | TaskEnd(taskId: int)

  datatype Effect = Nothing | Sent(packetSeq: int) | Delivered(taskId: int) | Signalled

  class ClientState {
    var nextSeq: int
    var waiting: seq<Waiting>
    ghost var drawn: nat // numbers drawn since the reset

    ghost predicate Valid()
      reads this
    {
      nextSeq == Nth(drawn)
    }

    constructor ()
      ensures Valid() && waiting == [] && drawn == 0
    {
      nextSeq, waiting, drawn := 2, [], 0;
    }

    method ResetSeq()
      modifies this`nextSeq, this`drawn
      ensures Valid() && drawn == 0
    {
      nextSeq, drawn := 2, 0;
    }

    method NextSeq() returns (next: int)
      requires Valid()
      modifies this`nextSeq, this`drawn
      ensures Valid() && drawn == old(drawn) + 1 && next == Nth(old(drawn))
    {
      NthAdvances(drawn);
      next := nextSeq;
      nextSeq := (nextSeq + 2) % U32;
      drawn := drawn + 1;
      if nextSeq == 0 {
        nextSeq := 2;
      }
    }

    /** Queues the task once its packet went out. */
    method SendAndQueue(taskId: int, packetSeq: int, written: bool) returns (sent: bool)
      modifies this`waiting
      ensures sent == written
      ensures waiting == if written then old(waiting) + [Waiting(packetSeq, taskId)] else old(waiting)
    {
      if written {
        waiting := waiting + [Waiting(packetSeq, taskId)];
      }
      sent := written;
    }

    /** Takes the first entry with the given number off the list. */
    method RemoveSeq(packetSeq: int) returns (taskId: Option<int>)
      modifies this`waiting
      ensures var k := IndexOfSeq(old(waiting), packetSeq);
        if k < |old(waiting)| then taskId == Some(old(waiting)[k].taskId) && waiting == Without(old(waiting), k)
        else taskId == None && waiting == old(waiting)
    {
      for i := 0 to |waiting|
        invariant waiting == old(waiting)
        invariant IndexOfSeq(waiting, packetSeq) == i + IndexOfSeq(waiting[i..], packetSeq)
      {
        if waiting[i].packetSeq == packetSeq {
          taskId := Some(waiting[i].taskId);
          waiting := waiting[..i] + waiting[i + 1..];
          return;
        }
      }
      taskId := None;
    }

    /** Takes the first entry of the given task off the list. */
    method RemoveTask(taskId: int) returns (found: bool)
      modifies this`waiting
      ensures var k := IndexOfTask(old(waiting), taskId);
        if k < |old(waiting)| then found && waiting == Without(old(waiting), k)
        else !found && waiting == old(waiting)
    {
      for i := 0 to |waiting|
        invariant waiting == old(waiting)
        invariant IndexOfTask(waiting, taskId) == i + IndexOfTask(waiting[i..], taskId)
      {
        if waiting[i].taskId == taskId {
          waiting := waiting[..i] + waiting[i + 1..];
          return true;
        }
      }
      found := false;
    }

    method GotPacket(kind: Kind, packetSeq: int) returns (effect: Effect)
      modifies this`waiting
      ensures (waiting, effect) == After(old(waiting), Packet(kind, packetSeq), 0)
    {
      effect := Nothing;
      match kind {
        case Bye => // the server says goodbye
        case Request => // not something a server may send
        case Signal =>
          effect := Signalled;
        case _ =>
          var taskId := RemoveSeq(packetSeq);
          if taskId.Some? {
            effect := Delivered(taskId.value);
          }
      }
    }

    method Handle(event: Event) returns (effect: Effect)
      requires Valid()
      modifies this
      ensures Valid() && (waiting, effect) == After(old(waiting), event, Nth(old(drawn)))
      ensures drawn == if event.Connect? then 0 else if Draws(event) then old(drawn) + 1 else old(drawn)
    {
      effect := Nothing;
      match event {
        case Connect(taskId) =>
          ResetSeq();
          var sent := SendAndQueue(taskId, 0, true);
          effect := Sent(0);
        case Issue(taskId, written) =>
          var packetSeq := NextSeq();
          var sent := SendAndQueue(taskId, packetSeq, written);
          if sent {
            effect := Sent(packetSeq);
          }
        case SendBye =>
          var packetSeq := NextSeq();
        case Packet(kind, packetSeq) =>
          effect := GotPacket(kind, packetSeq);
        case TaskEnd(taskId) =>
          var found := RemoveTask(taskId);
      }
    }
  }

  function IndexOfSeq(w: seq<Waiting>, packetSeq: int): (k: nat)
    ensures k <= |w| && (k < |w| ==> w[k].packetSeq == packetSeq)
    ensures forall i | 0 <= i < k :: w[i].packetSeq != packetSeq
  {
    if w == [] || w[0].packetSeq == packetSeq then 0 else 1 + IndexOfSeq(w[1..], packetSeq)
  }

  function IndexOfTask(w: seq<Waiting>, taskId: int): (k: nat)
    ensures k <= |w| && (k < |w| ==> w[k].taskId == taskId)
    ensures forall i | 0 <= i < k :: w[i].taskId != taskId
  {
    if w == [] || w[0].taskId == taskId then 0 else 1 + IndexOfTask(w[1..], taskId)
  }

  function Without<T>(w: seq<T>, k: nat): seq<T>
    requires k < |w|
  {
    w[..k] + w[k + 1..]
  }

  predicate Draws(event: Event) {
    event.Issue? || event.SendBye?
  }

  predicate IsReply(event: Event) {
    event.Packet? && (event.kind == Response || event.kind == Hello)
  }

  /** The waiting list and the effect of one event; `number` is what the counter holds. */
  function After(w: seq<Waiting>, event: Event, number: int): (seq<Waiting>, Effect) {
    match event
    case Connect(t) => (w + [Waiting(0, t)], Sent(0))
    case Issue(t, written) => if written then (w + [Waiting(number, t)], Sent(number)) else (w, Nothing)
    case SendBye => (w, Nothing)
    case Packet(kind, q) =>
      if kind == Signal then (w, Signalled)
      else if kind != Response && kind != Hello then (w, Nothing)
      else
        var k := IndexOfSeq(w, q);
        if k < |w| then (Without(w, k), Delivered(w[k].taskId)) else (w, Nothing)
    case TaskEnd(t) =>
      var k := IndexOfTask(w, t);
      (if k < |w| then Without(w, k) else w, Nothing)
  }

  // ---------- what a run promises ----------

  /** How many numbers the first `n` events draw. */
  function DrawnBefore(events: seq<Event>, n: nat): nat
    requires n <= |events|
  {
    if n == 0 then 0 else DrawnBefore(events, n - 1) + if Draws(events[n - 1]) then 1 else 0
  }

  /** One connection: it is opened first, and every task sends once. */
  ghost predicate OneConnection(events: seq<Event>) {
    && (forall i | 0 < i < |events| :: !events[i].Connect?)
    && (forall i, j | 0 <= i < j < |events| && Sends(events[i]) && Sends(events[j]) ::
          events[i].taskId != events[j].taskId)
  }

  predicate Sends(event: Event) {
    event.Connect? || event.Issue?
  }

  /** At time `j` the packet that event `i` sent is neither answered nor given up. */
  ghost predicate Outstanding(events: seq<Event>, effects: seq<Effect>, i: int, j: int) {
    && 0 <= i < j <= |effects| <= |events| && Sends(events[i]) && effects[i].Sent?
    && forall k | i < k < j :: !Settles(events, effects, k, events[i].taskId)
  }

  predicate Settles(events: seq<Event>, effects: seq<Effect>, k: int, taskId: int) {
    0 <= k < |effects| <= |events| && (effects[k] == Delivered(taskId) || events[k] == TaskEnd(taskId))
  }

  /** The waiting list holds exactly the outstanding packets. */
  ghost predicate Tracked(events: seq<Event>, effects: seq<Effect>, w: seq<Waiting>, at: seq<int>) {
    && |at| == |w| && |effects| <= |events|
    && (forall x | 0 <= x < |w| ::
          && Outstanding(events, effects, at[x], |effects|)
          && effects[at[x]] == Sent(w[x].packetSeq) && events[at[x]].taskId == w[x].taskId)
    && (forall x, y | 0 <= x < y < |at| :: at[x] != at[y])
    && (forall i | Outstanding(events, effects, i, |effects|) :: i in at)
  }

  /** A delivery goes to the sender of that number, whose packet was still outstanding. */
  ghost predicate DeliveredRight(events: seq<Event>, effects: seq<Effect>, j: int)
    requires 0 <= j < |effects| <= |events|
  {
    effects[j].Delivered? ==>
      && IsReply(events[j])
      && exists i :: Outstanding(events, effects, i, j)
                     && effects[i] == Sent(events[j].packetSeq) && effects[j] == Delivered(events[i].taskId)
  }

  /** A reply that reaches nobody answers no outstanding packet. */
  ghost predicate DroppedRight(events: seq<Event>, effects: seq<Effect>, j: int)
    requires 0 <= j < |effects| <= |events|
  {
    IsReply(events[j]) && !effects[j].Delivered? ==>
      forall i | Outstanding(events, effects, i, j) :: effects[i] != Sent(events[j].packetSeq)
  }

  /** Packets go out exactly as they are written and signals are passed on, in the order in which numbers are drawn. */
  ghost predicate NumberedRight(events: seq<Event>, effects: seq<Effect>, j: int)
    requires 0 <= j < |effects| <= |events|
  {
    && (effects[j].Sent? <==> Goes(events[j]))
    && (effects[j] == Signalled <==> events[j].Packet? && events[j].kind == Signal)
    && (effects[j].Sent? && events[j].Issue? ==> effects[j] == Sent(Nth(DrawnBefore(events, j))))
    && (events[j].Connect? ==> effects[j] == Sent(0))
  }

  lemma SettlesSame(events: seq<Event>, effects: seq<Effect>, e: Effect, taskId: int)
    requires |effects| < |events|
    ensures forall k | k < |effects| ::
      Settles(events, effects + [e], k, taskId) <==> Settles(events, effects, k, taskId)
  {}

  lemma OutstandingBefore(events: seq<Event>, effects: seq<Effect>, e: Effect, i: int, j: int)
    requires |effects| < |events| && j <= |effects|
    ensures Outstanding(events, effects + [e], i, j) <==> Outstanding(events, effects, i, j)
  {
    if 0 <= i < j && Sends(events[i]) {
      SettlesSame(events, effects, e, events[i].taskId);
    }
  }

  lemma OutstandingNow(events: seq<Event>, effects: seq<Effect>, e: Effect, i: int)
    requires |effects| < |events|
    ensures var n := |effects|;
      Outstanding(events, effects + [e], i, n + 1) <==>
        || (i == n && Sends(events[n]) && e.Sent?)
        || (Outstanding(events, effects, i, n)
            && e != Delivered(events[i].taskId) && events[n] != TaskEnd(events[i].taskId))
  {
    var n := |effects|;
    if 0 <= i < n && Sends(events[i]) {
      var t := events[i].taskId;
      SettlesSame(events, effects, e, t);
      assert Settles(events, effects + [e], n, t) <==> e == Delivered(t) || events[n] == TaskEnd(t);
    }
  }

  /** The packet of the event goes out: that of a connection always, that of a request if it was written. */
  predicate Goes(event: Event) {
    event.Connect? || (event.Issue? && event.written)
  }

  /** An event whose packet goes out adds its task to the list, and one outstanding packet. */
  lemma TrackSend(events: seq<Event>, effects: seq<Effect>, w: seq<Waiting>, at: seq<int>, number: int)
    requires Tracked(events, effects, w, at) && |effects| < |events| && Goes(events[|effects|])
    ensures var event := events[|effects|];
      var (w', e) := After(w, event, number);
      && e.Sent? && w' == w + [Waiting(e.packetSeq, event.taskId)]
      && Tracked(events, effects + [e], w', at + [|effects|])
  {
    var e := After(w, events[|effects|], number).1;
    forall i ensures Outstanding(events, effects + [e], i, |effects| + 1) <==>
                     i == |effects| || Outstanding(events, effects, i, |effects|) {
      OutstandingNow(events, effects, e, i);
    }
    forall i | Outstanding(events, effects + [e], i, |effects| + 1) ensures i in at + [|effects|] {}
  }

  /** An event that neither sends, delivers nor ends a waiting task changes nothing. */
  lemma TrackIdle(events: seq<Event>, effects: seq<Effect>, w: seq<Waiting>, at: seq<int>, e: Effect)
    requires Tracked(events, effects, w, at) && |effects| < |events|
    requires !e.Sent? && !e.Delivered?
    requires events[|effects|].TaskEnd? ==>
      forall x | 0 <= x < |w| :: w[x].taskId != events[|effects|].taskId
    ensures Tracked(events, effects + [e], w, at)
  {
    forall i ensures Outstanding(events, effects + [e], i, |effects| + 1) <==>
                     Outstanding(events, effects, i, |effects|) {
      OutstandingNow(events, effects, e, i);
      if Outstanding(events, effects, i, |effects|) {
        var x :| 0 <= x < |at| && at[x] == i;
      }
    }
  }

  lemma WithoutKeepsRest(at: seq<int>, k: nat)
    requires k < |at| && forall x, y | 0 <= x < y < |at| :: at[x] != at[y]
    ensures var rest := Without(at, k);
      && |rest| == |at| - 1
      && (forall x {:trigger rest[x]} | 0 <= x < |rest| :: rest[x] == at[if x < k then x else x + 1])
      && (forall x, y | 0 <= x < y < |rest| :: rest[x] != rest[y])
      && forall i {:trigger i in rest} :: i in rest <==> i in at && i != at[k]
  {
    var rest := Without(at, k);
    forall i | i in at && i != at[k] ensures i in rest {
      var x :| 0 <= x < |at| && at[x] == i;
      assert rest[if x < k then x else x - 1] == i;
    }
  }

  /** Of the outstanding packets exactly one is settled: every task sends once. */
  lemma SettlesOne(events: seq<Event>, effects: seq<Effect>, e: Effect, i: int, sent: int)
    requires |effects| < |events| && OneConnection(events) && Outstanding(events, effects, sent, |effects|)
    requires var id := events[sent].taskId;
      (e == Delivered(id) && !events[|effects|].TaskEnd?) || (e == Nothing && events[|effects|] == TaskEnd(id))
    ensures Outstanding(events, effects + [e], i, |effects| + 1) <==>
      Outstanding(events, effects, i, |effects|) && i != sent
  {
    OutstandingNow(events, effects, e, i);
    if Outstanding(events, effects, i, |effects|) && i != sent {
      assert events[i].taskId != events[sent].taskId;
    }
  }

  /** Delivering to, or ending, a waiting task takes exactly its packet out. */
  lemma TrackDrop(events: seq<Event>, effects: seq<Effect>, w: seq<Waiting>, at: seq<int>, e: Effect, k: nat)
    requires Tracked(events, effects, w, at) && |effects| < |events| && OneConnection(events) && k < |w|
    requires e == Delivered(w[k].taskId) || (e == Nothing && events[|effects|] == TaskEnd(w[k].taskId))
    requires e.Delivered? ==> !events[|effects|].TaskEnd?
    ensures Tracked(events, effects + [e], Without(w, k), Without(at, k))
  {
    WithoutKeepsRest(at, k);
    forall i ensures Outstanding(events, effects + [e], i, |effects| + 1) <==>
                     Outstanding(events, effects, i, |effects|) && i != at[k] {
      SettlesOne(events, effects, e, i, at[k]);
    }
    forall x | 0 <= x < |w| - 1
      ensures Without(w, k)[x] == w[if x < k then x else x + 1] && Without(at, k)[x] in Without(at, k)
    {}
  }

  ghost predicate RightSoFar(events: seq<Event>, effects: seq<Effect>) {
    && |effects| <= |events|
    && forall j | 0 <= j < |effects| ::
         DeliveredRight(events, effects, j) && DroppedRight(events, effects, j) && NumberedRight(events, effects, j)
  }

  /** Handling one event keeps the waiting list equal to the outstanding packets. */
  lemma TrackStep(events: seq<Event>, effects: seq<Effect>, w: seq<Waiting>, at: seq<int>, number: int)
    returns (at': seq<int>)
    requires OneConnection(events) && Tracked(events, effects, w, at) && |effects| < |events|
    ensures var (w', e) := After(w, events[|effects|], number);
      Tracked(events, effects + [e], w', at')
  {
    var event := events[|effects|];
    var (w', e) := After(w, event, number);
    if Goes(event) {
      TrackSend(events, effects, w, at, number);
      at' := at + [|effects|];
    } else if e.Delivered? {
      var k := IndexOfSeq(w, event.packetSeq);
      TrackDrop(events, effects, w, at, e, k);
      at' := Without(at, k);
    } else if event.TaskEnd? && IndexOfTask(w, event.taskId) < |w| {
      TrackDrop(events, effects, w, at, e, IndexOfTask(w, event.taskId));
      at' := Without(at, IndexOfTask(w, event.taskId));
    } else {
      TrackIdle(events, effects, w, at, e);
      at' := at;
    }
  }

  lemma RightKept(events: seq<Event>, effects: seq<Effect>, e: Effect, j: int)
    requires |effects| < |events| && 0 <= j < |effects|
    requires DeliveredRight(events, effects, j) && DroppedRight(events, effects, j) && NumberedRight(events, effects, j)
    ensures var effects' := effects + [e];
      DeliveredRight(events, effects', j) && DroppedRight(events, effects', j) && NumberedRight(events, effects', j)
  {
    forall i ensures Outstanding(events, effects + [e], i, j) <==> Outstanding(events, effects, i, j) {
      OutstandingBefore(events, effects, e, i, j);
    }
  }

  lemma RightStep(events: seq<Event>, effects: seq<Effect>, w: seq<Waiting>, at: seq<int>, drawn: nat)
    requires Tracked(events, effects, w, at) && |effects| < |events| && RightSoFar(events, effects)
    requires events[|effects|].Connect? || drawn == DrawnBefore(events, |effects|)
    ensures RightSoFar(events, effects + [After(w, events[|effects|], Nth(drawn)).1])
  {
    var n, event := |effects|, events[|effects|];
    var (w', e) := After(w, event, Nth(drawn));
    var effects' := effects + [e];
    forall j | 0 <= j < n
      ensures DeliveredRight(events, effects', j) && DroppedRight(events, effects', j)
      ensures NumberedRight(events, effects', j)
    {
      RightKept(events, effects, e, j);
    }
    forall i ensures Outstanding(events, effects', i, n) <==> Outstanding(events, effects, i, n) {
      OutstandingBefore(events, effects, e, i, n);
    }
    if IsReply(event) {
      ReplyRight(events, effects, w, at, e);
    }
  }

  lemma ReplyRight(events: seq<Event>, effects: seq<Effect>, w: seq<Waiting>, at: seq<int>, e: Effect)
    requires Tracked(events, effects, w, at) && |effects| < |events| && IsReply(events[|effects|])
    requires e == After(w, events[|effects|], 0).1
    ensures DeliveredRight(events, effects + [e], |effects|) && DroppedRight(events, effects + [e], |effects|)
  {
    var n := |effects|;
    var q := events[n].packetSeq;
    var k := IndexOfSeq(w, q);
    forall i ensures Outstanding(events, effects + [e], i, n) <==> Outstanding(events, effects, i, n) {
      OutstandingBefore(events, effects, e, i, n);
    }
    if k < |w| {
      assert Outstanding(events, effects + [e], at[k], n);
    } else {
      forall i | Outstanding(events, effects, i, n) ensures effects[i] != Sent(q) {
        assert i in at;
        var x :| 0 <= x < |at| && at[x] == i;
      }
    }
  }

  lemma EffectIsPlain(events: seq<Event>, effects: seq<Effect>, j: int)
    requires RightSoFar(events, effects) && 0 <= j < |effects|
    ensures effects[j].Sent? <==> events[j].Connect? || (events[j].Issue? && events[j].written)
    ensures effects[j] == Signalled <==> events[j].Packet? && events[j].kind == Signal
    ensures effects[j].Delivered? ==> events[j].Packet? && (events[j].kind == Response || events[j].kind == Hello)
  {
    assert NumberedRight(events, effects, j) && DeliveredRight(events, effects, j);
  }

  /** Every run of one connection: a reply is delivered only to the task that sent its number and whose
      packet is still outstanding, so at most once and never after the task ended; a reply that reaches
      nobody answers no outstanding packet; and the numbers follow the cycle. A packet goes out exactly for a
      connection and for a request that was written. */
  method Run(events: seq<Event>) returns (effects: seq<Effect>)
    requires OneConnection(events)
    ensures |effects| == |events| && RightSoFar(events, effects)
    ensures forall j | 0 <= j < |events| ::
      && (effects[j].Sent? <==> events[j].Connect? || (events[j].Issue? && events[j].written))
      && (effects[j] == Signalled <==> events[j].Packet? && events[j].kind == Signal)
      && (effects[j].Delivered? ==> events[j].Packet? && (events[j].kind == Response || events[j].kind == Hello))
  {
    var client := new ClientState();
    effects := [];
    ghost var at: seq<int> := [];
    for j := 0 to |events|
      invariant fresh(client) && client.Valid() && |effects| == j
      invariant Tracked(events, effects, client.waiting, at) && RightSoFar(events, effects)
      invariant client.drawn == DrawnBefore(events, j)
    {
      ghost var w := client.waiting;
      RightStep(events, effects, w, at, client.drawn);
      at := TrackStep(events, effects, w, at, Nth(client.drawn));
      var effect := client.Handle(events[j]);
      effects := effects + [effect];
    }
    forall j | 0 <= j < |events|
      ensures effects[j].Sent? <==> events[j].Connect? || (events[j].Issue? && events[j].written)
      ensures effects[j] == Signalled <==> events[j].Packet? && events[j].kind == Signal
      ensures effects[j].Delivered? ==> events[j].Packet? && (events[j].kind == Response || events[j].kind == Hello)
    {
      EffectIsPlain(events, effects, j);
    }
  }

  /** The number of a request counts the requests and goodbyes before it, whether or not they were written. */
  lemma {:induction false} DrawnCounts(events: seq<Event>, n: nat)
    requires n <= |events|
    ensures DrawnBefore(events, n) == |set i | 0 <= i < n && (events[i].Issue? || events[i].SendBye?)|
  {
    if n > 0 {
      DrawnCounts(events, n - 1);
      var before := set i | 0 <= i < n - 1 && (events[i].Issue? || events[i].SendBye?);
      assert (set i | 0 <= i < n && (events[i].Issue? || events[i].SendBye?)) ==
        if events[n - 1].Issue? || events[n - 1].SendBye? then before + {n - 1} else before;
    }
  }

  /** A task gets at most one reply, and none after it has ended. */
  lemma DeliveredOnce(events: seq<Event>, effects: seq<Effect>, i: int, j: int, k: int)
    requires OneConnection(events) && RightSoFar(events, effects) && 0 <= i < j < k < |effects| && Sends(events[i])
    requires effects[j] == Delivered(events[i].taskId) || events[j] == TaskEnd(events[i].taskId)
    ensures effects[k] != Delivered(events[i].taskId)
  {
    assert DeliveredRight(events, effects, k);
    assert Settles(events, effects, j, events[i].taskId);
  }

  // ---------- distinct numbers ----------

  /** No packet is still outstanding when the numbers come round to it again. */
  ghost predicate NoneOutlivesCycle(events: seq<Event>, effects: seq<Effect>) {
    forall i, j | Outstanding(events, effects, i, j) && j < |events| && events[i].Issue? && events[j].Issue? ::
      DrawnBefore(events, j) - DrawnBefore(events, i) < CYCLE
  }

  lemma {:induction false} DrawnGrows(events: seq<Event>, i: nat, j: nat)
    requires i < j <= |events|
    ensures DrawnBefore(events, i) <= DrawnBefore(events, j)
    ensures Draws(events[i]) ==> DrawnBefore(events, i) < DrawnBefore(events, j)
    decreases j - i
  {
    if i + 1 < j {
      DrawnGrows(events, i, j - 1);
    }
  }

  /** In such a run the outstanding packets carry different numbers at every moment. */
  lemma OutstandingAreDistinct(events: seq<Event>, effects: seq<Effect>, i: int, j: int, now: int)
    requires OneConnection(events) && RightSoFar(events, effects) && NoneOutlivesCycle(events, effects)
    requires i < j && Outstanding(events, effects, i, now) && Outstanding(events, effects, j, now)
    ensures effects[i] != effects[j]
  {
    assert NumberedRight(events, effects, i) && NumberedRight(events, effects, j);
    assert Outstanding(events, effects, i, j);
    var m := DrawnBefore(events, j);
    assert Nth(m) >= 2;
    if events[i].Issue? {
      DrawnGrows(events, i, j);
      NthRepeats(DrawnBefore(events, i), m);
    }
  }

  /** In such a run a response or greeting reaches the task whose outstanding packet carries its number. */
  lemma ReplyReachesSender(events: seq<Event>, effects: seq<Effect>, i: int, j: int)
    requires OneConnection(events) && RightSoFar(events, effects) && NoneOutlivesCycle(events, effects)
    requires Outstanding(events, effects, i, j) && j < |effects| && events[j].Packet?
    requires events[j].kind in {Response, Hello} && effects[i] == Sent(events[j].packetSeq)
    ensures effects[j] == Delivered(events[i].taskId)
  {
    assert DeliveredRight(events, effects, j) && DroppedRight(events, effects, j);
    var x :| Outstanding(events, effects, x, j)
      && effects[x] == Sent(events[j].packetSeq) && effects[j] == Delivered(events[x].taskId);
    if x < i {
      OutstandingAreDistinct(events, effects, x, i, j);
    } else if i < x {
      OutstandingAreDistinct(events, effects, i, x, j);
    }
  }
}
