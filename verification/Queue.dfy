/** The bounded queue of src/ipc/queue.c: a ring of 128 slots under a lock, whose producers and consumers
    park on a condition variable. Every stretch of code between two waits is one step here. */
module Queue {
  import opened Wrappers

  const CAP := 128 // REQUEST_QUEUE_CAP; one slot always stays free

  datatype Ring = Ring(slots: seq<Option<int>>, head: int, tail: int)

  function Next(i: int): int {
    (i + 1) % CAP
  }

  function Size(r: Ring): int {
    (r.tail - r.head + CAP) % CAP
  }

  function Slot(r: Ring, i: int): int {
    if r.head + i < CAP then r.head + i else r.head + i - CAP
  }

  function Empty(): Ring {
    Ring(seq(CAP, _ => None), 0, 0)
  }

  ghost predicate Shaped(r: Ring) {
    |r.slots| == CAP && 0 <= r.head < CAP && 0 <= r.tail < CAP
  }

  /** The ring holds exactly `items`, oldest first, and every slot outside head..tail is null. */
  ghost predicate Holds(r: Ring, items: seq<int>) {
    && Shaped(r)
    && |items| == Size(r)
    && (forall i {:trigger items[i]} | 0 <= i < |items| :: r.slots[Slot(r, i)] == Some(items[i]))
    && forall i {:trigger Slot(r, i)} | |items| <= i < CAP :: r.slots[Slot(r, i)] == None
  }

  function Commit(r: Ring, newTail: int, item: int): Ring
    requires 0 <= r.tail < |r.slots|
  {
    Ring(r.slots[r.tail := Some(item)], r.head, newTail)
  }

  function Taken(r: Ring): Ring
    requires 0 <= r.head < |r.slots|
  {
    Ring(r.slots[r.head := None], Next(r.head), r.tail)
  }

  /** Storing an item appends it exactly when the tail the producer computed is still the next one. */
  lemma CommitAppends(r: Ring, items: seq<int>, newTail: int, item: int)
    requires Holds(r, items) && 0 <= newTail < CAP && newTail != r.head
    ensures Holds(Commit(r, newTail, item), items + [item]) <==> newTail == Next(r.tail)
    ensures r.slots[r.tail] == None
  {
    var r' := Commit(r, newTail, item);
    assert Slot(r, |items|) == r.tail;
    if newTail == Next(r.tail) {
      assert Size(r') == |items| + 1;
      forall i | |items| + 1 <= i < CAP ensures r'.slots[Slot(r', i)] == None {
        assert Slot(r, i) == Slot(r', i) != r.tail;
      }
      forall i | 0 <= i < |items| ensures r'.slots[Slot(r', i)] == Some(items[i]) {
        assert Slot(r, i) != r.tail;
      }
    }
  }

  lemma TakenDropsFirst(r: Ring, items: seq<int>)
    requires Holds(r, items) && items != []
    ensures r.head != r.tail && r.slots[r.head] == Some(items[0]) && Holds(Taken(r), items[1..])
  {
    var r' := Taken(r);
    assert Slot(r, 0) == r.head;
    forall i | 0 <= i < CAP - 1 ensures Slot(r', i) == Slot(r, i + 1) {}
    assert Slot(r', CAP - 1) == r.head;
    forall i | |items| - 1 <= i < CAP ensures r'.slots[Slot(r', i)] == None {
      if i < CAP - 1 {
        assert r.slots[Slot(r, i + 1)] == None;
      }
    }
  }

  /** A full ring from which one item is taken, to which another is added, and into which a producer that had
      computed the tail before stores a third: nothing moves but the slot behind the contents. */
  lemma OvertakenRing(r: Ring, items: seq<int>, late: int, other: int)
    requires Holds(r, items) && |items| == CAP - 1
    ensures var newTail := Next(r.tail);
      var overtaken := Commit(Taken(r), Next(r.tail), other);
      && newTail == r.head != overtaken.head && Taken(r).slots[r.tail] == None
      && Holds(overtaken, items[1..] + [other]) && overtaken.slots[overtaken.tail] == None
      && Commit(overtaken, newTail, late) == overtaken.(slots := overtaken.slots[overtaken.tail := Some(late)])
  {
    TakenDropsFirst(r, items);
    CommitAppends(Taken(r), items[1..], Next(r.tail), other);
    assert Slot(Commit(Taken(r), Next(r.tail), other), CAP - 1) == Commit(Taken(r), Next(r.tail), other).tail;
  }

  // ---------- threads ----------

  datatype Event =
    | Push(thread: int, item: int, blocking: bool)
    | Pop(thread: int, blocking: bool)
    | Wake(thread: int)

  datatype Answer = Pushed(item: int) | Popped(item: int) | PoppedNull | AssertFails | Refused | Waits | Nothing

  /** A producer keeps a ticket: in the ring the tail it computed, in the plain queue the number of pushes
      that had been made when it arrived. */
  datatype Parked = Producer(item: int, ticket: int) | Consumer

  datatype System = System(ring: Ring, waiting: map<int, Parked>)

  datatype Fifo = Fifo(items: seq<int>, pushed: nat, waiting: map<int, Parked>)

  /** What the code relies on in every state, also after an overtaken producer has been woken. */
  ghost predicate Runs(s: System) {
    && Shaped(s.ring)
    && forall t | t in s.waiting && s.waiting[t].Producer? :: 0 <= s.waiting[t].ticket < CAP
  }

  function TryPush(s: System, thread: int, item: int, newTail: int, blocking: bool): (System, Answer)
    requires 0 <= s.ring.tail < |s.ring.slots|
  {
    if newTail == s.ring.head then
      (if blocking then System(s.ring, s.waiting[thread := Producer(item, newTail)]) else s,
       if blocking then Waits else Refused)
    else if s.ring.slots[s.ring.tail] != None then (s, AssertFails)
    else (System(Commit(s.ring, newTail, item), s.waiting - {thread}), Pushed(item))
  }

  function TryPop(s: System, thread: int, blocking: bool): (System, Answer)
    requires 0 <= s.ring.head < |s.ring.slots|
  {
    if s.ring.head == s.ring.tail then
      (if blocking then s.(waiting := s.waiting[thread := Consumer]) else s, if blocking then Waits else Refused)
    else
      (System(Taken(s.ring), s.waiting - {thread}),
       match s.ring.slots[s.ring.head] case Some(item) => Popped(item) case None => PoppedNull)
  }

  /** One step of one thread on the ring. A parked thread can only be woken. */
  function Step(s: System, e: Event): (r: (System, Answer))
    requires Runs(s)
    ensures Runs(r.0)
  {
    if e.Wake? != (e.thread in s.waiting) then (s, Nothing)
    else match e
      case Push(t, item, blocking) => TryPush(s, t, item, Next(s.ring.tail), blocking)
      case Pop(t, blocking) => TryPop(s, t, blocking)
      case Wake(t) =>
        match s.waiting[t]
        case Producer(item, newTail) => TryPush(s, t, item, newTail, true)
        case Consumer => TryPop(s, t, true)
  }

  /** The same step on a plain queue of 127 items. */
  function FifoPush(f: Fifo, thread: int, item: int, since: int, blocking: bool): (Fifo, Answer) {
    if |f.items| == CAP - 1 then
      (if blocking then f.(waiting := f.waiting[thread := Producer(item, since)]) else f,
       if blocking then Waits else Refused)
    else (Fifo(f.items + [item], f.pushed + 1, f.waiting - {thread}), Pushed(item))
  }

  function FifoPop(f: Fifo, thread: int, blocking: bool): (Fifo, Answer) {
    if f.items == [] then
      (if blocking then f.(waiting := f.waiting[thread := Consumer]) else f, if blocking then Waits else Refused)
    else (Fifo(f.items[1..], f.pushed, f.waiting - {thread}), Popped(f.items[0]))
  }

  function FifoStep(f: Fifo, e: Event): (Fifo, Answer) {
    if e.Wake? != (e.thread in f.waiting) then (f, Nothing)
    else match e
      case Push(t, item, blocking) => FifoPush(f, t, item, f.pushed, blocking)
      case Pop(t, blocking) => FifoPop(f, t, blocking)
      case Wake(t) =>
        match f.waiting[t]
        case Producer(item, since) => FifoPush(f, t, item, since, true)
        case Consumer => FifoPop(f, t, true)
  }

  ghost predicate SameParked(p: Parked, q: Parked) {
    match p
    case Producer(item, newTail) => q.Producer? && q.item == item && newTail == Next(q.ticket)
    case Consumer => q.Consumer?
  }

  /** The ring stands for the plain queue: same contents, same parked threads, and the tail counts the pushes. */
  ghost predicate Agree(s: System, f: Fifo) {
    && Holds(s.ring, f.items)
    && s.ring.tail == f.pushed % CAP
    && s.waiting.Keys == f.waiting.Keys
    && forall t | t in s.waiting :: SameParked(s.waiting[t], f.waiting[t])
  }

  /** No other push was made while the woken producer was parked, or a multiple of 128 of them. */
  predicate Undisturbed(f: Fifo, e: Event) {
    e.Wake? && e.thread in f.waiting && f.waiting[e.thread].Producer? ==>
      (f.pushed - f.waiting[e.thread].ticket) % CAP == 0
  }

  lemma StaleTail(s: System, f: Fifo, since: int)
    requires Agree(s, f)
    ensures Next(since) == Next(s.ring.tail) <==> (f.pushed - since) % CAP == 0
    ensures Next(s.ring.tail) == s.ring.head <==> |f.items| == CAP - 1
    ensures Next(s.ring.tail) == (f.pushed + 1) % CAP
  {
  }

  lemma PushAgrees(s: System, f: Fifo, t: int, item: int, newTail: int, since: int, blocking: bool)
    requires Agree(s, f) && newTail == Next(since)
    requires (f.pushed - since) % CAP == 0
    ensures TryPush(s, t, item, newTail, blocking).1 == FifoPush(f, t, item, since, blocking).1
    ensures Agree(TryPush(s, t, item, newTail, blocking).0, FifoPush(f, t, item, since, blocking).0)
  {
    StaleTail(s, f, since);
    if newTail != s.ring.head {
      CommitAppends(s.ring, f.items, newTail, item);
    }
  }

  lemma StalePushDiffers(s: System, f: Fifo, t: int, item: int, newTail: int, since: int)
    requires Agree(s, f) && newTail == Next(since)
    requires (f.pushed - since) % CAP != 0
    ensures TryPush(s, t, item, newTail, true).1 == FifoPush(f, t, item, since, true).1 ==>
      !Agree(TryPush(s, t, item, newTail, true).0, FifoPush(f, t, item, since, true).0)
  {
    StaleTail(s, f, since);
    if newTail != s.ring.head {
      CommitAppends(s.ring, f.items, newTail, item);
    }
  }

  lemma PopAgrees(s: System, f: Fifo, t: int, blocking: bool)
    requires Agree(s, f)
    ensures TryPop(s, t, blocking).1 == FifoPop(f, t, blocking).1
    ensures Agree(TryPop(s, t, blocking).0, FifoPop(f, t, blocking).0)
  {
    if f.items != [] {
      TakenDropsFirst(s.ring, f.items);
    }
  }

  /** The ring and the plain queue take the same step. */
  ghost predicate InStep(s: System, f: Fifo, e: Event)
    requires Runs(s)
  {
    Step(s, e).1 == FifoStep(f, e).1 && Agree(Step(s, e).0, FifoStep(f, e).0)
  }

  /** A step of the ring is a step of the plain queue exactly when it wakes no overtaken producer. */
  lemma StepRefines(s: System, f: Fifo, e: Event)
    requires Agree(s, f) && Runs(s)
    ensures InStep(s, f, e) <==> Undisturbed(f, e)
  {
    if e.Wake? == (e.thread in s.waiting) {
      match e
      case Push(t, item, blocking) =>
        StaleTail(s, f, f.pushed);
        PushAgrees(s, f, t, item, Next(s.ring.tail), f.pushed, blocking);
      case Pop(t, blocking) =>
        PopAgrees(s, f, t, blocking);
      case Wake(t) =>
        assert SameParked(s.waiting[t], f.waiting[t]);
        match s.waiting[t]
        case Producer(item, newTail) =>
          if Undisturbed(f, e) {
            PushAgrees(s, f, t, item, newTail, f.waiting[t].ticket, true);
          } else {
            StalePushDiffers(s, f, t, item, newTail, f.waiting[t].ticket);
          }
        case Consumer =>
          PopAgrees(s, f, t, true);
    }
  }

  /** Once an item has been stored behind the contents of a full ring, the contents are as before, the oldest comes
      out, and the next push finds the slot taken. */
  lemma AfterLateStore(s: System, r: Ring, items: seq<int>, late: int, t: int, more: int)
    requires Runs(s) && t !in s.waiting && Holds(r, items) && |items| == CAP - 1
    requires s.ring == r.(slots := r.slots[r.tail := Some(late)])
    ensures Size(s.ring) == Size(r)
    ensures forall i | 0 <= i < CAP - 1 :: s.ring.slots[Slot(s.ring, i)] == Some(items[i])
    ensures var (s', a) := Step(s, Pop(t, false));
      a == Popped(items[0]) && Step(s', Push(t, more, false)).1 == AssertFails
  {
    TakenDropsFirst(r, items);
    forall i | 0 <= i < CAP - 1 ensures s.ring.slots[Slot(s.ring, i)] == Some(items[i]) {
      assert Slot(r, i) != r.tail;
    }
  }

  /** On a full queue a producer parks, a consumer takes one item, and another producer pushes first. The parked one
      then reports its item as queued, but the queue holds what it held before, the next item comes out as if nothing
      had happened, and the push after it finds the slot taken: the assertion of the source fails. */
  lemma OvertakenItemIsLost(s: System, items: seq<int>, slow: int, quick: int, late: int, other: int, more: int)
    requires Runs(s) && Holds(s.ring, items) && |items| == 127
    requires slow != quick && slow !in s.waiting && quick !in s.waiting
    ensures var (s1, a1) := Step(s, Push(slow, late, true));
      var (s2, a2) := Step(s1, Pop(quick, false));
      var (s3, a3) := Step(s2, Push(quick, other, false));
      var (s4, a4) := Step(s3, Wake(slow));
      var (s5, a5) := Step(s4, Pop(quick, false));
      var (s6, a6) := Step(s5, Push(quick, more, false));
      && a1 == Waits && a2 == Popped(items[0]) && a3 == Pushed(other)
      && a4 == Pushed(late) && Size(s4.ring) == Size(s3.ring)
      && (forall i | 0 <= i < 127 :: s4.ring.slots[Slot(s4.ring, i)] == Some((items[1..] + [other])[i]))
      && a5 == Popped(items[1]) && a6 == AssertFails
  {
    OvertakenRing(s.ring, items, late, other);
    TakenDropsFirst(s.ring, items);
    var s3 := Step(Step(Step(s, Push(slow, late, true)).0, Pop(quick, false)).0, Push(quick, other, false)).0;
    assert s3.ring == Commit(Taken(s.ring), Next(s.ring.tail), other);
    var s4 := Step(s3, Wake(slow)).0;
    AfterLateStore(s4, s3.ring, items[1..] + [other], late, quick, more);
  }

  // ---------- whole runs ----------

  function FifoRun(f: Fifo, events: seq<Event>): (Fifo, seq<Answer>)
    decreases |events|
  {
    if events == [] then (f, [])
    else
      var (f', answer) := FifoStep(f, events[0]);
      var (end, answers) := FifoRun(f', events[1..]);
      (end, [answer] + answers)
  }

  predicate AllUndisturbed(f: Fifo, events: seq<Event>)
    decreases |events|
  {
    events == [] || (Undisturbed(f, events[0]) && AllUndisturbed(FifoStep(f, events[0]).0, events[1..]))
  }

  function Start(): Fifo {
    Fifo([], 0, map[])
  }

  function PushLog(answers: seq<Answer>): seq<int> {
    if answers == [] then []
    else if answers[0].Pushed? then [answers[0].item] + PushLog(answers[1..])
    else PushLog(answers[1..])
  }

  function PopLog(answers: seq<Answer>): seq<int> {
    if answers == [] then []
    else if answers[0].Popped? then [answers[0].item] + PopLog(answers[1..])
    else PopLog(answers[1..])
  }

  ghost predicate Moves(items: seq<int>, answer: Answer, items': seq<int>) {
    if answer.Pushed? then items' == items + [answer.item]
    else if answer.Popped? then items == [answer.item] + items'
    else items' == items
  }

  lemma FifoStepMoves(f: Fifo, e: Event)
    ensures Moves(f.items, FifoStep(f, e).1, FifoStep(f, e).0.items)
  {
  }

  lemma MovesConserve(items: seq<int>, answer: Answer, items': seq<int>, answers: seq<Answer>, end: seq<int>)
    requires Moves(items, answer, items') && items' + PushLog(answers) == PopLog(answers) + end
    ensures items + PushLog([answer] + answers) == PopLog([answer] + answers) + end
  {
    assert ([answer] + answers)[1..] == answers;
    if answer.Pushed? {
      assert items + ([answer.item] + PushLog(answers)) == items' + PushLog(answers);
    } else if answer.Popped? {
      assert items + PushLog(answers) == [answer.item] + (items' + PushLog(answers));
      assert [answer.item] + (PopLog(answers) + end) == ([answer.item] + PopLog(answers)) + end;
    }
  }

  /** The plain queue loses, repeats and reorders nothing: what was in it and what was pushed is what was
      popped and what is left, in that order. */
  lemma {:induction false} FifoConserves(f: Fifo, events: seq<Event>)
    ensures var (end, answers) := FifoRun(f, events);
      f.items + PushLog(answers) == PopLog(answers) + end.items
    decreases |events|
  {
    if events != [] {
      var (f', answer) := FifoStep(f, events[0]);
      var (end, answers) := FifoRun(f', events[1..]);
      FifoStepMoves(f, events[0]);
      FifoConserves(f', events[1..]);
      MovesConserve(f.items, answer, f'.items, answers, end.items);
    }
  }

  lemma {:induction false} FifoIsBounded(f: Fifo, events: seq<Event>)
    requires |f.items| <= 127
    ensures |FifoRun(f, events).0.items| <= 127
    decreases |events|
  {
    if events != [] {
      FifoIsBounded(FifoStep(f, events[0]).0, events[1..]);
    }
  }

  lemma {:induction false} RunSnoc(f: Fifo, events: seq<Event>, e: Event)
    ensures var (mid, answers) := FifoRun(f, events);
      FifoRun(f, events + [e]) == (FifoStep(mid, e).0, answers + [FifoStep(mid, e).1])
    ensures AllUndisturbed(f, events + [e]) <==>
      AllUndisturbed(f, events) && Undisturbed(FifoRun(f, events).0, e)
    decreases |events|
  {
    if events == [] {
      assert events + [e] == [e] && [e][1..] == [];
      var (f', answer) := FifoStep(f, e);
      assert FifoRun(f, [e]) == (f', [answer] + []);
      assert [answer] + [] == [] + [answer];
    } else {
      assert (events + [e])[1..] == events[1..] + [e];
      var (f', answer) := FifoStep(f, events[0]);
      var (mid, answers) := FifoRun(f', events[1..]);
      RunSnoc(f', events[1..], e);
      assert [answer] + (answers + [FifoStep(mid, e).1]) == ([answer] + answers) + [FifoStep(mid, e).1];
    }
  }

  /** A run of the first events gives the first answers. */
  lemma {:induction false} AnswerAt(f: Fifo, events: seq<Event>, j: nat)
    requires j < |events|
    ensures |FifoRun(f, events).1| == |events|
    ensures FifoRun(f, events).1[..j] == FifoRun(f, events[..j]).1
    ensures FifoRun(f, events).1[j] == FifoStep(FifoRun(f, events[..j]).0, events[j]).1
    decreases |events|
  {
    var n := |events| - 1;
    assert events == events[..n] + [events[n]];
    RunSnoc(f, events[..n], events[n]);
    if j < n {
      AnswerAt(f, events[..n], j);
      assert events[..n][..j] == events[..j];
    } else if n > 0 {
      AnswerAt(f, events[..n], n - 1);
    }
  }

  /** The last answer the thread got before event j, apart from those to events it could not take part in, was to
      wait. */
  ghost predicate IsParked(events: seq<Event>, answers: seq<Answer>, j: int, t: int)
    requires 0 <= j <= |answers| == |events|
  {
    exists i | 0 <= i < j :: WaitsSince(events, answers, i, j, t)
  }

  ghost predicate WaitsSince(events: seq<Event>, answers: seq<Answer>, i: int, j: int, t: int)
    requires 0 <= i < j <= |answers| == |events|
  {
    && events[i].thread == t && answers[i] == Waits
    && forall k | i < k < j && events[k].thread == t :: answers[k] == Nothing
  }

  lemma StepParks(f: Fifo, e: Event, t: int)
    ensures var (f', answer) := FifoStep(f, e);
      t in f'.waiting <==> if t == e.thread && answer != Nothing then answer == Waits else t in f.waiting
  {}

  lemma ParkedNext(events: seq<Event>, answers: seq<Answer>, j: nat, t: int)
    requires j < |answers| == |events|
    ensures IsParked(events, answers, j + 1, t) <==>
      if events[j].thread == t && answers[j] != Nothing then answers[j] == Waits else IsParked(events, answers, j, t)
  {
    if events[j].thread == t && answers[j] != Nothing {
      assert answers[j] == Waits ==> WaitsSince(events, answers, j, j + 1, t);
    } else {
      if i :| 0 <= i < j && WaitsSince(events, answers, i, j, t) {
        assert WaitsSince(events, answers, i, j + 1, t);
      }
      var n := j + 1;
      if i :| 0 <= i < n && WaitsSince(events, answers, i, n, t) {
        assert WaitsSince(events, answers, i, j, t);
      }
    }
  }

  lemma {:induction false} WaitingIsParked(events: seq<Event>, j: nat, t: int)
    requires j <= |events| == |FifoRun(Start(), events).1|
    ensures t in FifoRun(Start(), events[..j]).0.waiting <==> IsParked(events, FifoRun(Start(), events).1, j, t)
  {
    if j == 0 {
      assert events[..0] == [];
    } else {
      WaitingIsParked(events, j - 1, t);
      ParkedNext(events, FifoRun(Start(), events).1, j - 1, t);
      AnswerAt(Start(), events, j - 1);
      assert events[..j] == events[..j - 1] + [events[j - 1]];
      RunSnoc(Start(), events[..j - 1], events[j - 1]);
      StepParks(FifoRun(Start(), events[..j - 1]).0, events[j - 1], t);
    }
  }

  /** A parked thread can only be woken, and only a parked thread can. */
  lemma ParkedIsWoken(events: seq<Event>, j: nat)
    requires j < |events|
    ensures var answers := FifoRun(Start(), events).1;
      && |answers| == |events|
      && (answers[j] == Nothing <==> events[j].Wake? != IsParked(events, answers, j, events[j].thread))
  {
    AnswerAt(Start(), events, j);
    WaitingIsParked(events, j, events[j].thread);
  }

  /** How many items are in the queue, by the answers given so far. */
  function Inside(answers: seq<Answer>): int {
    |PushLog(answers)| - |PopLog(answers)|
  }

  /** A push is answered by waiting or refused exactly when 127 more items were pushed than popped, and a pop exactly
      when as many; which of the two is the caller's choice, and threads woken again wait. */
  lemma FullAndEmpty(events: seq<Event>, j: nat)
    requires j < |events|
    ensures var answers := FifoRun(Start(), events).1;
      && |answers| == |events| && 0 <= Inside(answers[..j]) <= 127
      && (events[j].Push? && answers[j] != Nothing ==>
            answers[j] == if Inside(answers[..j]) < 127 then Pushed(events[j].item)
                          else if events[j].blocking then Waits else Refused)
      && (events[j].Pop? && answers[j] != Nothing ==>
            if Inside(answers[..j]) > 0 then answers[j].Popped?
            else answers[j] == if events[j].blocking then Waits else Refused)
      && (events[j].Wake? && answers[j] == Waits ==> Inside(answers[..j]) in {0, 127})
      && (events[j].Wake? ==> answers[j] != Refused)
  {
    AnswerAt(Start(), events, j);
    FifoConserves(Start(), events[..j]);
    FifoIsBounded(Start(), events[..j]);
    var (f, answers) := FifoRun(Start(), events[..j]);
    assert |PushLog(answers)| == |PopLog(answers)| + |f.items|;
  }

  /** The queue and the threads parked on it. */
  class Lane {
    const data: array<Option<int>>
    var head: int
    var tail: int
    var waiting: map<int, Parked>

    ghost predicate Valid()
      reads this, data
    {
      data.Length == CAP && Runs(View())
    }

    ghost function View(): System
      reads this, data
    {
      System(Ring(data[..], head, tail), waiting)
    }

    constructor ()
      ensures Valid() && fresh(data) && View() == System(Empty(), map[])
    {
      data := new Option<int>[CAP](_ => None);
      head, tail, waiting := 0, 0, map[];
      new;
      assert data[..] == Empty().slots;
    }

    method CommitPush(thread: int, item: int, newTail: int, blocking: bool) returns (answer: Answer)
      requires Valid()
      modifies this, data
      ensures (View(), answer) == TryPush(old(View()), thread, item, newTail, blocking)
    {
      if newTail == head {
        if !blocking {
          return Refused;
        }
        waiting := waiting[thread := Producer(item, newTail)];
        return Waits;
      }
      if data[tail] != None {
        return AssertFails;
      }
      data[tail] := Some(item);
      tail := newTail;
      waiting := waiting - {thread};
      answer := Pushed(item);
    }

    method TakeFirst(thread: int, blocking: bool) returns (answer: Answer)
      requires Valid()
      modifies this, data
      ensures (View(), answer) == TryPop(old(View()), thread, blocking)
    {
      if head == tail {
        if !blocking {
          return Refused;
        }
        waiting := waiting[thread := Consumer];
        return Waits;
      }
      answer := match data[head] case Some(item) => Popped(item) case None => PoppedNull;
      data[head] := None;
      head := (head + 1) % CAP;
      waiting := waiting - {thread};
    }

    method Handle(e: Event) returns (answer: Answer)
      requires Valid()
      modifies this, data
      ensures Valid() && (View(), answer) == Step(old(View()), e)
    {
      if e.Wake? != (e.thread in waiting) {
        return Nothing;
      }
      match e
      case Push(t, item, blocking) =>
        answer := CommitPush(t, item, (tail + 1) % CAP, blocking);
      case Pop(t, blocking) =>
        answer := TakeFirst(t, blocking);
      case Wake(t) =>
        match waiting[t] {
          case Producer(item, newTail) => answer := CommitPush(t, item, newTail, true);
          case Consumer => answer := TakeFirst(t, true);
        }
    }

    /** The size formula is the item count. */
    method Count() returns (n: int)
      requires Valid()
      ensures forall items {:trigger Holds(View().ring, items)} | Holds(View().ring, items) :: n == |items|
    {
      n := (tail - head + CAP) % CAP;
    }
  }

  lemma Starts()
    ensures Agree(System(Empty(), map[]), Start())
  {
  }

  ghost predicate StaysInStep(s: System, f: Fifo, events: seq<Event>)
    requires Runs(s)
    decreases |events|
  {
    events == [] ||
    (InStep(s, f, events[0]) && StaysInStep(Step(s, events[0]).0, FifoStep(f, events[0]).0, events[1..]))
  }

  /** A run of the ring is a run of the plain queue exactly when it never wakes an overtaken producer. */
  lemma {:induction false} RunRefines(s: System, f: Fifo, events: seq<Event>)
    requires Agree(s, f) && Runs(s)
    ensures StaysInStep(s, f, events) <==> AllUndisturbed(f, events)
    decreases |events|
  {
    if events != [] {
      StepRefines(s, f, events[0]);
      if Undisturbed(f, events[0]) {
        RunRefines(Step(s, events[0]).0, FifoStep(f, events[0]).0, events[1..]);
      }
    }
  }

  /** Every interleaving that never wakes an overtaken producer gets the answers of a plain queue of 127 items,
      so the items popped and the items left are the items pushed, in order, and at most 127 are left. */
  method Run(events: seq<Event>) returns (answers: seq<Answer>, left: int)
    ensures |answers| == |events|
    ensures AllUndisturbed(Start(), events) ==>
      var (end, expected) := FifoRun(Start(), events);
      answers == expected && left == |end.items| <= 127 && PushLog(answers) == PopLog(answers) + end.items
  {
    var queue := new Lane();
    ghost var f := Start();
    Starts();
    answers := [];
    for j := 0 to |events|
      invariant fresh(queue) && fresh(queue.data) && queue.Valid() && |answers| == j
      invariant AllUndisturbed(Start(), events[..j]) ==>
        FifoRun(Start(), events[..j]) == (f, answers) && Agree(queue.View(), f)
    {
      assert events[..j + 1] == events[..j] + [events[j]];
      RunSnoc(Start(), events[..j], events[j]);
      if AllUndisturbed(Start(), events[..j]) {
        StepRefines(queue.View(), f, events[j]);
      }
      var answer := queue.Handle(events[j]);
      f := FifoStep(f, events[j]).0;
      answers := answers + [answer];
    }
    assert events[..|events|] == events;
    left := queue.Count();
    assert AllUndisturbed(Start(), events) ==> Holds(queue.View().ring, f.items);
    FifoConserves(Start(), events);
    assert Start().items + PushLog(answers) == PushLog(answers);
    FifoIsBounded(Start(), events);
  }
}
