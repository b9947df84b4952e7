/** The work the server hands to its plugins, of src/ipc/server/plugins-work.c and plugins.c: every job has a
    callback, kept in the work list of the plugin it went to until the plugin answers or goes away. */
module Plugins {
  import opened Wrappers

  /** A pending job: the id its plugin knows it by, and the job whose callback is kept. */
  datatype Work = Work(jid: int, job: int)

  datatype Client = Vacant | Plain | Plugin(name: string, nextJid: int, work: seq<Work>)

  /** One call of a callback. */
  datatype Fired = Fired(job: int, jid: Option<int>, code: Error, value: Option<int>)

  /** What reaches the server. The outcomes of crafting the packet, growing the work list and raising the packet
      are part of the event. A job is named by the number of the event that brought it. */
  datatype Event =
    | Join(name: string)
    | Issue(name: string, byClient: bool, craft: Error, room: bool, raised: Error)
    | Reply(client: int, jid: int, value: int)
    | Teardown(client: int)

  datatype Host = Host(clients: seq<Client>, fired: seq<Fired>)

  predicate IsPlugin(h: Host, k: int) {
    0 <= k < |h.clients| && h.clients[k].Plugin?
  }

  /** The first plugin of that name. */
  function FirstNamed(clients: seq<Client>, name: string): (k: nat)
    ensures k <= |clients|
    ensures k < |clients| ==> clients[k].Plugin? && clients[k].name == name
    ensures forall i | 0 <= i < k :: !(clients[i].Plugin? && clients[i].name == name)
  {
    if clients == [] || (clients[0].Plugin? && clients[0].name == name) then 0
    else
      var k := FirstNamed(clients[1..], name);
      assert forall i | 0 < i <= k && i < |clients| :: clients[i] == clients[1..][i - 1];
      k + 1
  }

  function FirstJid(work: seq<Work>, jid: int): (i: nat)
    ensures i <= |work| && (i < |work| ==> work[i].jid == jid)
    ensures forall x | 0 <= x < i :: work[x].jid != jid
  {
    if work == [] || work[0].jid == jid then 0
    else
      var i := FirstJid(work[1..], jid);
      assert forall x | 0 < x <= i && x < |work| :: work[x] == work[1..][x - 1];
      i + 1
  }

  function Cancelled(work: seq<Work>): seq<Fired> {
    if work == [] then [] else [Fired(work[0].job, Some(work[0].jid), ECANCELLED, None)] + Cancelled(work[1..])
  }

  /** The code with which a job is handed over; a client is turned away before its request is looked at. */
  function IssueCode(h: Host, e: Event): Error
    requires e.Issue?
  {
    if e.byClient then EACCES
    else if FirstNamed(h.clients, e.name) == |h.clients| then ENOENT
    else if e.craft != OK then e.craft
    else if !e.room then ENOMEM
    else e.raised
  }

  function CodeOf(h: Host, e: Event): Error {
    match e
    case Issue(_, _, _, _, _) => IssueCode(h, e)
    case Reply(k, jid, _) =>
      if IsPlugin(h, k) && FirstJid(h.clients[k].work, jid) < |h.clients[k].work| then OK else ENOENT
    case _ => OK
  }

  function After(h: Host, job: int, e: Event): Host {
    match e
    case Join(name) => h.(clients := h.clients + [Plugin(name, 0, [])])
    case Issue(name, byClient, _, _, _) =>
      if byClient then h
      else if IssueCode(h, e) != OK then h.(fired := h.fired + [Fired(job, None, IssueCode(h, e), None)])
      else
        var k := FirstNamed(h.clients, name);
        var c := h.clients[k];
        h.(clients := h.clients[k := Plugin(name, c.nextJid + 1, c.work + [Work(c.nextJid, job)])])
    case Reply(k, jid, value) =>
      if CodeOf(h, e) != OK then h
      else
        var c := h.clients[k];
        var i := FirstJid(c.work, jid);
        Host(h.clients[k := c.(work := c.work[..i] + c.work[i + 1..])],
             h.fired + [Fired(c.work[i].job, Some(jid), OK, Some(value))])
    case Teardown(k) =>
      if !IsPlugin(h, k) then h
      else Host(h.clients[k := Vacant], h.fired + Cancelled(h.clients[k].work))
  }

  // ---------- pending ids ----------

  /** Pending ids ascend and stay below the next one. */
  ghost predicate Ordered(c: Client) {
    c.Plugin? ==>
      && (forall i, j | 0 <= i < j < |c.work| :: c.work[i].jid < c.work[j].jid)
      && forall i | 0 <= i < |c.work| :: c.work[i].jid < c.nextJid
  }

  ghost predicate AllOrdered(h: Host) {
    forall k | 0 <= k < |h.clients| :: Ordered(h.clients[k])
  }

  lemma OrderedWithNew(c: Client, job: int)
    requires c.Plugin? && Ordered(c)
    ensures Ordered(Plugin(c.name, c.nextJid + 1, c.work + [Work(c.nextJid, job)]))
  {
  }

  lemma OrderedWithout(c: Client, i: int)
    requires c.Plugin? && Ordered(c) && 0 <= i < |c.work|
    ensures Ordered(c.(work := c.work[..i] + c.work[i + 1..]))
  {
    var work := c.work[..i] + c.work[i + 1..];
    forall x | 0 <= x < |work| ensures work[x] == c.work[if x < i then x else x + 1] {}
  }

  lemma StaysOrdered(h: Host, job: int, e: Event)
    requires AllOrdered(h)
    ensures AllOrdered(After(h, job, e))
  {
    if e.Reply? && CodeOf(h, e) == OK {
      OrderedWithout(h.clients[e.client], FirstJid(h.clients[e.client].work, e.jid));
    } else if e.Issue? && IssueCode(h, e) == OK {
      OrderedWithNew(h.clients[FirstNamed(h.clients, e.name)], job);
    }
  }

  /** The id was given out by the plugin and is no longer pending there, or the plugin is gone. */
  ghost predicate Spent(h: Host, k: int, jid: int) {
    && 0 <= k < |h.clients|
    && (h.clients[k].Plugin? ==>
      && jid < h.clients[k].nextJid
      && forall i | 0 <= i < |h.clients[k].work| :: h.clients[k].work[i].jid != jid)
  }

  lemma ReplySpends(h: Host, job: int, e: Event)
    requires AllOrdered(h) && e.Reply? && CodeOf(h, e) == OK
    ensures Spent(After(h, job, e), e.client, e.jid)
  {
    assert Ordered(h.clients[e.client]);
  }

  lemma SpentStays(h: Host, job: int, e: Event, k: int, jid: int)
    requires Spent(h, k, jid)
    ensures Spent(After(h, job, e), k, jid)
    ensures e.Reply? && e.client == k && e.jid == jid ==> CodeOf(h, e) == ENOENT
  {
  }

  /** The plugin gave the id to that job, and to no other that is pending there. */
  ghost predicate Assigned(h: Host, k: int, jid: int, job: int) {
    && 0 <= k < |h.clients|
    && (h.clients[k].Plugin? ==>
      && jid < h.clients[k].nextJid
      && forall i | 0 <= i < |h.clients[k].work| && h.clients[k].work[i].jid == jid :: h.clients[k].work[i].job == job)
  }

  lemma IssueAssigns(h: Host, n: int, e: Event)
    requires AllOrdered(h) && e.Issue? && IssueCode(h, e) == OK
    ensures var k := FirstNamed(h.clients, e.name);
      Assigned(After(h, n, e), k, h.clients[k].nextJid, n)
  {
    assert Ordered(h.clients[FirstNamed(h.clients, e.name)]);
  }

  lemma AssignedStays(h: Host, n: int, e: Event, k: int, jid: int, job: int)
    requires Assigned(h, k, jid, job)
    ensures Assigned(After(h, n, e), k, jid, job)
  {
    if e.Reply? && e.client == k && CodeOf(h, e) == OK {
      var i := FirstJid(h.clients[k].work, e.jid);
      var work := h.clients[k].work[..i] + h.clients[k].work[i + 1..];
      forall x | 0 <= x < |work| ensures work[x] == h.clients[k].work[if x < i then x else x + 1] {}
    }
  }

  // ---------- every job's callback ----------

  /** How often a job's callback was called. */
  function Calls(fired: seq<Fired>, job: int): nat {
    if fired == [] then 0 else (if fired[0].job == job then 1 else 0) + Calls(fired[1..], job)
  }

  function Listed(work: seq<Work>, job: int): nat {
    if work == [] then 0 else (if work[0].job == job then 1 else 0) + Listed(work[1..], job)
  }

  function Held(c: Client, job: int): nat {
    if c.Plugin? then Listed(c.work, job) else 0
  }

  /** How often a job is pending, over all plugins. */
  function Pending(clients: seq<Client>, job: int): nat {
    if clients == [] then 0 else Held(clients[0], job) + Pending(clients[1..], job)
  }

  lemma {:induction false} CallsConcat(a: seq<Fired>, b: seq<Fired>, job: int)
    ensures Calls(a + b, job) == Calls(a, job) + Calls(b, job)
  {
    if a == [] {
      assert a + b == b;
    } else {
      assert (a + b)[1..] == a[1..] + b;
      CallsConcat(a[1..], b, job);
    }
  }

  lemma {:induction false} ListedConcat(a: seq<Work>, b: seq<Work>, job: int)
    ensures Listed(a + b, job) == Listed(a, job) + Listed(b, job)
  {
    if a == [] {
      assert a + b == b;
    } else {
      assert (a + b)[1..] == a[1..] + b;
      ListedConcat(a[1..], b, job);
    }
  }

  lemma {:induction false} PendingConcat(a: seq<Client>, b: seq<Client>, job: int)
    ensures Pending(a + b, job) == Pending(a, job) + Pending(b, job)
  {
    if a == [] {
      assert a + b == b;
    } else {
      assert (a + b)[1..] == a[1..] + b;
      PendingConcat(a[1..], b, job);
    }
  }

  lemma {:induction false} PendingUpdate(clients: seq<Client>, k: int, c: Client, job: int)
    requires 0 <= k < |clients|
    ensures Pending(clients[k := c], job) + Held(clients[k], job) == Pending(clients, job) + Held(c, job)
  {
    if k == 0 {
      assert clients[k := c][1..] == clients[1..];
    } else {
      assert clients[k := c][1..] == clients[1..][k - 1 := c];
      PendingUpdate(clients[1..], k - 1, c, job);
    }
  }

  lemma {:induction false} ListedWithout(work: seq<Work>, i: int, job: int)
    requires 0 <= i < |work|
    ensures Listed(work[..i] + work[i + 1..], job) + (if work[i].job == job then 1 else 0) == Listed(work, job)
  {
    var rest := work[..i] + work[i + 1..];
    if i == 0 {
      assert rest == work[1..];
    } else {
      assert rest[1..] == work[1..][..i - 1] + work[1..][i..];
      ListedWithout(work[1..], i - 1, job);
    }
  }

  lemma {:induction false} CancelledCalls(work: seq<Work>, job: int)
    ensures Calls(Cancelled(work), job) == Listed(work, job)
  {
    if work != [] {
      CancelledCalls(work[1..], job);
      assert Cancelled(work)[1..] == Cancelled(work[1..]);
    }
  }

  /** A job is taken on by the event that brought it, unless a client asked. */
  function Taken(events: seq<Event>, n: int, job: int): nat {
    if 0 <= job < n && job < |events| && events[job].Issue? && !events[job].byClient then 1 else 0
  }

  /** The callbacks called and the jobs pending, for one job. */
  function Tally(h: Host, job: int): nat {
    Calls(h.fired, job) + Pending(h.clients, job)
  }

  lemma IssueTally(h: Host, n: int, e: Event, job: int)
    requires e.Issue?
    ensures Tally(After(h, n, e), job) == Tally(h, job) + if !e.byClient && job == n then 1 else 0
  {
    if !e.byClient {
      if IssueCode(h, e) == OK {
        var k := FirstNamed(h.clients, e.name);
        var c := h.clients[k];
        ListedConcat(c.work, [Work(c.nextJid, n)], job);
        PendingUpdate(h.clients, k, After(h, n, e).clients[k], job);
      } else {
        CallsConcat(h.fired, [Fired(n, None, IssueCode(h, e), None)], job);
      }
    }
  }

  lemma ReplyTally(h: Host, n: int, e: Event, job: int)
    requires e.Reply?
    ensures Tally(After(h, n, e), job) == Tally(h, job)
  {
    if CodeOf(h, e) == OK {
      var c := h.clients[e.client];
      var i := FirstJid(c.work, e.jid);
      ListedWithout(c.work, i, job);
      PendingUpdate(h.clients, e.client, c.(work := c.work[..i] + c.work[i + 1..]), job);
      CallsConcat(h.fired, [Fired(c.work[i].job, Some(e.jid), OK, Some(e.value))], job);
    }
  }

  lemma TeardownTally(h: Host, n: int, k: int, job: int)
    ensures Tally(After(h, n, Teardown(k)), job) == Tally(h, job)
  {
    if IsPlugin(h, k) {
      PendingUpdate(h.clients, k, Vacant, job);
      CancelledCalls(h.clients[k].work, job);
      CallsConcat(h.fired, Cancelled(h.clients[k].work), job);
    }
  }

  /** Every event leaves every job called or pending as often as before, except the one it brings. */
  lemma StepTally(h: Host, n: int, e: Event, job: int)
    ensures Tally(After(h, n, e), job) == Tally(h, job) + if e.Issue? && !e.byClient && job == n then 1 else 0
  {
    match e
    case Issue(_, _, _, _, _) => IssueTally(h, n, e, job);
    case Reply(_, _, _) => ReplyTally(h, n, e, job);
    case Teardown(k) => TeardownTally(h, n, k, job);
    case Join(name) => PendingConcat(h.clients, [Plugin(name, 0, [])], job);
  }

  ghost predicate Accounted(h: Host, events: seq<Event>, n: int) {
    forall job {:trigger Tally(h, job)} :: Tally(h, job) == Taken(events, n, job)
  }

  lemma StepAccounts(h: Host, events: seq<Event>, n: int)
    requires 0 <= n < |events| && Accounted(h, events, n)
    ensures Accounted(After(h, n, events[n]), events, n + 1)
  {
    var h' := After(h, n, events[n]);
    forall job ensures Tally(h', job) == Taken(events, n + 1, job) {
      StepTally(h, n, events[n], job);
    }
  }

  lemma TeardownAccounts(h: Host, events: seq<Event>, n: int, k: int)
    requires Accounted(h, events, n)
    ensures Accounted(After(h, n, Teardown(k)), events, n)
  {
    var h' := After(h, n, Teardown(k));
    forall job ensures Tally(h', job) == Taken(events, n, job) {
      TeardownTally(h, n, k, job);
    }
  }

  lemma {:induction false} NonePending(clients: seq<Client>, job: int)
    requires forall k | 0 <= k < |clients| :: !clients[k].Plugin?
    ensures Pending(clients, job) == 0
  {
    if clients != [] {
      NonePending(clients[1..], job);
    }
  }

  // ---------- whole runs ----------

  function HostAt(events: seq<Event>, n: nat): Host
    requires n <= |events|
  {
    if n == 0 then Host([], []) else After(HostAt(events, n - 1), n - 1, events[n - 1])
  }

  /** At every moment of every run the pending ids of a plugin are distinct and below its next one, and every
      job taken on so far had its callback called once or is pending once. */
  lemma {:induction false} EveryMoment(events: seq<Event>, n: nat)
    requires n <= |events|
    ensures AllOrdered(HostAt(events, n)) && Accounted(HostAt(events, n), events, n)
  {
    if n > 0 {
      EveryMoment(events, n - 1);
      StaysOrdered(HostAt(events, n - 1), n - 1, events[n - 1]);
      StepAccounts(HostAt(events, n - 1), events, n - 1);
    }
  }

  lemma {:induction false} SpentForGood(events: seq<Event>, n: nat, m: nat, k: int, jid: int)
    requires n <= m <= |events| && Spent(HostAt(events, n), k, jid)
    ensures Spent(HostAt(events, m), k, jid)
  {
    if n < m {
      SpentForGood(events, n, m - 1, k, jid);
      SpentStays(HostAt(events, m - 1), m - 1, events[m - 1], k, jid);
    }
  }

  /** An id is answered at most once: any later answer to it finds no job. */
  lemma AnsweredOnce(events: seq<Event>, i: nat, j: nat)
    requires i < j < |events| && events[i].Reply? && events[j].Reply?
    requires events[i].client == events[j].client && events[i].jid == events[j].jid
    requires CodeOf(HostAt(events, i), events[i]) == OK
    ensures CodeOf(HostAt(events, j), events[j]) == ENOENT
  {
    EveryMoment(events, i);
    ReplySpends(HostAt(events, i), i, events[i]);
    SpentForGood(events, i + 1, j, events[i].client, events[i].jid);
    SpentStays(HostAt(events, j), j, events[j], events[i].client, events[i].jid);
  }

  lemma {:induction false} AssignedForGood(events: seq<Event>, n: nat, m: nat, k: int, jid: int, job: int)
    requires n <= m <= |events| && Assigned(HostAt(events, n), k, jid, job)
    ensures Assigned(HostAt(events, m), k, jid, job)
  {
    if n < m {
      AssignedForGood(events, n, m - 1, k, jid, job);
      AssignedStays(HostAt(events, m - 1), m - 1, events[m - 1], k, jid, job);
    }
  }

  /** The job waits at the plugin under that id. */
  ghost predicate Waits(h: Host, k: int, jid: int, job: int) {
    IsPlugin(h, k) && exists i | 0 <= i < |h.clients[k].work| :: h.clients[k].work[i] == Work(jid, job)
  }

  /** The event answers that id or takes the plugin away. */
  predicate Touches(e: Event, k: int, jid: int) {
    (e.Reply? && e.client == k && e.jid == jid) || e == Teardown(k)
  }

  lemma IssueWaits(h: Host, n: int, e: Event)
    requires e.Issue? && IssueCode(h, e) == OK
    ensures var k := FirstNamed(h.clients, e.name);
      && k < |h.clients| && Waits(After(h, n, e), k, h.clients[k].nextJid, n)
      && After(h, n, e).clients[k].nextJid == h.clients[k].nextJid + 1
  {
    var k := FirstNamed(h.clients, e.name);
    var work := After(h, n, e).clients[k].work;
    assert work[|work| - 1] == Work(h.clients[k].nextJid, n);
  }

  lemma WaitsOn(h: Host, n: int, e: Event, k: int, jid: int, job: int)
    requires Waits(h, k, jid, job) && !Touches(e, k, jid)
    ensures Waits(After(h, n, e), k, jid, job)
  {
    var work := h.clients[k].work;
    var i :| 0 <= i < |work| && work[i] == Work(jid, job);
    var h' := After(h, n, e);
    if e.Reply? && e.client == k && CodeOf(h, e) == OK {
      var x := FirstJid(work, e.jid);
      var rest := work[..x] + work[x + 1..];
      assert work[x].jid == e.jid != jid && h'.clients[k].work == rest;
      assert rest[if i < x then i else i - 1] == work[i];
    } else {
      assert h'.clients[k].work[i] == work[i];
    }
  }

  lemma {:induction false} WaitsUntilTouched(events: seq<Event>, n: nat, m: nat, k: int, jid: int, job: int)
    requires n <= m <= |events| && Waits(HostAt(events, n), k, jid, job)
    requires forall i | n <= i < m :: !Touches(events[i], k, jid)
    ensures Waits(HostAt(events, m), k, jid, job)
  {
    if n < m {
      WaitsUntilTouched(events, n, m - 1, k, jid, job);
      WaitsOn(HostAt(events, m - 1), m - 1, events[m - 1], k, jid, job);
    }
  }

  /** An answer is accepted exactly when a job waits under that id, wherever in the list. */
  lemma AnswerFinds(h: Host, k: int, jid: int, value: int)
    ensures CodeOf(h, Reply(k, jid, value)) ==
      if exists job :: Waits(h, k, jid, job) then OK else ENOENT
  {
    if IsPlugin(h, k) {
      var work := h.clients[k].work;
      var i := FirstJid(work, jid);
      if i < |work| {
        assert work[i] == Work(jid, work[i].job);
        assert Waits(h, k, jid, work[i].job);
      }
    }
  }

  lemma TouchSpends(h: Host, n: int, e: Event, k: int, jid: int, job: int)
    requires AllOrdered(h) && Waits(h, k, jid, job) && Touches(e, k, jid)
    ensures Spent(After(h, n, e), k, jid)
  {
    if e.Reply? {
      AnswerFinds(h, k, jid, e.value);
      ReplySpends(h, n, e);
    }
  }

  /** A job was handed over by one event, and another answers the id it was given. */
  ghost predicate Answers(events: seq<Event>, i: int, j: int) {
    && 0 <= i < j < |events| && events[i].Issue? && IssueCode(HostAt(events, i), events[i]) == OK
    && events[j].Reply? && events[j].client == FirstNamed(HostAt(events, i).clients, events[i].name)
    && events[j].jid == HostAt(events, i).clients[events[j].client].nextJid
  }

  lemma FirstTouch(events: seq<Event>, i: nat, j: nat, k: int, jid: int) returns (m: nat)
    requires j <= |events| && exists m | i <= m < j :: Touches(events[m], k, jid)
    ensures i <= m < j && Touches(events[m], k, jid) && forall x | i <= x < m :: !Touches(events[x], k, jid)
  {
    m := i;
    while !Touches(events[m], k, jid)
      invariant i <= m < j && forall x | i <= x < m :: !Touches(events[x], k, jid)
      decreases j - m
    {
      m := m + 1;
    }
  }

  lemma SpentOnceTouched(events: seq<Event>, i: nat, j: nat, k: int, jid: int, job: int)
    requires i <= j <= |events| && Waits(HostAt(events, i), k, jid, job)
    requires exists m | i <= m < j :: Touches(events[m], k, jid)
    ensures Spent(HostAt(events, j), k, jid)
  {
    var m := FirstTouch(events, i, j, k, jid);
    WaitsUntilTouched(events, i, m, k, jid, job);
    SpentByTouch(events, m, k, jid, job);
    SpentForGood(events, m + 1, j, k, jid);
  }

  lemma SpentByTouch(events: seq<Event>, m: nat, k: int, jid: int, job: int)
    requires m < |events| && Waits(HostAt(events, m), k, jid, job) && Touches(events[m], k, jid)
    ensures Spent(HostAt(events, m + 1), k, jid)
  {
    EveryMoment(events, m);
    TouchSpends(HostAt(events, m), m, events[m], k, jid, job);
  }

  lemma HandedOverWaits(events: seq<Event>, i: nat, j: nat)
    requires Answers(events, i, j)
    ensures Waits(HostAt(events, i + 1), events[j].client, events[j].jid, i)
  {
    IssueWaits(HostAt(events, i), i, events[i]);
  }

  lemma SpentIsRefused(h: Host, e: Event)
    requires e.Reply? && Spent(h, e.client, e.jid)
    ensures CodeOf(h, e) == ENOENT
  {}

  lemma RefusedOnceTouched(events: seq<Event>, i: nat, j: nat, job: int)
    requires i <= j < |events| && events[j].Reply?
    requires Waits(HostAt(events, i), events[j].client, events[j].jid, job)
    requires exists m | i <= m < j :: Touches(events[m], events[j].client, events[j].jid)
    ensures CodeOf(HostAt(events, j), events[j]) == ENOENT
  {
    SpentOnceTouched(events, i, j, events[j].client, events[j].jid, job);
    SpentIsRefused(HostAt(events, j), events[j]);
  }

  lemma AnswerComesLate(events: seq<Event>, i: nat, j: nat)
    requires Answers(events, i, j)
    requires exists m | i < m < j :: Touches(events[m], events[j].client, events[j].jid)
    ensures CodeOf(HostAt(events, j), events[j]) == ENOENT
  {
    HandedOverWaits(events, i, j);
    RefusedOnceTouched(events, i + 1, j, i);
  }

  /** The answer to a job is accepted exactly when it is the first to that id and the plugin is still there, however
      much else happened in between, and then it calls the callback of that job. */
  lemma AnswerReachesItsJob(events: seq<Event>, i: nat, j: nat)
    requires Answers(events, i, j)
    ensures CodeOf(HostAt(events, j), events[j]) ==
      if exists m | i < m < j :: Touches(events[m], events[j].client, events[j].jid) then ENOENT else OK
    ensures CodeOf(HostAt(events, j), events[j]) == OK ==>
      HostAt(events, j + 1).fired ==
      HostAt(events, j).fired + [Fired(i, Some(events[j].jid), OK, Some(events[j].value))]
  {
    var k, jid := events[j].client, events[j].jid;
    if exists m | i < m < j :: Touches(events[m], k, jid) {
      AnswerComesLate(events, i, j);
    } else {
      HandedOverWaits(events, i, j);
      WaitsUntilTouched(events, i + 1, j, k, jid, i);
      AnswerFinds(HostAt(events, j), k, jid, events[j].value);
      EveryMoment(events, i);
      IssueAssigns(HostAt(events, i), i, events[i]);
      AssignedForGood(events, i + 1, j, k, jid, i);
    }
  }

  /** A plugin that was torn down stays away: its place is never taken again. */
  lemma {:induction false} GoneForGood(events: seq<Event>, n: nat, m: nat, k: int)
    requires n < m <= |events| && events[n] == Teardown(k) && IsPlugin(HostAt(events, n), k)
    ensures k < |HostAt(events, m).clients| && HostAt(events, m).clients[k] == Vacant
  {
    if n + 1 < m {
      GoneForGood(events, n, m - 1, k);
    }
  }

  // ---------- what every callback is told ----------

  /** A job is handed over exactly when it was not asked for by a client, a plugin has that name, and nothing failed on
      the way; otherwise, unless a client asked, its callback is told at once why. */
  lemma IssueTakes(h: Host, n: int, e: Event)
    requires e.Issue?
    ensures IssueCode(h, e) == OK <==>
      && !e.byClient && (exists k | 0 <= k < |h.clients| :: h.clients[k].Plugin? && h.clients[k].name == e.name)
      && e.craft == OK && e.room && e.raised == OK
    ensures e.byClient ==> IssueCode(h, e) == EACCES
    ensures !e.byClient && (forall k | 0 <= k < |h.clients| && h.clients[k].Plugin? :: h.clients[k].name != e.name) ==>
      IssueCode(h, e) == ENOENT
    ensures !e.byClient && !e.room && IssueCode(h, e) !in {ENOENT, e.craft} ==> IssueCode(h, e) == ENOMEM
    ensures IssueCode(h, e) != OK ==>
      After(h, n, e) == if e.byClient then h else h.(fired := h.fired + [Fired(n, None, IssueCode(h, e), None)])
  {
    var k := FirstNamed(h.clients, e.name);
    if k < |h.clients| {
      assert h.clients[k].Plugin? && h.clients[k].name == e.name;
    }
  }

  lemma {:induction false} CancelledAt(work: seq<Work>, i: nat)
    requires i < |work|
    ensures |Cancelled(work)| == |work| && Cancelled(work)[i] == Fired(work[i].job, Some(work[i].jid), ECANCELLED, None)
  {
    if |work| > 1 {
      CancelledAt(work[1..], if i == 0 then 0 else i - 1);
    }
  }

  /** The callback was told one of three things: at once, why its job was refused; the value of an answer to the id the
      job waited under; or, when the plugin went away with the job waiting, that it was cancelled. */
  ghost predicate Told(events: seq<Event>, n: int, f: Fired)
    requires n <= |events|
  {
    match f.jid
    case None =>
      && f.value == None && f.code != OK && 0 <= f.job < n && events[f.job].Issue?
      && f.code == IssueCode(HostAt(events, f.job), events[f.job])
    case Some(jid) =>
      exists j | 0 <= j < n :: ToldBy(events, j, f, jid)
  }

  ghost predicate ToldBy(events: seq<Event>, j: int, f: Fired, jid: int)
    requires 0 <= j < |events|
  {
    match events[j]
    case Reply(k, id, value) =>
      id == jid && f.code == OK && f.value == Some(value) && Waits(HostAt(events, j), k, jid, f.job)
    case Teardown(k) => f.code == ECANCELLED && f.value == None && Waits(HostAt(events, j), k, jid, f.job)
    case _ => false
  }

  lemma NewCall(events: seq<Event>, n: nat, x: nat)
    requires n < |events| && |HostAt(events, n).fired| <= x < |HostAt(events, n + 1).fired|
    ensures Told(events, n + 1, HostAt(events, n + 1).fired[x])
  {
    var h, e := HostAt(events, n), events[n];
    var f := HostAt(events, n + 1).fired[x];
    match e
    case Issue(_, _, _, _, _) =>
    case Reply(k, jid, value) =>
      var i := FirstJid(h.clients[k].work, jid);
      assert h.clients[k].work[i] == Work(jid, f.job);
      assert ToldBy(events, n, f, jid);
    case Teardown(k) =>
      var i := x - |h.fired|;
      CancelledLength(h.clients[k].work);
      CancelledAt(h.clients[k].work, i);
      assert h.clients[k].work[i] == Work(f.jid.value, f.job);
      assert ToldBy(events, n, f, f.jid.value);
  }

  lemma {:induction false} CancelledLength(work: seq<Work>)
    ensures |Cancelled(work)| == |work|
  {
    if work != [] {
      CancelledLength(work[1..]);
    }
  }

  lemma CallsStay(h: Host, n: int, e: Event)
    ensures h.fired <= After(h, n, e).fired
  {}

  /** All calls from the given one on say that the job was cancelled. */
  ghost predicate CancelledFrom(fired: seq<Fired>, n: int) {
    forall x | n <= x < |fired| :: 0 <= x && fired[x].code == ECANCELLED && fired[x].value == None
  }

  lemma TeardownTells(h: Host, n: int, k: int, x: nat)
    requires x <= |h.fired| && CancelledFrom(h.fired, x)
    ensures h.fired <= After(h, n, Teardown(k)).fired && CancelledFrom(After(h, n, Teardown(k)).fired, x)
  {
    if IsPlugin(h, k) {
      var work := h.clients[k].work;
      CancelledLength(work);
      forall i | 0 <= i < |work| ensures Cancelled(work)[i].code == ECANCELLED && Cancelled(work)[i].value == None {
        CancelledAt(work, i);
      }
    }
  }

  /** In every run every call of a callback tells one of those three things. */
  lemma {:induction false} EveryCallIsRight(events: seq<Event>, n: nat, x: nat)
    requires n <= |events| && x < |HostAt(events, n).fired|
    ensures Told(events, n, HostAt(events, n).fired[x])
  {
    if n > 0 {
      CallsStay(HostAt(events, n - 1), n - 1, events[n - 1]);
      if x < |HostAt(events, n - 1).fired| {
        EveryCallIsRight(events, n - 1, x);
        var f := HostAt(events, n).fired[x];
        if f.jid.Some? {
          var j :| 0 <= j < n - 1 && ToldBy(events, j, f, f.jid.value);
        }
      } else {
        NewCall(events, n - 1, x);
      }
    }
  }

  // ---------- the server ----------

  class Server {
    var clients: seq<Client>
    var fired: seq<Fired>

    ghost function View(): Host
      reads this
    {
      Host(clients, fired)
    }

    constructor ()
      ensures View() == Host([], [])
    {
      clients, fired := [], [];
    }

    method FindByName(name: string) returns (k: int)
      ensures k == FirstNamed(clients, name)
    {
      k := 0;
      while k < |clients|
        invariant 0 <= k <= |clients|
        invariant forall i | 0 <= i < k :: !(clients[i].Plugin? && clients[i].name == name)
      {
        if clients[k].Plugin? && clients[k].name == name {
          return;
        }
        k := k + 1;
      }
    }

    method IssueWork(job: int, e: Event) returns (code: Error)
      requires e.Issue?
      modifies this
      ensures code == IssueCode(old(View()), e) && View() == After(old(View()), job, e)
    {
      if e.byClient {
        return EACCES;
      }
      var k := FindByName(e.name);
      if k == |clients| {
        code := ENOENT;
      } else if e.craft != OK {
        code := e.craft;
      } else if !e.room {
        code := ENOMEM;
      } else {
        var c := clients[k];
        var work := c.work + [Work(c.nextJid, job)];
        clients := clients[k := c.(work := work)];
        if e.raised == OK {
          clients := clients[k := c.(work := work, nextJid := c.nextJid + 1)];
          return OK;
        }
        code := e.raised;
        clients := clients[k := c.(work := work[..|work| - 1])];
        assert work[..|work| - 1] == c.work && clients == old(clients);
      }
      fired := fired + [Fired(job, None, code, None)];
    }

    method PopJob(work: seq<Work>, jid: int) returns (i: int)
      ensures i == FirstJid(work, jid)
    {
      i := 0;
      while i < |work|
        invariant 0 <= i <= |work|
        invariant forall x | 0 <= x < i :: work[x].jid != jid
      {
        if work[i].jid == jid {
          return;
        }
        i := i + 1;
      }
    }

    method ReportWorkDone(k: int, jid: int, value: int, ghost job: int) returns (code: Error)
      requires IsPlugin(View(), k)
      modifies this
      ensures code == CodeOf(old(View()), Reply(k, jid, value))
      ensures code == OK <==> exists i | 0 <= i < |old(clients)[k].work| :: old(clients)[k].work[i].jid == jid
      ensures View() == After(old(View()), job, Reply(k, jid, value))
    {
      var c := clients[k];
      var i := PopJob(c.work, jid);
      if i == |c.work| {
        return ENOENT;
      }
      clients := clients[k := c.(work := c.work[..i] + c.work[i + 1..])];
      fired := fired + [Fired(c.work[i].job, Some(c.work[i].jid), OK, Some(value))];
      code := OK;
    }

    method Deinit(k: int, ghost job: int)
      requires IsPlugin(View(), k)
      modifies this
      ensures View() == After(old(View()), job, Teardown(k))
    {
      var work := clients[k].work;
      var i := 0;
      while i < |work|
        invariant 0 <= i <= |work| && clients == old(clients)
        invariant fired + Cancelled(work[i..]) == old(fired) + Cancelled(work)
      {
        var w := work[i];
        assert work[i..][1..] == work[i + 1..];
        assert fired + Cancelled(work[i..]) ==
          fired + [Fired(w.job, Some(w.jid), ECANCELLED, None)] + Cancelled(work[i + 1..]);
        fired := fired + [Fired(w.job, Some(w.jid), ECANCELLED, None)];
        i := i + 1;
      }
      assert fired == fired + Cancelled(work[i..]);
      clients := clients[k := Vacant];
    }

    method Handle(job: int, e: Event) returns (code: Error)
      modifies this
      ensures code == CodeOf(old(View()), e) && View() == After(old(View()), job, e)
    {
      match e
      case Join(name) =>
        clients := clients + [Plugin(name, 0, [])];
        code := OK;
      case Issue(_, _, _, _, _) =>
        code := IssueWork(job, e);
      case Reply(k, jid, value) =>
        if !(0 <= k < |clients| && clients[k].Plugin?) {
          return ENOENT;
        }
        code := ReportWorkDone(k, jid, value, job);
      case Teardown(k) =>
        if 0 <= k < |clients| && clients[k].Plugin? {
          Deinit(k, job);
        }
        code := OK;
    }
  }

  method TearDownAll(server: Server, events: seq<Event>)
    requires Accounted(server.View(), events, |events|)
    modifies server
    ensures forall job :: Calls(server.fired, job) == Taken(events, |events|, job)
    ensures old(server.fired) <= server.fired && CancelledFrom(server.fired, |old(server.fired)|)
  {
    var k := 0;
    while k < |server.clients|
      invariant 0 <= k <= |server.clients|
      invariant Accounted(server.View(), events, |events|)
      invariant forall i | 0 <= i < k :: !server.clients[i].Plugin?
      invariant old(server.fired) <= server.fired && CancelledFrom(server.fired, |old(server.fired)|)
    {
      TeardownTells(server.View(), |events|, k, |old(server.fired)|);
      TeardownAccounts(server.View(), events, |events|, k);
      var _ := server.Handle(|events|, Teardown(k));
      k := k + 1;
    }
    forall job ensures Calls(server.fired, job) == Taken(events, |events|, job) {
      NonePending(server.clients, job);
      assert Tally(server.View(), job) == Taken(events, |events|, job);
    }
  }

  /** The codes of the first events of a run. */
  function Codes(events: seq<Event>, n: nat): seq<Error>
    requires n <= |events|
  {
    if n == 0 then [] else Codes(events, n - 1) + [CodeOf(HostAt(events, n - 1), events[n - 1])]
  }

  /** In every run that ends with the plugins torn down, the callback of every job taken on is called exactly
      once, and no other is called; what is called at the end is told that it was cancelled. */
  method Run(events: seq<Event>) returns (codes: seq<Error>, fired: seq<Fired>)
    ensures codes == Codes(events, |events|)
    ensures HostAt(events, |events|).fired <= fired && CancelledFrom(fired, |HostAt(events, |events|).fired|)
    ensures forall job :: Calls(fired, job) == Taken(events, |events|, job)
  {
    var server := new Server();
    codes := [];
    for n := 0 to |events|
      invariant fresh(server) && server.View() == HostAt(events, n) && codes == Codes(events, n)
    {
      var code := server.Handle(n, events[n]);
      codes := codes + [code];
    }
    EveryMoment(events, |events|);
    TearDownAll(server, events);
    fired := server.fired;
  }
}
