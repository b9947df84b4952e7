/** The message builder of src/wirefmt/builders.c: it lends its value slot to one value builder at a time and turns
    into a packet once its path, selector, operation and value are there. */
module Messages {
  import opened Builders
  import opened Wrappers

  datatype Op = InvalidOp | Get | Set | Exec | Signal | Response

  /** `Lending` is the state while a value builder holds the value slot. */
  datatype Stage = Unused | Open | Lending

  datatype Head = Head(op: Op, seqNo: int, path: Option<string>, selector: Option<string>)

  const NO_HEAD := Head(InvalidOp, 0, None, None)

  /** What a packet is crafted from. */
  datatype Packet = Packet(head: Head, value: Option<Arg>)

  /** A path, a selector, a real operation, and a value exactly unless it is a get. */
  predicate IsComplete(head: Head, value: Option<Arg>) {
    head.path.Some? && head.selector.Some? && head.op != InvalidOp && (head.op == Get) != value.Some?
  }

  class MessageBuilder {
    var stage: Stage
    var head: Head
    var root: Slots?
    var borrowedTo: ValueBuilder?

    ghost predicate Valid()
      reads this, root
    {
      && (root != null ==> |root.items| == 1)
      && (stage == Lending <==> borrowedTo != null)
      && (stage == Lending ==> root != null)
    }

    /** The value set so far. */
    function Value(): Option<Arg>
      requires Valid()
      reads this, root
    {
      if root == null then None else Some(root.items[0])
    }

    constructor ()
      ensures Valid() && stage == Unused && head == NO_HEAD && root == null
    {
      stage, head, root, borrowedTo := Unused, NO_HEAD, null, null;
    }

    method Begin(op: Op) returns (code: Error)
      requires Valid()
      modifies this
      ensures Valid()
      ensures old(stage) != Unused ==> code == EINVAL && unchanged(this)
      ensures old(stage) == Unused ==>
        code == OK && stage == Open && head == NO_HEAD.(op := op) && root == null
    {
      if stage != Unused {
        return EINVAL;
      }
      stage, head, root, borrowedTo := Open, NO_HEAD.(op := op), null, null;
      code := OK;
    }

    method SetPath(path: string) returns (code: Error)
      requires Valid()
      modifies this`head
      ensures Valid()
      ensures old(stage) != Open ==> code == EINVAL && head == old(head)
      ensures old(stage) == Open ==> code == OK && head == old(head).(path := Some(path))
    {
      if stage != Open {
        return EINVAL;
      }
      head := head.(path := Some(path));
      code := OK;
    }

    method SetSelector(selector: string) returns (code: Error)
      requires Valid()
      modifies this`head
      ensures Valid()
      ensures old(stage) != Open ==> code == EINVAL && head == old(head)
      ensures old(stage) == Open ==> code == OK && head == old(head).(selector := Some(selector))
    {
      if stage != Open {
        return EINVAL;
      }
      head := head.(selector := Some(selector));
      code := OK;
    }

    method SetSeq(seqNo: int) returns (code: Error)
      requires Valid()
      modifies this`head
      ensures Valid()
      ensures old(stage) != Open ==> code == EINVAL && head == old(head)
      ensures old(stage) == Open ==> code == OK && head == old(head).(seqNo := seqNo)
    {
      if stage != Open {
        return EINVAL;
      }
      head := head.(seqNo := seqNo);
      code := OK;
    }

    /** Lends a blank slot; whatever value was there is gone. */
    method ValueStart(value: ValueBuilder) returns (code: Error)
      requires Valid()
      modifies this, value
      ensures Valid() && head == old(head)
      ensures old(stage) != Open ==> code == EINVAL && unchanged(this) && unchanged(value)
      ensures old(stage) == Open ==>
        && code == OK && stage == Lending && borrowedTo == value
        && fresh(root) && root.items == [Blank(Invalid)]
        && value.Valid() && value.state == Pending && value.root == root && value.index == 0 && value.elems == null
    {
      if stage != Open {
        return EINVAL;
      }
      var slots := new Slots(1);
      stage, root, borrowedTo := Lending, slots, value;
      value.PointAt(slots, 0);
      code := OK;
    }

    /** Takes the slot back, from the builder that holds it and from no other. */
    method ValueEnd(value: ValueBuilder) returns (code: Error)
      requires Valid()
      modifies this, value
      ensures Valid() && head == old(head) && root == old(root)
      ensures old(stage) != Lending || old(borrowedTo) != value ==>
        code == EINVAL && unchanged(this) && unchanged(value)
      ensures old(stage) == Lending && old(borrowedTo) == value ==>
        code == OK && stage == Open && value.state == Idle && value.root == null
    {
      if stage != Lending {
        return EINVAL;
      }
      if value != borrowedTo {
        return EINVAL;
      }
      value.Zero();
      stage, borrowedTo := Open, null;
      code := OK;
    }

    /** Sets the value in one call. A value without a type is refused, but the old value is lost all the same. */
    method SetValue(a: Arg) returns (code: Error)
      requires Valid()
      modifies this
      ensures Valid() && stage == old(stage) && head == old(head)
      ensures old(stage) != Open ==> code == EINVAL && unchanged(this)
      ensures old(stage) == Open ==> fresh(root)
      ensures old(stage) == Open ==>
        if KindOf(a) == Invalid then code == EINVAL && Value() == Some(Blank(Invalid))
        else code == OK && Value() == Some(a)
    {
      if stage != Open {
        return EINVAL;
      }
      var value := new ValueBuilder();
      var started := ValueStart(value);
      code := value.Set(a);
      var ended := ValueEnd(value);
      assert started == OK && ended == OK;
    }

    /** Forgets everything, also a slot that is lent. */
    method Discard()
      modifies this
      ensures Valid() && stage == Unused && head == NO_HEAD && root == null
    {
      stage, head, root, borrowedTo := Unused, NO_HEAD, null, null;
    }

    predicate Complete()
      requires Valid()
      reads this, root
    {
      stage == Open && IsComplete(head, Value())
    }

    /** A complete message becomes a packet with exactly what was set, and the builder can be used again; an
        incomplete one, and one that cannot be crafted, stays as it is. */
    method Build(craft: Error) returns (code: Error, packet: Option<Packet>)
      requires Valid()
      modifies this
      ensures Valid()
      ensures code ==
        if old(stage) != Open then EINVAL
        else if old(head).path.None? || old(head).selector.None? || old(head).op == InvalidOp then EAGAIN
        else if (old(head).op == Get) == old(Value()).Some? then EAGAIN
        else craft
      ensures code == OK ==>
        packet == Some(Packet(old(head), old(Value()))) && stage == Unused && head == NO_HEAD && root == null
      ensures code != OK ==> packet == None && unchanged(this)
    {
      if stage != Open {
        return EINVAL, None;
      }
      if !Complete() {
        return EAGAIN, None;
      }
      if craft != OK {
        return craft, None;
      }
      packet := Some(Packet(head, Value()));
      Discard();
      code := OK;
    }
  }

  /** A message in one call: the packet has exactly the given parts, or there is none because the operation is not a
      real one or the packet cannot be crafted. */
  method PacketMessage(seqNo: int, op: Op, path: string, selector: string, a: Arg, craft: Error)
    returns (code: Error, packet: Option<Packet>)
    requires (op == Get) != (KindOf(a) != Invalid)
    ensures code == if op == InvalidOp then EAGAIN else craft
    ensures packet ==
      if code != OK then None
      else Some(Packet(Head(op, seqNo, Some(path), Some(selector)), if op == Get then None else Some(a)))
  {
    var b := new MessageBuilder();
    code := b.Begin(op);
    code := b.SetSeq(seqNo);
    code := b.SetPath(path);
    code := b.SetSelector(selector);
    if op != Get {
      code := b.SetValue(a);
    }
    code, packet := b.Build(craft);
    if code != OK {
      b.Discard();
    }
  }

  /** The same message with its value built call by call through the lent slot: it succeeds exactly when the leaves
      fit their arrays, and holds the tree exactly when every list can be counted. */
  method PacketByCalls(seqNo: int, op: Op, path: string, selector: string, a: Arg)
    returns (code: Error, packet: Option<Packet>)
    requires op != InvalidOp && op != Get && Builders.Complete(a)
    ensures code == if Fits(Invalid, a) then OK else EVALUE_TYPE_MISMATCH
    ensures code == OK ==>
      && packet == Some(Packet(Head(op, seqNo, Some(path), Some(selector)), Some(Built(a))))
      && (Built(a) == a <==> Countable(a))
  {
    packet := None;
    var b := new MessageBuilder();
    code := b.Begin(op);
    code := b.SetSeq(seqNo);
    code := b.SetPath(path);
    code := b.SetSelector(selector);
    var value := new ValueBuilder();
    code := b.ValueStart(value);
    code := Builders.Build(value, a);
    if code == OK {
      BuiltIsTheTree(a);
      code := b.ValueEnd(value);
      code, packet := b.Build(OK);
    }
  }

  // ---------- every run of calls ----------

  /** A call on the message builder; `FillCall` stands for the calls with which a value builder builds a tree in the
      slot it was lent. */
  datatype Call =
    | BeginCall(op: Op)
    | PathCall(path: string)
    | SelectorCall(selector: string)
    | SeqCall(seqNo: int)
    | SetCall(a: Arg)
    | StartCall(who: int)
    | FillCall(who: int, a: Arg)
    | EndCall(who: int)
    | BuildCall(craft: Error)
    | DiscardCall

  /** The calls made so far, with what they returned. */
  datatype History = Nothing | After(before: History, call: Call, code: Error, packet: Option<Packet>)

  /** The call did what it is for. */
  predicate Done(h: History)
    requires h.After?
  {
    h.code == OK
  }

  /** The call ended the life of a message. */
  predicate Closes(h: History)
    requires h.After?
  {
    Done(h) && (h.call.BuildCall? || h.call.DiscardCall?)
  }

  /** The operation that the last message was begun with, if it is still there. */
  function Begun(h: History): Option<Op> {
    if h.Nothing? || Closes(h) then None
    else if Done(h) && h.call.BeginCall? then Some(h.call.op)
    else Begun(h.before)
  }

  /** Whose turn it is with the slot. */
  function Holder(h: History): Option<int> {
    if h.Nothing? || Closes(h) then None
    else if Done(h) && h.call.StartCall? then Some(h.call.who)
    else if Done(h) && h.call.EndCall? then None
    else Holder(h.before)
  }

  /** The call spends a builder's turn: it filled the slot or got stuck inside a list. A leaf of the wrong kind does
      not count. */
  predicate Spends(h: History, who: int)
    requires h.After?
  {
    h.call.FillCall? && h.call.who == who && (Done(h) || !h.call.a.Leaf?)
  }

  /** The builder was started and has neither ended nor spent its turn. */
  predicate Ready(h: History, who: int) {
    if h.Nothing? then false
    else if Done(h) && h.call == StartCall(who) then true
    else if (Done(h) && h.call == EndCall(who)) || Spends(h, who) then false
    else Ready(h.before, who)
  }

  /** The message was discarded under the builder while it held the slot unfilled, and the builder has neither been
      started again nor spent its turn since. */
  predicate Orphaned(h: History, who: int) {
    if h.Nothing? then false
    else if h.call.DiscardCall? && Done(h) && Holder(h.before) == Some(who) then Ready(h.before, who)
    else if (Done(h) && h.call == StartCall(who)) || Spends(h, who) then false
    else Orphaned(h.before, who)
  }

  /** The last path, selector and number set since the message was begun. */
  function LastPath(h: History): Option<string> {
    if h.Nothing? || Closes(h) || (Done(h) && h.call.BeginCall?) then None
    else if Done(h) && h.call.PathCall? then Some(h.call.path)
    else LastPath(h.before)
  }

  function LastSelector(h: History): Option<string> {
    if h.Nothing? || Closes(h) || (Done(h) && h.call.BeginCall?) then None
    else if Done(h) && h.call.SelectorCall? then Some(h.call.selector)
    else LastSelector(h.before)
  }

  function LastSeq(h: History): int {
    if h.Nothing? || Closes(h) || (Done(h) && h.call.BeginCall?) then 0
    else if Done(h) && h.call.SeqCall? then h.call.seqNo
    else LastSeq(h.before)
  }

  /** The last value set, or filled in by the holder, since then. A slot that was lent, and one that a typeless value
      was meant for, is blank. */
  function LastValue(h: History): Option<Arg> {
    if h.Nothing? || Closes(h) || (Done(h) && h.call.BeginCall?) then None
    else if Done(h) && h.call.SetCall? then Some(h.call.a)
    else if Done(h) && h.call.FillCall? && Holder(h.before) == Some(h.call.who) then Some(Built(h.call.a))
    else if (Done(h) && h.call.StartCall?) || (h.call.SetCall? && KindOf(h.call.a) == Invalid && IsOpen(h.before)) then
      Some(Blank(Invalid))
    else LastValue(h.before)
  }

  predicate IsOpen(h: History) {
    Begun(h).Some? && Holder(h).None?
  }

  function LastHead(h: History): Head {
    if Begun(h).None? then NO_HEAD else Head(Begun(h).value, LastSeq(h), LastPath(h), LastSelector(h))
  }

  /** The code a call deserves after a history. */
  ghost function Deserved(h: History, call: Call): Error {
    match call
    case BeginCall(_) => if Begun(h).None? then OK else EINVAL
    case SetCall(a) => if IsOpen(h) && KindOf(a) != Invalid then OK else EINVAL
    case EndCall(who) => if Holder(h) == Some(who) then OK else EINVAL
    case FillCall(who, a) =>
      if !Ready(h, who) then EINVAL
      else if Fits(Invalid, a) then OK
      else EVALUE_TYPE_MISMATCH
    case BuildCall(craft) =>
      if !IsOpen(h) then EINVAL
      else if !IsComplete(LastHead(h), LastValue(h)) then EAGAIN
      else craft
    case DiscardCall => OK
    case _ => if IsOpen(h) then OK else EINVAL
  }

  /** Every call got the code it deserves, and a packet came out exactly of a build that succeeded, with exactly the
      last path, selector, number and value set since the message was begun. */
  ghost predicate Right(h: History) {
    h.After? ==>
      && Right(h.before)
      && h.code == Deserved(h.before, h.call)
      && h.packet ==
         if h.call.BuildCall? && Done(h) then Some(Packet(LastHead(h.before), LastValue(h.before))) else None
  }

  function Calls(h: History): seq<Call> {
    if h.Nothing? then [] else Calls(h.before) + [h.call]
  }

  lemma {:induction false} HolderHasMessage(h: History)
    requires Right(h) && Holder(h).Some?
    ensures Begun(h).Some?
  {
    if Holder(h.before).Some? {
      HolderHasMessage(h.before);
    }
  }

  /** What a call can leave as it was: whose turn it is, whether it is spent, and everything set. */
  predicate SameMessage(h: History)
    requires h.After?
  {
    && Holder(h) == Holder(h.before) && LastHead(h) == LastHead(h.before) && LastValue(h) == LastValue(h.before)
    && (Holder(h).Some? ==> Ready(h, Holder(h).value) == Ready(h.before, Holder(h).value))
  }

  /** Every packet has a path, a selector and a real operation, and a value exactly unless it is a get. */
  lemma PacketIsWhole(h: History)
    requires h.After? && Right(h) && h.packet.Some?
    ensures var p := h.packet.value;
      && h.call.BuildCall? && h.code == OK
      && p.head.path.Some? && p.head.selector.Some? && p.head.op != InvalidOp
      && (p.value.Some? <==> p.head.op != Get)
  {
  }

  /** A build waits for more exactly on an open message without a path, a selector or a real operation, on a get with a
      value, and on another operation without one; unless crafting itself says so. */
  lemma BuildWaits(h: History)
    requires h.After? && Right(h) && h.call.BuildCall?
    ensures h.code == EAGAIN <==>
      && Begun(h.before).Some? && Holder(h.before).None?
      && (|| LastPath(h.before).None?
          || LastSelector(h.before).None?
          || Begun(h.before) == Some(InvalidOp)
          || (Begun(h.before) == Some(Get) && LastValue(h.before).Some?)
          || (Begun(h.before) != Some(Get) && LastValue(h.before).None?)
          || h.call.craft == EAGAIN)
    ensures h.code == EAGAIN ==> SameMessage(h) && Begun(h) == Begun(h.before)
  {
  }

  /** A message is open for changes exactly between its begin and its build or discard, while no value builder has its
      slot: then it takes every path, selector, number and value with a type, and lends its slot. It cannot be begun
      twice. */
  lemma OpenTakesAll(h: History)
    requires h.After? && Right(h)
    ensures h.call.PathCall? || h.call.SelectorCall? || h.call.SeqCall? || h.call.StartCall? ==>
      h.code == if Begun(h.before).Some? && Holder(h.before).None? then OK else EINVAL
    ensures h.call.SetCall? && KindOf(h.call.a) != Invalid ==>
      h.code == if Begun(h.before).Some? && Holder(h.before).None? then OK else EINVAL
    ensures h.call.BeginCall? ==> h.code == if Begun(h.before).None? then OK else EINVAL
    ensures h.call.EndCall? ==> h.code == if Holder(h.before) == Some(h.call.who) then OK else EINVAL
    ensures h.call.SetCall? && KindOf(h.call.a) == Invalid ==> h.code == EINVAL
    ensures h.call.DiscardCall? ==> h.code == OK && Begun(h).None? && Holder(h).None?
  {
  }

  /** The last call that sets a part wins and leaves the other parts alone; a new message starts with none. */
  lemma LastOneWins(h: History)
    requires h.After? && Right(h) && h.code == OK
    ensures h.call.PathCall? ==>
      LastHead(h) == LastHead(h.before).(path := Some(h.call.path)) && LastValue(h) == LastValue(h.before)
    ensures h.call.SelectorCall? ==>
      LastHead(h) == LastHead(h.before).(selector := Some(h.call.selector)) && LastValue(h) == LastValue(h.before)
    ensures h.call.SeqCall? ==>
      LastHead(h) == LastHead(h.before).(seqNo := h.call.seqNo) && LastValue(h) == LastValue(h.before)
    ensures h.call.SetCall? ==> LastHead(h) == LastHead(h.before) && LastValue(h) == Some(h.call.a)
    ensures h.call.FillCall? && Holder(h.before) == Some(h.call.who) ==>
      LastHead(h) == LastHead(h.before) && LastValue(h) == Some(Built(h.call.a))
    ensures h.call.BeginCall? ==> LastHead(h) == Head(h.call.op, 0, None, None) && LastValue(h) == None
  {
    if Holder(h.before).Some? {
      HolderHasMessage(h.before);
    }
  }

  /** A builder that does not hold the slot is ready only as an orphan. */
  lemma {:induction false} ReadyOrphan(h: History, who: int)
    requires Right(h)
    ensures Orphaned(h, who) <==> Ready(h, who) && Holder(h) != Some(who)
  {
    if h.After? {
      ReadyOrphan(h.before, who);
    }
  }

  /** A fill by a builder that does not hold the slot is refused if and only if the builder is not an orphan; either
      way it leaves the message untouched. */
  lemma FillByAnother(h: History)
    requires h.After? && Right(h) && h.call.FillCall? && Holder(h.before) != Some(h.call.who)
    ensures h.code == EINVAL <==> !Orphaned(h.before, h.call.who)
    ensures SameMessage(h) && h.packet == None
  {
    ReadyOrphan(h.before, h.call.who);
  }

  /** While the slot is lent, every call but the holder's and a discard leaves the message untouched, and all of them
      are refused but the fills of orphans. */
  lemma RefusedWhileLent(h: History)
    requires h.After? && Right(h) && Holder(h.before).Some?
    requires h.call != EndCall(Holder(h.before).value) && !h.call.DiscardCall?
    requires !(h.call.FillCall? && h.call.who == Holder(h.before).value)
    ensures h.code == EINVAL <==> !(h.call.FillCall? && Orphaned(h.before, h.call.who))
    ensures SameMessage(h) && h.packet == None
  {
    HolderHasMessage(h.before);
    if h.call.FillCall? {
      FillByAnother(h);
    }
  }

  /** The history goes on with a discard, a new message and its slot lent to `other`. */
  function LentAgain(h: History, op: Op, other: int): History {
    After(After(After(h, DiscardCall, OK, None), BeginCall(op), OK, None), StartCall(other), OK, None)
  }

  /** A builder that held the slot when the message was discarded still fills with success while another holds the
      slot of the next message, whose value stays blank. */
  lemma OrphanFills(h: History, who: int, op: Op, other: int, a: Arg)
    requires Right(h) && Holder(h) == Some(who) && Ready(h, who) && other != who && Fits(Invalid, a)
    ensures var lent := LentAgain(h, op, other);
      var after := After(lent, FillCall(who, a), OK, None);
      && Right(after) && Orphaned(lent, who) && !Orphaned(after, who)
      && Holder(after) == Some(other) && LastValue(after) == Some(Blank(Invalid))
  {
    var gone := After(h, DiscardCall, OK, None);
    assert Right(gone) && Ready(gone, who);
    var begun := After(gone, BeginCall(op), OK, None);
    assert Right(begun) && Ready(begun, who);
  }

  /** The shortest such run: two value builders and six calls. */
  lemma OrphanRun(op: Op, code: int, payload: int)
    ensures var held := After(After(Nothing, BeginCall(op), OK, None), StartCall(0), OK, None);
      Right(After(LentAgain(held, op, 1), FillCall(0, Leaf(code, payload)), OK, None))
  {
    var held := After(After(Nothing, BeginCall(op), OK, None), StartCall(0), OK, None);
    assert Right(held) && Ready(held, 0);
    OrphanFills(held, 0, op, 1, Leaf(code, payload));
  }

  /** Value builders are named by their place in a list; trees to be filled in have no blanks. */
  ghost predicate ValidCall(call: Call, n: nat) {
    && (call.StartCall? || call.FillCall? || call.EndCall? ==> 0 <= call.who < n)
    && (call.FillCall? ==> Builders.Complete(call.a))
  }

  ghost predicate Distinct(values: seq<ValueBuilder>) {
    forall i, j | 0 <= i < j < |values| :: values[i] != values[j]
  }

  /** The slots the value builders point at. */
  ghost function Roots(values: seq<ValueBuilder>): set<Slots?>
    reads values
  {
    set i | 0 <= i < |values| :: values[i].root
  }

  /** The value builder is pending exactly when it is ready, and then points at a blank slot, which is the message's
      exactly when it is the holder. */
  ghost predicate Points(b: MessageBuilder, v: ValueBuilder, h: History, who: int)
    reads b`root, v, v.root
  {
    && (v.state == Pending <==> Ready(h, who))
    && (Ready(h, who) ==>
          && v.root != null && v.root.items == [Blank(Invalid)]
          && v.index == 0 && v.nitems == 0 && v.elems == null
          && (v.root == b.root <==> Holder(h) == Some(who)))
  }

  ghost predicate Apart(v: ValueBuilder, w: ValueBuilder)
    reads v, w
  {
    v.state == Pending && w.state == Pending ==> v.root != w.root
  }

  /** The builders' fields are what the history says. */
  ghost predicate Tracks(b: MessageBuilder, values: seq<ValueBuilder>, h: History)
    reads b, b.root, values, Roots(values)
  {
    && Distinct(values) && b.Valid()
    && b.stage == (if Begun(h).None? then Unused else if Holder(h).None? then Open else Lending)
    && b.head == LastHead(h) && b.Value() == LastValue(h)
    && (Holder(h).Some? ==> 0 <= Holder(h).value < |values| && b.borrowedTo == values[Holder(h).value])
    && (forall i | 0 <= i < |values| :: Points(b, values[i], h, i))
    && (forall i, j | 0 <= i < j < |values| :: Apart(values[i], values[j]))
  }

  method DoBegin(b: MessageBuilder, values: seq<ValueBuilder>, call: Call, ghost h: History) returns (code: Error)
    requires Tracks(b, values, h) && Right(h) && call.BeginCall?
    modifies b
    ensures Tracks(b, values, After(h, call, code, None)) && code == Deserved(h, call)
  {
    if Holder(h).Some? {
      HolderHasMessage(h);
    }
    code := b.Begin(call.op);
  }

  method DoHead(b: MessageBuilder, values: seq<ValueBuilder>, call: Call, ghost h: History) returns (code: Error)
    requires Tracks(b, values, h) && Right(h) && (call.PathCall? || call.SelectorCall? || call.SeqCall?)
    modifies b`head
    ensures Tracks(b, values, After(h, call, code, None)) && code == Deserved(h, call)
  {
    if Holder(h).Some? {
      HolderHasMessage(h);
    }
    forall i, c | 0 <= i < |values| ensures Points(b, values[i], After(h, call, c, None), i) {
      assert Points(b, values[i], h, i);
    }
    match call
    case PathCall(path) => code := b.SetPath(path);
    case SelectorCall(selector) => code := b.SetSelector(selector);
    case SeqCall(seqNo) => code := b.SetSeq(seqNo);
  }

  method DoSet(b: MessageBuilder, values: seq<ValueBuilder>, call: Call, ghost h: History) returns (code: Error)
    requires Tracks(b, values, h) && call.SetCall?
    modifies b
    ensures Tracks(b, values, After(h, call, code, None)) && code == Deserved(h, call)
  {
    code := b.SetValue(call.a);
  }

  method DoStart(b: MessageBuilder, values: seq<ValueBuilder>, call: Call, ghost h: History) returns (code: Error)
    requires Tracks(b, values, h) && call.StartCall? && ValidCall(call, |values|)
    modifies b, values
    ensures forall i | 0 <= i < |values| ::
      values[i].root == null || values[i].root == old(values[i].root) || fresh(values[i].root)
    ensures Tracks(b, values, After(h, call, code, None)) && code == Deserved(h, call)
  {
    code := b.ValueStart(values[call.who]);
  }

  method DoEnd(b: MessageBuilder, values: seq<ValueBuilder>, call: Call, ghost h: History) returns (code: Error)
    requires Tracks(b, values, h) && Right(h) && call.EndCall? && ValidCall(call, |values|)
    modifies b, values
    ensures forall i | 0 <= i < |values| ::
      values[i].root == null || values[i].root == old(values[i].root) || fresh(values[i].root)
    ensures Tracks(b, values, After(h, call, code, None)) && code == Deserved(h, call)
  {
    if Holder(h).Some? {
      HolderHasMessage(h);
    }
    code := b.ValueEnd(values[call.who]);
  }

  method DoFill(b: MessageBuilder, values: seq<ValueBuilder>, call: Call, ghost h: History) returns (code: Error)
    requires Tracks(b, values, h) && Right(h) && call.FillCall? && ValidCall(call, |values|)
    modifies values, Roots(values)
    ensures forall i | 0 <= i < |values| ::
      values[i].root == null || values[i].root == old(values[i].root) || fresh(values[i].root)
    ensures Tracks(b, values, After(h, call, code, None)) && code == Deserved(h, call)
  {
    if Holder(h).Some? {
      HolderHasMessage(h);
    }
    var v := values[call.who];
    if v.state != Pending {
      return EINVAL;
    }
    assert Points(b, v, h, call.who);
    code := Builders.Build(v, call.a);
    assert code == Deserved(h, call);
  }

  method DoBuild(b: MessageBuilder, values: seq<ValueBuilder>, call: Call, ghost h: History)
    returns (code: Error, packet: Option<Packet>)
    requires Tracks(b, values, h) && (call.BuildCall? || call.DiscardCall?)
    modifies b
    ensures Tracks(b, values, After(h, call, code, packet)) && code == Deserved(h, call)
    ensures packet == if call.BuildCall? && code == OK then Some(Packet(LastHead(h), LastValue(h))) else None
  {
    match call
    case BuildCall(craft) =>
      code, packet := b.Build(craft);
    case DiscardCall =>
      b.Discard();
      code, packet := OK, None;
  }

  method Do(b: MessageBuilder, values: seq<ValueBuilder>, call: Call, ghost h: History)
    returns (code: Error, packet: Option<Packet>)
    requires Tracks(b, values, h) && Right(h) && ValidCall(call, |values|)
    modifies b, values, Roots(values)
    ensures forall i | 0 <= i < |values| ::
      values[i].root == null || values[i].root == old(values[i].root) || fresh(values[i].root)
    ensures Tracks(b, values, After(h, call, code, packet)) && Right(After(h, call, code, packet))
  {
    packet := None;
    match call
    case BeginCall(_) => code := DoBegin(b, values, call, h);
    case SetCall(_) => code := DoSet(b, values, call, h);
    case StartCall(_) => code := DoStart(b, values, call, h);
    case FillCall(_, _) => code := DoFill(b, values, call, h);
    case EndCall(_) => code := DoEnd(b, values, call, h);
    case BuildCall(_) => code, packet := DoBuild(b, values, call, h);
    case DiscardCall => code, packet := DoBuild(b, values, call, h);
    case _ => code := DoHead(b, values, call, h);
  }

  method NewValues(n: nat) returns (values: seq<ValueBuilder>)
    ensures |values| == n && Distinct(values)
    ensures forall k | 0 <= k < n :: fresh(values[k]) && values[k].state == Idle && values[k].root == null
  {
    values := [];
    for i := 0 to n
      invariant |values| == i && Distinct(values)
      invariant forall k | 0 <= k < i :: fresh(values[k]) && values[k].state == Idle && values[k].root == null
    {
      var v := new ValueBuilder();
      values := values + [v];
    }
  }

  /** Every sequence of calls on a message builder, with any number of value builders, returns what is right. */
  method Run(calls: seq<Call>, n: nat) returns (h: History)
    requires forall i | 0 <= i < |calls| :: ValidCall(calls[i], n)
    ensures Calls(h) == calls && Right(h)
  {
    var values := NewValues(n);
    var b := new MessageBuilder();
    h := Nothing;
    for i := 0 to |calls|
      invariant fresh(b) && (forall k | 0 <= k < |values| :: fresh(values[k]))
      invariant forall k | 0 <= k < |values| :: values[k].root == null || fresh(values[k].root)
      invariant |values| == n && Tracks(b, values, h) && Right(h) && Calls(h) == calls[..i]
    {
      var code, packet := Do(b, values, calls[i], h);
      h := After(h, calls[i], code, packet);
    }
  }
}
