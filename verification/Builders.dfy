/** The value builder of src/wirefmt/builders.c: an automaton that fills a tree of arguments slot by slot, and
    the deep copy of src/wirefmt/packet-args.c. */
module Builders {
  import opened Wrappers

  const WRAP := 65536      // the item count is 16 bits wide
  const DEFAULT_CAP := 16  // DEFAULT_VAL_CAP

  datatype Kind = Invalid | Basic(code: int) | ArrayKind | PairKind | TupleKind

  /** An argument. A blank one is a slot that has been handed out but not filled. */
  datatype Arg =
    | Blank(slot: Kind)
    | Leaf(code: int, payload: int)
    | ArrayArg(elem: Kind, elems: seq<Arg>)
    | PairArg(first: Arg, second: Arg)
    | TupleArg(elems: seq<Arg>)

  function KindOf(a: Arg): Kind {
    match a
    case Blank(kind) => kind
    case Leaf(code, _) => Basic(code)
    case ArrayArg(_, _) => ArrayKind
    case PairArg(_, _) => PairKind
    case TupleArg(_) => TupleKind
  }

  function Children(a: Arg): (r: seq<Arg>)
    ensures forall i | 0 <= i < |r| :: r[i] < a
  {
    match a
    case ArrayArg(_, elems) => elems
    case TupleArg(elems) => elems
    case PairArg(first, second) => [first, second]
    case _ => []
  }

  /** The kind of slot the children of a list are put into. */
  function SlotKind(a: Arg): Kind {
    if a.ArrayArg? then a.elem else Invalid
  }

  /** An argument with nothing blank in it. */
  ghost predicate Complete(a: Arg)
    decreases a
  {
    !a.Blank? && forall i {:trigger Complete(Children(a)[i])} | 0 <= i < |Children(a)| :: Complete(Children(a)[i])
  }

  /** No list of the tree has more children than the item count can tell. */
  ghost predicate Countable(a: Arg)
    decreases a
  {
    && |Children(a)| <= 65535
    && forall i {:trigger Countable(Children(a)[i])} | 0 <= i < |Children(a)| :: Countable(Children(a)[i])
  }

  /** Every leaf has the kind of the slot it goes into; only arrays hand out slots of a kind. */
  ghost predicate Fits(slot: Kind, a: Arg)
    decreases a, 1
  {
    && (a.Leaf? ==> slot == Invalid || slot == KindOf(a))
    && FitUpTo(a, |Children(a)|)
  }

  /** The first i children fit. */
  ghost predicate FitUpTo(a: Arg, n: int)
    requires n <= |Children(a)|
    decreases a, 0
  {
    forall i {:trigger Fits(SlotKind(a), Children(a)[i])} | 0 <= i < n :: Fits(SlotKind(a), Children(a)[i])
  }

  // ---------- what the calls build ----------

  /** The last children, as many as the 16-bit count says. */
  function Counted(elems: seq<Arg>): seq<Arg> {
    elems[|elems| - |elems| % WRAP..]
  }

  function BuiltAll(elems: seq<Arg>): (r: seq<Arg>)
    ensures |r| == |elems| && forall i {:trigger r[i]} | 0 <= i < |elems| :: r[i] == Built(elems[i])
  {
    seq(|elems|, i requires 0 <= i < |elems| => Built(elems[i]))
  }

  /** The tree that the calls for `a` leave behind. */
  function Built(a: Arg): Arg
  {
    match a
    case ArrayArg(kind, elems) => ArrayArg(kind, Counted(BuiltAll(elems)))
    case TupleArg(elems) => TupleArg(Counted(BuiltAll(elems)))
    case PairArg(first, second) => PairArg(Built(first), Built(second))
    case _ => a
  }

  lemma CountedSame(all: seq<Arg>, elems: seq<Arg>)
    requires |all| == |elems|
    ensures Counted(all) == elems <==> |elems| < WRAP && all == elems
  {
    assert |all| < WRAP ==> Counted(all) == all;
    assert |Counted(all)| < WRAP;
  }

  lemma AllCountable(a: Arg)
    requires forall i {:trigger Built(Children(a)[i])} | 0 <= i < |Children(a)| ::
      Built(Children(a)[i]) == Children(a)[i] <==> Countable(Children(a)[i])
    ensures Countable(a) <==> |Children(a)| < WRAP && BuiltAll(Children(a)) == Children(a)
  {
    var elems, all := Children(a), BuiltAll(Children(a));
    if Countable(a) {
      forall i | 0 <= i < |elems| ensures all[i] == elems[i] {
        assert Countable(elems[i]) && all[i] == Built(elems[i]);
      }
    } else if |elems| < WRAP {
      var i :| 0 <= i < |elems| && !Countable(elems[i]);
      assert all[i] == Built(elems[i]) != elems[i];
    }
  }

  /** The calls leave the tree itself exactly when every list is short enough to count. */
  lemma {:induction false} BuiltIsTheTree(a: Arg)
    ensures Built(a) == a <==> Countable(a)
    decreases a
  {
    var children := Children(a);
    forall i | 0 <= i < |children| ensures Built(children[i]) == children[i] <==> Countable(children[i]) {
      BuiltIsTheTree(children[i]);
    }
    AllCountable(a);
    var all := BuiltAll(children);
    if a.PairArg? {
      assert all[0] == Built(a.first) && all[1] == Built(a.second);
      assert all == children <==> all[0] == a.first && all[1] == a.second;
    } else {
      CountedSame(all, children);
    }
  }

  /** A tuple of 65536 leaves comes out empty. */
  lemma TooManyToCount(code: int, payload: int)
    ensures var a := TupleArg(seq(65536, _ => Leaf(code, payload)));
      Complete(a) && Fits(Invalid, a) && Built(a) == TupleArg([])
  {
    var elems := seq(WRAP, _ => Leaf(code, payload));
    var a := TupleArg(elems);
    forall i | 0 <= i < WRAP ensures Complete(Children(a)[i]) && Fits(SlotKind(a), Children(a)[i]) {
      assert Children(a)[i] == Leaf(code, payload);
    }
    assert Counted(BuiltAll(elems)) == [];
  }

  // ---------- the deep copy ----------

  method ListCopy(src: seq<Arg>) returns (dest: seq<Arg>)
    ensures dest == src
    decreases src, 0
  {
    dest := [];
    for i := 0 to |src|
      invariant dest == src[..i]
    {
      var item := Dup(src[i]);
      dest := dest + [item];
    }
  }

  method Dup(src: Arg) returns (dest: Arg)
    ensures dest == src
    decreases src, 1
  {
    match src
    case ArrayArg(kind, elems) =>
      var copy := ListCopy(elems);
      dest := ArrayArg(kind, copy);
    case TupleArg(elems) =>
      var copy := ListCopy(elems);
      dest := TupleArg(copy);
    case PairArg(first, second) =>
      var f := Dup(first);
      var s := Dup(second);
      dest := PairArg(f, s);
    case _ =>
      dest := src;
  }

  // ---------- the builder ----------

  /** A block of argument slots; a builder points at one slot of it. */
  class Slots {
    var items: seq<Arg>

    constructor (n: nat)
      ensures items == seq(n, _ => Blank(Invalid))
    {
      items := seq(n, _ => Blank(Invalid));
    }
  }

  datatype State = Idle | Pending | InArray | InPair | InTuple

  predicate TakesMoreIn(state: State, nitems: int) {
    state == InArray || state == InTuple || (state == InPair && nitems < 2)
  }

  class ValueBuilder {
    var state: State
    var root: Slots?  // the slot being filled
    var index: int
    var kind: Kind    // of the elements of an array under construction
    var nitems: int
    var elems: Slots? // the children of a list under construction

    ghost predicate Points()
      reads this, root
    {
      root != null && 0 <= index < |root.items|
    }

    ghost predicate Valid()
      reads this, root, elems
    {
      && Points()
      && 0 <= nitems < WRAP
      && elems != root
      && nitems <= (if elems == null then 0 else |elems.items|)
      && (elems != null ==> |elems.items| >= DEFAULT_CAP)
    }

    constructor ()
      ensures state == Idle && root == null
    {
      state, root, index, kind, nitems, elems := Idle, null, 0, Invalid, 0, null;
    }

    method ListStart(list: State, elemKind: Kind) returns (code: Error)
      requires Valid() && (list.InArray? || list.InPair? || list.InTuple?)
      modifies this
      ensures Valid() && root == old(root) && index == old(index)
      ensures old(state) != Pending ==> code == EINVAL && unchanged(this)
      ensures old(state) == Pending ==>
        && code == OK && state == list && nitems == 0 && elems == null
        && kind == if list.InArray? then elemKind else Invalid
    {
      if state != Pending {
        return EINVAL;
      }
      kind := if list.InArray? then elemKind else Invalid;
      nitems, elems := 0, null;
      state := list;
      code := OK;
    }

    /** Makes room for more children, keeping those there are. */
    method Grow()
      requires Valid() && nitems == (if elems == null then 0 else |elems.items|)
      modifies this`elems
      ensures elems != null && fresh(elems) && |elems.items| > nitems && |elems.items| >= DEFAULT_CAP
      ensures old(elems) != null ==> elems.items[..nitems] == old(elems.items)
    {
      var cap := if elems == null then 0 else |elems.items|;
      var newCap := if cap != 0 then cap * 3 / 2 else DEFAULT_CAP;
      var block := new Slots(newCap);
      if elems != null {
        block.items := elems.items + block.items[cap..];
      }
      elems := block;
    }
  
    /** Blanks the next slot, growing the list when it is full. */
    method HandOut()
      requires Valid()
      modifies this`elems, elems
      ensures Valid() && elems != null && (elems == old(elems) || fresh(elems)) && nitems < |elems.items|
      ensures old(elems) != null ==> elems.items[..nitems] == old(elems.items[..nitems])
      ensures elems.items[nitems] == Blank(if state == InArray then kind else Invalid)
    {
      if nitems >= (if elems == null then 0 else |elems.items|) {
        Grow();
      }
      elems.items := elems.items[nitems := Blank(if state == InArray then kind else Invalid)];
    }

    method PointAt(slots: Slots, i: int)
      modifies this
      ensures state == Pending && root == slots && index == i && nitems == 0 && elems == null
    {
      state, root, index, kind, nitems, elems := Pending, slots, i, Invalid, 0, null;
    }

    /** Hands out the next slot of a list, blank, and points `elem` at it. */
    method Next(elem: ValueBuilder) returns (code: Error)
      requires Valid() && elem != this
      modifies this`nitems, this`elems, elem, elems
      ensures Valid()
      ensures code ==
        if TakesMoreIn(old(state), old(nitems)) then OK else if old(state) == InPair then EOVERFLOW else EINVAL
      ensures code != OK ==>
        unchanged(this) && unchanged(elem) && (elems != null ==> elems.items == old(elems.items))
      ensures code == OK ==>
        && nitems == (old(nitems) + 1) % WRAP
        && elems != null && (elems == old(elems) || fresh(elems))
        && old(nitems) < |elems.items|
        && (old(elems) != null ==> elems.items[..old(nitems)] == old(elems.items[..nitems]))
        && elem.state == Pending && elem.root == elems && elem.index == old(nitems)
        && elem.nitems == 0 && elem.elems == null
        && elems.items[elem.index] == Blank(if state == InArray then kind else Invalid)
    {
      match state {
        case InArray =>
        case InTuple =>
        case InPair =>
          if nitems >= 2 {
            return EOVERFLOW;
          }
        case _ =>
          return EINVAL;
      }
      HandOut();
      elem.PointAt(elems, nitems);
      nitems := (nitems + 1) % WRAP;
      code := OK;
    }

    /** Fills the slot with a copy of `value`. */
    method Set(value: Arg) returns (code: Error)
      requires Valid()
      modifies this`state, root`items
      ensures var slot := old(root.items[index]);
        code ==
        if old(state) != Pending || KindOf(value) == Invalid then EINVAL
        else if KindOf(slot) != Invalid && KindOf(slot) != KindOf(value) then EVALUE_TYPE_MISMATCH
        else OK
      ensures code == OK ==> state == Idle && root.items == old(root.items)[index := value]
      ensures code != OK ==> state == old(state) && root.items == old(root.items)
    {
      if state != Pending {
        return EINVAL;
      }
      if KindOf(value) == Invalid {
        return EINVAL;
      }
      var slot := KindOf(root.items[index]);
      if slot != Invalid && slot != KindOf(value) {
        return EVALUE_TYPE_MISMATCH;
      }
      var copy := Dup(value);
      root.items := root.items[index := copy];
      state := Idle;
      code := OK;
    }

    /** The children handed out so far. */
    ghost function Kids(): seq<Arg>
      requires Valid()
      reads this, root, elems
    {
      if elems == null then [] else elems.items[..nitems]
    }

    method Finish(value: Arg)
      requires Points()
      modifies this, root`items
      ensures old(root).items == old(root.items)[old(index) := value] && state == Idle && root == null
    {
      root.items := root.items[index := value];
      Zero();
    }

    method Zero()
      modifies this
      ensures state == Idle && root == null
    {
      state, root, index, kind, nitems, elems := Idle, null, 0, Invalid, 0, null;
    }

    method ArrayEnd() returns (code: Error)
      requires Valid()
      modifies this, root`items
      ensures old(state) != InArray ==> code == EINVAL && unchanged(this) && root.items == old(root.items)
      ensures old(state) == InArray ==>
        && code == OK && state == Idle && root == null
        && old(root).items == old(root.items)[old(index) := ArrayArg(old(kind), old(Kids()))]
    {
      if state != InArray {
        return EINVAL;
      }
      Finish(ArrayArg(kind, if elems == null then [] else elems.items[..nitems]));
      code := OK;
    }

    method TupleEnd() returns (code: Error)
      requires Valid()
      modifies this, root`items
      ensures old(state) != InTuple ==> code == EINVAL && unchanged(this) && root.items == old(root.items)
      ensures old(state) == InTuple ==>
        && code == OK && state == Idle && root == null
        && old(root).items == old(root.items)[old(index) := TupleArg(old(Kids()))]
    {
      if state != InTuple {
        return EINVAL;
      }
      Finish(TupleArg(if elems == null then [] else elems.items[..nitems]));
      code := OK;
    }

    method PairEnd() returns (code: Error)
      requires Valid()
      modifies this, root`items
      ensures code == if old(state) != InPair then EINVAL else if old(nitems) != 2 then EAGAIN else OK
      ensures code != OK ==> unchanged(this) && root.items == old(root.items)
      ensures code == OK ==>
        && state == Idle && root == null
        && old(root).items == old(root.items)[old(index) := PairArg(old(Kids())[0], old(Kids())[1])]
    {
      if state != InPair {
        return EINVAL;
      }
      if nitems != 2 {
        return EAGAIN;
      }
      Finish(PairArg(elems.items[0], elems.items[1]));
      code := OK;
    }
  }

  // ---------- the calls that build a tree ----------

  function ListState(a: Arg): State {
    match a
    case ArrayArg(_, _) => InArray
    case PairArg(_, _) => InPair
    case TupleArg(_) => InTuple
    case _ => Pending
  }

  /** The last of the first i built children, as many as a 16-bit count of them says. */
  ghost function Tail(a: Arg, i: int): seq<Arg>
    requires 0 <= i <= |Children(a)|
  {
    Counted(BuiltAll(Children(a))[..i])
  }

  lemma NextCount(i: nat)
    ensures (i + 1) % WRAP == if i % WRAP == WRAP - 1 then 0 else i % WRAP + 1
  {
  }

  lemma TailGrows(a: Arg, i: int)
    requires 0 <= i < |Children(a)|
    ensures var t := if i % WRAP == WRAP - 1 then [] else Tail(a, i) + [Built(Children(a)[i])];
      Tail(a, i + 1) == t
    ensures (i % WRAP + 1) % WRAP == (i + 1) % WRAP
  {
    var all := BuiltAll(Children(a));
    assert all[..i + 1] == all[..i] + [all[i]];
    NextCount(i);
  }

  lemma FitStep(a: Arg, i: int)
    requires 0 <= i < |Children(a)|
    ensures FitUpTo(a, i + 1) <==> FitUpTo(a, i) && Fits(SlotKind(a), Children(a)[i])
    ensures !Fits(SlotKind(a), Children(a)[i]) ==> !Fits(Invalid, a)
    ensures FitUpTo(a, |Children(a)|) ==> Fits(Invalid, a)
  {
  }

  method FillOne(b: ValueBuilder, elem: ValueBuilder, child: Arg) returns (code: Error)
    requires b.Valid() && TakesMoreIn(b.state, b.nitems) && elem != b && Complete(child)
    modifies b`nitems, b`elems, elem, b.elems
    ensures b.Valid() && (b.elems == old(b.elems) || fresh(b.elems))
    ensures code ==
      if Fits(if b.state == InArray then b.kind else Invalid, child) then OK else EVALUE_TYPE_MISMATCH
    ensures code == OK ==> b.nitems == (old(b.nitems) + 1) % WRAP
    ensures code == OK ==> b.Kids() == if b.nitems == 0 then [] else old(b.Kids()) + [Built(child)]
    decreases child, 3
  {
    code := b.Next(elem);
    assert old(b.elems) != null ==> b.elems.items[..old(b.nitems)] == old(b.Kids());
    code := Build(elem, child);
  }

  /** The list has its first i children. */
  ghost predicate Filling(b: ValueBuilder, a: Arg, i: int)
    requires 0 <= i <= |Children(a)|
    reads b, b.root, b.elems
  {
    && b.Valid() && b.state == ListState(a) && b.kind == SlotKind(a)
    && b.nitems == i % WRAP && b.Kids() == Tail(a, i)
  }

  method FillNext(b: ValueBuilder, elem: ValueBuilder, a: Arg, i: int) returns (code: Error)
    requires ListState(a) != Pending && Complete(a) && 0 <= i < |Children(a)| && Filling(b, a, i) && elem != b
    modifies b`nitems, b`elems, elem, b.elems
    ensures b.Valid() && (b.elems == old(b.elems) || fresh(b.elems))
    ensures code == if Fits(SlotKind(a), Children(a)[i]) then OK else EVALUE_TYPE_MISMATCH
    ensures code == OK ==> Filling(b, a, i + 1)
    decreases a, 0
  {
    TailGrows(a, i);
    code := FillOne(b, elem, Children(a)[i]);
  }

  /** Fills the children of a started list, each finished before the next is asked for. */
  method FillList(b: ValueBuilder, a: Arg) returns (code: Error)
    requires b.Valid() && b.state == ListState(a) != Pending && Complete(a)
    requires b.nitems == 0 && b.elems == null && b.kind == SlotKind(a)
    modifies b`nitems, b`elems
    ensures code == if Fits(Invalid, a) then OK else EVALUE_TYPE_MISMATCH
    ensures code == OK ==> Filling(b, a, |Children(a)|)
    decreases a, 1
  {
    var elem := new ValueBuilder();
    for i := 0 to |Children(a)|
      invariant Filling(b, a, i) && (b.elems == null || fresh(b.elems))
      invariant FitUpTo(a, i)
    {
      FitStep(a, i);
      code := FillNext(b, elem, a, i);
      if code != OK {
        return;
      }
    }
    code := OK;
  }

  method EndList(b: ValueBuilder, a: Arg) returns (code: Error)
    requires ListState(a) != Pending && Filling(b, a, |Children(a)|)
    modifies b, b.root`items
    ensures code == OK && old(b.root).items == old(b.root.items)[old(b.index) := Built(a)]
    ensures b.state == Idle && b.root == null
  {
    assert Tail(a, |Children(a)|) == Counted(BuiltAll(Children(a)));
    match a
    case ArrayArg(_, _) => code := b.ArrayEnd();
    case TupleArg(_) => code := b.TupleEnd();
    case PairArg(_, _) => code := b.PairEnd();
  }

  /** The calls that build a tree: a leaf is set, a list is started, filled and ended. They succeed exactly when
      every leaf of an array has the array's kind, and then leave the built tree in the slot and nothing else. */
  method Build(b: ValueBuilder, a: Arg) returns (code: Error)
    requires b.Valid() && b.state == Pending && Complete(a)
    modifies b, b.root`items
    ensures code == if Fits(old(KindOf(b.root.items[b.index])), a) then OK else EVALUE_TYPE_MISMATCH
    ensures code == OK ==> old(b.root).items == old(b.root.items)[old(b.index) := Built(a)]
    ensures code != OK ==> old(b.root).items == old(b.root.items)
    ensures if code != OK && a.Leaf? then unchanged(b) else b.state != Pending
    ensures b.root == null || b.root == old(b.root)
    decreases a, 2
  {
    if a.Leaf? {
      code := b.Set(a);
      return;
    }
    code := b.ListStart(ListState(a), SlotKind(a));
    code := FillList(b, a);
    if code == OK {
      code := EndList(b, a);
    }
  }

  method NewBuilder() returns (b: ValueBuilder)
    ensures fresh(b) && b.Valid() && b.state == Pending && fresh(b.root) && b.elems == null
    ensures b.root.items == [Blank(Invalid)] && b.index == 0
  {
    b := new ValueBuilder();
    var slots := new Slots(1);
    b.PointAt(slots, 0);
  }

  /** Building a tree call by call and setting it in one call by deep copy give the same, the tree itself. Only trees
      whose lists can be counted can be handed over in one call. */
  method BuildAndSet(a: Arg) returns (code: Error, built: Arg, copied: Arg)
    requires Complete(a) && Countable(a)
    ensures code == if Fits(Invalid, a) then OK else EVALUE_TYPE_MISMATCH
    ensures copied == a && (code == OK ==> built == a)
  {
    var b := NewBuilder();
    var slots := b.root;
    code := Build(b, a);
    built := slots.items[0];
    BuiltIsTheTree(a);
    var c := NewBuilder();
    slots := c.root;
    var _ := c.Set(a);
    copied := slots.items[0];
  }

  /** A pair asks for more until it has two children, takes no third, and then is made of the two. */
  method PairByCalls(first: Arg, second: Arg) returns (codes: seq<Error>, built: Arg)
    requires Complete(first) && Complete(second) && Fits(Invalid, first) && Fits(Invalid, second)
    ensures codes == [EAGAIN, EAGAIN, EOVERFLOW, OK] && built == PairArg(Built(first), Built(second))
  {
    var b := NewBuilder();
    var slots := b.root;
    var elem := new ValueBuilder();
    var started := b.ListStart(InPair, Invalid);
    var none := b.PairEnd();
    var filled := FillOne(b, elem, first);
    assert b.Kids() == [] + [Built(first)];
    var one := b.PairEnd();
    filled := FillOne(b, elem, second);
    assert b.Kids() == [Built(first)] + [Built(second)];
    var third := b.Next(elem);
    assert b.Kids() == [Built(first), Built(second)];
    var two := b.PairEnd();
    codes, built := [none, one, third, two], slots.items[0];
  }
}
