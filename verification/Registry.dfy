/** The object registry of src/ipc/server/registry.c: one table of paths, in which several paths may lead to the
    same reference-counted object. */
module Registry {
  import opened Wrappers

  const INTROSPECTION := "dicey.Introspection"

  predicate ValidPath(path: string) {
    path != "" && path[0] == '/' && path[|path| - 1] != '/'
  }

  // ---------- what the registry stands for ----------

  /** What a path leads to: the main path of the object and its traits. */
  datatype Entry = Entry(main: string, traits: set<string>)

  datatype Op =
    | AddObject(path: string, traits: seq<string>)
    | AliasObject(path: string, alias: string)
    | UnaliasObject(alias: string)
    | RemoveAliases(path: string)
    | DeleteObject(path: string)
    | RemoveByName(path: string)

  /** Adding traits one by one stops at the first that is unknown or already there. */
  function TraitsCode(known: set<string>, have: set<string>, list: seq<string>): Error
    decreases |list|
  {
    if list == [] then OK
    else if list[0] !in known then ETRAIT_NOT_FOUND
    else if list[0] in have then EINVAL
    else TraitsCode(known, have + {list[0]}, list[1..])
  }

  function CodeOf(known: set<string>, dir: map<string, Entry>, op: Op): Error {
    match op
    case AddObject(path, traits) =>
      if !ValidPath(path) then EPATH_MALFORMED
      else if path in dir then EEXIST
      else TraitsCode(known, {INTROSPECTION}, traits)
    case AliasObject(path, alias) =>
      if !ValidPath(path) || !ValidPath(alias) then EPATH_MALFORMED
      else if path == alias then EINVAL
      else if path !in dir then EPATH_NOT_FOUND
      else if alias !in dir then OK
      else if dir[alias].main != alias && dir[alias].main == dir[path].main then EEXIST
      else EINVAL
    case UnaliasObject(alias) =>
      if !ValidPath(alias) then EPATH_MALFORMED
      else if alias !in dir then EPATH_NOT_FOUND
      else if dir[alias].main == alias then EPATH_NOT_ALIAS
      else OK
    case RemoveAliases(path) =>
      if !ValidPath(path) then EPATH_MALFORMED
      else if path !in dir then EPATH_NOT_FOUND
      else if dir[path].main != path then EINVAL
      else OK
    case DeleteObject(path) =>
      if !ValidPath(path) then EPATH_MALFORMED
      else if path !in dir then EPATH_NOT_FOUND
      else OK
    case RemoveByName(path) =>
      if !ValidPath(path) then EPATH_MALFORMED
      else if path !in dir then EPATH_NOT_FOUND
      else OK
  }

  /** The operation gets as far as making an object, which is freed again if a trait is refused. */
  predicate MakesObject(dir: map<string, Entry>, op: Op) {
    op.AddObject? && ValidPath(op.path) && op.path !in dir
  }

  function DirAfter(known: set<string>, dir: map<string, Entry>, op: Op): map<string, Entry> {
    if CodeOf(known, dir, op) != OK then dir
    else match op
      case AddObject(path, traits) => dir[path := Entry(path, {INTROSPECTION} + (set t | t in traits))]
      case AliasObject(path, alias) => dir[alias := dir[path]]
      case UnaliasObject(alias) => dir - {alias}
      case RemoveAliases(path) => map q | q in dir && (q == path || dir[q].main != path) :: dir[q]
      case DeleteObject(path) => map q | q in dir && dir[q].main != dir[path].main :: dir[q]
      case RemoveByName(path) => dir - {path}
  }

  /** The path is the only one that leads to its object. */
  ghost predicate OnlyName(dir: map<string, Entry>, path: string)
    requires path in dir
  {
    forall q | q in dir && dir[q].main == dir[path].main :: q == path
  }

  /** An object is removed by name only when it has no other. */
  ghost predicate Permitted(dir: map<string, Entry>, op: Op) {
    op.RemoveByName? && op.path in dir ==> OnlyName(dir, op.path)
  }

  /** Removing an object by its only name deletes it. */
  lemma RemoveIsDelete(known: set<string>, dir: map<string, Entry>, path: string)
    requires Permitted(dir, RemoveByName(path))
    ensures CodeOf(known, dir, RemoveByName(path)) == CodeOf(known, dir, DeleteObject(path))
    ensures DirAfter(known, dir, RemoveByName(path)) == DirAfter(known, dir, DeleteObject(path))
  {
    if CodeOf(known, dir, DeleteObject(path)) == OK {
      assert dir - {path} == map q | q in dir && dir[q].main != dir[path].main :: dir[q];
    }
  }

  /** Every main path is itself a path to its object. */
  ghost predicate Closed(dir: map<string, Entry>) {
    && (forall p | p in dir :: ValidPath(p))
    && forall p | p in dir :: dir[p].main in dir && dir[dir[p].main] == dir[p]
  }

  lemma ClosedWith(dir: map<string, Entry>, path: string, entry: Entry)
    requires Closed(dir) && path !in dir && ValidPath(path)
    requires entry.main == path || (entry.main in dir && dir[entry.main] == entry)
    ensures Closed(dir[path := entry])
  {
  }

  lemma ClosedWithin(dir: map<string, Entry>, dir': map<string, Entry>)
    requires Closed(dir) && forall p | p in dir' :: p in dir && dir'[p] == dir[p] && dir[p].main in dir'
    ensures Closed(dir')
  {
  }

  lemma StaysClosed(known: set<string>, dir: map<string, Entry>, op: Op)
    requires Closed(dir) && Permitted(dir, op)
    ensures Closed(DirAfter(known, dir, op))
  {
    if CodeOf(known, dir, op) == OK {
      match op
      case AddObject(path, traits) => ClosedWith(dir, path, DirAfter(known, dir, op)[path]);
      case AliasObject(path, alias) => ClosedWith(dir, alias, dir[path]);
      case _ => ClosedWithin(dir, DirAfter(known, dir, op));
    }
  }

  /** A new alias leads where the path does, and taking it away again restores the directory. */
  lemma UnaliasUndoesAlias(known: set<string>, dir: map<string, Entry>, path: string, alias: string)
    requires Closed(dir) && CodeOf(known, dir, AliasObject(path, alias)) == OK
    ensures var dir' := DirAfter(known, dir, AliasObject(path, alias));
      && dir'[alias] == dir[path]
      && CodeOf(known, dir', UnaliasObject(alias)) == OK
      && DirAfter(known, dir', UnaliasObject(alias)) == dir
  {
    assert dir[alias := dir[path]] - {alias} == dir;
  }

  /** Deleting through any name of an object is the same, and takes away exactly the names of that object. */
  lemma DeleteTakesAllNames(known: set<string>, dir: map<string, Entry>, p: string, q: string)
    requires Closed(dir) && p in dir && q in dir && dir[p].main == dir[q].main
    ensures DirAfter(known, dir, DeleteObject(p)) == DirAfter(known, dir, DeleteObject(q))
    ensures forall r :: r in DirAfter(known, dir, DeleteObject(p)) <==> r in dir && dir[r].main != dir[p].main
    ensures DirAfter(known, DirAfter(known, dir, RemoveAliases(dir[p].main)), DeleteObject(dir[p].main)) ==
      DirAfter(known, dir, DeleteObject(p))
  {
  }

  /** Removing the aliases of an object leaves its main path as its only name: every former alias leads nowhere, and
      the names of other objects are as before. It takes the main path, and nothing else, to do so. */
  lemma AliasesGone(known: set<string>, dir: map<string, Entry>, path: string)
    requires Closed(dir)
    ensures CodeOf(known, dir, RemoveAliases(path)) == OK <==> path in dir && dir[path].main == path
    ensures CodeOf(known, dir, RemoveAliases(path)) == OK ==>
      var dir' := DirAfter(known, dir, RemoveAliases(path));
      && path in dir' && OnlyName(dir', path)
      && (forall q | q in dir' :: q in dir && dir'[q] == dir[q])
      && (forall q | q in dir && dir[q].main != path :: q in dir')
      && forall q | q in dir && dir[q].main == path && q != path ::
           CodeOf(known, dir', UnaliasObject(q)) == EPATH_NOT_FOUND
  {
  }

  /** A list of different traits that are all known, none of which is the one every object has. */
  ghost predicate FreshTraits(known: set<string>, have: set<string>, list: seq<string>) {
    forall i | 0 <= i < |list| :: list[i] in known && list[i] !in have && list[i] !in list[..i]
  }

  lemma {:induction false} TraitsAccepted(known: set<string>, have: set<string>, list: seq<string>)
    ensures TraitsCode(known, have, list) == OK <==> FreshTraits(known, have, list)
    decreases |list|
  {
    if list != [] {
      var rest := list[1..];
      TraitsAccepted(known, have + {list[0]}, rest);
      forall i | 0 <= i < |rest| ensures list[i + 1] == rest[i] && list[..i + 1] == [list[0]] + rest[..i] {}
      if FreshTraits(known, have, list) {
        forall i | 0 <= i < |rest|
          ensures rest[i] in known && rest[i] !in have + {list[0]} && rest[i] !in rest[..i]
        {
          assert list[i + 1] !in list[..i + 1];
        }
      } else if list[0] in known && list[0] !in have && FreshTraits(known, have + {list[0]}, rest) {
        forall i | 0 <= i < |list| ensures list[i] in known && list[i] !in have && list[i] !in list[..i] {
          if i > 0 {
            assert rest[i - 1] !in rest[..i - 1];
          }
        }
      }
    }
  }

  /** The first trait of a list that is not new decides the code. */
  lemma {:induction false} FirstBadTrait(known: set<string>, have: set<string>, list: seq<string>) returns (i: nat)
    requires TraitsCode(known, have, list) != OK
    ensures i < |list| && FreshTraits(known, have, list[..i]) && !FreshTraits(known, have, list[..i + 1])
    ensures TraitsCode(known, have, list) == if list[i] !in known then ETRAIT_NOT_FOUND else EINVAL
    decreases |list|
  {
    i := 0;
    if list[0] in known && list[0] !in have {
      i := FirstBadTrait(known, have + {list[0]}, list[1..]);
      FreshBehind(known, have, list[..i + 1]);
      FreshBehind(known, have, list[..i + 2]);
      assert list[..i + 1][1..] == list[1..][..i] && list[..i + 2][1..] == list[1..][..i + 1];
      i := i + 1;
    } else {
      assert list[..1][0] == list[0];
    }
  }

  lemma FreshBehind(known: set<string>, have: set<string>, list: seq<string>)
    requires list != [] && list[0] in known && list[0] !in have
    ensures FreshTraits(known, have, list) <==> FreshTraits(known, have + {list[0]}, list[1..])
  {
    TraitsAccepted(known, have, list);
    TraitsAccepted(known, have + {list[0]}, list[1..]);
  }

  /** An object is added exactly under a free, well-formed path and with new traits that are known; it is then found
      there with those and the introspection trait, and every other path is as before. */
  lemma AddIsFound(known: set<string>, dir: map<string, Entry>, path: string, list: seq<string>)
    ensures CodeOf(known, dir, AddObject(path, list)) == OK <==>
      ValidPath(path) && path !in dir && FreshTraits(known, {"dicey.Introspection"}, list)
    ensures CodeOf(known, dir, AddObject(path, list)) == OK ==>
      var dir' := DirAfter(known, dir, AddObject(path, list));
      && dir'.Keys == dir.Keys + {path} && (forall q | q in dir :: dir'[q] == dir[q])
      && dir'[path].main == path
      && (forall t :: t in dir'[path].traits <==> t == "dicey.Introspection" || t in list)
  {
    TraitsAccepted(known, {INTROSPECTION}, list);
  }

  /** Aliasing again says that the alias exists; a main path, and a name of another object, cannot become an alias. */
  lemma AliasTwice(known: set<string>, dir: map<string, Entry>, path: string, alias: string, q: string)
    requires Closed(dir) && CodeOf(known, dir, AliasObject(path, alias)) == OK && q in dir
    ensures var dir' := DirAfter(known, dir, AliasObject(path, alias));
      && CodeOf(known, dir', AliasObject(q, alias)) == (if dir[q].main == dir[path].main then EEXIST else EINVAL)
      && (dir[q].main == q ==> CodeOf(known, dir', AliasObject(alias, q)) == EINVAL)
      && (dir[q].main == q ==> CodeOf(known, dir', UnaliasObject(q)) == EPATH_NOT_ALIAS)
      && CodeOf(known, dir', AliasObject(alias, alias)) == EINVAL
  {
  }

  /** The path an operation is about, which for unaliasing is the alias. */
  function PathOf(op: Op): string {
    if op.UnaliasObject? then op.alias else op.path
  }

  /** A path that is empty, does not start with a slash or ends in one is refused by every operation. */
  lemma MalformedIsRefused(known: set<string>, dir: map<string, Entry>, op: Op)
    ensures CodeOf(known, dir, op) == EPATH_MALFORMED <==>
      exists p | p in {PathOf(op), if op.AliasObject? then op.alias else PathOf(op)} ::
        p == "" || p[0] != '/' || p[|p| - 1] == '/'
    ensures !op.AddObject? && CodeOf(known, dir, op) == OK ==> PathOf(op) in dir
    ensures !op.AddObject? && PathOf(op) !in dir && CodeOf(known, dir, op) != EPATH_MALFORMED ==>
      CodeOf(known, dir, op) == if op.AliasObject? && op.alias == op.path then EINVAL else EPATH_NOT_FOUND
  {
    var p := PathOf(op);
    if op.AddObject? {
      TraitsAreNotPaths(known, {INTROSPECTION}, op.traits);
    }
    assert !ValidPath(p) <==> p == "" || p[0] != '/' || p[|p| - 1] == '/';
  }

  lemma {:induction false} TraitsAreNotPaths(known: set<string>, have: set<string>, list: seq<string>)
    ensures TraitsCode(known, have, list) in {OK, ETRAIT_NOT_FOUND, EINVAL}
    decreases |list|
  {
    if list != [] {
      TraitsAreNotPaths(known, have + {list[0]}, list[1..]);
    }
  }

  // ---------- the objects ----------

  class Object {
    var traits: set<string>
    var mainPath: Option<string>
    var aliases: set<string>
    var refcount: int

    constructor ()
      ensures traits == {INTROSPECTION} && mainPath == None && aliases == {} && refcount == 1
    {
      traits, mainPath, aliases, refcount := {INTROSPECTION}, None, {}, 1;
    }

    function Read(): Fields
      reads this
    {
      Fields(traits, mainPath, aliases, refcount)
    }

    method Ref()
      requires refcount > 0
      modifies this`refcount
      ensures refcount == old(refcount) + 1
    {
      refcount := refcount + 1;
    }

    /** The object is freed when the count reaches zero. */
    method Deref()
      requires refcount > 0
      modifies this`refcount
      ensures refcount == old(refcount) - 1
    {
      refcount := refcount - 1;
    }

    method AddTraits(known: set<string>, list: seq<string>) returns (code: Error)
      modifies this`traits
      ensures code == TraitsCode(known, old(traits), list)
      ensures code == OK ==> traits == old(traits) + (set t | t in list)
    {
      for i := 0 to |list|
        invariant TraitsCode(known, old(traits), list) == TraitsCode(known, traits, list[i..])
        invariant traits == old(traits) + (set t | t in list[..i])
      {
        assert list[i..][1..] == list[i + 1..];
        if list[i] !in known {
          return ETRAIT_NOT_FOUND;
        }
        if list[i] in traits {
          return EINVAL;
        }
        traits := traits + {list[i]};
        assert list[..i + 1] == list[..i] + [list[i]];
      }
      assert list[..|list|] == list;
      code := OK;
    }
  }

  // ---------- the paths and the objects as values ----------

  datatype Fields = Fields(traits: set<string>, mainPath: Option<string>, aliases: set<string>, refcount: int)

  /** The path table and every object ever made. */
  datatype Store = Store(paths: map<string, Object>, heap: map<Object, Fields>)

  ghost predicate LeadsTo(s: Store, path: string, o: Object) {
    path in s.paths && s.paths[path] == o
  }

  /** The paths that lead to an object are its main path and its aliases, and its count is their number. */
  ghost predicate Knows(s: Store, o: Object)
    requires o in s.heap
  {
    var f := s.heap[o];
    && f.mainPath.Some?
    && f.mainPath.value !in f.aliases
    && f.refcount == |f.aliases| + 1
    && forall q {:trigger LeadsTo(s, q, o)} :: LeadsTo(s, q, o) <==> q == f.mainPath.value || q in f.aliases
  }

  /** No path leads to a freed object, and an object no path leads to has been freed. */
  ghost predicate Sound(s: Store) {
    && (forall p | p in s.paths :: s.paths[p] in s.heap && s.heap[s.paths[p]].refcount != 0)
    && forall o | o in s.heap && s.heap[o].refcount != 0 :: Knows(s, o)
  }

  ghost function Look(s: Store): map<string, Entry>
    requires Sound(s)
  {
    map p | p in s.paths :: Entry(s.heap[s.paths[p]].mainPath.value, s.heap[s.paths[p]].traits)
  }

  function Made(s: Store, o: Object, path: string, traits: set<string>): Store {
    Store(s.paths[path := o], s.heap[o := Fields(traits, Some(path), {}, 1)])
  }

  function Named(s: Store, o: Object, alias: string): Store
    requires o in s.heap
  {
    var f := s.heap[o];
    Store(s.paths[alias := o], s.heap[o := f.(aliases := f.aliases + {alias}, refcount := f.refcount + 1)])
  }

  function Unnamed(s: Store, o: Object, alias: string): Store
    requires o in s.heap
  {
    var f := s.heap[o];
    Store(s.paths - {alias}, s.heap[o := f.(aliases := f.aliases - {alias}, refcount := f.refcount - 1)])
  }

  function Bared(s: Store, o: Object): Store
    requires o in s.heap
  {
    var f := s.heap[o];
    Store(s.paths - f.aliases, s.heap[o := f.(aliases := {}, refcount := 1)])
  }

  function Gone(s: Store, o: Object): Store
    requires o in s.heap && s.heap[o].mainPath.Some?
  {
    var f := s.heap[o];
    Store(s.paths - f.aliases - {f.mainPath.value}, s.heap[o := f.(refcount := 0)])
  }

  lemma StillKnows(s: Store, s': Store, o: Object)
    requires o in s.heap && o in s'.heap && s'.heap[o] == s.heap[o] && Knows(s, o)
    requires forall q {:trigger LeadsTo(s', q, o)} :: LeadsTo(s', q, o) <==> LeadsTo(s, q, o)
    ensures Knows(s', o)
  {
  }

  function Cut(s: Store, path: string): Store
    requires path in s.paths && s.paths[path] in s.heap
  {
    var o := s.paths[path];
    Store(s.paths - {path}, s.heap[o := s.heap[o].(refcount := s.heap[o].refcount - 1)])
  }

  lemma MadeIsSound(s: Store, o: Object, path: string, traits: set<string>)
    requires Sound(s) && path !in s.paths && o !in s.heap
    ensures Sound(Made(s, o, path, traits))
  {
    var s' := Made(s, o, path, traits);
    forall x | x in s'.heap && s'.heap[x].refcount != 0 ensures Knows(s', x) {
      if x != o {
        StillKnows(s, s', x);
      }
    }
  }

  lemma UnusedIsSound(s: Store, o: Object, f: Fields)
    requires Sound(s) && o !in s.heap && f.refcount == 0
    ensures var s' := s.(heap := s.heap[o := f]);
      Sound(s') && Look(s') == Look(s)
  {
    var s' := s.(heap := s.heap[o := f]);
    forall x | x in s'.heap && s'.heap[x].refcount != 0 ensures Knows(s', x) {
      StillKnows(s, s', x);
    }
  }

  lemma MadeLook(s: Store, o: Object, path: string, traits: set<string>)
    requires Sound(s) && path !in s.paths && o !in s.heap && Sound(Made(s, o, path, traits))
    ensures Look(Made(s, o, path, traits)) == Look(s)[path := Entry(path, traits)]
  {
  }

  lemma NamedIsSound(s: Store, path: string, alias: string)
    requires Sound(s) && path in s.paths && alias !in s.paths
    ensures Sound(Named(s, s.paths[path], alias))
  {
    var o := s.paths[path];
    var s' := Named(s, o, alias);
    forall x | x in s'.heap && s'.heap[x].refcount != 0 ensures Knows(s', x) {
      if x != o {
        StillKnows(s, s', x);
      } else {
        assert Knows(s, o);
        forall q ensures LeadsTo(s', q, o) <==> LeadsTo(s, q, o) || q == alias {}
        assert !LeadsTo(s, alias, o);
      }
    }
  }

  lemma NamedLook(s: Store, path: string, alias: string)
    requires Sound(s) && path in s.paths && alias !in s.paths && Sound(Named(s, s.paths[path], alias))
    ensures Look(Named(s, s.paths[path], alias)) == Look(s)[alias := Look(s)[path]]
  {
  }

  lemma UnnamedIsSound(s: Store, alias: string)
    requires Sound(s) && alias in s.paths && alias in s.heap[s.paths[alias]].aliases
    ensures Sound(Unnamed(s, s.paths[alias], alias))
  {
    var o := s.paths[alias];
    var s' := Unnamed(s, o, alias);
    assert Knows(s, o);
    forall x | x in s'.heap && s'.heap[x].refcount != 0 ensures Knows(s', x) {
      if x != o {
        StillKnows(s, s', x);
      } else {
        forall q ensures LeadsTo(s', q, o) <==> LeadsTo(s, q, o) && q != alias {}
      }
    }
  }

  lemma UnnamedLook(s: Store, alias: string)
    requires Sound(s) && alias in s.paths && Sound(Unnamed(s, s.paths[alias], alias))
    ensures Look(Unnamed(s, s.paths[alias], alias)) == Look(s) - {alias}
  {
  }

  /** Two paths have the same main path exactly when they lead to the same object. */
  lemma SameMain(s: Store, p: string, q: string)
    requires Sound(s) && p in s.paths && q in s.paths
    ensures Look(s)[p].main == Look(s)[q].main <==> s.paths[p] == s.paths[q]
    ensures q in s.heap[s.paths[p]].aliases <==> s.paths[q] == s.paths[p] && q != Look(s)[p].main
  {
    var o, x := s.paths[p], s.paths[q];
    assert Knows(s, o) && Knows(s, x);
    assert LeadsTo(s, Look(s)[p].main, o) && LeadsTo(s, Look(s)[q].main, x);
    assert LeadsTo(s, q, o) <==> x == o;
  }

  lemma AliasesLead(s: Store, o: Object)
    requires o in s.heap && Knows(s, o)
    ensures forall a | a in s.heap[o].aliases :: a in s.paths && s.paths[a] == o
    ensures LeadsTo(s, s.heap[o].mainPath.value, o)
  {
    forall a | a in s.heap[o].aliases ensures LeadsTo(s, a, o) {}
  }

  lemma BaredPaths(s: Store, path: string)
    requires Sound(s) && path in s.paths && s.paths[path] in s.heap && s.heap[s.paths[path]].mainPath == Some(path)
    ensures forall q :: q in Bared(s, s.paths[path]).paths <==>
      q in s.paths && (q == path || s.paths[q] != s.paths[path])
  {
    var o := s.paths[path];
    assert Knows(s, o);
    forall q | q in s.paths ensures q in s.heap[o].aliases <==> q != path && s.paths[q] == o {
      assert LeadsTo(s, q, o) <==> q == path || q in s.heap[o].aliases;
    }
  }

  lemma BaredIsSound(s: Store, o: Object)
    requires Sound(s) && o in s.heap && s.heap[o].refcount != 0
    ensures Sound(Bared(s, o))
  {
    var s' := Bared(s, o);
    assert Knows(s, o);
    forall a | a in s.heap[o].aliases ensures LeadsTo(s, a, o) {}
    forall x | x in s'.heap && s'.heap[x].refcount != 0 ensures Knows(s', x) {
      if x != o {
        StillKnows(s, s', x);
      } else {
        forall q ensures LeadsTo(s', q, o) <==> LeadsTo(s, q, o) && q !in s.heap[o].aliases {}
      }
    }
  }

  lemma BaredLook(s: Store, path: string)
    requires Sound(s) && path in s.paths && Look(s)[path].main == path && Sound(Bared(s, s.paths[path]))
    ensures Look(Bared(s, s.paths[path])) ==
      map q | q in Look(s) && (q == path || Look(s)[q].main != path) :: Look(s)[q]
  {
    forall q | q in s.paths
      ensures q in s.heap[s.paths[path]].aliases <==> !(q == path || Look(s)[q].main != path)
    {
      SameMain(s, path, q);
    }
  }

  lemma GoneIsSound(s: Store, o: Object)
    requires Sound(s) && o in s.heap && s.heap[o].refcount != 0
    ensures Knows(s, o) && Sound(Gone(s, o))
  {
    var s' := Gone(s, o);
    assert Knows(s, o);
    forall q ensures q in s.heap[o].aliases || q == s.heap[o].mainPath.value <==> LeadsTo(s, q, o) {}
    forall x | x in s'.heap && s'.heap[x].refcount != 0 ensures Knows(s', x) {
      StillKnows(s, s', x);
    }
  }

  lemma NamesOf(s: Store, path: string, q: string)
    requires Sound(s) && path in s.paths && q in s.paths
    ensures var o := s.paths[path];
      && o in s.heap && Knows(s, o)
      && (Look(s)[q].main == Look(s)[path].main <==> q in s.heap[o].aliases || q == s.heap[o].mainPath.value)
  {
    var o := s.paths[path];
    assert Knows(s, o);
    SameMain(s, path, q);
    assert LeadsTo(s, q, o) <==> s.paths[q] == o;
  }

  lemma GoneLook(s: Store, path: string)
    requires Sound(s) && path in s.paths && Knows(s, s.paths[path]) && Sound(Gone(s, s.paths[path]))
    ensures Look(Gone(s, s.paths[path])) ==
      map q | q in Look(s) && Look(s)[q].main != Look(s)[path].main :: Look(s)[q]
  {
    forall q | q in s.paths
      ensures Look(s)[q].main == Look(s)[path].main <==>
        q in s.heap[s.paths[path]].aliases || q == s.heap[s.paths[path]].mainPath.value
    {
      NamesOf(s, path, q);
    }
  }

  lemma GoneDirectory(s: Store, path: string, known: set<string>)
    requires Sound(s) && path in s.paths && ValidPath(path)
    ensures var o := s.paths[path];
      Knows(s, o) && Sound(Gone(s, o)) && Look(Gone(s, o)) == DirAfter(known, Look(s), DeleteObject(path))
  {
    GoneIsSound(s, s.paths[path]);
    GoneLook(s, path);
  }

  lemma LookIsClosed(s: Store)
    requires Sound(s) && forall p | p in s.paths :: ValidPath(p)
    ensures Closed(Look(s))
  {
    forall p | p in s.paths ensures var m := Look(s)[p].main; m in s.paths && s.paths[m] == s.paths[p] {
      assert Knows(s, s.paths[p]);
      assert LeadsTo(s, Look(s)[p].main, s.paths[p]);
    }
  }

  /** The names of an object among some paths. */
  ghost function Left(s: Store, todo: set<string>, o: Object): set<string> {
    set q | q in todo && LeadsTo(s, q, o)
  }

  lemma CountIsNames(s: Store, o: Object)
    requires Sound(s) && o in s.heap
    ensures s.heap[o].refcount == |Left(s, s.paths.Keys, o)|
  {
    if s.heap[o].refcount != 0 {
      assert Knows(s, o);
      var f := s.heap[o];
      forall q ensures q in Left(s, s.paths.Keys, o) <==> q in f.aliases + {f.mainPath.value} {
        assert LeadsTo(s, q, o) <==> q == f.mainPath.value || q in f.aliases;
      }
      assert Left(s, s.paths.Keys, o) == f.aliases + {f.mainPath.value};
    } else {
      assert Left(s, s.paths.Keys, o) == {};
    }
  }

  lemma LeftStep(s: Store, todo: set<string>, q: string, o: Object)
    requires q in todo && q in s.paths
    ensures s.paths[q] == o ==> |Left(s, todo, o)| == |Left(s, todo - {q}, o)| + 1
    ensures s.paths[q] != o ==> Left(s, todo, o) == Left(s, todo - {q}, o)
  {
    if s.paths[q] == o {
      assert q in Left(s, todo, o) && Left(s, todo - {q}, o) == Left(s, todo, o) - {q};
    }
  }

  lemma OnlyNameMeansNoAlias(s: Store, path: string)
    requires Sound(s) && path in s.paths
    ensures OnlyName(Look(s), path) <==> s.heap[s.paths[path]].aliases == {}
  {
    var o := s.paths[path];
    assert Knows(s, o);
    var f := s.heap[o];
    forall q | q in s.paths ensures Look(s)[q].main == Look(s)[path].main <==> LeadsTo(s, q, o) {
      SameMain(s, path, q);
    }
    assert LeadsTo(s, path, o) && LeadsTo(s, f.mainPath.value, o);
    if f.aliases != {} {
      var a :| a in f.aliases;
      assert LeadsTo(s, a, o);
    }
  }

  /** Dropping one path keeps the store sound exactly when it is the only name of its object. */
  lemma CutIsSound(s: Store, path: string)
    requires Sound(s) && path in s.paths
    ensures Sound(Cut(s, path)) <==> OnlyName(Look(s), path)
  {
    var o := s.paths[path];
    OnlyNameMeansNoAlias(s, path);
    if s.heap[o].aliases == {} {
      GoneIsSound(s, o);
      assert LeadsTo(s, path, o);
      assert s.paths - {} - {path} == s.paths - {path};
      assert Cut(s, path) == Gone(s, o);
    } else {
      assert Knows(s, o) && !Knows(Cut(s, path), o);
    }
  }

  lemma CutLook(s: Store, path: string)
    requires Sound(s) && path in s.paths && s.paths[path] in s.heap
    ensures Sound(Cut(s, path)) ==> Look(Cut(s, path)) == Look(s) - {path}
  {}

  /** An object with one alias: once either path is dropped by itself, what is left is not sound. Without the main
      path, the alias leads to an object whose main path leads nowhere. */
  lemma DroppingOneOfTwo(o: Object, main: string, alias: string, traits: set<string>)
    requires main != alias
    ensures var s := Store(map[main := o, alias := o], map[o := Fields(traits, Some(main), {alias}, 2)]);
      && Sound(s) && !Sound(Cut(s, main)) && !Sound(Cut(s, alias))
      && alias in Cut(s, main).paths && Cut(s, main).heap[o].mainPath == Some(main) && main !in Cut(s, main).paths
  {
    var s := Store(map[main := o, alias := o], map[o := Fields(traits, Some(main), {alias}, 2)]);
    assert Knows(s, o);
    assert Look(s)[main].main == Look(s)[alias].main;
    CutIsSound(s, main);
    CutIsSound(s, alias);
  }

  // ---------- the registry ----------

  lemma OneMoreObject(objects: set<Object>, o: Object)
    requires o !in objects
    ensures |objects + {o}| == |objects| + 1
  {}

  class Registry {
    var paths: map<string, Object>
    const traits: map<string, set<string>>
    ghost var objects: set<Object> // every object ever made here

    ghost function Snap(): Store
      reads this, objects
    {
      Store(paths, map o | o in objects :: o.Read())
    }

    ghost predicate Valid()
      reads this, objects
    {
      Sound(Snap()) && forall p | p in paths :: ValidPath(p)
    }

    ghost function View(): map<string, Entry>
      requires Valid()
      reads this, objects
    {
      Look(Snap())
    }

    constructor (known: map<string, set<string>>)
      ensures Valid() && paths == map[] && traits == known && objects == {}
    {
      paths, traits, objects := map[], known, {};
    }

    /** Enters a new object under its main path. */
    method Enter(o: Object, path: string)
      requires o !in objects && o.mainPath == None && o.aliases == {} && o.refcount == 1
      modifies this, o
      ensures objects == old(objects) + {o} && Snap() == Made(old(Snap()), o, path, old(o.traits))
    {
      objects := objects + {o};
      paths := paths[path := o];
      o.mainPath := Some(path);
    }

    /** Frees a new object that is not entered. */
    method Drop(o: Object)
      requires o !in objects && o.refcount == 1
      modifies this, o
      ensures objects == old(objects) + {o} && o.refcount == 0
      ensures Snap() == Store(old(Snap()).paths, old(Snap()).heap[o := o.Read()])
    {
      objects := objects + {o};
      o.Deref();
    }

    /** Makes an object with the given traits and, if they are all right, enters it under `path`. */
    method Create(path: string, list: seq<string>) returns (code: Error, ghost o: Object)
      modifies this
      ensures fresh(o) && objects == old(objects) + {o} && |objects| == |old(objects)| + 1
      ensures code == TraitsCode(traits.Keys, {INTROSPECTION}, list)
      ensures code == OK ==>
        Snap() == Made(old(Snap()), o, path, {INTROSPECTION} + (set t | t in list))
      ensures code != OK ==>
        o.refcount == 0 && Snap() == Store(old(Snap()).paths, old(Snap()).heap[o := o.Read()])
    {
      var made := new Object();
      o := made;
      code := made.AddTraits(traits.Keys, list);
      OneMoreObject(objects, o);
      if code == OK {
        Enter(made, path);
      } else {
        Drop(made);
      }
    }

    method Add(path: string, list: seq<string>) returns (code: Error)
      requires Valid()
      modifies this
      ensures Valid() && fresh(objects - old(objects)) && old(objects) <= objects
      ensures |objects| == |old(objects)| + if MakesObject(old(View()), AddObject(path, list)) then 1 else 0
      ensures code == CodeOf(traits.Keys, old(View()), AddObject(path, list))
      ensures View() == DirAfter(traits.Keys, old(View()), AddObject(path, list))
    {
      if !ValidPath(path) {
        return EPATH_MALFORMED;
      }
      if path in paths {
        return EEXIST;
      }
      ghost var s := Snap();
      ghost var o: Object;
      code, o := Create(path, list);
      if code == OK {
        MadeIsSound(s, o, path, {INTROSPECTION} + (set t | t in list));
        MadeLook(s, o, path, {INTROSPECTION} + (set t | t in list));
      } else {
        UnusedIsSound(s, o, o.Read());
      }
    }

    method Attach(o: Object, alias: string)
      requires o in objects && o.refcount > 0
      modifies this`paths, o
      ensures Snap() == Named(old(Snap()), o, alias)
    {
      o.Ref();
      paths := paths[alias := o];
      o.aliases := o.aliases + {alias};
    }

    method Alias(path: string, alias: string) returns (code: Error)
      requires Valid()
      modifies this`paths, objects
      ensures Valid()
      ensures code == CodeOf(traits.Keys, old(View()), AliasObject(path, alias))
      ensures View() == DirAfter(traits.Keys, old(View()), AliasObject(path, alias))
    {
      if !ValidPath(path) || !ValidPath(alias) {
        return EPATH_MALFORMED;
      }
      if path == alias {
        return EINVAL;
      }
      if path !in paths {
        return EPATH_NOT_FOUND;
      }
      var o := paths[path];
      assert o in Snap().heap;
      if alias in paths {
        assert paths[alias] in Snap().heap && Knows(Snap(), paths[alias]) && Knows(Snap(), o);
        var existing := paths[alias].mainPath;
        return if existing != Some(alias) && existing == o.mainPath then EEXIST else EINVAL;
      }
      ghost var s := Snap();
      assert Knows(s, o);
      Attach(o, alias);
      code := OK;
      NamedIsSound(s, path, alias);
      NamedLook(s, path, alias);
    }
  
    /** Drops one path to an object. */
    method RemovePath(path: string) returns (code: Error)
      requires path in paths ==> paths[path].refcount > 0
      modifies this`paths, (set p | p in paths && p == path :: paths[p])`refcount
      ensures code == if path in old(paths) then OK else EPATH_NOT_FOUND
      ensures paths == old(paths) - {path}
      ensures path in old(paths) ==> old(paths)[path].refcount == old(paths[path].refcount) - 1
      ensures path in old(paths) && old(paths)[path] in objects ==> Snap() == Cut(old(Snap()), path)
    {
      if path !in paths {
        return EPATH_NOT_FOUND;
      }
      var o := paths[path];
      paths := paths - {path};
      o.Deref();
      code := OK;
    }

    method Detach(o: Object, alias: string) returns (code: Error)
      requires o in objects && alias in paths && paths[alias] == o && o.refcount > 0
      modifies this`paths, o
      ensures code == OK && Snap() == Unnamed(old(Snap()), o, alias)
    {
      o.aliases := o.aliases - {alias};
      code := RemovePath(alias);
    }

    method Unalias(alias: string) returns (code: Error)
      requires Valid()
      modifies this`paths, objects
      ensures Valid()
      ensures code == CodeOf(traits.Keys, old(View()), UnaliasObject(alias))
      ensures View() == DirAfter(traits.Keys, old(View()), UnaliasObject(alias))
    {
      if !ValidPath(alias) {
        return EPATH_MALFORMED;
      }
      if alias !in paths {
        return EPATH_NOT_FOUND;
      }
      ghost var s := Snap();
      SameMain(s, alias, alias);
      var o := paths[alias];
      if alias !in o.aliases {
        return EPATH_NOT_ALIAS;
      }
      assert Knows(s, o);
      code := Detach(o, alias);
      UnnamedIsSound(s, alias);
      UnnamedLook(s, alias);
    }

    /** Drops every alias of an object; the count never reaches zero on the way. */
    method DropAliases(o: Object)
      requires o.refcount == |o.aliases| + 1
      requires forall a | a in o.aliases :: a in paths && paths[a] == o
      modifies this`paths, o`refcount
      ensures paths == old(paths) - o.aliases && o.refcount == 1
    {
      var todo := o.aliases;
      while todo != {}
        invariant todo <= o.aliases
        invariant paths == old(paths) - (o.aliases - todo)
        invariant o.refcount == |todo| + 1
        decreases |todo|
      {
        var alias :| alias in todo;
        todo := todo - {alias};
        var code := RemovePath(alias);
        assert code == OK;
      }
    }

    method Bare(o: Object)
      requires o in objects && o.refcount == |o.aliases| + 1
      requires forall a | a in o.aliases :: a in paths && paths[a] == o
      modifies this`paths, o
      ensures Snap() == Bared(old(Snap()), o)
    {
      DropAliases(o);
      o.aliases := {};
    }

    method RemoveAllAliases(path: string) returns (code: Error)
      requires Valid()
      modifies this`paths, objects
      ensures Valid()
      ensures code == CodeOf(traits.Keys, old(View()), RemoveAliases(path))
      ensures View() == DirAfter(traits.Keys, old(View()), RemoveAliases(path))
      ensures code == OK ==>
        forall q :: q in paths <==> q in old(paths) && (q == path || old(paths)[q] != old(paths)[path])
    {
      if !ValidPath(path) {
        return EPATH_MALFORMED;
      }
      if path !in paths {
        return EPATH_NOT_FOUND;
      }
      ghost var s := Snap();
      var o := paths[path];
      assert Knows(s, o);
      if o.mainPath != Some(path) {
        return EINVAL;
      }
      AliasesLead(s, o);
      BaredPaths(s, path);
      Bare(o);
      code := OK;
      BaredIsSound(s, o);
      BaredLook(s, path);
    }

    method Purge(o: Object)
      requires o in objects && o.refcount == |o.aliases| + 1 && o.mainPath.Some?
      requires forall a | a in o.aliases :: a in paths && paths[a] == o
      modifies this`paths, o`refcount
      ensures o.refcount == 0 && Snap() == Gone(old(Snap()), o)
    {
      DropAliases(o);
      paths := paths - {o.mainPath.value};
      o.Deref();
    }

    method Delete(path: string) returns (code: Error)
      requires Valid()
      modifies this`paths, objects
      ensures Valid()
      ensures code == CodeOf(traits.Keys, old(View()), DeleteObject(path))
      ensures View() == DirAfter(traits.Keys, old(View()), DeleteObject(path))
      ensures code == OK ==> old(paths)[path].refcount == 0
    {
      if !ValidPath(path) {
        return EPATH_MALFORMED;
      }
      if path !in paths {
        return EPATH_NOT_FOUND;
      }
      ghost var s := Snap();
      var o := paths[path];
      GoneDirectory(s, path, traits.Keys);
      assert CodeOf(traits.Keys, View(), DeleteObject(path)) == OK;
      AliasesLead(s, o);
      Purge(o);
      code := OK;
    }

    /** Dropping one path keeps the registry sound exactly when it is the only name of its object. */
    method RemoveObject(path: string) returns (code: Error)
      requires Valid()
      modifies this`paths, objects
      ensures code == CodeOf(traits.Keys, old(View()), RemoveByName(path))
      ensures code != OK ==> Snap() == old(Snap())
      ensures code == OK ==> paths == old(paths) - {path}
      ensures code == OK ==> (Valid() <==> old(OnlyName(View(), path)))
      ensures Valid() ==> View() == DirAfter(traits.Keys, old(View()), RemoveByName(path))
    {
      if !ValidPath(path) {
        return EPATH_MALFORMED;
      }
      if path !in paths {
        return EPATH_NOT_FOUND;
      }
      ghost var s := Snap();
      assert Knows(s, paths[path]) && CodeOf(traits.Keys, View(), RemoveByName(path)) == OK;
      code := RemovePath(path);
      CutIsSound(s, path);
      CutLook(s, path);
    }
  
    /** Sweeps the whole table; every object ever made ends with a count of exactly zero. */
    method Deinit()
      requires Valid()
      modifies this`paths, objects`refcount
      ensures paths == map[] && forall o | o in objects :: o.refcount == 0
    {
      ghost var s := Snap();
      forall o | o in objects ensures o.refcount == |Left(s, s.paths.Keys, o)| {
        CountIsNames(s, o);
      }
      var todo := paths.Keys;
      while todo != {}
        invariant todo <= s.paths.Keys && paths == s.paths
        invariant forall p | p in paths :: paths[p] in objects
        invariant forall o | o in objects :: o.refcount == |Left(s, todo, o)|
        decreases |todo|
      {
        var path :| path in todo;
        forall o | o in objects
          ensures o.refcount == |Left(s, todo - {path}, o)| + if o == paths[path] then 1 else 0
        {
          LeftStep(s, todo, path, o);
        }
        todo := todo - {path};
        paths[path].Deref();
      }
      paths := map[];
      assert forall o | o in objects :: Left(s, {}, o) == {};
    }

    method IsAlias(path: string) returns (code: Error)
      requires Valid()
      ensures code ==
        if !ValidPath(path) then EPATH_MALFORMED
        else if path !in View() then EPATH_NOT_FOUND
        else if exists q | q in View() :: View()[q].main == path then EPATH_NOT_ALIAS
        else OK
    {
      if !ValidPath(path) {
        return EPATH_MALFORMED;
      }
      if path !in paths {
        return EPATH_NOT_FOUND;
      }
      LookIsClosed(Snap());
      assert path in View();
      code := if paths[path].mainPath != Some(path) then OK else EPATH_NOT_ALIAS;
    }

    method MainPath(path: string) returns (main: Option<string>)
      requires Valid()
      ensures main == if path in View() then Some(View()[path].main) else None
    {
      if !ValidPath(path) || path !in paths {
        return None;
      }
      assert Knows(Snap(), paths[path]);
      main := paths[path].mainPath;
    }

    /** An element is found under any name of an object that has its trait, and comes with the main path. */
    method ElementEntry(path: string, traitName: string, elem: string) returns (main: Option<string>)
      requires Valid()
      ensures main.Some? <==>
        path in View() && traitName in View()[path].traits && traitName in traits && elem in traits[traitName]
      ensures main.Some? ==> main.value == View()[path].main
    {
      if !ValidPath(path) || path !in paths {
        return None;
      }
      assert Knows(Snap(), paths[path]);
      if traitName !in paths[path].traits || traitName !in traits || elem !in traits[traitName] {
        return None;
      }
      main := paths[path].mainPath;
    }

    method Apply(op: Op) returns (code: Error)
      requires Valid() && Permitted(View(), op)
      modifies this, objects
      ensures Valid() && fresh(objects - old(objects)) && old(objects) <= objects
      ensures |objects| == |old(objects)| + if MakesObject(old(View()), op) then 1 else 0
      ensures code == CodeOf(traits.Keys, old(View()), op)
      ensures View() == DirAfter(traits.Keys, old(View()), op)
    {
      match op
      case AddObject(path, list) => code := Add(path, list);
      case AliasObject(path, alias) => code := Alias(path, alias);
      case UnaliasObject(alias) => code := Unalias(alias);
      case RemoveAliases(path) => code := RemoveAllAliases(path);
      case DeleteObject(path) => code := Delete(path);
      case RemoveByName(path) => code := RemoveObject(path);
    }
  }

  // ---------- whole runs ----------

  function DirAt(known: set<string>, ops: seq<Op>, n: nat): map<string, Entry>
    requires n <= |ops|
  {
    if n == 0 then map[] else DirAfter(known, DirAt(known, ops, n - 1), ops[n - 1])
  }

  /** The codes of the first operations of a run. */
  function Codes(known: set<string>, ops: seq<Op>, n: nat): seq<Error>
    requires n <= |ops|
  {
    if n == 0 then [] else Codes(known, ops, n - 1) + [CodeOf(known, DirAt(known, ops, n - 1), ops[n - 1])]
  }

  /** How many objects the first operations of a run make. */
  function MadeBy(known: set<string>, ops: seq<Op>, n: nat): nat
    requires n <= |ops|
  {
    if n == 0 then 0
    else MadeBy(known, ops, n - 1) + if MakesObject(DirAt(known, ops, n - 1), ops[n - 1]) then 1 else 0
  }

  /** What is known of a registry after n operations of a run. */
  ghost predicate RunSoFar(registry: Registry, known: set<string>, ops: seq<Op>, codes: seq<Error>)
    reads registry, registry.objects
  {
    && registry.Valid() && registry.traits.Keys == known && |codes| <= |ops|
    && registry.View() == DirAt(known, ops, |codes|)
    && codes == Codes(known, ops, |codes|)
    && |registry.objects| == MadeBy(known, ops, |codes|)
  }

  method RunOne(registry: Registry, ops: seq<Op>, codes: seq<Error>) returns (codes': seq<Error>)
    requires |codes| < |ops| && RunSoFar(registry, registry.traits.Keys, ops, codes)
    requires Permitted(DirAt(registry.traits.Keys, ops, |codes|), ops[|codes|])
    modifies registry, registry.objects
    ensures |codes'| == |codes| + 1 && RunSoFar(registry, registry.traits.Keys, ops, codes')
    ensures fresh(registry.objects - old(registry.objects))
  {
    ghost var known := registry.traits.Keys;
    var code := registry.Apply(ops[|codes|]);
    codes' := codes + [code];
    assert registry.traits.Keys == known && registry.View() == DirAt(known, ops, |codes'|);
    assert codes' == Codes(known, ops, |codes'|);
  }

  /** Every run gives the codes the directory says, whatever names its objects went by, and the final sweep
      takes every object made on the way to a count of zero. */
  method Run(known: map<string, set<string>>, ops: seq<Op>) returns (codes: seq<Error>, registry: Registry)
    requires forall n | 0 <= n < |ops| :: Permitted(DirAt(known.Keys, ops, n), ops[n])
    ensures codes == Codes(known.Keys, ops, |ops|)
    ensures |registry.objects| == MadeBy(known.Keys, ops, |ops|)
    ensures registry.paths == map[] && forall o | o in registry.objects :: o.refcount == 0
  {
    registry := new Registry(known);
    codes := [];
    for n := 0 to |ops|
      invariant fresh(registry) && fresh(registry.objects) && registry.traits == known
      invariant |codes| == n && RunSoFar(registry, known.Keys, ops, codes)
    {
      codes := RunOne(registry, ops, codes);
    }
    registry.Deinit();
  }
}
