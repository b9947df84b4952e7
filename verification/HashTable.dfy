/** The chained hash table: bucket heads, overflow cells, holes left by removals, growth and
    rehashing all live in one array of cells. */
module HashTable {
  import opened Arith
  import opened Wrappers

  const PRIMES: seq<int> := [
    53, 97, 193, 389, 769, 1543, 3079, 6151, 12289,
    24593, 49157, 98317, 196613, 393241, 786433, 1572869, 3145739, 6291469,
    12582917, 25165843, 50331653, 100663319, 201326611, 402653189, 805306457, 1610612741
  ]
  const REHASH_THRESHOLD := 75

  /** Beyond this many entries `len * 100` no longer fits in 32 bits. */
  const MAX_ENTRIES := 42_949_672

  /** A C string: its bytes, without the terminator. */
  type Key = string

  /** A stored `void *`. */
  type Ptr = int
  const NULL: Ptr := 0

  /** `next` is the offset of the next cell of the same bucket; 0 means none. */
  datatype Cell = Cell(key: Option<Key>, value: Ptr, next: int)

  /** `buckets` is the prime at index `prime`, which the source keeps as one pointer into the list;
      the capacity is the number of cells. */
  datatype Table = Table(len: int, prime: int, buckets: int, freeCur: int, cells: seq<Cell>)

  datatype SetResult = FAILED | ADDED | UPDATED

  // ---------- djb2 ----------

  /** The hash before any truncation: the key read as a number in base 33. */
  function Base33(key: Key): nat {
    if key == [] then 5381 else 33 * Base33(key[..|key| - 1]) + key[|key| - 1] as int % 256
  }

  function Bucket(key: Key, buckets: int): (b: int)
    requires buckets > 0
    ensures 0 <= b < buckets
  {
    Base33(key) % U32 % buckets
  }

  method Djb2(key: Key) returns (hash: nat)
    ensures hash == Base33(key) % U32
  {
    hash := 5381;
    for i := 0 to |key|
      invariant hash == Base33(key[..i]) % U32
    {
      assert key[..i + 1][..i] == key[..i];
      var c := key[i] as int % 256;
      WrapStep(Base33(key[..i]), c);
      var shifted := hash * 32 % U32;
      hash := (shifted + hash + c) % U32;
    }
    assert key[..|key|] == key;
  }

  /** Truncating at every step is the same as truncating once at the end. */
  lemma WrapStep(a: nat, c: nat)
    ensures (a % U32 * 32 % U32 + a % U32 + c) % U32 == (33 * a + c) % U32
  {
    var q, r := a / U32, a % U32;
    var p, s := r * 32 / U32, r * 32 % U32;
    assert 33 * a + c == (33 * q + p) * U32 + (s + r + c);
    ModShift(33 * q + p, s + r + c);
  }

  lemma ModShift(k: int, x: int)
    ensures (k * U32 + x) % U32 == x % U32
  {}

  // ---------- the shape of the cell array ----------

  /** What the cells mean: `home` is the bucket of a key, `owner[i]` the bucket of used cell `i`, `loc`
      the cell of each stored key and `items` its value. */
  datatype View = View(home: Key -> int, owner: seq<int>, loc: map<Key, int>, items: map<Key, Ptr>)

  /** Cell `i` comes before cell `j` in the same bucket. */
  ghost predicate Before(owner: seq<int>, i: int, j: int) {
    0 <= i < j < |owner| && owner[i] == owner[j]
  }

  ghost predicate Holds(cells: seq<Cell>, i: int, key: Key) {
    0 <= i < |cells| && cells[i].key == Some(key)
  }

  /** Two used cells of the same bucket are linked in ascending order with no cell of that bucket in
      between, and cells past `used` are blank. */
  ghost predicate Linked(cells: seq<Cell>, buckets: int, used: int, owner: seq<int>) {
    && 0 < buckets <= used <= |cells|
    && |owner| == used
    && (forall i | 0 <= i < buckets :: owner[i] == i)
    && (forall i | 0 <= i < used :: 0 <= owner[i] < buckets)
    && (forall i | 0 <= i < used && cells[i].next != 0 :: i < cells[i].next < used)
    && (forall i {:trigger owner[cells[i].next]} | 0 <= i < used && cells[i].next != 0 ::
          owner[cells[i].next] == owner[i])
    && (forall i, j | Before(owner, i, j) :: 0 < cells[i].next <= j)
    && (forall i | used <= i < |cells| :: cells[i].next == 0 && cells[i].key == None)
  }

  /** `loc` maps every stored key to the only cell that holds it, and `items` to its value. */
  ghost predicate Indexed(cells: seq<Cell>, loc: map<Key, int>, items: map<Key, Ptr>) {
    && items.Keys == loc.Keys
    && (forall k {:trigger loc[k]} | k in loc :: Holds(cells, loc[k], k) && cells[loc[k]].value == items[k])
    && (forall i, k | Holds(cells, i, k) :: k in loc && loc[k] == i)
  }

  /** Every stored key lies in the bucket of its hash. */
  ghost predicate Housed(home: Key -> int, owner: seq<int>, loc: map<Key, int>) {
    forall k | k in loc :: 0 <= loc[k] < |owner| && owner[loc[k]] == home(k)
  }

  ghost predicate Ok(t: Table, v: View) {
    && 0 <= t.prime < |PRIMES| && t.buckets == PRIMES[t.prime]
    && t.len == |v.items|
    && Linked(t.cells, t.buckets, t.freeCur, v.owner)
    && Indexed(t.cells, v.loc, v.items)
    && (forall k {:trigger Bucket(k, t.buckets)} :: v.home(k) == Bucket(k, t.buckets))
    && Housed(v.home, v.owner, v.loc)
    && (|t.cells| == t.buckets || 2 * |t.cells| <= 3 * t.freeCur)
  }

  /** The cells met when following `next` from cell `i`. */
  ghost function Chain(cells: seq<Cell>, buckets: int, used: int, owner: seq<int>, i: int): seq<int>
    requires Linked(cells, buckets, used, owner)
    requires 0 <= i < used
    decreases used - i
  {
    [i] + if cells[i].next == 0 then [] else Chain(cells, buckets, used, owner, cells[i].next)
  }

  lemma {:induction false} ChainFrom(cells: seq<Cell>, buckets: int, used: int, owner: seq<int>, i: int)
    requires Linked(cells, buckets, used, owner)
    requires 0 <= i < used
    ensures var c := Chain(cells, buckets, used, owner, i);
      && (forall j :: j in c <==> i <= j < used && owner[j] == owner[i])
      && (forall x, y | 0 <= x < y < |c| :: c[x] < c[y])
    decreases used - i
  {
    var next := cells[i].next;
    forall j | i < j < used && owner[j] == owner[i] ensures 0 < next <= j {
      assert Before(owner, i, j);
    }
    if next != 0 {
      ChainFrom(cells, buckets, used, owner, next);
      assert owner[cells[i].next] == owner[i];
      var rest := Chain(cells, buckets, used, owner, next);
      assert forall x | 0 <= x < |rest| :: rest[x] in rest;
    }
  }

  /** The bucket chains ascend strictly and partition the used cells: cell `j` lies on the chain of
      its owner and on no other. */
  lemma ChainsPartition(cells: seq<Cell>, buckets: int, used: int, owner: seq<int>, b: int)
    requires Linked(cells, buckets, used, owner) && 0 <= b < buckets
    ensures var c := Chain(cells, buckets, used, owner, b);
      && (forall x, y | 0 <= x < y < |c| :: c[x] < c[y])
      && (forall j | 0 <= j < used :: j in c <==> b == owner[j])
  {
    ChainFrom(cells, buckets, used, owner, b);
  }

  /** A stored key sits in exactly one cell, on the chain of its own hash. */
  lemma KeyOnItsChain(t: Table, v: View, i: int)
    requires Ok(t, v) && 0 <= i < |t.cells| && t.cells[i].key.Some?
    ensures var k := t.cells[i].key.value;
      && i in Chain(t.cells, t.buckets, t.freeCur, v.owner, Bucket(k, t.buckets))
      && forall j | 0 <= j < |t.cells| && t.cells[j].key == Some(k) :: j == i
  {
    var k := t.cells[i].key.value;
    assert Holds(t.cells, i, k);
    forall j | 0 <= j < |t.cells| && t.cells[j].key == Some(k) ensures j == i {
      assert Holds(t.cells, j, k);
    }
    ChainFrom(t.cells, t.buckets, t.freeCur, v.owner, Bucket(k, t.buckets));
  }

  // ---------- what each update of the array keeps ----------

  /** Linking a blank cell behind the last cell of a bucket. */
  lemma AppendKeepsLinks(
    cells: seq<Cell>, buckets: int, used: int, owner: seq<int>, last: int, cell: Cell)
    requires Linked(cells, buckets, used, owner)
    requires used < |cells| && 0 <= last < used && cells[last].next == 0 && cell.next == 0
    ensures Linked(cells[used := cell][last := cells[last].(next := used)],
                   buckets, used + 1, owner + [owner[last]])
  {
    var cells', owner' := cells[used := cell][last := cells[last].(next := used)], owner + [owner[last]];
    forall i, j | Before(owner', i, j) ensures 0 < cells'[i].next <= j {
      if j < used {
        assert Before(owner, i, j);
      } else {
        assert i == last || Before(owner, i, last) || Before(owner, last, i);
      }
    }
  }

  /** Writing a key or a value, or erasing them, leaves the chains alone. */
  lemma WriteKeepsLinks(
    cells: seq<Cell>, buckets: int, used: int, owner: seq<int>, i: int, cell: Cell)
    requires Linked(cells, buckets, used, owner)
    requires 0 <= i < used && cell.next == cells[i].next
    ensures Linked(cells[i := cell], buckets, used, owner)
  {}

  lemma AddKey(
    cells: seq<Cell>, loc: map<Key, int>, items: map<Key, Ptr>, i: int, key: Key, value: Ptr, next: int)
    requires Indexed(cells, loc, items) && 0 <= i < |cells| && cells[i].key == None && key !in loc
    ensures Indexed(cells[i := Cell(Some(key), value, next)], loc[key := i], items[key := value])
  {
    var cells', loc' := cells[i := Cell(Some(key), value, next)], loc[key := i];
    forall j, k | Holds(cells', j, k) ensures k in loc' && loc'[k] == j {
      assert j == i || Holds(cells, j, k);
    }
    forall k | k in loc' ensures Holds(cells', loc'[k], k) {
      assert k == key || Holds(cells, loc[k], k);
    }
  }

  lemma UpdateKey(
    cells: seq<Cell>, loc: map<Key, int>, items: map<Key, Ptr>, key: Key, value: Ptr, next: int)
    requires Indexed(cells, loc, items) && key in loc
    ensures Indexed(cells[loc[key] := Cell(Some(key), value, next)], loc, items[key := value])
  {
    var cells' := cells[loc[key] := Cell(Some(key), value, next)];
    assert Holds(cells, loc[key], key);
    forall j, k | Holds(cells', j, k) ensures k in loc && loc[k] == j {
      assert Holds(cells, j, k);
    }
    forall k | k in loc ensures Holds(cells', loc[k], k) && cells'[loc[k]].value == items[key := value][k] {
      assert Holds(cells, loc[k], k);
    }
  }

  lemma RemoveKey(
    cells: seq<Cell>, loc: map<Key, int>, items: map<Key, Ptr>, key: Key, next: int)
    requires Indexed(cells, loc, items) && key in loc
    ensures Indexed(cells[loc[key] := Cell(None, NULL, next)], loc - {key}, items - {key})
  {
    var cells', loc' := cells[loc[key] := Cell(None, NULL, next)], loc - {key};
    assert Holds(cells, loc[key], key);
    forall j, k | Holds(cells', j, k) ensures k in loc' && loc'[k] == j {
      assert Holds(cells, j, k);
    }
    forall k | k in loc' ensures Holds(cells', loc'[k], k) {
      assert Holds(cells, loc[k], k);
    }
  }

  /** Relinking a cell leaves the keys alone. */
  lemma RelinkKey(cells: seq<Cell>, loc: map<Key, int>, items: map<Key, Ptr>, i: int, next: int)
    requires Indexed(cells, loc, items) && 0 <= i < |cells|
    ensures Indexed(cells[i := cells[i].(next := next)], loc, items)
  {
    var cells' := cells[i := cells[i].(next := next)];
    forall j, k | Holds(cells', j, k) ensures k in loc && loc[k] == j {
      assert Holds(cells, j, k);
    }
    forall k | k in loc ensures Holds(cells', loc[k], k) {
      assert Holds(cells, loc[k], k);
    }
  }

  lemma SizeAfterSet(items: map<Key, Ptr>, key: Key, value: Ptr)
    ensures |items[key := value]| == if key in items then |items| else |items| + 1
  {
    assert items[key := value].Keys == items.Keys + {key};
  }

  lemma SizeAfterRemove(items: map<Key, Ptr>, key: Key)
    requires key in items
    ensures |items - {key}| == |items| - 1
  {
    assert (items - {key}).Keys == items.Keys - {key};
  }

  /** Growing the array by blank cells. */
  lemma GrowKeeps(
    cells: seq<Cell>, buckets: int, used: int, owner: seq<int>,
    loc: map<Key, int>, items: map<Key, Ptr>, blank: seq<Cell>)
    requires Linked(cells, buckets, used, owner) && Indexed(cells, loc, items)
    requires forall i | 0 <= i < |blank| :: blank[i] == Cell(None, NULL, 0)
    ensures Linked(cells + blank, buckets, used, owner)
    ensures Indexed(cells + blank, loc, items)
  {
    var cells' := cells + blank;
    forall j, k | Holds(cells', j, k) ensures k in loc && loc[k] == j {
      assert Holds(cells, j, k);
    }
    forall k | k in loc ensures Holds(cells', loc[k], k) {
      assert Holds(cells, loc[k], k);
    }
  }

  /** Walks the chain of `bucket`: the cell that holds `key` if there is one, else also the first hole
      of the chain and its last cell. */
  method BucketFindEntry(
    cells: seq<Cell>, bucket: int, key: Key, ghost buckets: int, ghost used: int, ghost owner: seq<int>)
    returns (entry: Option<int>, firstFree: Option<int>, bucketEnd: int)
    requires Linked(cells, buckets, used, owner) && 0 <= bucket < buckets
    ensures entry.Some? ==> 0 <= entry.value < used && cells[entry.value].key == Some(key)
    ensures entry.None? ==>
      && (forall i | 0 <= i < used && owner[i] == bucket :: cells[i].key != Some(key))
      && 0 <= bucketEnd < used && cells[bucketEnd].next == 0 && owner[bucketEnd] == bucket
      && (firstFree.Some? ==>
            0 <= firstFree.value < used && cells[firstFree.value].key == None && owner[firstFree.value] == bucket)
      && (firstFree.None? ==> forall i | 0 <= i < used && owner[i] == bucket :: cells[i].key.Some?)
  {
    var cur := bucket;
    firstFree, bucketEnd := None, 0;
    while true
      invariant 0 <= cur < used && owner[cur] == bucket
      invariant forall i | 0 <= i < cur && owner[i] == bucket :: cells[i].key != Some(key)
      invariant firstFree.None? ==> forall i | 0 <= i < cur && owner[i] == bucket :: cells[i].key.Some?
      invariant firstFree.Some? ==>
        0 <= firstFree.value < used && cells[firstFree.value].key == None && owner[firstFree.value] == bucket
      decreases used - cur
    {
      var cell := cells[cur];
      if cell.key.Some? {
        if cell.key.value == key {
          return Some(cur), firstFree, bucketEnd;
        }
      } else if firstFree.None? {
        firstFree := Some(cur);
      }
      forall i | cur < i < used && owner[i] == bucket ensures 0 < cell.next <= i {
        assert Before(owner, cur, i);
      }
      if cell.next == 0 {
        return None, firstFree, cur;
      }
      assert owner[cells[cur].next] == owner[cur];
      cur := cell.next;
    }
  }

  /** Every cell of the key's bucket is taken. */
  ghost predicate NoHole(t: Table, v: View, key: Key)
    requires |v.owner| == t.freeCur <= |t.cells|
  {
    forall i | 0 <= i < t.freeCur && v.owner[i] == v.home(key) :: t.cells[i].key.Some?
  }

  method HashGetEntryForSet(t: Table, key: Key, ghost v: View)
    returns (entry: Option<int>, firstFree: Option<int>, bucketEnd: int)
    requires Ok(t, v)
    ensures entry == if key in v.loc then Some(v.loc[key]) else None
    ensures entry.None? ==>
      && 0 <= bucketEnd < t.freeCur && t.cells[bucketEnd].next == 0
      && v.owner[bucketEnd] == v.home(key)
      && (firstFree.Some? ==>
            0 <= firstFree.value < t.freeCur && t.cells[firstFree.value].key == None
            && v.owner[firstFree.value] == v.home(key))
      && (firstFree.None? ==> NoHole(t, v, key))
  {
    var hash := Djb2(key);
    entry, firstFree, bucketEnd :=
      BucketFindEntry(t.cells, hash % t.buckets, key, t.buckets, t.freeCur, v.owner);
    assert Bucket(key, t.buckets) == hash % t.buckets;
    if entry.Some? {
      assert Holds(t.cells, entry.value, key);
    }
  }

  /** Overwrites the value of a stored key. */
  method HashUpdate(t: Table, i: int, key: Key, value: Ptr, ghost v: View) returns (t': Table, ghost v': View)
    requires Ok(t, v) && key in v.loc && v.loc[key] == i
    ensures Ok(t', v') && v'.items == v.items[key := value]
    ensures t' == t.(cells := t'.cells)
  {
    var cell := Cell(Some(key), value, t.cells[i].next);
    WriteKeepsLinks(t.cells, t.buckets, t.freeCur, v.owner, i, cell);
    UpdateKey(t.cells, v.loc, v.items, key, value, t.cells[i].next);
    t' := t.(cells := t.cells[i := cell]);
    v' := v.(items := v.items[key := value]);
    SizeAfterSet(v.items, key, value);
  }

  /** Reuses a hole of the key's own bucket. */
  method HashFill(t: Table, hole: int, key: Key, value: Ptr, ghost v: View) returns (t': Table, ghost v': View)
    requires Ok(t, v) && key !in v.loc
    requires 0 <= hole < t.freeCur && t.cells[hole].key == None && v.owner[hole] == v.home(key)
    ensures Ok(t', v') && v'.items == v.items[key := value]
    ensures t' == t.(len := t.len + 1, cells := t'.cells)
  {
    var cell := Cell(Some(key), value, t.cells[hole].next);
    WriteKeepsLinks(t.cells, t.buckets, t.freeCur, v.owner, hole, cell);
    AddKey(t.cells, v.loc, v.items, hole, key, value, t.cells[hole].next);
    t' := t.(len := t.len + 1, cells := t.cells[hole := cell]);
    v' := v.(loc := v.loc[key := hole], items := v.items[key := value]);
    SizeAfterSet(v.items, key, value);
  }

  /** Turns the cell of a stored key into a hole. */
  method HashPunch(t: Table, i: int, key: Key, ghost v: View) returns (t': Table, ghost v': View)
    requires Ok(t, v) && key in v.loc && v.loc[key] == i
    ensures Ok(t', v') && v'.items == v.items - {key}
    ensures t' == t.(len := t.len - 1, cells := t'.cells)
  {
    var cell := Cell(None, NULL, t.cells[i].next);
    WriteKeepsLinks(t.cells, t.buckets, t.freeCur, v.owner, i, cell);
    RemoveKey(t.cells, v.loc, v.items, key, t.cells[i].next);
    t' := t.(len := t.len - 1, cells := t.cells[i := cell]);
    v' := v.(loc := v.loc - {key}, items := v.items - {key});
    SizeAfterRemove(v.items, key);
  }

  /** Makes room for half as many cells again; fails exactly when that overflows 32 bits. */
  method HashGrow(t: Table, ghost v: View) returns (ok: bool, t': Table)
    requires Ok(t, v) && t.freeCur == |t.cells|
    ensures ok <==> |t.cells| * 3 < U32
    ensures t' == t.(cells := t'.cells) && Ok(t', v)
    ensures if ok then t.cells <= t'.cells && |t'.cells| == |t.cells| * 3 / 2 > |t.cells| else t' == t
  {
    GrowOverflow(|t.cells|);
    var newCap := |t.cells| * 3 % U32 / 2;
    if newCap <= |t.cells| {
      return false, t;
    }
    var blank := seq(newCap - |t.cells|, _ => Cell(None, NULL, 0));
    GrowKeeps(t.cells, t.buckets, t.freeCur, v.owner, v.loc, v.items, blank);
    return true, t.(cells := t.cells + blank);
  }

  /** The 32-bit comparison catches every wrapped capacity. */
  lemma GrowOverflow(cap: int)
    requires 53 <= cap
    ensures cap * 3 % U32 / 2 > cap <==> cap * 3 < U32
  {}

  /** Links a new cell behind the last cell of the key's bucket. */
  method HashBucketAppend(t: Table, last: int, key: Key, value: Ptr, ghost v: View)
    returns (ok: bool, t': Table, ghost v': View)
    requires Ok(t, v) && key !in v.loc
    requires 0 <= last < t.freeCur && t.cells[last].next == 0 && v.owner[last] == v.home(key)
    ensures Ok(t', v')
    ensures ok <==> t.freeCur < |t.cells| || |t.cells| * 3 < U32
    ensures if ok then v'.items == v.items[key := value]
                       && t' == t.(len := t.len + 1, freeCur := t.freeCur + 1, cells := t'.cells)
            else t' == t && v' == v
  {
    t', v' := t, v;
    if t.freeCur >= |t.cells| {
      ok, t' := HashGrow(t, v);
      if !ok {
        return;
      }
    }
    ok := true;
    t', v' := LinkNew(t', last, key, value, v);
  }

  method LinkNew(t: Table, last: int, key: Key, value: Ptr, ghost v: View) returns (t': Table, ghost v': View)
    requires Ok(t, v) && key !in v.loc && t.freeCur < |t.cells|
    requires 0 <= last < t.freeCur && t.cells[last].next == 0 && v.owner[last] == v.home(key)
    ensures Ok(t', v') && v'.items == v.items[key := value]
    ensures t' == t.(len := t.len + 1, freeCur := t.freeCur + 1, cells := t'.cells)
  {
    var at := t.freeCur;
    var cell := Cell(Some(key), value, 0);
    AppendKeepsLinks(t.cells, t.buckets, at, v.owner, last, cell);
    AddKey(t.cells, v.loc, v.items, at, key, value, 0);
    RelinkKey(t.cells[at := cell], v.loc[key := at], v.items[key := value], last, at);
    t' := t.(len := t.len + 1, freeCur := at + 1, cells := t.cells[at := cell][last := t.cells[last].(next := at)]);
    v' := View(v.home, v.owner + [v.owner[last]], v.loc[key := at], v.items[key := value]);
    SizeAfterSet(v.items, key, value);
  }

  // ---------- set and rehash ----------

  /** The 32-bit product `len * 100` has reached the threshold percentage of the buckets. */
  predicate Overloaded(len: int, buckets: int) {
    len * 100 % U32 >= 75 * buckets
  }

  method LoadFactor(len: int, buckets: int) returns (percent: int)
    requires buckets > 0
    ensures percent >= REHASH_THRESHOLD <==> Overloaded(len, buckets)
  {
    percent := len * 100 % U32 / buckets;
    DivBound(len * 100 % U32, buckets, REHASH_THRESHOLD);
  }

  /** The load is below the threshold. */
  ghost predicate Below(t: Table) {
    t.buckets > 0 && 0 <= t.prime <= 21 && 0 <= t.len && t.len * 100 < 75 * t.buckets
  }

  /** It is, and the number of entries is one whose percentage can be computed. */
  ghost predicate Light(t: Table) {
    Below(t) && t.len < MAX_ENTRIES
  }

  /** There are no more overflow cells than entries. */
  ghost predicate Spare(t: Table) {
    t.freeCur <= t.buckets + t.len
  }

  /** A new key finds no hole in its bucket, the array is full, and a larger one has no 32-bit capacity. */
  ghost predicate Cramped(t: Table, v: View, key: Key)
    requires |v.owner| == t.freeCur <= |t.cells|
  {
    NoHole(t, v, key) && t.freeCur == |t.cells| && |t.cells| * 3 >= U32
  }

  /** What setting one key does to the size: the same prime and at most one more cell, or the next prime and no
      more overflow cells than entries. */
  ghost predicate Grows(t: Table, t': Table) {
    && t.len <= t'.len <= t.len + 1
    && if t'.prime == t.prime then t'.buckets == t.buckets && t'.freeCur <= t.freeCur + 1
       else t'.prime == t.prime + 1 && Spare(t')
  }

  ghost predicate KeepsLight(t: Table, t': Table) {
    Light(t) ==> Below(t') && Grows(t, t')
  }

  lemma PrimeStep(i: int)
    requires 0 <= i && i + 1 < |PRIMES|
    ensures 0 < PRIMES[i] && PRIMES[i] + 2 <= PRIMES[i + 1]
    ensures i <= 21 ==> PRIMES[i] <= 100_663_319
    ensures PRIMES[i] <= 57_266_229 ==> i <= 20
  {}

  /** When a light table must be rehashed, the next prime is available and leaves the load below the threshold
      all along the way. */
  lemma NextPrimeSuffices(t: Table, len: int)
    requires 0 <= t.prime < |PRIMES| && t.buckets == PRIMES[t.prime] && Light(t)
    requires Overloaded(t.len + 1, t.buckets)
    ensures t.prime <= 20 && (0 <= len <= t.len + 1 ==> !Overloaded(len, PRIMES[t.prime + 1]))
  {
    PrimeStep(t.prime);
  }

  method HashNew(prime: int) returns (t: Table, ghost v: View)
    requires 0 <= prime < |PRIMES|
    ensures Ok(t, v) && v.items == map[]
    ensures t == Table(0, prime, PRIMES[prime], PRIMES[prime], t.cells)
  {
    var buckets := PRIMES[prime];
    assert buckets > 0;
    t := Table(0, prime, buckets, buckets, seq(buckets, _ => Cell(None, NULL, 0)));
    v := View(k => Bucket(k, buckets), seq(buckets, i => i), map[], map[]);
  }

  /** Sets `key`. A failure leaves the table as it was and can only meet a new key. In a light table the load stays
      below the threshold, at most one rehash takes place, and the set fails exactly when it is cramped. */
  method HashSet(t: Table, key: Key, value: Ptr, ghost v: View)
    returns (res: SetResult, oldValue: Ptr, t': Table, ghost v': View)
    requires Ok(t, v)
    ensures Ok(t', v') && t.prime <= t'.prime
    ensures res == UPDATED <==> key in v.items
    ensures oldValue == if key in v.items then v.items[key] else NULL
    ensures v'.items == if res == FAILED then v.items else v.items[key := value]
    ensures res == FAILED ==> t' == t
    ensures key in v.items || !Overloaded(t.len + 1, t.buckets) ==> t'.prime == t.prime
    ensures KeepsLight(t, t')
    ensures Light(t) ==>
      (res == FAILED <==> key !in v.items && !Overloaded(t.len + 1, t.buckets) && Cramped(t, v, key))
    decreases |PRIMES| - t.prime, 3
  {
    var entry, firstFree, bucketEnd := HashGetEntryForSet(t, key, v);
    if entry.Some? {
      oldValue := t.cells[entry.value].value;
      t', v' := HashUpdate(t, entry.value, key, value, v);
      InPlaceIsLight(t, t');
      res := UPDATED;
    } else {
      var ok: bool;
      ok, t', v' := HashSetNew(t, key, value, firstFree, bucketEnd, v);
      oldValue := NULL;
      res := if ok then ADDED else FAILED;
    }
  }

  /** Sets a key that is not there: in place if that leaves the load below the threshold, else by a rehash. */
  method HashSetNew(t: Table, key: Key, value: Ptr, firstFree: Option<int>, bucketEnd: int, ghost v: View)
    returns (ok: bool, t': Table, ghost v': View)
    requires Ok(t, v) && key !in v.loc
    requires 0 <= bucketEnd < t.freeCur && t.cells[bucketEnd].next == 0 && v.owner[bucketEnd] == v.home(key)
    requires firstFree.Some? ==> 0 <= firstFree.value < t.freeCur && t.cells[firstFree.value].key == None
                                 && v.owner[firstFree.value] == v.home(key)
    requires firstFree.None? ==> NoHole(t, v, key)
    ensures Ok(t', v') && t.prime <= t'.prime
    ensures v'.items == if ok then v.items[key := value] else v.items
    ensures !ok ==> t' == t
    ensures !Overloaded(t.len + 1, t.buckets) ==> t'.prime == t.prime
    ensures KeepsLight(t, t')
    ensures Light(t) ==> (!ok <==> !Overloaded(t.len + 1, t.buckets) && Cramped(t, v, key))
    decreases |PRIMES| - t.prime, 2
  {
    var load := LoadFactor(t.len + 1, t.buckets);
    if load >= REHASH_THRESHOLD {
      ok, t', v' := HashRehashAndSetNew(t, key, value, v);
    } else {
      ok, t', v' := HashSetInPlace(t, key, value, firstFree, bucketEnd, v);
      InPlaceIsLight(t, t');
    }
  }

  lemma InPlaceIsLight(t: Table, t': Table)
    requires t'.prime == t.prime && t'.buckets == t.buckets && t'.freeCur <= t.freeCur + 1
    requires t'.len == t.len || (t'.len == t.len + 1 && !Overloaded(t.len + 1, t.buckets))
    ensures KeepsLight(t, t')
  {}

  /** Puts a new key into a hole of its bucket, or behind its last cell. */
  method HashSetInPlace(t: Table, key: Key, value: Ptr, firstFree: Option<int>, bucketEnd: int, ghost v: View)
    returns (ok: bool, t': Table, ghost v': View)
    requires Ok(t, v) && key !in v.loc
    requires 0 <= bucketEnd < t.freeCur && t.cells[bucketEnd].next == 0 && v.owner[bucketEnd] == v.home(key)
    requires firstFree.Some? ==> 0 <= firstFree.value < t.freeCur && t.cells[firstFree.value].key == None
                                 && v.owner[firstFree.value] == v.home(key)
    requires firstFree.None? ==> NoHole(t, v, key)
    ensures Ok(t', v') && t'.prime == t.prime && t'.buckets == t.buckets
    ensures ok <==> !Cramped(t, v, key)
    ensures t'.freeCur <= t.freeCur + 1 && t'.len == if ok then t.len + 1 else t.len
    ensures v'.items == if ok then v.items[key := value] else v.items
    ensures !ok ==> t' == t
  {
    if firstFree.Some? {
      ok := true;
      t', v' := HashFill(t, firstFree.value, key, value, v);
    } else {
      ok, t', v' := HashBucketAppend(t, bucketEnd, key, value, v);
    }
  }

  /** What of `items` lies in the first `i` cells. */
  ghost predicate CopiedUpTo(v: View, i: int, items: map<Key, Ptr>) {
    && (forall k :: k in items <==> k in v.loc && v.loc[k] < i)
    && (forall k | k in items :: k in v.items && items[k] == v.items[k])
  }

  lemma CopyHole(t: Table, v: View, i: int, items: map<Key, Ptr>)
    requires Ok(t, v) && 0 <= i < |t.cells| && CopiedUpTo(v, i, items) && t.cells[i].key.None?
    ensures CopiedUpTo(v, i + 1, items)
  {
    forall k | k in v.loc ensures v.loc[k] != i {
      assert Holds(t.cells, v.loc[k], k);
    }
  }

  lemma CopyEntry(t: Table, v: View, i: int, items: map<Key, Ptr>, k: Key)
    requires Ok(t, v) && 0 <= i < |t.cells| && CopiedUpTo(v, i, items) && t.cells[i].key == Some(k)
    ensures k !in items && |items| < t.len
    ensures CopiedUpTo(v, i + 1, items[k := t.cells[i].value])
  {
    OnlyKeyThere(t, v, i, k);
    CopiedOneMore(v, i, items, k);
    SubmapSize(items, v.items, k);
  }

  lemma CopiedOneMore(v: View, i: int, items: map<Key, Ptr>, k: Key)
    requires CopiedUpTo(v, i, items) && k in v.loc && v.loc[k] == i && k in v.items
    requires forall k' | k' in v.loc && v.loc[k'] == i :: k' == k
    ensures k !in items && items.Keys <= v.items.Keys && CopiedUpTo(v, i + 1, items[k := v.items[k]])
  {}

  /** Cell `i` is the place of its key and of no other. */
  lemma OnlyKeyThere(t: Table, v: View, i: int, k: Key)
    requires Ok(t, v) && 0 <= i < |t.cells| && t.cells[i].key == Some(k)
    ensures k in v.loc && v.loc[k] == i && k in v.items && v.items[k] == t.cells[i].value
    ensures forall k' | k' in v.loc && v.loc[k'] == i :: k' == k
  {
    assert Holds(t.cells, i, k);
    forall k' | k' in v.loc && v.loc[k'] == i ensures k' == k {
      assert Holds(t.cells, v.loc[k'], k');
    }
  }

  lemma SubmapSize(items: map<Key, Ptr>, all: map<Key, Ptr>, k: Key)
    requires items.Keys <= all.Keys && k in all && k !in items
    ensures |items| < |all|
  {
    var a, b := items.Keys, all.Keys;
    assert |b| == |a| + |b - a|;
    assert k in b - a;
  }

  /** Moves every entry into a fresh table with the next prime and sets the new key there. */
  method HashRehashAndSetNew(t: Table, key: Key, value: Ptr, ghost v: View)
    returns (ok: bool, t': Table, ghost v': View)
    requires Ok(t, v) && key !in v.items && Overloaded(t.len + 1, t.buckets)
    ensures Ok(t', v')
    ensures if ok then t.prime < t'.prime && v'.items == v.items[key := value] else t' == t && v' == v
    ensures KeepsLight(t, t') && (Light(t) ==> ok && t'.prime == t.prime + 1)
    decreases |PRIMES| - t.prime, 1
  {
    if Light(t) {
      NextPrimeSuffices(t, t.len + 1);
    }
    if t.prime + 1 == |PRIMES| {
      return false, t, v;
    }
    t', v' := HashNew(t.prime + 1);
    for i := 0 to |t.cells|
      invariant Ok(t', v') && Following(t, t') && CopiedUpTo(v, i, v'.items)
    {
      ok, t', v' := MoveCell(t, i, t', v, v');
      if !ok {
        return false, t, v;
      }
    }
    AllCopied(t, v, v'.items);
    ok, t', v' := HashSetNext(t, t', key, value, v');
    if !ok {
      return false, t, v;
    }
    SizeAfterSet(v.items, key, value);
  }

  /** Copies the entry of one cell, if it has one, into the table being filled. */
  method MoveCell(t: Table, i: int, next: Table, ghost v: View, ghost w: View)
    returns (ok: bool, t': Table, ghost v': View)
    requires Ok(t, v) && Overloaded(t.len + 1, t.buckets) && 0 <= i < |t.cells|
    requires Ok(next, w) && Following(t, next) && CopiedUpTo(v, i, w.items)
    ensures Ok(t', v') && Following(t, t') && (Light(t) ==> ok)
    ensures ok ==> CopiedUpTo(v, i + 1, v'.items)
    decreases |PRIMES| - t.prime, 0, 1
  {
    if t.cells[i].key.None? {
      CopyHole(t, v, i, w.items);
      return true, next, w;
    }
    CopyEntry(t, v, i, w.items, t.cells[i].key.value);
    ok, t', v' := HashSetNext(t, next, t.cells[i].key.value, t.cells[i].value, w);
  }

  /** A table being filled from a light table `t` uses the next prime, holds no more than `t` and one more
      entry, and has no more overflow cells than entries. */
  ghost predicate Following(t: Table, t': Table) {
    && t.prime < t'.prime
    && (Light(t) ==> t'.prime == t.prime + 1 && t'.len <= t.len + 1 && Below(t') && Spare(t'))
  }

  /** Sets one new key in a table that is being filled from `t`. */
  method HashSetNext(t: Table, next: Table, key: Key, value: Ptr, ghost v: View)
    returns (ok: bool, t': Table, ghost v': View)
    requires 0 <= t.prime < next.prime < |PRIMES| && t.buckets == PRIMES[t.prime] && Overloaded(t.len + 1, t.buckets)
    requires Ok(next, v) && key !in v.items && Following(t, next) && (Light(t) ==> next.len <= t.len)
    ensures Ok(t', v') && Following(t, t')
    ensures v'.items == if ok then v.items[key := value] else v.items
    ensures Light(t) ==> ok
    decreases |PRIMES| - t.prime, 0, 0
  {
    if Light(t) {
      NextPrimeSuffices(t, next.len + 1);
      SpareIsNotCramped(next, v, key);
    }
    var res, oldValue;
    res, oldValue, t', v' := HashSet(next, key, value, v);
    ok := res != FAILED;
    SizeAfterSet(v.items, key, value);
    if Light(t) {
      assert Light(next) && t'.prime == next.prime;
      StillFollows(t, next, t');
    }
  }

  lemma StillFollows(t: Table, next: Table, t': Table)
    requires Light(t) && Following(t, next) && Light(next) && KeepsLight(next, t') && t'.prime == next.prime
    requires next.len <= t.len && t'.len == next.len + 1
    ensures Following(t, t')
  {}

  lemma SpareIsNotCramped(t: Table, v: View, key: Key)
    requires Ok(t, v) && Light(t) && Spare(t)
    ensures !Cramped(t, v, key)
  {
    PrimeStep(t.prime);
  }

  lemma AllCopied(t: Table, v: View, items: map<Key, Ptr>)
    requires Ok(t, v) && CopiedUpTo(v, |t.cells|, items)
    ensures items == v.items
  {
    forall k | k in v.loc ensures v.loc[k] < |t.cells| {
      assert Holds(t.cells, v.loc[k], k);
    }
  }

  // ---------- iteration ----------

  /** Steps the iterator `cur` (`None` once exhausted) to the next stored entry. */
  method IterNext(t: Table, cur: Option<int>) returns (found: bool, cur': Option<int>, key: Key, value: Ptr)
    requires cur.Some? ==> 0 <= cur.value <= |t.cells|
    ensures found == cur'.Some?
    ensures found ==>
      var i := cur'.value - 1;
      && cur.Some? && cur.value <= i < |t.cells| && t.cells[i].key == Some(key) && t.cells[i].value == value
      && forall j | cur.value <= j < i :: t.cells[j].key == None
    ensures !found && cur.Some? ==> forall j | cur.value <= j < |t.cells| :: t.cells[j].key == None
  {
    found, cur', key, value := false, None, [], NULL;
    if cur.Some? {
      var i := cur.value;
      while i < |t.cells| && t.cells[i].key == None
        invariant cur.value <= i <= |t.cells|
        invariant forall j | cur.value <= j < i :: t.cells[j].key == None
      {
        i := i + 1;
      }
      if i < |t.cells| {
        found, cur', key, value := true, Some(i + 1), t.cells[i].key.value, t.cells[i].value;
      }
    }
  }

  /** The entries of the first `n` cells, in order. */
  ghost predicate Visits(cells: seq<Cell>, n: int, keys: seq<Key>, values: seq<Ptr>, at: seq<int>) {
    && |keys| == |values| == |at| && n <= |cells|
    && (forall x, y | 0 <= x < y < |at| :: at[x] < at[y])
    && (forall x | 0 <= x < |at| ::
          0 <= at[x] < n && cells[at[x]].key == Some(keys[x]) && cells[at[x]].value == values[x])
    && (forall j | 0 <= j < n && cells[j].key.Some? :: j in at)
  }

  /** Iteration visits every stored entry, each once, with its value. */
  lemma IterationIsExact(t: Table, v: View, keys: seq<Key>, values: seq<Ptr>, at: seq<int>)
    requires Ok(t, v) && Visits(t.cells, |t.cells|, keys, values, at)
    ensures forall x, y | 0 <= x < y < |keys| :: keys[x] != keys[y]
    ensures forall k :: k in v.items <==> k in keys
    ensures forall x | 0 <= x < |keys| :: keys[x] in v.items && v.items[keys[x]] == values[x]
  {
    forall x | 0 <= x < |keys|
      ensures keys[x] in v.loc && v.loc[keys[x]] == at[x] && v.items[keys[x]] == values[x]
    {
      assert Holds(t.cells, at[x], keys[x]);
    }
    forall k | k in v.items ensures k in keys {
      assert Holds(t.cells, v.loc[k], k);
      var x :| 0 <= x < |at| && at[x] == v.loc[k];
      assert keys[x] == k;
    }
  }

  /** Drives the iterator from the start to its end: every stored key comes once, with its value. */
  method Iterate(t: Table, ghost v: View) returns (keys: seq<Key>, values: seq<Ptr>)
    requires Ok(t, v)
    ensures |keys| == |values|
    ensures forall x, y | 0 <= x < y < |keys| :: keys[x] != keys[y]
    ensures forall k :: k in v.items <==> k in keys
    ensures forall x | 0 <= x < |keys| :: keys[x] in v.items && v.items[keys[x]] == values[x]
  {
    keys, values := [], [];
    ghost var at := [];
    var found, cur, key, value := true, Some(0), [], NULL;
    while found
      invariant found ==> cur.Some? && 0 <= cur.value <= |t.cells|
      invariant Visits(t.cells, if found then cur.value else |t.cells|, keys, values, at)
      decreases found, if cur.Some? then |t.cells| - cur.value else 0
    {
      found, cur, key, value := IterNext(t, cur);
      if found {
        keys, values, at := keys + [key], values + [value], at + [cur.value - 1];
      }
    }
    IterationIsExact(t, v, keys, values, at);
  }

  // ---------- the public interface ----------

  /** A table pointer is NULL until the first key is set. */
  ghost predicate OkPtr(table: Option<Table>, v: View) {
    if table.Some? then Ok(table.value, v) else v.items == map[]
  }

  ghost predicate BelowPtr(table: Option<Table>) {
    table.Some? ==> Below(table.value)
  }

  ghost predicate LightPtr(table: Option<Table>) {
    table.Some? ==> Light(table.value)
  }

  ghost predicate RoomyPtr(table: Option<Table>, n: int) {
    table.Some? ==> Roomy(table.value, n)
  }

  /** What an operation keeps of the size; `n` bounds the operations before it. */
  ghost predicate Kept(table: Option<Table>, n: int, table': Option<Table>) {
    && (LightPtr(table) ==> BelowPtr(table'))
    && (RoomyPtr(table, n) ==> RoomyPtr(table', n + 1))
  }

  lemma SameIsKept(table: Option<Table>, n: int)
    ensures Kept(table, n, table)
  {}

  method TableSet(table: Option<Table>, key: Key, value: Ptr, ghost v: View, ghost n: int)
    returns (res: SetResult, oldValue: Ptr, t': Table, ghost v': View)
    requires OkPtr(table, v) && 0 <= n
    ensures Ok(t', v')
    ensures res == UPDATED <==> key in v.items
    ensures oldValue == if key in v.items then v.items[key] else NULL
    ensures v'.items == if res == FAILED then v.items else v.items[key := value]
    ensures LightPtr(table) ==> Below(t')
    ensures RoomyPtr(table, n) && n < MAX_ENTRIES ==> res != FAILED && Roomy(t', n + 1)
  {
    ghost var t, w;
    if table.None? {
      t', v' := HashNew(0);
    } else {
      t', v' := table.value, v;
    }
    t, w := t', v';
    res, oldValue, t', v' := HashSet(t', key, value, v');
    if RoomyPtr(table, n) && n < MAX_ENTRIES {
      RoomyKept(t, w, key, n, t');
    }
  }

  /** A table with at most n entries and n overflow cells. */
  ghost predicate Roomy(t: Table, n: int) {
    Below(t) && t.len <= n && t.freeCur <= t.buckets + n
  }

  lemma RoomyKept(t: Table, v: View, key: Key, n: int, t': Table)
    requires Ok(t, v) && Roomy(t, n) && 0 <= n < MAX_ENTRIES
    ensures !Cramped(t, v, key)
    ensures Below(t') && Grows(t, t') ==> Roomy(t', n + 1)
  {
    PrimeStep(t.prime);
  }

  method TableGet(table: Option<Table>, key: Key, ghost v: View) returns (value: Ptr)
    requires OkPtr(table, v)
    ensures value == if key in v.items then v.items[key] else NULL
  {
    if table.None? {
      return NULL;
    }
    var entry, _, _ := HashGetEntryForSet(table.value, key, v);
    value := if entry.Some? then table.value.cells[entry.value].value else NULL;
  }

  method TableRemove(table: Option<Table>, key: Key, ghost v: View)
    returns (value: Ptr, table': Option<Table>, ghost v': View)
    requires OkPtr(table, v)
    ensures OkPtr(table', v') && v'.items == v.items - {key}
    ensures value == if key in v.items then v.items[key] else NULL
    ensures table'.Some? ==>
      table.Some? && table' == Some(table.value.(len := table'.value.len, cells := table'.value.cells))
      && table'.value.len <= table.value.len
  {
    table', v' := table, v;
    if table.None? {
      return NULL, table, v;
    }
    var entry, _, _ := HashGetEntryForSet(table.value, key, v);
    if entry.None? {
      return NULL, table, v;
    }
    value := table.value.cells[entry.value].value;
    var t: Table;
    t, v' := HashPunch(table.value, entry.value, key, v);
    table' := Some(t);
  }

  datatype State = State(table: Option<Table>, view: View)

  type Sound = s: State | OkPtr(s.table, s.view)
    ghost witness State(None, View(k => 0, [], map[], map[]))

  /** The caller's `struct dicey_hashtable *`, which every operation updates in place. */
  class Handle {
    var table: Option<Table>
    ghost var state: Sound

    ghost predicate Valid()
      reads this
    {
      state.table == table
    }

    /** What the table stands for. */
    ghost function Items(): map<Key, Ptr>
      reads this
    {
      state.view.items
    }

    constructor ()
      ensures Valid() && Items() == map[] && table == None
    {
      table := None;
      state := State(None, View(k => 0, [], map[], map[]));
    }

    method Set(key: Key, value: Ptr, ghost n: int) returns (res: SetResult, oldValue: Ptr)
      requires Valid() && 0 <= n
      modifies this
      ensures Valid()
      ensures res == UPDATED <==> key in old(Items())
      ensures oldValue == Lookup(old(Items()), key)
      ensures Items() == if res == FAILED then old(Items()) else old(Items())[key := value]
      ensures n < MAX_ENTRIES ==> Kept(old(table), n, table) && (RoomyPtr(old(table), n) ==> res != FAILED)
      ensures LightPtr(old(table)) ==> BelowPtr(table)
    {
      var t: Table;
      ghost var v: View;
      res, oldValue, t, v := TableSet(table, key, value, state.view, n);
      table, state := Some(t), State(Some(t), v);
    }

    method Get(key: Key) returns (value: Ptr)
      requires Valid()
      ensures value == Lookup(Items(), key)
    {
      value := TableGet(table, key, state.view);
    }

    method Contains(key: Key) returns (yes: bool)
      requires Valid()
      ensures yes <==> key in Items() && Items()[key] != NULL
    {
      var value := Get(key);
      yes := value != NULL;
    }

    method Remove(key: Key, ghost n: int) returns (value: Ptr)
      requires Valid()
      modifies this
      ensures Valid()
      ensures Items() == old(Items()) - {key}
      ensures value == Lookup(old(Items()), key)
      ensures Kept(old(table), n, table)
    {
      var t: Option<Table>;
      ghost var v: View;
      value, t, v := TableRemove(table, key, state.view);
      table, state := t, State(t, v);
    }

    method Measure() returns (load: Load)
      requires Valid()
      ensures load.len == |Items()|
      ensures BelowPtr(table) ==> Fine(load)
      ensures BelowPtr(table) && load.len < MAX_ENTRIES ==> LightPtr(table)
    {
      load := if table.Some? then Load(table.value.len, table.value.buckets) else Load(0, 0);
    }

    method Size() returns (size: int)
      requires Valid()
      ensures size == |Items()|
    {
      size := if table.Some? then table.value.len else 0;
    }
  }

  // ---------- every run agrees with a plain map ----------

  datatype Op = SetOp(key: Key, value: Ptr) | GetOp(key: Key) | RemoveOp(key: Key) | ContainsOp(key: Key) | SizeOp

  datatype Out = SetOut(res: SetResult, oldValue: Ptr) | Value(value: Ptr) | Answer(yes: bool) | Size(size: int)

  function Lookup(m: map<Key, Ptr>, key: Key): Ptr {
    if key in m then m[key] else NULL
  }

  /** The map after one operation that answered `out`. */
  function MapAfter(m: map<Key, Ptr>, op: Op, out: Out): map<Key, Ptr> {
    match op
    case SetOp(key, value) => if out.SetOut? && out.res == FAILED then m else m[key := value]
    case RemoveOp(key) => m - {key}
    case _ => m
  }

  /** What a plain map answers; only a new key may be refused. */
  predicate MapAnswers(m: map<Key, Ptr>, op: Op, out: Out) {
    match op
    case SetOp(key, _) =>
      if key in m then out == SetOut(UPDATED, m[key]) else out == SetOut(ADDED, NULL) || out == SetOut(FAILED, NULL)
    case GetOp(key) => out == Value(Lookup(m, key))
    case RemoveOp(key) => out == Value(Lookup(m, key))
    case ContainsOp(key) => out == Answer(Lookup(m, key) != NULL)
    case SizeOp => out == Size(|m|)
  }

  function MapAfterRun(ops: seq<Op>, outs: seq<Out>): map<Key, Ptr>
    requires |ops| == |outs|
  {
    if ops == [] then map[]
    else
      var n := |ops| - 1;
      MapAfter(MapAfterRun(ops[..n], outs[..n]), ops[n], outs[n])
  }

  predicate AgreesWithMap(ops: seq<Op>, outs: seq<Out>)
    requires |ops| == |outs|
  {
    if ops == [] then true
    else
      var n := |ops| - 1;
      AgreesWithMap(ops[..n], outs[..n]) && MapAnswers(MapAfterRun(ops[..n], outs[..n]), ops[n], outs[n])
  }

  /** The operation neither stores a value under the key nor removes it. */
  predicate Leaves(op: Op, out: Out, key: Key) {
    op != RemoveOp(key) && (op.SetOp? && op.key == key ==> out.SetOut? && out.res == FAILED)
  }

  lemma {:induction false} MapAt(ops: seq<Op>, outs: seq<Out>, j: nat)
    requires |ops| == |outs| && j < |ops| && AgreesWithMap(ops, outs)
    ensures MapAnswers(MapAfterRun(ops[..j], outs[..j]), ops[j], outs[j])
    decreases |ops|
  {
    var n := |ops| - 1;
    assert AgreesWithMap(ops[..n], outs[..n]) && MapAnswers(MapAfterRun(ops[..n], outs[..n]), ops[n], outs[n]);
    if j < n {
      MapAt(ops[..n], outs[..n], j);
      assert ops[..n][..j] == ops[..j] && outs[..n][..j] == outs[..j];
    }
  }

  lemma {:induction false} LeftAlone(ops: seq<Op>, outs: seq<Out>, i: nat, j: nat, key: Key)
    requires |ops| == |outs| && i <= j <= |ops| && forall k | i <= k < j :: Leaves(ops[k], outs[k], key)
    ensures var before, after := MapAfterRun(ops[..i], outs[..i]), MapAfterRun(ops[..j], outs[..j]);
      (key in after <==> key in before) && Lookup(after, key) == Lookup(before, key)
  {
    if i < j {
      LeftAlone(ops, outs, i, j - 1, key);
      assert ops[..j][..j - 1] == ops[..j - 1] && outs[..j][..j - 1] == outs[..j - 1];
    }
  }

  lemma WrittenAt(ops: seq<Op>, outs: seq<Out>, i: nat, key: Key)
    requires i < |ops| == |outs|
    ensures var m := MapAfterRun(ops[..i + 1], outs[..i + 1]);
      && (ops[i] == RemoveOp(key) ==> Lookup(m, key) == NULL)
      && (ops[i].SetOp? && !Leaves(ops[i], outs[i], key) ==> Lookup(m, key) == ops[i].value)
      && (i == 0 && Leaves(ops[0], outs[0], key) ==> Lookup(m, key) == NULL)
  {
    assert ops[..i + 1][..i] == ops[..i] && outs[..i + 1][..i] == outs[..i];
    assert i == 0 ==> ops[..i] == [];
  }

  lemma LookedUpLater(ops: seq<Op>, outs: seq<Out>, i: nat, j: nat, key: Key)
    requires i < j <= |ops| == |outs| && forall k | i < k < j :: Leaves(ops[k], outs[k], key)
    ensures var m := MapAfterRun(ops[..j], outs[..j]);
      && (ops[i] == RemoveOp(key) ==> Lookup(m, key) == NULL)
      && (ops[i].SetOp? && !Leaves(ops[i], outs[i], key) ==> Lookup(m, key) == ops[i].value)
      && (i == 0 && Leaves(ops[0], outs[0], key) ==> Lookup(m, key) == NULL)
  {
    WrittenAt(ops, outs, i, key);
    LeftAlone(ops, outs, i + 1, j, key);
  }

  /** In every run that agrees with a map, reading a key gives the value last stored under it, and null if it was never
      stored or has been removed since. */
  lemma ReadsLastWrite(ops: seq<Op>, outs: seq<Out>, i: nat, j: nat)
    requires |ops| == |outs| && i < j < |ops| && AgreesWithMap(ops, outs) && ops[j].GetOp?
    requires forall k | i < k < j :: Leaves(ops[k], outs[k], ops[j].key)
    ensures ops[i] == RemoveOp(ops[j].key) ==> outs[j] == Value(NULL)
    ensures ops[i].SetOp? && !Leaves(ops[i], outs[i], ops[j].key) ==> outs[j] == Value(ops[i].value)
    ensures i == 0 && Leaves(ops[0], outs[0], ops[j].key) ==> outs[j] == Value(NULL)
  {
    MapAt(ops, outs, j);
    LookedUpLater(ops, outs, i, j, ops[j].key);
  }

  predicate NoneFailed(outs: seq<Out>) {
    forall i | 0 <= i < |outs| && outs[i].SetOut? :: outs[i].res != FAILED
  }

  /** The answers to `done` are those of a map, which by now is `items`. */
  ghost predicate RunsLikeMap(done: seq<Op>, outs: seq<Out>, items: map<Key, Ptr>) {
    |done| == |outs| && AgreesWithMap(done, outs) && items == MapAfterRun(done, outs)
  }

  lemma RunGoesOn(ops: seq<Op>, outs: seq<Out>, items: map<Key, Ptr>, out: Out)
    requires |outs| < |ops| && RunsLikeMap(ops[..|outs|], outs, items) && MapAnswers(items, ops[|outs|], out)
    ensures RunsLikeMap(ops[..|outs| + 1], outs + [out], MapAfter(items, ops[|outs|], out))
  {
    RunExtends(ops[..|outs|], outs, items, ops[|outs|], out);
    assert ops[..|outs| + 1] == ops[..|outs|] + [ops[|outs|]];
  }

  lemma RunExtends(done: seq<Op>, outs: seq<Out>, items: map<Key, Ptr>, op: Op, out: Out)
    requires RunsLikeMap(done, outs, items) && MapAnswers(items, op, out)
    ensures RunsLikeMap(done + [op], outs + [out], MapAfter(items, op, out))
  {
    assert (done + [op])[..|done|] == done && (outs + [out])[..|done|] == outs;
  }

  lemma NoneFailedYet(outs: seq<Out>, out: Out)
    requires NoneFailed(outs) && (out.SetOut? ==> out.res != FAILED)
    ensures NoneFailed(outs + [out])
  {
  }

  /** The number of entries and of buckets after an operation; no buckets while there is no table. */
  datatype Load = Load(len: int, buckets: int)

  predicate Fine(load: Load) {
    load.buckets == 0 || load.len * 100 < 75 * load.buckets
  }

  predicate AllSmall(loads: seq<Load>) {
    forall i | 0 <= i < |loads| :: loads[i].len < 42_949_672
  }

  /** After each operation the load is below the threshold, unless there were too many entries before. */
  ghost predicate LoadsFine(loads: seq<Load>) {
    forall j {:trigger loads[j]} | 0 <= j < |loads| && AllSmall(loads[..j]) :: Fine(loads[j])
  }

  lemma LoadsStayFine(loads: seq<Load>, load: Load)
    requires LoadsFine(loads) && (AllSmall(loads) ==> Fine(load))
    ensures LoadsFine(loads + [load])
    ensures AllSmall(loads + [load]) <==> AllSmall(loads) && load.len < MAX_ENTRIES
  {
    var all := loads + [load];
    assert all[|loads|] == load;
    forall j | 0 <= j < |all| && AllSmall(all[..j]) ensures Fine(all[j]) {
      assert j < |loads| ==> all[..j] == loads[..j];
      assert j == |loads| ==> all[..j] == loads;
    }
    if AllSmall(all) {
      forall i | 0 <= i < |loads| ensures loads[i].len < MAX_ENTRIES {
        assert all[i] == loads[i];
      }
    }
  }

  /** The entries counted after each operation are those of the map. */
  predicate Counted(done: seq<Op>, outs: seq<Out>, loads: seq<Load>)
    requires |done| == |outs| == |loads|
  {
    if done == [] then true
    else
      var n := |done| - 1;
      Counted(done[..n], outs[..n], loads[..n]) && loads[n].len == |MapAfterRun(done, outs)|
  }

  lemma CountedToo(done: seq<Op>, all: seq<Op>, outs: seq<Out>, loads: seq<Load>, op: Op, out: Out, load: Load)
    requires |done| == |outs| == |loads| && Counted(done, outs, loads) && all == done + [op]
    requires load.len == |MapAfterRun(all, outs + [out])|
    ensures Counted(all, outs + [out], loads + [load])
  {
    assert all[..|done|] == done && (outs + [out])[..|done|] == outs;
    assert (loads + [load])[..|done|] == loads;
  }

  /** What is known after the operations `done`: about the answers, and about the sizes. */
  ghost predicate AnswersSoFar(done: seq<Op>, outs: seq<Out>, loads: seq<Load>, items: map<Key, Ptr>) {
    |outs| == |loads| && RunsLikeMap(done, outs, items) && Counted(done, outs, loads)
  }

  ghost predicate SizesSoFar(outs: seq<Out>, loads: seq<Load>, table: Option<Table>) {
    && LoadsFine(loads) && (AllSmall(loads) ==> LightPtr(table))
    && (|outs| <= MAX_ENTRIES ==> RoomyPtr(table, |outs|) && NoneFailed(outs))
  }

  lemma AnswersGoOn(
    ops: seq<Op>, outs: seq<Out>, loads: seq<Load>, items: map<Key, Ptr>, out: Out, load: Load, items': map<Key, Ptr>)
    requires |outs| < |ops| && AnswersSoFar(ops[..|outs|], outs, loads, items)
    requires MapAnswers(items, ops[|outs|], out) && items' == MapAfter(items, ops[|outs|], out)
    requires load.len == |items'|
    ensures AnswersSoFar(ops[..|outs| + 1], outs + [out], loads + [load], items')
  {
    RunGoesOn(ops, outs, items, out);
    CountedToo(ops[..|outs|], ops[..|outs| + 1], outs, loads, ops[|outs|], out, load);
  }

  lemma SizesGoOn(
    outs: seq<Out>, loads: seq<Load>, table: Option<Table>, out: Out, load: Load, table': Option<Table>)
    requires SizesSoFar(outs, loads, table)
    requires LightPtr(table) ==> BelowPtr(table')
    requires |outs| < MAX_ENTRIES ==> Kept(table, |outs|, table')
    requires |outs| < MAX_ENTRIES && RoomyPtr(table, |outs|) && out.SetOut? ==> out.res != FAILED
    requires BelowPtr(table') ==> Fine(load) && (load.len < MAX_ENTRIES ==> LightPtr(table'))
    ensures SizesSoFar(outs + [out], loads + [load], table')
  {
    LoadsStayFine(loads, load);
    if |outs| < MAX_ENTRIES {
      NoneFailedYet(outs, out);
    }
  }

  /** Every run from the empty table answers what a plain map answers. The load is below the threshold after every
      operation for as long as the entries are fewer than MAX_ENTRIES, however long the run, and no set fails in a
      run of up to MAX_ENTRIES operations. */
  method Run(ops: seq<Op>) returns (outs: seq<Out>, loads: seq<Load>)
    ensures |outs| == |loads| == |ops| && AgreesWithMap(ops, outs)
    ensures Counted(ops, outs, loads) && LoadsFine(loads)
    ensures |ops| <= 42_949_672 ==> NoneFailed(outs)
  {
    var h := new Handle();
    outs, loads := [], [];
    for i := 0 to |ops|
      invariant |outs| == i && h.Valid() && fresh(h)
      invariant AnswersSoFar(ops[..i], outs, loads, h.Items())
      invariant SizesSoFar(outs, loads, h.table)
    {
      outs, loads := RunOne(h, ops, outs, loads);
    }
    assert ops[..|ops|] == ops;
  }

  method RunOne(h: Handle, ops: seq<Op>, outs: seq<Out>, loads: seq<Load>)
    returns (outs': seq<Out>, loads': seq<Load>)
    requires h.Valid() && |outs| < |ops| && AnswersSoFar(ops[..|outs|], outs, loads, h.Items())
    requires SizesSoFar(outs, loads, h.table)
    modifies h
    ensures h.Valid() && |outs'| == |outs| + 1
    ensures AnswersSoFar(ops[..|outs'|], outs', loads', h.Items())
    ensures SizesSoFar(outs', loads', h.table)
  {
    ghost var items, table := h.Items(), h.table;
    var out := Step(h, ops[|outs|], |outs|);
    var load := h.Measure();
    AnswersGoOn(ops, outs, loads, items, out, load, h.Items());
    SizesGoOn(outs, loads, table, out, load, h.table);
    outs', loads' := outs + [out], loads + [load];
  }

  method Step(h: Handle, op: Op, ghost n: int) returns (out: Out)
    requires h.Valid() && 0 <= n
    modifies h
    ensures h.Valid() && MapAnswers(old(h.Items()), op, out)
    ensures h.Items() == MapAfter(old(h.Items()), op, out)
    ensures LightPtr(old(h.table)) ==> BelowPtr(h.table)
    ensures n < MAX_ENTRIES ==> Kept(old(h.table), n, h.table)
    ensures n < MAX_ENTRIES && RoomyPtr(old(h.table), n) && out.SetOut? ==> out.res != FAILED
  {
    SameIsKept(h.table, n);
    match op {
      case SetOp(key, value) =>
        var res, oldValue := h.Set(key, value, n);
        out := SetOut(res, oldValue);
      case GetOp(key) =>
        var value := h.Get(key);
        out := Value(value);
      case RemoveOp(key) =>
        var value := h.Remove(key, n);
        out := Value(value);
      case ContainsOp(key) =>
        var yes := h.Contains(key);
        out := Answer(yes);
      case SizeOp =>
        var size := h.Size();
        out := Size(size);
    }
  }
}
