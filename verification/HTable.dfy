/** The resizing chained hash table: buckets of singly linked entries, mutated in place.

    Every entry sits in exactly one chain. The ghost `Layout` of a table is a picture of its
    pointers as plain values; `Valid` says that the pointers agree with the picture. */
module HTable {
  import opened HTableSizing
  import opened Numbers

  datatype Errno = Success | NoValue | Invalid

  /** A plain C `char` as an `int`: eight bits, signed. */
  function CharValue(c: char): int {
    var b := c as int % 256;
    if b < 128 then b else b - 256
  }

  /** The djb2 string hash, in 64-bit arithmetic. */
  function Hash(key: string): (h: nat)
    ensures h < UINT64
  {
    if key == "" then 5381
    else (Hash(key[..|key| - 1]) * 33 + CharValue(key[|key| - 1])) % UINT64
  }

  function Bucket(key: string, capacity: nat): (b: nat)
    requires capacity > 0
    ensures b < capacity
  {
    Hash(key) % capacity
  }

  class Entry<V> {
    const key: string
    var val: V
    var next: Entry?<V>
    ghost var live: bool

    constructor (key: string, val: V)
      ensures this.key == key && this.val == val && next == null && live
    {
      this.key, this.val, next := key, val, null;
      live := true;
    }

    /** Frees an entry, which must not have been freed before. */
    ghost method Destroy()
      requires live
      modifies this`live
      ensures !live
    {
      live := false;
    }
  }

  /** A picture of the pointers of a table: the chain of every bucket from its head on, the
      successor of every entry, and the entry of every key. */
  datatype Layout<V> = Layout(
    chains: seq<seq<Entry<V>>>,
    succ: map<Entry<V>, Entry?<V>>,
    entries: map<string, Entry<V>>)

  /** The entry at a position of a chain, or null past its end. */
  ghost function At<V>(chain: seq<Entry<V>>, j: nat): Entry?<V> {
    if j < |chain| then chain[j] else null
  }

  /** Chain `i` holds only entries of bucket `i`, each once and each leading to the next. */
  ghost predicate IsChain<V>(g: Layout<V>, i: nat)
    requires i < |g.chains|
  {
    var chain := g.chains[i];
    && (forall j :: 0 <= j < |chain| ==>
          && chain[j] in g.succ
          && Bucket(chain[j].key, |g.chains|) == i
          && g.succ[chain[j]] == At(chain, j + 1))
    && (forall j, k :: 0 <= j < k < |chain| ==> chain[j] != chain[k])
  }

  /** Key `k` leads to an entry with that key, on the chain of its bucket. */
  ghost predicate IsFiled<V>(g: Layout<V>, k: string)
    requires k in g.entries && |g.chains| > 0
  {
    g.entries[k].key == k && g.entries[k] in g.succ && g.entries[k] in g.chains[Bucket(k, |g.chains|)]
  }

  ghost predicate IsRegistered<V>(g: Layout<V>, e: Entry<V>) {
    e.key in g.entries && g.entries[e.key] == e
  }

  ghost predicate SameElsewhere<T>(s: seq<T>, t: seq<T>, i: nat) {
    |s| == |t| && forall j :: 0 <= j < |s| && j != i ==> s[j] == t[j]
  }

  ghost predicate EmptyBelow<V>(chains: seq<seq<Entry<V>>>, n: nat) {
    n <= |chains| && forall i :: 0 <= i < n ==> chains[i] == []
  }

  ghost predicate Coherent<V>(g: Layout<V>) {
    && |g.chains| > 0
    && (forall i {:trigger IsChain(g, i)} :: 0 <= i < |g.chains| ==> IsChain(g, i))
    && (forall k {:trigger IsFiled(g, k)} :: k in g.entries ==> IsFiled(g, k))
    && (forall e {:trigger IsRegistered(g, e)} :: e in g.succ ==> IsRegistered(g, e))
  }

  ghost function EmptyLayout<V>(capacity: nat): Layout<V> {
    Layout(seq(capacity, _ => []), map[], map[])
  }

  /** The picture after putting `e` at the head of its chain. */
  ghost function Pushed<V>(g: Layout<V>, e: Entry<V>): Layout<V>
    requires |g.chains| > 0
  {
    var b := Bucket(e.key, |g.chains|);
    Layout(g.chains[b := [e] + g.chains[b]], g.succ[e := At(g.chains[b], 0)], g.entries[e.key := e])
  }

  lemma PushedCoherent<V>(g: Layout<V>, e: Entry<V>)
    requires Coherent(g) && e.key !in g.entries
    ensures Coherent(Pushed(g, e))
  {
    var b := Bucket(e.key, |g.chains|);
    var h := Pushed(g, e);
    forall i | 0 <= i < |h.chains|
      ensures IsChain(h, i)
    {
      assert IsChain(g, i);
      if i == b {
        assert forall j :: 0 < j < |h.chains[b]| ==> h.chains[b][j] == g.chains[b][j - 1];
        assert forall j :: 0 <= j < |g.chains[b]| ==> IsRegistered(g, g.chains[b][j]);
      } else {
        assert forall j :: 0 <= j < |g.chains[i]| ==> IsRegistered(g, g.chains[i][j]);
      }
    }
    forall k | k in h.entries
      ensures IsFiled(h, k)
    {
      assert k != e.key ==> IsFiled(g, k);
    }
    forall x | x in h.succ
      ensures IsRegistered(h, x)
    {
      assert x != e ==> IsRegistered(g, x);
    }
  }

  /** The picture after taking the `p`-th entry of chain `b` out of it. */
  ghost function Removed<V>(g: Layout<V>, b: nat, p: nat): Layout<V>
    requires b < |g.chains| && p < |g.chains[b]|
  {
    var chain := g.chains[b];
    var bridged := if p == 0 then g.succ else g.succ[chain[p - 1] := At(chain, p + 1)];
    Layout(g.chains[b := chain[..p] + chain[p + 1..]], bridged - {chain[p]}, g.entries - {chain[p].key})
  }

  lemma RemovedHead<V>(g: Layout<V>, b: nat, p: nat, i: nat)
    requires b < |g.chains| && p < |g.chains[b]| && i < |g.chains|
    ensures At(Removed(g, b, p).chains[i], 0) == if i == b && p == 0 then At(g.chains[b], 1) else At(g.chains[i], 0)
  {
  }

  lemma RemovedCoherent<V>(g: Layout<V>, b: nat, p: nat)
    requires Coherent(g) && b < |g.chains| && p < |g.chains[b]|
    ensures Coherent(Removed(g, b, p)) && |Removed(g, b, p).entries| == |g.entries| - 1
    ensures Removed(g, b, p).succ.Keys == g.succ.Keys - {g.chains[b][p]}
  {
    var h, e := Removed(g, b, p), g.chains[b][p];
    assert IsChain(g, b) && IsRegistered(g, e);
    forall i | 0 <= i < |h.chains|
      ensures IsChain(h, i)
    {
      RemovedChain(g, b, p, i);
    }
    forall k | k in h.entries
      ensures IsFiled(h, k)
    {
      RemovedFiled(g, b, p, k);
    }
    forall x | x in h.succ
      ensures IsRegistered(h, x)
    {
      assert IsRegistered(g, x);
    }
    assert h.entries.Keys == g.entries.Keys - {e.key};
  }

  lemma RemovedChain<V>(g: Layout<V>, b: nat, p: nat, i: nat)
    requires Coherent(g) && b < |g.chains| && p < |g.chains[b]| && i < |g.chains|
    ensures IsChain(Removed(g, b, p), i)
  {
    var h := Removed(g, b, p);
    assert IsChain(g, i);
    if i == b {
      forall j | 0 <= j < |h.chains[b]|
        ensures h.chains[b][j] in h.succ && Bucket(h.chains[b][j].key, |h.chains|) == b
        ensures h.succ[h.chains[b][j]] == At(h.chains[b], j + 1)
      {
        RemovedLink(g, b, p, j);
      }
    } else {
      assert IsChain(g, b);
      assert h.chains[i] == g.chains[i];
    }
  }

  lemma RemovedSuccessor<V>(g: Layout<V>, b: nat, p: nat, x: Entry<V>)
    requires b < |g.chains| && p < |g.chains[b]| && x in Removed(g, b, p).succ && IsChain(g, b)
    ensures x in g.succ && x != g.chains[b][p]
    ensures Removed(g, b, p).succ[x]
         == if p > 0 && x == g.chains[b][p - 1] then At(g.chains[b], p + 1) else g.succ[x]
  {
  }

  lemma ShortenedAt<V>(chain: seq<Entry<V>>, p: nat, k: nat)
    requires p < |chain|
    ensures At(chain[..p] + chain[p + 1..], k) == At(chain, if k < p then k else k + 1)
  {
  }

  lemma RemovedLink<V>(g: Layout<V>, b: nat, p: nat, j: nat)
    requires b < |g.chains| && IsChain(g, b) && p < |g.chains[b]|
    requires j < |g.chains[b]| - 1
    ensures var h := Removed(g, b, p);
      && h.chains[b][j] in h.succ && Bucket(h.chains[b][j].key, |h.chains|) == b
      && h.succ[h.chains[b][j]] == At(h.chains[b], j + 1)
  {
    var h, chain := Removed(g, b, p), g.chains[b];
    var e := chain[if j < p then j else j + 1];
    var short := h.chains[b];
    assert short == chain[..p] + chain[p + 1..];
    ShortenedAt(chain, p, j);
    ShortenedAt(chain, p, j + 1);
    assert At(short, j) == e && e != chain[p] && e in h.succ;
    RemovedSuccessor(g, b, p, e);
    assert p > 0 ==> (e == chain[p - 1] <==> j + 1 == p);
  }

  lemma RemovedFiled<V>(g: Layout<V>, b: nat, p: nat, k: string)
    requires Coherent(g) && b < |g.chains| && p < |g.chains[b]|
    requires k in g.entries && k != g.chains[b][p].key
    ensures IsFiled(Removed(g, b, p), k)
  {
    var h := Removed(g, b, p);
    assert IsFiled(g, k);
    if Bucket(k, |g.chains|) == b {
      var j :| 0 <= j < |g.chains[b]| && g.chains[b][j] == g.entries[k];
      assert h.chains[b][if j < p then j else j - 1] == g.entries[k];
    }
  }

  /** Following chains finds a key exactly when it is filed. */
  lemma ChainFindsKey<V>(g: Layout<V>, k: string, j: nat)
    requires Coherent(g)
    requires j < |g.chains[Bucket(k, |g.chains|)]| && g.chains[Bucket(k, |g.chains|)][j].key == k
    ensures k in g.entries && g.entries[k] == g.chains[Bucket(k, |g.chains|)][j]
  {
    assert IsChain(g, Bucket(k, |g.chains|));
    assert IsRegistered(g, g.chains[Bucket(k, |g.chains|)][j]);
  }

  /** The position of an entry on its chain. */
  lemma Position<V>(g: Layout<V>, e: Entry<V>) returns (p: nat)
    requires Coherent(g) && e in g.succ
    ensures p < |g.chains[Bucket(e.key, |g.chains|)]| && g.chains[Bucket(e.key, |g.chains|)][p] == e
  {
    assert IsRegistered(g, e);
    assert IsFiled(g, e.key);
    p :| 0 <= p < |g.chains[Bucket(e.key, |g.chains|)]| && g.chains[Bucket(e.key, |g.chains|)][p] == e;
  }

  /** Taking the head off a chain leaves its tail and every other chain. */
  lemma HeadRemoved<V>(g: Layout<V>, i: nat)
    requires Coherent(g) && i < |g.chains| && g.chains[i] != []
    ensures g.chains[i][0] in g.succ && Bucket(g.chains[i][0].key, |g.chains|) == i
    ensures g.succ[g.chains[i][0]] == At(g.chains[i], 1)
    ensures forall j :: 0 < j < |g.chains[i]| ==> g.chains[i][j] != g.chains[i][0]
    ensures Removed(g, i, 0).succ.Keys == g.succ.Keys - {g.chains[i][0]}
    ensures Removed(g, i, 0).chains[i] == g.chains[i][1..] && SameElsewhere(g.chains, Removed(g, i, 0).chains, i)
  {
    assert IsChain(g, i);
    assert g.chains[i][..0] + g.chains[i][1..] == g.chains[i][1..];
  }

  lemma EmptyChainsHoldNothing<V>(g: Layout<V>)
    requires Coherent(g) && EmptyBelow(g.chains, |g.chains|)
    ensures g.entries == map[] && g.succ == map[]
  {
    assert forall k :: k in g.entries ==> IsFiled(g, k);
    assert forall e :: e in g.succ ==> IsRegistered(g, e);
  }

  /** Two tables share out the entries of `g`, none lost and none in both. */
  ghost predicate SharedOut<V>(g: Layout<V>, a: Layout<V>, b: Layout<V>) {
    && (forall k {:trigger KeyShared(g, a, b, k)} :: KeyShared(g, a, b, k))
    && (forall e {:trigger EntryShared(g, a, b, e)} :: e in g.succ ==> EntryShared(g, a, b, e))
    && (forall e {:trigger EntryShared(g, a, b, e)} :: e in a.succ ==> EntryShared(g, a, b, e))
    && (forall e {:trigger EntryShared(g, a, b, e)} :: e in b.succ ==> EntryShared(g, a, b, e))
  }

  ghost predicate KeyShared<V>(g: Layout<V>, a: Layout<V>, b: Layout<V>, k: string) {
    && (k in g.entries <==> k in a.entries || k in b.entries)
    && (k in a.entries ==> k !in b.entries && a.entries[k] == g.entries[k])
    && (k in b.entries ==> b.entries[k] == g.entries[k])
  }

  ghost predicate EntryShared<V>(g: Layout<V>, a: Layout<V>, b: Layout<V>, e: Entry<V>) {
    && (e in g.succ <==> e in a.succ || e in b.succ)
    && !(e in a.succ && e in b.succ)
  }

  lemma MovingKeepsSharedOut<V>(g: Layout<V>, a: Layout<V>, b: Layout<V>, i: nat)
    requires Coherent(a) && |b.chains| > 0 && SharedOut(g, a, b)
    requires i < |a.chains| && a.chains[i] != []
    ensures a.chains[i][0] in a.succ && a.chains[i][0] in g.succ && a.chains[i][0] !in b.succ
    ensures a.chains[i][0].key !in b.entries && Bucket(a.chains[i][0].key, |a.chains|) == i
    ensures SharedOut(g, Removed(a, i, 0), Pushed(b, a.chains[i][0]))
    ensures Removed(a, i, 0).chains[i] == a.chains[i][1..] && SameElsewhere(a.chains, Removed(a, i, 0).chains, i)
  {
    var e := a.chains[i][0];
    HeadRemoved(a, i);
    assert IsChain(a, i) && IsRegistered(a, e) && KeyShared(g, a, b, e.key) && EntryShared(g, a, b, e);
    var a', b' := Removed(a, i, 0), Pushed(b, e);
    forall k
      ensures KeyShared(g, a', b', k)
    {
      assert KeyShared(g, a, b, k);
    }
    forall x | x in g.succ || x in a'.succ || x in b'.succ
      ensures EntryShared(g, a', b', x)
    {
      assert EntryShared(g, a, b, x);
    }
  }

  lemma SharedOutToOne<V>(g: Layout<V>, a: Layout<V>, b: Layout<V>)
    requires SharedOut(g, a, b)
    requires a.entries == map[] && a.succ == map[]
    ensures g.entries == b.entries && g.succ.Keys == b.succ.Keys
  {
    forall k
      ensures k in g.entries <==> k in a.entries || k in b.entries
      ensures k in b.entries ==> b.entries[k] == g.entries[k]
    {
      assert KeyShared(g, a, b, k);
    }
    forall e | e in g.succ || e in a.succ || e in b.succ
      ensures e in g.succ <==> e in a.succ || e in b.succ
    {
      assert EntryShared(g, a, b, e);
    }
  }

  lemma SharedOutDisjoint<V>(g: Layout<V>, a: Layout<V>, b: Layout<V>)
    requires SharedOut(g, a, b)
    ensures a.succ.Keys <= g.succ.Keys && a.succ.Keys !! b.succ.Keys
  {
    forall e | e in a.succ
      ensures e in g.succ && e !in b.succ
    {
      assert EntryShared(g, a, b, e);
    }
  }

  class HashTable<V> {
    var capacity: nat
    var size: nat
    var buckets: array?<Entry?<V>>
    ghost var layout: Layout<V>
    /** The finite map the table stands for; `HTableOps` keeps it in step with the entries. */
    ghost var contents: map<string, V>
    /** How many times entries have been relocated from this table to another. */
    ghost var relocated: nat

    ghost predicate Valid()
      reads `capacity, `size, `buckets, `layout, buckets, layout.succ.Keys
    {
      && buckets != null
      && Coherent(layout)
      && capacity == buckets.Length == |layout.chains|
      && size == |layout.entries|
      && (forall i {:trigger HeadAt(buckets, layout.chains, i)} ::
            0 <= i < capacity ==> HeadAt(buckets, layout.chains, i))
      && (forall e {:trigger PointsAt(e, layout.succ)} :: e in layout.succ ==> PointsAt(e, layout.succ))
    }

    /** Bucket `i` points at the head of its chain. */
    static ghost predicate HeadAt(buckets: array<Entry?<V>>, chains: seq<seq<Entry<V>>>, i: nat)
      requires i < buckets.Length == |chains|
      reads buckets
    {
      buckets[i] == At(chains[i], 0)
    }

    /** A live entry whose successor is the one in the picture. */
    static ghost predicate PointsAt(e: Entry<V>, succ: map<Entry<V>, Entry?<V>>)
      requires e in succ
      reads e
    {
      e.live && e.next == succ[e]
    }

    constructor (capacity: nat)
      requires 0 < capacity < UINT32
      ensures Valid() && fresh(buckets)
      ensures this.capacity == capacity && layout == EmptyLayout(capacity)
      ensures contents == map[] && relocated == 0
    {
      this.capacity, size := capacity, 0;
      buckets := new Entry?<V>[capacity](_ => null);
      layout, contents, relocated := EmptyLayout(capacity), map[], 0;
    }

    /** Puts a detached entry at the head of its chain. */
    method InsertEntry(e: Entry<V>)
      requires Valid() && e.live && e.next == null && e.key !in layout.entries
      modifies this`size, this`layout, buckets, e`next
      ensures Valid() && buckets == old(buckets)
      ensures layout == Pushed(old(layout), e)
    {
      var id := Bucket(e.key, capacity);
      assert HeadAt(buckets, layout.chains, id);
      if buckets[id] != null {
        e.next := buckets[id];
      }
      buckets[id] := e;
      size := size + 1;
      ghost var g := layout;
      PushedCoherent(g, e);
      layout := Pushed(g, e);
      forall i | 0 <= i < capacity
        ensures HeadAt(buckets, layout.chains, i)
      {
        assert old(HeadAt(buckets, layout.chains, i));
      }
      forall x | x in layout.succ
        ensures PointsAt(x, layout.succ)
      {
        assert x != e ==> old(PointsAt(x, layout.succ));
      }
    }

    /** Unlinks an entry; `p` is how many entries precede it on its chain. */
    method DeleteEntry(e: Entry<V>) returns (ghost p: nat)
      requires Valid() && e in layout.succ
      modifies this`size, this`layout, buckets, layout.succ.Keys`next
      ensures Valid() && buckets == old(buckets)
      ensures var b := Bucket(e.key, capacity); p < |old(layout).chains[b]| && old(layout).chains[b][p] == e
      ensures layout == Removed(old(layout), Bucket(e.key, capacity), p)
      ensures layout.succ.Keys == old(layout).succ.Keys - {e} && size == old(size) - 1
      ensures e.next == null
    {
      var id := Bucket(e.key, capacity);
      p := Position(layout, e);
      RemovedCoherent(layout, id, p);
      UnlinkPointers(id, e, p);
      size := size - 1;
      layout := Removed(layout, id, p);
    }

    /** `DeleteEntry` without the positions. */
    method Unlink(e: Entry<V>)
      requires Valid() && e in layout.succ
      modifies this`size, this`layout, buckets, layout.succ.Keys`next
      ensures Valid() && size == old(size) - 1
      ensures layout.entries == old(layout).entries - {e.key}
      ensures layout.succ.Keys == old(layout).succ.Keys - {e}
    {
      ghost var p := DeleteEntry(e);
    }

    /** The pointer updates of `DeleteEntry`: at the head of the chain, or behind it. */
    method UnlinkPointers(id: nat, e: Entry<V>, ghost p: nat)
      requires Valid() && id < capacity && p < |layout.chains[id]| && layout.chains[id][p] == e
      modifies buckets, layout.succ.Keys`next
      ensures e.next == null
      ensures forall i {:trigger HeadAt(buckets, Removed(layout, id, p).chains, i)} ::
        0 <= i < capacity ==> HeadAt(buckets, Removed(layout, id, p).chains, i)
      ensures forall x {:trigger PointsAt(x, Removed(layout, id, p).succ)} ::
        x in Removed(layout, id, p).succ ==> PointsAt(x, Removed(layout, id, p).succ)
    {
      ghost var g, h := layout, Removed(layout, id, p);
      assert IsChain(g, id) && PointsAt(e, g.succ) && HeadAt(buckets, g.chains, id);
      if buckets[id] == e {
        assert p == 0;
        buckets[id] := e.next;
        e.next := null;
      } else {
        UnlinkBehindHead(id, e, p);
      }
      forall i | 0 <= i < capacity
        ensures HeadAt(buckets, h.chains, i)
      {
        RemovedHead(g, id, p, i);
        assert old(HeadAt(buckets, g.chains, i));
      }
      forall x | x in h.succ
        ensures PointsAt(x, h.succ)
      {
        RemovedSuccessor(g, id, p, x);
        assert old(PointsAt(x, g.succ));
      }
    }

    /** The walk of `DeleteEntry` with two neighbouring pointers, past the head of the chain. */
    method UnlinkBehindHead(id: nat, e: Entry<V>, ghost p: nat)
      requires Valid() && id < capacity && 0 < p < |layout.chains[id]| && layout.chains[id][p] == e
      modifies layout.succ.Keys`next
      ensures e.next == null
      ensures layout.chains[id][p - 1].next == At(layout.chains[id], p + 1)
      ensures forall x :: x in layout.succ && x != e && x != layout.chains[id][p - 1] ==> x.next == old(x.next)
    {
      ghost var chain := layout.chains[id];
      assert IsChain(layout, id) && HeadAt(buckets, layout.chains, id);
      assert PointsAt(chain[0], layout.succ);
      var prev: Entry?<V> := buckets[id];
      var curr: Entry?<V> := buckets[id].next;
      ghost var j := 1;
      while curr != null
        invariant 1 <= j <= p
        invariant prev == chain[j - 1] && curr == At(chain, j)
        invariant forall x :: x in layout.succ ==> x.next == old(x.next)
        decreases p - j
      {
        assert old(PointsAt(prev, layout.succ) && PointsAt(curr, layout.succ));
        if curr == e {
          assert j == p;
          prev.next := curr.next;
          curr.next := null;
          return;
        }
        prev := prev.next;
        curr := curr.next;
        j := j + 1;
      }
    }

    /** Walks the chain of a key. */
    method FindEntry(key: string) returns (errno: Errno, e: Entry?<V>)
      requires Valid()
      ensures errno == if key in layout.entries then Success else NoValue
      ensures key in layout.entries ==> e == layout.entries[key]
    {
      var id := Bucket(key, capacity);
      ghost var chain := layout.chains[id];
      assert IsChain(layout, id);
      assert HeadAt(buckets, layout.chains, id) && (key in layout.entries ==> IsFiled(layout, key));
      var curr := buckets[id];
      ghost var j := 0;
      while curr != null && curr.key != key
        invariant 0 <= j <= |chain| && curr == At(chain, j)
        invariant forall i :: 0 <= i < j ==> chain[i].key != key
        decreases |chain| - j
      {
        assert PointsAt(curr, layout.succ);
        curr := curr.next;
        j := j + 1;
      }
      e := curr;
      errno := if curr != null then Success else NoValue;
      if curr != null {
        ChainFindsKey(layout, key, j);
      }
    }

    /** Relocates every entry of `from`, chain by chain, into the empty table `to`. Each unlinking
        finds its entry at the head of its chain. */
    static method Rehash(from: HashTable<V>, to: HashTable<V>)
      requires from.Valid() && to.Valid() && from != to && from.buckets != to.buckets
      requires to.layout == EmptyLayout(to.capacity)
      modifies from`size, from`layout, from`relocated, from.buckets, from.layout.succ.Keys`next
      modifies to`size, to`layout, to.buckets
      ensures from.Valid() && from.layout == EmptyLayout(from.capacity)
      ensures to.Valid() && to.layout.entries == old(from.layout.entries)
      ensures to.layout.succ.Keys == old(from.layout.succ.Keys)
      ensures from.buckets == old(from.buckets) && to.buckets == old(to.buckets)
      ensures from.relocated == old(from.relocated) + old(from.size)
    {
      ghost var g := from.layout;
      var oldId := 0;
      while oldId < from.capacity
        invariant 0 <= oldId <= from.capacity
        invariant from.Valid() && to.Valid() && SharedOut(g, from.layout, to.layout)
        invariant from.buckets == old(from.buckets) && to.buckets == old(to.buckets)
        invariant from.relocated + from.size == old(from.relocated) + old(from.size)
        invariant EmptyBelow(from.layout.chains, oldId)
      {
        SharedOutDisjoint(g, from.layout, to.layout);
        RehashChain(from, to, oldId, g);
        oldId := oldId + 1;
      }
      EmptyChainsHoldNothing(from.layout);
      SharedOutToOne(g, from.layout, to.layout);
      assert from.layout.chains == EmptyLayout<V>(from.capacity).chains;
    }

    /** The inner loop of `Rehash`: chain `oldId` is consumed while it is being walked. */
    static method RehashChain(from: HashTable<V>, to: HashTable<V>, oldId: nat, ghost g: Layout<V>)
      requires from.Valid() && to.Valid() && from != to && from.buckets != to.buckets
      requires SharedOut(g, from.layout, to.layout) && oldId < from.capacity
      modifies from`size, from`layout, from`relocated, from.buckets, g.succ.Keys`next
      modifies to`size, to`layout, to.buckets
      ensures from.Valid() && to.Valid() && SharedOut(g, from.layout, to.layout)
      ensures from.buckets == old(from.buckets) && to.buckets == old(to.buckets)
      ensures from.relocated + from.size == old(from.relocated) + old(from.size)
      ensures from.layout.chains[oldId] == [] && SameElsewhere(old(from.layout).chains, from.layout.chains, oldId)
    {
      assert HeadAt(from.buckets, from.layout.chains, oldId);
      var entry := from.buckets[oldId];
      while entry != null
        invariant from.Valid() && to.Valid() && SharedOut(g, from.layout, to.layout)
        invariant from.buckets == old(from.buckets) && to.buckets == old(to.buckets)
        invariant entry == At(from.layout.chains[oldId], 0)
        invariant from.relocated + from.size == old(from.relocated) + old(from.size)
        invariant SameElsewhere(old(from.layout).chains, from.layout.chains, oldId)
        decreases |from.layout.chains[oldId]|
      {
        MovingKeepsSharedOut(g, from.layout, to.layout, oldId);
        SharedOutDisjoint(g, from.layout, to.layout);
        entry := Relocate(from, to, oldId, entry);
      }
    }

    /** One step of `Rehash`: the head of chain `i` changes tables; its successor is next. */
    static method Relocate(from: HashTable<V>, to: HashTable<V>, ghost i: nat, entry: Entry<V>)
      returns (next: Entry?<V>)
      requires from.Valid() && to.Valid() && from != to && from.buckets != to.buckets
      requires from.layout.succ.Keys !! to.layout.succ.Keys && entry.key !in to.layout.entries
      requires i < from.capacity && At(from.layout.chains[i], 0) == entry && Bucket(entry.key, from.capacity) == i
      modifies from`size, from`layout, from`relocated, from.buckets, from.layout.succ.Keys`next
      modifies to`size, to`layout, to.buckets
      ensures from.Valid() && to.Valid()
      ensures from.buckets == old(from.buckets) && to.buckets == old(to.buckets)
      ensures from.layout == Removed(old(from.layout), i, 0) && to.layout == Pushed(old(to.layout), entry)
      ensures next == At(old(from.layout).chains[i], 1)
      ensures from.relocated + from.size == old(from.relocated) + old(from.size)
    {
      assert IsChain(from.layout, i) && PointsAt(entry, from.layout.succ);
      next := from.TakeHead(i, entry);
      to.InsertEntry(entry);
    }

    /** Hands the buckets of `from` over to `to`, which drops its own. */
    static method MoveTable(from: HashTable<V>, to: HashTable<V>)
      requires from.Valid() && from != to
      modifies from`buckets, to`capacity, to`size, to`buckets, to`layout
      ensures to.Valid() && to.capacity == old(from.capacity) && to.layout == old(from.layout)
      ensures to.buckets == old(from.buckets) && from.buckets == null
    {
      to.capacity := from.capacity;
      to.size := from.size;
      to.buckets := from.buckets;
      to.layout := from.layout;
      from.buckets := null;
      forall i | 0 <= i < to.capacity
        ensures HeadAt(to.buckets, to.layout.chains, i)
      {
        assert old(HeadAt(from.buckets, from.layout.chains, i));
      }
    }

    /** Doubles or halves the table when a threshold is crossed. The doubled capacity has to
        fit 32 bits. */
    method CheckNResize()
      requires Valid() && 0 < NextCapacity(size, capacity) < UINT32
      modifies this`capacity, this`size, this`buckets, this`layout, this`relocated, buckets, layout.succ.Keys`next
      ensures Valid() && (buckets == old(buckets) || fresh(buckets))
      ensures capacity == NextCapacity(old(size), old(capacity)) && size == old(size)
      ensures layout.entries == old(layout.entries) && layout.succ.Keys == old(layout.succ.Keys)
      ensures relocated == old(relocated) + Relocations(old(size), old(capacity))
    {
      Thresholds(size, capacity);
      if NeedsToGrow(size, capacity) || NeedsToShrink(size, capacity) {
        var newCapacity := if NeedsToGrow(size, capacity) then Double32(capacity) else capacity / 2;
        var newTable := new HashTable<V>(newCapacity);
        Rehash(this, newTable);
        MoveTable(newTable, this);
      }
    }

    /** Unlinks and frees every entry; the walk reads each successor before freeing. */
    method DestroyEntries()
      requires Valid()
      modifies this`size, this`layout, buckets, layout.succ.Keys
      ensures Valid() && layout == EmptyLayout(capacity) && buckets == old(buckets)
      ensures forall e :: e in old(layout.succ) ==> !e.live
    {
      ghost var g := layout;
      var i := 0;
      while i < capacity
        invariant 0 <= i <= capacity && Valid() && buckets == old(buckets)
        invariant RestFreed(g, layout)
        invariant EmptyBelow(layout.chains, i)
      {
        DestroyChain(i, g);
        i := i + 1;
      }
      EmptyChainsHoldNothing(layout);
      assert layout.chains == EmptyLayout<V>(capacity).chains;
      forall e | e in g.succ
        ensures !e.live
      {
        assert KeptOrFreed(layout, e);
      }
    }

    /** Of the entries of `g`, those no longer in `rest` have been freed. */
    static ghost predicate RestFreed(g: Layout<V>, rest: Layout<V>)
      reads g.succ.Keys
    {
      && rest.succ.Keys <= g.succ.Keys
      && forall e {:trigger KeptOrFreed(rest, e)} :: e in g.succ ==> KeptOrFreed(rest, e)
    }

    static ghost predicate KeptOrFreed(rest: Layout<V>, e: Entry<V>)
      reads e
    {
      e in rest.succ || !e.live
    }

    /** The inner loop of `DestroyEntries`. */
    method DestroyChain(i: nat, ghost g: Layout<V>)
      requires Valid() && i < capacity
      requires RestFreed(g, layout)
      modifies this`size, this`layout, buckets, g.succ.Keys
      ensures Valid() && buckets == old(buckets)
      ensures RestFreed(g, layout)
      ensures layout.chains[i] == [] && SameElsewhere(old(layout).chains, layout.chains, i)
    {
      assert HeadAt(buckets, layout.chains, i);
      var entry := buckets[i];
      while entry != null
        invariant Valid() && buckets == old(buckets)
        invariant RestFreed(g, layout)
        invariant entry == At(layout.chains[i], 0)
        invariant SameElsewhere(old(layout).chains, layout.chains, i)
        decreases |layout.chains[i]|
      {
        HeadRemoved(layout, i);
        entry := DestroyHead(i, entry, g);
      }
    }

    /** One round of that loop. */
    method DestroyHead(ghost i: nat, head: Entry<V>, ghost g: Layout<V>) returns (next: Entry?<V>)
      requires Valid() && i < capacity && At(layout.chains[i], 0) == head
      requires RestFreed(g, layout)
      modifies this`size, this`layout, buckets, g.succ.Keys
      ensures Valid() && buckets == old(buckets)
      ensures RestFreed(g, layout)
      ensures layout == Removed(old(layout), i, 0) && next == At(old(layout).chains[i], 1)
    {
      HeadRemoved(layout, i);
      assert PointsAt(head, layout.succ);
      next := DetachHead(i, head);
      head.Destroy();
      forall e | e in g.succ
        ensures KeptOrFreed(layout, e)
      {
        assert old(KeptOrFreed(layout, e));
      }
    }

    /** Reads the successor of a chain's head, then unlinks the head. */
    method DetachHead(ghost i: nat, head: Entry<V>) returns (next: Entry?<V>)
      requires Valid() && i < capacity && At(layout.chains[i], 0) == head
      modifies this`size, this`layout, buckets, layout.succ.Keys`next
      ensures Valid() && buckets == old(buckets)
      ensures layout == Removed(old(layout), i, 0) && head.next == null && size == old(size) - 1
      ensures next == At(old(layout).chains[i], 1)
    {
      HeadRemoved(layout, i);
      assert PointsAt(head, layout.succ);
      next := head.next;
      ghost var p := DeleteEntry(head);
      assert p == 0;
    }

    /** Detaches the head of a chain to relocate it. */
    method TakeHead(ghost i: nat, head: Entry<V>) returns (next: Entry?<V>)
      requires Valid() && i < capacity && At(layout.chains[i], 0) == head
      modifies this`size, this`layout, this`relocated, buckets, layout.succ.Keys`next
      ensures Valid() && buckets == old(buckets)
      ensures layout == Removed(old(layout), i, 0) && head.next == null
      ensures next == At(old(layout).chains[i], 1)
      ensures relocated + size == old(relocated) + old(size)
    {
      relocated := relocated + 1;
      next := DetachHead(i, head);
    }
  }
}
