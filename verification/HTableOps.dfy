/** The operations of the hash table, as a caller sees them: a finite map. */
module HTableOps {
  import opened HTableSizing
  import opened HTable
  import opened Options

  /** Where a lookup stores its answer. */
  class Cell<V> {
    var val: Option<V>

    constructor ()
      ensures val == None
    {
      val := None;
    }
  }

  /** The objects a table is made of. */
  ghost function Footprint<V>(handle: HashTable?<V>): set<object?>
    reads handle
  {
    if handle == null then {} else {handle, handle.buckets} + handle.layout.succ.Keys
  }

  /** A valid table whose entries hold exactly `contents`. */
  ghost predicate Faithful<V>(handle: HashTable<V>)
    reads handle, handle.buckets, handle.layout.succ.Keys
  {
    && handle.Valid()
    && handle.contents.Keys == handle.layout.entries.Keys
    && (forall k {:trigger Stores(handle.layout, handle.contents, k)} ::
          k in handle.contents ==> Stores(handle.layout, handle.contents, k))
  }

  /** What every operation finds and leaves behind: also, the table is within its load bound. */
  ghost predicate Ready<V>(handle: HashTable<V>)
    reads handle, handle.buckets, handle.layout.succ.Keys
  {
    Faithful(handle) && WellSized(handle.size, handle.capacity) && handle.capacity < UINT32
  }

  ghost predicate Stores<V>(g: Layout<V>, contents: map<string, V>, k: string)
    requires k in contents
    reads g.succ.Keys
  {
    k in g.entries && g.entries[k] in g.succ && g.entries[k].key == k && g.entries[k].val == contents[k]
  }

  lemma SizeIsNumberOfKeys<V>(handle: HashTable<V>)
    requires Faithful(handle)
    ensures handle.size == |handle.contents|
  {
    assert |handle.contents.Keys| == |handle.layout.entries.Keys|;
  }

  method HtableInit<V>() returns (errno: Errno, handle: HashTable<V>)
    ensures errno == Success && Ready(handle)
    ensures fresh(handle) && fresh(handle.buckets) && fresh(handle.layout.succ.Keys)
    ensures handle.contents == map[] && handle.relocated == 0
  {
    handle := new HashTable<V>(MIN_CAPACITY);
    EmptyTableIsWellSized();
    errno := Success;
  }

  /** Looks a key up; `out` is written only on success. */
  method HtableFind<V>(handle: HashTable?<V>, key: Option<string>, out: Cell?<V>) returns (errno: Errno)
    requires handle != null ==> Ready(handle)
    modifies (if out == null then {} else {out})`val
    ensures handle != null ==> Ready(handle)
    ensures errno == Invalid <==> handle == null || key.None? || out == null
    ensures errno == Success ==> key.value in handle.contents && out.val == Some(handle.contents[key.value])
    ensures errno == NoValue ==> key.value !in handle.contents
    ensures errno != Success && out != null ==> out.val == old(out.val)
  {
    if handle == null || key.None? || out == null {
      return Invalid;
    }
    var e;
    errno, e := handle.FindEntry(key.value);
    if errno == Success {
      assert Stores(handle.layout, handle.contents, key.value);
      out.val := Some(e.val);
    }
  }

  /** Overwrites the value of a key that is present, adds one that is not. */
  method HtableInsert<V>(handle: HashTable?<V>, key: Option<string>, val: V) returns (errno: Errno)
    requires handle != null ==> Ready(handle)
    requires handle != null && key.Some? && key.value !in handle.contents ==> |handle.contents| < MAX_ENTRIES
    modifies Footprint(handle)
    ensures errno == if handle == null || key.None? then Invalid else Success
    ensures handle != null ==> Ready(handle) && (handle.buckets == old(handle.buckets) || fresh(handle.buckets))
    ensures handle != null ==> fresh(handle.layout.succ.Keys - old(handle.layout.succ.Keys))
    ensures handle != null ==>
      handle.contents == if key.None? then old(handle.contents) else old(handle.contents)[key.value := val]
    ensures handle != null ==>
      handle.capacity == (if key.None? || key.value in old(handle.contents) then old(handle.capacity)
                          else NextCapacity(|old(handle.contents)| + 1, old(handle.capacity)))
    ensures handle != null ==>
      handle.relocated == old(handle.relocated)
                        + (if key.None? || key.value in old(handle.contents) then 0
                           else Relocations(|old(handle.contents)| + 1, old(handle.capacity)))
  {
    if handle == null || key.None? {
      return Invalid;
    }
    SizeIsNumberOfKeys(handle);
    var e;
    errno, e := handle.FindEntry(key.value);
    if errno == Success {
      assert Stores(handle.layout, handle.contents, key.value);
      Overwrite(handle, e, val);
    } else {
      InsertAbsent(handle, key.value, val);
    }
    errno := Success;
  }

  method InsertAbsent<V>(handle: HashTable<V>, key: string, val: V)
    requires Ready(handle) && key !in handle.contents && handle.size < MAX_ENTRIES
    modifies handle, handle.buckets, handle.layout.succ.Keys`next
    ensures Ready(handle) && (handle.buckets == old(handle.buckets) || fresh(handle.buckets))
    ensures fresh(handle.layout.succ.Keys - old(handle.layout.succ.Keys))
    ensures handle.contents == old(handle.contents)[key := val]
    ensures handle.capacity == NextCapacity(old(handle.size) + 1, old(handle.capacity))
    ensures handle.relocated == old(handle.relocated) + Relocations(old(handle.size) + 1, old(handle.capacity))
  {
    InsertKeepsBound(handle.size, handle.capacity);
    AddEntry(handle, key, val);
    Resize(handle);
  }

  method Overwrite<V>(handle: HashTable<V>, e: Entry<V>, val: V)
    requires Ready(handle) && e in handle.layout.succ
    modifies handle`contents, e`val
    ensures Ready(handle) && handle.contents == old(handle.contents)[e.key := val]
  {
    assert IsRegistered(handle.layout, e);
    e.val := val;
    forall x | x in handle.layout.succ
      ensures HashTable<V>.PointsAt(x, handle.layout.succ)
    {
      assert old(HashTable<V>.PointsAt(x, handle.layout.succ));
    }
    handle.contents := handle.contents[e.key := val];
    forall k | k in handle.contents
      ensures Stores(handle.layout, handle.contents, k)
    {
      assert old(Stores(handle.layout, handle.contents, k));
    }
  }

  /** Links a new entry in, before the threshold check. */
  method AddEntry<V>(handle: HashTable<V>, key: string, val: V)
    requires Faithful(handle) && key !in handle.contents
    modifies handle`size, handle`layout, handle`contents, handle.buckets
    ensures Faithful(handle) && handle.buckets == old(handle.buckets)
    ensures handle.contents == old(handle.contents)[key := val] && handle.size == old(handle.size) + 1
    ensures fresh(handle.layout.succ.Keys - old(handle.layout.succ.Keys))
  {
    var e := new Entry<V>(key, val);
    handle.InsertEntry(e);
    handle.contents := handle.contents[key := val];
    forall k | k in handle.contents
      ensures Stores(handle.layout, handle.contents, k)
    {
      assert k != key ==> old(Stores(handle.layout, handle.contents, k));
    }
  }

  /** The threshold check leaves the contents alone. */
  method Resize<V>(handle: HashTable<V>)
    requires Faithful(handle) && 0 < NextCapacity(handle.size, handle.capacity) < UINT32
    modifies handle`capacity, handle`size, handle`buckets, handle`layout, handle`relocated
    modifies handle.buckets, handle.layout.succ.Keys`next
    ensures Faithful(handle) && (handle.buckets == old(handle.buckets) || fresh(handle.buckets))
    ensures handle.size == old(handle.size) && handle.layout.succ.Keys == old(handle.layout.succ.Keys)
    ensures handle.capacity == NextCapacity(old(handle.size), old(handle.capacity))
    ensures handle.relocated == old(handle.relocated) + Relocations(old(handle.size), old(handle.capacity))
  {
    handle.CheckNResize();
    forall k | k in handle.contents
      ensures Stores(handle.layout, handle.contents, k)
    {
      assert old(Stores(handle.layout, handle.contents, k));
    }
  }

  /** Removes a key that is present and frees its entry. */
  method HtableDelete<V>(handle: HashTable?<V>, key: Option<string>) returns (errno: Errno)
    requires handle != null ==> Ready(handle)
    modifies Footprint(handle)
    ensures errno == Invalid <==> handle == null || key.None?
    ensures errno != Invalid ==> errno == if key.value in old(handle.contents) then Success else NoValue
    ensures handle != null ==> Ready(handle) && (handle.buckets == old(handle.buckets) || fresh(handle.buckets))
    ensures handle != null ==> fresh(handle.layout.succ.Keys - old(handle.layout.succ.Keys))
    ensures handle != null ==>
      handle.contents == if key.None? then old(handle.contents) else old(handle.contents) - {key.value}
    ensures handle != null ==>
      handle.capacity == (if key.None? || key.value !in old(handle.contents) then old(handle.capacity)
                          else NextCapacity(|old(handle.contents)| - 1, old(handle.capacity)))
    ensures handle != null ==>
      handle.relocated == old(handle.relocated)
                        + (if key.None? || key.value !in old(handle.contents) then 0
                           else Relocations(|old(handle.contents)| - 1, old(handle.capacity)))
  {
    if handle == null || key.None? {
      return Invalid;
    }
    SizeIsNumberOfKeys(handle);
    var e;
    errno, e := handle.FindEntry(key.value);
    if errno != Success {
      return errno;
    }
    assert Stores(handle.layout, handle.contents, key.value);
    DeletePresent(handle, e);
  }

  method DeletePresent<V>(handle: HashTable<V>, e: Entry<V>)
    requires Ready(handle) && e in handle.layout.succ && handle.size > 0
    modifies handle, handle.buckets, handle.layout.succ.Keys
    ensures Ready(handle) && (handle.buckets == old(handle.buckets) || fresh(handle.buckets))
    ensures handle.layout.succ.Keys == old(handle.layout.succ.Keys) - {e} && !e.live
    ensures handle.contents == old(handle.contents) - {e.key}
    ensures handle.capacity == NextCapacity(old(handle.size) - 1, old(handle.capacity))
    ensures handle.relocated == old(handle.relocated) + Relocations(old(handle.size) - 1, old(handle.capacity))
  {
    DeleteKeepsBound(handle.size, handle.capacity);
    RemoveEntry(handle, e);
    Resize(handle);
  }

  /** Unlinks an entry and frees it. */
  method FreeEntry<V>(handle: HashTable<V>, e: Entry<V>)
    requires handle.Valid() && e in handle.layout.succ
    modifies handle`size, handle`layout, handle.buckets, handle.layout.succ.Keys`next, e`live
    ensures handle.Valid() && handle.buckets == old(handle.buckets) && !e.live && handle.size == old(handle.size) - 1
    ensures handle.layout.entries == old(handle.layout).entries - {e.key}
    ensures handle.layout.succ.Keys == old(handle.layout.succ.Keys) - {e}
  {
    assert HashTable<V>.PointsAt(e, handle.layout.succ);
    handle.Unlink(e);
    e.Destroy();
    forall x | x in handle.layout.succ
      ensures HashTable<V>.PointsAt(x, handle.layout.succ)
    {
      assert x != e;
    }
  }

  /** A deletion, before the threshold check. */
  method RemoveEntry<V>(handle: HashTable<V>, e: Entry<V>)
    requires Faithful(handle) && e in handle.layout.succ
    modifies handle`size, handle`layout, handle`contents, handle.buckets, handle.layout.succ.Keys
    ensures Faithful(handle) && handle.buckets == old(handle.buckets) && !e.live
    ensures handle.contents == old(handle.contents) - {e.key} && handle.size == old(handle.size) - 1
    ensures handle.layout.succ.Keys == old(handle.layout.succ.Keys) - {e}
  {
    ghost var contents := handle.contents;
    assert IsRegistered(handle.layout, e);
    FreeEntry(handle, e);
    handle.contents := contents - {e.key};
    assert handle.contents.Keys == contents.Keys - {e.key} == handle.layout.entries.Keys;
    forall k | k in handle.contents
      ensures Stores(handle.layout, handle.contents, k)
    {
      assert old(Stores(handle.layout, handle.contents, k));
    }
  }

  /** Frees every entry of the table. */
  method HtableShutdown<V>(handle: HashTable?<V>) returns (errno: Errno)
    requires handle != null ==> Ready(handle)
    modifies Footprint(handle)
    ensures errno == if handle == null then Invalid else Success
    ensures handle != null ==> forall e :: e in old(handle.layout.succ) ==> !e.live
    ensures handle != null ==> handle.buckets == null
  {
    if handle == null {
      return Invalid;
    }
    handle.DestroyEntries();
    handle.buckets := null;
    errno := Success;
  }
}
