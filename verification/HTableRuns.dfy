/** Whole runs of the hash table: any sequence of operations on a new table answers like a
    finite map, and relocates few entries. */
module HTableRuns {
  import opened HTableSizing
  import opened HTable
  import opened HTableOps
  import opened Options

  datatype Op<+V> = Insert(key: string, val: V) | Delete(key: string) | Find(key: string)

  /** What an operation reports: its return code, and for a successful lookup the value. */
  datatype Answer<+V> = Answer(errno: Errno, found: Option<V>)

  /** What an operation does to a finite map. */
  function Next<V>(m: map<string, V>, op: Op<V>): map<string, V> {
    match op
    case Insert(k, v) => m[k := v]
    case Delete(k) => m - {k}
    case Find(_) => m
  }

  /** The finite map after a sequence of operations on an empty one. */
  function Final<V>(ops: seq<Op<V>>): map<string, V> {
    if ops == [] then map[] else Next(Final(ops[..|ops| - 1]), ops[|ops| - 1])
  }

  /** What a finite map answers to an operation. */
  function Reply<V>(m: map<string, V>, op: Op<V>): Answer<V> {
    match op
    case Insert(_, _) => Answer(Success, None)
    case Delete(k) => Answer(if k in m then Success else NoValue, None)
    case Find(k) => if k in m then Answer(Success, Some(m[k])) else Answer(NoValue, None)
  }

  function Replies<V>(ops: seq<Op<V>>): seq<Answer<V>> {
    if ops == [] then []
    else Replies(ops[..|ops| - 1]) + [Reply(Final(ops[..|ops| - 1]), ops[|ops| - 1])]
  }

  predicate Adds<V>(m: map<string, V>, op: Op<V>) {
    op.Insert? && op.key !in m
  }

  predicate Removes<V>(m: map<string, V>, op: Op<V>) {
    op.Delete? && op.key in m
  }

  /** How many operations added an entry. */
  function Added<V>(ops: seq<Op<V>>): nat {
    if ops == [] then 0
    else Added(ops[..|ops| - 1]) + if Adds(Final(ops[..|ops| - 1]), ops[|ops| - 1]) then 1 else 0
  }

  /** How many operations removed an entry. */
  function Removed<V>(ops: seq<Op<V>>): nat {
    if ops == [] then 0
    else Removed(ops[..|ops| - 1]) + if Removes(Final(ops[..|ops| - 1]), ops[|ops| - 1]) then 1 else 0
  }

  /** The capacity after one operation: a threshold check for each change of size. */
  function NextCap<V>(m: map<string, V>, capacity: nat, op: Op<V>): nat {
    if Adds(m, op) then NextCapacity(|m| + 1, capacity)
    else if Removes(m, op) then NextCapacity(|m| - 1, capacity)
    else capacity
  }

  /** How many entries one operation relocates. */
  function Cost<V>(m: map<string, V>, capacity: nat, op: Op<V>): nat {
    if Adds(m, op) then Relocations(|m| + 1, capacity)
    else if Removes(m, op) then Relocations(|m| - 1, capacity)
    else 0
  }

  function Capacity<V>(ops: seq<Op<V>>): nat {
    if ops == [] then MIN_CAPACITY
    else NextCap(Final(ops[..|ops| - 1]), Capacity(ops[..|ops| - 1]), ops[|ops| - 1])
  }

  /** How many entries all resizes of a sequence of operations relocate. */
  function Relocated<V>(ops: seq<Op<V>>): nat {
    if ops == [] then 0
    else Relocated(ops[..|ops| - 1]) + Cost(Final(ops[..|ops| - 1]), Capacity(ops[..|ops| - 1]), ops[|ops| - 1])
  }

  /** `ops[i]` is the last operation that writes or removes `k`. */
  ghost predicate LastTouch<V>(ops: seq<Op<V>>, i: int, k: string) {
    && 0 <= i < |ops| && !ops[i].Find? && ops[i].key == k
    && forall j :: i < j < |ops| ==> ops[j].Find? || ops[j].key != k
  }

  /** A key has a value exactly when the last operation to touch it inserted that value. */
  lemma {:induction false} LastInsertWins<V>(ops: seq<Op<V>>, k: string)
    ensures k in Final(ops) <==> exists i :: LastTouch(ops, i, k) && ops[i].Insert?
    ensures forall i :: LastTouch(ops, i, k) && ops[i].Insert? ==> k in Final(ops) && Final(ops)[k] == ops[i].val
  {
    if ops != [] {
      var n := |ops| - 1;
      LastInsertWins(ops[..n], k);
      if ops[n].Find? || ops[n].key != k {
        assert forall i {:trigger LastTouch(ops, i, k)} :: LastTouch(ops, i, k) <==> LastTouch(ops[..n], i, k);
      } else {
        assert forall i {:trigger LastTouch(ops, i, k)} :: LastTouch(ops, i, k) <==> i == n;
      }
    }
  }

  /** What operation `i` is answered, by the last operation before it that touched its key: a key that was
      inserted then is found with the value inserted, and can be deleted; any other key is not there. */
  ghost predicate AnswersByLastTouch<V>(ops: seq<Op<V>>, i: nat, answer: Answer<V>)
    requires i < |ops|
  {
    match ops[i]
    case Insert(_, _) => answer.errno == Success && answer.found == None
    case Find(k) =>
      && answer.errno in {Success, NoValue} && (answer.errno == NoValue ==> answer.found == None)
      && (answer.errno == Success <==> exists j :: LastTouch(ops[..i], j, k) && ops[j].Insert?)
      && forall j :: LastTouch(ops[..i], j, k) && ops[j].Insert? ==> answer.found == Some(ops[j].val)
    case Delete(k) =>
      && answer.errno in {Success, NoValue} && answer.found == None
      && (answer.errno == Success <==> exists j :: LastTouch(ops[..i], j, k) && ops[j].Insert?)
  }

  lemma {:induction false} RepliesByLastTouch<V>(ops: seq<Op<V>>)
    ensures |Replies(ops)| == |ops|
    ensures forall i :: 0 <= i < |ops| ==> AnswersByLastTouch(ops, i, Replies(ops)[i])
  {
    if ops != [] {
      var n := |ops| - 1;
      var front := ops[..n];
      RepliesByLastTouch(front);
      LastInsertWins(front, ops[n].key);
      assert forall j :: 0 <= j < n ==> ops[j] == front[j];
      assert AnswersByLastTouch(ops, n, Reply(Final(front), ops[n]));
      forall i | 0 <= i < n
        ensures AnswersByLastTouch(ops, i, Replies(ops)[i])
      {
        assert AnswersByLastTouch(front, i, Replies(front)[i]) && front[..i] == ops[..i];
      }
    }
  }

  /** There are never more than `n` keys at once. */
  ghost predicate AtMost<V>(ops: seq<Op<V>>, n: nat) {
    forall i :: 0 <= i <= |ops| ==> |Final(ops[..i])| <= n
  }

  lemma PrefixAtMost<V>(ops: seq<Op<V>>, n: nat)
    requires ops != [] && AtMost(ops, n)
    ensures AtMost(ops[..|ops| - 1], n) && |Final(ops)| <= n
  {
    var front := ops[..|ops| - 1];
    forall i | 0 <= i <= |front|
      ensures |Final(front[..i])| <= n
    {
      assert front[..i] == ops[..i];
    }
    assert ops[..|ops|] == ops;
  }

  /** Every reachable table is within its load bound, in 32 bits. */
  lemma {:induction false} ReachableIsWellSized<V>(ops: seq<Op<V>>)
    requires AtMost(ops, MAX_ENTRIES)
    ensures WellSized(|Final(ops)|, Capacity(ops)) && Capacity(ops) < UINT32
    ensures |Final(ops)| == Added(ops) - Removed(ops)
  {
    if ops == [] {
      EmptyTableIsWellSized();
    } else {
      var n := |ops| - 1;
      var m, op := Final(ops[..n]), ops[n];
      PrefixAtMost(ops, MAX_ENTRIES);
      ReachableIsWellSized(ops[..n]);
      StepSize(m, op);
      if Adds(m, op) {
        InsertKeepsBound(|m|, Capacity(ops[..n]));
      } else if Removes(m, op) {
        DeleteKeepsBound(|m|, Capacity(ops[..n]));
      }
    }
  }

  lemma StepSize<V>(m: map<string, V>, op: Op<V>)
    ensures op.Insert? ==> |m[op.key := op.val]| == |m| + if op.key in m then 0 else 1
    ensures |m - {op.key}| == |m| - if op.key in m then 1 else 0
  {
    assert op.Insert? ==> m[op.key := op.val].Keys == m.Keys + {op.key};
    assert (m - {op.key}).Keys == m.Keys - {op.key};
  }

  /** Amortised cost: resizing relocates at most three entries for each entry ever added and
      one for each entry removed. */
  lemma {:induction false} RelocationsAreAmortised<V>(ops: seq<Op<V>>)
    requires AtMost(ops, MAX_ENTRIES)
    ensures 4 * Relocated(ops) + Potential(|Final(ops)|, Capacity(ops)) <= 12 * Added(ops) + 4 * Removed(ops)
    ensures Relocated(ops) <= 3 * Added(ops) + Removed(ops) <= 3 * |ops|
  {
    if ops != [] {
      var n := |ops| - 1;
      var m, op := Final(ops[..n]), ops[n];
      PrefixAtMost(ops, MAX_ENTRIES);
      RelocationsAreAmortised(ops[..n]);
      ReachableIsWellSized(ops[..n]);
      StepSize(m, op);
      if Adds(m, op) {
        InsertPays(|m|, Capacity(ops[..n]));
      } else if Removes(m, op) {
        DeletePays(|m|, Capacity(ops[..n]));
      }
    }
  }

  method Lookup<V>(handle: HashTable<V>, key: string) returns (answer: Answer<V>)
    requires Ready(handle)
    ensures answer == Reply(handle.contents, Find(key))
  {
    var out := new Cell<V>();
    var errno := HtableFind(handle, Some(key), out);
    answer := Answer(errno, out.val);
  }

  /** An operation has been answered, and has changed the table, as it would a finite map. */
  twostate predicate Performs<V>(handle: HashTable<V>, op: Op<V>, new answer: Answer<V>)
    reads handle`contents, handle`capacity, handle`relocated
  {
    && answer == Reply(old(handle.contents), op)
    && handle.contents == Next(old(handle.contents), op)
    && handle.capacity == NextCap(old(handle.contents), old(handle.capacity), op)
    && handle.relocated == old(handle.relocated) + Cost(old(handle.contents), old(handle.capacity), op)
  }

  method ExecuteInsert<V>(handle: HashTable<V>, op: Op<V>) returns (answer: Answer<V>)
    requires Ready(handle) && op.Insert? && (op.key !in handle.contents ==> |handle.contents| < MAX_ENTRIES)
    modifies handle, handle.buckets, handle.layout.succ.Keys
    ensures Ready(handle) && (handle.buckets == old(handle.buckets) || fresh(handle.buckets))
    ensures fresh(handle.layout.succ.Keys - old(handle.layout.succ.Keys))
    ensures Performs(handle, op, answer)
  {
    var errno := HtableInsert(handle, Some(op.key), op.val);
    answer := Answer(errno, None);
  }

  method ExecuteDelete<V>(handle: HashTable<V>, op: Op<V>) returns (answer: Answer<V>)
    requires Ready(handle) && op.Delete?
    modifies handle, handle.buckets, handle.layout.succ.Keys
    ensures Ready(handle) && (handle.buckets == old(handle.buckets) || fresh(handle.buckets))
    ensures fresh(handle.layout.succ.Keys - old(handle.layout.succ.Keys))
    ensures Performs(handle, op, answer)
  {
    var errno := HtableDelete(handle, Some(op.key));
    answer := Answer(errno, None);
  }

  /** One operation. */
  method Execute<V>(handle: HashTable<V>, op: Op<V>) returns (answer: Answer<V>)
    requires Ready(handle) && (Adds(handle.contents, op) ==> |handle.contents| < MAX_ENTRIES)
    modifies handle, handle.buckets, handle.layout.succ.Keys
    ensures Ready(handle) && (handle.buckets == old(handle.buckets) || fresh(handle.buckets))
    ensures fresh(handle.layout.succ.Keys - old(handle.layout.succ.Keys))
    ensures Performs(handle, op, answer)
  {
    match op
    case Insert(_, _) =>
      answer := ExecuteInsert(handle, op);
    case Delete(_) =>
      answer := ExecuteDelete(handle, op);
    case Find(k) =>
      answer := Lookup(handle, k);
  }

  /** What one more operation adds to a run. */
  lemma OneMore<V>(ops: seq<Op<V>>, i: nat)
    requires i < |ops| && AtMost(ops, MAX_ENTRIES)
    ensures var m, op := Final(ops[..i]), ops[i];
      && (Adds(m, op) ==> |m| < MAX_ENTRIES)
      && Final(ops[..i + 1]) == Next(m, op)
      && Replies(ops[..i + 1]) == Replies(ops[..i]) + [Reply(m, op)]
      && Capacity(ops[..i + 1]) == NextCap(m, Capacity(ops[..i]), op)
      && Relocated(ops[..i + 1]) == Relocated(ops[..i]) + Cost(m, Capacity(ops[..i]), op)
  {
    assert ops[..i + 1][..i] == ops[..i];
    assert |Final(ops[..i + 1])| <= MAX_ENTRIES;
    StepSize(Final(ops[..i]), ops[i]);
  }

  /** Runs operations on a new table. The table answers each one as the finite map would. */
  method Run<V>(ops: seq<Op<V>>) returns (handle: HashTable<V>, answers: seq<Answer<V>>)
    requires AtMost(ops, MAX_ENTRIES)
    ensures Ready(handle) && fresh(handle) && fresh(handle.buckets) && fresh(handle.layout.succ.Keys)
    ensures answers == Replies(ops) && handle.contents == Final(ops)
    ensures |answers| == |ops| && forall i :: 0 <= i < |ops| ==> AnswersByLastTouch(ops, i, answers[i])
    ensures handle.capacity == Capacity(ops)
    ensures handle.relocated == Relocated(ops) <= 3 * Added(ops) + Removed(ops)
  {
    var errno;
    errno, handle := HtableInit();
    answers := [];
    for i := 0 to |ops|
      invariant Ready(handle) && fresh(handle) && fresh(handle.buckets) && fresh(handle.layout.succ.Keys)
      invariant answers == Replies(ops[..i]) && handle.contents == Final(ops[..i])
      invariant handle.capacity == Capacity(ops[..i]) && handle.relocated == Relocated(ops[..i])
    {
      OneMore(ops, i);
      var answer := Execute(handle, ops[i]);
      answers := answers + [answer];
    }
    assert ops[..|ops|] == ops;
    RelocationsAreAmortised(ops);
    RepliesByLastTouch(ops);
  }
}
