/** The LFU cache as a value: what each operation of the linked structure does to the
    set of entries, to the queue of every frequency and to the counters.

    The hash maps of the program are walked in an unspecified order, and one of those walks
    (the aging pass) relinks every node, so its order shows in the queues.  The operations
    therefore take that order as an argument, and every theorem holds for every order.
 */
module LfuModel {
  import opened Options

  const INT8_MAX: int := 127

  datatype Entry<V> = Entry(freq: int, value: V)

  /** `queues[f]` lists the keys linked under frequency `f`, oldest first; a frequency keeps its
      (possibly empty) queue once it has one.  `arrivals` is a history variable: the key of every
      link made so far, in order. */
  datatype State<K, V> = State(
    capacity: nat, maxAverage: nat,
    minFreq: int, average: int, total: int,
    entries: map<K, Entry<V>>, queues: map<int, seq<K>>, arrivals: seq<K>)

  // ----- Sequences without duplicates

  ghost predicate Distinct<K>(s: seq<K>) {
    forall i, j :: 0 <= i < j < |s| ==> s[i] != s[j]
  }

  ghost function IndexIn<K>(s: seq<K>, k: K): (i: nat)
    requires k in s
    ensures i < |s| && s[i] == k
  {
    var i :| 0 <= i < |s| && s[i] == k;
    i
  }

  ghost function Without<K>(s: seq<K>, k: K): seq<K>
    requires k in s
  {
    var i := IndexIn(s, k);
    s[..i] + s[i + 1..]
  }

  ghost predicate Enumerates<K(!new)>(order: seq<K>, keys: set<K>) {
    Distinct(order) && forall k :: k in order <==> k in keys
  }

  // ----- Linking

  ghost function Unlink<K, V>(s: State<K, V>, k: K): State<K, V>
    requires Linked(s, k)
  {
    var f := s.entries[k].freq;
    s.(queues := s.queues[f := Without(s.queues[f], k)])
  }

  ghost function QueueAt<K>(queues: map<int, seq<K>>, f: int): seq<K> {
    if f in queues then queues[f] else []
  }

  ghost function Link<K, V>(s: State<K, V>, k: K): State<K, V>
    requires k in s.entries
  {
    var f := s.entries[k].freq;
    s.(queues := s.queues[f := QueueAt(s.queues, f) + [k]], arrivals := s.arrivals + [k])
  }

  ghost function SetFreq<K, V>(s: State<K, V>, k: K, f: int): State<K, V>
    requires k in s.entries
  {
    s.(entries := s.entries[k := s.entries[k].(freq := f)])
  }

  ghost predicate Queued<K, V>(entries: map<K, Entry<V>>, queues: map<int, seq<K>>, k: K) {
    k in entries && entries[k].freq in queues && k in queues[entries[k].freq]
  }

  ghost predicate Linked<K, V>(s: State<K, V>, k: K) {
    Queued(s.entries, s.queues, k)
  }

  /** Relinks `k` under frequency `f`. */
  ghost function Move<K, V>(s: State<K, V>, k: K, f: int): State<K, V>
    requires Linked(s, k)
  {
    Link(SetFreq(Unlink(s, k), k, f), k)
  }

  // ----- Aging

  ghost function Aged(f: int, maxAverage: nat): int {
    if f - maxAverage / 2 < 1 then 1 else f - maxAverage / 2
  }

  ghost function AgeOne<K, V>(s: State<K, V>, k: K): State<K, V>
    requires Linked(s, k)
  {
    Move(s, k, Aged(s.entries[k].freq, s.maxAverage))
  }

  /** The frequencies that have a node. */
  ghost function LiveFreqs<K>(queues: map<int, seq<K>>): set<int> {
    set f | f in queues && queues[f] != []
  }

  /** The smallest member of `fs`, or the sentinel if none is below it. */
  ghost function LeastBelowSentinel(fs: set<int>): (m: int)
    ensures m == INT8_MAX || m in fs
    ensures m <= INT8_MAX && forall f :: f in fs ==> m <= f
  {
    if !exists f :: f in fs then INT8_MAX else
      var f :| f in fs;
      var rest := LeastBelowSentinel(fs - {f});
      assert forall g :: g in fs ==> g == f || g in fs - {f};
      if f < rest then f else rest
  }

  lemma LeastIsUnique(fs: set<int>, m: int)
    requires m == INT8_MAX || m in fs
    requires m <= INT8_MAX && forall f :: f in fs ==> m <= f
    ensures m == LeastBelowSentinel(fs)
  {
  }

  ghost function Refreshed<K>(queues: map<int, seq<K>>): int {
    var m := LeastBelowSentinel(LiveFreqs(queues));
    if m == INT8_MAX then 1 else m
  }

  // ----- Structure

  /** Position of the latest arrival of `k`, or -1. */
  ghost function LastArrival<K>(log: seq<K>, k: K): (i: int)
    ensures -1 <= i < |log|
  {
    if log == [] then -1
    else if log[|log| - 1] == k then |log| - 1
    else LastArrival(log[..|log| - 1], k)
  }

  ghost predicate WellLinked<K(!new), V>(s: State<K, V>) {
    WellQueued(s.entries, s.queues, s.arrivals)
  }

  /** Every entry is queued under its own frequency, every queued key is an entry of that
      frequency, and a queue holds its keys in the order of their latest arrival
      (so none occurs twice). */
  ghost predicate WellQueued<K(!new), V>(entries: map<K, Entry<V>>, queues: map<int, seq<K>>, arrivals: seq<K>) {
    && (forall k :: k in entries ==> entries[k].freq >= 1 && Queued(entries, queues, k))
    && (forall f, i :: f in queues && 0 <= i < |queues[f]| ==>
          queues[f][i] in entries && entries[queues[f][i]].freq == f)
    && (forall f :: f in queues ==> ByArrival(queues[f], arrivals))
  }

  ghost predicate ByArrival<K>(queue: seq<K>, log: seq<K>) {
    forall i, j :: 0 <= i < j < |queue| ==> LastArrival(log, queue[i]) < LastArrival(log, queue[j])
  }

  lemma ArrivalAppended<K>(log: seq<K>, k: K, j: K)
    ensures LastArrival(log + [k], j) == if j == k then |log| else LastArrival(log, j)
  {
    assert (log + [k])[..|log|] == log;
  }

  lemma WithoutKeepsOrder<K>(queue: seq<K>, k: K, log: seq<K>)
    requires k in queue && ByArrival(queue, log)
    ensures ByArrival(Without(queue, k), log)
    ensures k !in Without(queue, k)
    ensures forall j :: j in queue && j != k ==> j in Without(queue, k)
    ensures forall j :: j in Without(queue, k) ==> j in queue
  {
    var i, w := IndexIn(queue, k), Without(queue, k);
    forall j | j in queue && j != k
      ensures j in w
    {
      var n := IndexIn(queue, j);
      assert w[if n < i then n else n - 1] == j;
    }
  }

  lemma AppendKeepsOrder<K>(queue: seq<K>, k: K, log: seq<K>)
    requires k !in queue && ByArrival(queue, log)
    ensures ByArrival(queue + [k], log + [k])
  {
    forall i, j | 0 <= i < j < |queue + [k]|
      ensures LastArrival(log + [k], (queue + [k])[i]) < LastArrival(log + [k], (queue + [k])[j])
    {
      ArrivalAppended(log, k, (queue + [k])[i]);
      ArrivalAppended(log, k, (queue + [k])[j]);
    }
  }

  lemma OtherArrivalsKeepOrder<K>(queue: seq<K>, k: K, log: seq<K>)
    requires k !in queue && ByArrival(queue, log)
    ensures ByArrival(queue, log + [k])
  {
    forall i | 0 <= i < |queue|
      ensures LastArrival(log + [k], queue[i]) == LastArrival(log, queue[i])
    {
      ArrivalAppended(log, k, queue[i]);
    }
  }

  /** Linking a key that no queue holds. */
  lemma LinkKeepsLinked<K(!new), V>(s: State<K, V>, k: K)
    requires WellLinked(s.(entries := s.entries - {k}))
    requires k in s.entries && s.entries[k].freq >= 1
    ensures WellLinked(Link(s, k))
  {
    var t, e := Link(s, k), s.entries - {k};
    var f := s.entries[k].freq;
    forall g | g in t.queues
      ensures ByArrival(t.queues[g], t.arrivals)
    {
      assert g in s.queues ==> forall i :: 0 <= i < |s.queues[g]| ==> s.queues[g][i] in e;
      if g == f {
        AppendKeepsOrder(QueueAt(s.queues, f), k, s.arrivals);
      } else {
        OtherArrivalsKeepOrder(s.queues[g], k, s.arrivals);
      }
    }
    forall j | j in t.entries
      ensures t.entries[j].freq >= 1 && Linked(t, j)
    {
      if j == k {
        assert t.queues[f][|t.queues[f]| - 1] == k;
      } else {
        assert j in e && e[j].freq >= 1 && Linked(s.(entries := e), j);
      }
    }
  }

  /** Unlinking leaves every other entry linked. */
  lemma UnlinkKeepsOthers<K(!new), V>(s: State<K, V>, k: K)
    requires WellLinked(s) && k in s.entries
    ensures WellLinked(Unlink(s, k).(entries := s.entries - {k}))
  {
    var f := s.entries[k].freq;
    WithoutKeepsOrder(s.queues[f], k, s.arrivals);
    var t := Unlink(s, k).(entries := s.entries - {k});
    forall g, i | g in t.queues && 0 <= i < |t.queues[g]|
      ensures t.queues[g][i] in t.entries && t.entries[t.queues[g][i]].freq == g
    {
      var j := t.queues[g][i];
      assert j in t.queues[g];
      assert j in s.queues[g];
      assert s.entries[j].freq == g;
    }
    forall j | j in t.entries
      ensures t.entries[j].freq >= 1 && Linked(t, j)
    {
      assert Linked(s, j);
    }
  }

  lemma MoveKeepsLinked<K(!new), V>(s: State<K, V>, k: K, f: int)
    requires WellLinked(s) && k in s.entries && f >= 1
    ensures WellLinked(Move(s, k, f))
    ensures Move(s, k, f).entries == s.entries[k := s.entries[k].(freq := f)]
  {
    UnlinkKeepsOthers(s, k);
    var t := SetFreq(Unlink(s, k), k, f);
    assert t.entries - {k} == s.entries - {k};
    LinkKeepsLinked(t, k);
  }

  // ----- The aging pass

  ghost predicate SameLimits<K, V>(s: State<K, V>, t: State<K, V>) {
    s.capacity == t.capacity && s.maxAverage == t.maxAverage
  }

  /** One node of the pass loses half the limit, or falls to 1 if that is not less. */
  lemma AgeOneLowers<K(!new), V>(s: State<K, V>, k: K)
    requires WellLinked(s) && k in s.entries
    ensures Linked(s, k)
    ensures var t := AgeOne(s, k);
      && t.entries == s.entries[k := s.entries[k].(freq := t.entries[k].freq)] && t.entries[k].freq >= 1
      && (t.entries[k].freq == s.entries[k].freq - s.maxAverage / 2 ||
          (t.entries[k].freq == 1 && s.entries[k].freq <= 1 + s.maxAverage / 2))
  {
    MoveKeepsLinked(s, k, Aged(s.entries[k].freq, s.maxAverage));
  }

  /** Ages the nodes of `order`, one after the other.  The structure is intact after each. */
  ghost function Age<K(!new), V>(s: State<K, V>, order: seq<K>): (t: State<K, V>)
    requires WellLinked(s) && forall k :: k in order ==> k in s.entries
    ensures WellLinked(t) && t.entries.Keys == s.entries.Keys && SameLimits(s, t)
    decreases |order|
  {
    if order == [] then s else
      var last := |order| - 1;
      var before := Age(s, order[..last]);
      assert order[last] in order;
      MoveKeepsLinked(before, order[last], Aged(before.entries[order[last]].freq, before.maxAverage));
      AgeOne(before, order[last])
  }

  ghost function AverageOf(total: int, n: nat): int {
    if n == 0 then 0 else total / n
  }

  ghost function Counted<K, V>(s: State<K, V>): State<K, V> {
    s.(total := s.total + 1, average := AverageOf(s.total + 1, |s.entries|))
  }

  ghost predicate Overheated<K, V>(s: State<K, V>) {
    Counted(s).average > s.maxAverage
  }

  /** Counts one access; when the average passes the limit, ages every node. */
  ghost function CountAccess<K(!new), V>(s: State<K, V>, order: seq<K>): (t: State<K, V>)
    requires WellLinked(s) && Enumerates(order, s.entries.Keys)
    ensures WellLinked(t) && t.entries.Keys == s.entries.Keys && SameLimits(s, t)
  {
    if Overheated(s) then
      var aged := Age(Counted(s), order);
      aged.(minFreq := Refreshed(aged.queues))
    else Counted(s)
  }

  // ----- The operations

  /** The key moves up one frequency; `minFreq` follows if that empties the queue it names. */
  ghost function Accessed<K(!new), V>(s: State<K, V>, k: K): (t: State<K, V>)
    requires WellLinked(s) && k in s.entries
    ensures WellLinked(t) && t.entries.Keys == s.entries.Keys && SameLimits(s, t) && t.total == s.total
    ensures t.arrivals == s.arrivals + [k]
    ensures t.entries == s.entries[k := s.entries[k].(freq := s.entries[k].freq + 1)]
    ensures t.minFreq == s.minFreq + if s.entries[k].freq == s.minFreq && QueueAt(t.queues, s.minFreq) == [] then 1 else 0
  {
    var f := s.entries[k].freq;
    MoveKeepsLinked(s, k, f + 1);
    var moved := Move(s, k, f + 1);
    if f == s.minFreq && moved.queues[f] == [] then moved.(minFreq := s.minFreq + 1) else moved
  }

  /** An access to a cached key. */
  ghost function Touch<K(!new), V>(s: State<K, V>, k: K, order: seq<K>): (t: State<K, V>)
    requires WellLinked(s) && k in s.entries && Enumerates(order, s.entries.Keys)
    ensures WellLinked(t) && t.entries.Keys == s.entries.Keys && SameLimits(s, t)
  {
    CountAccess(Accessed(s, k), order)
  }

  ghost function SetValue<K(!new), V>(s: State<K, V>, k: K, v: V): (t: State<K, V>)
    requires WellLinked(s) && k in s.entries
    ensures WellLinked(t) && t.entries.Keys == s.entries.Keys && SameLimits(s, t)
    ensures t == s.(entries := s.entries[k := s.entries[k].(value := v)])
  {
    var t := s.(entries := s.entries[k := s.entries[k].(value := v)]);
    assert forall j :: j in t.entries ==> Linked(s, j);
    t
  }

  ghost predicate CanEvict<K, V>(s: State<K, V>) {
    s.minFreq in s.queues && s.queues[s.minFreq] != []
  }

  ghost function Victim<K, V>(s: State<K, V>): K
    requires CanEvict(s)
  {
    s.queues[s.minFreq][0]
  }

  ghost function KickOut<K(!new), V>(s: State<K, V>): (t: State<K, V>)
    requires WellLinked(s) && CanEvict(s)
    ensures WellLinked(t) && SameLimits(s, t)
    ensures Victim(s) in s.entries && t.entries == s.entries - {Victim(s)}
    ensures t.total == s.total - s.entries[Victim(s)].freq && t.arrivals == s.arrivals
    ensures t.average == if |s.entries| == 1 then 0 else t.total / (|s.entries| - 1)
  {
    var k := Victim(s);
    UnlinkKeepsOthers(s, k);
    var total := s.total - s.entries[k].freq;
    Unlink(s, k).(entries := s.entries - {k}, total := total, average := AverageOf(total, |s.entries| - 1))
  }

  /** An eviction that finds the queue of `minFreq` empty takes the sentinel of the list for a
      node: that one counts as an access less, and no key leaves.  (No key of the cache is the
      sentinel's own.) */
  ghost function Missed<K, V>(s: State<K, V>): State<K, V> {
    s.(total := s.total - 1, average := AverageOf(s.total - 1, |s.entries|))
  }

  /** Before a new key: a full cache tries to evict one. */
  ghost function MadeRoom<K(!new), V>(s: State<K, V>): (t: State<K, V>)
    requires WellLinked(s)
    ensures WellLinked(t) && t.entries.Keys <= s.entries.Keys && SameLimits(s, t) && t.arrivals == s.arrivals
    ensures t.minFreq == s.minFreq
    ensures |s.entries| == s.capacity && CanEvict(s) ==> Victim(s) in s.entries && t.entries == s.entries - {Victim(s)}
    ensures |s.entries| == s.capacity && !CanEvict(s) ==> t == Missed(s)
    ensures |s.entries| != s.capacity ==> t == s
  {
    if |s.entries| != s.capacity then s
    else if CanEvict(s) then KickOut(s)
    else Missed(s)
  }

  /** A new node of frequency 1, linked. */
  ghost function Added<K(!new), V>(s: State<K, V>, k: K, v: V): (t: State<K, V>)
    requires WellLinked(s) && k !in s.entries
    ensures WellLinked(t) && t.entries == s.entries[k := Entry(1, v)] && t.entries.Keys == s.entries.Keys + {k}
    ensures SameLimits(s, t) && t.minFreq == s.minFreq && t.total == s.total && t.arrivals == s.arrivals + [k]
  {
    var unlinked := s.(entries := s.entries[k := Entry(1, v)]);
    assert unlinked.entries - {k} == s.entries;
    LinkKeepsLinked(unlinked, k);
    Link(unlinked, k)
  }

  /** A new key. */
  ghost function Insert<K(!new), V>(s: State<K, V>, k: K, v: V, order: seq<K>): (t: State<K, V>)
    requires WellLinked(s) && k !in s.entries && Enumerates(order, s.entries.Keys + {k})
    ensures WellLinked(t) && t.entries.Keys == s.entries.Keys + {k} && SameLimits(s, t)
  {
    var counted := CountAccess(Added(s, k, v), order);
    counted.(minFreq := if counted.minFreq < 1 then counted.minFreq else 1)
  }

  /** While there are entries, the queues of 1 and of `minFreq` exist. */
  ghost predicate Named<K(!new), V>(s: State<K, V>) {
    WellLinked(s) && s.minFreq >= 1 && (s.entries != map[] ==> 1 in s.queues && s.minFreq in s.queues)
  }

  datatype Op<K, V> = Put(k: K, v: V, order: seq<K>) | Get(k: K, order: seq<K>) | Purge

  /** The keys an aging pass inside the operation would walk. */
  ghost function Walked<K(!new), V>(s: State<K, V>, op: Op<K, V>): set<K>
    requires WellLinked(s)
  {
    if op.Put? && s.capacity != 0 && op.k !in s.entries then MadeRoom(s).entries.Keys + {op.k} else s.entries.Keys
  }

  /** The operation has to evict. */
  ghost predicate Evicts<K, V>(s: State<K, V>, op: Op<K, V>) {
    op.Put? && s.capacity != 0 && op.k !in s.entries && |s.entries| == s.capacity
  }

  /** If it has to evict, it finds a node in the queue of `minFreq`. */
  ghost predicate Evictable<K, V>(s: State<K, V>, op: Op<K, V>) {
    Evicts(s, op) ==> CanEvict(s)
  }

  ghost predicate Admissible<K(!new), V>(s: State<K, V>, op: Op<K, V>) {
    && WellLinked(s)
    && (op.Get? || (op.Put? && s.capacity != 0) ==> Enumerates(op.order, Walked(s, op)))
  }

  ghost function Step<K(!new), V>(s: State<K, V>, op: Op<K, V>): (t: State<K, V>)
    requires Admissible(s, op)
    ensures WellLinked(t) && SameLimits(s, t)
  {
    match op
    case Put(k, v, order) =>
      if s.capacity == 0 then s
      else if k in s.entries then
        Touch(SetValue(s, k, v), k, order)
      else Insert(MadeRoom(s), k, v, order)
    case Get(k, order) => if k in s.entries then Touch(s, k, order) else s
    case Purge => s.(entries := map[], queues := map[])
  }

  lemma SomeOrder<K(!new)>(keys: set<K>) returns (order: seq<K>)
    ensures Enumerates(order, keys)
  {
    order := [];
    var rest := keys;
    while rest != {}
      invariant rest <= keys && Enumerates(order, keys - rest)
    {
      var k :| k in rest;
      order, rest := order + [k], rest - {k};
    }
    assert keys - rest == keys;
  }

  /** `get` on a cached key hands out its value. */
  ghost function Lookup<K, V>(s: State<K, V>, k: K): Option<V> {
    if k in s.entries then Some(s.entries[k].value) else None
  }

  ghost function Init<K, V>(capacity: nat, maxAverage: nat): State<K, V> {
    State(capacity, maxAverage, INT8_MAX, 0, 0, map[], map[], [])
  }
}
