/** Whole runs of the LFU cache: any sequence of operations, from the empty cache. */
module LfuRuns {
  import opened Options
  import opened LfuModel
  import opened LfuTheorems

  /** `states[i]` is the cache before the operation `ops[i]`. */
  ghost predicate IsRun<K(!new), V>(capacity: nat, maxAverage: nat, states: seq<State<K, V>>, ops: seq<Op<K, V>>) {
    && |states| == |ops| + 1
    && states[0] == Init(capacity, maxAverage)
    && forall i {:trigger ops[i]} :: 0 <= i < |ops| ==> Admissible(states[i], ops[i]) && states[i + 1] == Step(states[i], ops[i])
  }

  lemma RunStep<K(!new), V>(
    capacity: nat, maxAverage: nat, states: seq<State<K, V>>, ops: seq<Op<K, V>>, i: nat)
    requires IsRun(capacity, maxAverage, states, ops) && i < |ops|
    ensures Admissible(states[i], ops[i]) && states[i + 1] == Step(states[i], ops[i])
  {
    assert ops[i] == ops[i];
  }

  lemma {:induction false} RunKeepsInv<K(!new), V>(
    capacity: nat, maxAverage: nat, states: seq<State<K, V>>, ops: seq<Op<K, V>>, i: nat)
    requires IsRun(capacity, maxAverage, states, ops) && WorkingRange(maxAverage) && i <= |ops|
    ensures Inv(states[i]) && states[i].capacity == capacity && states[i].maxAverage == maxAverage
  {
    hide Inv, Step, Admissible;
    if i == 0 {
      EmptyInv<K, V>(capacity, maxAverage);
    } else {
      RunKeepsInv(capacity, maxAverage, states, ops, i - 1);
      RunStep(capacity, maxAverage, states, ops, i - 1);
      StepKeepsInv(states[i - 1], ops[i - 1]);
      StepKeepsLimits(states[i - 1], ops[i - 1]);
    }
  }

  lemma EmptyInv<K(!new), V>(capacity: nat, maxAverage: nat)
    ensures Inv<K, V>(Init(capacity, maxAverage))
  {
  }

  lemma StepKeepsLimits<K(!new), V>(s: State<K, V>, op: Op<K, V>)
    requires Admissible(s, op)
    ensures SameLimits(s, Step(s, op))
  {
  }

  // ----- The shortcut is exact for every run, exactly in the working range

  /** The shortcut names the smallest frequency in every reachable state. */
  ghost predicate AlwaysExact<K(!new), V(!new)>(capacity: nat, maxAverage: nat, k: K, v: V) {
    forall states: seq<State<K, V>>, ops: seq<Op<K, V>> ::
      IsRun(capacity, maxAverage, states, ops) ==> MinFreqExact(states[|ops|])
  }

  ghost predicate OnlyKey<K, V>(s: State<K, V>, k: K, f: int, v: V) {
    s.entries.Keys == {k} && s.entries[k] == Entry(f, v)
  }

  ghost function FreqAfter(n: int, maxAverage: nat): int {
    if n > maxAverage then Aged(n, maxAverage) else n
  }

  /** The shortcut after a refresh, for a cache whose one key has frequency `f`. */
  ghost predicate RefreshedFor<K, V>(s: State<K, V>, f: int) {
    s.minFreq == if f < INT8_MAX then f else 1
  }

  lemma OnlyKeyCounted<K(!new), V>(s: State<K, V>, k: K, f: int, v: V)
    requires WellLinked(s) && OnlyKey(s, k, f, v) && s.total == f - 1
    ensures Enumerates([k], s.entries.Keys)
    ensures var t := CountAccess(s, [k]);
            && OnlyKey(t, k, FreqAfter(f, s.maxAverage), v) && t.total == f
            && (f > s.maxAverage ==> RefreshedFor(t, FreqAfter(f, s.maxAverage)))
  {
    hide WellQueued, CountAccess, Refreshed, Aged, Enumerates, AverageOf;
    OnlyKeyWalk(s, k);
    CountedEntries(s, [k]);
    if f > s.maxAverage {
      OnlyKeyLeast(CountAccess(s, [k]), k);
    }
  }

  lemma OnlyKeyWalk<K(!new), V>(s: State<K, V>, k: K)
    requires s.entries.Keys == {k}
    ensures Enumerates([k], s.entries.Keys)
    ensures Overheated(s) <==> s.total + 1 > s.maxAverage
  {
    assert |s.entries.Keys| == 1;
  }

  lemma OnlyKeyLeast<K(!new), V>(s: State<K, V>, k: K)
    requires WellLinked(s) && s.entries.Keys == {k}
    ensures Refreshed(s.queues) == if s.entries[k].freq < INT8_MAX then s.entries[k].freq else 1
  {
    RefreshedIsLeast(s, s.entries[k].freq);
  }

  lemma OnlyKeyPut<K(!new), V>(capacity: nat, maxAverage: nat, k: K, v: V)
    requires capacity >= 1
    ensures var s: State<K, V> := Init(capacity, maxAverage);
            Admissible(s, Put(k, v, [k])) && OnlyKey(Step(s, Put(k, v, [k])), k, 1, v) && Step(s, Put(k, v, [k])).total == 1
  {
    var s: State<K, V> := Init(capacity, maxAverage);
    var added := Added(s, k, v);
    hide WellQueued, Added, CountAccess;
    OnlyKeyCounted(added.(total := 0), k, 1, v);
    assert added.(total := 0) == added;
  }

  lemma OnlyKeyGet<K(!new), V>(s: State<K, V>, k: K, f: int, v: V)
    requires WellLinked(s) && OnlyKey(s, k, f, v) && s.total == f
    ensures Admissible(s, Get(k, [k]))
    ensures var t := Step(s, Get(k, [k]));
            && OnlyKey(t, k, FreqAfter(f + 1, s.maxAverage), v) && t.total == f + 1
            && (f + 1 > s.maxAverage ==> RefreshedFor(t, FreqAfter(f + 1, s.maxAverage)))
  {
    hide WellQueued, Accessed, CountAccess;
    OnlyKeyCounted(Accessed(s, k), k, f + 1, v);
  }

  lemma RunExtended<K(!new), V>(
    capacity: nat, maxAverage: nat, states: seq<State<K, V>>, ops: seq<Op<K, V>>, op: Op<K, V>)
    requires IsRun(capacity, maxAverage, states, ops) && Admissible(states[|ops|], op)
    ensures IsRun(capacity, maxAverage, states + [Step(states[|ops|], op)], ops + [op])
  {
    hide Admissible, Step;
    var longer, more := states + [Step(states[|ops|], op)], ops + [op];
    forall i | 0 <= i < |more|
      ensures Admissible(longer[i], more[i]) && longer[i + 1] == Step(longer[i], more[i])
    {
      assert i < |ops| ==> Admissible(states[i], ops[i]) && states[i + 1] == Step(states[i], ops[i]);
    }
  }

  /** `n` accesses to a single key, the first of them its `put`. */
  lemma {:induction false} OnlyKeyRun<K(!new), V>(capacity: nat, maxAverage: nat, k: K, v: V, n: nat)
    returns (states: seq<State<K, V>>, ops: seq<Op<K, V>>)
    requires capacity >= 1 && n >= 1 && (n <= maxAverage + 1 || maxAverage < 2)
    ensures IsRun(capacity, maxAverage, states, ops)
    ensures var t := states[|ops|];
            && WellLinked(t) && OnlyKey(t, k, FreqAfter(n, maxAverage), v) && t.total == n && t.maxAverage == maxAverage
            && (n >= 2 && n > maxAverage ==> RefreshedFor(t, FreqAfter(n, maxAverage)))
  {
    hide Admissible, Step, WellLinked;
    if n == 1 {
      OnlyKeyPut(capacity, maxAverage, k, v);
      states, ops := [Init(capacity, maxAverage)], [];
      RunExtended(capacity, maxAverage, states, ops, Put(k, v, [k]));
      states, ops := states + [Step(states[|ops|], Put(k, v, [k]))], ops + [Put(k, v, [k])];
    } else {
      states, ops := OnlyKeyRun(capacity, maxAverage, k, v, n - 1);
      OnlyKeyGet(states[|ops|], k, n - 1, v);
      RunExtended(capacity, maxAverage, states, ops, Get(k, [k]));
      states, ops := states + [Step(states[|ops|], Get(k, [k]))], ops + [Get(k, [k])];
    }
  }

  lemma MinFreqExactIffWorkingRange<K(!new), V(!new)>(capacity: nat, maxAverage: nat, k: K, v: V)
    requires capacity >= 1
    ensures AlwaysExact(capacity, maxAverage, k, v) <==> 2 <= maxAverage <= 250
  {
    if 2 <= maxAverage <= 250 {
      forall states: seq<State<K, V>>, ops: seq<Op<K, V>> | IsRun(capacity, maxAverage, states, ops)
        ensures MinFreqExact(states[|ops|])
      {
        RunKeepsInv(capacity, maxAverage, states, ops, |ops|);
      }
    } else {
      var n := if maxAverage < 2 then 127 else maxAverage + 1;
      var states, ops := OnlyKeyRun(capacity, maxAverage, k, v, n);
      assert states[|ops|].minFreq == 1 && states[|ops|].entries[k].freq >= 127;
    }
  }

  /** A cache that is not empty finds a node to evict in every reachable state. */
  ghost predicate AlwaysCanEvict<K(!new), V(!new)>(capacity: nat, maxAverage: nat, k: K, v: V) {
    forall states: seq<State<K, V>>, ops: seq<Op<K, V>> ::
      IsRun(capacity, maxAverage, states, ops) ==> states[|ops|].entries != map[] ==> CanEvict(states[|ops|])
  }

  /** The list that the shortcut names holds a node in every run exactly in the working range. */
  lemma CanEvictIffWorkingRange<K(!new), V(!new)>(capacity: nat, maxAverage: nat, k: K, v: V)
    requires capacity >= 1
    ensures AlwaysCanEvict(capacity, maxAverage, k, v) <==> 2 <= maxAverage <= 250
  {
    hide WellQueued, Step, Admissible;
    if 2 <= maxAverage <= 250 {
      forall states: seq<State<K, V>>, ops: seq<Op<K, V>> | IsRun(capacity, maxAverage, states, ops)
        ensures states[|ops|].entries != map[] ==> CanEvict(states[|ops|])
      {
        RunKeepsInv(capacity, maxAverage, states, ops, |ops|);
        if states[|ops|].entries != map[] {
          FullCacheCanEvict(states[|ops|]);
        }
      }
    } else {
      var n := if maxAverage < 2 then 127 else maxAverage + 1;
      var states, ops := OnlyKeyRun(capacity, maxAverage, k, v, n);
      NoKeyOfFreq(states[|ops|], states[|ops|].minFreq);
    }
  }

  lemma NoKeyOfFreq<K(!new), V>(s: State<K, V>, f: int)
    requires WellLinked(s) && forall k :: k in s.entries ==> s.entries[k].freq != f
    ensures QueueAt(s.queues, f) == []
  {
    EmptyQueueMeansUnused(s, f);
  }

  // ----- Eviction

  /** Operations other than a purge that reach `addFreqNum`. */
  ghost predicate Counts<K(!new), V>(s: State<K, V>, op: Op<K, V>) {
    (op.Put? && s.capacity != 0) || (op.Get? && op.k in s.entries)
  }

  /** The cache just before the operation counts its access. */
  ghost function BeforeCount<K(!new), V>(s: State<K, V>, op: Op<K, V>): (t: State<K, V>)
    requires Admissible(s, op) && Counts(s, op)
    ensures WellLinked(t) && t.entries.Keys == Walked(s, op)
    ensures t.arrivals == s.arrivals + [op.k]
  {
    if op.Get? then Accessed(s, op.k)
    else if op.k in s.entries then Accessed(SetValue(s, op.k, op.v), op.k)
    else Added(MadeRoom(s), op.k, op.v)
  }

  lemma StepIsCount<K(!new), V>(s: State<K, V>, op: Op<K, V>)
    requires Admissible(s, op) && Counts(s, op)
    ensures var t := CountAccess(BeforeCount(s, op), op.order);
            Step(s, op) == t.(minFreq := Step(s, op).minFreq)
  {
    hide WellQueued, CountAccess, Enumerates, Accessed, SetValue, Added, MadeRoom;
  }

  ghost predicate Ages<K(!new), V>(s: State<K, V>, op: Op<K, V>)
    requires Admissible(s, op)
  {
    Counts(s, op) && Overheated(BeforeCount(s, op))
  }

  ghost function LinksMade<K(!new), V>(s: State<K, V>, op: Op<K, V>): seq<K>
    requires Admissible(s, op)
  {
    if Ages(s, op) then [op.k] + op.order else if Counts(s, op) then [op.k] else []
  }

  /** `arrivals` is what its name says: each operation appends the links it makes, the key
      accessed and then the walk of the aging pass if there is one. */
  lemma ArrivalsGrow<K(!new), V>(s: State<K, V>, op: Op<K, V>)
    requires Admissible(s, op)
    ensures Step(s, op).arrivals == s.arrivals + LinksMade(s, op)
  {
    hide WellQueued, Enumerates, CountAccess, BeforeCount, Step, Overheated, Admissible;
    if Counts(s, op) {
      CountingGrowsArrivals(s, op);
    } else {
      IdleStep(s, op);
    }
  }

  lemma CountingGrowsArrivals<K(!new), V>(s: State<K, V>, op: Op<K, V>)
    requires Admissible(s, op) && Counts(s, op)
    ensures Step(s, op).arrivals == s.arrivals + [op.k] + if Overheated(BeforeCount(s, op)) then op.order else []
  {
    hide WellQueued, CountAccess, BeforeCount, Step, Overheated, WellLinked;
    StepIsCount(s, op);
    CountArrivals(BeforeCount(s, op), op.order);
  }

  lemma IdleStep<K(!new), V>(s: State<K, V>, op: Op<K, V>)
    requires Admissible(s, op) && !Counts(s, op)
    ensures Step(s, op) == if op.Purge? then s.(entries := map[], queues := map[]) else s
  {
  }

  lemma {:induction false} AgeArrivals<K(!new), V>(s: State<K, V>, order: seq<K>)
    requires WellLinked(s) && forall k :: k in order ==> k in s.entries
    ensures Age(s, order).arrivals == s.arrivals + order
    decreases |order|
  {
    hide WellQueued;
    if order != [] {
      var last := |order| - 1;
      AgeArrivals(s, order[..last]);
      assert order[last] in order;
      assert order == order[..last] + [order[last]];
    }
  }

  lemma CountArrivals<K(!new), V>(s: State<K, V>, order: seq<K>)
    requires WellLinked(s) && Enumerates(order, s.entries.Keys)
    ensures CountAccess(s, order).arrivals == s.arrivals + if Overheated(s) then order else []
  {
    AgeArrivals(Counted(s), order);
  }

  /** The key evicted is a real one, of the frequency that the shortcut names, and of the keys
      of that frequency it is the one that has been in its queue longest; for every limit. */
  lemma EvictsOldestNamed<K(!new), V>(s: State<K, V>, op: Op<K, V>)
    requires Admissible(s, op) && Evicts(s, op)
    requires exists j :: j in s.entries && s.entries[j].freq == s.minFreq
    ensures CanEvict(s)
    ensures var victim := Victim(s);
            && victim in s.entries && s.entries[victim].freq == s.minFreq
            && Step(s, op).entries.Keys == s.entries.Keys - {victim} + {op.k}
            && forall j :: j in s.entries && j != victim && s.entries[j].freq == s.minFreq ==>
                 LastArrival(s.arrivals, victim) < LastArrival(s.arrivals, j)
  {
    var k :| k in s.entries && s.entries[k].freq == s.minFreq;
    assert Linked(s, k);
    var victim := Victim(s);
    forall j | j in s.entries && j != victim && s.entries[j].freq == s.minFreq
      ensures LastArrival(s.arrivals, victim) < LastArrival(s.arrivals, j)
    {
      assert Linked(s, j);
      var i := IndexIn(s.queues[s.minFreq], j);
    }
  }

  /** In the working range no key is less frequent. */
  lemma EvictsLeastFrequentOldest<K(!new), V>(s: State<K, V>, op: Op<K, V>)
    requires Inv(s) && Admissible(s, op)
    requires op.Put? && s.capacity != 0 && op.k !in s.entries && |s.entries| == s.capacity
    ensures var victim := Victim(s);
            && victim in s.entries
            && Step(s, op).entries.Keys == s.entries.Keys - {victim} + {op.k}
            && forall j :: j in s.entries && j != victim ==>
                 s.entries[victim].freq < s.entries[j].freq ||
                 (s.entries[victim].freq == s.entries[j].freq
                  && LastArrival(s.arrivals, victim) < LastArrival(s.arrivals, j))
  {
    hide WellQueued, Step;
    EvictsOldestNamed(s, op);
  }

  // ----- A map that forgets

  lemma BeforeCountAsMap<K(!new), V>(s: State<K, V>, op: Op<K, V>, j: K)
    requires Admissible(s, op) && Counts(s, op)
    ensures Lookup(BeforeCount(s, op), j) ==
            if op.Put? && j == op.k then Some(op.v)
            else if j in Walked(s, op) then Lookup(s, j)
            else None
  {
    hide WellQueued, Enumerates, Accessed, SetValue, Added, MadeRoom;
  }

  /** What one operation does to the map of keys to values: a `put` sets its key and may drop
      the victim of an eviction, a `get` changes nothing, a purge empties it. */
  lemma StepAsMap<K(!new), V>(s: State<K, V>, op: Op<K, V>, j: K)
    requires Admissible(s, op)
    ensures Lookup(Step(s, op), j) ==
            if op.Purge? then None
            else if op.Put? && s.capacity != 0 && j == op.k then Some(op.v)
            else if Evicts(s, op) && CanEvict(s) && j == Victim(s) then None
            else Lookup(s, j)
  {
    hide WellQueued, CountAccess, Enumerates, BeforeCount, MadeRoom;
    if Counts(s, op) {
      StepIsCount(s, op);
      BeforeCountAsMap(s, op, j);
      CountKeepsMap(BeforeCount(s, op), op.order);
    }
  }

  lemma CountKeepsMap<K(!new), V>(s: State<K, V>, order: seq<K>)
    requires WellLinked(s) && Enumerates(order, s.entries.Keys)
    ensures forall j :: Lookup(CountAccess(s, order), j) == Lookup(s, j)
  {
    hide WellQueued, CountAccess, Enumerates;
    CountedEntries(s, order);
  }

  /** The value last put under `k`, since the last purge. */
  ghost function LastPut<K, V>(ops: seq<Op<K, V>>, k: K): Option<V> {
    if ops == [] then None else Recorded(LastPut(ops[..|ops| - 1], k), ops[|ops| - 1], k)
  }

  ghost function Recorded<K, V>(before: Option<V>, op: Op<K, V>, k: K): Option<V> {
    if op.Put? && op.k == k then Some(op.v) else if op.Purge? then None else before
  }

  lemma StepKeepsRecord<K(!new), V>(s: State<K, V>, op: Op<K, V>, before: Option<V>, k: K)
    requires Admissible(s, op) && (s.capacity == 0 ==> k !in s.entries)
    requires k in s.entries ==> Lookup(s, k) == before
    ensures k in Step(s, op).entries ==> Lookup(Step(s, op), k) == Recorded(before, op, k)
  {
    hide Step, Admissible;
    StepAsMap(s, op, k);
  }

  /** In every run, whatever the capacity and the limit, a hit hands out the value last put. */
  lemma {:induction false} HitIsLastPut<K(!new), V>(
    capacity: nat, maxAverage: nat, states: seq<State<K, V>>, ops: seq<Op<K, V>>, i: nat, k: K)
    requires IsRun(capacity, maxAverage, states, ops) && i <= |ops|
    ensures k in states[i].entries ==> Lookup(states[i], k) == LastPut(ops[..i], k)
  {
    hide Step, Admissible, Recorded, Lookup;
    if i == 0 {
      assert states[0].entries == map[];
    } else {
      HitIsLastPut(capacity, maxAverage, states, ops, i - 1, k);
      RunStep(capacity, maxAverage, states, ops, i - 1);
      RunKeepsCapacity(capacity, maxAverage, states, ops, i - 1);
      assert ops[..i][..i - 1] == ops[..i - 1];
      hide IsRun;
      StepKeepsRecord(states[i - 1], ops[i - 1], LastPut(ops[..i - 1], k), k);
    }
  }

  lemma {:induction false} RunKeepsCapacity<K(!new), V>(
    capacity: nat, maxAverage: nat, states: seq<State<K, V>>, ops: seq<Op<K, V>>, i: nat)
    requires IsRun(capacity, maxAverage, states, ops) && i <= |ops|
    ensures states[i].capacity == capacity && (capacity == 0 ==> states[i].entries == map[])
  {
    if i > 0 {
      RunKeepsCapacity(capacity, maxAverage, states, ops, i - 1);
      RunStep(capacity, maxAverage, states, ops, i - 1);
    }
  }

  // ----- Accounting

  /** The shortcut is exact; kept by every operation that does not age. */
  ghost predicate Shortcut<K(!new), V>(s: State<K, V>) {
    WellLinked(s) && s.minFreq >= 1 && MinFreqExact(s)
  }

  lemma ExactCanEvict<K(!new), V>(s: State<K, V>, op: Op<K, V>)
    requires WellLinked(s) && MinFreqExact(s)
    ensures Evictable(s, op)
  {
    if s.entries != map[] {
      var k :| k in s.entries && s.entries[k].freq == s.minFreq;
      assert Linked(s, k);
    }
  }

  /** Before its access is counted, an operation on a key that is there keeps the shortcut exact,
      and a new key has frequency 1. */
  lemma BeforeCountLeast<K(!new), V>(s: State<K, V>, op: Op<K, V>)
    requires Admissible(s, op) && Counts(s, op)
    ensures var t := BeforeCount(s, op);
            && t.entries != map[]
            && (op.k in s.entries && MinFreqExact(s) ==> IsLeastFreq(t.entries, t.minFreq))
            && (op.k in s.entries ==> s.minFreq <= t.minFreq)
            && (op.k !in s.entries ==> IsLeastFreq(t.entries, 1) && t.minFreq == s.minFreq)
  {
    hide WellQueued, Enumerates, Accessed, Added, IsLeastFreq;
    assert op.k in BeforeCount(s, op).entries;
    if op.k !in s.entries {
      AddedIsLeast(MadeRoom(s), op.k, op.v);
    } else {
      var kept := if op.Put? then SetValue(s, op.k, op.v) else s;
      if MinFreqExact(s) {
        SameFreqsSameLeast(s, kept);
        AccessedLeast(kept, op.k);
      }
    }
  }

  lemma SameFreqsSameLeast<K(!new), V>(s: State<K, V>, t: State<K, V>)
    requires s.entries.Keys == t.entries.Keys && s.entries != map[] && MinFreqExact(s) && t.minFreq == s.minFreq
    requires forall k :: k in s.entries ==> t.entries[k].freq == s.entries[k].freq
    ensures IsLeastFreq(t.entries, t.minFreq)
  {
    var k :| k in s.entries && s.entries[k].freq == s.minFreq;
    assert t.entries[k].freq == t.minFreq;
  }

  /** What a counted operation leaves in the shortcut. */
  lemma StepMinFreq<K(!new), V>(s: State<K, V>, op: Op<K, V>)
    requires Admissible(s, op) && Counts(s, op)
    ensures var c := CountAccess(BeforeCount(s, op), op.order).minFreq;
            Step(s, op).minFreq == if op.k in s.entries then c else if c < 1 then c else 1
  {
    hide WellQueued, CountAccess, Enumerates, Accessed, SetValue, Added, MadeRoom;
  }

  lemma StepKeepsShortcut<K(!new), V>(s: State<K, V>, op: Op<K, V>)
    requires Shortcut(s) && Admissible(s, op) && !Ages(s, op)
    ensures Shortcut(Step(s, op))
  {
    hide WellQueued, CountAccess, Enumerates, BeforeCount, IsLeastFreq, Step;
    if Counts(s, op) {
      StepIsCount(s, op);
      StepMinFreq(s, op);
      BeforeCountLeast(s, op);
      CountedEntries(BeforeCount(s, op), op.order);
    } else {
      IdleStep(s, op);
    }
  }

  /** Until the first aging pass or purge, the total is the sum of the frequencies. */
  lemma {:induction false} TotalIsExactBeforeAging<K(!new), V>(
    capacity: nat, maxAverage: nat, states: seq<State<K, V>>, ops: seq<Op<K, V>>, i: nat)
    requires IsRun(capacity, maxAverage, states, ops) && i <= |ops|
    requires forall j :: 0 <= j < i ==> !ops[j].Purge? && !Ages(states[j], ops[j])
    ensures states[i].total == Sum(states[i].entries) && Shortcut(states[i])
  {
    hide Shortcut, Ages, Step, Admissible;
    if i == 0 {
      EmptyShortcut<K, V>(capacity, maxAverage);
    } else {
      TotalIsExactBeforeAging(capacity, maxAverage, states, ops, i - 1);
      RunStep(capacity, maxAverage, states, ops, i - 1);
      ShortcutCanEvict(states[i - 1], ops[i - 1]);
      StepKeepsShortcut(states[i - 1], ops[i - 1]);
      StepAccounts(states[i - 1], ops[i - 1]);
    }
  }

  lemma EmptyShortcut<K(!new), V>(capacity: nat, maxAverage: nat)
    ensures Shortcut<K, V>(Init(capacity, maxAverage))
  {
  }

  lemma ShortcutCanEvict<K(!new), V>(s: State<K, V>, op: Op<K, V>)
    requires Shortcut(s)
    ensures Evictable(s, op)
  {
    ExactCanEvict(s, op);
  }

  /** An operation that neither ages nor purges keeps the total exact, if and only if it finds a
      node when it has to evict. */
  lemma StepAccounts<K(!new), V>(s: State<K, V>, op: Op<K, V>)
    requires Admissible(s, op) && !op.Purge? && !Ages(s, op) && s.total == Sum(s.entries)
    ensures Step(s, op).total == Sum(Step(s, op).entries) <==> Evictable(s, op)
  {
    hide WellQueued, CountAccess, Enumerates, BeforeCount, Sum;
    if Counts(s, op) {
      StepIsCount(s, op);
      BeforeCountSum(s, op);
      CountedEntries(BeforeCount(s, op), op.order);
    } else {
      IdleStep(s, op);
    }
  }

  lemma BeforeCountSum<K(!new), V>(s: State<K, V>, op: Op<K, V>)
    requires Admissible(s, op) && Counts(s, op)
    ensures var t := BeforeCount(s, op);
            Sum(t.entries) - t.total == Sum(s.entries) - s.total + if Evictable(s, op) then 1 else 2
  {
    hide WellQueued, Enumerates, Accessed, SetValue, Added, Sum;
    if op.k in s.entries {
      var kept := if op.Put? then SetValue(s, op.k, op.v) else s;
      SumUpdated(s.entries, op.k, kept.entries[op.k]);
      SumUpdated(kept.entries, op.k, kept.entries[op.k].(freq := kept.entries[op.k].freq + 1));
      assert kept.entries == s.entries[op.k := kept.entries[op.k]];
    } else {
      if |s.entries| == s.capacity && CanEvict(s) {
        SumMinus(s.entries, Victim(s));
      }
      SumUpdated(MadeRoom(s).entries, op.k, Entry(1, op.v));
    }
  }

  // ----- For every limit

  /** The sizes before the access is counted. */
  lemma BeforeCountSize<K(!new), V>(s: State<K, V>, op: Op<K, V>)
    requires Admissible(s, op) && Counts(s, op)
    ensures SameLimits(s, BeforeCount(s, op))
    ensures |BeforeCount(s, op).entries| ==
            |s.entries| + if op.k in s.entries || (Evicts(s, op) && CanEvict(s)) then 0 else 1
  {
    hide WellQueued, Enumerates, Accessed, SetValue, Added;
    assert |BeforeCount(s, op).entries.Keys| == |Walked(s, op)|;
    assert |s.entries.Keys| == |s.entries|;
    if op.k !in s.entries {
      assert |MadeRoom(s).entries.Keys| == |s.entries| - if Evicts(s, op) && CanEvict(s) then 1 else 0;
    }
  }

  /** An operation keeps the size within the capacity if and only if it finds a node when it has
      to evict; otherwise it ends one above. */
  lemma StepKeepsSizeIff<K(!new), V>(s: State<K, V>, op: Op<K, V>)
    requires Admissible(s, op) && |s.entries| <= s.capacity
    ensures |Step(s, op).entries| <= s.capacity <==> Evictable(s, op)
    ensures !Evictable(s, op) ==> |Step(s, op).entries| == s.capacity + 1
  {
    hide WellQueued, CountAccess, Enumerates, BeforeCount;
    if Counts(s, op) {
      StepIsCount(s, op);
      BeforeCountSize(s, op);
      assert |Step(s, op).entries.Keys| == |BeforeCount(s, op).entries.Keys|;
    } else {
      IdleStep(s, op);
    }
  }

  /** How far the sum of the frequencies is above the total. */
  ghost function Excess<K, V>(s: State<K, V>): int {
    Sum(s.entries) - s.total
  }

  lemma StepExcess<K(!new), V>(s: State<K, V>, op: Op<K, V>)
    requires Admissible(s, op) && Counts(s, op)
    ensures Excess(Step(s, op)) <= Excess(s) + if Evictable(s, op) then 0 else 1
    ensures |Step(s, op).entries| == |BeforeCount(s, op).entries|
  {
    hide WellQueued, CountAccess, Enumerates, BeforeCount, Sum;
    StepIsCount(s, op);
    BeforeCountSum(s, op);
    var t := BeforeCount(s, op);
    CountedEntries(t, op.order);
    FreqsArePositive(t);
    AgingLowersSum(t.entries, t.maxAverage);
    assert |Step(s, op).entries.Keys| == |t.entries.Keys|;
  }

  /** A cache that has grown past its capacity is never full again: until a purge it keeps every
      key, and takes in every key put. */
  lemma OutgrownKeepsAll<K(!new), V>(s: State<K, V>, op: Op<K, V>)
    requires Admissible(s, op) && !op.Purge? && |s.entries| > s.capacity > 0
    ensures |Step(s, op).entries| > s.capacity
    ensures Step(s, op).entries.Keys == s.entries.Keys + if op.Put? then {op.k} else {}
  {
    hide WellQueued, CountAccess, Enumerates, BeforeCount;
    if Counts(s, op) {
      StepIsCount(s, op);
      var t := Step(s, op);
      assert t.entries.Keys == Walked(s, op) == s.entries.Keys + if op.Put? then {op.k} else {};
      assert s.entries.Keys <= t.entries.Keys;
      assert |t.entries| == |t.entries.Keys| && |s.entries| == |s.entries.Keys|;
    }
  }

  /** The sum is within the total, or one above it in a cache that has grown past its capacity. */
  ghost predicate Accounted<K(!new), V>(s: State<K, V>) {
    && WellLinked(s)
    && (s.capacity == 0 ==> s.entries == map[])
    && Excess(s) <= if |s.entries| > s.capacity then 1 else 0
  }

  lemma TotalIsNotNegative<K(!new), V>(s: State<K, V>)
    requires Accounted(s)
    ensures s.total >= 0
  {
    FreqsArePositive(s);
    SumAtLeast(s.entries, 1);
  }

  lemma StepKeepsAccounted<K(!new), V>(s: State<K, V>, op: Op<K, V>)
    requires Accounted(s) && Admissible(s, op)
    ensures Accounted(Step(s, op))
  {
    hide WellQueued, CountAccess, Enumerates, BeforeCount, Sum;
    if Counts(s, op) {
      StepExcess(s, op);
      BeforeCountSize(s, op);
    } else {
      IdleStep(s, op);
      TotalIsNotNegative(s);
      SumOfNone<K, V>();
    }
  }

  lemma SumOfNone<K, V>()
    ensures Sum<K, V>(map[]) == 0
  {
  }

  ghost predicate WithinLimit<K(!new), V>(s: State<K, V>) {
    s.entries != map[] ==> SomeFreqWithin(s.entries, s.maxAverage)
  }

  lemma BeforeCountWithin<K(!new), V>(s: State<K, V>, op: Op<K, V>)
    requires Admissible(s, op) && Counts(s, op) && WithinLimit(s)
    ensures SomeFreqWithin(BeforeCount(s, op).entries, s.maxAverage + 1)
  {
    hide WellQueued, Enumerates, Accessed, SetValue, Added;
    var t := BeforeCount(s, op);
    if op.k in s.entries {
      var j :| j in s.entries && s.entries[j].freq <= s.maxAverage;
      assert t.entries[j].freq <= s.maxAverage + 1;
    } else {
      assert t.entries[op.k].freq == 1;
    }
  }

  /** From a limit of 2 on: when the shortcut is wrong, an aging pass has left the sum below the
      total, so that the access an eviction without a node takes off is not missing. */
  ghost predicate Covered<K(!new), V>(s: State<K, V>) {
    && WellLinked(s) && s.minFreq >= 1 && WithinLimit(s)
    && Excess(s) <= if MinFreqExact(s) then 0 else -1
  }

  lemma CoveredExcess<K(!new), V>(s: State<K, V>, op: Op<K, V>)
    requires Covered(s) && Admissible(s, op) && Counts(s, op)
    ensures Excess(BeforeCount(s, op)) <= if MinFreqExact(s) || !Evictable(s, op) then 1 else 0
  {
    hide WellQueued, Enumerates, BeforeCount, Sum, IsLeastFreq;
    BeforeCountSum(s, op);
    if MinFreqExact(s) {
      ExactCanEvict(s, op);
    }
  }

  lemma CoveredWithoutAging<K(!new), V>(s: State<K, V>, op: Op<K, V>)
    requires Covered(s) && Admissible(s, op) && Counts(s, op) && !Ages(s, op)
    ensures Step(s, op).minFreq >= 1 && Excess(Step(s, op)) <= if MinFreqExact(Step(s, op)) then 0 else -1
  {
    hide WellQueued, CountAccess, Enumerates, BeforeCount, Sum, IsLeastFreq, Step;
    StepIsCount(s, op);
    StepMinFreq(s, op);
    BeforeCountLeast(s, op);
    CoveredExcess(s, op);
    CountedEntries(BeforeCount(s, op), op.order);
  }

  lemma CoveredWithAging<K(!new), V>(s: State<K, V>, op: Op<K, V>)
    requires Covered(s) && Admissible(s, op) && Ages(s, op) && s.maxAverage >= 2
    ensures Step(s, op).minFreq >= 1 && Excess(Step(s, op)) <= if MinFreqExact(Step(s, op)) then 0 else -1
  {
    hide WellQueued, CountAccess, Enumerates, BeforeCount, Sum, IsLeastFreq, Step, AgedEntries, Refreshed;
    StepIsCount(s, op);
    StepMinFreq(s, op);
    BeforeCountLeast(s, op);
    CoveredExcess(s, op);
    BeforeCountSize(s, op);
    var t := BeforeCount(s, op);
    CountedEntries(t, op.order);
    FreqsArePositive(t);
    AgingLowersSum(t.entries, t.maxAverage);
    var f := LeastExists(t.entries);
    AgedLeast(t.entries, f, t.maxAverage);
    RefreshedIsLeast(CountAccess(t, op.order), Aged(f, t.maxAverage));
    LeastIsPositive(t, f);
    if op.k !in s.entries {
      LeastUnique(t.entries, f, 1);
    } else if Aged(f, t.maxAverage) >= INT8_MAX {
      AgingLowersSumOfMany(t.entries, f, t.maxAverage);
    }
  }

  lemma LeastIsPositive<K(!new), V>(s: State<K, V>, f: int)
    requires WellLinked(s) && IsLeastFreq(s.entries, f)
    ensures f >= 1
  {
  }

  lemma LeastUnique<K(!new), V>(m: map<K, Entry<V>>, f: int, g: int)
    requires IsLeastFreq(m, f) && IsLeastFreq(m, g)
    ensures f == g
  {
  }

  /** Aging a cache whose least frequency is above 1 lowers the sum. */
  lemma AgingLowersSumOfMany<K(!new), V>(m: map<K, Entry<V>>, f: int, maxAverage: nat)
    requires IsLeastFreq(m, f) && f >= 2 && maxAverage >= 2
    ensures Sum(AgedEntries(m, maxAverage)) < Sum(m)
  {
    hide Sum;
    var k :| k in m && m[k].freq == f;
    var a := AgedEntries(m, maxAverage);
    SumMinus(m, k);
    SumMinus(a, k);
    assert a - {k} == AgedEntries(m - {k}, maxAverage);
    AgingLowersSum(m - {k}, maxAverage);
  }

  lemma StepKeepsCovered<K(!new), V>(s: State<K, V>, op: Op<K, V>)
    requires Covered(s) && Accounted(s) && Admissible(s, op) && s.maxAverage >= 2
    ensures Covered(Step(s, op))
  {
    hide WellQueued, CountAccess, Enumerates, BeforeCount, Sum, SomeFreqWithin, MinFreqExact, Step;
    if Counts(s, op) {
      StepIsCount(s, op);
      CoveredExcess(s, op);
      BeforeCountWithin(s, op);
      BeforeCountSize(s, op);
      CountBringsWithin(BeforeCount(s, op), op.order);
      if Ages(s, op) {
        CoveredWithAging(s, op);
      } else {
        CoveredWithoutAging(s, op);
      }
    } else {
      IdleStep(s, op);
      TotalIsNotNegative(s);
      SumOfNone<K, V>();
      EmptyIsExact(Step(s, op));
    }
  }

  lemma EmptyIsExact<K(!new), V>(s: State<K, V>)
    ensures s.entries == map[] ==> MinFreqExact(s)
  {
  }

  /** In every run: for every limit the sum of the frequencies is at most one above the total, and
      that only past the capacity; from a limit of 2 on it is within the total, and the smallest
      frequency within the limit. */
  lemma {:induction false} RunKeepsAccounted<K(!new), V>(
    capacity: nat, maxAverage: nat, states: seq<State<K, V>>, ops: seq<Op<K, V>>, i: nat)
    requires IsRun(capacity, maxAverage, states, ops) && i <= |ops|
    ensures Accounted(states[i]) && states[i].capacity == capacity && states[i].maxAverage == maxAverage
    ensures maxAverage >= 2 ==> Covered(states[i])
  {
    hide Accounted, Covered, Step, Admissible;
    if i == 0 {
      EmptyIsAccounted<K, V>(capacity, maxAverage);
    } else {
      RunKeepsAccounted(capacity, maxAverage, states, ops, i - 1);
      RunStep(capacity, maxAverage, states, ops, i - 1);
      StepKeepsAccounted(states[i - 1], ops[i - 1]);
      StepKeepsLimits(states[i - 1], ops[i - 1]);
      if maxAverage >= 2 {
        StepKeepsCovered(states[i - 1], ops[i - 1]);
      }
    }
  }

  lemma EmptyIsAccounted<K(!new), V>(capacity: nat, maxAverage: nat)
    ensures Accounted<K, V>(Init(capacity, maxAverage)) && Covered<K, V>(Init(capacity, maxAverage))
  {
  }

  ghost predicate AlwaysWithinLimit<K(!new), V(!new)>(capacity: nat, maxAverage: nat, k: K, v: V) {
    forall states: seq<State<K, V>>, ops: seq<Op<K, V>> ::
      IsRun(capacity, maxAverage, states, ops) ==> WithinLimit(states[|ops|])
  }

  /** The smallest frequency stays within the limit in every run exactly for limits from 2 on. */
  lemma WithinLimitIffAtLeastTwo<K(!new), V(!new)>(capacity: nat, maxAverage: nat, k: K, v: V)
    requires capacity >= 1
    ensures AlwaysWithinLimit(capacity, maxAverage, k, v) <==> maxAverage >= 2
  {
    hide WellQueued, Step, Admissible;
    if maxAverage >= 2 {
      forall states: seq<State<K, V>>, ops: seq<Op<K, V>> | IsRun(capacity, maxAverage, states, ops)
        ensures WithinLimit(states[|ops|])
      {
        RunKeepsAccounted(capacity, maxAverage, states, ops, |ops|);
      }
    } else {
      var states, ops := OnlyKeyRun(capacity, maxAverage, k, v, 2);
      assert states[|ops|].entries[k].freq == 2;
    }
  }

  // ----- An eviction always has a list to look at

  lemma {:induction false} AgeKeepsQueues<K(!new), V>(s: State<K, V>, order: seq<K>)
    requires WellLinked(s) && forall k :: k in order ==> k in s.entries
    ensures s.queues.Keys <= Age(s, order).queues.Keys
    decreases |order|
  {
    hide WellQueued;
    if order != [] {
      var last := |order| - 1;
      AgeKeepsQueues(s, order[..last]);
      assert order[last] in order;
    }
  }

  lemma CountKeepsQueues<K(!new), V>(s: State<K, V>, order: seq<K>)
    requires WellLinked(s) && Enumerates(order, s.entries.Keys)
    ensures s.queues.Keys <= CountAccess(s, order).queues.Keys
    ensures var t := CountAccess(s, order);
            if Overheated(s) then t.minFreq == Refreshed(t.queues) else t.minFreq == s.minFreq
  {
    hide Age, WellQueued;
    AgeKeepsQueues(Counted(s), order);
  }

  lemma RefreshedIsQueue<K(!new), V>(s: State<K, V>)
    requires WellLinked(s) && 1 in s.queues
    ensures Refreshed(s.queues) >= 1 && Refreshed(s.queues) in s.queues
  {
    forall f | f in LiveFreqs(s.queues)
      ensures f >= 1
    {
      assert s.queues[f][0] in s.entries;
    }
  }

  lemma BeforeCountNamed<K(!new), V>(s: State<K, V>, op: Op<K, V>)
    requires Named(s) && Admissible(s, op) && Counts(s, op)
    ensures var t := BeforeCount(s, op);
            1 in t.queues && t.minFreq >= 1 && (op.k in s.entries ==> t.minFreq in t.queues)
  {
    hide WellQueued, Enumerates, WellLinked;
    if op.k !in s.entries {
      var room := MadeRoom(s);
      assert Added(room, op.k, op.v).queues == Link(room.(entries := room.entries[op.k := Entry(1, op.v)]), op.k).queues;
    }
  }

  lemma StepKeepsNamed<K(!new), V>(s: State<K, V>, op: Op<K, V>)
    requires Named(s) && Admissible(s, op)
    ensures Named(Step(s, op))
  {
    hide WellQueued, CountAccess, Enumerates, BeforeCount, Refreshed, Step;
    if Counts(s, op) {
      StepIsCount(s, op);
      StepMinFreq(s, op);
      BeforeCountNamed(s, op);
      var t := CountAccess(BeforeCount(s, op), op.order);
      CountKeepsQueues(BeforeCount(s, op), op.order);
      RefreshedIsQueue(t);
    } else {
      IdleStep(s, op);
    }
  }

  /** In every run, for every limit, an eviction finds the list of `minFreq`, and the sentinel's
      own list, even where it finds no node. */
  lemma {:induction false} RunKeepsNamed<K(!new), V>(
    capacity: nat, maxAverage: nat, states: seq<State<K, V>>, ops: seq<Op<K, V>>, i: nat)
    requires IsRun(capacity, maxAverage, states, ops) && i <= |ops|
    ensures Named(states[i])
  {
    hide Named, Step, Admissible;
    if i == 0 {
      EmptyIsNamed<K, V>(capacity, maxAverage);
    } else {
      RunKeepsNamed(capacity, maxAverage, states, ops, i - 1);
      RunStep(capacity, maxAverage, states, ops, i - 1);
      StepKeepsNamed(states[i - 1], ops[i - 1]);
    }
  }

  lemma EmptyIsNamed<K(!new), V>(capacity: nat, maxAverage: nat)
    ensures Named<K, V>(Init(capacity, maxAverage))
  {
  }
}
