/** Full caches: which limits let a cache that is full find no node to evict, and what becomes of
    its size and its account then.  The failing runs fill the cache, and read all its keys until
    they are as frequent as the sentinel. */
module LfuFull {
  import opened Options
  import opened LfuModel
  import opened LfuTheorems
  import opened LfuRuns

  // ----- Sums that reach their bound

  lemma {:induction false} SumAtMost<K, V>(m: map<K, Entry<V>>, top: int)
    requires forall k :: k in m ==> m[k].freq <= top
    ensures Sum(m) <= top * |m|
    decreases |m|
  {
    if m != map[] {
      var k :| k in m;
      SumMinus(m, k);
      SumAtMost(m - {k}, top);
      assert |(m - {k}).Keys| == |m.Keys| - 1 by { assert (m - {k}).Keys == m.Keys - {k}; }
      OneMore(top, |m - {k}|);
    }
  }

  lemma BelowTheTop<K, V>(m: map<K, Entry<V>>, k: K, top: int)
    requires (forall j :: j in m ==> m[j].freq <= top) && k in m && m[k].freq < top
    ensures Sum(m) < top * |m|
  {
    SumMinus(m, k);
    SumAtMost(m - {k}, top);
    assert |(m - {k}).Keys| == |m.Keys| - 1 by { assert (m - {k}).Keys == m.Keys - {k}; }
    OneMore(top, |m - {k}|);
  }

  lemma SomeBelowTheTop<K, V>(m: map<K, Entry<V>>, top: int) returns (k: K)
    requires (forall j :: j in m ==> m[j].freq <= top) && Sum(m) < top * |m|
    ensures k in m && m[k].freq < top
  {
    if forall j :: j in m ==> m[j].freq >= top {
      SumAtLeast(m, top);
    }
    k :| k in m && m[k].freq < top;
  }

  // ----- A cache that is read up to its target

  /** The frequency that cannot be told from the sentinel once it has been aged. */
  function Target(maxAverage: nat): (top: int)
    ensures top > 1
  {
    if maxAverage < 2 then 127 else maxAverage + 1
  }

  /** The keys are there, none more frequent than the target, and the account is exact. */
  ghost predicate Filling<K(!new), V>(s: State<K, V>, keys: set<K>) {
    && WellLinked(s) && s.entries.Keys == keys && s.total == Sum(s.entries)
    && forall k :: k in s.entries ==> s.entries[k].freq <= Target(s.maxAverage)
  }

  /** Below the target counting an access changes no frequency: the average is within the limit,
      or aging takes nothing away. */
  lemma CountOnly<K(!new), V>(t: State<K, V>, order: seq<K>)
    requires WellLinked(t) && Enumerates(order, t.entries.Keys) && Sum(t.entries) == t.total + 1 && t.entries != map[]
    requires t.maxAverage < 2 || Sum(t.entries) < (t.maxAverage + 1) * |t.entries|
    ensures CountAccess(t, order).entries == t.entries && CountAccess(t, order).total == t.total + 1
  {
    hide WellQueued, CountAccess, Enumerates, Sum;
    CountedEntries(t, order);
    if t.maxAverage < 2 {
      AgedToThemselves(t);
    } else {
      QuotientBelow(Sum(t.entries), |t.entries|, t.maxAverage + 1);
    }
  }

  lemma QuotientBelow(a: int, n: nat, q: int)
    requires n > 0 && a < q * n
    ensures a / n < q
  {
    if a / n >= q {
      ProductGrows(q, a / n, n);
    }
  }

  lemma PutFills<K(!new), V>(s: State<K, V>, keys: set<K>, k: K, v: V, order: seq<K>)
    requires Filling(s, keys) && k !in keys && |keys| < s.capacity && Enumerates(order, keys + {k})
    requires Sum(s.entries) == |keys|
    ensures Admissible(s, Put(k, v, order))
    ensures var t := Step(s, Put(k, v, order));
            Filling(t, keys + {k}) && Sum(t.entries) == |keys| + 1 && SameLimits(s, t)
  {
    hide WellQueued, CountAccess, Enumerates, Added, Sum;
    assert |s.entries.Keys| == |s.entries|;
    var added := Added(s, k, v);
    AddedIsLeast(s, k, v);
    if s.maxAverage >= 2 {
      ProductGrows(2, s.maxAverage + 1, |added.entries|);
    }
    CountOnly(added, order);
  }

  lemma GetFills<K(!new), V>(s: State<K, V>, keys: set<K>, k: K, order: seq<K>)
    requires Filling(s, keys) && k in keys && s.entries[k].freq < Target(s.maxAverage) && Enumerates(order, keys)
    requires s.maxAverage < 2 || Sum(s.entries) + 1 < (s.maxAverage + 1) * |keys|
    ensures Admissible(s, Get(k, order))
    ensures var t := Step(s, Get(k, order));
            Filling(t, keys) && Sum(t.entries) == Sum(s.entries) + 1 && SameLimits(s, t)
  {
    hide WellQueued, CountAccess, Enumerates, Accessed, Sum;
    var t := Accessed(s, k);
    SumUpdated(s.entries, k, s.entries[k].(freq := s.entries[k].freq + 1));
    assert |t.entries.Keys| == |t.entries|;
    CountOnly(t, order);
  }

  /** All keys at 127 or above after an aging pass, and the shortcut at 1. */
  ghost predicate Jammed<K(!new), V>(s: State<K, V>, keys: set<K>) {
    && WellLinked(s) && s.entries.Keys == keys && s.minFreq == 1
    && (forall k :: k in s.entries ==> s.entries[k].freq >= INT8_MAX)
    && (s.maxAverage < 2 ==> s.total == Sum(s.entries))
  }

  lemma LastGetJams<K(!new), V>(s: State<K, V>, keys: set<K>, k: K, order: seq<K>)
    requires Filling(s, keys) && k in keys && s.entries[k].freq < Target(s.maxAverage) && Enumerates(order, keys)
    requires !WorkingRange(s.maxAverage) && Sum(s.entries) + 1 == Target(s.maxAverage) * |keys|
    ensures Admissible(s, Get(k, order))
    ensures Jammed(Step(s, Get(k, order)), keys) && SameLimits(s, Step(s, Get(k, order)))
  {
    hide WellQueued, CountAccess, Enumerates, Accessed, Sum, IsLeastFreq, Refreshed;
    var top := Target(s.maxAverage);
    var t := Accessed(s, k);
    SumUpdated(s.entries, k, s.entries[k].(freq := s.entries[k].freq + 1));
    assert |t.entries.Keys| == |t.entries|;
    assert t.entries != map[] by { assert k in t.entries; }
    AllAtTheTop(t.entries, top);
    CountedEntries(t, order);
    assert Counted(t).average == top by { QuotientIs(top, |t.entries|); }
    LeastOfEqual(t.entries, top);
    AgedLeast(t.entries, top, t.maxAverage);
    RefreshedIsLeast(CountAccess(t, order), Aged(top, t.maxAverage));
    if s.maxAverage < 2 {
      CountOnly(t, order);
    }
  }

  lemma AllAtTheTop<K, V>(m: map<K, Entry<V>>, top: int)
    requires (forall k :: k in m ==> m[k].freq <= top) && Sum(m) == top * |m|
    ensures forall k :: k in m ==> m[k].freq == top
  {
    forall k | k in m
      ensures m[k].freq == top
    {
      if m[k].freq < top {
        BelowTheTop(m, k, top);
      }
    }
  }

  lemma QuotientIs(q: int, n: nat)
    requires n > 0
    ensures q * n / n == q
  {
    QuotientBelow(q * n, n, q + 1);
    if q * n / n < q {
      ProductGrows(q * n / n + 1, q, n);
    }
  }

  lemma LeastOfEqual<K(!new), V>(m: map<K, Entry<V>>, f: int)
    requires m != map[] && forall k :: k in m ==> m[k].freq == f
    ensures IsLeastFreq(m, f)
  {
    var k :| k in m;
  }

  // ----- The failing runs

  ghost function Elements<K>(keys: seq<K>): set<K> {
    set k | k in keys
  }

  lemma ElementsGrow<K>(keys: seq<K>, n: nat)
    requires Distinct(keys) && n < |keys|
    ensures Elements(keys[..n + 1]) == Elements(keys[..n]) + {keys[n]} && keys[n] !in Elements(keys[..n])
  {
  }

  lemma {:induction false} ElementsCount<K>(keys: seq<K>, n: nat)
    requires Distinct(keys) && n <= |keys|
    ensures |Elements(keys[..n])| == n
  {
    if n > 0 {
      ElementsCount(keys, n - 1);
      ElementsGrow(keys, n - 1);
    } else {
      assert Elements(keys[..0]) == {};
    }
  }

  lemma {:induction false} FillRun<K(!new), V>(capacity: nat, maxAverage: nat, keys: seq<K>, v: V, n: nat)
    returns (states: seq<State<K, V>>, ops: seq<Op<K, V>>)
    requires Distinct(keys) && n <= |keys| && n <= capacity
    ensures IsRun(capacity, maxAverage, states, ops)
    ensures var s := states[|ops|];
            && Filling(s, Elements(keys[..n])) && Sum(s.entries) == n
            && s.capacity == capacity && s.maxAverage == maxAverage
  {
    hide Filling, Step, Admissible;
    ElementsCount(keys, n);
    if n == 0 {
      states, ops := [Init(capacity, maxAverage)], [];
      EmptyIsFilling<K, V>(capacity, maxAverage);
      assert Elements(keys[..0]) == {};
    } else {
      states, ops := FillRun(capacity, maxAverage, keys, v, n - 1);
      ElementsCount(keys, n - 1);
      ElementsGrow(keys, n - 1);
      var order := SomeOrder(Elements(keys[..n]));
      var op := Put(keys[n - 1], v, order);
      PutFills(states[|ops|], Elements(keys[..n - 1]), keys[n - 1], v, order);
      RunExtended(capacity, maxAverage, states, ops, op);
      states, ops := states + [Step(states[|ops|], op)], ops + [op];
    }
  }

  lemma EmptyIsFilling<K(!new), V>(capacity: nat, maxAverage: nat)
    ensures var s: State<K, V> := Init(capacity, maxAverage); Filling(s, {}) && Sum(s.entries) == 0
  {
  }

  /** Reads keys below the target until one access is missing. */
  lemma {:induction false} ReadRun<K(!new), V>(
    capacity: nat, maxAverage: nat, states: seq<State<K, V>>, ops: seq<Op<K, V>>, keys: set<K>)
    returns (longer: seq<State<K, V>>, more: seq<Op<K, V>>)
    requires IsRun(capacity, maxAverage, states, ops) && Filling(states[|ops|], keys) && keys != {}
    requires states[|ops|].maxAverage == maxAverage && Sum(states[|ops|].entries) < Target(maxAverage) * |keys|
    ensures IsRun(capacity, maxAverage, longer, more) && Filling(longer[|more|], keys)
    ensures longer[|more|].maxAverage == maxAverage && Sum(longer[|more|].entries) + 1 == Target(maxAverage) * |keys|
    decreases Target(maxAverage) * |keys| - Sum(states[|ops|].entries)
  {
    hide Step, Admissible, Sum, WellLinked;
    var s := states[|ops|];
    assert |s.entries.Keys| == |s.entries|;
    if Sum(s.entries) + 1 == Target(maxAverage) * |keys| {
      longer, more := states, ops;
    } else {
      var k := SomeBelowTheTop(s.entries, Target(maxAverage));
      var order := SomeOrder(keys);
      GetFills(s, keys, k, order);
      RunExtended(capacity, maxAverage, states, ops, Get(k, order));
      longer, more := states + [Step(s, Get(k, order))], ops + [Get(k, order)];
      longer, more := ReadRun(capacity, maxAverage, longer, more, keys);
    }
  }

  /** Outside the working range a full cache can be jammed, whatever its capacity. */
  lemma JammedRun<K(!new), V>(capacity: nat, maxAverage: nat, keys: seq<K>, v: V)
    returns (states: seq<State<K, V>>, ops: seq<Op<K, V>>)
    requires capacity >= 1 && Distinct(keys) && |keys| >= capacity && !WorkingRange(maxAverage)
    ensures IsRun(capacity, maxAverage, states, ops)
    ensures var s := states[|ops|];
            Jammed(s, Elements(keys[..capacity])) && |s.entries| == s.capacity == capacity && s.maxAverage == maxAverage
  {
    hide Step, Admissible, Sum, WellLinked, Jammed;
    var all := Elements(keys[..capacity]);
    ElementsCount(keys, capacity);
    states, ops := FillRun(capacity, maxAverage, keys, v, capacity);
    OverTheCapacity(Target(maxAverage), capacity);
    states, ops := ReadRun(capacity, maxAverage, states, ops, all);
    var s := states[|ops|];
    assert |s.entries.Keys| == |s.entries|;
    var k := SomeBelowTheTop(s.entries, Target(maxAverage));
    var order := SomeOrder(all);
    LastGetJams(s, all, k, order);
    RunExtended(capacity, maxAverage, states, ops, Get(k, order));
    states, ops := states + [Step(s, Get(k, order))], ops + [Get(k, order)];
    JammedKeys(states[|ops|], all);
    RunKeepsCapacity(capacity, maxAverage, states, ops, |ops|);
  }

  lemma OverTheCapacity(top: int, n: nat)
    requires top > 1 && n >= 1
    ensures n < top * n
  {
    ProductGrows(2, top, n);
  }

  lemma JammedKeys<K(!new), V>(s: State<K, V>, keys: set<K>)
    requires Jammed(s, keys)
    ensures |s.entries| == |keys|
  {
    assert |s.entries.Keys| == |s.entries|;
  }

  lemma JammedCannotEvict<K(!new), V>(s: State<K, V>, keys: set<K>)
    requires Jammed(s, keys)
    ensures !CanEvict(s)
  {
    EmptyQueueMeansUnused(s, 1);
  }

  // ----- Exactly when a full cache can evict

  ghost predicate FullCacheAlwaysEvicts<K(!new), V(!new)>(capacity: nat, maxAverage: nat, k: K, v: V) {
    forall states: seq<State<K, V>>, ops: seq<Op<K, V>> ::
      IsRun(capacity, maxAverage, states, ops) ==> |states[|ops|].entries| == capacity ==> CanEvict(states[|ops|])
  }

  /** For every capacity: every full cache of every run finds a node to evict, exactly in the
      working range. */
  lemma FullCacheEvictsIff<K(!new), V(!new)>(capacity: nat, maxAverage: nat, keys: seq<K>, v: V)
    requires capacity >= 1 && Distinct(keys) && |keys| >= capacity
    ensures FullCacheAlwaysEvicts(capacity, maxAverage, keys[0], v) <==> 2 <= maxAverage <= 250
  {
    hide WellQueued, Step, Admissible;
    if 2 <= maxAverage <= 250 {
      forall states: seq<State<K, V>>, ops: seq<Op<K, V>> | IsRun(capacity, maxAverage, states, ops)
        ensures |states[|ops|].entries| == capacity ==> CanEvict(states[|ops|])
      {
        RunKeepsInv(capacity, maxAverage, states, ops, |ops|);
        if states[|ops|].entries != map[] {
          FullCacheCanEvict(states[|ops|]);
        }
      }
    } else {
      var states, ops := JammedRun(capacity, maxAverage, keys, v);
      JammedCannotEvict(states[|ops|], Elements(keys[..capacity]));
    }
  }

  // ----- Exactly when the size stays within the capacity, and the sum within the total

  /** For limits that age nothing away the excess grows with every eviction that finds no node. */
  lemma ExcessWithoutAging<K(!new), V>(s: State<K, V>, op: Op<K, V>)
    requires Admissible(s, op) && Counts(s, op) && s.maxAverage < 2
    ensures Excess(Step(s, op)) == Excess(s) + if Evictable(s, op) then 0 else 1
  {
    hide WellQueued, CountAccess, Enumerates, BeforeCount, Sum, Evictable, AgedEntries;
    StepIsCount(s, op);
    BeforeCountSum(s, op);
    BeforeCountSize(s, op);
    var t := BeforeCount(s, op);
    CountedEntries(t, op.order);
    AgedToThemselves(t);
  }

  lemma AgedToThemselves<K(!new), V>(s: State<K, V>)
    requires WellLinked(s) && s.maxAverage < 2
    ensures AgedEntries(s.entries, s.maxAverage) == s.entries
  {
    hide WellQueued;
    FreqsArePositive(s);
  }

  /** The next put of a new key: the cache grows past its capacity, and for limits that age
      nothing away the sum passes the total. */
  lemma JammedPut<K(!new), V>(s: State<K, V>, keys: set<K>, k: K, v: V, order: seq<K>)
    requires Jammed(s, keys) && k !in keys && |s.entries| == s.capacity >= 1 && Enumerates(order, keys + {k})
    ensures Admissible(s, Put(k, v, order))
    ensures var t := Step(s, Put(k, v, order));
            && |t.entries| == s.capacity + 1
            && (s.maxAverage < 2 ==> Sum(t.entries) == t.total + 1)
  {
    hide WellQueued, Step, Enumerates, Sum, CanEvict;
    var op := Put(k, v, order);
    JammedCannotEvict(s, keys);
    StepKeepsSizeIff(s, op);
    if s.maxAverage < 2 {
      ExcessWithoutAging(s, op);
    }
  }

  lemma OverflowingRun<K(!new), V>(capacity: nat, maxAverage: nat, keys: seq<K>, v: V)
    returns (states: seq<State<K, V>>, ops: seq<Op<K, V>>)
    requires capacity >= 1 && Distinct(keys) && |keys| > capacity && !WorkingRange(maxAverage)
    ensures IsRun(capacity, maxAverage, states, ops)
    ensures var s := states[|ops|];
            |s.entries| == capacity + 1 && (maxAverage < 2 ==> Sum(s.entries) == s.total + 1)
  {
    hide Step, Admissible, Sum, Jammed;
    states, ops := JammedRun(capacity, maxAverage, keys, v);
    var s, all := states[|ops|], Elements(keys[..capacity]);
    ElementsGrow(keys, capacity);
    var order := SomeOrder(all + {keys[capacity]});
    var op := Put(keys[capacity], v, order);
    JammedPut(s, all, keys[capacity], v, order);
    RunExtended(capacity, maxAverage, states, ops, op);
    states, ops := states + [Step(s, op)], ops + [op];
  }

  ghost predicate SizeAlwaysWithin<K(!new), V(!new)>(capacity: nat, maxAverage: nat, k: K, v: V) {
    forall states: seq<State<K, V>>, ops: seq<Op<K, V>> ::
      IsRun(capacity, maxAverage, states, ops) ==> |states[|ops|].entries| <= capacity
  }

  /** The cache keeps to its capacity in every run exactly in the working range. */
  lemma SizeWithinCapacityIff<K(!new), V(!new)>(capacity: nat, maxAverage: nat, keys: seq<K>, v: V)
    requires capacity >= 1 && Distinct(keys) && |keys| > capacity
    ensures SizeAlwaysWithin(capacity, maxAverage, keys[0], v) <==> 2 <= maxAverage <= 250
  {
    hide WellQueued, Step, Admissible;
    if 2 <= maxAverage <= 250 {
      forall states: seq<State<K, V>>, ops: seq<Op<K, V>> | IsRun(capacity, maxAverage, states, ops)
        ensures |states[|ops|].entries| <= capacity
      {
        RunKeepsInv(capacity, maxAverage, states, ops, |ops|);
      }
    } else {
      var states, ops := OverflowingRun(capacity, maxAverage, keys, v);
    }
  }

  ghost predicate SumAlwaysWithin<K(!new), V(!new)>(capacity: nat, maxAverage: nat, k: K, v: V) {
    forall states: seq<State<K, V>>, ops: seq<Op<K, V>> ::
      IsRun(capacity, maxAverage, states, ops) ==> Sum(states[|ops|].entries) <= states[|ops|].total
  }

  /** The sum of the frequencies stays within the total in every run exactly for limits from 2 on. */
  lemma SumWithinTotalIff<K(!new), V(!new)>(capacity: nat, maxAverage: nat, keys: seq<K>, v: V)
    requires capacity >= 1 && Distinct(keys) && |keys| > capacity
    ensures SumAlwaysWithin(capacity, maxAverage, keys[0], v) <==> maxAverage >= 2
  {
    hide WellQueued, Step, Admissible;
    if maxAverage >= 2 {
      forall states: seq<State<K, V>>, ops: seq<Op<K, V>> | IsRun(capacity, maxAverage, states, ops)
        ensures Sum(states[|ops|].entries) <= states[|ops|].total
      {
        RunKeepsAccounted(capacity, maxAverage, states, ops, |ops|);
      }
    } else {
      var states, ops := OverflowingRun(capacity, maxAverage, keys, v);
    }
  }
}
