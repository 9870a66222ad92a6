/** What every run of the LFU cache keeps, for every key and value type, every capacity, every
    aging limit in the working range and every order in which the hash maps are walked. */
module LfuTheorems {
  import opened LfuModel

  // ----- Sum and minimum of the frequencies

  ghost function Sum<K, V>(m: map<K, Entry<V>>): int
    decreases |m|
  {
    if m == map[] then 0 else
      var k :| k in m;
      m[k].freq + Sum(m - {k})
  }

  lemma {:induction false} SumMinus<K, V>(m: map<K, Entry<V>>, k: K)
    requires k in m
    ensures Sum(m) == m[k].freq + Sum(m - {k})
    decreases |m|
  {
    var c :| c in m && Sum(m) == m[c].freq + Sum(m - {c});
    if c != k {
      SumMinus(m - {c}, k);
      SumMinus(m - {k}, c);
      assert m - {c} - {k} == m - {k} - {c};
    }
  }

  lemma SumUpdated<K, V>(m: map<K, Entry<V>>, k: K, e: Entry<V>)
    ensures Sum(m[k := e]) == Sum(m) + e.freq - if k in m then m[k].freq else 0
  {
    SumMinus(m[k := e], k);
    assert m[k := e] - {k} == m - {k};
    if k in m {
      SumMinus(m, k);
    } else {
      assert m - {k} == m;
    }
  }

  lemma {:induction false} SumAtLeast<K, V>(m: map<K, Entry<V>>, f: int)
    requires forall k :: k in m ==> m[k].freq >= f
    ensures Sum(m) >= f * |m|
    decreases |m|
  {
    if m != map[] {
      var k :| k in m;
      SumMinus(m, k);
      SumAtLeast(m - {k}, f);
      assert |(m - {k}).Keys| == |m.Keys| - 1 by { assert (m - {k}).Keys == m.Keys - {k}; }
      OneMore(f, |m - {k}|);
    }
  }

  lemma OneMore(f: int, n: nat)
    ensures f * (n + 1) == f * n + f
  {
  }

  ghost predicate IsLeastFreq<K(!new), V>(m: map<K, Entry<V>>, f: int) {
    && (exists k :: k in m && m[k].freq == f)
    && (forall k :: k in m ==> f <= m[k].freq)
  }

  // ----- The aging pass, whatever the order of the walk

  ghost function AgedEntries<K, V>(m: map<K, Entry<V>>, maxAverage: nat): map<K, Entry<V>> {
    map k | k in m :: AgedEntry(m[k], maxAverage)
  }

  lemma {:induction false} AgeAgesEachOnce<K(!new), V>(s: State<K, V>, order: seq<K>)
    requires WellLinked(s) && Distinct(order) && forall k :: k in order ==> k in s.entries
    ensures var t := Age(s, order);
            && (forall k :: k in order ==> t.entries[k] == AgedEntry(s.entries[k], s.maxAverage))
            && (forall k :: k in s.entries && k !in order ==> t.entries[k] == s.entries[k])
            && SameCounters(s, t)
    decreases |order|
  {
    hide WellLinked;
    if order != [] {
      var last := |order| - 1;
      AgeAgesEachOnce(s, order[..last]);
      AgeUnrolled(s, order);
      assert order[last] in order && order[last] !in order[..last];
      assert forall k :: k in order <==> k == order[last] || k in order[..last];
    }
  }

  /** Aging the keys of any duplicate-free walk lowers exactly their frequencies, each by half the
      limit, or to 1 if that is not less; no key and no value changes, and the counters stay. */
  lemma AgeLowersEachOnce<K(!new), V>(s: State<K, V>, order: seq<K>)
    requires WellLinked(s) && Distinct(order) && forall k :: k in order ==> k in s.entries
    ensures var t := Age(s, order);
            && (forall k :: k in order ==>
                  && t.entries[k].value == s.entries[k].value && t.entries[k].freq >= 1
                  && (t.entries[k].freq == s.entries[k].freq - s.maxAverage / 2 ||
                      (t.entries[k].freq == 1 && s.entries[k].freq <= 1 + s.maxAverage / 2)))
            && (forall k :: k in s.entries && k !in order ==> t.entries[k] == s.entries[k])
            && t.entries.Keys == s.entries.Keys
            && t.minFreq == s.minFreq && t.average == s.average && t.total == s.total
  {
    hide WellQueued, Age;
    AgeAgesEachOnce(s, order);
  }

  lemma AgeUnrolled<K(!new), V>(s: State<K, V>, order: seq<K>)
    requires WellLinked(s) && order != [] && forall k :: k in order ==> k in s.entries
    ensures forall k :: k in order[..|order| - 1] ==> k in s.entries
    ensures var k, before := order[|order| - 1], Age(s, order[..|order| - 1]);
            var t := Age(s, order);
            k in before.entries &&
            t.entries == before.entries[k := AgedEntry(before.entries[k], before.maxAverage)] && SameCounters(before, t)
  {
    assert order[|order| - 1] in order;
  }

  ghost function AgedEntry<V>(e: Entry<V>, maxAverage: nat): Entry<V> {
    e.(freq := Aged(e.freq, maxAverage))
  }

  ghost predicate SameCounters<K, V>(s: State<K, V>, t: State<K, V>) {
    && s.capacity == t.capacity && s.maxAverage == t.maxAverage
    && s.minFreq == t.minFreq && s.average == t.average && s.total == t.total
  }

  lemma AgeClosedForm<K(!new), V>(s: State<K, V>, order: seq<K>)
    requires WellLinked(s) && Enumerates(order, s.entries.Keys)
    ensures Age(s, order).entries == AgedEntries(s.entries, s.maxAverage)
    ensures SameCounters(s, Age(s, order))
  {
    hide WellQueued, Age, AgedEntry, SameCounters;
    AgeAgesEachOnce(s, order);
  }

  /** Aging keeps the order of any two frequencies. */
  lemma AgingIsMonotone<K(!new), V>(s: State<K, V>, order: seq<K>, j: K, k: K)
    requires WellLinked(s) && Enumerates(order, s.entries.Keys)
    requires j in s.entries && k in s.entries && s.entries[j].freq <= s.entries[k].freq
    ensures Age(s, order).entries[j].freq <= Age(s, order).entries[k].freq
    ensures Age(s, order).entries[j].value == s.entries[j].value
  {
    hide WellQueued, Age, Enumerates;
    AgeClosedForm(s, order);
  }

  lemma {:induction false} AgingLowersSum<K, V>(m: map<K, Entry<V>>, maxAverage: nat)
    requires forall k :: k in m ==> m[k].freq >= 1
    ensures Sum(AgedEntries(m, maxAverage)) <= Sum(m)
    decreases |m|
  {
    var a := AgedEntries(m, maxAverage);
    if m != map[] {
      var k :| k in m;
      SumMinus(m, k);
      SumMinus(a, k);
      assert a - {k} == AgedEntries(m - {k}, maxAverage);
      assert (m - {k}).Keys == m.Keys - {k};
      AgingLowersSum(m - {k}, maxAverage);
    }
  }

  lemma AgedLeast<K(!new), V>(m: map<K, Entry<V>>, f: int, maxAverage: nat)
    requires IsLeastFreq(m, f)
    ensures IsLeastFreq(AgedEntries(m, maxAverage), Aged(f, maxAverage))
  {
    var k :| k in m && m[k].freq == f;
    assert AgedEntries(m, maxAverage)[k].freq == Aged(f, maxAverage);
  }

  /** The scan for the smallest live frequency is right exactly below the sentinel. */
  lemma RefreshedIsLeast<K(!new), V>(s: State<K, V>, f: int)
    requires WellLinked(s) && IsLeastFreq(s.entries, f)
    ensures Refreshed(s.queues) == if f < INT8_MAX then f else 1
  {
    var k :| k in s.entries && s.entries[k].freq == f;
    assert Linked(s, k);
    var live := LiveFreqs(s.queues);
    assert f in live;
    forall g | g in live
      ensures f <= g
    {
      assert s.queues[g][0] in s.entries;
    }
    LeastIsUnique(live, if f < INT8_MAX then f else INT8_MAX);
  }

  /** What counting one access does to the entries. */
  lemma CountedEntries<K(!new), V>(s: State<K, V>, order: seq<K>)
    requires WellLinked(s) && Enumerates(order, s.entries.Keys)
    ensures var t := CountAccess(s, order);
            && t.entries == (if Overheated(s) then AgedEntries(s.entries, s.maxAverage) else s.entries)
            && t.total == s.total + 1 && t.capacity == s.capacity && t.maxAverage == s.maxAverage
            && (!Overheated(s) ==> t.minFreq == s.minFreq)
            && (Overheated(s) ==> t.minFreq == Refreshed(t.queues))
  {
    hide WellQueued, Age, Enumerates;
    if Overheated(s) {
      AgeClosedForm(Counted(s), order);
    }
  }

  // ----- The invariant

  ghost predicate MinFreqExact<K(!new), V>(s: State<K, V>) {
    s.entries != map[] ==> IsLeastFreq(s.entries, s.minFreq)
  }

  ghost predicate Bounded<K(!new), V>(s: State<K, V>) {
    WellLinked(s) && |s.entries| <= s.capacity && Sum(s.entries) <= s.total
  }

  ghost predicate Inv<K(!new), V>(s: State<K, V>) {
    && Bounded(s)
    && s.minFreq >= 1
    && MinFreqExact(s)
    && (s.entries != map[] ==> s.minFreq <= s.maxAverage)
  }

  ghost predicate WorkingRange(maxAverage: nat) {
    2 <= maxAverage <= 250
  }

  lemma ProductGrows(a: int, b: int, n: nat)
    requires a <= b
    ensures a * n <= b * n
  {
    assert (b - a) * n >= 0;
    assert (b - a) * n == b * n - a * n;
  }

  lemma BelowAverage(f: int, n: int, total: int, limit: int)
    requires n > 0 && f * n <= total && total / n <= limit
    ensures f <= limit
  {
    var q := total / n;
    assert total < q * n + n == (q + 1) * n;
    if q + 1 <= f {
      ProductGrows(q + 1, f, n);
    }
  }

  /** Counting an access keeps the smallest frequency under the limit, and off the sentinel. */
  lemma CountKeepsLeast<K(!new), V>(s: State<K, V>, order: seq<K>, f: int)
    requires WellLinked(s) && Enumerates(order, s.entries.Keys) && WorkingRange(s.maxAverage)
    requires IsLeastFreq(s.entries, f) && f <= s.maxAverage + 1 && Sum(s.entries) <= s.total + 1
    ensures var t := CountAccess(s, order);
            && Sum(t.entries) <= t.total
            && IsLeastFreq(t.entries, if Overheated(s) then t.minFreq else f)
            && (if Overheated(s) then t.minFreq else f) <= s.maxAverage
            && (Overheated(s) ==> t.minFreq == Aged(f, s.maxAverage))
  {
    hide WellQueued, CountAccess, Enumerates, Sum, AgedEntries, Refreshed;
    var t := CountAccess(s, order);
    CountedEntries(s, order);
    if Overheated(s) {
      FreqsArePositive(s);
      AgingLowersSum(s.entries, s.maxAverage);
      AgedLeast(s.entries, f, s.maxAverage);
      RefreshedIsLeast(t, Aged(f, s.maxAverage));
    } else {
      SumAtLeast(s.entries, f);
      BelowAverage(f, |s.entries|, s.total + 1, s.maxAverage);
    }
  }

  lemma FreqsArePositive<K(!new), V>(s: State<K, V>)
    requires WellLinked(s)
    ensures forall k :: k in s.entries ==> s.entries[k].freq >= 1
  {
  }

  /** Some frequency is at most `limit`. */
  ghost predicate SomeFreqWithin<K(!new), V>(m: map<K, Entry<V>>, limit: int) {
    exists k :: k in m && m[k].freq <= limit
  }

  lemma {:induction false} LeastExists<K(!new), V>(m: map<K, Entry<V>>) returns (f: int)
    requires m != map[]
    ensures IsLeastFreq(m, f)
    decreases |m|
  {
    var k :| k in m;
    f := m[k].freq;
    assert forall j :: j in m ==> j == k || j in m - {k};
    if m - {k} != map[] {
      var g := LeastExists(m - {k});
      if g < f {
        f := g;
        var j :| j in m - {k} && (m - {k})[j].freq == g;
      }
    }
  }

  /** For every limit from 2 on, counting an access brings a frequency that is one too high down
      to the limit. */
  lemma CountBringsWithin<K(!new), V>(s: State<K, V>, order: seq<K>)
    requires WellLinked(s) && Enumerates(order, s.entries.Keys) && s.maxAverage >= 2
    requires SomeFreqWithin(s.entries, s.maxAverage + 1) && Sum(s.entries) <= s.total + 1
    ensures SomeFreqWithin(CountAccess(s, order).entries, s.maxAverage)
  {
    hide WellQueued, CountAccess, Enumerates, Sum;
    var k :| k in s.entries && s.entries[k].freq <= s.maxAverage + 1;
    CountedEntries(s, order);
    var t := CountAccess(s, order);
    if Overheated(s) {
      assert t.entries[k].freq == Aged(s.entries[k].freq, s.maxAverage) <= s.maxAverage;
    } else {
      var f := LeastExists(s.entries);
      SumAtLeast(s.entries, f);
      BelowAverage(f, |s.entries|, s.total + 1, s.maxAverage);
    }
  }

  lemma CountKeepsInv<K(!new), V>(s: State<K, V>, order: seq<K>)
    requires WellLinked(s) && Enumerates(order, s.entries.Keys) && WorkingRange(s.maxAverage)
    requires |s.entries| <= s.capacity && 1 <= s.minFreq <= s.maxAverage + 1
    requires IsLeastFreq(s.entries, s.minFreq) && Sum(s.entries) <= s.total + 1
    ensures Inv(CountAccess(s, order))
  {
    hide WellQueued, CountAccess, Enumerates, Sum, AgedEntries;
    CountKeepsLeast(s, order, s.minFreq);
    CountedEntries(s, order);
    assert |CountAccess(s, order).entries.Keys| == |s.entries.Keys|;
  }

  /** A frequency has no queued key exactly when no entry has it. */
  lemma EmptyQueueMeansUnused<K(!new), V>(s: State<K, V>, f: int)
    requires WellLinked(s)
    ensures QueueAt(s.queues, f) == [] <==> forall j :: j in s.entries ==> s.entries[j].freq != f
  {
    if QueueAt(s.queues, f) != [] {
      assert s.queues[f][0] in s.entries;
    } else {
      forall j | j in s.entries
        ensures s.entries[j].freq != f
      {
        assert Linked(s, j);
      }
    }
  }

  lemma LeastAfterBump<K(!new), V>(m: map<K, Entry<V>>, k: K, least: int)
    requires k in m && IsLeastFreq(m, least)
    ensures var t := m[k := m[k].(freq := m[k].freq + 1)];
            IsLeastFreq(t, if m[k].freq == least && (forall j :: j in t ==> t[j].freq != least) then least + 1 else least)
  {
    var t := m[k := m[k].(freq := m[k].freq + 1)];
    if m[k].freq == least {
      assert t[k].freq == least + 1;
    } else {
      var j :| j in m && m[j].freq == least;
      assert t[j].freq == least;
    }
  }

  /** Moving a key up by one leaves the shortcut right, because it follows when the queue it
      names runs empty. */
  lemma AccessedLeast<K(!new), V>(s: State<K, V>, k: K)
    requires WellLinked(s) && k in s.entries && IsLeastFreq(s.entries, s.minFreq)
    ensures var t := Accessed(s, k);
            IsLeastFreq(t.entries, t.minFreq) && s.minFreq <= t.minFreq <= s.minFreq + 1
  {
    hide WellQueued, Accessed, IsLeastFreq;
    LeastAfterBump(s.entries, k, s.minFreq);
    EmptyQueueMeansUnused(Accessed(s, k), s.minFreq);
  }

  lemma TouchKeepsInv<K(!new), V>(s: State<K, V>, k: K, order: seq<K>)
    requires Inv(s) && WorkingRange(s.maxAverage) && k in s.entries && Enumerates(order, s.entries.Keys)
    ensures Inv(Touch(s, k, order))
  {
    hide WellQueued, Accessed, Enumerates, IsLeastFreq, CountAccess, Sum;
    AccessedLeast(s, k);
    SumUpdated(s.entries, k, s.entries[k].(freq := s.entries[k].freq + 1));
    assert |Accessed(s, k).entries.Keys| == |s.entries.Keys|;
    CountKeepsInv(Accessed(s, k), order);
  }

  /** A cache that has room; its shortcut may be stale. */
  ghost predicate InvWithRoom<K(!new), V>(s: State<K, V>) {
    WellLinked(s) && |s.entries| < s.capacity && Sum(s.entries) <= s.total && s.minFreq >= 1
  }

  lemma FullCacheCanEvict<K(!new), V>(s: State<K, V>)
    requires Inv(s) && s.entries != map[]
    ensures CanEvict(s)
  {
    var k :| k in s.entries && s.entries[k].freq == s.minFreq;
    assert Linked(s, k);
  }

  lemma EvictionMakesRoom<K(!new), V>(s: State<K, V>)
    requires Inv(s) && s.capacity != 0
    ensures |s.entries| == s.capacity ==> CanEvict(s)
    ensures InvWithRoom(MadeRoom(s))
  {
    if |s.entries| == s.capacity {
      FullCacheCanEvict(s);
      var t := KickOut(s);
      SumMinus(s.entries, Victim(s));
      assert |t.entries.Keys| == |s.entries.Keys| - 1;
    }
  }

  lemma CountWithNewNode<K(!new), V>(s: State<K, V>, order: seq<K>)
    requires WellLinked(s) && Enumerates(order, s.entries.Keys) && WorkingRange(s.maxAverage)
    requires IsLeastFreq(s.entries, 1) && Sum(s.entries) <= s.total + 1
    ensures var t := CountAccess(s, order);
            IsLeastFreq(t.entries, 1) && Sum(t.entries) <= t.total && (t.minFreq == 1 || t.minFreq == s.minFreq)
  {
    hide WellQueued, Enumerates, CountAccess, IsLeastFreq, Sum;
    CountKeepsLeast(s, order, 1);
    CountedEntries(s, order);
  }

  lemma AddedIsLeast<K(!new), V>(s: State<K, V>, k: K, v: V)
    requires WellLinked(s) && k !in s.entries
    ensures IsLeastFreq(Added(s, k, v).entries, 1)
    ensures Sum(Added(s, k, v).entries) == Sum(s.entries) + 1
    ensures |Added(s, k, v).entries| == |s.entries| + 1
  {
    hide Added, Sum;
    var added := Added(s, k, v);
    FreqsArePositive(s);
    assert added.entries[k].freq == 1;
    SumUpdated(s.entries, k, Entry(1, v));
    assert |added.entries.Keys| == |s.entries.Keys| + 1;
  }

  lemma InsertKeepsInv<K(!new), V>(s: State<K, V>, k: K, v: V, order: seq<K>)
    requires InvWithRoom(s) && WorkingRange(s.maxAverage)
    requires k !in s.entries && Enumerates(order, s.entries.Keys + {k})
    ensures Inv(Insert(s, k, v, order))
  {
    hide WellQueued, Enumerates, CountAccess, Added, IsLeastFreq, Sum;
    AddedIsLeast(s, k, v);
    CountWithNewNode(Added(s, k, v), order);
    assert |Insert(s, k, v, order).entries.Keys| == |Added(s, k, v).entries.Keys|;
  }

  lemma SetValueKeepsInv<K(!new), V>(s: State<K, V>, k: K, v: V)
    requires Inv(s) && k in s.entries
    ensures Inv(SetValue(s, k, v))
  {
    hide WellQueued, Sum, SetValue;
    var t := SetValue(s, k, v);
    SumUpdated(s.entries, k, s.entries[k].(value := v));
    var j :| j in s.entries && s.entries[j].freq == s.minFreq;
    assert t.entries[j].freq == s.minFreq;
    assert t.entries.Keys == s.entries.Keys && |t.entries.Keys| == |s.entries.Keys|;
  }

  lemma PurgeKeepsInv<K(!new), V>(s: State<K, V>)
    requires Inv(s)
    ensures Inv(s.(entries := map[], queues := map[]))
  {
    SumAtLeast(s.entries, 0);
  }

  /** Within the working range every operation is possible, and keeps the invariant. */
  lemma StepKeepsInv<K(!new), V>(s: State<K, V>, op: Op<K, V>)
    requires Inv(s) && WorkingRange(s.maxAverage)
    ensures Evictable(s, op)
    ensures Admissible(s, op) ==> Inv(Step(s, op))
  {
    hide WellQueued, Touch, Insert, SetValue, MadeRoom, Enumerates, Sum, MinFreqExact;
    if s.capacity != 0 {
      EvictionMakesRoom(s);
    }
    if Admissible(s, op) {
      match op
      case Put(k, v, order) =>
        if s.capacity != 0 {
          if k in s.entries {
            SetValueKeepsInv(s, k, v);
            TouchKeepsInv(SetValue(s, k, v), k, order);
          } else {
            InsertKeepsInv(MadeRoom(s), k, v, order);
          }
        }
      case Get(k, order) =>
        if k in s.entries {
          TouchKeepsInv(s, k, order);
        }
      case Purge => PurgeKeepsInv(s);
    }
  }
}
