/** What one operation does to the frequencies, the counters and the shortcut, in plain
    arithmetic, for every limit. */
module LfuSteps {
  import opened Options
  import opened LfuModel
  import opened LfuTheorems
  import opened LfuRuns

  /** The frequency of `j` when the access of the operation is made, before it is counted: the key
      of the operation is one access up, or new. */
  ghost function FreqAtAccess<K(!new), V>(s: State<K, V>, op: Op<K, V>, j: K): int
    requires !op.Purge? && (j == op.k || j in s.entries)
  {
    if j != op.k then s.entries[j].freq
    else if j in s.entries then s.entries[j].freq + 1
    else 1
  }

  lemma BeforeCountFreqs<K(!new), V>(s: State<K, V>, op: Op<K, V>, j: K)
    requires Admissible(s, op) && Counts(s, op) && j in BeforeCount(s, op).entries
    ensures j == op.k || j in s.entries
    ensures BeforeCount(s, op).entries[j].freq == FreqAtAccess(s, op, j)
  {
    hide WellQueued, Enumerates, Accessed, SetValue, Added;
  }

  /** The total goes up by the access and down by what an eviction takes, the average is the total
      shared among the keys, and other operations leave both. */
  lemma StepCounters<K(!new), V>(s: State<K, V>, op: Op<K, V>)
    requires Admissible(s, op)
    ensures var t := Step(s, op);
      if Counts(s, op) then
        && t.entries != map[] && t.average == t.total / |t.entries|
        && t.total == s.total + 1 - if !Evicts(s, op) then 0 else if CanEvict(s) then s.entries[Victim(s)].freq else 1
      else t.total == s.total && t.average == s.average && t.minFreq == s.minFreq
  {
    hide WellQueued, CountAccess, Enumerates, BeforeCount, Step;
    if Counts(s, op) {
      StepIsCount(s, op);
      BeforeCountTotal(s, op);
      CountedTotals(BeforeCount(s, op), op.order);
    } else {
      IdleStep(s, op);
    }
  }

  lemma BeforeCountTotal<K(!new), V>(s: State<K, V>, op: Op<K, V>)
    requires Admissible(s, op) && Counts(s, op)
    ensures BeforeCount(s, op).entries != map[]
    ensures BeforeCount(s, op).total ==
            s.total - if !Evicts(s, op) then 0 else if CanEvict(s) then s.entries[Victim(s)].freq else 1
  {
    hide WellQueued, Enumerates, Accessed, SetValue, Added;
    assert op.k in BeforeCount(s, op).entries;
  }

  lemma CountedTotals<K(!new), V>(s: State<K, V>, order: seq<K>)
    requires WellLinked(s) && Enumerates(order, s.entries.Keys) && s.entries != map[]
    ensures var t := CountAccess(s, order);
      && t.total == s.total + 1 && |t.entries| == |s.entries| && t.average == t.total / |t.entries|
      && (Overheated(s) <==> t.total / |t.entries| > s.maxAverage)
      && (if Overheated(s) then
            forall k :: k in t.entries ==>
              && t.entries[k].freq >= 1
              && (t.entries[k].freq == s.entries[k].freq - s.maxAverage / 2 ||
                  (t.entries[k].freq == 1 && s.entries[k].freq <= 1 + s.maxAverage / 2))
          else t.entries == s.entries)
  {
    hide WellQueued, Age;
    assert |CountAccess(s, order).entries.Keys| == |s.entries.Keys|;
    if Overheated(s) {
      AgeLowersEachOnce(Counted(s), order);
    }
  }

  /** Exactly when the average then passes the limit, every key is aged: it loses half the limit, or
      falls to 1 if that is not less.  Otherwise only the key accessed has moved. */
  lemma StepFrequencies<K(!new), V>(s: State<K, V>, op: Op<K, V>, j: K)
    requires Admissible(s, op) && Counts(s, op) && j in Step(s, op).entries
    ensures j == op.k || j in s.entries
    ensures var t, before := Step(s, op), FreqAtAccess(s, op, j);
      var now := t.entries[j].freq;
      && |t.entries| > 0
      && if t.total / |t.entries| <= s.maxAverage then now == before
         else now >= 1 && (now == before - s.maxAverage / 2 || (now == 1 && before <= 1 + s.maxAverage / 2))
  {
    hide WellQueued, CountAccess, Enumerates, BeforeCount, Step, FreqAtAccess;
    StepIsCount(s, op);
    BeforeCountTotal(s, op);
    BeforeCountSize(s, op);
    CountedTotals(BeforeCount(s, op), op.order);
    BeforeCountFreqs(s, op, j);
  }

  /** After a new key the shortcut is 1; after an aging pass it is the smallest frequency if that
      is below the sentinel, and else 1; otherwise it follows a key that leaves its list empty. */
  lemma StepShortcut<K(!new), V>(s: State<K, V>, op: Op<K, V>)
    requires Admissible(s, op) && Counts(s, op) && s.minFreq >= 1
    ensures var t := Step(s, op);
      if op.k !in s.entries then t.minFreq == 1
      else if t.total / |t.entries| > s.maxAverage then
        if exists j :: j in t.entries && t.entries[j].freq < 127 then IsLeastFreq(t.entries, t.minFreq) else t.minFreq == 1
      else if s.entries[op.k].freq == s.minFreq && forall j :: j in s.entries && j != op.k ==> s.entries[j].freq != s.minFreq
      then t.minFreq == s.minFreq + 1
      else t.minFreq == s.minFreq
  {
    hide WellQueued, CountAccess, Enumerates, BeforeCount, Step, IsLeastFreq, Refreshed;
    StepIsCount(s, op);
    StepMinFreq(s, op);
    BeforeCountTotal(s, op);
    BeforeCountSize(s, op);
    var c := CountAccess(BeforeCount(s, op), op.order);
    CountedTotals(BeforeCount(s, op), op.order);
    CountedEntries(BeforeCount(s, op), op.order);
    BeforeCountShortcut(s, op);
    if Overheated(BeforeCount(s, op)) {
      ScanOf(c);
    }
  }

  lemma BeforeCountShortcut<K(!new), V>(s: State<K, V>, op: Op<K, V>)
    requires Admissible(s, op) && Counts(s, op)
    ensures BeforeCount(s, op).minFreq == s.minFreq +
      if op.k in s.entries && s.entries[op.k].freq == s.minFreq
         && (forall j :: j in s.entries && j != op.k ==> s.entries[j].freq != s.minFreq) then 1 else 0
  {
    hide WellQueued, Enumerates, Accessed, Added;
    if op.k in s.entries {
      var kept := if op.Put? then SetValue(s, op.k, op.v) else s;
      var t := Accessed(kept, op.k);
      EmptyQueueMeansUnused(t, s.minFreq);
    }
  }

  lemma ScanOf<K(!new), V>(t: State<K, V>)
    requires WellLinked(t) && t.entries != map[]
    ensures if exists j :: j in t.entries && t.entries[j].freq < 127 then IsLeastFreq(t.entries, Refreshed(t.queues))
            else Refreshed(t.queues) == 1
    ensures Refreshed(t.queues) >= 1
  {
    hide WellQueued, Refreshed;
    var f := LeastExists(t.entries);
    RefreshedIsLeast(t, f);
    FreqsArePositive(t);
  }
}
