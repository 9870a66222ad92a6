/** The sharded cache: a hash picks the slice that a key lives in. */
module HashLfu {
  import opened Options
  import opened LfuModel
  import opened LfuTheorems
  import opened LfuRuns
  import opened Lfu

  /** `ceil(capacity / slices)`, exactly. */
  function SliceSize(capacity: nat, slices: nat): nat
    requires slices > 0
  {
    (capacity + slices - 1) / slices
  }

  /** What a slice keeps: its structure for every limit, everything in the working range. */
  ghost predicate Sound<K(!new), V>(s: State<K, V>) {
    Named(s) && (WorkingRange(s.maxAverage) ==> Inv(s))
  }

  lemma SoundIsNamed<K(!new), V>(s: State<K, V>)
    requires Sound(s)
    ensures Named(s)
  {
  }

  lemma StepKeepsSound<K(!new), V>(s: State<K, V>, op: Op<K, V>)
    requires Sound(s)
    ensures WorkingRange(s.maxAverage) ==> Evictable(s, op)
    ensures Admissible(s, op) ==> Sound(Step(s, op))
  {
    hide Inv, Named, Step, Admissible, Evictable;
    if WorkingRange(s.maxAverage) {
      StepKeepsInv(s, op);
    }
    if Admissible(s, op) {
      StepKeepsNamed(s, op);
      StepKeepsLimits(s, op);
    }
  }

  ghost predicate SlicesInv<K(!new), V>(slices: seq<State<K, V>>, capacity: nat, maxAverage: nat, hash: K -> nat) {
    && |slices| > 0
    && forall i :: 0 <= i < |slices| ==> SliceInv(slices[i], i, |slices|, capacity, maxAverage, hash)
  }

  /** Slice `i` is a cache of its share of the capacity, and holds only keys that hash to it. */
  ghost predicate SliceInv<K(!new), V>(s: State<K, V>, i: nat, n: nat, capacity: nat, maxAverage: nat, hash: K -> nat)
    requires n > 0
  {
    && Sound(s) && s.capacity == SliceSize(capacity, n) && s.maxAverage == maxAverage
    && forall k :: k in s.entries ==> hash(k) % n == i
  }

  lemma SliceStepKeepsInv<K(!new), V>(
    s: State<K, V>, op: Op<K, V>, i: nat, n: nat, capacity: nat, maxAverage: nat, hash: K -> nat)
    requires n > 0 && SliceInv(s, i, n, capacity, maxAverage, hash)
    requires !op.Purge? ==> hash(op.k) % n == i
    ensures WorkingRange(maxAverage) ==> Evictable(s, op)
    ensures Admissible(s, op) ==> SliceInv(Step(s, op), i, n, capacity, maxAverage, hash)
  {
    hide Sound, Step, Admissible, Evictable;
    StepKeepsSound(s, op);
    if Admissible(s, op) {
      StepKeepsLimits(s, op);
      forall k | k in Step(s, op).entries
        ensures hash(k) % n == i
      {
        StepAsMap(s, op, k);
      }
    }
  }

  ghost function Total<K, V>(slices: seq<State<K, V>>): nat {
    if slices == [] then 0 else |slices[0].entries| + Total(slices[1..])
  }

  lemma {:induction false} TotalBound<K, V>(slices: seq<State<K, V>>, size: nat)
    requires forall i :: 0 <= i < |slices| ==> |slices[i].entries| <= size
    ensures Total(slices) <= |slices| * size
  {
    if slices != [] {
      TotalBound(slices[1..], size);
      var n := |slices| - 1;
      assert (n + 1) * size == n * size + size;
    }
  }

  lemma SliceSizeRoundsUp(capacity: nat, n: nat)
    requires n > 0
    ensures capacity <= n * SliceSize(capacity, n) < capacity + n
  {
    var size := SliceSize(capacity, n);
    assert n * size <= capacity + n - 1 < n * size + n;
  }

  /** In the working range the slices together never hold as much as the capacity plus one entry
      per slice. */
  lemma ShardedSizeBound<K(!new), V>(slices: seq<State<K, V>>, capacity: nat, maxAverage: nat, hash: K -> nat)
    requires SlicesInv(slices, capacity, maxAverage, hash)
    ensures WorkingRange(maxAverage) ==> Total(slices) <= |slices| * SliceSize(capacity, |slices|) < capacity + |slices|
  {
    SliceSizeRoundsUp(capacity, |slices|);
    if WorkingRange(maxAverage) {
      forall i | 0 <= i < |slices|
        ensures |slices[i].entries| <= SliceSize(capacity, |slices|)
      {
        assert SliceInv(slices[i], i, |slices|, capacity, maxAverage, hash);
      }
      TotalBound(slices, SliceSize(capacity, |slices|));
    }
  }

  class HashLfuCache<K(==, !new, 0), V(0)> {
    const capacity: nat
    const maxAverage: nat
    const hash: K -> nat
    var slices: seq<LfuCache<K, V>>
    ghost var Repr: set<object>

    ghost predicate Owns()
      reads this, slices
    {
      && this in Repr
      && (forall i :: 0 <= i < |slices| ==> slices[i] in slices[i].Repr && slices[i].Repr <= Repr && this !in slices[i].Repr)
      && (forall i, j :: 0 <= i < j < |slices| ==> slices[i].Repr !! slices[j].Repr)
    }

    ghost function Models(): (models: seq<State<K, V>>)
      reads this, slices
      ensures |models| == |slices| && forall i :: 0 <= i < |slices| ==> models[i] == slices[i].model
    {
      seq(|slices|, i requires 0 <= i < |slices| reads this, slices => slices[i].model)
    }

    ghost predicate Consistent()
      reads this, Repr
    {
      && this in Repr && (forall i :: 0 <= i < |slices| ==> slices[i] in Repr) && Owns()
      && forall i :: 0 <= i < |slices| ==> slices[i].Valid()
    }

    ghost predicate Valid()
      reads this, Repr
    {
      Consistent() && SlicesInv(Models(), capacity, maxAverage, hash)
    }

    /** Without a positive number of slices there is one for every thread of the machine. */
    constructor (capacity: nat, sliceNum: int, maxAverage: nat, hash: K -> nat, hardwareConcurrency: nat)
      requires sliceNum <= 0 ==> hardwareConcurrency > 0
      ensures Valid() && fresh(Repr)
      ensures var n := if sliceNum > 0 then sliceNum else hardwareConcurrency;
              |slices| == n && Models() == seq(n, i => Init(SliceSize(capacity, n), maxAverage))
    {
      this.capacity, this.maxAverage, this.hash := capacity, maxAverage, hash;
      slices := [];
      Repr := {this};
      var n: nat := if sliceNum > 0 then sliceNum else hardwareConcurrency;
      new;
      AddSlices(n, SliceSize(capacity, n));
      hide LfuCache.Valid, HashLfuCache.Owns, Sound, SliceSize;
      EmptySlicesInv(Models(), capacity, maxAverage, hash);
    }

    method AddSlices(n: nat, size: nat)
      requires Consistent() && slices == []
      modifies `slices, `Repr
      ensures Consistent() && fresh(Repr - old(Repr)) && |slices| == n
      ensures forall i :: 0 <= i < n ==> slices[i].model == Init(size, maxAverage)
    {
      hide HashLfuCache.Consistent;
      while |slices| < n
        invariant |slices| <= n && Consistent() && fresh(Repr - old(Repr))
        invariant forall i :: 0 <= i < |slices| ==> slices[i].model == Init(size, maxAverage)
      {
        AddSlice(size);
      }
    }

    method AddSlice(size: nat)
      requires Consistent() && forall i :: 0 <= i < |slices| ==> slices[i].model == Init(size, maxAverage)
      modifies `slices, `Repr
      ensures Consistent() && |slices| == old(|slices|) + 1 && fresh(Repr - old(Repr))
      ensures forall i :: 0 <= i < |slices| ==> slices[i].model == Init(size, maxAverage)
    {
      hide LfuCache.Valid;
      var slice := new LfuCache<K, V>(size, maxAverage);
      slices := slices + [slice];
      Repr := Repr + {slice} + slice.Repr;
    }

    /** The operation on one slice leaves the others alone. */
    method Put(key: K, value: V) returns (ghost order: seq<K>)
      requires Valid()
      requires var slice := slices[hash(key) % |slices|];
               Evicts(slice.model, Op.Put(key, value, [])) ==> slice.SentinelApart()
      modifies `Repr, Repr - {this}
      ensures Valid() && fresh(Repr - old(Repr))
      ensures var i, op := hash(key) % |slices|, Op.Put(key, value, order);
              Admissible(old(Models())[i], op) && Models() == old(Models())[i := Step(old(Models())[i], op)]
    {
      hide LfuCache.Valid, LfuCache.SentinelApart, Sound, Named, Evicts, Admissible, Step, Evictable;
      var i := hash(key) % |slices|;
      ghost var models := Models();
      assert SliceInv(models[i], i, |slices|, capacity, maxAverage, hash);
      SoundIsNamed(models[i]);
      order := slices[i].Put(key, value);
      Repr := Repr + slices[i].Repr;
      SliceStepKeepsInv(models[i], Op.Put(key, value, order), i, |slices|, capacity, maxAverage, hash);
      assert Models() == models[i := Step(models[i], Op.Put(key, value, order))];
    }

    method Get(key: K) returns (hit: Option<V>, ghost order: seq<K>)
      requires Valid()
      modifies `Repr, Repr - {this}
      ensures Valid() && fresh(Repr - old(Repr))
      ensures hit == ShardedLookup(old(Models()), hash, key)
      ensures var i, op := hash(key) % |slices|, Op.Get(key, order);
              Admissible(old(Models())[i], op) && Models() == old(Models())[i := Step(old(Models())[i], op)]
    {
      hide LfuCache.Valid, Sound, Admissible, Step, Evictable;
      var i := hash(key) % |slices|;
      ghost var models := Models();
      assert SliceInv(models[i], i, |slices|, capacity, maxAverage, hash);
      hit, order := slices[i].Get(key);
      Repr := Repr + slices[i].Repr;
      SliceStepKeepsInv(models[i], Op.Get(key, order), i, |slices|, capacity, maxAverage, hash);
      assert Models() == models[i := Step(models[i], Op.Get(key, order))];
    }
  }

  ghost function ShardedLookup<K(!new), V>(slices: seq<State<K, V>>, hash: K -> nat, k: K): Option<V>
    requires |slices| > 0
  {
    Lookup(slices[hash(k) % |slices|], k)
  }

  lemma ShardedStepKeepsInv<K(!new), V>(
    slices: seq<State<K, V>>, capacity: nat, maxAverage: nat, hash: K -> nat, op: Op<K, V>)
    requires SlicesInv(slices, capacity, maxAverage, hash) && !op.Purge?
    ensures WorkingRange(maxAverage) ==> Evictable(slices[hash(op.k) % |slices|], op)
    ensures var i := hash(op.k) % |slices|;
            Admissible(slices[i], op) ==> SlicesInv(slices[i := Step(slices[i], op)], capacity, maxAverage, hash)
  {
    hide Sound, Admissible, Step, Evictable;
    var i := hash(op.k) % |slices|;
    assert SliceInv(slices[i], i, |slices|, capacity, maxAverage, hash);
    SliceStepKeepsInv(slices[i], op, i, |slices|, capacity, maxAverage, hash);
  }

  /** A key is found in its own slice or in none. */
  lemma FoundInOwnSlice<K(!new), V>(
    slices: seq<State<K, V>>, capacity: nat, maxAverage: nat, hash: K -> nat, n: nat, k: K)
    requires SlicesInv(slices, capacity, maxAverage, hash) && n < |slices| && k in slices[n].entries
    ensures n == hash(k) % |slices|
  {
    hide Sound;
    assert SliceInv(slices[n], n, |slices|, capacity, maxAverage, hash);
  }

  /** The shards are one map: an operation on a key changes no other key, except by evicting one
      from the same slice. */
  lemma ShardedMap<K(!new), V>(
    slices: seq<State<K, V>>, capacity: nat, maxAverage: nat, hash: K -> nat, op: Op<K, V>, j: K)
    requires SlicesInv(slices, capacity, maxAverage, hash) && capacity > 0 && !op.Purge?
    requires Admissible(slices[hash(op.k) % |slices|], op)
    ensures var i := hash(op.k) % |slices|;
            ShardedLookup(slices[i := Step(slices[i], op)], hash, j) ==
              if op.Put? && j == op.k then Some(op.v)
              else if Evicts(slices[i], op) && CanEvict(slices[i]) && j == Victim(slices[i]) then None
              else ShardedLookup(slices, hash, j)
  {
    hide Sound, Step, Admissible, CanEvict, Victim;
    var i := hash(op.k) % |slices|;
    assert SliceInv(slices[i], i, |slices|, capacity, maxAverage, hash);
    SliceSizeRoundsUp(capacity, |slices|);
    StepAsMap(slices[i], op, j);
    if hash(j) % |slices| != i && CanEvict(slices[i]) {
      OtherSlicesKey(slices[i], i, |slices|, capacity, maxAverage, hash, j);
    }
  }

  lemma OtherSlicesKey<K(!new), V>(
    s: State<K, V>, i: nat, n: nat, capacity: nat, maxAverage: nat, hash: K -> nat, j: K)
    requires n > 0 && SliceInv(s, i, n, capacity, maxAverage, hash) && CanEvict(s) && hash(j) % n != i
    ensures j != Victim(s)
  {
    VictimIsEntry(s);
  }

  lemma EmptySlicesInv<K(!new), V>(models: seq<State<K, V>>, capacity: nat, maxAverage: nat, hash: K -> nat)
    requires |models| > 0
    requires forall i :: 0 <= i < |models| ==> models[i] == Init(SliceSize(capacity, |models|), maxAverage)
    ensures SlicesInv(models, capacity, maxAverage, hash)
  {
  }
}
