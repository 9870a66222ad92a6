/** The front of the memory pools: a request goes to the pool of its size class. */
module HashBucket {
  import opened MemoryPool

  const POOLS: nat := 64
  const SLOT_BASE: nat := 8
  const MAX_SLOT: nat := 512
  const BLOCK: nat := 4096

  function PoolOf(size: nat): (index: int) {
    (size + 7) / SLOT_BASE - 1
  }

  function SlotSizeOf(index: nat): nat {
    (index + 1) * SLOT_BASE
  }

  /** The class of a request is the least one whose slots hold it. */
  lemma LeastClassThatFits(size: nat, index: nat)
    requires 1 <= size <= MAX_SLOT
    ensures 0 <= PoolOf(size) < POOLS
    ensures size <= SlotSizeOf(index) <==> PoolOf(size) <= index
  {
  }

  /** All memory in use, of whichever pool, lies in blocks that do not meet. */
  ghost predicate PoolsApart(states: seq<State>) {
    forall i, j, b, c :: 0 <= i < j < |states| && b in states[i].blocks && c in states[j].blocks ==> Apart(b, c, BLOCK)
  }

  /** New memory meets none of the blocks of any pool. */
  ghost predicate NewMemory(states: seq<State>, b: int) {
    && 0 < b && b % WORD == 0 && b + BLOCK < ADDRESSES
    && forall i, c :: 0 <= i < |states| && c in states[i].blocks ==> Apart(b, c, BLOCK)
  }

  ghost predicate AllInv(states: seq<State>) {
    && |states| == POOLS
    && forall i :: 0 <= i < POOLS ==> Inv(states[i]) && states[i].slot == SlotSizeOf(i) && states[i].size == BLOCK
  }

  /** Slots in use never overlap, even when they belong to different pools. */
  lemma SlotsOfDifferentPools(states: seq<State>, i: nat, j: nat, p: int, q: int)
    requires AllInv(states) && PoolsApart(states)
    requires i < j < POOLS && p in states[i].live && q in states[j].live
    ensures p + SlotSizeOf(i) <= q || q + SlotSizeOf(j) <= p
  {
    hide Inv;
    LiveSlotIsAlone(states[i], p);
    LiveSlotIsAlone(states[j], q);
    var b :| InsideBlock(states[i], p, b);
    var c :| InsideBlock(states[j], q, c);
    assert Apart(b, c, BLOCK);
  }

  lemma DoKeepsPoolsApart(states: seq<State>, i: nat, a: Section)
    requires AllInv(states) && PoolsApart(states) && i < POOLS && Enabled(states[i], a)
    requires OpensBlock(states[i], a) ==> NewMemory(states, a.block)
    ensures AllInv(states[i := Do(states[i], a)]) && PoolsApart(states[i := Do(states[i], a)])
  {
    hide Inv, Do;
    var t := Do(states[i], a);
    DoKeepsInv(states[i], a);
    BlocksAfter(states[i], a);
    var now := states[i := t];
    assert AllInv(now);
    forall k, j, b, c | 0 <= k < j < |now| && b in now[k].blocks && c in now[j].blocks
      ensures Apart(b, c, BLOCK)
    {
      if k == i && b !in states[i].blocks {
        assert b == a.block && c in states[j].blocks;
        assert Apart(b, c, BLOCK);
      } else if j == i && c !in states[i].blocks {
        assert c == a.block && b in states[k].blocks;
        assert Apart(c, b, BLOCK);
      } else {
        assert b in states[k].blocks && c in states[j].blocks;
      }
    }
  }

  // ----- Every interleaving over all pools

  datatype PoolSection = PoolSection(pool: nat, section: Section)

  ghost predicate CanDo(states: seq<State>, a: PoolSection) {
    && a.pool < POOLS == |states| && Enabled(states[a.pool], a.section)
    && (OpensBlock(states[a.pool], a.section) ==> NewMemory(states, a.section.block))
  }

  ghost function DoIn(states: seq<State>, a: PoolSection): seq<State>
    requires CanDo(states, a)
  {
    states[a.pool := Do(states[a.pool], a.section)]
  }

  ghost function Initialised(): (states: seq<State>) {
    seq(POOLS, i requires 0 <= i < POOLS => Empty(SlotSizeOf(i), BLOCK))
  }

  ghost predicate IsPoolsRun(runs: seq<seq<State>>, sections: seq<PoolSection>) {
    && |runs| == |sections| + 1 && runs[0] == Initialised()
    && forall i {:trigger sections[i]} :: 0 <= i < |sections| ==>
         CanDo(runs[i], sections[i]) && runs[i + 1] == DoIn(runs[i], sections[i])
  }

  lemma InitialisedInv()
    ensures AllInv(Initialised()) && PoolsApart(Initialised())
  {
    hide Inv;
    forall i | 0 <= i < POOLS
      ensures Inv(Initialised()[i])
    {
      EmptyInv(SlotSizeOf(i), BLOCK);
    }
  }

  lemma {:induction false} PoolsKeepInv(runs: seq<seq<State>>, sections: seq<PoolSection>, i: nat)
    requires IsPoolsRun(runs, sections) && i <= |sections|
    ensures AllInv(runs[i]) && PoolsApart(runs[i])
  {
    hide AllInv, PoolsApart, Do, Enabled, OpensBlock, NewMemory;
    if i == 0 {
      InitialisedInv();
    } else {
      PoolsKeepInv(runs, sections, i - 1);
      var a := sections[i - 1];
      assert CanDo(runs[i - 1], a) && runs[i] == DoIn(runs[i - 1], a);
      DoKeepsPoolsApart(runs[i - 1], a.pool, a.section);
    }
  }

  /** However the lock sections of all pools interleave, two slots in use share no byte, whichever
      pools they come from. */
  lemma NoSlotsEverOverlap(runs: seq<seq<State>>, sections: seq<PoolSection>, t: nat, i: nat, j: nat, p: int, q: int)
    requires IsPoolsRun(runs, sections) && t <= |sections| && i < POOLS && j < POOLS
    ensures |runs[t]| == POOLS
    ensures p in runs[t][i].live && q in runs[t][j].live && (i != j || p != q) ==>
              p + SlotSizeOf(i) <= q || q + SlotSizeOf(j) <= p
  {
    hide Inv;
    PoolsKeepInv(runs, sections, t);
    var s := runs[t];
    if p in s[i].live && q in s[j].live {
      if i < j {
        SlotsOfDifferentPools(s, i, j, p, q);
      } else if j < i {
        SlotsOfDifferentPools(s, j, i, q, p);
      } else {
        LiveSlotIsAlone(s[i], p);
      }
    }
  }

  lemma BlocksAfter(s: State, a: Section)
    requires Enabled(s, a)
    ensures Do(s, a).slot == s.slot && Do(s, a).size == s.size
    ensures forall b :: b in Do(s, a).blocks ==> b in s.blocks || (OpensBlock(s, a) && b == a.block)
  {
  }

  /** The models of the pools, in order. */
  ghost function Models(pools: seq<Pool>): (states: seq<State>)
    reads pools
    ensures |states| == |pools|
    ensures forall i :: 0 <= i < |pools| ==> states[i] == pools[i].model
  {
    if pools == [] then [] else [pools[0].model] + Models(pools[1..])
  }

  /** The loop of `initMemoryPool`. */
  method MakePools() returns (made: seq<Pool>)
    ensures |made| == POOLS && fresh(made) && forall i, j :: 0 <= i < j < POOLS ==> made[i] != made[j]
    ensures forall i :: 0 <= i < POOLS ==> made[i].Valid() && made[i].model == Empty(SlotSizeOf(i), BLOCK)
  {
    hide Inv, Pool.Valid;
    made := [];
    for i := 0 to POOLS
      invariant |made| == i && fresh(made)
      invariant forall j, k :: 0 <= j < k < i ==> made[j] != made[k]
      invariant forall j :: 0 <= j < i ==> made[j].Valid() && made[j].model == Empty(SlotSizeOf(j), BLOCK)
    {
      var pool := new Pool(BLOCK);
      pool.Init(SlotSizeOf(i));
      made := made + [pool];
    }
  }

  lemma NewPools(pools: seq<Pool>)
    requires |pools| == POOLS && forall i :: 0 <= i < POOLS ==> pools[i].model == Empty(SlotSizeOf(i), BLOCK)
    ensures AllInv(Models(pools)) && PoolsApart(Models(pools))
  {
    hide AllInv, PoolsApart, Empty, SlotSizeOf;
    assert Models(pools) == Initialised();
    InitialisedInv();
  }

  class Buckets {
    const pools: seq<Pool>

    ghost predicate Valid()
      reads this, pools
    {
      && |pools| == POOLS
      && (forall i, j :: 0 <= i < j < POOLS ==> pools[i] != pools[j])
      && (forall i :: 0 <= i < POOLS ==> pools[i].Valid())
      && AllInv(Models(pools)) && PoolsApart(Models(pools))
    }

    /** `initMemoryPool`. */
    constructor ()
      ensures Valid() && fresh(pools)
      ensures forall i :: 0 <= i < POOLS ==> pools[i].model == Empty(SlotSizeOf(i), BLOCK)
    {
      hide Inv, Pool.Valid, AllInv, PoolsApart, Models, Empty, SlotSizeOf;
      var made := MakePools();
      pools := made;
      new;
      NewPools(pools);
    }

    /** `newBlock` is the block the system gives if the pool asks for one, `big` what `operator new`
        returns for a request above MAX_SLOT. */
    method UseMemory(size: nat, newBlock: int, big: int) returns (p: int)
      requires Valid() && NewMemory(Models(pools), newBlock)
      modifies pools
      ensures Valid()
      ensures size == 0 ==> p == 0 && Models(pools) == old(Models(pools))
      ensures size > MAX_SLOT ==> p == big && Models(pools) == old(Models(pools))
      ensures 1 <= size <= MAX_SLOT ==>
        var i := PoolOf(size);
        && 0 <= i < POOLS && size <= SlotSizeOf(i)
        && p !in old(pools[i].model.live) && pools[i].model.live == old(pools[i].model.live) + {p}
        && (if old(pools[i].model).free != [] then p == old(pools[i].model).free[0] else p !in old(pools[i].model).carved)
        && Enabled(old(pools[i].model), SequentialSection(old(pools[i].model), newBlock))
        && pools[i].model == Do(old(pools[i].model), SequentialSection(old(pools[i].model), newBlock))
        && forall j :: 0 <= j < POOLS && j != i ==> pools[j].model == old(pools[j].model)
    {
      hide Inv, PoolsApart, AllInv, NewMemory, Enabled, Do, Pool.Valid;
      if size == 0 {
        return 0;
      }
      if size > MAX_SLOT {
        return big;
      }
      var i := PoolOf(size);
      LeastClassThatFits(size, i);
      ghost var was := Models(pools);
      ghost var a := SequentialSection(was[i], newBlock);
      NewForPool(was, i, newBlock);
      p := pools[i].Allocate(newBlock);
      DoKeepsPoolsApart(was, i, a);
      assert Models(pools) == was[i := Do(was[i], a)];
    }

    /** The owner gives back what it got for a request of `size` bytes. */
    method FreeMemory(p: int, size: nat)
      requires Valid()
      requires p != 0 && size <= MAX_SLOT ==> 1 <= size && p in pools[PoolOf(size)].model.live
      modifies pools
      ensures Valid()
      ensures p == 0 || size > MAX_SLOT ==> Models(pools) == old(Models(pools))
      ensures p != 0 && size <= MAX_SLOT ==>
        var i := PoolOf(size);
        && pools[i].model == GiveBack(old(pools[i].model), p)
        && forall j :: 0 <= j < POOLS && j != i ==> pools[j].model == old(pools[j].model)
    {
      hide Inv, PoolsApart, AllInv, Do, Enabled, OpensBlock, GiveBack, Exact, Pool.Valid;
      if p == 0 || size > MAX_SLOT {
        return;
      }
      var i := PoolOf(size);
      ghost var was := Models(pools);
      LeastClassThatFits(size, i);
      ReturnIsSection(was[i], p);
      pools[i].Deallocate(p);
      DoKeepsPoolsApart(was, i, Return(p));
      assert Models(pools) == was[i := GiveBack(was[i], p)];
    }
  }

  lemma ReturnIsSection(s: State, p: int)
    requires p in s.live
    ensures Enabled(s, Return(p)) && Do(s, Return(p)) == GiveBack(s, p) && !OpensBlock(s, Return(p))
  {
  }

  lemma NewForPool(states: seq<State>, i: nat, b: int)
    requires AllInv(states) && NewMemory(states, b) && i < POOLS
    ensures FreshBlock(states[i], b)
  {
  }
}
