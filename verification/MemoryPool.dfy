/** The memory pool over an integer address space: slots are carved out of blocks, freed slots
    are linked through their own first word. */
module MemoryPool {

  /** The size of a link word, `sizeof(Slot)`. */
  const WORD: nat := 8
  const ADDRESSES: nat := 0x1_0000_0000_0000_0000

  // ----- Pointer arithmetic

  /** `padPointer`: unsigned, so the difference wraps around. */
  function PadPointer(p: nat, align: nat): (pad: nat)
    requires 0 < align < ADDRESSES && p < ADDRESSES
    ensures pad < align
  {
    ((ADDRESSES + align - p) % ADDRESSES) % align
  }

  lemma NextMultiple(a: nat, k: nat)
    ensures a * (k + 1) >= a
  {
  }

  lemma SmallMultipleIsZero(a: int, k: int, n: int)
    requires a > 0 && n == a * k && -a < n < a
    ensures k == 0
  {
    if k > 0 {
      NextMultiple(a, k - 1);
    }
  }

  lemma ModUnique(n: int, a: int, q: int, r: int)
    requires a > 0 && n == a * q + r && 0 <= r < a
    ensures n % a == r && n / a == q
  {
    var q', r' := n / a, n % a;
    var k := q - q';
    assert a * k == a * q - a * q';
    SmallMultipleIsZero(a, k, r' - r);
  }

  lemma ModShifted(n: int, a: int, k: int)
    requires a > 0
    ensures (n + a * k) % a == n % a
  {
    assert a * (n / a + k) == a * (n / a) + a * k;
    ModUnique(n + a * k, a, n / a + k, n % a);
  }

  /** The padding completes the wrapped difference to a multiple of the alignment. */
  lemma PadResidue(p: nat, align: nat)
    requires 0 < align < p < ADDRESSES
    ensures (p + PadPointer(p, align)) % align == ADDRESSES % align
  {
    var x := ADDRESSES + align - p;
    assert x % ADDRESSES == x by { ModUnique(x, ADDRESSES, 0, x); }
    var q := x / align;
    assert p + x % align == ADDRESSES + align * (1 - q) by {
      assert x == align * q + x % align;
      assert align * (1 - q) == align - align * q;
    }
    ModShifted(ADDRESSES, align, 1 - q);
  }

  /** The padded pointer is a multiple of the slot size, as the source intends, exactly for the
      sizes that divide the size of the address space. */
  lemma PadAlignsIff(p: nat, align: nat)
    requires 0 < align < p < ADDRESSES
    ensures (p + PadPointer(p, align)) % align == 0 <==> ADDRESSES % align == 0
  {
    PadResidue(p, align);
  }

  /** Slots of 24 bytes are never placed at multiples of 24. */
  lemma PadMissesTwentyFour(p: nat)
    requires 24 < p < ADDRESSES
    ensures (p + PadPointer(p, 24)) % 24 == 16
  {
    PadResidue(p, 24);
  }

  lemma EightDividesRemainder(x: int, a: int)
    requires a > 0 && x % 8 == 0 && a % 8 == 0
    ensures (x % a) % 8 == 0
  {
    var q := x / a;
    assert x % a == x - a * q;
    assert a * q == 8 * ((a / 8) * q);
    assert x % a == 0 + 8 * (x / 8 - (a / 8) * q);
    ModShifted(0, 8, x / 8 - (a / 8) * q);
  }

  /** But every slot is aligned to the word. */
  lemma PadKeepsWordAlignment(p: nat, align: nat)
    requires 0 < align < ADDRESSES && p < ADDRESSES && p % 8 == 0 && align % 8 == 0
    ensures (p + PadPointer(p, align)) % 8 == 0 && PadPointer(p, align) + 8 <= align
  {
    EightDividesRemainder(ADDRESSES + align - p, ADDRESSES);
    EightDividesRemainder((ADDRESSES + align - p) % ADDRESSES, align);
    WholeWords(p, PadPointer(p, align), align);
  }

  lemma WholeWords(p: nat, pad: nat, align: nat)
    requires p % 8 == 0 && pad % 8 == 0 && align % 8 == 0 && pad < align
    ensures (p + pad) % 8 == 0 && pad + 8 <= align
  {
  }

  // ----- The pool, one lock section at a time

  /** `cur` and `last` are curSlot_ and lastSlot_; `blocks` and `free` are the two intrusive
      lists, first element first.  `live` (the slots handed out and not given back) and `carved`
      (every slot ever cut, with its block) are history variables. */
  datatype State = State(slot: nat, size: nat, blocks: seq<int>, cur: int, last: int, free: seq<int>,
                         live: set<int>, carved: map<int, int>)

  function Empty(slot: nat, size: nat): State {
    State(slot, size, [], 0, 0, [], {}, map[])
  }

  /** The locked section of `allocate` that takes the first free slot. */
  ghost function PopFree(s: State): State
    requires s.free != []
  {
    s.(free := s.free[1..], live := s.live + {s.free[0]})
  }

  /** `allocateNewBlock`, for the block the system returns; the free list is dropped. */
  ghost function NewBlock(s: State, b: int): State
    requires FreshBlock(s, b) && SizesFit(s)
  {
    s.(blocks := [b] + s.blocks, cur := b + WORD + PadPointer(b + WORD, s.slot),
       last := b + s.size - s.slot + 1, free := [])
  }

  /** Cutting the next slot off the current block. */
  ghost function CarveSlot(s: State): State
    requires s.blocks != []
  {
    s.(live := s.live + {s.cur}, carved := s.carved[s.cur := s.blocks[0]], cur := NeighbourOf(s.cur, s.slot))
  }

  /** The other locked section of `allocate`. */
  ghost function Carve(s: State, b: int): State
    requires SizesFit(s) && (s.cur >= s.last ==> FreshBlock(s, b)) && (s.cur < s.last ==> s.blocks != [])
  {
    CarveSlot(if s.cur >= s.last then NewBlock(s, b) else s)
  }

  /** `deallocate`. */
  ghost function GiveBack(s: State, p: int): State {
    s.(free := [p] + s.free, live := s.live - {p})
  }

  ghost predicate SizesFit(s: State) {
    s.slot > 0 && s.slot % WORD == 0 && 2 * s.slot <= s.size
  }

  ghost predicate Block(s: State, b: int) {
    0 < b && b % WORD == 0 && b + s.size < ADDRESSES
  }

  ghost predicate Apart(a: int, b: int, n: int) {
    a + n <= b || b + n <= a
  }

  /** What the system promises of new memory. */
  ghost predicate FreshBlock(s: State, b: int) {
    Block(s, b) && forall c :: c in s.blocks ==> Apart(b, c, s.size)
  }

  ghost predicate BlocksApart(s: State) {
    && (forall i {:trigger s.blocks[i]} :: 0 <= i < |s.blocks| ==> Block(s, s.blocks[i]))
    && (forall i, j :: 0 <= i < j < |s.blocks| ==> Apart(s.blocks[i], s.blocks[j], s.size))
  }

  /** A slot lies wholly inside its block, after the link word, at a word boundary. */
  ghost predicate InsideBlock(s: State, p: int, b: int) {
    b in s.blocks && b + WORD <= p && p + s.slot <= b + s.size && p % WORD == 0
  }

  ghost predicate SlotsInside(s: State) {
    forall p :: p in s.carved ==> InsideBlock(s, p, s.carved[p])
  }

  ghost predicate SlotsApart(s: State) {
    forall p, q :: p in s.carved && q in s.carved && p != q ==> Apart(p, q, s.slot)
  }

  ghost predicate CursorOk(s: State) {
    if s.blocks == [] then s.cur == s.last == 0
    else
      && s.last == s.blocks[0] + s.size - s.slot + 1
      && s.blocks[0] + WORD <= s.cur <= s.blocks[0] + s.size && s.cur % WORD == 0
      && forall p :: p in s.carved && s.carved[p] == s.blocks[0] ==> p + s.slot <= s.cur
  }

  ghost predicate Owned(s: State) {
    && (forall p :: p in s.live ==> p in s.carved)
    && (forall i :: 0 <= i < |s.free| ==> s.free[i] in s.carved && s.free[i] !in s.live)
    && (forall i, j :: 0 <= i < j < |s.free| ==> s.free[i] != s.free[j])
  }

  ghost predicate Inv(s: State) {
    SizesFit(s) && BlocksApart(s) && SlotsInside(s) && SlotsApart(s) && CursorOk(s) && Owned(s)
  }

  lemma PopFreeKeepsInv(s: State)
    requires Inv(s) && s.free != []
    ensures Inv(PopFree(s))
  {
  }

  lemma GiveBackKeepsInv(s: State, p: int)
    requires Inv(s) && p in s.live
    ensures Inv(GiveBack(s, p))
  {
  }

  lemma NewBlockKeepsInv(s: State, b: int)
    requires Inv(s) && FreshBlock(s, b)
    ensures Inv(NewBlock(s, b)) && NewBlock(s, b).cur < NewBlock(s, b).last
  {
    PadKeepsWordAlignment(b + WORD, s.slot);
    assert forall c :: c in s.blocks ==> c != b;
  }

  lemma NextSlotIsApart(s: State, p: int)
    requires Inv(s) && s.cur < s.last && p in s.carved
    ensures p + s.slot <= s.cur || s.cur + s.slot <= p
  {
    assert InsideBlock(s, p, s.carved[p]);
    var j :| 0 <= j < |s.blocks| && s.blocks[j] == s.carved[p];
  }

  lemma CarveSlotKeepsInv(s: State)
    requires Inv(s) && s.cur < s.last
    ensures Inv(CarveSlot(s)) && s.cur !in s.carved
  {
    hide BlocksApart;
    forall p | p in s.carved
      ensures p + s.slot <= s.cur || s.cur + s.slot <= p
    {
      NextSlotIsApart(s, p);
    }
    SameBlocks(s, CarveSlot(s));
  }

  lemma SameBlocks(s: State, t: State)
    requires BlocksApart(s) && t.blocks == s.blocks && t.size == s.size
    ensures BlocksApart(t)
  {
  }

  /** Opening a block leaves room for a first slot, wherever the system puts the block, exactly
      when the block is at least two slots long; nothing tests for it afterwards. */
  lemma FirstSlotFitsIff(slot: nat, size: nat)
    requires 0 < slot < 0x8000_0000 && slot % WORD == 0 && size < 0x8000_0000
    ensures (forall b: nat :: FirstSlotFits(slot, size, b)) <==> 2 * slot <= size
  {
    hide FirstSlotFits;
    if 2 * slot <= size {
      forall b: nat
        ensures FirstSlotFits(slot, size, b)
      {
        TwoSlotsAreEnough(slot, size, b);
      }
    } else {
      WorstBlock(slot, size);
    }
  }

  ghost predicate FirstSlotFits(slot: nat, size: nat, b: nat)
    requires 0 < slot < 0x8000_0000
  {
    0 < b && b % WORD == 0 && b + WORD < ADDRESSES && b + size < ADDRESSES ==>
      b + WORD + PadPointer(b + WORD, slot) + slot <= b + size
  }

  lemma TwoSlotsAreEnough(slot: nat, size: nat, b: nat)
    requires 0 < slot < 0x8000_0000 && slot % WORD == 0 && 2 * slot <= size
    ensures FirstSlotFits(slot, size, b)
  {
    if b % WORD == 0 && 0 < b && b + size < ADDRESSES {
      PadKeepsWordAlignment(b + WORD, slot);
    }
  }

  lemma WorstBlock(slot: nat, size: nat)
    requires 0 < slot < 0x8000_0000 && slot % WORD == 0 && size < 2 * slot
    ensures !FirstSlotFits(slot, size, ADDRESSES % slot + slot)
  {
    hide FirstSlotFits, PadPointer;
    EightDividesRemainder(ADDRESSES, slot);
    LargestPad(slot, ADDRESSES % slot + slot);
    NoRoom(slot, size, ADDRESSES % slot);
  }

  lemma NoRoom(slot: nat, size: nat, rest: nat)
    requires WORD <= slot < 0x8000_0000 && size < 2 * slot && rest < slot
    requires slot % WORD == 0 && rest % WORD == 0 && PadPointer(rest + slot + WORD, slot) == slot - WORD
    ensures !FirstSlotFits(slot, size, rest + slot)
  {
    hide PadPointer;
  }

  lemma LargestPad(slot: nat, b: nat)
    requires WORD <= slot < 0x8000_0000 && b == ADDRESSES % slot + slot
    ensures PadPointer(b + WORD, slot) == slot - WORD
  {
    var pad, rest := PadPointer(b + WORD, slot), ADDRESSES % slot;
    PadResidue(b + WORD, slot);
    ModShifted(rest + WORD + pad, slot, 1);
    assert (rest + (WORD + pad)) % slot == rest;
    if WORD + pad < slot {
      if rest + WORD + pad < slot {
        ModUnique(rest + WORD + pad, slot, 0, rest + WORD + pad);
      } else {
        ModUnique(rest + WORD + pad, slot, 1, rest + WORD + pad - slot);
      }
    } else if WORD + pad > slot {
      if rest + WORD + pad < 2 * slot {
        ModUnique(rest + WORD + pad, slot, 1, rest + WORD + pad - slot);
      } else {
        ModUnique(rest + WORD + pad, slot, 2, rest + WORD + pad - 2 * slot);
      }
    }
  }

  /** Slots are cut in steps of whole words, so that neighbours keep apart exactly when the slot
      size is a number of words. */
  lemma NeighboursApartIff(slot: nat)
    requires slot > 0
    ensures (forall p {:trigger NeighbourOf(p, slot)} :: Apart(p, NeighbourOf(p, slot), slot)) <==> slot % WORD == 0
  {
    assert NeighbourOf(0, slot) == slot / WORD * WORD;
  }

  /** The slot cut after the one at `p`. */
  function NeighbourOf(p: int, slot: nat): int {
    p + slot / WORD * WORD
  }

  // ----- Every interleaving of lock sections

  datatype Section = Pop | Cut(block: int) | Return(p: int)

  ghost predicate Enabled(s: State, a: Section) {
    match a
    case Pop => s.free != []
    case Cut(b) => SizesFit(s) && (s.cur >= s.last ==> FreshBlock(s, b)) && (s.cur < s.last ==> s.blocks != [])
    case Return(p) => p in s.live
  }

  ghost function Do(s: State, a: Section): State
    requires Enabled(s, a)
  {
    match a
    case Pop => PopFree(s)
    case Cut(b) => Carve(s, b)
    case Return(p) => GiveBack(s, p)
  }

  ghost predicate IsRun(states: seq<State>, sections: seq<Section>) {
    && |states| == |sections| + 1
    && forall i {:trigger sections[i]} :: 0 <= i < |sections| ==>
         Enabled(states[i], sections[i]) && states[i + 1] == Do(states[i], sections[i])
  }

  lemma DoKeepsInv(s: State, a: Section)
    requires Inv(s) && Enabled(s, a)
    ensures Inv(Do(s, a))
  {
    hide Inv, PopFree, GiveBack, NewBlock, CarveSlot;
    match a {
      case Pop => PopFreeKeepsInv(s);
      case Cut(b) =>
        if s.cur >= s.last {
          NewBlockKeepsInv(s, b);
          CarveSlotKeepsInv(NewBlock(s, b));
        } else {
          CarveSlotKeepsInv(s);
        }
      case Return(p) => GiveBackKeepsInv(s, p);
    }
  }

  lemma {:induction false} RunKeepsInv(states: seq<State>, sections: seq<Section>, i: nat)
    requires IsRun(states, sections) && Inv(states[0]) && i <= |sections|
    ensures Inv(states[i])
  {
    hide Inv, Do, Enabled;
    if i > 0 {
      RunKeepsInv(states, sections, i - 1);
      var a := sections[i - 1];
      DoKeepsInv(states[i - 1], a);
    }
  }

  lemma EmptyInv(slot: nat, size: nat)
    requires slot > 0 && slot % WORD == 0 && 2 * slot <= size
    ensures Inv(Empty(slot, size))
  {
  }

  /** However lock sections interleave, a slot in use lies wholly inside one block behind its
      link word, at a word boundary, and shares no byte with another slot in use, with a free
      slot, with the link word of a block or with the space not yet cut. */
  lemma LiveSlotsNeverOverlap(states: seq<State>, sections: seq<Section>, i: nat, p: int)
    requires IsRun(states, sections) && i <= |sections|
    requires Inv(states[0]) && p in states[i].live
    ensures var s := states[i];
      && (exists b :: InsideBlock(s, p, b))
      && (forall q :: (q in s.live || q in s.free) && q != p ==> Apart(p, q, s.slot))
      && p !in s.free
      && (forall b :: b in s.blocks ==> p + s.slot <= b || b + WORD <= p)
      && (p + s.slot <= s.cur || s.blocks[0] + s.size <= p)
  {
    RunKeepsInv(states, sections, i);
    LiveSlotIsAlone(states[i], p);
  }

  lemma LiveSlotIsAlone(s: State, p: int)
    requires Inv(s) && p in s.live
    ensures s.blocks != [] && p !in s.free
    ensures exists b :: InsideBlock(s, p, b)
    ensures forall q :: (q in s.live || q in s.free) && q != p ==> Apart(p, q, s.slot)
    ensures forall b :: b in s.blocks ==> p + s.slot <= b || b + WORD <= p
    ensures p + s.slot <= s.cur || s.blocks[0] + s.size <= p
  {
    assert InsideBlock(s, p, s.carved[p]);
    var j :| 0 <= j < |s.blocks| && s.blocks[j] == s.carved[p];
    forall b | b in s.blocks
      ensures p + s.slot <= b || b + WORD <= p
    {
      var i :| 0 <= i < |s.blocks| && s.blocks[i] == b;
    }
  }

  // ----- How blocks are filled

  /** Where the first slot of a block lies: behind the link word and the padding. */
  ghost function FirstSlot(b: int, slot: nat): int
    requires 0 < slot < ADDRESSES && 0 <= b && b + WORD < ADDRESSES
  {
    b + WORD + PadPointer(b + WORD, slot)
  }

  /** A whole number of slots behind the first. */
  ghost predicate IsSlotPlace(s: State, b: int, p: int) {
    && SizesFit(s) && Block(s, b)
    && FirstSlot(b, s.slot) <= p && (p - FirstSlot(b, s.slot)) % s.slot == 0
  }

  /** Every slot cut is at a slot's place, and the places that have room in a block are all cut, in
      the newest block those in front of the cursor. */
  ghost predicate Packed(s: State) {
    && (forall p :: p in s.carved ==> IsSlotPlace(s, s.carved[p], p))
    && (forall b, p :: b in s.blocks && IsSlotPlace(s, b, p) && p + s.slot <= b + s.size && (b == s.blocks[0] ==> p < s.cur) ==>
          p in s.carved && s.carved[p] == b)
    && (s.blocks != [] ==> IsSlotPlace(s, s.blocks[0], s.cur))
  }

  lemma NoPlaceBetween(slot: nat, d: int, e: int)
    requires slot > 0 && d % slot == 0 && e % slot == 0 && d <= e < d + slot
    ensures e == d
  {
    ModShifted(d, slot, 0);
    var k := e / slot - d / slot;
    assert e - d == slot * k;
    SmallMultipleIsZero(slot, k, e - d);
  }

  lemma NextPlace(slot: nat, d: int)
    requires slot > 0 && d % slot == 0
    ensures (d + slot) % slot == 0
  {
    ModShifted(d, slot, 1);
  }

  lemma ZeroPlace(slot: nat)
    requires slot > 0
    ensures 0 % slot == 0
  {
  }

  lemma NewBlockKeepsPacked(s: State, b: int)
    requires Inv(s) && Packed(s) && FreshBlock(s, b) && s.cur >= s.last
    ensures Packed(NewBlock(s, b))
  {
    var t := NewBlock(s, b);
    ZeroPlace(s.slot);
    assert IsSlotPlace(t, b, t.cur);
    assert b !in s.blocks;
    forall p | p in t.carved
      ensures IsSlotPlace(t, t.carved[p], p)
    {
      assert IsSlotPlace(s, s.carved[p], p);
    }
    forall c, p | c in t.blocks && IsSlotPlace(t, c, p) && p + t.slot <= c + t.size && (c == t.blocks[0] ==> p < t.cur)
      ensures p in t.carved && t.carved[p] == c
    {
      assert c in s.blocks && IsSlotPlace(s, c, p);
    }
  }

  lemma CarveSlotKeepsPacked(s: State)
    requires Inv(s) && Packed(s) && s.cur < s.last
    ensures Packed(CarveSlot(s))
  {
    var t, b := CarveSlot(s), s.blocks[0];
    var first := FirstSlot(b, s.slot);
    CarveSlotKeepsInv(s);
    NextPlace(s.slot, s.cur - first);
    assert t.cur == s.cur + s.slot && t.cur - first == (s.cur - first) + s.slot;
    assert IsSlotPlace(t, b, t.cur);
    forall p | p in t.carved
      ensures IsSlotPlace(t, t.carved[p], p)
    {
      assert IsSlotPlace(s, if p == s.cur then b else s.carved[p], p);
    }
    forall c, p | c in t.blocks && IsSlotPlace(t, c, p) && p + t.slot <= c + t.size && (c == t.blocks[0] ==> p < t.cur)
      ensures p in t.carved && t.carved[p] == c
    {
      assert c in s.blocks && IsSlotPlace(s, c, p);
      if c == b && p >= s.cur {
        NoPlaceBetween(s.slot, s.cur - first, p - first);
      }
    }
  }

  lemma DoKeepsPacked(s: State, a: Section)
    requires Inv(s) && Packed(s) && Enabled(s, a)
    ensures Packed(Do(s, a))
  {
    hide Inv, Packed, NewBlock, CarveSlot;
    match a {
      case Pop => SamePlaces(s, PopFree(s));
      case Cut(b) =>
        if s.cur >= s.last {
          NewBlockKeepsPacked(s, b);
          NewBlockKeepsInv(s, b);
          CarveSlotKeepsPacked(NewBlock(s, b));
        } else {
          CarveSlotKeepsPacked(s);
        }
      case Return(p) => SamePlaces(s, GiveBack(s, p));
    }
  }

  lemma SamePlaces(s: State, t: State)
    requires Packed(s)
    requires t.slot == s.slot && t.size == s.size && t.blocks == s.blocks && t.cur == s.cur && t.carved == s.carved
    ensures Packed(t)
  {
    forall b, p
      ensures IsSlotPlace(t, b, p) <==> IsSlotPlace(s, b, p)
    {
    }
  }

  lemma EmptyPacked(slot: nat, size: nat)
    ensures Packed(Empty(slot, size))
  {
  }

  /** In every interleaving, the slots cut from a block are exactly those at a whole number of
      slots behind its first that have room in it, in the newest block as far as the cursor. */
  lemma {:induction false} BlocksAreFilled(states: seq<State>, sections: seq<Section>, i: nat)
    requires IsRun(states, sections) && Inv(states[0]) && Packed(states[0]) && i <= |sections|
    ensures var s := states[i];
      && Packed(s)
      && forall b, p :: b in s.blocks && Block(s, b) && SizesFit(s) ==>
           ((p in s.carved && s.carved[p] == b) <==>
             IsSlotPlace(s, b, p) && p + s.slot <= b + s.size && (b == s.blocks[0] ==> p < s.cur))
  {
    hide Inv, Do, Enabled, Packed, IsSlotPlace;
    if i > 0 {
      BlocksAreFilled(states, sections, i - 1);
      RunKeepsInv(states, sections, i - 1);
      var a := sections[i - 1];
      DoKeepsPacked(states[i - 1], a);
    }
    RunKeepsInv(states, sections, i);
    CutPlaces(states[i]);
  }

  lemma CutPlaces(s: State)
    requires Inv(s) && Packed(s)
    ensures forall b, p :: b in s.blocks && Block(s, b) && SizesFit(s) ==>
      ((p in s.carved && s.carved[p] == b) <==>
        IsSlotPlace(s, b, p) && p + s.slot <= b + s.size && (b == s.blocks[0] ==> p < s.cur))
  {
    hide IsSlotPlace;
    forall p | p in s.carved
      ensures p + s.slot <= s.carved[p] + s.size && (s.carved[p] == s.blocks[0] ==> p < s.cur)
    {
      assert InsideBlock(s, p, s.carved[p]);
    }
  }

  /** A section opens a block exactly when it cuts and the newest block, if there is one, has no
      room for a whole slot behind the cursor. */
  lemma BlockOpensIffFull(s: State, a: Section)
    requires Inv(s) && Enabled(s, a)
    ensures OpensBlock(s, a) <==> a.Cut? && (s.blocks == [] || s.cur + s.slot > s.blocks[0] + s.size)
    ensures Do(s, a).blocks == (if OpensBlock(s, a) then [a.block] else []) + s.blocks
  {
    assert [] + s.blocks == s.blocks;
  }

  /** The free list is a stack: taking a slot undoes giving it back. */
  lemma GiveBackThenTake(s: State, p: int)
    requires Inv(s) && p in s.live
    ensures Enabled(Do(s, Return(p)), Pop) && Do(Do(s, Return(p)), Pop) == s
  {
    assert s.live - {p} + {p} == s.live;
  }

  // ----- Slots that are lost

  ghost function Free(s: State): set<int> {
    set p | p in s.free
  }

  /** Cut, but neither in use nor free. */
  ghost function Lost(s: State): set<int> {
    s.carved.Keys - s.live - Free(s)
  }

  ghost predicate OpensBlock(s: State, a: Section) {
    a.Cut? && s.cur >= s.last
  }

  /** Only opening a block loses slots, and it loses exactly the free ones; a lost slot never
      comes back. */
  lemma LostSlots(s: State, a: Section)
    requires Inv(s) && Enabled(s, a)
    ensures Lost(Do(s, a)) == Lost(s) + if OpensBlock(s, a) then Free(s) else {}
  {
    match a {
      case Pop => assert s.free == [s.free[0]] + s.free[1..];
      case Return(p) =>
      case Cut(b) =>
        if s.cur >= s.last {
          NewBlockKeepsInv(s, b);
          CarveSlotKeepsInv(NewBlock(s, b));
        } else {
          CarveSlotKeepsInv(s);
        }
    }
  }

  lemma {:induction false} LostForever(states: seq<State>, sections: seq<Section>, i: nat, j: nat)
    requires IsRun(states, sections) && Inv(states[0]) && i <= j <= |sections|
    ensures Lost(states[i]) <= Lost(states[j])
  {
    hide Inv, Do, Enabled, Lost;
    if i < j {
      LostForever(states, sections, i, j - 1);
      var a := sections[j - 1];
      RunKeepsInv(states, sections, j - 1);
      LostSlots(states[j - 1], a);
    }
  }

  /** Cut slots are exactly the slots in use and the free ones. */
  ghost predicate Exact(s: State) {
    s.carved.Keys == s.live + Free(s)
  }

  lemma ExactIffNoneLost(s: State)
    requires Inv(s)
    ensures Exact(s) <==> Lost(s) == {}
  {
    hide Inv;
    OwnedSlotsAreCut(s);
    var cut, owned := s.carved.Keys, s.live + Free(s);
    assert Lost(s) == cut - owned;
    if Lost(s) == {} {
      assert forall p :: p in cut ==> p !in cut - owned ==> p in owned;
    }
  }

  lemma OwnedSlotsAreCut(s: State)
    requires Inv(s)
    ensures s.live + Free(s) <= s.carved.Keys
  {
    forall p | p in s.live + Free(s)
      ensures p in s.carved
    {
    }
  }

  /** A section keeps the account exact unless it opens a block while slots are free. */
  lemma ExactKeptIff(s: State, a: Section)
    requires Inv(s) && Exact(s) && Enabled(s, a)
    ensures Exact(Do(s, a)) <==> !(OpensBlock(s, a) && s.free != [])
  {
    hide Inv, Exact, Lost, Do, Enabled;
    DoKeepsInv(s, a);
    LostSlots(s, a);
    ExactIffNoneLost(s);
    ExactIffNoneLost(Do(s, a));
    if s.free != [] {
      assert s.free[0] in Free(s);
    }
  }

  /** An account that was exact is exact as long as no section has opened a block while slots
      were free. */
  lemma {:induction false} RunExactIff(states: seq<State>, sections: seq<Section>, i: nat)
    requires IsRun(states, sections) && Inv(states[0]) && Exact(states[0]) && i <= |sections|
    ensures Exact(states[i]) <==>
            forall j {:trigger sections[j]} :: 0 <= j < i ==> !(OpensBlock(states[j], sections[j]) && states[j].free != [])
  {
    hide Inv, Exact, Lost, Do, Enabled, OpensBlock;
    if i > 0 {
      RunExactIff(states, sections, i - 1);
      RunKeepsInv(states, sections, i - 1);
      RunKeepsInv(states, sections, i);
      var a := sections[i - 1];
      if Exact(states[i - 1]) {
        ExactKeptIff(states[i - 1], a);
      } else {
        LostForever(states, sections, i - 1, i);
        ExactIffNoneLost(states[i - 1]);
        ExactIffNoneLost(states[i]);
      }
    }
  }

  /** In one thread `allocate` cuts only when it has found the free list empty. */
  ghost predicate IsSequential(states: seq<State>, sections: seq<Section>) {
    IsRun(states, sections) && forall i {:trigger sections[i]} :: 0 <= i < |sections| && sections[i].Cut? ==> states[i].free == []
  }

  ghost function SequentialSection(s: State, b: int): Section {
    if s.free != [] then Pop else Cut(b)
  }

  lemma {:induction false} SequentialRunsLoseNothing(states: seq<State>, sections: seq<Section>, i: nat)
    requires IsSequential(states, sections) && Inv(states[0]) && Exact(states[0]) && i <= |sections|
    ensures Exact(states[i])
  {
    hide Inv, Exact, Do, Enabled;
    if i > 0 {
      SequentialRunsLoseNothing(states, sections, i - 1);
      var a := sections[i - 1];
      RunKeepsInv(states, sections, i - 1);
      ExactKeptIff(states[i - 1], a);
    }
  }

  // ----- Threads

  /** `waiting` are the threads that have found the free list empty, by the first look or under
      its lock, and are on their way to the block. */
  datatype Threads = Threads(pool: State, waiting: set<nat>)

  datatype ThreadAction =
    | TakeFree(thread: nat)
    | FindNone(thread: nat)
    | CutFor(thread: nat, block: int)
    | Give(thread: nat, p: int)

  ghost predicate CanAct(s: Threads, a: ThreadAction) {
    match a
    case TakeFree(t) => t !in s.waiting && s.pool.free != []
    case FindNone(t) => t !in s.waiting && s.pool.free == []
    case CutFor(t, b) => t in s.waiting && Enabled(s.pool, Cut(b))
    case Give(t, p) => t !in s.waiting && p in s.pool.live
  }

  ghost function Act(s: Threads, a: ThreadAction): Threads
    requires CanAct(s, a)
  {
    match a
    case TakeFree(t) => s.(pool := Do(s.pool, Pop))
    case FindNone(t) => s.(waiting := s.waiting + {t})
    case CutFor(t, b) => Threads(Do(s.pool, Cut(b)), s.waiting - {t})
    case Give(t, p) => s.(pool := Do(s.pool, Return(p)))
  }

  ghost predicate IsThreadRun(s: Threads, states: seq<Threads>, actions: seq<ThreadAction>) {
    && |states| == |actions| + 1 && states[0] == s
    && forall i {:trigger actions[i]} :: 0 <= i < |actions| ==>
         CanAct(states[i], actions[i]) && states[i + 1] == Act(states[i], actions[i])
  }

  /** To the pool that is nothing, or one of its sections. */
  lemma ThreadStepIsSection(s: Threads, a: ThreadAction)
    requires CanAct(s, a)
    ensures Act(s, a).pool == s.pool ||
            exists section :: Enabled(s.pool, section) && Act(s, a).pool == Do(s.pool, section)
  {
    hide Do;
    match a
    case TakeFree(t) => assert Enabled(s.pool, Pop);
    case FindNone(t) =>
    case CutFor(t, b) => assert Enabled(s.pool, Cut(b));
    case Give(t, p) => assert Enabled(s.pool, Return(p));
  }

  /** What each action does: a slot that is free, or one never cut before, comes into use; the look
      that finds none changes nothing in the pool; a slot given back is the next one free. */
  lemma ThreadStepIs(s: Threads, a: ThreadAction)
    requires CanAct(s, a) && Inv(s.pool)
    ensures var t, p := Act(s, a), s.pool;
      match a
      case TakeFree(_) =>
        p.free != [] && t.pool.live == p.live + {p.free[0]} && t.pool.free == p.free[1..] && t.waiting == s.waiting
      case FindNone(thread) =>
        p.free == [] && t.pool == p && t.waiting == s.waiting + {thread}
      case CutFor(thread, _) =>
        && t.waiting == s.waiting - {thread} && t.pool.carved.Keys - p.carved.Keys == t.pool.live - p.live
        && exists q :: q !in p.carved && t.pool.live == p.live + {q}
      case Give(_, q) =>
        t.pool.live == p.live - {q} && t.pool.free == [q] + p.free && t.waiting == s.waiting
  {
    match a {
      case CutFor(thread, b) =>
        var u := if s.pool.cur >= s.pool.last then NewBlock(s.pool, b) else s.pool;
        if s.pool.cur >= s.pool.last {
          NewBlockKeepsInv(s.pool, b);
        }
        CarveSlotKeepsInv(u);
        assert u.cur !in s.pool.carved && Act(s, a).pool.live == s.pool.live + {u.cur};
      case _ =>
    }
  }

  lemma {:induction false} ThreadsKeepInv(s: Threads, states: seq<Threads>, actions: seq<ThreadAction>, i: nat)
    requires IsThreadRun(s, states, actions) && Inv(s.pool) && i <= |actions|
    ensures Inv(states[i].pool)
  {
    hide Inv, Do, Enabled, Act, CanAct;
    if i > 0 {
      ThreadsKeepInv(s, states, actions, i - 1);
      var a := actions[i - 1];
      ThreadStepIsSection(states[i - 1], a);
      if states[i].pool != states[i - 1].pool {
        var section :| Enabled(states[i - 1].pool, section) && states[i].pool == Do(states[i - 1].pool, section);
        DoKeepsInv(states[i - 1].pool, section);
      }
    }
  }

  /** One thread alone loses nothing: it comes to the block only with the free list empty. */
  lemma {:induction false} OneThreadLosesNothing(s: Threads, states: seq<Threads>, actions: seq<ThreadAction>, t: nat, i: nat)
    requires IsThreadRun(s, states, actions) && i <= |actions|
    requires Inv(s.pool) && Exact(s.pool) && s.waiting == {}
    requires forall j {:trigger actions[j]} :: 0 <= j < |actions| ==> actions[j].thread == t
    ensures Exact(states[i].pool)
    ensures states[i].waiting <= {t} && (states[i].waiting != {} ==> states[i].pool.free == [])
  {
    hide Inv, Exact, Lost, Do, Enabled;
    if i > 0 {
      OneThreadLosesNothing(s, states, actions, t, i - 1);
      ThreadsKeepInv(s, states, actions, i - 1);
      var a := actions[i - 1];
      AloneKeepsExact(states[i - 1], a, t);
    }
  }

  lemma AloneKeepsExact(s: Threads, a: ThreadAction, t: nat)
    requires CanAct(s, a) && a.thread == t && Inv(s.pool) && Exact(s.pool)
    requires s.waiting <= {t} && (s.waiting != {} ==> s.pool.free == [])
    ensures var u := Act(s, a);
            Exact(u.pool) && u.waiting <= {t} && (u.waiting != {} ==> u.pool.free == [])
  {
    hide Inv, Exact, Lost, Do;
    match a
    case TakeFree(_) => ExactKeptIff(s.pool, Pop);
    case FindNone(_) =>
    case CutFor(_, b) => ExactKeptIff(s.pool, Cut(b));
    case Give(_, p) => ExactKeptIff(s.pool, Return(p));
  }

  ghost predicate TwoThreads(actions: seq<ThreadAction>) {
    forall a :: a in actions ==> a.thread <= 1
  }

  lemma Extended(s: Threads, states: seq<Threads>, actions: seq<ThreadAction>, a: ThreadAction)
    returns (longer: seq<Threads>, more: seq<ThreadAction>)
    requires IsThreadRun(s, states, actions) && CanAct(states[|actions|], a)
    requires TwoThreads(actions) && a.thread <= 1
    ensures IsThreadRun(s, longer, more) && TwoThreads(more) && longer[|more|] == Act(states[|actions|], a)
  {
    hide CanAct, Act;
    longer, more := states + [Act(states[|actions|], a)], actions + [a];
    forall i | 0 <= i < |more|
      ensures CanAct(longer[i], more[i]) && longer[i + 1] == Act(longer[i], more[i])
    {
      assert i < |actions| ==> CanAct(states[i], actions[i]) && states[i + 1] == Act(states[i], actions[i]);
    }
  }

  /** A pool with a slot in use, none free, and no thread on its way to the block. */
  ghost predicate Busy(s: Threads, blocks: seq<int>) {
    && Inv(s.pool) && s.pool.blocks == blocks != [] && s.pool.free == [] && s.waiting == {}
    && exists p :: p in s.pool.live
  }

  lemma OneMoreSlot(s: Threads, b: int)
    requires Inv(s.pool) && s.pool.free == [] && s.waiting == {} && Enabled(s.pool, Cut(b))
    ensures CanAct(s, FindNone(0)) && CanAct(Act(s, FindNone(0)), CutFor(0, b))
    ensures var t := Act(Act(s, FindNone(0)), CutFor(0, b));
      && Busy(t, if s.pool.cur >= s.pool.last then [b] + s.pool.blocks else s.pool.blocks)
      && t.pool.slot == s.pool.slot && t.pool.size == s.pool.size
      && (s.pool.cur < s.pool.last ==> t.pool.last == s.pool.last && t.pool.cur > s.pool.cur)
  {
    hide Inv;
    DoKeepsInv(s.pool, Cut(b));
    CursorInBlock(s.pool);
    var u := if s.pool.cur >= s.pool.last then NewBlock(s.pool, b) else s.pool;
    assert u.cur in Do(s.pool, Cut(b)).live;
    assert {0} - {0} == {};
  }

  /** One thread cuts slots until the block is used up. */
  lemma {:induction false} UseUp(
    s: Threads, states: seq<Threads>, actions: seq<ThreadAction>, blocks: seq<int>)
    returns (longer: seq<Threads>, more: seq<ThreadAction>)
    requires IsThreadRun(s, states, actions) && TwoThreads(actions) && Busy(states[|actions|], blocks)
    ensures IsThreadRun(s, longer, more) && TwoThreads(more) && Busy(longer[|more|], blocks)
    ensures var t, now := states[|actions|].pool, longer[|more|].pool;
            now.cur >= now.last && now.slot == t.slot && now.size == t.size
    decreases states[|actions|].pool.last - states[|actions|].pool.cur
  {
    hide Inv, Act, CanAct, TwoThreads;
    var now := states[|actions|];
    if now.pool.cur >= now.pool.last {
      longer, more := states, actions;
    } else {
      CursorInBlock(now.pool);
      OneMoreSlot(now, 0);
      longer, more := Extended(s, states, actions, FindNone(0));
      longer, more := Extended(s, longer, more, CutFor(0, 0));
      longer, more := UseUp(s, longer, more, blocks);
    }
  }

  /** Two threads are enough to lose a slot, in a pool of any slot and block size: one gives a
      slot back between the other's look at the free list and its turn at the block. */
  lemma SlotLostBetweenSections(slot: nat, size: nat) returns (states: seq<Threads>, actions: seq<ThreadAction>)
    requires slot > 0 && slot % WORD == 0 && 2 * slot <= size < 0x8000_0000
    ensures IsThreadRun(Threads(Empty(slot, size), {}), states, actions) && TwoThreads(actions)
    ensures Lost(states[|actions|].pool) != {}
  {
    hide Inv, Act, CanAct, TwoThreads, Busy, Lost;
    var s := Threads(Empty(slot, size), {});
    states, actions := [s], [];
    NoThreads();
    EmptyInv(slot, size);
    FirstBlock(slot, size);
    OneMoreSlot(s, WORD);
    assert [WORD] + s.pool.blocks == [WORD];
    states, actions := Extended(s, states, actions, FindNone(0));
    states, actions := Extended(s, states, actions, CutFor(0, WORD));
    states, actions := UseUp(s, states, actions, [WORD]);
    var p := LateReturn(states[|actions|], WORD + WORD * size);
    states, actions := Extended(s, states, actions, FindNone(1));
    states, actions := Extended(s, states, actions, Give(0, p));
    states, actions := Extended(s, states, actions, CutFor(1, WORD + WORD * size));
  }

  lemma NoThreads()
    ensures TwoThreads([])
  {
  }

  lemma FirstBlock(slot: nat, size: nat)
    requires slot > 0 && slot % WORD == 0 && 2 * slot <= size < 0x8000_0000
    ensures Enabled(Empty(slot, size), Cut(WORD))
  {
  }

  lemma LateReturn(s: Threads, b: int) returns (p: int)
    requires Busy(s, [WORD]) && s.pool.cur >= s.pool.last && s.pool.size < 0x8000_0000 && b == WORD + WORD * s.pool.size
    ensures CanAct(s, FindNone(1))
    ensures var t := Act(s, FindNone(1)); CanAct(t, Give(0, p))
    ensures var t := Act(Act(s, FindNone(1)), Give(0, p));
      CanAct(t, CutFor(1, b)) && Lost(Act(t, CutFor(1, b)).pool) != {}
  {
    hide Inv, Do, Lost, GiveBack;
    p :| p in s.pool.live;
    CursorInBlock(s.pool);
    var given := Do(s.pool, Return(p));
    DoKeepsInv(s.pool, Return(p));
    ReturnMakesFree(s.pool, p);
    LostSlots(given, Cut(b));
    assert p in Free(given);
  }

  lemma ReturnMakesFree(s: State, p: int)
    requires p in s.live
    ensures var t := Do(s, Return(p));
      && p in t.free && t.blocks == s.blocks && t.cur == s.cur && t.last == s.last && t.size == s.size && t.slot == s.slot
  {
  }

  // ----- The pool in memory

  /** `s` is the list that starts at `head` and is linked through the first word of its elements. */
  ghost predicate Chain(mem: map<int, int>, head: int, s: seq<int>)
    decreases |s|
  {
    if s == [] then head == 0
    else head == s[0] && head != 0 && head in mem && Chain(mem, mem[head], s[1..])
  }

  lemma {:induction false} ChainFrame(mem: map<int, int>, mem': map<int, int>, head: int, s: seq<int>)
    requires Chain(mem, head, s)
    requires forall a :: a in s && a in mem ==> a in mem' && mem'[a] == mem[a]
    ensures Chain(mem', head, s)
    decreases |s|
  {
    if s != [] {
      ChainFrame(mem, mem', mem[head], s[1..]);
    }
  }

  /** Pointers are addresses, 0 the null one. */
  class Pool {
    const blockSize: nat
    var slotSize: nat
    var firstBlock: int
    var curSlot: int
    var freeList: int
    var lastSlot: int
    var mem: map<int, int>  // the words of its blocks
    ghost var model: State

    ghost predicate Valid()
      reads this
    {
      && Inv(model)
      && model.slot == slotSize && model.size == blockSize
      && model.cur == curSlot && model.last == lastSlot
      && Chain(mem, firstBlock, model.blocks)
      && Chain(mem, freeList, model.free)
    }

    constructor (blockSize: nat)
      ensures this.blockSize == blockSize
    {
      this.blockSize := blockSize;
    }

    method Init(size: nat)
      requires size > 0 && size % WORD == 0 && 2 * size <= blockSize
      modifies this
      ensures Valid() && model == Empty(size, blockSize)
    {
      slotSize := size;
      firstBlock, curSlot, freeList, lastSlot := 0, 0, 0, 0;
      model := Empty(size, blockSize);
      EmptyInv(size, blockSize);
    }

    /** The locked section of `allocate` on the free list. */
    method PopSlot() returns (p: int)
      requires Valid() && freeList != 0
      modifies `freeList, `model
      ensures Valid() && model == PopFree(old(model)) && p == old(model).free[0]
    {
      hide Inv;
      PopFreeKeepsInv(model);
      p := freeList;
      freeList := mem[freeList];
      model := PopFree(model);
    }

    method AllocateNewBlock(newBlock: int)
      requires Valid() && FreshBlock(model, newBlock)
      modifies this
      ensures Valid() && model == NewBlock(old(model), newBlock) && curSlot < lastSlot
    {
      hide Inv, FreshBlock;
      ghost var was := mem;
      NewBlockKeepsInv(model, newBlock);
      NewIsNotOld(model, newBlock);
      mem := mem[newBlock := firstBlock];
      ChainFrame(was, mem, firstBlock, model.blocks);
      firstBlock := newBlock;
      var body := newBlock + WORD;
      var paddingSize := PadPointer(body, slotSize);
      curSlot := body + paddingSize;
      lastSlot := newBlock + blockSize - slotSize + 1;
      freeList := 0;
      model := NewBlock(model, newBlock);
      assert model.blocks[1..] == old(model.blocks);
    }

    /** The locked section of `allocate` on the current block; `newBlock` is what the system
        returns if it is asked. */
    method CutSlot(newBlock: int) returns (p: int)
      requires Valid() && (curSlot >= lastSlot ==> FreshBlock(model, newBlock))
      modifies this
      ensures Valid() && Enabled(old(model), Cut(newBlock)) && model == Do(old(model), Cut(newBlock))
      ensures p in model.live && p !in old(model).carved
    {
      hide Inv, NewBlock, FreshBlock;
      CursorInBlock(model);
      if curSlot >= lastSlot {
        NewBlockCarvesNothing(model, newBlock);
        AllocateNewBlock(newBlock);
      }
      CarveSlotKeepsInv(model);
      p := curSlot;
      curSlot := NeighbourOf(curSlot, slotSize);
      model := CarveSlot(model);
    }

    /** `allocate` with no other thread in between. */
    method Allocate(newBlock: int) returns (p: int)
      requires Valid() && (freeList == 0 && curSlot >= lastSlot ==> FreshBlock(model, newBlock))
      modifies this
      ensures Valid() && p !in old(model).live
      ensures model.live == old(model).live + {p}
      ensures var a := SequentialSection(old(model), newBlock); Enabled(old(model), a) && model == Do(old(model), a)
      ensures if old(model).free != [] then p == old(model).free[0] && model.carved == old(model).carved
              else p !in old(model).carved
      ensures old(Exact(model)) ==> Exact(model)
    {
      hide Inv, NewBlock, FreshBlock, CarveSlot;
      FreeIsNotLive(model);
      ghost var was := model;
      if freeList != 0 {
        ghost var a := Pop;
        p := PopSlot();
        if Exact(was) { ExactKeptIff(was, a); }
      } else {
        ghost var a := Cut(newBlock);
        p := CutSlot(newBlock);
        if Exact(was) { ExactKeptIff(was, a); }
        CutAddsOne(was, newBlock, p);
      }
    }

    /** `deallocate`; a null pointer is ignored. */
    method Deallocate(p: int)
      requires Valid() && (p != 0 ==> p in model.live)
      modifies `freeList, `mem, `model
      ensures Valid() && model == if p == 0 then old(model) else GiveBack(old(model), p)
      ensures old(Exact(model)) ==> Exact(model)
    {
      hide Inv, Exact, Lost;
      if p != 0 {
        SlotHoldsWord(model, p);
        LinkWordsElsewhere(model, p, p);
        GiveBackKeepsInv(model, p);
        ghost var was, before := model, mem;
        mem := mem[p := freeList];
        ChainFrame(before, mem, freeList, model.free);
        ChainFrame(before, mem, firstBlock, model.blocks);
        freeList := p;
        model := GiveBack(model, p);
        assert model.free[1..] == was.free;
        if Exact(was) { ExactKeptIff(was, Return(p)); }
      }
    }

    /** The owner of a slot may write any word of it: the pool's lists do not notice. */
    method StoreWord(p: int, a: int, word: int)
      requires Valid() && p in model.live
      requires p <= a && a + WORD <= p + slotSize && a % WORD == 0
      modifies `mem
      ensures Valid() && mem == old(mem)[a := word]
    {
      hide Inv;
      LinkWordsElsewhere(model, p, a);
      mem := mem[a := word];
      ChainFrame(old(mem), mem, freeList, model.free);
      ChainFrame(old(mem), mem, firstBlock, model.blocks);
    }

    /** The destructor's walk: every block is returned to the system, once. */
    method Destroy() returns (deleted: seq<int>)
      requires Valid()
      ensures deleted == model.blocks
      ensures forall i, j :: 0 <= i < j < |deleted| ==> deleted[i] != deleted[j]
    {
      hide Inv;
      BlocksDiffer(model);
      deleted := [];
      var cur := firstBlock;
      ghost var rest := model.blocks;
      while cur != 0
        invariant deleted + rest == model.blocks && Chain(mem, cur, rest)
        decreases |rest|
      {
        var next := mem[cur];
        assert rest == [cur] + rest[1..];
        deleted, rest := deleted + [cur], rest[1..];
        cur := next;
      }
    }
  }

  lemma NewIsNotOld(s: State, b: int)
    requires Inv(s) && FreshBlock(s, b)
    ensures b !in s.blocks && b > 0
    ensures SizesFit(s) && s.slot < s.size && b + s.size < ADDRESSES
  {
  }

  lemma CursorInBlock(s: State)
    requires Inv(s)
    ensures SizesFit(s) && (s.cur < s.last ==> s.blocks != [])
  {
  }

  lemma NewBlockCarvesNothing(s: State, b: int)
    requires Inv(s) && FreshBlock(s, b)
    ensures var t := NewBlock(s, b); t.carved == s.carved && t.live == s.live && t.blocks != []
  {
  }

  lemma FreeIsNotLive(s: State)
    requires Inv(s)
    ensures s.free != [] ==> s.free[0] !in s.live
    ensures forall p :: p in s.live ==> p in s.carved
  {
  }

  lemma CutAddsOne(s: State, b: int, p: int)
    requires Inv(s) && Enabled(s, Cut(b)) && p in Do(s, Cut(b)).live && p !in s.carved
    ensures Do(s, Cut(b)).live == s.live + {p}
  {
  }

  lemma BlocksDiffer(s: State)
    requires Inv(s)
    ensures forall i, j :: 0 <= i < j < |s.blocks| ==> s.blocks[i] != s.blocks[j]
  {
  }

  lemma SlotHoldsWord(s: State, p: int)
    requires Inv(s) && p in s.live
    ensures p % WORD == 0 && WORD <= s.slot
  {
  }

  /** No word of a slot in use is a link word of the pool. */
  lemma LinkWordsElsewhere(s: State, p: int, a: int)
    requires Inv(s) && p in s.live && p <= a && a + WORD <= p + s.slot && a % WORD == 0
    ensures a !in s.blocks && a !in s.free
    ensures p != 0
  {
    LiveSlotIsAlone(s, p);
  }
}
