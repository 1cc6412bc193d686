/**
  The incremental updater of src/memory/paging.rs on shapes: what it leaves in a table, given what
  the table held, and when that is what a rebuild would give.
 */
module Renewal {
  import opened Mappings
  import opened Entries
  import opened PageTrees

  /** The entry after an update: large leaves in the updater's encoding, tables below kept in use. */
  function RenewSlot(was: Shape, list: seq<Mapping>, allow: Level, l: Level, start: nat): Shape
    decreases l, 0
  {
    var hi := start + Size(l);
    var sub := Overlap(list, start, hi);
    if sub == [] then Entry(0)
    else if CanBeHuge(sub, l, allow, start, hi) then Entry(UpdaterHugeEntry(l, start, sub[0].flags))
    else if l == PT then Entry(PtEntry(start, sub[0].flags))
    else if was.Table? && |was.slots| == 512 then Table(RELAY_BITS, RenewTable(was.slots, list, allow, l - 1, start))
    else Table(RELAY_BITS, BuildTable(list, allow, l - 1, start))
  }

  function RenewTable(was: seq<Shape>, list: seq<Mapping>, allow: Level, l: Level, base: nat): (t: seq<Shape>)
    requires |was| == 512
    ensures |t| == 512
    decreases l, 1
  {
    seq(512, i requires 0 <= i < 512 => RenewSlot(was[i], list, allow, l, SlotStart(l, base, i)))
  }

  /** Names for the two, used where only the result matters and not how it is computed. */
  function RenewedSlot(was: Shape, list: seq<Mapping>, allow: Level, l: Level, start: nat): Shape {
    RenewSlot(was, list, allow, l, start)
  }

  function RenewedTable(was: seq<Shape>, list: seq<Mapping>, allow: Level, l: Level, base: nat): seq<Shape>
    requires |was| == 512
  {
    RenewTable(was, list, allow, l, base)
  }

  lemma {:induction false} RenewNested(was: Shape, list: seq<Mapping>, allow: Level, l: Level, start: nat, lo: nat, hi: nat)
    requires lo <= start && start + Size(l) <= hi
    ensures RenewSlot(was, Overlap(list, lo, hi), allow, l, start) == RenewSlot(was, list, allow, l, start)
    decreases l, 0
  {
    OverlapNested(list, lo, hi, start, start + Size(l));
    if l > PT {
      BuildTableNested(list, allow, l - 1, start, lo, hi);
      if was.Table? && |was.slots| == 512 {
        RenewTableNested(was.slots, list, allow, l - 1, start, lo, hi);
      }
    }
  }

  lemma {:induction false} RenewTableNested(was: seq<Shape>, list: seq<Mapping>, allow: Level, l: Level, base: nat, lo: nat, hi: nat)
    requires |was| == 512 && lo <= base && base + 512 * Size(l) <= hi
    ensures RenewTable(was, Overlap(list, lo, hi), allow, l, base) == RenewTable(was, list, allow, l, base)
    decreases l, 1
  {
    var sub := Overlap(list, lo, hi);
    forall i | 0 <= i < 512
      ensures RenewSlot(was[i], sub, allow, l, SlotStart(l, base, i)) == RenewSlot(was[i], list, allow, l, SlotStart(l, base, i))
    {
      SlotInside(l, base, i);
      RenewNested(was[i], list, allow, l, SlotStart(l, base, i), lo, hi);
    }
  }

  /** A block that needs a table and has one keeps it in use. */
  lemma RenewedOfTable(was: Shape, list: seq<Mapping>, allow: Level, l: Level, start: nat)
    requires NeedsTable(list, allow, l, start) && was.Table? && |was.slots| == 512
    ensures RenewedSlot(was, list, allow, l, start) == Table(RELAY_BITS, RenewedTable(was.slots, list, allow, l - 1, start))
  {
  }

  /** A lower table updated with the filtered list is the one the whole list asks for. */
  lemma RenewedNarrow(was: seq<Shape>, list: seq<Mapping>, sub: seq<Mapping>, allow: Level, k: Level, base: nat)
    requires |was| == 512 && sub == Overlap(list, base, base + 512 * Size(k))
    ensures RenewedTable(was, sub, allow, k, base) == RenewedTable(was, list, allow, k, base)
  {
    RenewTableNested(was, list, allow, k, base, base, base + 512 * Size(k));
  }

  // ---------- when an update equals a rebuild ----------

  /** Every large leaf of the block is encoded alike by builder and updater. */
  ghost predicate AgreeSlot(list: seq<Mapping>, allow: Level, l: Level, start: nat)
    decreases l, 0
  {
    var hi := start + Size(l);
    var sub := Overlap(list, start, hi);
    sub == [] ||
    if CanBeHuge(sub, l, allow, start, hi) then l > PDPT || SameHugeBits(sub[0].flags)
    else l == PT || AgreeTable(list, allow, l - 1, start)
  }

  ghost predicate AgreeTable(list: seq<Mapping>, allow: Level, l: Level, base: nat)
    decreases l, 1
  {
    forall i {:trigger SlotStart(l, base, i)} :: 0 <= i < 512 ==> AgreeSlot(list, allow, l, SlotStart(l, base, i))
  }

  lemma LargeEntries(l: Level, addr: nat, f: Flags)
    requires l != PT
    ensures BuilderHugeEntry(l, addr, f) == UpdaterHugeEntry(l, addr, f) <==> l > PDPT || SameHugeBits(f)
  {
    if l <= PDPT {
      HugeEncodingsAgree(l, addr, f);
    }
  }

  /** Where the encodings agree, an update gives what a rebuild gives, whatever was there. */
  lemma {:induction false} RenewIsBuild(was: Shape, list: seq<Mapping>, allow: Level, l: Level, start: nat)
    requires AgreeSlot(list, allow, l, start)
    ensures RenewSlot(was, list, allow, l, start) == BuildSlot(list, allow, l, start)
    decreases l, 0
  {
    var sub := Overlap(list, start, start + Size(l));
    if sub == [] || l == PT {
    } else if CanBeHuge(sub, l, allow, start, start + Size(l)) {
      LargeEntries(l, start, sub[0].flags);
    } else if was.Table? && |was.slots| == 512 {
      RenewTableIsBuild(was.slots, list, allow, l - 1, start);
    }
  }

  lemma {:induction false} RenewTableIsBuild(was: seq<Shape>, list: seq<Mapping>, allow: Level, l: Level, base: nat)
    requires |was| == 512 && AgreeTable(list, allow, l, base)
    ensures RenewTable(was, list, allow, l, base) == BuildTable(list, allow, l, base)
    decreases l, 1
  {
    forall i | 0 <= i < 512
      ensures RenewTable(was, list, allow, l, base)[i] == BuildTable(list, allow, l, base)[i]
    {
      RenewIsBuild(was[i], list, allow, l, SlotStart(l, base, i));
    }
  }

  /** Where they do not, updating a fresh table with its own list already changes it. */
  lemma {:induction false} SelfRenew(list: seq<Mapping>, allow: Level, l: Level, start: nat)
    requires RenewSlot(BuildSlot(list, allow, l, start), list, allow, l, start) == BuildSlot(list, allow, l, start)
    ensures AgreeSlot(list, allow, l, start)
    decreases l, 0
  {
    var sub := Overlap(list, start, start + Size(l));
    if sub == [] || l == PT {
    } else if CanBeHuge(sub, l, allow, start, start + Size(l)) {
      LargeEntries(l, start, sub[0].flags);
    } else {
      SelfRenewTable(list, allow, l - 1, start);
    }
  }

  lemma {:induction false} SelfRenewTable(list: seq<Mapping>, allow: Level, l: Level, base: nat)
    requires RenewTable(BuildTable(list, allow, l, base), list, allow, l, base) == BuildTable(list, allow, l, base)
    ensures AgreeTable(list, allow, l, base)
    decreases l, 1
  {
    var built := BuildTable(list, allow, l, base);
    forall i | 0 <= i < 512 ensures AgreeSlot(list, allow, l, SlotStart(l, base, i)) {
      assert RenewTable(built, list, allow, l, base)[i] == built[i];
      SelfRenew(list, allow, l, SlotStart(l, base, i));
    }
  }

  /** Update equals rebuild from every table, exactly when the large leaves agree. */
  lemma UpdateIsRebuildIff(list: seq<Mapping>, allow: Level, l: Level, base: nat)
    ensures (forall was: seq<Shape> :: |was| == 512 ==>
               RenewedTable(was, list, allow, l, base) == WantedTable(list, allow, l, base))
       <==> AgreeTable(list, allow, l, base)
  {
    if AgreeTable(list, allow, l, base) {
      forall was: seq<Shape> | |was| == 512
        ensures RenewedTable(was, list, allow, l, base) == WantedTable(list, allow, l, base)
      {
        RenewTableIsBuild(was, list, allow, l, base);
      }
    } else if RenewedTable(BuildTable(list, allow, l, base), list, allow, l, base) == WantedTable(list, allow, l, base) {
      SelfRenewTable(list, allow, l, base);
    }
  }

  // ---------- walking an updated table ----------

  /** The flags at the address are encoded alike by builder and updater. */
  ghost predicate AlikeAt(list: seq<Mapping>, a: nat) {
    LastWriter(list, a).Some? ==> SameHugeBits(LastWriter(list, a).value)
  }

  /** Where the block needs no table, the update leaves what a build leaves if the flags there agree. */
  lemma RenewedLeafIsBuilt(was: Shape, list: seq<Mapping>, allow: Level, l: Level, start: nat, a: nat)
    requires Mappable(list) && start % Size(l) == 0 && start <= a < start + Size(l) && AlikeAt(list, a)
    requires !NeedsTable(list, allow, l, start)
    ensures RenewedSlot(was, list, allow, l, start) == WantedSlot(list, allow, l, start)
  {
    var sub := Overlap(list, start, start + Size(l));
    if sub != [] && CanBeHuge(sub, l, allow, start, start + Size(l)) {
      WalkLeaf(list, l, start, a);
      LargeEntries(l, start, sub[0].flags);
    }
  }

  lemma RenewedSlotOfTable(was: seq<Shape>, list: seq<Mapping>, allow: Level, l: Level, base: nat, i: nat)
    requires |was| == 512 && i < 512
    ensures |RenewedTable(was, list, allow, l, base)| == 512
    ensures RenewedTable(was, list, allow, l, base)[i] == RenewedSlot(was[i], list, allow, l, SlotStart(l, base, i))
  {
  }

  /** Where the block needs a table, it has one, updated or built. */
  lemma RenewedBelow(was: Shape, list: seq<Mapping>, allow: Level, l: Level, start: nat)
    requires NeedsTable(list, allow, l, start)
    ensures RenewedSlot(was, list, allow, l, start) ==
      Table(RELAY_BITS, if was.Table? && |was.slots| == 512 then RenewedTable(was.slots, list, allow, l - 1, start)
                        else WantedTable(list, allow, l - 1, start))
  {
  }

  lemma FindThrough(s: Shape, slots: seq<Shape>, list: seq<Mapping>, allow: Level, l: Level, a: nat)
    requires NeedsTable(list, allow, l, BlockOf(l, a)) && s == Table(RELAY_BITS, slots)
    requires FindTable(slots, l - 1, a) == ExpectedLeaf(list, allow, l - 1, a)
    ensures FindSlot(s, l, a) == ExpectedLeaf(list, allow, l, a)
  {
    FindBelow(RELAY_BITS, slots, l, a);
    ExpectedBelow(list, allow, l, a);
  }

  /** A walk through an updated entry finds what the list says, whatever was there before. */
  lemma {:induction false} RenewedWalkSlot(was: Shape, list: seq<Mapping>, allow: Level, l: Level, start: nat, a: nat)
    requires Mappable(list) && start % Size(l) == 0 && start <= a < start + Size(l) && AlikeAt(list, a)
    ensures FindSlot(RenewedSlot(was, list, allow, l, start), l, a) == ExpectedLeaf(list, allow, l, a)
    decreases l, 0
  {
    BlockUnique(l, start, a);
    if NeedsTable(list, allow, l, start) {
      SizeStep(l);
      RenewedBelow(was, list, allow, l, start);
      if was.Table? && |was.slots| == 512 {
        RenewedWalkTable(was.slots, list, allow, l - 1, start, a);
        FindThrough(RenewedSlot(was, list, allow, l, start), RenewedTable(was.slots, list, allow, l - 1, start), list, allow, l, a);
      } else {
        WalkTable(list, allow, l - 1, start, a);
        FindThrough(RenewedSlot(was, list, allow, l, start), WantedTable(list, allow, l - 1, start), list, allow, l, a);
      }
    } else {
      RenewedLeafIsBuilt(was, list, allow, l, start, a);
      WalkNoTable(list, allow, l, start, a);
    }
  }

  lemma {:induction false} RenewedWalkTable(was: seq<Shape>, list: seq<Mapping>, allow: Level, l: Level, base: nat, a: nat)
    requires |was| == 512 && Mappable(list) && AlikeAt(list, a)
    requires base % (512 * Size(l)) == 0 && base <= a < base + 512 * Size(l)
    ensures FindTable(RenewedTable(was, list, allow, l, base), l, a) == ExpectedLeaf(list, allow, l, a)
    decreases l, 1
  {
    var i := Index(l, a);
    BlockIndexed(l, base, a);
    RenewedSlotOfTable(was, list, allow, l, base, i);
    FindInSlots(RenewedTable(was, list, allow, l, base), l, a);
    RenewedWalkSlot(was[i], list, allow, l, BlockOf(l, a), a);
  }

  // ---------- tables that were built or updated ----------

  /** The table was built for the list, or updated with it from some earlier table. */
  ghost predicate Shaped(slots: seq<Shape>, list: seq<Mapping>, allow: Level, l: Level) {
    slots == WantedTable(list, allow, l, 0) || UpdatedFromSome(slots, list, allow, l)
  }

  ghost predicate UpdatedFromSome(slots: seq<Shape>, list: seq<Mapping>, allow: Level, l: Level) {
    exists was: seq<Shape> :: |was| == 512 && slots == RenewedTable(was, list, allow, l, 0)
  }

  lemma ShapedWalk(slots: seq<Shape>, list: seq<Mapping>, allow: Level, l: Level, a: nat)
    requires Shaped(slots, list, allow, l) && Mappable(list) && AlikeAt(list, a) && a < Span(l)
    ensures FindTable(slots, l, a) == ExpectedLeaf(list, allow, l, a)
  {
    if slots == WantedTable(list, allow, l, 0) {
      WalkTable(list, allow, l, 0, a);
    } else {
      var was :| |was| == 512 && slots == RenewedTable(was, list, allow, l, 0);
      RenewedWalkTable(was, list, allow, l, 0, a);
    }
  }

  lemma ShapedIsBuilt(slots: seq<Shape>, list: seq<Mapping>, allow: Level, l: Level)
    requires Shaped(slots, list, allow, l) && AgreeTable(list, allow, l, 0)
    ensures slots == WantedTable(list, allow, l, 0)
  {
    if slots != WantedTable(list, allow, l, 0) {
      var was :| |was| == 512 && slots == RenewedTable(was, list, allow, l, 0);
      RenewTableIsBuild(was, list, allow, l, 0);
    }
  }

  // ---------- the condition on the list ----------

  /** The range covers the 2 MiB block at `b`, and a table of the top level reaches it. */
  predicate LargeBlockAt(r: Range, top: Level, b: nat) {
    b % Size(PD) == 0 && b + Size(PD) <= Span(top) && r.Covers(b, b + Size(PD))
  }

  ghost predicate HasLargeBlock(r: Range, top: Level) {
    exists b :: LargeBlockAt(r, top, b)
  }

  /** A mapping that could come out differently: HUGE without PAT, on a range with a 2 MiB block. */
  ghost predicate Ambiguous(m: Mapping, top: Level) {
    !SameHugeBits(m.flags) && HasLargeBlock(m.range, top)
  }

  lemma {:induction false} UnambiguousAgrees(list: seq<Mapping>, allow: Level, top: Level, l: Level, start: nat)
    requires forall i :: 0 <= i < |list| ==> !Ambiguous(list[i], top)
    requires start % Size(l) == 0 && start + Size(l) <= Span(top)
    ensures AgreeSlot(list, allow, l, start)
    decreases l, 0
  {
    var hi := start + Size(l);
    var sub := Overlap(list, start, hi);
    if sub == [] || l == PT {
    } else if CanBeHuge(sub, l, allow, start, hi) {
      OverlapSound(list, start, hi, 0);
      assert !Ambiguous(sub[0], top);
      FirstLargeBlock(sub[0].range, top, l, start);
    } else {
      SizeStep(l);
      UnambiguousTable(list, allow, top, l - 1, start);
    }
  }

  lemma FirstLargeBlock(r: Range, top: Level, l: Level, start: nat)
    requires l >= PD && start % Size(l) == 0 && start + Size(l) <= Span(top) && r.Covers(start, start + Size(l))
    ensures HasLargeBlock(r, top)
  {
    BlockUnique(l, start, start) by { assert Size(l) > 0; }
    BlocksNest(l, PD, start);
    BlockSplit(PD, start);
    assert LargeBlockAt(r, top, BlockOf(PD, start));
  }

  lemma {:induction false} UnambiguousTable(list: seq<Mapping>, allow: Level, top: Level, l: Level, base: nat)
    requires forall i :: 0 <= i < |list| ==> !Ambiguous(list[i], top)
    requires base % (512 * Size(l)) == 0 && base + 512 * Size(l) <= Span(top)
    ensures AgreeTable(list, allow, l, base)
    decreases l, 1
  {
    forall i | 0 <= i < 512 ensures AgreeSlot(list, allow, l, SlotStart(l, base, i)) {
      SubBlock(l, base, i);
      UnambiguousAgrees(list, allow, top, l, SlotStart(l, base, i));
    }
  }

  lemma AgreeDown(list: seq<Mapping>, allow: Level, l: Level, a: nat)
    requires l > PT && AgreeSlot(list, allow, l, BlockOf(l, a))
    requires var lo, hi := BlockOf(l, a), BlockOf(l, a) + Size(l);
      Overlap(list, lo, hi) != [] && !CanBeHuge(Overlap(list, lo, hi), l, allow, lo, hi)
    ensures AgreeSlot(list, allow, l - 1, BlockOf(l - 1, a))
  {
    var lo := BlockOf(l, a);
    assert AgreeTable(list, allow, l - 1, lo);
    SizeStep(l);
    BlockSplit(l, a);
    IndexOfBlock(l - 1, lo, a);
    assert SlotStart(l - 1, lo, Index(l - 1, a)) == BlockOf(l - 1, a);
  }

  /** The large leaf around an address comes from the mapping that covers the address's 2 MiB block. */
  lemma {:induction false} AgreeAt(list: seq<Mapping>, allow: Level, l: Level, a: nat, i: nat)
    requires IsNormal(list) && PD <= allow <= PDPT && l >= PD && i < |list|
    requires list[i].range.Covers(BlockOf(PD, a), BlockOf(PD, a) + Size(PD))
    requires AgreeSlot(list, allow, l, BlockOf(l, a))
    ensures SameHugeBits(list[i].flags)
    decreases l
  {
    var lo, hi := BlockOf(l, a), BlockOf(l, a) + Size(l);
    BlocksNest(l, PD, a);
    CoveredWithin(list, i, BlockOf(PD, a), BlockOf(PD, a) + Size(PD), lo, hi);
    HugeIffCovered(list, allow, l, lo, hi);
    if CanBeHuge(Overlap(list, lo, hi), l, allow, lo, hi) {
      assert Overlap(list, lo, hi) == [list[i]];
    } else if l > PD {
      AgreeDown(list, allow, l, a);
      AgreeAt(list, allow, l - 1, a, i);
    }
  }

  /** A mapping that meets a block is among those found for it. */
  lemma CoveredWithin(list: seq<Mapping>, i: nat, lo: nat, hi: nat, lo': nat, hi': nat)
    requires i < |list| && lo < hi && list[i].range.Covers(lo, hi) && lo' <= lo && hi <= hi'
    ensures list[i] in Overlap(list, lo', hi')
  {
    OverlapComplete(list, lo', hi', i);
  }

  /**
    The condition a caller can check: on a normal list, with large pages allowed up to 1 GiB,
    update equals rebuild from every table exactly when no range that covers a 2 MiB block carries
    HUGE without PAT.
   */
  lemma UpdateIsRebuildIffUnambiguous(list: seq<Mapping>, allow: Level, top: Level)
    requires IsNormal(list) && PD <= allow <= PDPT && top >= PD
    ensures AgreeTable(list, allow, top, 0) <==> forall i :: 0 <= i < |list| ==> !Ambiguous(list[i], top)
  {
    if forall i :: 0 <= i < |list| ==> !Ambiguous(list[i], top) {
      UnambiguousTable(list, allow, top, top, 0);
    }
    if AgreeTable(list, allow, top, 0) {
      forall i | 0 <= i < |list| ensures !Ambiguous(list[i], top) {
        if HasLargeBlock(list[i].range, top) {
          var b :| LargeBlockAt(list[i].range, top, b);
          BlockUnique(PD, b, b);
          IndexOfBlock(top, 0, b);
          assert SlotStart(top, 0, Index(top, b)) == BlockOf(top, b);
          AgreeAt(list, allow, top, b, i);
        }
      }
    }
  }

  /** A concrete list whose own table changes when it is updated with the list it was built from. */
  lemma HugeFlagUpdateDiffers()
    ensures var f := Flags(1, false, false, false, true);
      var list := [Mapping(Range(0, Size(PD)), f)];
      RenewedTable(WantedTable(list, PD, PML4, 0), list, PD, PML4, 0) != WantedTable(list, PD, PML4, 0)
  {
    var list := [Mapping(Range(0, Size(PD)), Flags(1, false, false, false, true))];
    assert LargeBlockAt(list[0].range, PML4, 0);
    assert Ambiguous(list[0], PML4);
    UpdateIsRebuildIffUnambiguous(list, PD, PML4);
    if RenewedTable(WantedTable(list, PD, PML4, 0), list, PD, PML4, 0) == WantedTable(list, PD, PML4, 0) {
      SelfRenewTable(list, PD, PML4, 0);
    }
  }
}
