/**
  Large pages are used wherever they can be: no table built for a normal list holds 512 leaves
  with equal bits where one large leaf would do.
 */
module LargePages {
  import opened Options
  import opened Mappings
  import opened Entries
  import opened PageTrees
  import opened Renewal
  import opened Arith

  /** A table of leaves that all carry the same attribute bits. */
  ghost predicate EqualLeaves(slots: seq<Shape>) {
    && |slots| == 512 && slots[0].Entry?
    && forall i :: 0 <= i < 512 ==>
      slots[i].Entry? && IsPresent(slots[i].raw) && AttrOf(slots[i].raw) == AttrOf(slots[0].raw)
  }

  /** No entry below `s` points to such a table where its level allows a large leaf. */
  ghost predicate NoWastedTable(s: Shape, l: Level, allow: Level)
    decreases l
  {
    match s
    case Entry(_) => true
    case Table(_, slots) =>
      l > PT && (l <= allow ==> !EqualLeaves(slots)) &&
      forall i :: 0 <= i < |slots| ==> NoWastedTable(slots[i], l - 1, allow)
  }

  ghost predicate AllPlain(list: seq<Mapping>) {
    forall i :: 0 <= i < |list| ==> Plain(list[i].flags)
  }

  lemma FlagsDifferWhereRangesMeet(list: seq<Mapping>, c: nat, d: nat, mid: nat)
    requires IsNormal(list) && c < d < |list|
    requires list[c].range.End() >= mid && list[d].range.start <= mid
    ensures list[c].flags != list[d].flags
  {
    assert list[c].range.End() <= list[c + 1].range.start;
    assert list[c + 1].range.len > 0;
    assert !Fusable(list[c], list[c + 1]);
  }

  // ---------- in terms of the meaning ----------

  /** Every address of the block is mapped with the same flags. */
  ghost predicate OneMeaning(list: seq<Mapping>, lo: nat, hi: nat, f: Flags) {
    forall a :: lo <= a < hi ==> LastWriter(list, a) == Some(f)
  }

  ghost predicate MappedAlike(list: seq<Mapping>, lo: nat, hi: nat) {
    exists f :: OneMeaning(list, lo, hi, f)
  }

  lemma CoveredMeaning(list: seq<Mapping>, lo: nat, hi: nat, i: nat)
    requires IsNormal(list) && i < |list| && list[i].range.Covers(lo, hi)
    ensures OneMeaning(list, lo, hi, list[i].flags)
  {
    NormalDisjoint(list);
    forall a | lo <= a < hi ensures LastWriter(list, a) == Some(list[i].flags) {
      DisjointWriter(list, a, i);
    }
  }

  /** The range that holds the first address of such a block holds all of it: the next would have fused. */
  lemma MeaningCovered(list: seq<Mapping>, lo: nat, hi: nat, f: Flags) returns (i: nat)
    requires IsNormal(list) && lo < hi && OneMeaning(list, lo, hi, f)
    ensures i < |list| && list[i].range.Covers(lo, hi)
  {
    NormalDisjoint(list);
    i := LastWriterWitness(list, lo);
    DisjointWriter(list, lo, i);
    if list[i].range.End() < hi {
      var e := list[i].range.End();
      assert LastWriter(list, e) == Some(f);
      var j := LastWriterWitness(list, e);
      DisjointWriter(list, e, j);
      assert i < j;
      FlagsDifferWhereRangesMeet(list, i, j, e);
    }
  }

  /**
    Large leaves are used exactly where the meaning allows them: a block whose level permits it
    becomes one leaf if and only if all its addresses are mapped with the same flags.
   */
  lemma LargeLeafIff(list: seq<Mapping>, allow: Level, l: Level, start: nat)
    requires IsNormal(list) && PT < l <= allow
    ensures CanBeHuge(Overlap(list, start, start + Size(l)), l, allow, start, start + Size(l)) <==>
            MappedAlike(list, start, start + Size(l))
  {
    var hi := start + Size(l);
    HugeIffCovered(list, allow, l, start, hi);
    if SomeRangeCovers(list, start, hi) {
      var i :| 0 <= i < |list| && list[i].range.Covers(start, hi);
      CoveredMeaning(list, start, hi, i);
    }
    if MappedAlike(list, start, hi) {
      var f :| OneMeaning(list, start, hi, f);
      var i := MeaningCovered(list, start, hi, f);
    }
  }

  // ---------- leaves, from the meaning ----------

  /** The attribute bits of a leaf. */
  function LeafBits(k: Level, f: Flags): nat {
    LeafLow(k, f) + Nx(f)
  }

  /** The block is mapped with the flags `f` throughout, and its level can be a leaf. */
  ghost predicate LeafWith(list: seq<Mapping>, allow: Level, k: Level, b: nat, f: Flags) {
    k <= PDPT && (k == PT || k <= allow) && OneMeaning(list, b, b + Size(k), f)
  }

  ghost predicate LeafOf(list: seq<Mapping>, c: nat, l: Level, start: nat, raw: nat) {
    && c < |list| && list[c].range.Covers(start, start + Size(l))
    && AttrOf(raw) == LeafLow(l, list[c].flags) + Nx(list[c].flags)
  }

  /** A present leaf comes from a range that covers its block. */
  lemma LeafSource(list: seq<Mapping>, allow: Level, l: Level, start: nat) returns (c: nat)
    requires Mappable(list) && start % Size(l) == 0
    requires var s := BuildSlot(list, allow, l, start); s.Entry? && IsPresent(s.raw)
    ensures LeafOf(list, c, l, start, BuildSlot(list, allow, l, start).raw)
  {
    var hi := start + Size(l);
    var sub := Overlap(list, start, hi);
    assert sub != [];
    if l == PT {
      PageCovered(list, start);
    }
    OverlapSound(list, start, hi, 0);
    c :| 0 <= c < |list| && list[c] == sub[0];
    CoveredFits(list, start, hi);
    assert l <= PDPT;
    LeafDecode(l, start, sub[0].flags);
  }

  /** A present leaf is a block that is mapped alike, and shows the bits of those flags. */
  lemma MeaningOfLeaf(list: seq<Mapping>, allow: Level, k: Level, b: nat) returns (f: Flags)
    requires IsNormal(list) && Mappable(list) && b % Size(k) == 0
    requires var s := WantedSlot(list, allow, k, b); s.Entry? && IsPresent(s.raw)
    ensures LeafWith(list, allow, k, b, f) && AttrOf(WantedSlot(list, allow, k, b).raw) == LeafBits(k, f)
  {
    var c := LeafSource(list, allow, k, b);
    f := list[c].flags;
    CoveredMeaning(list, b, b + Size(k), c);
    assert k <= PDPT;
  }

  /** The one mapping that meets a block mapped alike. */
  lemma OverlapOfMeaning(list: seq<Mapping>, k: Level, b: nat, f: Flags)
    requires IsNormal(list) && OneMeaning(list, b, b + Size(k), f)
    ensures var sub := Overlap(list, b, b + Size(k));
      |sub| == 1 && sub[0] in list && sub[0].range.Covers(b, b + Size(k)) && sub[0].flags == f
  {
    var hi := b + Size(k);
    var i := MeaningCovered(list, b, hi, f);
    CoveredMeaning(list, b, hi, i);
    assert LastWriter(list, b) == Some(f) == Some(list[i].flags);
    OverlapOfCovered(list, b, hi, i);
  }

  lemma SlotOfSingle(list: seq<Mapping>, allow: Level, k: Level, b: nat)
    requires k == PT || k <= allow
    requires var sub := Overlap(list, b, b + Size(k)); |sub| == 1 && sub[0].range.Covers(b, b + Size(k))
    ensures WantedSlot(list, allow, k, b) == Entry(LeafEntry(k, b, Overlap(list, b, b + Size(k))[0].flags))
  {
  }

  /** And such a block becomes a present leaf. */
  lemma LeafOfMeaning(list: seq<Mapping>, allow: Level, k: Level, b: nat, f: Flags)
    requires IsNormal(list) && Mappable(list) && b % Size(k) == 0 && LeafWith(list, allow, k, b, f)
    ensures WantedSlot(list, allow, k, b) == Entry(LeafEntry(k, b, f))
    ensures IsPresent(LeafEntry(k, b, f)) && AttrOf(LeafEntry(k, b, f)) == LeafBits(k, f)
  {
    OverlapOfMeaning(list, k, b, f);
    SlotOfSingle(list, allow, k, b);
    LeafDecode(k, b, f);
  }

  // ---------- 512 leaves that look alike ----------

  ghost predicate SlotLeaf(list: seq<Mapping>, allow: Level, k: Level, base: nat, i: nat, bits: nat) {
    exists f :: LeafWith(list, allow, k, SlotStart(k, base, i), f) && LeafBits(k, f) == bits
  }

  ghost predicate SlotsLook(list: seq<Mapping>, allow: Level, k: Level, base: nat, bits: nat) {
    forall i :: 0 <= i < 512 ==> SlotLeaf(list, allow, k, base, i, bits)
  }

  /** All 512 blocks of a table are leaves with the same bits. */
  ghost predicate LooksUniform(list: seq<Mapping>, allow: Level, k: Level, base: nat) {
    exists bits :: SlotsLook(list, allow, k, base, bits)
  }

  /** An entry that is a present leaf with the given bits. */
  predicate ShowsBits(s: Shape, bits: nat) {
    s.Entry? && IsPresent(s.raw) && AttrOf(s.raw) == bits
  }

  lemma SlotShows(list: seq<Mapping>, allow: Level, k: Level, base: nat, i: nat, bits: nat)
    requires IsNormal(list) && Mappable(list) && base % (512 * Size(k)) == 0 && i < 512
    ensures ShowsBits(WantedSlot(list, allow, k, SlotStart(k, base, i)), bits) <==> SlotLeaf(list, allow, k, base, i, bits)
  {
    SubBlock(k, base, i);
    var start := SlotStart(k, base, i);
    if ShowsBits(WantedSlot(list, allow, k, start), bits) {
      var f := MeaningOfLeaf(list, allow, k, start);
      assert LeafWith(list, allow, k, SlotStart(k, base, i), f);
    }
    if SlotLeaf(list, allow, k, base, i, bits) {
      var f :| LeafWith(list, allow, k, SlotStart(k, base, i), f) && LeafBits(k, f) == bits;
      LeafOfMeaning(list, allow, k, start, f);
    }
  }

  lemma EqualLeavesShow(slots: seq<Shape>, bits: nat)
    requires |slots| == 512 && forall i :: 0 <= i < 512 ==> ShowsBits(slots[i], bits)
    ensures EqualLeaves(slots)
  {
  }

  lemma TableShows(list: seq<Mapping>, allow: Level, k: Level, base: nat, bits: nat)
    requires IsNormal(list) && Mappable(list) && base % (512 * Size(k)) == 0
    ensures var slots := WantedTable(list, allow, k, base);
      |slots| == 512 &&
      ((forall i :: 0 <= i < 512 ==> ShowsBits(slots[i], bits)) <==> SlotsLook(list, allow, k, base, bits))
  {
    var slots := WantedTable(list, allow, k, base);
    SlotOfTable(list, allow, k, base, 0);
    forall i | 0 <= i < 512 ensures ShowsBits(slots[i], bits) <==> SlotLeaf(list, allow, k, base, i, bits) {
      SlotOfTable(list, allow, k, base, i);
      SlotShows(list, allow, k, base, i, bits);
    }
  }

  lemma EqualLeavesIff(list: seq<Mapping>, allow: Level, k: Level, base: nat)
    requires IsNormal(list) && Mappable(list) && base % (512 * Size(k)) == 0
    ensures EqualLeaves(WantedTable(list, allow, k, base)) <==> LooksUniform(list, allow, k, base)
  {
    var slots := WantedTable(list, allow, k, base);
    if EqualLeaves(slots) {
      var bits := AttrOf(slots[0].raw);
      assert forall i :: 0 <= i < 512 ==> ShowsBits(slots[i], bits);
      TableShows(list, allow, k, base, bits);
    }
    if LooksUniform(list, allow, k, base) {
      var bits :| SlotsLook(list, allow, k, base, bits);
      TableShows(list, allow, k, base, bits);
      EqualLeavesShow(slots, bits);
    }
  }

  lemma LooksMapped(list: seq<Mapping>, allow: Level, k: Level, base: nat)
    requires LooksUniform(list, allow, k, base)
    ensures LastWriter(list, base).Some?
  {
    var bits :| SlotsLook(list, allow, k, base, bits);
    assert SlotLeaf(list, allow, k, base, 0, bits);
    var f :| LeafWith(list, allow, k, SlotStart(k, base, 0), f);
    assert LastWriter(list, base) == Some(f);
  }

  // ---------- exactly when a table is wasted ----------

  /** A block that could be a large leaf, looks like one when cut into 512, and is not mapped alike. */
  ghost predicate WasteAt(list: seq<Mapping>, allow: Level, k: Level, b: nat) {
    PT < k <= allow && LooksUniform(list, allow, k - 1, b) && !MappedAlike(list, b, b + Size(k))
  }

  /** An aligned block of level `k`, above a page, inside the block of level `l` at `start`. */
  predicate Inside(k: Level, b: nat, l: Level, start: nat) {
    PT < k <= l && b % Size(k) == 0 && start <= b && b + Size(k) <= start + Size(l)
  }

  ghost predicate NoWaste(list: seq<Mapping>, allow: Level, l: Level, start: nat) {
    forall k: Level, b: nat :: Inside(k, b, l, start) ==> !WasteAt(list, allow, k, b)
  }

  /** In a block that is not mapped at all nothing is wasted. */
  lemma EmptyNoWaste(list: seq<Mapping>, allow: Level, l: Level, start: nat)
    requires Overlap(list, start, start + Size(l)) == []
    ensures NoWaste(list, allow, l, start)
  {
    forall k: Level, b: nat | Inside(k, b, l, start) ensures !WasteAt(list, allow, k, b) {
      EmptyBlock(list, start, start + Size(l), b);
      if LooksUniform(list, allow, k - 1, b) {
        LooksMapped(list, allow, k - 1, b);
      }
    }
  }

  /** Nor in a block that one range covers. */
  lemma CoveredNoWaste(list: seq<Mapping>, allow: Level, l: Level, start: nat)
    requires IsNormal(list) && SomeRangeCovers(list, start, start + Size(l))
    ensures NoWaste(list, allow, l, start)
  {
    var i :| 0 <= i < |list| && list[i].range.Covers(start, start + Size(l));
    forall k: Level, b: nat | Inside(k, b, l, start) ensures !WasteAt(list, allow, k, b) {
      CoveredMeaning(list, b, b + Size(k), i);
      assert MappedAlike(list, b, b + Size(k));
    }
  }

  /** A block strictly inside another lies inside one of its 512 parts. */
  lemma InsidePart(k: Level, b: nat, l: Level, start: nat) returns (i: nat)
    requires Inside(k, b, l, start) && k < l && start % Size(l) == 0
    ensures i < 512 && Inside(k, b, l - 1, SlotStart(l - 1, start, i))
  {
    SizeStep(l);
    i := Index(l - 1, b);
    IndexOfBlock(l - 1, start, b);
    BlockUnique(k, b, b);
    BlocksNest(l - 1, k, b);
  }

  lemma InsideWhole(k: Level, b: nat, l: Level, start: nat, i: nat)
    requires l > PT && i < 512 && Inside(k, b, l - 1, SlotStart(l - 1, start, i))
    ensures Inside(k, b, l, start)
  {
    SizeStep(l);
    SlotInside(l - 1, start, i);
  }

  lemma OnlyItself(b: nat, l: Level, start: nat)
    requires Inside(l, b, l, start)
    ensures b == start
  {
  }

  /** Waste in a block is waste of the block itself or waste in one of its parts. */
  lemma NoWasteParts(list: seq<Mapping>, allow: Level, k: Level, start: nat)
    requires k < PML5 && start % Size(k + 1) == 0
    ensures NoWaste(list, allow, k + 1, start) <==> !WasteAt(list, allow, k + 1, start) && PartsFrugal(list, allow, k, start)
  {
    if NoWaste(list, allow, k + 1, start) {
      assert Inside(k + 1, start, k + 1, start);
      forall i | 0 <= i < 512 ensures Frugal(list, allow, k, SlotStart(k, start, i)) {
        PartHasNoWaste(list, allow, k, start, i);
      }
    }
    if !WasteAt(list, allow, k + 1, start) && PartsFrugal(list, allow, k, start) {
      forall j: Level, b: nat | Inside(j, b, k + 1, start) ensures !WasteAt(list, allow, j, b) {
        if j == k + 1 {
          OnlyItself(b, k + 1, start);
        } else {
          var i := InsidePart(j, b, k + 1, start);
          assert Frugal(list, allow, k, SlotStart(k, start, i));
        }
      }
    }
  }

  lemma PartHasNoWaste(list: seq<Mapping>, allow: Level, k: Level, start: nat, i: nat)
    requires k < PML5 && NoWaste(list, allow, k + 1, start) && i < 512
    ensures NoWaste(list, allow, k, SlotStart(k, start, i))
  {
    forall j: Level, b: nat | Inside(j, b, k, SlotStart(k, start, i)) ensures !WasteAt(list, allow, j, b) {
      InsideWhole(j, b, k + 1, start, i);
    }
  }

  lemma NotMappedAlike(list: seq<Mapping>, allow: Level, l: Level, start: nat)
    requires IsNormal(list) && NeedsTable(list, allow, l, start) && l <= allow
    ensures !MappedAlike(list, start, start + Size(l))
  {
    LargeLeafIff(list, allow, l, start);
  }

  /** A table that was built is wasted exactly when its block is. */
  lemma TableWasted(list: seq<Mapping>, allow: Level, l: Level, start: nat)
    requires IsNormal(list) && Mappable(list) && start % Size(l) == 0 && NeedsTable(list, allow, l, start)
    ensures l <= allow && EqualLeaves(WantedTable(list, allow, l - 1, start)) <==> WasteAt(list, allow, l, start)
  {
    TableAligned(l, start);
    EqualLeavesIff(list, allow, l - 1, start);
    if l <= allow {
      NotMappedAlike(list, allow, l, start);
    }
  }

  lemma NoTableNoWaste(list: seq<Mapping>, allow: Level, l: Level, start: nat)
    requires IsNormal(list) && !NeedsTable(list, allow, l, start)
    ensures NoWaste(list, allow, l, start)
  {
    var hi := start + Size(l);
    if Overlap(list, start, hi) == [] {
      EmptyNoWaste(list, allow, l, start);
    } else if l > PT {
      HugeIffCovered(list, allow, l, start, hi);
      CoveredNoWaste(list, allow, l, start);
    }
  }

  /** Names used where only the truth of the two sides matters, not how they unfold. */
  ghost predicate Clean(s: Shape, l: Level, allow: Level) { NoWastedTable(s, l, allow) }

  ghost predicate Frugal(list: seq<Mapping>, allow: Level, l: Level, start: nat) { NoWaste(list, allow, l, start) }

  ghost predicate PartsClean(slots: seq<Shape>, k: Level, allow: Level) {
    forall i :: 0 <= i < |slots| ==> Clean(slots[i], k, allow)
  }

  ghost predicate PartsFrugal(list: seq<Mapping>, allow: Level, k: Level, base: nat) {
    forall i :: 0 <= i < 512 ==> Frugal(list, allow, k, SlotStart(k, base, i))
  }

  lemma FrugalBlock(list: seq<Mapping>, allow: Level, k: Level, start: nat)
    requires k < PML5 && start % Size(k + 1) == 0
    ensures Frugal(list, allow, k + 1, start) <==> !WasteAt(list, allow, k + 1, start) && PartsFrugal(list, allow, k, start)
  {
    NoWasteParts(list, allow, k, start);
  }

  /** A table is clean when it is no waste itself and its parts are clean. */
  lemma CleanTable(s: Shape, slots: seq<Shape>, l: Level, allow: Level, waste: bool, frugal: bool)
    requires l > PT && s == Table(RELAY_BITS, slots)
    requires waste <==> l <= allow && EqualLeaves(slots)
    requires frugal <==> PartsClean(slots, l - 1, allow)
    ensures Clean(s, l, allow) <==> !waste && frugal
  {
  }

  /** The blocks that need a table, given the equivalence for the parts. */
  lemma TableCleanIff(list: seq<Mapping>, allow: Level, l: Level, start: nat, k: Level)
    requires IsNormal(list) && Mappable(list) && start % Size(l) == 0 && NeedsTable(list, allow, l, start) && k == l - 1
    requires PartsClean(WantedTable(list, allow, k, start), k, allow) <==> PartsFrugal(list, allow, k, start)
    ensures Clean(WantedSlot(list, allow, l, start), l, allow) <==>
            !WasteAt(list, allow, l, start) && PartsFrugal(list, allow, k, start)
  {
    TableOfSlot(list, allow, l, start);
    TableWasted(list, allow, l, start);
    CleanTable(WantedSlot(list, allow, l, start), WantedTable(list, allow, l - 1, start), l, allow,
      WasteAt(list, allow, l, start), PartsFrugal(list, allow, l - 1, start));
  }

  lemma EntryClean(list: seq<Mapping>, allow: Level, l: Level, start: nat)
    requires IsNormal(list) && !NeedsTable(list, allow, l, start)
    ensures Clean(WantedSlot(list, allow, l, start), l, allow) && Frugal(list, allow, l, start)
  {
    EntryOfSlot(list, allow, l, start);
    NoTableNoWaste(list, allow, l, start);
  }

  lemma TableAligned(l: Level, start: nat)
    requires l > PT && start % Size(l) == 0
    ensures start % (512 * Size(l - 1)) == 0
  {
    SizeStep(l);
  }

  lemma FrugalHere(list: seq<Mapping>, allow: Level, l: Level, start: nat)
    requires l > PT && start % Size(l) == 0
    ensures Frugal(list, allow, l, start) <==> !WasteAt(list, allow, l, start) && PartsFrugal(list, allow, l - 1, start)
  {
    FrugalBlock(list, allow, l - 1, start);
  }

  lemma SameTruth(clean: bool, frugal: bool, waste: bool, parts: bool)
    requires clean <==> !waste && parts
    requires frugal <==> !waste && parts
    ensures clean <==> frugal
  {
  }

  lemma {:induction false} TableCleanHere(list: seq<Mapping>, allow: Level, l: Level, start: nat)
    requires IsNormal(list) && Mappable(list) && start % Size(l) == 0 && NeedsTable(list, allow, l, start)
    ensures Clean(WantedSlot(list, allow, l, start), l, allow) <==>
            !WasteAt(list, allow, l, start) && PartsFrugal(list, allow, l - 1, start)
    decreases l, 0
  {
    var k: Level := l - 1;
    TableAligned(l, start);
    PartsCleanIff(list, allow, k, start);
    TableCleanIff(list, allow, l, start, k);
  }

  lemma {:induction false} SlotCleanIff(list: seq<Mapping>, allow: Level, l: Level, start: nat)
    requires IsNormal(list) && Mappable(list) && start % Size(l) == 0
    ensures Clean(WantedSlot(list, allow, l, start), l, allow) <==> Frugal(list, allow, l, start)
    decreases l, 1
  {
    if NeedsTable(list, allow, l, start) {
      TableCleanHere(list, allow, l, start);
      FrugalHere(list, allow, l, start);
      SameTruth(Clean(WantedSlot(list, allow, l, start), l, allow), Frugal(list, allow, l, start),
        WasteAt(list, allow, l, start), PartsFrugal(list, allow, l - 1, start));
    } else {
      EntryClean(list, allow, l, start);
    }
  }

  lemma {:induction false} PartCleanIff(list: seq<Mapping>, allow: Level, k: Level, base: nat, slots: seq<Shape>, i: nat)
    requires IsNormal(list) && Mappable(list) && base % (512 * Size(k)) == 0 && i < 512
    requires |slots| == 512 && slots[i] == WantedSlot(list, allow, k, SlotStart(k, base, i))
    ensures Clean(slots[i], k, allow) <==> Frugal(list, allow, k, SlotStart(k, base, i))
    decreases k, 2
  {
    SubBlock(k, base, i);
    SlotCleanIff(list, allow, k, SlotStart(k, base, i));
  }

  lemma {:induction false} PartsCleanOf(list: seq<Mapping>, allow: Level, k: Level, base: nat, slots: seq<Shape>)
    requires IsNormal(list) && Mappable(list) && base % (512 * Size(k)) == 0
    requires |slots| == 512 && forall i :: 0 <= i < 512 ==> slots[i] == WantedSlot(list, allow, k, SlotStart(k, base, i))
    ensures PartsClean(slots, k, allow) <==> PartsFrugal(list, allow, k, base)
    decreases k, 3
  {
    forall i | 0 <= i < 512 ensures Clean(slots[i], k, allow) <==> Frugal(list, allow, k, SlotStart(k, base, i)) {
      PartCleanIff(list, allow, k, base, slots, i);
    }
  }

  lemma {:induction false} PartsCleanIff(list: seq<Mapping>, allow: Level, k: Level, base: nat)
    requires IsNormal(list) && Mappable(list) && base % (512 * Size(k)) == 0
    ensures PartsClean(WantedTable(list, allow, k, base), k, allow) <==> PartsFrugal(list, allow, k, base)
    decreases k, 4
  {
    PartsCleanOf(list, allow, k, base, WantedTable(list, allow, k, base));
  }

  /**
    Exactly when no table is wasted, for every normal list and at every depth: when every block that
    would look like 512 equal leaves is mapped alike, so that it became one leaf instead.
   */
  lemma NothingWastedIff(list: seq<Mapping>, allow: Level, l: Level, start: nat)
    requires IsNormal(list) && Mappable(list) && start % Size(l) == 0
    ensures NoWastedTable(WantedSlot(list, allow, l, start), l, allow) <==> NoWaste(list, allow, l, start)
  {
    SlotCleanIff(list, allow, l, start);
  }

  // ---------- updated tables ----------

  /** The same tables, and entries that are present alike, all with the same attribute bits. */
  ghost predicate Alike(s: Shape, t: Shape)
    decreases s
  {
    match (s, t)
    case (Entry(r), Entry(q)) => (IsPresent(r) <==> IsPresent(q)) && AttrOf(r) == AttrOf(q)
    case (Table(b, ss), Table(c, ts)) => b == c && |ss| == |ts| && forall i :: 0 <= i < |ss| ==> Alike(ss[i], ts[i])
    case _ => false
  }

  ghost predicate AllAlike(ss: seq<Shape>, ts: seq<Shape>) {
    |ss| == |ts| && forall i :: 0 <= i < |ss| ==> Alike(ss[i], ts[i])
  }

  lemma {:induction false} AlikeSelf(s: Shape)
    ensures Alike(s, s)
    decreases s
  {
    if s.Table? {
      forall i | 0 <= i < |s.slots| ensures Alike(s.slots[i], s.slots[i]) {
        AlikeSelf(s.slots[i]);
      }
    }
  }

  lemma AllAlikeEqualLeaves(ss: seq<Shape>, ts: seq<Shape>)
    requires AllAlike(ss, ts) && EqualLeaves(ss)
    ensures EqualLeaves(ts)
  {
    assert Alike(ss[0], ts[0]);
    forall i | 0 <= i < 512
      ensures ts[i].Entry? && IsPresent(ts[i].raw) && AttrOf(ts[i].raw) == AttrOf(ts[0].raw)
    {
      assert Alike(ss[i], ts[i]) && ss[i].Entry?;
    }
  }

  lemma {:induction false} AlikeSym(s: Shape, t: Shape)
    requires Alike(s, t)
    ensures Alike(t, s)
    decreases s
  {
    if s.Table? {
      forall i | 0 <= i < |s.slots| ensures Alike(t.slots[i], s.slots[i]) {
        AlikeSym(s.slots[i], t.slots[i]);
      }
    }
  }

  /** Whether a table is wasted shows in presence and attribute bits alone. */
  lemma {:induction false} AlikeWasted(s: Shape, t: Shape, l: Level, allow: Level)
    requires Alike(s, t) && NoWastedTable(s, l, allow)
    ensures NoWastedTable(t, l, allow)
    decreases l
  {
    if t.Table? {
      AlikeSym(s, t);
      if EqualLeaves(t.slots) {
        AllAlikeEqualLeaves(t.slots, s.slots);
      }
      forall i | 0 <= i < |t.slots| ensures NoWastedTable(t.slots[i], l - 1, allow) {
        AlikeWasted(s.slots[i], t.slots[i], l - 1, allow);
      }
    }
  }

  lemma AlikeWastedIff(s: Shape, t: Shape, l: Level, allow: Level)
    requires Alike(s, t)
    ensures NoWastedTable(s, l, allow) <==> NoWastedTable(t, l, allow)
  {
    AlikeSym(s, t);
    if NoWastedTable(s, l, allow) { AlikeWasted(s, t, l, allow); }
    if NoWastedTable(t, l, allow) { AlikeWasted(t, s, l, allow); }
  }

  /** Builder and updater write large leaves with the same attribute bits, for all flags. */
  lemma LargeLeavesAlike(l: Level, start: nat, f: Flags)
    requires l != PT && start % Size(l) == 0 && start < PHYS_LIMIT
    ensures Alike(Entry(UpdaterHugeEntry(l, start, f)), Entry(BuilderHugeEntry(l, start, f)))
  {
    if l <= PDPT {
      UpdaterAsBuilder(l, start, f);
      LeafDecode(l, start, f);
      LeafDecode(l, start, f.(huge := false));
    }
  }

  /** Where no table goes, update and build leave entries that are alike. */
  lemma RenewedLeafAlike(was: Shape, list: seq<Mapping>, allow: Level, l: Level, start: nat)
    requires AllWithin(list, PHYS_LIMIT) && start % Size(l) == 0 && !NeedsTable(list, allow, l, start)
    ensures Alike(RenewedSlot(was, list, allow, l, start), WantedSlot(list, allow, l, start))
  {
    var sub := Overlap(list, start, start + Size(l));
    if sub != [] {
      OverlapSound(list, start, start + Size(l), 0);
      if CanBeHuge(sub, l, allow, start, start + Size(l)) {
        LargeLeavesAlike(l, start, sub[0].flags);
      }
    }
  }

  lemma TablesAlike(s: Shape, ss: seq<Shape>, t: Shape, ts: seq<Shape>)
    requires s == Table(RELAY_BITS, ss) && t == Table(RELAY_BITS, ts) && AllAlike(ss, ts)
    ensures Alike(s, t)
  {
  }

  /** What an update leaves is alike to what a build leaves, whatever was there before. */
  lemma {:induction false} RenewedAlike(was: Shape, list: seq<Mapping>, allow: Level, l: Level, start: nat)
    requires AllWithin(list, PHYS_LIMIT) && start % Size(l) == 0
    ensures Alike(RenewedSlot(was, list, allow, l, start), WantedSlot(list, allow, l, start))
    decreases l, 0
  {
    if NeedsTable(list, allow, l, start) {
      TableAligned(l, start);
      RenewedBelow(was, list, allow, l, start);
      TableOfSlot(list, allow, l, start);
      var ts := WantedTable(list, allow, l - 1, start);
      if was.Table? && |was.slots| == 512 {
        RenewedTableAlike(was.slots, list, allow, l - 1, start);
        TablesAlike(RenewedSlot(was, list, allow, l, start), RenewedTable(was.slots, list, allow, l - 1, start),
          WantedSlot(list, allow, l, start), ts);
      } else {
        AlikeSelf(Table(RELAY_BITS, ts));
      }
    } else {
      RenewedLeafAlike(was, list, allow, l, start);
    }
  }

  lemma {:induction false} RenewedPartAlike(was: seq<Shape>, list: seq<Mapping>, allow: Level, k: Level, base: nat,
                                            ss: seq<Shape>, ts: seq<Shape>, i: nat)
    requires |was| == 512 && AllWithin(list, PHYS_LIMIT) && base % (512 * Size(k)) == 0 && i < 512
    requires |ss| == 512 && ss[i] == RenewedSlot(was[i], list, allow, k, SlotStart(k, base, i))
    requires |ts| == 512 && ts[i] == WantedSlot(list, allow, k, SlotStart(k, base, i))
    ensures Alike(ss[i], ts[i])
    decreases k, 1
  {
    SubBlock(k, base, i);
    RenewedAlike(was[i], list, allow, k, SlotStart(k, base, i));
  }

  lemma {:induction false} RenewedTableAlike(was: seq<Shape>, list: seq<Mapping>, allow: Level, k: Level, base: nat)
    requires |was| == 512 && AllWithin(list, PHYS_LIMIT) && base % (512 * Size(k)) == 0
    ensures AllAlike(RenewedTable(was, list, allow, k, base), WantedTable(list, allow, k, base))
    decreases k, 2
  {
    var ss, ts := RenewedTable(was, list, allow, k, base), WantedTable(list, allow, k, base);
    RenewedSlotOfTable(was, list, allow, k, base, 0);
    SlotOfTable(list, allow, k, base, 0);
    forall i | 0 <= i < 512 ensures Alike(ss[i], ts[i]) {
      RenewedSlotOfTable(was, list, allow, k, base, i);
      SlotOfTable(list, allow, k, base, i);
      RenewedPartAlike(was, list, allow, k, base, ss, ts, i);
    }
  }

  lemma ShapedAlike(slots: seq<Shape>, list: seq<Mapping>, allow: Level, l: Level)
    requires Shaped(slots, list, allow, l) && AllWithin(list, PHYS_LIMIT)
    ensures AllAlike(slots, WantedTable(list, allow, l, 0))
  {
    if slots == WantedTable(list, allow, l, 0) {
      forall i | 0 <= i < |slots| ensures Alike(slots[i], slots[i]) {
        AlikeSelf(slots[i]);
      }
    } else {
      var was :| |was| == 512 && slots == RenewedTable(was, list, allow, l, 0);
      RenewedTableAlike(was, list, allow, l, 0);
    }
  }

  lemma AlikeCleanIff(s: Shape, built: Shape, list: seq<Mapping>, allow: Level, l: Level, start: nat)
    requires IsNormal(list) && Mappable(list) && start % Size(l) == 0
    requires Alike(s, built) && built == WantedSlot(list, allow, l, start)
    ensures Clean(s, l, allow) <==> Frugal(list, allow, l, start)
  {
    AlikeWastedIff(s, built, l, allow);
    SlotCleanIff(list, allow, l, start);
  }

  /** The exact condition for every entry of a table that was built or updated, for all flags. */
  lemma ShapedWastedIff(slots: seq<Shape>, list: seq<Mapping>, allow: Level, l: Level, i: nat)
    requires IsNormal(list) && Mappable(list) && Shaped(slots, list, allow, l) && i < 512
    ensures |slots| == 512
    ensures NoWastedTable(slots[i], l, allow) <==> NoWaste(list, allow, l, SlotStart(l, 0, i))
  {
    ShapedAlike(slots, list, allow, l);
    SlotOfTable(list, allow, l, 0, i);
    SubBlock(l, 0, i);
    AlikeCleanIff(slots[i], WantedTable(list, allow, l, 0)[i], list, allow, l, SlotStart(l, 0, i));
  }

  // ---------- plain flags ----------

  /** Flags found in the meaning of a plain list are plain. */
  lemma PlainMeaning(list: seq<Mapping>, a: nat, f: Flags)
    requires AllPlain(list) && LastWriter(list, a) == Some(f)
    ensures Plain(f)
  {
    var i := LastWriterWitness(list, a);
    assert Plain(list[i].flags);
  }

  /** With plain flags, leaves with the same bits have the same flags. */
  lemma SameBitsSameFlags(list: seq<Mapping>, allow: Level, k: Level, base: nat, bits: nat, i: nat, f: Flags)
    requires AllPlain(list) && i < 512 && SlotsLook(list, allow, k, base, bits)
    requires Plain(f) && LeafBits(k, f) == bits
    ensures OneMeaning(list, SlotStart(k, base, i), SlotStart(k, base, i) + Size(k), f)
  {
    assert SlotLeaf(list, allow, k, base, i, bits);
    var g :| LeafWith(list, allow, k, SlotStart(k, base, i), g) && LeafBits(k, g) == bits;
    PlainMeaning(list, SlotStart(k, base, i), g);
    LeafBitsInjective(k, f, g);
  }

  lemma PlainNoWaste(list: seq<Mapping>, allow: Level, k: Level, b: nat)
    requires AllPlain(list) && k > PT && LooksUniform(list, allow, k - 1, b)
    ensures MappedAlike(list, b, b + Size(k))
  {
    var bits :| SlotsLook(list, allow, k - 1, b, bits);
    assert SlotLeaf(list, allow, k - 1, b, 0, bits);
    var f :| LeafWith(list, allow, k - 1, SlotStart(k - 1, b, 0), f) && LeafBits(k - 1, f) == bits;
    PlainMeaning(list, b, f);
    SizeStep(k);
    forall a | b <= a < b + Size(k) ensures LastWriter(list, a) == Some(f) {
      var i := PartOf(k - 1, b, a);
      SameBitsSameFlags(list, allow, k - 1, b, bits, i, f);
    }
    assert OneMeaning(list, b, b + Size(k), f);
  }

  lemma PartOf(k: Level, base: nat, a: nat) returns (i: nat)
    requires base <= a < base + 512 * Size(k)
    ensures i < 512 && SlotStart(k, base, i) <= a < SlotStart(k, base, i) + Size(k)
  {
    var q, r := Split(a - base, Size(k));
    i := q;
    if q >= 512 {
      MulMono(512, q, Size(k));
    }
  }

  lemma PlainHasNoWaste(list: seq<Mapping>, allow: Level, l: Level, start: nat)
    requires AllPlain(list)
    ensures NoWaste(list, allow, l, start)
  {
    forall k: Level, b: nat | Inside(k, b, l, start) ensures !WasteAt(list, allow, k, b) {
      if LooksUniform(list, allow, k - 1, b) {
        PlainNoWaste(list, allow, k, b);
      }
    }
  }

  /** For lists of plain mappings nothing is ever wasted. */
  lemma BuildWastesNothing(list: seq<Mapping>, allow: Level, l: Level, start: nat)
    requires IsNormal(list) && Mappable(list) && AllPlain(list) && start % Size(l) == 0
    ensures NoWastedTable(WantedSlot(list, allow, l, start), l, allow)
  {
    PlainHasNoWaste(list, allow, l, start);
    NothingWastedIff(list, allow, l, start);
  }

  // ---------- flags that the bits do not show ----------

  /** Two halves of a 2 MiB block that differ in PAT only. */
  function PatHalves(): seq<Mapping> {
    [Mapping(Range(0, 0x10_0000), Flags(1, false, false, false, false)),
     Mapping(Range(0x10_0000, 0x10_0000), Flags(1, true, false, false, false))]
  }

  lemma PatHalvesPage(i: nat)
    requires i < 512
    ensures var s := BuildTable(PatHalves(), PD, PT, 0)[i];
      s.Entry? && IsPresent(s.raw) && AttrOf(s.raw) == 1
  {
    var start := SlotStart(PT, 0, i);
    var list := PatHalves();
    var sub := Overlap(list, start, start + Size(PT));
    assert list[..1][..0] == [] && list[..1] == [list[0]];
    assert Overlap(list[..1], start, start + Size(PT)) == if i < 256 then [list[0]] else [];
    assert sub == if i < 256 then [list[0]] else [list[1]];
    SubBlock(PT, 0, i);
    LeafDecode(PT, start, sub[0].flags);
  }

  /** The claim fails on bits alone: PAT is not written to 4 KiB entries, so the halves look alike. */
  lemma PatWastesTable()
    ensures IsNormal(PatHalves())
    ensures !NoWastedTable(BuildSlot(PatHalves(), PD, PD, 0), PD, PD)
  {
    var list := PatHalves();
    HugeIffCovered(list, PD, PD, 0, Size(PD));
    OverlapComplete(list, 0, Size(PD), 0);
    forall i | 0 <= i < 512
      ensures var s := BuildTable(list, PD, PT, 0)[i]; s.Entry? && IsPresent(s.raw) && AttrOf(s.raw) == 1
    {
      PatHalvesPage(i);
    }
    assert EqualLeaves(BuildTable(list, PD, PT, 0));
  }
}
