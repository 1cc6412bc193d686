/**
  What the page-table code is about, on values: the shape of the table a mapping list stands for,
  and what a walk finds in it.
 */
module PageTrees {
  import opened Options
  import opened Mappings
  import opened Entries
  import opened Arith

  /** A table entry up to frame addresses: a raw value, or a lower table with its relay bits. */
  datatype Shape = Entry(raw: nat) | Table(attr: nat, slots: seq<Shape>)

  // ---------- the shape a list stands for ----------

  /** The mappings that meet a block, in order (the `sub_map` filter). */
  function Overlap(list: seq<Mapping>, lo: nat, hi: nat): seq<Mapping> {
    if list == [] then []
    else
      var last := list[|list| - 1];
      Overlap(list[..|list| - 1], lo, hi) +
      if last.range.start < hi && last.range.End() > lo then [last] else []
  }

  predicate CanBeHuge(sub: seq<Mapping>, l: Level, allow: Level, lo: nat, hi: nat) {
    l != PT && l <= allow && |sub| == 1 && sub[0].range.Covers(lo, hi)
  }

  /** The entry for the block of level `l` at `start`. */
  function BuildSlot(list: seq<Mapping>, allow: Level, l: Level, start: nat): Shape
    decreases l, 0
  {
    var hi := start + Size(l);
    var sub := Overlap(list, start, hi);
    if sub == [] then Entry(0)
    else if CanBeHuge(sub, l, allow, start, hi) then Entry(BuilderHugeEntry(l, start, sub[0].flags))
    else if l > PT then Table(RELAY_BITS, BuildTable(list, allow, l - 1, start))
    else Entry(PtEntry(start, sub[0].flags))
  }

  /** Where the i-th block of a table begins. */
  function SlotStart(l: Level, base: nat, i: nat): nat {
    base + i * Size(l)
  }

  lemma SlotInside(l: Level, base: nat, i: nat)
    requires i < 512
    ensures base <= SlotStart(l, base, i) && SlotStart(l, base, i) + Size(l) <= base + 512 * Size(l)
  {
    MulMono(i + 1, 512, Size(l));
  }

  /** The 512 entries of a table of level `l` that spans from `base`. */
  function BuildTable(list: seq<Mapping>, allow: Level, l: Level, base: nat): (t: seq<Shape>)
    ensures |t| == 512
    decreases l, 1
  {
    seq(512, i requires 0 <= i < 512 => BuildSlot(list, allow, l, SlotStart(l, base, i)))
  }

  /** Names for the two, used where only the result matters and not how it is computed. */
  function WantedSlot(list: seq<Mapping>, allow: Level, l: Level, start: nat): Shape {
    BuildSlot(list, allow, l, start)
  }

  function WantedTable(list: seq<Mapping>, allow: Level, l: Level, base: nat): seq<Shape> {
    BuildTable(list, allow, l, base)
  }

  lemma SlotOfTable(list: seq<Mapping>, allow: Level, k: Level, base: nat, i: nat)
    requires i < 512
    ensures |WantedTable(list, allow, k, base)| == 512
    ensures WantedTable(list, allow, k, base)[i] == WantedSlot(list, allow, k, SlotStart(k, base, i))
  {
  }

  lemma {:induction false} OverlapSound(list: seq<Mapping>, lo: nat, hi: nat, i: nat)
    requires i < |Overlap(list, lo, hi)|
    ensures Overlap(list, lo, hi)[i] in list
    ensures Overlap(list, lo, hi)[i].range.start < hi && Overlap(list, lo, hi)[i].range.End() > lo
  {
    var n := |list| - 1;
    if i < |Overlap(list[..n], lo, hi)| {
      OverlapSound(list[..n], lo, hi, i);
    }
  }

  lemma {:induction false} OverlapComplete(list: seq<Mapping>, lo: nat, hi: nat, i: nat)
    requires i < |list| && list[i].range.start < hi && list[i].range.End() > lo
    ensures list[i] in Overlap(list, lo, hi)
  {
    var n := |list| - 1;
    if i < n {
      OverlapComplete(list[..n], lo, hi, i);
    }
  }

  /** Filtering for a block inside a block: the list handed down gives the same as the whole list. */
  lemma {:induction false} OverlapNested(list: seq<Mapping>, lo: nat, hi: nat, lo': nat, hi': nat)
    requires lo <= lo' && hi' <= hi
    ensures Overlap(Overlap(list, lo, hi), lo', hi') == Overlap(list, lo', hi')
  {
    if list != [] {
      var n := |list| - 1;
      var front := Overlap(list[..n], lo, hi);
      OverlapNested(list[..n], lo, hi, lo', hi');
      if list[n].range.start < hi && list[n].range.End() > lo {
        assert Overlap(list, lo, hi)[..|front|] == front;
      } else {
        assert Overlap(list, lo, hi) == front;
      }
    }
  }

  /** Building a block from the mappings that meet an enclosing block builds the same shape. */
  lemma {:induction false} BuildNested(list: seq<Mapping>, allow: Level, l: Level, start: nat, lo: nat, hi: nat)
    requires lo <= start && start + Size(l) <= hi
    ensures BuildSlot(Overlap(list, lo, hi), allow, l, start) == BuildSlot(list, allow, l, start)
    decreases l, 0
  {
    OverlapNested(list, lo, hi, start, start + Size(l));
    if l > PT {
      BuildTableNested(list, allow, l - 1, start, lo, hi);
    }
  }

  lemma {:induction false} BuildTableNested(list: seq<Mapping>, allow: Level, l: Level, base: nat, lo: nat, hi: nat)
    requires lo <= base && base + 512 * Size(l) <= hi
    ensures BuildTable(Overlap(list, lo, hi), allow, l, base) == BuildTable(list, allow, l, base)
    decreases l, 1
  {
    var sub := Overlap(list, lo, hi);
    forall i | 0 <= i < 512
      ensures BuildSlot(sub, allow, l, SlotStart(l, base, i)) == BuildSlot(list, allow, l, SlotStart(l, base, i))
    {
      SlotInside(l, base, i);
      BuildNested(list, allow, l, SlotStart(l, base, i), lo, hi);
    }
  }

  // ---------- what a walk finds ----------

  /** The leaf a walk ends at: its level and its raw entry. */
  datatype Leaf = Leaf(level: Level, raw: nat)

  function FindSlot(s: Shape, l: Level, a: nat): Option<Leaf>
    decreases l, 0
  {
    match s
    case Entry(raw) => if IsPresent(raw) then Some(Leaf(l, raw)) else None
    case Table(_, slots) => if l == PT then None else FindTable(slots, l - 1, a)
  }

  function FindTable(slots: seq<Shape>, l: Level, a: nat): Option<Leaf>
    decreases l, 1
  {
    if |slots| != 512 then None else FindSlot(slots[Index(l, a)], l, a)
  }

  lemma FindInSlots(slots: seq<Shape>, l: Level, a: nat)
    requires |slots| == 512
    ensures FindTable(slots, l, a) == FindSlot(slots[Index(l, a)], l, a)
  {
  }

  /** The largest block around the address that becomes one leaf. */
  function LeafLevel(list: seq<Mapping>, allow: Level, l: Level, a: nat): (k: Level)
    ensures k <= l
  {
    var lo := BlockOf(l, a);
    if l == PT then PT
    else if CanBeHuge(Overlap(list, lo, lo + Size(l)), l, allow, lo, lo + Size(l)) then l
    else LeafLevel(list, allow, l - 1, a)
  }

  /** What a walk of the shape must find, from the meaning of the list alone. */
  function ExpectedLeaf(list: seq<Mapping>, allow: Level, l: Level, a: nat): Option<Leaf> {
    match LastWriter(list, a)
    case None => None
    case Some(f) =>
      var k := LeafLevel(list, allow, l, a);
      if k > PDPT then None else Some(Leaf(k, LeafEntry(k, BlockOf(k, a), f)))
  }

  /** A list that page tables can be built for. */
  ghost predicate Mappable(list: seq<Mapping>) {
    Disjoint(list) && AllAligned(list) && AllWithin(list, PHYS_LIMIT)
  }

  /** A block with nothing to map holds no address with a writer. */
  lemma EmptyBlock(list: seq<Mapping>, lo: nat, hi: nat, a: nat)
    requires Overlap(list, lo, hi) == [] && lo <= a < hi
    ensures LastWriter(list, a) == None
  {
    if LastWriter(list, a).Some? {
      var i := LastWriterWitness(list, a);
      OverlapComplete(list, lo, hi, i);
    }
  }

  /** The first mapping that meets a block and covers it decides every address in the block. */
  lemma CoveredBlock(list: seq<Mapping>, lo: nat, hi: nat, a: nat)
    requires Disjoint(list) && Overlap(list, lo, hi) != [] && lo <= a < hi
    requires Overlap(list, lo, hi)[0].range.Covers(lo, hi)
    ensures LastWriter(list, a) == Some(Overlap(list, lo, hi)[0].flags)
  {
    OverlapSound(list, lo, hi, 0);
    var i :| 0 <= i < |list| && list[i] == Overlap(list, lo, hi)[0];
    DisjointWriter(list, a, i);
  }

  /** An aligned mapping that meets a page covers it. */
  lemma PageCovered(list: seq<Mapping>, start: nat)
    requires AllAligned(list) && start % PAGE == 0 && Overlap(list, start, start + PAGE) != []
    ensures Overlap(list, start, start + PAGE)[0].range.Covers(start, start + PAGE)
  {
    OverlapSound(list, start, start + PAGE, 0);
    var r := Overlap(list, start, start + PAGE)[0].range;
    assert r.Aligned();
    AlignedMeets(r.start / PAGE, r.len / PAGE, start / PAGE);
  }

  lemma AlignedMeets(first: int, count: int, page: int)
    requires first * PAGE < page * PAGE + PAGE && (first + count) * PAGE > page * PAGE
    ensures first <= page && page + 1 <= first + count
  {
  }

  lemma CoveredFits(list: seq<Mapping>, lo: nat, hi: nat)
    requires AllWithin(list, PHYS_LIMIT) && Overlap(list, lo, hi) != [] && lo < hi
    requires Overlap(list, lo, hi)[0].range.Covers(lo, hi)
    ensures lo < PHYS_LIMIT
  {
    OverlapSound(list, lo, hi, 0);
  }

  /** A block whose first mapping covers it is one leaf with that mapping's flags. */
  lemma WalkLeaf(list: seq<Mapping>, l: Level, start: nat, a: nat)
    requires Mappable(list) && start % Size(l) == 0 && start <= a < start + Size(l)
    requires var sub := Overlap(list, start, start + Size(l));
             sub != [] && sub[0].range.Covers(start, start + Size(l))
    ensures LastWriter(list, a) == Some(Overlap(list, start, start + Size(l))[0].flags)
    ensures l <= PDPT ==> IsPresent(LeafEntry(l, start, Overlap(list, start, start + Size(l))[0].flags))
  {
    CoveredBlock(list, start, start + Size(l), a);
    CoveredFits(list, start, start + Size(l));
    if l <= PDPT {
      LeafDecode(l, start, Overlap(list, start, start + Size(l))[0].flags);
    }
  }

  lemma WalkHuge(list: seq<Mapping>, allow: Level, l: Level, start: nat, a: nat)
    requires Mappable(list) && start == BlockOf(l, a) && start % Size(l) == 0 && start <= a < start + Size(l)
    requires CanBeHuge(Overlap(list, start, start + Size(l)), l, allow, start, start + Size(l))
    ensures FindSlot(WantedSlot(list, allow, l, start), l, a) == ExpectedLeaf(list, allow, l, a)
  {
    WalkLeaf(list, l, start, a);
    assert LeafLevel(list, allow, l, a) == l;
  }

  lemma WalkPage(list: seq<Mapping>, allow: Level, start: nat, a: nat)
    requires Mappable(list) && start == BlockOf(PT, a) && start % PAGE == 0 && start <= a < start + PAGE
    requires Overlap(list, start, start + PAGE) != []
    ensures FindSlot(WantedSlot(list, allow, PT, start), PT, a) == ExpectedLeaf(list, allow, PT, a)
  {
    PageCovered(list, start);
    WalkLeaf(list, PT, start, a);
    assert LeafLevel(list, allow, PT, a) == PT;
  }

  lemma WalkEmpty(list: seq<Mapping>, allow: Level, l: Level, start: nat, a: nat)
    requires start <= a < start + Size(l) && Overlap(list, start, start + Size(l)) == []
    ensures FindSlot(WantedSlot(list, allow, l, start), l, a) == ExpectedLeaf(list, allow, l, a)
  {
    EmptyBlock(list, start, start + Size(l), a);
    assert WantedSlot(list, allow, l, start) == Entry(0);
  }

  /** The block needs a table of its own: something is mapped in it, but not as one leaf. */
  predicate NeedsTable(list: seq<Mapping>, allow: Level, l: Level, start: nat) {
    var sub := Overlap(list, start, start + Size(l));
    l > PT && sub != [] && !CanBeHuge(sub, l, allow, start, start + Size(l))
  }

  lemma TableOfSlot(list: seq<Mapping>, allow: Level, l: Level, start: nat)
    requires NeedsTable(list, allow, l, start)
    ensures WantedSlot(list, allow, l, start) == Table(RELAY_BITS, WantedTable(list, allow, l - 1, start))
  {
  }

  lemma EntryOfSlot(list: seq<Mapping>, allow: Level, l: Level, start: nat)
    requires !NeedsTable(list, allow, l, start)
    ensures WantedSlot(list, allow, l, start).Entry?
  {
  }

  lemma FindBelow(attr: nat, slots: seq<Shape>, l: Level, a: nat)
    requires l > PT
    ensures FindSlot(Table(attr, slots), l, a) == FindTable(slots, l - 1, a)
  {
  }

  /** Where a block needs a table, what is expected of it is what is expected one level down. */
  lemma ExpectedBelow(list: seq<Mapping>, allow: Level, l: Level, a: nat)
    requires NeedsTable(list, allow, l, BlockOf(l, a))
    ensures ExpectedLeaf(list, allow, l, a) == ExpectedLeaf(list, allow, l - 1, a)
  {
    assert LeafLevel(list, allow, l, a) == LeafLevel(list, allow, l - 1, a);
  }

  lemma WalkDown(list: seq<Mapping>, allow: Level, l: Level, start: nat, a: nat)
    requires start == BlockOf(l, a) && NeedsTable(list, allow, l, start)
    requires FindTable(WantedTable(list, allow, l - 1, start), l - 1, a) == ExpectedLeaf(list, allow, l - 1, a)
    ensures FindSlot(WantedSlot(list, allow, l, start), l, a) == ExpectedLeaf(list, allow, l, a)
  {
    TableOfSlot(list, allow, l, start);
    FindBelow(RELAY_BITS, WantedTable(list, allow, l - 1, start), l, a);
    ExpectedBelow(list, allow, l, a);
  }

  /** The blocks that need no table: empty, one large leaf, or a page. */
  lemma WalkNoTable(list: seq<Mapping>, allow: Level, l: Level, start: nat, a: nat)
    requires Mappable(list) && start == BlockOf(l, a) && start % Size(l) == 0 && start <= a < start + Size(l)
    requires !NeedsTable(list, allow, l, start)
    ensures FindSlot(WantedSlot(list, allow, l, start), l, a) == ExpectedLeaf(list, allow, l, a)
  {
    var hi := start + Size(l);
    if Overlap(list, start, hi) == [] {
      WalkEmpty(list, allow, l, start, a);
    } else if CanBeHuge(Overlap(list, start, hi), l, allow, start, hi) {
      WalkHuge(list, allow, l, start, a);
    } else {
      WalkPage(list, allow, start, a);
    }
  }

  /** A walk through a built entry finds exactly what the list says, down every level. */
  lemma {:induction false} WalkSlot(list: seq<Mapping>, allow: Level, l: Level, start: nat, a: nat)
    requires Mappable(list)
    requires start % Size(l) == 0 && start <= a < start + Size(l)
    ensures FindSlot(WantedSlot(list, allow, l, start), l, a) == ExpectedLeaf(list, allow, l, a)
    decreases l, 0
  {
    BlockUnique(l, start, a);
    if NeedsTable(list, allow, l, start) {
      SizeStep(l);
      WalkTable(list, allow, l - 1, start, a);
      WalkDown(list, allow, l, start, a);
    } else {
      WalkNoTable(list, allow, l, start, a);
    }
  }

  /** The entry that the walk looks at is the one of the block around the address. */
  lemma BlockIndexed(l: Level, base: nat, a: nat)
    requires base % (512 * Size(l)) == 0 && base <= a < base + 512 * Size(l)
    ensures SlotStart(l, base, Index(l, a)) == BlockOf(l, a)
    ensures BlockOf(l, a) % Size(l) == 0 && BlockOf(l, a) <= a < BlockOf(l, a) + Size(l)
  {
    IndexOfBlock(l, base, a);
    SubBlock(l, base, Index(l, a));
  }

  lemma {:induction false} WalkTable(list: seq<Mapping>, allow: Level, l: Level, base: nat, a: nat)
    requires Mappable(list)
    requires base % (512 * Size(l)) == 0 && base <= a < base + 512 * Size(l)
    ensures FindTable(WantedTable(list, allow, l, base), l, a) == ExpectedLeaf(list, allow, l, a)
    decreases l, 1
  {
    BlockIndexed(l, base, a);
    SlotOfTable(list, allow, l, base, Index(l, a));
    FindInSlots(WantedTable(list, allow, l, base), l, a);
    WalkSlot(list, allow, l, BlockOf(l, a), a);
  }

  // ---------- the address a walk returns ----------

  /** `get_addr` at a leaf: the address in the entry plus the offset inside the block. */
  function Translate(leaf: Option<Leaf>, a: nat): Option<nat> {
    match leaf
    case None => None
    case Some(Leaf(l, raw)) => Some(AddrOf(raw) + a % Size(l))
  }

  /** Bytes one table of level `l` spans. */
  function Span(l: Level): nat {
    512 * Size(l)
  }

  /**
    What `get_addr` must answer, for every flag and every `allow`: an address without a writer is
    not found; one with flags `f` is found at itself, except where its block became a leaf above
    PDPT (not found) or a large leaf with PAT or HUGE (4096 too high).
   */
  function ExpectedAddr(list: seq<Mapping>, allow: Level, top: Level, a: nat): Option<nat> {
    match LastWriter(list, a)
    case None => None
    case Some(f) =>
      var k := LeafLevel(list, allow, top, a);
      if k > PDPT then None else Some(a + Skew(k, f))
  }

  lemma TranslateLeaf(k: Level, a: nat, f: Flags)
    requires k <= PDPT && BlockOf(k, a) < PHYS_LIMIT
    ensures Translate(Some(Leaf(k, LeafEntry(k, BlockOf(k, a), f))), a) == Some(a + Skew(k, f))
  {
    BlockSplit(k, a);
    LeafDecode(k, BlockOf(k, a), f);
  }

  lemma TranslateExpected(list: seq<Mapping>, allow: Level, top: Level, a: nat)
    requires AllWithin(list, PHYS_LIMIT)
    ensures Translate(ExpectedLeaf(list, allow, top, a), a) == ExpectedAddr(list, allow, top, a)
  {
    if LastWriter(list, a).Some? {
      var i := LastWriterWitness(list, a);
      var k := LeafLevel(list, allow, top, a);
      if k <= PDPT {
        BlockSplit(k, a);
        TranslateLeaf(k, a, LastWriter(list, a).value);
      }
    }
  }

  /** The walk of a table built for the whole address space. */
  lemma WalkResult(list: seq<Mapping>, allow: Level, top: Level, a: nat)
    requires Mappable(list) && a < Span(top)
    ensures FindTable(WantedTable(list, allow, top, 0), top, a) == ExpectedLeaf(list, allow, top, a)
    ensures Translate(FindTable(WantedTable(list, allow, top, 0), top, a), a) == ExpectedAddr(list, allow, top, a)
  {
    WalkTable(list, allow, top, 0, a);
    TranslateExpected(list, allow, top, a);
  }

  // ---------- leaf levels of normal lists ----------

  ghost predicate SomeRangeCovers(list: seq<Mapping>, lo: nat, hi: nat) {
    exists i :: 0 <= i < |list| && list[i].range.Covers(lo, hi)
  }

  /** In a normal list a range that covers a block is the only one that meets it. */
  lemma {:induction false} OverlapOfCovered(list: seq<Mapping>, lo: nat, hi: nat, i: nat)
    requires IsNormal(list) && lo < hi && i < |list| && list[i].range.Covers(lo, hi)
    ensures Overlap(list, lo, hi) == [list[i]]
  {
    var n := |list| - 1;
    if i < n {
      assert list[i].range.End() <= list[n].range.start;
      OverlapOfCovered(list[..n], lo, hi, i);
    } else {
      OverlapBelow(list[..n], lo, hi);
    }
  }

  lemma {:induction false} OverlapBelow(list: seq<Mapping>, lo: nat, hi: nat)
    requires forall j :: 0 <= j < |list| ==> list[j].range.End() <= lo
    ensures Overlap(list, lo, hi) == []
  {
    if list != [] {
      OverlapBelow(list[..|list| - 1], lo, hi);
    }
  }

  lemma HugeIffCovered(list: seq<Mapping>, allow: Level, l: Level, lo: nat, hi: nat)
    requires IsNormal(list) && lo < hi
    ensures CanBeHuge(Overlap(list, lo, hi), l, allow, lo, hi) <==>
            l != PT && l <= allow && SomeRangeCovers(list, lo, hi)
  {
    if SomeRangeCovers(list, lo, hi) {
      var i :| 0 <= i < |list| && list[i].range.Covers(lo, hi);
      OverlapOfCovered(list, lo, hi, i);
    }
    if |Overlap(list, lo, hi)| == 1 {
      OverlapSound(list, lo, hi, 0);
    }
  }

  lemma BlocksNest(l: Level, k: Level, a: nat)
    requires k <= l
    ensures BlockOf(l, a) <= BlockOf(k, a) && BlockOf(k, a) + Size(k) <= BlockOf(l, a) + Size(l)
    decreases l - k
  {
    if k < l {
      BlocksNest(l - 1, k, a);
      SizeStep(l);
      var s := Size(l - 1);
      BlockSplit(l, a);
      IndexOfBlock(l - 1, BlockOf(l, a), a);
      SubBlock(l - 1, BlockOf(l, a), Index(l - 1, a));
    }
  }

  lemma CoversSmaller(list: seq<Mapping>, lo: nat, hi: nat, lo': nat, hi': nat)
    requires SomeRangeCovers(list, lo, hi) && lo <= lo' && hi' <= hi
    ensures SomeRangeCovers(list, lo', hi')
  {
    var i :| 0 <= i < |list| && list[i].range.Covers(lo, hi);
    assert list[i].range.Covers(lo', hi');
  }

  /** A leaf of at least level `k`: exactly when that is allowed and one range covers the block of level `k`. */
  lemma {:induction false} LeafAtLeast(list: seq<Mapping>, allow: Level, l: Level, k: Level, a: nat)
    requires IsNormal(list) && PT < k <= l
    ensures LeafLevel(list, allow, l, a) >= k <==>
            allow >= k && SomeRangeCovers(list, BlockOf(k, a), BlockOf(k, a) + Size(k))
  {
    var lo, hi := BlockOf(l, a), BlockOf(l, a) + Size(l);
    HugeIffCovered(list, allow, l, lo, hi);
    if CanBeHuge(Overlap(list, lo, hi), l, allow, lo, hi) {
      BlocksNest(l, k, a);
      CoversSmaller(list, lo, hi, BlockOf(k, a), BlockOf(k, a) + Size(k));
    } else if l > k {
      LeafAtLeast(list, allow, l - 1, k, a);
    }
  }

  /** When the expected answer is the address itself, on normal lists with `allow` at most PDPT. */
  lemma ExpectedIdentity(list: seq<Mapping>, allow: Level, top: Level, a: nat)
    requires IsNormal(list) && PD <= top && allow <= PDPT && LastWriter(list, a).Some?
    ensures var f := LastWriter(list, a).value;
      ExpectedAddr(list, allow, top, a) == Some(a) <==>
      !((f.pat || f.huge) && allow >= PD && SomeRangeCovers(list, BlockOf(PD, a), BlockOf(PD, a) + Size(PD)))
  {
    LeafAtLeast(list, allow, top, PD, a);
    LeafLevelAllowed(list, allow, top, a);
  }

  /**
    The walk on normal lists with `allow` at most PDPT: a mapped address comes back as itself
    unless its flags carry PAT or HUGE and one range covers its whole 2 MiB block.
   */
  lemma WalkOfNormal(list: seq<Mapping>, allow: Level, top: Level, a: nat)
    requires IsNormal(list) && AllAligned(list) && AllWithin(list, PHYS_LIMIT)
    requires PD <= top && allow <= PDPT && a < Span(top) && LastWriter(list, a).Some?
    ensures var f := LastWriter(list, a).value;
      Translate(FindTable(WantedTable(list, allow, top, 0), top, a), a) == Some(a) <==>
      !((f.pat || f.huge) && allow >= PD && SomeRangeCovers(list, BlockOf(PD, a), BlockOf(PD, a) + Size(PD)))
  {
    NormalDisjoint(list);
    WalkResult(list, allow, top, a);
    ExpectedIdentity(list, allow, top, a);
  }

  lemma {:induction false} LeafLevelAllowed(list: seq<Mapping>, allow: Level, l: Level, a: nat)
    ensures LeafLevel(list, allow, l, a) <= allow || LeafLevel(list, allow, l, a) == PT
  {
    if l > PT {
      LeafLevelAllowed(list, allow, l - 1, a);
    }
  }

  // ---------- where the walk is not the identity ----------

  /** A 2 MiB page with PAT: the walk answers one page too high. */
  lemma PatLeafIsSkewed()
    ensures var list := [Mapping(Range(0, Size(PD)), Flags(1, true, false, false, false))];
      Translate(FindTable(WantedTable(list, PD, PML4, 0), PML4, 0), 0) == Some(PAGE)
  {
    var list := [Mapping(Range(0, Size(PD)), Flags(1, true, false, false, false))];
    WalkResult(list, PD, PML4, 0);
    assert list[0].range.Covers(BlockOf(PD, 0), BlockOf(PD, 0) + Size(PD));
    assert SomeRangeCovers(list, BlockOf(PD, 0), BlockOf(PD, 0) + Size(PD));
    LeafAtLeast(list, PD, PML4, PD, 0);
    LeafLevelAllowed(list, PD, PML4, 0);
    assert LastWriter(list, 0) == Some(list[0].flags);
  }

  /**
    A mapped address is not found at all exactly when large pages are allowed above 1 GiB and one
    range covers its 512 GiB block: such a leaf does not exist, and nothing is written for it.
   */
  lemma HugerLeafIsLost(list: seq<Mapping>, allow: Level, top: Level, a: nat)
    requires IsNormal(list) && Mappable(list) && top >= PML4 && a < Span(top) && LastWriter(list, a).Some?
    ensures Translate(FindTable(WantedTable(list, allow, top, 0), top, a), a) == None <==>
            allow >= PML4 && SomeRangeCovers(list, BlockOf(PML4, a), BlockOf(PML4, a) + Size(PML4))
  {
    assert ExpectedAddr(list, allow, top, a) == None <==> LeafLevel(list, allow, top, a) >= PML4;
    LeafAtLeast(list, allow, top, PML4, a);
    WalkResult(list, allow, top, a);
  }
}
