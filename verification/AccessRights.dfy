/**
  What the processor lets a program do at an address: it combines the bits of every entry on the
  way down. Writing and user access need the bit in all of them, execution is forbidden by bit 63 in
  any of them, and the other bits are those of the leaf.
 */
module AccessRights {
  import opened Options
  import opened Arith
  import opened Mappings
  import opened Entries
  import opened PageTrees
  import opened Renewal
  import opened LargePages
  import opened FrameTrees
  import opened Paging

  datatype Rights = Rights(
    writable: bool, user: bool, noExecute: bool,
    writeThrough: bool, uncached: bool, accessed: bool, dirty: bool, global: bool)

  predicate BitAt(e: nat, v: nat)
    requires v > 0
  {
    e / v % 2 == 1
  }

  /** The bits of one entry. */
  function Grants(e: nat): Rights {
    Rights(BitAt(e, 0x2), BitAt(e, 0x4), BitAt(e, 0x8000_0000_0000_0000),
      BitAt(e, 0x8), BitAt(e, 0x10), BitAt(e, 0x20), BitAt(e, 0x40), BitAt(e, 0x100))
  }

  /** What is left of the rights below an entry. */
  function Through(above: Rights, below: Rights): Rights {
    below.(writable := above.writable && below.writable, user := above.user && below.user,
           noExecute := above.noExecute || below.noExecute)
  }

  function ThroughAll(above: Rights, below: Option<Rights>): Option<Rights> {
    if below.None? then None else Some(Through(above, below.value))
  }

  /** The rights at an address, from memory alone, combined over all entries a walk passes. */
  function RightsAt(m: Memory, frame: nat, l: Level, a: nat): Option<Rights>
    decreases l
  {
    if frame !in m || |m[frame]| != 512 then None
    else
      var e := m[frame][Index(l, a)];
      if !IsPresent(e) then None
      else if l == PT || IsHuge(e) then Some(Grants(e))
      else ThroughAll(Grants(e), RightsAt(m, AddrOf(e), l - 1, a))
  }

  /** What flags ask for. */
  function Asked(f: Flags): Rights {
    Rights(BitAt(f.low, 0x2), BitAt(f.low, 0x4), f.executeDisable,
      BitAt(f.low, 0x8), BitAt(f.low, 0x10), BitAt(f.low, 0x20), BitAt(f.low, 0x40), f.global)
  }

  // ---------- bits ----------

  /** A bit below bit 12 is a bit of the low twelve. */
  lemma LowBit(e: nat, v: nat, w: nat)
    requires v > 0 && 2 * v * w == 0x1000
    ensures BitAt(e, v) <==> BitAt(e % PAGE, v)
  {
    var page, low := Split(e, PAGE);
    var h, r := Split(low, v);
    var q, b := Split(h, 2);
    assert page * PAGE == page * (2 * v * w) == (page * w * 2) * v;
    Digit(e, page * w + q, b, r, v);
    Digit(low, q, b, r, v);
  }

  /** The rights of an entry are in its attribute bits. */
  lemma GrantsOfAttr(e: nat, d: nat)
    requires e % PAGE == d % PAGE && e / BIT63 % 2 == d / BIT63 % 2
    ensures Grants(e) == Grants(d)
  {
    LowBits8(e);
    LowBits8(d);
  }

  lemma LowBits8(e: nat)
    ensures BitAt(e, 0x2) == BitAt(e % PAGE, 0x2) && BitAt(e, 0x4) == BitAt(e % PAGE, 0x4)
    ensures BitAt(e, 0x8) == BitAt(e % PAGE, 0x8) && BitAt(e, 0x10) == BitAt(e % PAGE, 0x10)
    ensures BitAt(e, 0x20) == BitAt(e % PAGE, 0x20) && BitAt(e, 0x40) == BitAt(e % PAGE, 0x40)
    ensures BitAt(e, 0x100) == BitAt(e % PAGE, 0x100)
  {
    LowBit(e, 0x2, 0x400);
    LowBit(e, 0x4, 0x200);
    LowBit(e, 0x8, 0x100);
    LowBit(e, 0x10, 0x80);
    LowBit(e, 0x20, 0x40);
    LowBit(e, 0x40, 0x20);
    LowBit(e, 0x100, 0x8);
  }

  lemma AttrParts(e: nat)
    ensures AttrOf(e) % PAGE == e % PAGE && AttrOf(e) / BIT63 % 2 == e / BIT63 % 2
  {
    DecodeAddr(0, e % PAGE, e / BIT63 % 2);
    DecodeTop(0, e % PAGE, e / BIT63 % 2);
  }

  lemma GrantsSame(e: nat, d: nat)
    requires AttrOf(e) == AttrOf(d)
    ensures Grants(e) == Grants(d)
  {
    AttrParts(e);
    AttrParts(d);
    GrantsOfAttr(e, d);
  }

  lemma GrantsAttr(e: nat)
    ensures Grants(AttrOf(e)) == Grants(e)
  {
    AttrParts(e);
    GrantsOfAttr(AttrOf(e), e);
  }

  /** Bit 0 does not reach into the others. */
  lemma HalfBit(half: nat, p: nat, u: nat)
    requires u > 0 && p <= 1
    ensures BitAt(2 * half + p, 2 * u) <==> BitAt(half, u)
  {
    var h, r := Split(half, u);
    var q, b := Split(h, 2);
    assert 2 * half + p == (q * 2 + b) * (2 * u) + (2 * r + p);
    Digit(2 * half + p, q, b, 2 * r + p, 2 * u);
    Digit(half, q, b, r, u);
  }

  /** Nor do higher bits into lower ones. */
  lemma HigherBits(half: nat, n: nat, u: nat, w: nat)
    requires u > 0 && 2 * u * w == 0x40
    ensures BitAt(half + 0x40 * n, u) <==> BitAt(half, u)
  {
    var h, r := Split(half, u);
    var q, b := Split(h, 2);
    assert 0x40 * n == (2 * u * w) * n == (w * n * 2) * u;
    Digit(half + 0x40 * n, w * n + q, b, r, u);
    Digit(half, q, b, r, u);
  }

  /** One of the seven low flags in the low bits of a leaf. */
  lemma FlagBit(low: nat, n: nat, u: nat, w: nat)
    requires u > 0 && 2 * u * w == 0x40
    ensures BitAt(OrPresent(low) + 0x80 * n, 2 * u) <==> BitAt(low, 2 * u)
  {
    var half, p := Split(low, 2);
    assert OrPresent(low) + 0x80 * n == 2 * (half + 0x40 * n) + 1;
    HalfBit(half + 0x40 * n, 1, u);
    HigherBits(half, n, u, w);
    HalfBit(half, p, u);
  }

  lemma GlobalBit(low: nat, h: nat, g: nat)
    requires low < 0x80 && h <= 1 && g <= 1
    ensures BitAt(OrPresent(low) + 0x80 * (h + 2 * g), 0x100) <==> g == 1
  {
    Digit(OrPresent(low) + 0x80 * (h + 2 * g), 0, g, OrPresent(low) + 0x80 * h, 0x100);
  }

  /** A leaf grants what its flags ask for. */
  lemma LeafGrants(k: Level, addr: nat, f: Flags)
    requires k <= PDPT && addr % Size(k) == 0 && addr < PHYS_LIMIT
    ensures Grants(LeafEntry(k, addr, f)) == Asked(f)
  {
    var low, n := f.low, (if k == PT then 0 else 1) + 2 * (if f.global then 1 else 0);
    var bits := OrPresent(low) + 0x80 * n;
    assert LeafLow(k, f) == bits;
    LeafAttr(k, addr, f, bits);
    LowBits8(LeafEntry(k, addr, f));
    FlagBit(low, n, 0x1, 0x20);
    FlagBit(low, n, 0x2, 0x10);
    FlagBit(low, n, 0x4, 0x8);
    FlagBit(low, n, 0x8, 0x4);
    FlagBit(low, n, 0x10, 0x2);
    FlagBit(low, n, 0x20, 0x1);
    GlobalBit(low, if k == PT then 0 else 1, if f.global then 1 else 0);
  }

  lemma LeafAttr(k: Level, addr: nat, f: Flags, bits: nat)
    requires k <= PDPT && addr % Size(k) == 0 && addr < PHYS_LIMIT && bits == LeafLow(k, f)
    ensures LeafEntry(k, addr, f) % PAGE == bits
    ensures BitAt(LeafEntry(k, addr, f), 0x8000_0000_0000_0000) <==> f.executeDisable
  {
    LeafLowBits(k, f);
    LeafDecode(k, addr, f);
    AttrParts(LeafEntry(k, addr, f));
    var high := if f.executeDisable then 1 else 0;
    DecodeAddr(0, bits, high);
    DecodeTop(0, bits, high);
  }

  // ---------- down the levels ----------

  function SlotRights(s: Shape, l: Level, a: nat): Option<Rights>
    decreases l, 0
  {
    match s
    case Entry(raw) => if IsPresent(raw) then Some(Grants(raw)) else None
    case Table(attr, slots) => if l == PT then None else ThroughAll(Grants(attr), TableRights(slots, l - 1, a))
  }

  function TableRights(slots: seq<Shape>, l: Level, a: nat): Option<Rights>
    decreases l, 1
  {
    if |slots| != 512 then None else SlotRights(slots[Index(l, a)], l, a)
  }

  /** Memory grants what the shape of the tree in it grants. */
  lemma {:induction false} RightsInTree(m: Memory, t: Tree, l: Level, a: nat)
    requires Holds(m, t, l)
    ensures RightsAt(m, t.frame, l, a) == TableRights(ShapesOf(t.slots), l, a)
    decreases l
  {
    var s := t.slots[Index(l, a)];
    assert HoldsSlot(m, s, l);
    assert ShapesOf(t.slots)[Index(l, a)] == ShapeOf(s);
    if s.Link? {
      RightsInTree(m, s.sub, l - 1, a);
      GrantsAttr(s.raw);
    }
  }

  /** Shapes that are alike grant the same. */
  lemma {:induction false} RightsAlike(s: Shape, t: Shape, l: Level, a: nat)
    requires Alike(s, t)
    ensures SlotRights(s, l, a) == SlotRights(t, l, a)
    decreases l
  {
    if s.Entry? {
      GrantsSame(s.raw, t.raw);
    } else if l > PT && |s.slots| == 512 {
      RightsAlike(s.slots[Index(l - 1, a)], t.slots[Index(l - 1, a)], l - 1, a);
    }
  }

  /** What a leaf that a walk ends at grants. */
  function LeafRights(leaf: Option<Leaf>): Option<Rights> {
    if leaf.None? then None else Some(Grants(leaf.value.raw))
  }

  /** An entry that points to a lower table takes nothing away. */
  lemma RelayOpen(r: Option<Rights>)
    ensures ThroughAll(Grants(RELAY_BITS), r) == r
  {
  }

  lemma RelayRights(s: Shape, slots: seq<Shape>, l: Level, a: nat)
    requires s == Table(RELAY_BITS, slots) && l > PT
    requires TableRights(slots, l - 1, a) == LeafRights(FindTable(slots, l - 1, a))
    ensures SlotRights(s, l, a) == LeafRights(FindSlot(s, l, a))
  {
    RelayOpen(TableRights(slots, l - 1, a));
    FindBelow(RELAY_BITS, slots, l, a);
  }

  lemma EntryRights(s: Shape, l: Level, a: nat)
    requires s.Entry?
    ensures SlotRights(s, l, a) == LeafRights(FindSlot(s, l, a))
  {
  }

  lemma RightsInSlots(slots: seq<Shape>, l: Level, a: nat)
    requires |slots| == 512
    ensures TableRights(slots, l, a) == SlotRights(slots[Index(l, a)], l, a)
    ensures FindTable(slots, l, a) == FindSlot(slots[Index(l, a)], l, a)
  {
  }

  /** In a table that was built, only the leaf decides. */
  lemma {:induction false} BuiltRights(list: seq<Mapping>, allow: Level, l: Level, start: nat, a: nat)
    ensures SlotRights(WantedSlot(list, allow, l, start), l, a) == LeafRights(FindSlot(WantedSlot(list, allow, l, start), l, a))
    decreases l, 0
  {
    if NeedsTable(list, allow, l, start) {
      TableOfSlot(list, allow, l, start);
      BuiltTableRights(list, allow, l - 1, start, a);
      RelayRights(WantedSlot(list, allow, l, start), WantedTable(list, allow, l - 1, start), l, a);
    } else {
      EntryOfSlot(list, allow, l, start);
      EntryRights(WantedSlot(list, allow, l, start), l, a);
    }
  }

  lemma {:induction false} BuiltTableRights(list: seq<Mapping>, allow: Level, l: Level, base: nat, a: nat)
    ensures TableRights(WantedTable(list, allow, l, base), l, a) == LeafRights(FindTable(WantedTable(list, allow, l, base), l, a))
    decreases l, 1
  {
    SlotOfTable(list, allow, l, base, Index(l, a));
    RightsInSlots(WantedTable(list, allow, l, base), l, a);
    BuiltRights(list, allow, l, SlotStart(l, base, Index(l, a)), a);
  }

  lemma ExpectedRights(list: seq<Mapping>, allow: Level, l: Level, a: nat)
    requires AllWithin(list, PHYS_LIMIT)
    ensures var leaf := ExpectedLeaf(list, allow, l, a);
      leaf.Some? ==> LastWriter(list, a).Some? && LeafRights(leaf) == Some(Asked(LastWriter(list, a).value))
  {
    var k := LeafLevel(list, allow, l, a);
    if LastWriter(list, a).Some? && k <= PDPT {
      var i := LastWriterWitness(list, a);
      BlockSplit(k, a);
      LeafGrants(k, BlockOf(k, a), LastWriter(list, a).value);
    }
  }

  // ---------- the entries above the leaf ----------

  /** An entry to a lower table with PRESENT, WRITABLE and USER_PAGE set, and no other flag bit. */
  predicate OpenRelay(e: nat) {
    e % 0x1000 == 0x7 && !BitAt(e, 0x8000_0000_0000_0000)
  }

  /** All entries that a walk passes on its way to a leaf are such. */
  predicate OpenPath(m: Memory, frame: nat, l: Level, a: nat)
    decreases l
  {
    frame in m && |m[frame]| == 512 ==>
      var e := m[frame][Index(l, a)];
      IsPresent(e) && l != PT && !IsHuge(e) ==> OpenRelay(e) && OpenPath(m, AddrOf(e), l - 1, a)
  }

  ghost predicate OpenSlot(s: Shape, l: Level, a: nat)
    decreases l, 0
  {
    s.Table? && l > PT ==> OpenRelay(s.attr) && OpenTable(s.slots, l - 1, a)
  }

  ghost predicate OpenTable(slots: seq<Shape>, l: Level, a: nat)
    decreases l, 1
  {
    |slots| == 512 ==> OpenSlot(slots[Index(l, a)], l, a)
  }

  lemma OpenAttr(e: nat)
    ensures OpenRelay(AttrOf(e)) <==> OpenRelay(e)
  {
    AttrParts(e);
  }

  lemma {:induction false} OpenInTree(m: Memory, t: Tree, l: Level, a: nat)
    requires Holds(m, t, l) && OpenTable(ShapesOf(t.slots), l, a)
    ensures OpenPath(m, t.frame, l, a)
    decreases l
  {
    var s := t.slots[Index(l, a)];
    assert HoldsSlot(m, s, l);
    assert ShapesOf(t.slots)[Index(l, a)] == ShapeOf(s);
    if s.Link? {
      OpenAttr(s.raw);
      OpenInTree(m, s.sub, l - 1, a);
    }
  }

  lemma {:induction false} OpenAlike(s: Shape, t: Shape, l: Level, a: nat)
    requires Alike(s, t) && OpenSlot(t, l, a)
    ensures OpenSlot(s, l, a)
    decreases l
  {
    if s.Table? && l > PT && |s.slots| == 512 {
      OpenAlike(s.slots[Index(l - 1, a)], t.slots[Index(l - 1, a)], l - 1, a);
    }
  }

  lemma RelayIsOpen()
    ensures OpenRelay(RELAY_BITS)
  {
  }

  lemma OpenBelow(s: Shape, slots: seq<Shape>, l: Level, a: nat)
    requires s == Table(RELAY_BITS, slots) && l > PT && OpenTable(slots, l - 1, a)
    ensures OpenSlot(s, l, a)
  {
    RelayIsOpen();
  }

  lemma {:induction false} BuiltOpen(list: seq<Mapping>, allow: Level, l: Level, start: nat, a: nat)
    ensures OpenSlot(WantedSlot(list, allow, l, start), l, a)
    decreases l, 0
  {
    if NeedsTable(list, allow, l, start) {
      TableOfSlot(list, allow, l, start);
      BuiltTableOpen(list, allow, l - 1, start, a);
      OpenBelow(WantedSlot(list, allow, l, start), WantedTable(list, allow, l - 1, start), l, a);
    } else {
      EntryOfSlot(list, allow, l, start);
    }
  }

  lemma OpenInSlots(slots: seq<Shape>, l: Level, a: nat)
    requires |slots| == 512 && OpenSlot(slots[Index(l, a)], l, a)
    ensures OpenTable(slots, l, a)
  {
  }

  lemma {:induction false} BuiltTableOpen(list: seq<Mapping>, allow: Level, l: Level, base: nat, a: nat)
    ensures OpenTable(WantedTable(list, allow, l, base), l, a)
    decreases l, 1
  {
    SlotOfTable(list, allow, l, base, Index(l, a));
    BuiltOpen(list, allow, l, SlotStart(l, base, Index(l, a)), a);
    OpenInSlots(WantedTable(list, allow, l, base), l, a);
  }

  /** In every created or updated tree the entries above the leaves have these three bits and no others. */
  lemma RelaysAreOpen(m: Memory, t: Tree, top: TopTable, allow: Level, a: nat)
    requires Represents(m, t, top, allow) && AllWithin(top.Mapping(), PHYS_LIMIT)
    ensures OpenPath(m, top.phys, top.level, a)
  {
    var list, l, i := top.Mapping(), top.level, Index(top.level, a);
    ShapedAlike(ShapesOf(t.slots), list, allow, l);
    SlotOfTable(list, allow, l, 0, i);
    BuiltOpen(list, allow, l, SlotStart(l, 0, i), a);
    OpenAlike(ShapesOf(t.slots)[i], WantedTable(list, allow, l, 0)[i], l, a);
    OpenInSlots(ShapesOf(t.slots), l, a);
    OpenInTree(m, t, l, a);
  }

  // ---------- what is promised ----------

  lemma {:induction false} FoundIffRights(m: Memory, frame: nat, l: Level, a: nat)
    ensures Find(m, frame, l, a).Some? <==> RightsAt(m, frame, l, a).Some?
    decreases l
  {
    if frame in m && |m[frame]| == 512 {
      var e := m[frame][Index(l, a)];
      if IsPresent(e) && l != PT && !IsHuge(e) {
        FoundIffRights(m, AddrOf(e), l - 1, a);
      }
    }
  }

  /**
    After a build and after any updates, for all flags: wherever a walk finds an address, the
    processor grants there exactly what the mapping asks for, and with large pages up to 1 GiB it
    finds every address the mapping has.
   */
  lemma RightsAreAsAsked(m: Memory, t: Tree, top: TopTable, allow: Level, a: nat)
    requires Represents(m, t, top, allow) && Mappable(top.Mapping()) && a < Span(top.level)
    ensures Find(m, top.phys, top.level, a).Some? ==>
      && LastWriter(top.Mapping(), a).Some?
      && RightsAt(m, top.phys, top.level, a) == Some(Asked(LastWriter(top.Mapping(), a).value))
    ensures Find(m, top.phys, top.level, a).None? ==> RightsAt(m, top.phys, top.level, a) == None
    ensures allow <= PDPT ==> (Find(m, top.phys, top.level, a).Some? <==> LastWriter(top.Mapping(), a).Some?)
  {
    var list, l := top.Mapping(), top.level;
    RightsInTree(m, t, l, a);
    ShapedRights(ShapesOf(t.slots), list, allow, l, a);
    ExpectedRights(list, allow, l, a);
    FoundIffRights(m, top.phys, l, a);
    LeafLevelAllowed(list, allow, l, a);
  }

  lemma ShapedRights(slots: seq<Shape>, list: seq<Mapping>, allow: Level, l: Level, a: nat)
    requires Shaped(slots, list, allow, l) && Mappable(list) && a < Span(l)
    ensures TableRights(slots, l, a) == LeafRights(ExpectedLeaf(list, allow, l, a))
  {
    ShapedAlike(slots, list, allow, l);
    SlotOfTable(list, allow, l, 0, Index(l, a));
    RightsAlike(slots[Index(l, a)], WantedTable(list, allow, l, 0)[Index(l, a)], l, a);
    BuiltTableRights(list, allow, l, 0, a);
    WalkTable(list, allow, l, 0, a);
  }

  /** After any run of requests: what the last one asks for at the address, and nothing where it maps nothing. */
  lemma ServedRights(m: Memory, t: Tree, top: TopTable, q: Request, a: nat)
    requires Serves(m, t, top, q) && AllAligned(Zip(q.maps, q.flags)) && a < Span(top.level) && q.allow <= PDPT
    ensures var w := LastWriter(Zip(q.maps, q.flags), a);
      RightsAt(m, top.phys, top.level, a) == if w.Some? then Some(Asked(w.value)) else None
  {
    var input := Zip(q.maps, q.flags);
    MappableOutput(input, top.Mapping());
    assert LastWriter(top.Mapping(), a) == LastWriter(input, a);
    RightsAreAsAsked(m, t, top, q.allow, a);
  }
}
