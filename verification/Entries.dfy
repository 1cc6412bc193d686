/**
  Page levels and the raw 64-bit entries of x86-64 paging, as numbers: bit 0 is PRESENT, bit 7 is
  the large-page bit, bits 12 to 51 hold an address and bit 63 disables execution. An `or` of bits
  that are known to be clear is written as a sum.
 */
module Entries {
  import opened Arith
  import opened Mappings

  // ---------- levels ----------

  type Level = l: int | 0 <= l <= 4

  const PT: Level := 0
  const PD: Level := 1
  const PDPT: Level := 2
  const PML4: Level := 3
  const PML5: Level := 4

  /** Bytes mapped by one entry: `1 << (level * 9 + 12)`. */
  function Size(l: Level): (n: nat)
    ensures n > 0 && n % PAGE == 0
  {
    match l
    case 0 => 0x1000
    case 1 => 0x20_0000
    case 2 => 0x4000_0000
    case 3 => 0x80_0000_0000
    case _ => 0x1_0000_0000_0000
  }

  lemma SizeStep(l: Level)
    requires l > 0
    ensures Size(l) == 512 * Size(l - 1)
  {
  }

  /** `get_index`: nine bits of the address. */
  function Index(l: Level, a: nat): (i: nat)
    ensures i < 512
  {
    a / Size(l) % 512
  }

  /** Start of the block of one level that holds the address. */
  function BlockOf(l: Level, a: nat): nat {
    a / Size(l) * Size(l)
  }

  /** The index picks the block that holds the address, in any table whose span holds it. */
  lemma IndexOfBlock(l: Level, base: nat, a: nat)
    requires base % (512 * Size(l)) == 0 && base <= a < base + 512 * Size(l)
    ensures base + Index(l, a) * Size(l) == BlockOf(l, a)
    ensures BlockOf(l, a) <= a < BlockOf(l, a) + Size(l)
  {
    var s := Size(l);
    var c := base / (512 * s);
    var i, r := Split(a - base, s);
    assert a == (c * 512 + i) * s + r;
    DivMod(c * 512 + i, r, s);
    if i >= 512 {
      MulMono(512, i, s);
    }
    DivMod(c, i, 512);
  }

  lemma BlockUnique(l: Level, start: nat, a: nat)
    requires start % Size(l) == 0 && start <= a < start + Size(l)
    ensures start == BlockOf(l, a)
  {
    DivMod(start / Size(l), a - start, Size(l));
  }

  lemma BlockSplit(l: Level, a: nat)
    ensures BlockOf(l, a) + a % Size(l) == a
    ensures BlockOf(l, a) % Size(l) == 0
  {
    DivMod(a / Size(l), 0, Size(l));
  }

  lemma BlockPageAligned(l: Level, start: nat)
    requires start % Size(l) == 0
    ensures start % PAGE == 0
  {
    var q := start / Size(l);
    var k := Size(l) / PAGE;
    assert start == (q * k) * PAGE + 0;
    DivMod(q * k, 0, PAGE);
  }

  /** The i-th block of a table that starts at `base`. */
  lemma SubBlock(l: Level, base: nat, i: nat)
    requires base % (512 * Size(l)) == 0 && i < 512
    ensures (base + i * Size(l)) % Size(l) == 0
    ensures base + i * Size(l) + Size(l) <= base + 512 * Size(l)
  {
    var s := Size(l);
    var c := base / (512 * s);
    assert base + i * s == (c * 512 + i) * s + 0;
    DivMod(c * 512 + i, 0, s);
    MulMono(i + 1, 512, s);
  }

  // ---------- reading an entry ----------

  const BIT63: nat := 0x8000_0000_0000_0000
  const PHYS_LIMIT: nat := 0x10_0000_0000_0000

  predicate IsPresent(e: nat) {
    e % 2 == 1
  }

  predicate IsHuge(e: nat) {
    e / 0x80 % 2 == 1
  }

  /** `e & 0x000F_FFFF_FFFF_F000`. */
  function AddrOf(e: nat): nat {
    e / PAGE % 0x100_0000_0000 * PAGE
  }

  /** `e & 0x8000_0000_0000_0FFF`. */
  function AttrOf(e: nat): nat {
    e % PAGE + e / BIT63 % 2 * BIT63
  }

  lemma DecodeAddr(addr: nat, low: nat, high: nat)
    requires addr % PAGE == 0 && addr < PHYS_LIMIT && low < PAGE
    requires high == 0 || high == 1
    ensures AddrOf(addr + low + high * BIT63) == addr
    ensures (addr + low + high * BIT63) % PAGE == low
  {
    var page := addr / PAGE;
    DivMod(high * 0x800 * 0x100_0000_0000 + page, low, PAGE);
    DivMod(high * 0x800, page, 0x100_0000_0000);
  }

  /** The limit is what an entry can hold: exactly the page addresses below it come out of entries. */
  lemma HoldableAddresses(a: nat)
    ensures AddrOf(a) < PHYS_LIMIT && AddrOf(a) % PAGE == 0
    ensures a % PAGE == 0 && a < PHYS_LIMIT <==> AddrOf(a) == a
  {
    var page := a / PAGE % 0x100_0000_0000;
    DivMod(page, 0, PAGE);
    MulMono(page, 0x100_0000_0000 - 1, PAGE);
    if a % PAGE == 0 && a < PHYS_LIMIT {
      DecodeAddr(a, 0, 0);
    }
  }

  lemma DecodeTop(addr: nat, low: nat, high: nat)
    requires addr < PHYS_LIMIT && low < PAGE
    requires high == 0 || high == 1
    ensures (addr + low + high * BIT63) / BIT63 % 2 == high
  {
    Digit(addr + low + high * BIT63, 0, high, addr + low, BIT63);
  }

  lemma DecodePs(addr: nat, low: nat, high: nat)
    requires addr % PAGE == 0 && low < PAGE
    ensures (addr + low + high * BIT63) / 0x80 % 2 == low / 0x80 % 2
  {
    var h, r := Split(low, 0x80);
    var q, b := Split(h, 2);
    var page := addr / PAGE;
    Digit(addr + low + high * BIT63, page * 0x10 + high * 0x80_0000_0000_0000 + q, b, r, 0x80);
  }

  lemma DecodePresent(addr: nat, low: nat, high: nat)
    requires addr % PAGE == 0
    ensures (addr + low + high * BIT63) % 2 == low % 2
  {
    var q, b := Split(low, 2);
    LastDigit(addr + low + high * BIT63, addr / PAGE * 0x800 + q + high * 0x4000_0000_0000_0000, b);
  }

  /** Decoding the sum of an address, twelve low bits and bit 63. */
  lemma DecodeParts(e: nat, addr: nat, low: nat, top: nat)
    requires e == addr + low + top
    requires addr % PAGE == 0 && addr < PHYS_LIMIT
    requires low < PAGE && (top == 0 || top == BIT63)
    ensures AddrOf(e) == addr
    ensures AttrOf(e) == low + top
    ensures IsPresent(e) <==> low % 2 == 1
    ensures IsHuge(e) <==> low / 0x80 % 2 == 1
  {
    var high := if top == 0 then 0 else 1;
    assert e == addr + low + high * BIT63;
    DecodeAddr(addr, low, high);
    DecodeTop(addr, low, high);
    DecodePs(addr, low, high);
    DecodePresent(addr, low, high);
  }

  // ---------- the flag bits of an entry ----------

  function Bit(b: bool, v: nat): nat {
    if b then v else 0
  }

  /** `to_ptf`: PAT and HUGE are dropped. */
  function ToPtf(f: Flags): nat {
    f.low + Bit(f.global, 0x100) + Bit(f.executeDisable, BIT63)
  }

  /** `to_pdptf` and `to_pdf`, which agree: PAT is bit 12 and HUGE is bit 7. */
  function ToLargef(f: Flags): nat {
    ToPtf(f) + Bit(f.huge, 0x80) + Bit(f.pat, 0x1000)
  }

  /** `bits | 1`. */
  function OrPresent(bits: nat): nat {
    if bits % 2 == 1 then bits else bits + 1
  }

  /** `bits | 1 << 7`. */
  function OrPs(bits: nat): nat {
    if bits / 0x80 % 2 == 1 then bits else bits + 0x80
  }

  /** `bits | 1 << 12`. */
  function OrBit12(bits: nat): nat {
    if bits / 0x1000 % 2 == 1 then bits else bits + 0x1000
  }

  /** Bit 7, when set, is cleared and bit 12 set instead. */
  function MoveBit7(bits: nat): nat {
    if bits / 0x80 % 2 == 1 then OrBit12(bits - 0x80) else bits
  }

  // ---------- the entries the code writes ----------

  /** A 4 KiB leaf. */
  function PtEntry(addr: nat, f: Flags): nat {
    addr + OrPresent(ToPtf(f))
  }

  /** A large leaf as the builder writes it: a set bit 7 is first moved to bit 12. */
  function BuilderHugeEntry(l: Level, addr: nat, f: Flags): nat {
    if l == PDPT || l == PD then
      addr + OrPresent(OrPs(MoveBit7(ToLargef(f))))
    else 0
  }

  /** A large leaf as the updater writes it. */
  function UpdaterHugeEntry(l: Level, addr: nat, f: Flags): nat {
    if l == PDPT || l == PD then addr + OrPresent(OrPs(ToLargef(f))) else 0
  }

  /** An entry that points to a lower table: PRESENT, WRITABLE and USER_PAGE at every level. */
  const RELAY_BITS: nat := 7

  function RelayEntry(frame: nat): nat {
    frame + RELAY_BITS
  }

  /** The low twelve bits a leaf ends up with. */
  function LeafLow(l: Level, f: Flags): nat {
    OrPresent(f.low) + Bit(l != PT, 0x80) + Bit(f.global, 0x100)
  }

  function Nx(f: Flags): (n: nat)
    ensures n == 0 || n == BIT63
  {
    Bit(f.executeDisable, BIT63)
  }

  lemma SumBits(low: nat, h: nat, g: nat, p: nat, t: nat)
    requires low < 0x80 && h <= 1 && g <= 1 && p <= 1 && t <= 1
    ensures var bits := low + 0x80 * h + 0x100 * g + 0x1000 * p + BIT63 * t;
      bits / 0x80 % 2 == h && bits / 0x1000 % 2 == p && bits % 2 == low % 2
  {
    var bits := low + 0x80 * h + 0x100 * g + 0x1000 * p + BIT63 * t;
    Digit(bits, g + 0x10 * p + 0x80_0000_0000_0000 * t, h, low, 0x80);
    Digit(bits, 0x4_0000_0000_0000 * t, p, low + 0x80 * h + 0x100 * g, 0x1000);
    var q, b := Split(low, 2);
    LastDigit(bits, q + 0x40 * h + 0x80 * g + 0x800 * p + 0x4000_0000_0000_0000 * t, b);
  }

  lemma LeafLowBits(l: Level, f: Flags)
    ensures LeafLow(l, f) < PAGE && LeafLow(l, f) % 2 == 1
    ensures LeafLow(l, f) / 0x80 % 2 == if l == PT then 0 else 1
  {
    SumBits(OrPresent(f.low), Bit(l != PT, 1), Bit(f.global, 1), 0, 0);
  }

  lemma PtEntryParts(addr: nat, f: Flags)
    ensures PtEntry(addr, f) == addr + LeafLow(PT, f) + Nx(f)
  {
    SumBits(f.low, 0, Bit(f.global, 1), 0, Bit(f.executeDisable, 1));
  }

  /** The three bits of `ToLargef` that the entry constructors test. */
  lemma ToLargefBits(f: Flags)
    ensures ToLargef(f) / 0x80 % 2 == Bit(f.huge, 1)
    ensures ToLargef(f) % 2 == f.low % 2
    ensures ToLargef(f) / 0x1000 % 2 == Bit(f.pat, 1)
  {
    SumBits(f.low, Bit(f.huge, 1), Bit(f.global, 1), Bit(f.pat, 1), Bit(f.executeDisable, 1));
  }

  function MovedFlags(f: Flags): Flags {
    if f.huge then f.(huge := false, pat := true) else f
  }

  lemma Moved(f: Flags)
    ensures MoveBit7(ToLargef(f)) == ToLargef(MovedFlags(f))
  {
    ToLargefBits(f);
    ToLargefBits(f.(huge := false));
  }

  lemma OrBoth(f: Flags)
    ensures OrPresent(OrPs(ToLargef(f))) == Bit(f.pat, 0x1000) + LeafLow(PD, f) + Nx(f)
  {
    ToLargefBits(f);
    ToLargefBits(f.(huge := true));
    assert OrPs(ToLargef(f)) == ToLargef(f.(huge := true));
  }

  /** Both large-leaf encodings, bit by bit. */
  lemma HugeEntryParts(l: Level, addr: nat, f: Flags)
    requires l == PD || l == PDPT
    ensures BuilderHugeEntry(l, addr, f) == addr + Bit(f.pat || f.huge, 0x1000) + LeafLow(l, f) + Nx(f)
    ensures UpdaterHugeEntry(l, addr, f) == addr + Bit(f.pat, 0x1000) + LeafLow(l, f) + Nx(f)
  {
    OrBoth(f);
    Moved(f);
    OrBoth(MovedFlags(f));
  }

  /** The updater writes what the builder would write without HUGE. */
  lemma UpdaterAsBuilder(l: Level, addr: nat, f: Flags)
    requires l == PD || l == PDPT
    ensures UpdaterHugeEntry(l, addr, f) == BuilderHugeEntry(l, addr, f.(huge := false))
  {
    HugeEntryParts(l, addr, f);
    HugeEntryParts(l, addr, f.(huge := false));
  }

  /** The builder and the updater write the same large leaf exactly when HUGE comes with PAT. */
  lemma HugeEncodingsAgree(l: Level, addr: nat, f: Flags)
    requires l == PD || l == PDPT
    ensures BuilderHugeEntry(l, addr, f) == UpdaterHugeEntry(l, addr, f) <==> SameHugeBits(f)
  {
    HugeEntryParts(l, addr, f);
  }

  predicate SameHugeBits(f: Flags) {
    f.huge ==> f.pat
  }

  /** The leaf entry the builder writes at a level, 0 where no large page exists. */
  function LeafEntry(l: Level, addr: nat, f: Flags): nat {
    if l == PT then PtEntry(addr, f) else BuilderHugeEntry(l, addr, f)
  }

  /** How far the address read back from a leaf is off: bit 12 of a large leaf is not an address bit. */
  function Skew(l: Level, f: Flags): nat {
    Bit(l != PT && (f.pat || f.huge), 0x1000)
  }

  /** Reading back a leaf: always present, the large bit where it belongs, the address off by Skew. */
  lemma LeafDecode(l: Level, addr: nat, f: Flags)
    requires l <= PDPT && addr % Size(l) == 0 && addr < PHYS_LIMIT
    ensures AddrOf(LeafEntry(l, addr, f)) == addr + Skew(l, f)
    ensures AttrOf(LeafEntry(l, addr, f)) == LeafLow(l, f) + Nx(f)
    ensures IsPresent(LeafEntry(l, addr, f))
    ensures IsHuge(LeafEntry(l, addr, f)) <==> l != PT
  {
    var low, top := LeafLow(l, f), Nx(f);
    LeafLowBits(l, f);
    LeafSum(l, addr, f);
    SkewFits(l, addr, f);
    DecodeParts(LeafEntry(l, addr, f), addr + Skew(l, f), low, top);
  }

  lemma LeafSum(l: Level, addr: nat, f: Flags)
    requires l <= PDPT
    ensures LeafEntry(l, addr, f) == addr + Skew(l, f) + LeafLow(l, f) + Nx(f)
  {
    if l == PT {
      PtEntryParts(addr, f);
    } else {
      HugeEntryParts(l, addr, f);
    }
  }

  lemma NextPage(addr: nat)
    requires addr % PAGE == 0
    ensures (addr + PAGE) % PAGE == 0
  {
    var q, r := Split(addr, PAGE);
    DivMod(q + 1, 0, PAGE);
  }

  lemma SkewFits(l: Level, addr: nat, f: Flags)
    requires l <= PDPT && addr % Size(l) == 0 && addr < PHYS_LIMIT
    ensures (addr + Skew(l, f)) % PAGE == 0 && addr + Skew(l, f) < PHYS_LIMIT
  {
    BlockPageAligned(l, addr);
    NextPage(addr);
    if l != PT {
      BlockFits(Size(l), PHYS_LIMIT / Size(l), addr);
    }
  }

  lemma BlockFits(s: nat, n: nat, addr: nat)
    requires s > 0 && addr % s == 0 && addr < n * s
    ensures addr + s <= n * s
  {
    var q := addr / s;
    if q >= n {
      MulMono(n, q, s);
    }
    MulMono(q + 1, n, s);
  }

  lemma RelayDecode(frame: nat)
    requires frame % PAGE == 0 && frame < PHYS_LIMIT
    ensures var e := RelayEntry(frame);
      && AddrOf(e) == frame && AttrOf(e) == RELAY_BITS && IsPresent(e) && !IsHuge(e)
  {
    DecodeParts(RelayEntry(frame), frame, RELAY_BITS, 0);
  }

  /** Flags whose leaf bits determine them: PRESENT set, PAT and HUGE clear. */
  predicate Plain(f: Flags) {
    f.Present() && !f.pat && !f.huge
  }

  lemma LeafBitsInjective(l: Level, f: Flags, g: Flags)
    requires Plain(f) && Plain(g)
    requires LeafLow(l, f) + Nx(f) == LeafLow(l, g) + Nx(g)
    ensures f == g
  {
    LeafLowBits(l, f);
    LeafLowBits(l, g);
    assert f.executeDisable == g.executeDisable && LeafLow(l, f) == LeafLow(l, g);
    assert f.global == g.global;
  }
}
