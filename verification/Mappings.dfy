/**
  Address ranges, page flags and lists of mappings, together with the meaning of such a list:
  the flags an address gets are those of the LAST entry whose range contains it.
 */
module Mappings {
  import opened Options

  const PAGE: nat := 0x1000

  /** A half-open range of addresses; `start + len` is assumed not to overflow 64 bits. */
  datatype Range = Range(start: nat, len: nat) {

    function End(): nat {
      start + len
    }

    predicate Contains(a: nat) {
      start <= a < End()
    }

    /** The overlap test used throughout the paging code. */
    predicate Overlaps(that: Range) {
      start < that.End() && End() > that.start
    }

    predicate Covers(lo: nat, hi: nat) {
      start <= lo && hi <= End()
    }

    predicate Aligned() {
      start % PAGE == 0 && len % PAGE == 0
    }
  }

  /**
    The software page flags. `low` holds the seven flags PRESENT (1), WRITABLE (2), USER_PAGE (4),
    PWT (8), PCD (0x10), ACCESSED (0x20) and DIRTY (0x40), which keep their bit positions in a
    hardware entry; the other four do not, and stand alone.
   */
  datatype Flags = Flags(low: LowFlags, pat: bool, global: bool, executeDisable: bool, huge: bool) {

    predicate Present() {
      low % 2 == 1
    }

    predicate IsEmpty() {
      low == 0 && !pat && !global && !executeDisable && !huge
    }
  }

  type LowFlags = n: nat | n < 0x80

  datatype Mapping = Mapping(range: Range, flags: Flags)

  /** The two parallel vectors of the source, read together as `iter().zip()` reads them. */
  function Zip(maps: seq<Range>, flags: seq<Flags>): (list: seq<Mapping>)
    ensures |list| == if |maps| <= |flags| then |maps| else |flags|
    ensures forall i :: 0 <= i < |list| ==> list[i] == Mapping(maps[i], flags[i])
  {
    seq(if |maps| <= |flags| then |maps| else |flags|,
      i requires 0 <= i < |maps| && i < |flags| => Mapping(maps[i], flags[i]))
  }

  /** The meaning of a list: later entries override earlier ones. */
  function LastWriter(list: seq<Mapping>, a: nat): Option<Flags> {
    if list == [] then None
    else
      var last := list[|list| - 1];
      if last.range.Contains(a) then Some(last.flags)
      else LastWriter(list[..|list| - 1], a)
  }

  ghost predicate SameMeaning(xs: seq<Mapping>, ys: seq<Mapping>) {
    forall a: nat :: LastWriter(xs, a) == LastWriter(ys, a)
  }

  /** No address lies in both ranges. */
  predicate Apart(r: Range, s: Range) {
    r.len == 0 || s.len == 0 || r.End() <= s.start || s.End() <= r.start
  }

  ghost predicate Disjoint(list: seq<Mapping>) {
    forall i, j :: 0 <= i < j < |list| ==> Apart(list[i].range, list[j].range)
  }

  ghost predicate SortedByStart(list: seq<Mapping>) {
    forall i, j :: 0 <= i < j < |list| ==> list[i].range.start <= list[j].range.start
  }

  ghost predicate AllPositive(list: seq<Mapping>) {
    forall i :: 0 <= i < |list| ==> list[i].range.len > 0
  }

  ghost predicate AllAligned(list: seq<Mapping>) {
    forall i :: 0 <= i < |list| ==> list[i].range.Aligned()
  }

  /** Every range ends at or below `limit`. */
  ghost predicate AllWithin(list: seq<Mapping>, limit: nat) {
    forall i :: 0 <= i < |list| ==> list[i].range.End() <= limit
  }

  /** The flags that occur in a list. */
  ghost function FlagsOf(list: seq<Mapping>): set<Flags> {
    set m | m in list :: m.flags
  }

  /** Two mappings that the merge pass joins into one. */
  predicate Fusable(m: Mapping, n: Mapping) {
    m.range.End() == n.range.start && m.flags == n.flags
  }

  /** The canonical list: non-empty ranges, in order, disjoint, and no two neighbours fusable. */
  ghost predicate IsNormal(list: seq<Mapping>) {
    && AllPositive(list)
    && (forall i, j :: 0 <= i < j < |list| ==> list[i].range.End() <= list[j].range.start)
    && (forall i :: 0 <= i < |list| - 1 ==> !Fusable(list[i], list[i + 1]))
  }

  lemma FlagsOfConcat(xs: seq<Mapping>, ys: seq<Mapping>)
    ensures FlagsOf(xs + ys) == FlagsOf(xs) + FlagsOf(ys)
  {
    forall f ensures f in FlagsOf(xs + ys) <==> f in FlagsOf(xs) + FlagsOf(ys) {
      if f in FlagsOf(xs) + FlagsOf(ys) {
        var m :| (m in xs || m in ys) && m.flags == f;
        assert m in xs + ys;
      }
    }
  }

  // ---------- facts about LastWriter ----------

  lemma {:induction false} LastWriterConcat(xs: seq<Mapping>, ys: seq<Mapping>, a: nat)
    ensures LastWriter(xs + ys, a) ==
            if LastWriter(ys, a).Some? then LastWriter(ys, a) else LastWriter(xs, a)
  {
    if ys == [] {
      assert xs + ys == xs;
    } else {
      assert (xs + ys)[..|xs + ys| - 1] == xs + ys[..|ys| - 1];
      LastWriterConcat(xs, ys[..|ys| - 1], a);
    }
  }

  lemma LastWriterOne(m: Mapping, a: nat)
    ensures LastWriter([m], a) == if m.range.Contains(a) then Some(m.flags) else None
  {
    assert [m][..0] == [];
  }

  /** An answer always comes from an entry that contains the address. */
  lemma {:induction false} LastWriterWitness(list: seq<Mapping>, a: nat) returns (i: int)
    requires LastWriter(list, a).Some?
    ensures 0 <= i < |list| && list[i].range.Contains(a) && LastWriter(list, a) == Some(list[i].flags)
  {
    var n := |list| - 1;
    if list[n].range.Contains(a) {
      i := n;
    } else {
      i := LastWriterWitness(list[..n], a);
    }
  }

  /** In a disjoint list any entry that contains the address decides the answer. */
  lemma {:induction false} DisjointWriter(list: seq<Mapping>, a: nat, i: nat)
    requires Disjoint(list)
    requires i < |list| && list[i].range.Contains(a)
    ensures LastWriter(list, a) == Some(list[i].flags)
  {
    var n := |list| - 1;
    if i < n {
      assert Apart(list[i].range, list[n].range);
      assert list[..n][i] == list[i];
      DisjointWriter(list[..n], a, i);
    }
  }

  lemma NoWriter(list: seq<Mapping>, a: nat)
    requires forall i :: 0 <= i < |list| ==> !list[i].range.Contains(a)
    ensures LastWriter(list, a) == None
  {
    if LastWriter(list, a).Some? {
      var i := LastWriterWitness(list, a);
    }
  }

  lemma NormalDisjoint(list: seq<Mapping>)
    requires IsNormal(list)
    ensures Disjoint(list)
  {
  }
}
