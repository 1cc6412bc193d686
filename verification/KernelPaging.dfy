/**
  How the kernel drives the page tables (src/main.rs): the paired filter over ranges and flags,
  and the path that adds ranges to the mapping recorded for a core.
 */
module KernelPaging {
  import opened Options
  import opened Mappings
  import opened Normalize
  import opened Entries
  import opened PageTrees
  import opened FrameTrees
  import opened PageMemory
  import opened Paging
  import opened AccessRights

  // ---------- the paired filter ----------

  function MaskNx(f: Flags, nx: bool): Flags {
    if nx then f else f.(executeDisable := false)
  }

  /** The filter drops a mapping that asks for nothing, or for nothing but EXECUTE_DISABLE where that does not exist. */
  predicate Dropped(f: Flags, nx: bool) {
    f.low == 0 && !f.pat && !f.global && !f.huge && (!f.executeDisable || !nx)
  }

  /** What it makes of flags that it keeps: EXECUTE_DISABLE stays only where it exists. */
  predicate Cleaned(f: Flags, g: Flags, nx: bool) {
    && g.low == f.low && g.pat == f.pat && g.global == f.global && g.huge == f.huge
    && (g.executeDisable <==> f.executeDisable && nx)
  }

  lemma MaskFacts(f: Flags, nx: bool)
    ensures MaskNx(f, nx).IsEmpty() <==> Dropped(f, nx)
    ensures Cleaned(f, MaskNx(f, nx), nx)
  {
  }

  /** What the filter keeps: flags without EXECUTE_DISABLE unless supported, and no empty flags. */
  function Keep(list: seq<Mapping>, nx: bool): seq<Mapping> {
    if list == [] then []
    else
      var last := list[|list| - 1];
      var f := MaskNx(last.flags, nx);
      Keep(list[..|list| - 1], nx) + if f.IsEmpty() then [] else [last.(flags := f)]
  }

  lemma KeepStep(list: seq<Mapping>, n: nat, nx: bool)
    requires n < |list|
    ensures var f := MaskNx(list[n].flags, nx);
      Keep(list[..n + 1], nx) == Keep(list[..n], nx) + if f.IsEmpty() then [] else [list[n].(flags := f)]
  {
    assert list[..n + 1][..n] == list[..n];
  }

  lemma ZipPush(maps: seq<Range>, flags: seq<Flags>, r: Range, f: Flags)
    requires |maps| == |flags|
    ensures Zip(maps + [r], flags + [f]) == Zip(maps, flags) + [Mapping(r, f)]
  {
  }

  /** The filter after `n` flags: the pairs kept stand in front of the ranges still to come. */
  ghost predicate Retaining(maps: seq<Range>, flags: seq<Flags>, nx: bool, n: nat, front: seq<Range>, kept: seq<Flags>) {
    && n <= |flags|
    && |front| <= |kept| && |kept| - |front| == (if n <= |maps| then 0 else n - |maps|)
    && Zip(front, kept) == Keep(Zip(maps, flags)[..Least(n, |maps|)], nx)
  }

  function Least(a: nat, b: nat): nat { if a <= b then a else b }

  lemma ZipLonger(maps: seq<Range>, flags: seq<Flags>, more: seq<Flags>)
    requires |maps| <= |flags|
    ensures Zip(maps, flags + more) == Zip(maps, flags)
  {
  }

  /** A flag with a range of its own. */
  lemma RetainPair(maps: seq<Range>, flags: seq<Flags>, nx: bool, n: nat, front: seq<Range>, kept: seq<Flags>)
    requires Retaining(maps, flags, nx, n, front, kept) && n < |maps| && n < |flags|
    ensures var f := MaskNx(flags[n], nx);
      if Dropped(flags[n], nx) then Retaining(maps, flags, nx, n + 1, front, kept)
      else Retaining(maps, flags, nx, n + 1, front + [maps[n]], kept + [f])
  {
    MaskFacts(flags[n], nx);
    KeepStep(Zip(maps, flags), n, nx);
    ZipPush(front, kept, maps[n], MaskNx(flags[n], nx));
  }

  /** `v.remove(i)`. */
  function Remove(v: seq<Range>, i: nat): seq<Range>
    requires i < |v|
  {
    v[..i] + v[i + 1..]
  }

  lemma RemoveAt(front: seq<Range>, maps: seq<Range>, n: nat)
    requires n < |maps|
    ensures Remove(front + maps[n..], |front|) == front + maps[n + 1..]
    ensures front + maps[n..] == (front + [maps[n]]) + maps[n + 1..]
  {
  }

  /** A dropped flag that has no range: removing the range at its index fails. */
  ghost predicate DropsPastEnd(maps: seq<Range>, flags: seq<Flags>, nx: bool) {
    exists n :: |maps| <= n < |flags| && Dropped(flags[n], nx)
  }

  /** The state of the filter between two flags. */
  ghost predicate Filtering(maps: seq<Range>, flags: seq<Flags>, nx: bool, n: nat, front: seq<Range>, maps': seq<Range>, flags': seq<Flags>) {
    && Retaining(maps, flags, nx, n, front, flags')
    && maps' == front + maps[Least(n, |maps|)..]
    && forall k :: |maps| <= k < n ==> !Dropped(flags[k], nx)
  }

  /** A dropped flag takes its range along; it has none exactly past the end of the ranges. */
  lemma FilterDrop(maps: seq<Range>, flags: seq<Flags>, nx: bool, n: nat, front: seq<Range>, maps': seq<Range>, flags': seq<Flags>)
    requires Filtering(maps, flags, nx, n, front, maps', flags') && n < |flags| && Dropped(flags[n], nx)
    ensures |flags'| < |maps'| <==> n < |maps|
    ensures n < |maps| ==> Filtering(maps, flags, nx, n + 1, front, Remove(maps', |flags'|), flags')
  {
    if n < |maps| {
      RetainPair(maps, flags, nx, n, front, flags');
      RemoveAt(front, maps, n);
    }
  }

  lemma FilterKeep(maps: seq<Range>, flags: seq<Flags>, nx: bool, n: nat, front: seq<Range>, maps': seq<Range>, flags': seq<Flags>)
    requires Filtering(maps, flags, nx, n, front, maps', flags') && n < |flags| && !Dropped(flags[n], nx)
    ensures Filtering(maps, flags, nx, n + 1, if n < |maps| then front + [maps[n]] else front, maps', flags' + [MaskNx(flags[n], nx)])
  {
    if n < |maps| {
      RetainPair(maps, flags, nx, n, front, flags');
      RemoveAt(front, maps, n);
    } else {
      ZipLonger(front, flags', [MaskNx(flags[n], nx)]);
    }
  }

  /** One round of the filter; it fails exactly when the flag is dropped and has no range. */
  method FilterOne(maps: seq<Range>, flags: seq<Flags>, nx: bool, n: nat, ghost front: seq<Range>, maps': seq<Range>, flags': seq<Flags>, i: nat)
    returns (ok: bool, ghost front': seq<Range>, maps'': seq<Range>, flags'': seq<Flags>, i': nat)
    requires Filtering(maps, flags, nx, n, front, maps', flags') && n < |flags| && i == |flags'|
    ensures ok ==> Filtering(maps, flags, nx, n + 1, front', maps'', flags'') && i' == |flags''|
    ensures !ok <==> |maps| <= n && Dropped(flags[n], nx)
  {
    var f := MaskNx(flags[n], nx);
    MaskFacts(flags[n], nx);
    ok, front', maps'', flags'', i' := true, front, maps', flags', i;
    if f.IsEmpty() {
      FilterDrop(maps, flags, nx, n, front, maps', flags');
      ok := i < |maps'|;
      if ok {
        maps'' := Remove(maps', i);
      }
    } else {
      FilterKeep(maps, flags, nx, n, front, maps', flags');
      front' := if n < |maps| then front + [maps[n]] else front;
      flags'', i' := flags' + [f], i + 1;
    }
  }

  lemma FilterStart(maps: seq<Range>, flags: seq<Flags>, nx: bool)
    ensures Filtering(maps, flags, nx, 0, [], maps, [])
  {
    assert Zip(maps, flags)[..0] == [];
  }

  lemma FilterEnd(maps: seq<Range>, flags: seq<Flags>, nx: bool, front: seq<Range>, maps': seq<Range>, flags': seq<Flags>)
    requires Filtering(maps, flags, nx, |flags|, front, maps', flags')
    ensures !DropsPastEnd(maps, flags, nx) && Zip(maps', flags') == Keep(Zip(maps, flags), nx)
  {
    RetainedAll(maps, flags, nx, front, flags');
  }

  /**
    `retain_mut` over the flags, removing the range at the running index of every dropped flag.
    The two vectors stay in step whatever their lengths; it fails exactly when a flag without a
    range is dropped.
   */
  method RetainMapped(maps: seq<Range>, flags: seq<Flags>, nx: bool) returns (ok: bool, maps': seq<Range>, flags': seq<Flags>)
    ensures ok <==> !DropsPastEnd(maps, flags, nx)
    ensures ok ==> Zip(maps', flags') == Keep(Zip(maps, flags), nx)
  {
    ghost var front: seq<Range> := [];
    maps', flags' := maps, [];
    var i: nat := 0;
    FilterStart(maps, flags, nx);
    for n := 0 to |flags|
      invariant i == |flags'| && Filtering(maps, flags, nx, n, front, maps', flags')
    {
      ok, front, maps', flags', i := FilterOne(maps, flags, nx, n, front, maps', flags', i);
      if !ok {
        return;
      }
    }
    ok := true;
    FilterEnd(maps, flags, nx, front, maps', flags');
  }

  /** At the end the ranges that never had a flag follow, and are not paired with any. */
  lemma RetainedAll(maps: seq<Range>, flags: seq<Flags>, nx: bool, front: seq<Range>, kept: seq<Flags>)
    requires Retaining(maps, flags, nx, |flags|, front, kept)
    ensures Zip(front + maps[Least(|flags|, |maps|)..], kept) == Keep(Zip(maps, flags), nx)
  {
    var n := Least(|flags|, |maps|);
    assert Zip(maps, flags)[..n] == Zip(maps, flags);
    assert Zip(front + maps[n..], kept) == Zip(front, kept);
  }

  lemma {:induction false} KeepConcat(xs: seq<Mapping>, ys: seq<Mapping>, nx: bool)
    ensures Keep(xs + ys, nx) == Keep(xs, nx) + Keep(ys, nx)
  {
    if ys == [] {
      assert xs + ys == xs;
    } else {
      assert (xs + ys)[..|xs + ys| - 1] == xs + ys[..|ys| - 1];
      KeepConcat(xs, ys[..|ys| - 1], nx);
    }
  }

  /** The entry that decides about an address: the last one that contains it and is not dropped. */
  predicate Decides(list: seq<Mapping>, nx: bool, x: nat, i: nat) {
    && i < |list| && list[i].range.Contains(x) && !Dropped(list[i].flags, nx)
    && forall j :: i < j < |list| && list[j].range.Contains(x) ==> Dropped(list[j].flags, nx)
  }

  /**
    What a filtered list means at every address: the flags of the last entry that contains it and
    is not dropped, with EXECUTE_DISABLE only where that exists; nothing if there is no such entry.
   */
  lemma {:induction false} KeepMeaning(list: seq<Mapping>, nx: bool, x: nat)
    ensures LastWriter(Keep(list, nx), x).None? <==> forall i: nat :: !Decides(list, nx, x, i)
    ensures forall i: nat :: Decides(list, nx, x, i) ==>
      LastWriter(Keep(list, nx), x).Some? && Cleaned(list[i].flags, LastWriter(Keep(list, nx), x).value, nx)
  {
    if list != [] {
      var n := |list| - 1;
      KeepMeaning(list[..n], nx, x);
      MaskFacts(list[n].flags, nx);
      KeepOfLast(list, nx, x);
      if list[n].range.Contains(x) && !Dropped(list[n].flags, nx) {
        assert Decides(list, nx, x, n);
      } else {
        forall i: nat ensures Decides(list, nx, x, i) <==> Decides(list[..n], nx, x, i) {
          DecidesBefore(list, nx, x, i);
        }
      }
    }
  }

  lemma DecidesBefore(list: seq<Mapping>, nx: bool, x: nat, i: nat)
    requires list != [] && !(list[|list| - 1].range.Contains(x) && !Dropped(list[|list| - 1].flags, nx))
    ensures Decides(list, nx, x, i) <==> Decides(list[..|list| - 1], nx, x, i)
  {
    var front := list[..|list| - 1];
    if Decides(front, nx, x, i) {
      forall j | i < j < |list| && list[j].range.Contains(x) ensures Dropped(list[j].flags, nx) {
        assert j < |front| ==> front[j] == list[j];
      }
    }
  }

  lemma KeepOfLast(list: seq<Mapping>, nx: bool, x: nat)
    requires list != []
    ensures var last := list[|list| - 1];
      LastWriter(Keep(list, nx), x) ==
      if last.range.Contains(x) && !MaskNx(last.flags, nx).IsEmpty() then Some(MaskNx(last.flags, nx))
      else LastWriter(Keep(list[..|list| - 1], nx), x)
  {
    var last := list[|list| - 1];
    var front := Keep(list[..|list| - 1], nx);
    var m := last.(flags := MaskNx(last.flags, nx));
    LastWriterConcat(front, [m], x);
    LastWriterOne(m, x);
    assert front + [] == front;
  }

  /**
    A mapping anywhere in a list has no effect at all exactly when it is dropped: a request to unmap,
    or one that only forbids execution on a machine that cannot. It then unmaps nothing.
   */
  lemma RequestLostIffEmpty(xs: seq<Mapping>, m: Mapping, ys: seq<Mapping>, nx: bool)
    ensures Keep(xs + [m] + ys, nx) == Keep(xs + ys, nx) <==> Dropped(m.flags, nx)
  {
    MaskFacts(m.flags, nx);
    KeepConcat(xs + [m], ys, nx);
    KeepConcat(xs, [m], nx);
    KeepConcat(xs, ys, nx);
    assert [m][..0] == [];
    var kept := Keep(xs, nx);
    if MaskNx(m.flags, nx).IsEmpty() {
      assert kept + [] == kept;
    } else {
      assert |Keep(xs + [m] + ys, nx)| == |Keep(xs + ys, nx)| + 1;
    }
  }

  /** Hence the null page stays mapped as it was by the rest of the list. */
  lemma NullPageStaysMapped(list: seq<Mapping>, nx: bool, a: nat)
    requires a < PAGE
    ensures LastWriter(Keep(list + [Mapping(Range(0, PAGE), Flags(0, false, false, false, false))], nx), a) ==
            LastWriter(Keep(list, nx), a)
  {
    var m := Mapping(Range(0, PAGE), Flags(0, false, false, false, false));
    RequestLostIffEmpty(list, m, [], nx);
    assert list + [m] + [] == list + [m] && list + [] == list;
  }

  /** Whatever is kept meets the demands of the page-table code if the input does. */
  lemma {:induction false} KeepAcceptable(list: seq<Mapping>, nx: bool)
    requires AllWithin(list, PHYS_LIMIT)
    ensures AllWithin(Keep(list, nx), PHYS_LIMIT)
    ensures AllAligned(list) ==> AllAligned(Keep(list, nx))
    ensures AllPositive(list) ==> AllPositive(Keep(list, nx))
  {
    if list != [] {
      var n := |list| - 1;
      KeepAcceptable(list[..n], nx);
      assert list[n].range.End() <= PHYS_LIMIT;
      if AllAligned(list) {
        assert AllAligned(list[..n]) && list[n].range.Aligned();
      }
      if AllPositive(list) {
        assert AllPositive(list[..n]) && list[n].range.len > 0;
      }
    }
  }

  // ---------- adding to the recorded mapping ----------

  lemma ZipConcat(maps: seq<Range>, flags: seq<Flags>, maps': seq<Range>, flags': seq<Flags>)
    requires |maps| == |flags|
    ensures Zip(maps + maps', flags + flags') == Zip(maps, flags) + Zip(maps', flags')
  {
  }

  /** The list the add path hands to the updater. */
  function AddedList(recorded: TopTable, maps: seq<Range>, flags: seq<Flags>, nx: bool): seq<Mapping> {
    Keep(recorded.Mapping() + Zip(maps, flags), nx)
  }

  ghost predicate GoodAddition(recorded: TopTable, q: Request) {
    && |recorded.maps| == |recorded.flags|
    && AllWithin(recorded.Mapping(), PHYS_LIMIT) && AllWithin(Zip(q.maps, q.flags), PHYS_LIMIT)
  }

  /** What one addition leaves installed. */
  ghost predicate Installed(m: Memory, t: Tree, installed: TopTable, recorded: TopTable, q: Request, nx: bool) {
    && Represents(m, t, installed, q.allow)
    && Normalizes(AddedList(recorded, q.maps, q.flags, nx), installed.Mapping())
    && AllWithin(installed.Mapping(), PHYS_LIMIT)
  }

  /**
    `util_update_add_paging`: the new ranges are appended to the mapping recorded for the core,
    filtered, and installed. The updater works on a clone of the record, so the record the next
    call starts from is still the old one.
   */
  method AddPaging(mem: PageMemory, recorded: TopTable, q: Request, nx: bool, ghost t: Tree, ghost others: multiset<nat>)
    returns (ok: bool, ghost installed: TopTable, ghost t': Tree)
    requires mem.Valid() && WellFormed(mem.tables, t, recorded) && GoodAddition(recorded, q)
    requires multiset(mem.tables.Keys) == others + Frames(t)
    modifies mem
    ensures mem.Valid() && WellFormed(mem.tables, t', recorded)
    ensures ok ==>
      && Installed(mem.tables, t', installed, recorded, q, nx)
      && installed.phys == recorded.phys && installed.level == recorded.level
      && multiset(mem.tables.Keys) == others + Frames(t')
  {
    var maps, flags := recorded.maps + q.maps, recorded.flags + q.flags;
    ZipConcat(recorded.maps, recorded.flags, q.maps, q.flags);
    var maps', flags';
    ok, maps', flags' := RetainMapped(maps, flags, nx);
    t', installed := t, recorded;
    if !ok {
      return;
    }
    KeepAcceptable(Zip(maps, flags), nx);
    var clone := recorded;
    var top';
    ok, top', t' := UpdateAndFree(mem, clone, Request(maps', flags', q.allow), t, others);
    installed := top';
  }

  /**
    Any number of additions in a row, as long as they succeed: what ends up installed is the
    recorded mapping overridden by the LAST addition alone.
   */
  method RunAdditions(mem: PageMemory, recorded: TopTable, additions: seq<Request>, nx: bool, ghost t: Tree, ghost others: multiset<nat>)
    returns (ok: bool, ghost installed: TopTable, ghost t': Tree)
    requires mem.Valid() && WellFormed(mem.tables, t, recorded) && additions != []
    requires forall i :: 0 <= i < |additions| ==> GoodAddition(recorded, additions[i])
    requires multiset(mem.tables.Keys) == others + Frames(t)
    modifies mem
    ensures mem.Valid() && WellFormed(mem.tables, t', recorded)
    ensures ok ==>
      && Installed(mem.tables, t', installed, recorded, additions[|additions| - 1], nx)
      && multiset(mem.tables.Keys) == others + Frames(t')
  {
    t' := t;
    installed := recorded;
    ok := true;
    for i := 0 to |additions|
      invariant mem.Valid() && WellFormed(mem.tables, t', recorded)
      invariant multiset(mem.tables.Keys) == others + Frames(t')
      invariant i > 0 ==> Installed(mem.tables, t', installed, recorded, additions[i - 1], nx)
    {
      ok, installed, t' := AddPaging(mem, recorded, additions[i], nx, t', others);
      if !ok {
        return;
      }
    }
    ok := true;
  }

  /**
    What the installed mapping says after an addition `b` was followed by an addition `c`: the same
    as if both had been added to the record exactly where `c` writes the address, `b` does not, or
    `b` wrote what the record has. Lists count as the filter leaves them.
   */
  lemma EarlierAdditionKept(recorded: TopTable, b: Request, c: Request, nx: bool, installed: seq<Mapping>, x: nat)
    requires Normalizes(AddedList(recorded, c.maps, c.flags, nx), installed)
    ensures var both := Keep(recorded.Mapping() + Zip(b.maps, b.flags) + Zip(c.maps, c.flags), nx);
      var was, first, second := LastWriter(Keep(recorded.Mapping(), nx), x),
                                LastWriter(Keep(Zip(b.maps, b.flags), nx), x),
                                LastWriter(Keep(Zip(c.maps, c.flags), nx), x);
      LastWriter(installed, x) == LastWriter(both, x) <==> second.Some? || first.None? || first == was
  {
    var r, p, q := recorded.Mapping(), Zip(b.maps, b.flags), Zip(c.maps, c.flags);
    KeepConcat(r, q, nx);
    KeepConcat(r + p, q, nx);
    KeepConcat(r, p, nx);
    LastWriterConcat(Keep(r, nx), Keep(q, nx), x);
    LastWriterConcat(Keep(r + p, nx), Keep(q, nx), x);
    LastWriterConcat(Keep(r, nx), Keep(p, nx), x);
  }

  /** No PAT and no HUGE where the list writes the address. */
  ghost predicate PlainAt(list: seq<Mapping>, x: nat) {
    LastWriter(list, x).Some? ==> !LastWriter(list, x).value.pat && !LastWriter(list, x).value.huge
  }

  /**
    What the walk finds then: an address is found, at itself, exactly if the record or the last
    addition writes it. What only an earlier addition wrote is not mapped any more.
   */
  lemma WalkAfterAdditions(m: Memory, t: Tree, installed: TopTable, recorded: TopTable, c: Request, nx: bool, x: nat)
    requires Installed(m, t, installed, recorded, c, nx) && x < Span(installed.level) && c.allow <= PDPT
    requires AllAligned(AddedList(recorded, c.maps, c.flags, nx))
    requires PlainAt(AddedList(recorded, c.maps, c.flags, nx), x)
    ensures Translate(Find(m, installed.phys, installed.level, x), x) ==
            if LastWriter(Keep(Zip(c.maps, c.flags), nx), x).Some? || LastWriter(Keep(recorded.Mapping(), nx), x).Some?
            then Some(x) else None
  {
    var list := AddedList(recorded, c.maps, c.flags, nx);
    MappableOutput(list, installed.Mapping());
    WalkIsIdentityMap(m, t, installed, c.allow, list, x);
    KeepConcat(recorded.Mapping(), Zip(c.maps, c.flags), nx);
    LastWriterConcat(Keep(recorded.Mapping(), nx), Keep(Zip(c.maps, c.flags), nx), x);
  }

  /** One page, with the flags that ACPI tables are mapped with. */
  function AcpiPage(start: nat): Request {
    Request([Range(start, PAGE)], [Flags(0x13, false, false, true, false)], PDPT)
  }

  lemma AcpiPageKept(start: nat, nx: bool, x: nat)
    ensures var list := Keep(Zip(AcpiPage(start).maps, AcpiPage(start).flags), nx);
      && list == [Mapping(Range(start, PAGE), Flags(0x13, false, false, nx, false))]
      && (LastWriter(list, x).Some? <==> start <= x < start + PAGE)
  {
    var list := Zip(AcpiPage(start).maps, AcpiPage(start).flags);
    assert list[..0] == [] && list[..1] == list;
    KeepStep(list, 0, nx);
    LastWriterOne(Mapping(Range(start, PAGE), MaskNx(list[0].flags, nx)), x);
  }

  /** What `get_addr` answers under an installed table. */
  function Answer(m: Memory, top: TopTable, x: nat): Option<nat> {
    Translate(Find(m, top.phys, top.level, x), x)
  }

  lemma {:induction false} KeepAligned(list: seq<Mapping>, nx: bool)
    requires AllAligned(list)
    ensures AllAligned(Keep(list, nx))
  {
    if list != [] {
      var n := |list| - 1;
      KeepAligned(list[..n], nx);
      assert list[n].range.Aligned();
    }
  }

  /** What the list of an addition says of an address: the page added, or else the record. */
  lemma AdditionMeaning(recorded: TopTable, start: nat, nx: bool, x: nat)
    requires AllAligned(recorded.Mapping()) && start % PAGE == 0
    ensures var list := AddedList(recorded, AcpiPage(start).maps, AcpiPage(start).flags, nx);
      && AllAligned(list)
      && LastWriter(list, x) == if start <= x < start + PAGE then Some(Flags(0x13, false, false, nx, false))
                                else LastWriter(Keep(recorded.Mapping(), nx), x)
  {
    var c := AcpiPage(start);
    assert AllAligned(recorded.Mapping() + Zip(c.maps, c.flags));
    KeepAligned(recorded.Mapping() + Zip(c.maps, c.flags), nx);
    KeepConcat(recorded.Mapping(), Zip(c.maps, c.flags), nx);
    AcpiPageKept(start, nx, x);
    LastWriterConcat(Keep(recorded.Mapping(), nx), Keep(Zip(c.maps, c.flags), nx), x);
  }

  /** An address the record does not map: the walk finds it exactly if the page just added holds it. */
  lemma OnlyThisPage(m: Memory, t: Tree, installed: TopTable, recorded: TopTable, start: nat, nx: bool, x: nat)
    requires AllAligned(recorded.Mapping()) && LastWriter(Keep(recorded.Mapping(), nx), x).None? && start % PAGE == 0
    requires Installed(m, t, installed, recorded, AcpiPage(start), nx) && x < Span(installed.level)
    ensures Answer(m, installed, x) == if start <= x < start + PAGE then Some(x) else None
  {
    var list := AddedList(recorded, AcpiPage(start).maps, AcpiPage(start).flags, nx);
    AdditionMeaning(recorded, start, nx, x);
    MappableOutput(list, installed.Mapping());
    WalkIsIdentityMap(m, t, installed, PDPT, list, x);
  }

  /** What an addition installs at an address of the page it adds. */
  lemma PageInstalled(m: Memory, t: Tree, installed: TopTable, recorded: TopTable, start: nat, nx: bool, x: nat)
    requires AllAligned(recorded.Mapping()) && start % PAGE == 0 && start <= x < start + PAGE
    requires Installed(m, t, installed, recorded, AcpiPage(start), nx)
    ensures Mappable(installed.Mapping()) && Represents(m, t, installed, PDPT)
    ensures LastWriter(installed.Mapping(), x) == Some(Flags(0x13, false, false, nx, false))
  {
    var list := AddedList(recorded, AcpiPage(start).maps, AcpiPage(start).flags, nx);
    AdditionMeaning(recorded, start, nx, x);
    MappableOutput(list, installed.Mapping());
  }

  lemma AcpiRights(nx: bool)
    ensures Asked(Flags(0x13, false, false, nx, false)) == Rights(true, false, nx, false, true, false, false, false)
  {
  }

  /**
    What the processor allows in a page just added for ACPI, whatever the record had there: reading
    and writing past the cache by the kernel alone, and no execution where that can be forbidden.
   */
  lemma AcpiPageRights(m: Memory, t: Tree, installed: TopTable, recorded: TopTable, start: nat, nx: bool, x: nat)
    requires AllAligned(recorded.Mapping()) && start % PAGE == 0 && start <= x < start + PAGE
    requires Installed(m, t, installed, recorded, AcpiPage(start), nx) && x < Span(installed.level)
    ensures RightsAt(m, installed.phys, installed.level, x) ==
            Some(Rights(true, false, nx, false, true, false, false, false))
  {
    PageInstalled(m, t, installed, recorded, start, nx, x);
    RightsAreAsAsked(m, t, installed, PDPT, x);
    AcpiRights(nx);
  }

  lemma PagesApart(first: nat, second: nat)
    requires first % PAGE == 0 && second % PAGE == 0 && first != second
    ensures !(second <= first < second + PAGE)
  {
  }

  /**
    Any two different pages mapped for ACPI one after the other, the first of which the record does
    not map: after the first addition the walk finds the first page, after the second it does not.
   */
  lemma SecondPageUnmapsFirst(m: Memory, t: Tree, i: TopTable, m': Memory, t': Tree, i': TopTable, recorded: TopTable,
                              first: nat, second: nat, nx: bool)
    requires AllAligned(recorded.Mapping()) && LastWriter(Keep(recorded.Mapping(), nx), first).None?
    requires first % PAGE == 0 && second % PAGE == 0 && first != second
    requires Installed(m, t, i, recorded, AcpiPage(first), nx) && first < Span(i.level)
    requires Installed(m', t', i', recorded, AcpiPage(second), nx) && first < Span(i'.level)
    ensures Answer(m, i, first) == Some(first)
    ensures Answer(m', i', first) == None
  {
    PagesApart(first, second);
    assert Answer(m, i, first) == Some(first) by {
      OnlyThisPage(m, t, i, recorded, first, nx, first);
    }
    assert Answer(m', i', first) == None by {
      OnlyThisPage(m', t', i', recorded, second, nx, first);
    }
  }

  /** Had the record been refreshed, additions would accumulate: normalising step by step loses nothing. */
  lemma RefreshedAdditionsAccumulate(a: seq<Mapping>, b: seq<Mapping>, c: seq<Mapping>, ab: seq<Mapping>, abc: seq<Mapping>, all: seq<Mapping>)
    requires AllPositive(a) && AllPositive(b) && AllPositive(c)
    requires Normalizes(a + b, ab) && Normalizes(ab + c, abc) && Normalizes(a + b + c, all)
    ensures abc == all
  {
    assert AllPositive(a + b);
    NormalizeAppend(a + b, ab, c, abc, all);
  }
}
