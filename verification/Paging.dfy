/**
  The page-table interface: `create_page_table`, `update_paging` and the freeing of what an update
  detached (src/memory/paging.rs), and runs of any length over them.
 */
module Paging {
  import opened Options
  import opened Mappings
  import opened Normalize
  import opened Entries
  import opened PageTrees
  import opened Renewal
  import opened FrameTrees
  import opened Ownership
  import opened LargePages
  import opened PageMemory

  const CLEAN_RECREATE_FRAGMENT_LEVEL := 512

  /** The top-level table record: where the root is, its level, and the mapping it was built for. */
  datatype TopTable = TopTable(phys: nat, level: Level, fragmentation: nat, maps: seq<Range>, flags: seq<Flags>) {

    function Mapping(): seq<Mapping> {
      Zip(maps, flags)
    }
  }

  datatype PagingError = InvalidData | AllocationFailed

  datatype Result<+T> = Success(value: T) | Failure(error: PagingError)

  /** The record, the tree in memory and the mapping agree. */
  ghost predicate Implements(m: Memory, t: Tree, top: TopTable, allow: Level) {
    && WellFormed(m, t, top)
    && ShapesOf(t.slots) == WantedTable(top.Mapping(), allow, top.level, 0)
  }

  /** The root owns a tree of distinct live frames; the fragmentation counter has never moved. */
  ghost predicate WellFormed(m: Memory, t: Tree, top: TopTable) {
    && t.frame == top.phys && Holds(m, t, top.level) && Owns(m, Frames(t))
    && top.fragmentation == 0
  }

  /** The record and the tree agree, up to how the large leaves are encoded: it was built or updated for the mapping. */
  ghost predicate Represents(m: Memory, t: Tree, top: TopTable, allow: Level) {
    WellFormed(m, t, top) && Shaped(ShapesOf(t.slots), top.Mapping(), allow, top.level)
  }

  /** The alignment check of the builder. */
  method AllRangesAligned(maps: seq<Range>) returns (b: bool)
    ensures b <==> forall i :: 0 <= i < |maps| ==> maps[i].Aligned()
  {
    for i := 0 to |maps|
      invariant forall k :: 0 <= k < i ==> maps[k].Aligned()
    {
      if maps[i].len % PAGE != 0 || maps[i].start % PAGE != 0 {
        return false;
      }
    }
    b := true;
  }

  /** The input of a successful creation, and when an input is rejected. */
  ghost predicate Rejected(maps: seq<Range>, flags: seq<Flags>, target: Level) {
    |maps| != |flags| || (exists i :: 0 <= i < |maps| && !maps[i].Aligned()) || target < PML4
  }

  /**
    `create_page_table`: rejects bad input without touching memory; otherwise the new tree
    implements the meaning of the input, out of fresh frames only, unless the allocator refused; then
    the only frames lost are those of lower tables that were complete.
   */
  method CreatePageTable(mem: PageMemory, maps: seq<Range>, flags: seq<Flags>, allow: Level, target: Level)
    returns (r: Result<TopTable>, ghost t: Tree, ghost lost: seq<Tree>)
    requires mem.Valid() && AllWithin(Zip(maps, flags), PHYS_LIMIT)
    modifies mem
    ensures mem.Valid() && Preserves(old(mem.tables), mem.tables)
    ensures r == Failure(InvalidData) <==> Rejected(maps, flags, target)
    ensures r == Failure(InvalidData) ==> mem.tables == old(mem.tables)
    ensures !Rejected(maps, flags, target) ==> Honest(r.Success?, old(mem.refusals), mem.refusals)
    ensures r.Success? ==>
      && Implements(mem.tables, t, r.value, allow) && r.value.level == target
      && Normalizes(Zip(maps, flags), r.value.Mapping()) && Mappable(r.value.Mapping())
      && Conserves(old(mem.tables), mem.tables, multiset{}, Frames(t), multiset{})
    ensures r.Failure? ==>
      HeldBelow(mem.tables, lost, target) && Conserves(old(mem.tables), mem.tables, multiset{}, multiset{}, TreesFrames(lost))
  {
    t, lost := Tree(0, []), [];
    if |maps| != |flags| {
      return Failure(InvalidData), t, [];
    }
    var aligned := AllRangesAligned(maps);
    if !aligned {
      return Failure(InvalidData), t, [];
    }
    assert AllAligned(Zip(maps, flags));
    var maps', flags' := NormalizeMapList(maps, flags, PHYS_LIMIT);
    if target != PML4 && target != PML5 {
      return Failure(InvalidData), t, [];
    }
    var root;
    root, t, lost := mem.CreateRecursive(0, target, Zip(maps', flags'), allow);
    if root.None? {
      return Failure(AllocationFailed), t, lost;
    }
    FreshOwned(old(mem.tables), mem.tables, Frames(t));
    r := Success(TopTable(root.value, target, 0, maps', flags'));
  }

  lemma FreshOwned(m: Memory, m': Memory, fs: multiset<nat>)
    requires Conserves(m, m', multiset{}, fs, multiset{})
    ensures Owns(m', fs) && multiset(m'.Keys) == multiset(m.Keys) + fs
  {
    assert multiset(m'.Keys) + multiset{} == multiset(m'.Keys);
  }

  lemma MappableOutput(input: seq<Mapping>, out: seq<Mapping>)
    requires Normalizes(input, out) && AllAligned(input) && AllWithin(out, PHYS_LIMIT)
    ensures Mappable(out)
  {
  }

  /** What an update leaves, from the shapes that were there. */
  ghost predicate Renewed(t: Tree, t': Tree, top': TopTable, allow: Level)
    requires |t.slots| == 512
  {
    ShapesOf(t'.slots) == RenewedTable(ShapesOf(t.slots), top'.Mapping(), allow, top'.level, 0)
  }

  /**
    `update_paging`: on success the tree holds what the update makes of the old one, which is what
    a rebuild would give wherever the large leaves agree; and the old frames plus the fresh ones
    are exactly the new tree plus the detached tables, which are handed back intact with their
    levels. The counter stays 0, so the rebuild branch is never taken. It fails only if the
    allocator refused; then the record is unchanged, the tree is still well formed, and what is lost
    are the detached tables and lower tables that were complete.
   */
  method UpdatePaging(mem: PageMemory, top: TopTable, maps: seq<Range>, flags: seq<Flags>, allow: Level, ghost t: Tree)
    returns (r: Result<seq<(nat, Level)>>, top': TopTable, ghost t': Tree, ghost dead: seq<Tree>, ghost lost: seq<Tree>)
    requires mem.Valid() && WellFormed(mem.tables, t, top) && AllWithin(Zip(maps, flags), PHYS_LIMIT)
    modifies mem
    ensures mem.Valid() && WellFormed(mem.tables, t', top')
    ensures ChangesOnly(old(mem.tables), mem.tables, top.phys, Frames(t))
    ensures top'.phys == top.phys && top'.level == top.level
    ensures Honest(r.Success?, old(mem.refusals), mem.refusals)
    ensures r.Failure? ==> r.error == AllocationFailed && top' == top
    ensures Conserves(old(mem.tables), mem.tables, Frames(t), Frames(t') + TreesFrames(dead), TreesFrames(lost))
    ensures HeldBelow(mem.tables, lost, top.level) && (r.Success? ==> lost == [])
    ensures r.Success? ==>
      && Normalizes(Zip(maps, flags), top'.Mapping()) && AllWithin(top'.Mapping(), PHYS_LIMIT)
      && Renewed(t, t', top', allow)
      && (AgreeTable(top'.Mapping(), allow, top'.level, 0) ==> Implements(mem.tables, t', top', allow))
      && HoldsAll(mem.tables, dead, r.value) && Owns(mem.tables, Frames(t') + TreesFrames(dead))
  {
    var maps', flags' := NormalizeMapList(maps, flags, PHYS_LIMIT);
    if top.fragmentation >= CLEAN_RECREATE_FRAGMENT_LEVEL {
      assert false;
    }
    var ok, counter, freed;
    ok, counter, freed, t', dead, lost := mem.UpdateRecursive(top.phys, 0, top.level, Zip(maps', flags'), allow, 0, t);
    OwnsAfter(old(mem.tables), mem.tables, Frames(t), Frames(t') + TreesFrames(dead), TreesFrames(lost));
    OwnsPart(mem.tables, Frames(t'), TreesFrames(dead));
    if !ok {
      return Failure(AllocationFailed), top, t', dead, lost;
    }
    top' := top.(maps := maps', flags := flags');
    if AgreeTable(top'.Mapping(), allow, top'.level, 0) {
      RenewTableIsBuild(ShapesOf(t.slots), top'.Mapping(), allow, top'.level, 0);
    }
    r := Success(freed);
  }

  /** Freeing the detached tables leaves the live tree alone. */
  lemma LiveAfterFree(m: Memory, m': Memory, t: Tree, dead: seq<Tree>, top: TopTable)
    requires WellFormed(m, t, top) && Owns(m, Frames(t) + TreesFrames(dead))
    requires Frees(m, m', TreesFrames(dead))
    ensures WellFormed(m', t, top)
  {
    assert TreesFrames(dead) + Frames(t) == Frames(t) + TreesFrames(dead);
    FreesAgree(m, m', TreesFrames(dead), Frames(t));
    HoldsAgree(m, m', t, top.level);
  }

  /** An update followed by the freeing of what it detached: no frame leaks, none is freed twice. */
  lemma NothingLeaks(m0: Memory, m: Memory, m': Memory, others: multiset<nat>, t: Tree, t': Tree, dead: seq<Tree>)
    requires multiset(m0.Keys) == others + Frames(t)
    requires Conserves(m0, m, Frames(t), Frames(t') + TreesFrames(dead), multiset{})
    requires Frees(m, m', TreesFrames(dead))
    ensures multiset(m'.Keys) == others + Frames(t')
  {
    forall f ensures multiset(m'.Keys)[f] == (others + Frames(t'))[f] {
      assert (multiset(m0.Keys) + (Frames(t') + TreesFrames(dead)) + multiset{})[f] == (multiset(m.Keys) + Frames(t))[f];
      assert (multiset(m'.Keys) + TreesFrames(dead))[f] == multiset(m.Keys)[f];
    }
  }

  // ---------- what a walk sees ----------

  /**
    The walk of the root sees what the record's mapping says, after a build and after any update,
    wherever the flags at the address itself are encoded alike by both.
   */
  lemma WalkSees(m: Memory, t: Tree, top: TopTable, allow: Level, a: nat)
    requires Represents(m, t, top, allow) && Mappable(top.Mapping()) && a < Span(top.level)
    requires AlikeAt(top.Mapping(), a)
    ensures Find(m, top.phys, top.level, a) == ExpectedLeaf(top.Mapping(), allow, top.level, a)
    ensures Translate(Find(m, top.phys, top.level, a), a) == ExpectedAddr(top.Mapping(), allow, top.level, a)
  {
    FindInTree(m, t, top.level, a);
    ShapedWalk(ShapesOf(t.slots), top.Mapping(), allow, top.level, a);
    TranslateExpected(top.Mapping(), allow, top.level, a);
  }

  /**
    With `allow` at most PDPT and no PAT or HUGE at the address, `get_addr` is the identity where
    some input range contains it, and finds nothing elsewhere.
   */
  lemma WalkIsIdentityMap(m: Memory, t: Tree, top: TopTable, allow: Level, input: seq<Mapping>, a: nat)
    requires Represents(m, t, top, allow) && Mappable(top.Mapping()) && a < Span(top.level)
    requires SameMeaning(top.Mapping(), input)
    requires allow <= PDPT
    requires LastWriter(input, a).Some? ==> !LastWriter(input, a).value.pat && !LastWriter(input, a).value.huge
    ensures Translate(Find(m, top.phys, top.level, a), a) == if LastWriter(input, a).Some? then Some(a) else None
  {
    WalkSees(m, t, top, allow, a);
    ExpectedOfPlain(top.Mapping(), allow, top.level, a);
  }

  lemma ExpectedOfPlain(list: seq<Mapping>, allow: Level, top: Level, a: nat)
    requires allow <= PDPT
    requires LastWriter(list, a).Some? ==> !LastWriter(list, a).value.pat && !LastWriter(list, a).value.huge
    ensures ExpectedAddr(list, allow, top, a) == if LastWriter(list, a).Some? then Some(a) else None
  {
    LeafLevelAllowed(list, allow, top, a);
  }

  /** A table that passes the fragmentation test is a table of equal leaves. */
  lemma UniformMeansEqualLeaves(m: Memory, t: Tree, l: Level)
    requires Holds(m, t, l) && Uniform(m[t.frame], l)
    ensures EqualLeaves(ShapesOf(t.slots))
  {
    var table := m[t.frame];
    forall i | 0 <= i < 512
      ensures t.slots[i].Value? && IsPresent(table[i]) && AttrOf(table[i]) == AttrOf(table[0])
    {
      assert HoldsSlot(m, t.slots[i], l) && table[i] == t.slots[i].raw;
      if i > 0 {
        assert AttrOf(table[i]) == AttrOf(table[0]);
        SameAttrSameLow(table[i], table[0]);
      }
    }
  }

  lemma SameAttrSameLow(e: nat, f: nat)
    requires AttrOf(e) == AttrOf(f)
    ensures IsPresent(e) <==> IsPresent(f)
    ensures IsHuge(e) <==> IsHuge(f)
  {
    assert e % PAGE == f % PAGE;
    LowBits(e);
    LowBits(f);
  }

  lemma LowBits(e: nat)
    ensures e % 2 == e % PAGE % 2
    ensures e / 0x80 % 2 == e % PAGE / 0x80 % 2
  {
    var page, low := e / PAGE, e % PAGE;
    DecodePresent(page * PAGE, low, 0);
    DecodePs(page * PAGE, low, 0);
  }

  /** The fragmentation counter is never moved by a table that a large leaf could replace. */
  lemma NoUniformTableBelow(m: Memory, s: Slot, l: Level, allow: Level)
    requires s.Link? && PT < l <= allow && Holds(m, s.sub, l - 1) && NoWastedTable(ShapeOf(s), l, allow)
    ensures !Uniform(m[s.sub.frame], l - 1)
  {
    if Uniform(m[s.sub.frame], l - 1) {
      UniformMeansEqualLeaves(m, s.sub, l - 1);
    }
  }

  /**
    Every created or updated table uses large pages wherever it can, exactly as far as its mapping
    tells blocks that are mapped alike from blocks that only look so.
   */
  lemma LargePagesIff(m: Memory, t: Tree, top: TopTable, allow: Level, i: nat)
    requires Represents(m, t, top, allow) && i < 512
    requires IsNormal(top.Mapping()) && Mappable(top.Mapping())
    ensures NoWastedTable(ShapeOf(t.slots[i]), top.level, allow) <==>
            NoWaste(top.Mapping(), allow, top.level, SlotStart(top.level, 0, i))
  {
    assert ShapesOf(t.slots)[i] == ShapeOf(t.slots[i]);
    ShapedWastedIff(ShapesOf(t.slots), top.Mapping(), allow, top.level, i);
  }

  /** With plain flags it always does. */
  lemma LargePagesEverywhere(m: Memory, t: Tree, top: TopTable, allow: Level, i: nat)
    requires Represents(m, t, top, allow) && i < 512
    requires IsNormal(top.Mapping()) && Mappable(top.Mapping()) && AllPlain(top.Mapping())
    ensures NoWastedTable(ShapeOf(t.slots[i]), top.level, allow)
  {
    PlainHasNoWaste(top.Mapping(), allow, top.level, SlotStart(top.level, 0, i));
    LargePagesIff(m, t, top, allow, i);
  }

  // ---------- runs ----------

  datatype Request = Request(maps: seq<Range>, flags: seq<Flags>, allow: Level)

  ghost predicate GoodRequest(q: Request) {
    AllWithin(Zip(q.maps, q.flags), PHYS_LIMIT)
  }

  /** The record and the tree after a request was served. */
  ghost predicate Serves(m: Memory, t: Tree, top: TopTable, q: Request) {
    && Represents(m, t, top, q.allow)
    && Normalizes(Zip(q.maps, q.flags), top.Mapping()) && AllWithin(top.Mapping(), PHYS_LIMIT)
  }

  /** The frames in `others` are live and hold what they held. */
  ghost predicate KeepsOthers(m: Memory, m': Memory, others: multiset<nat>) {
    forall f :: f in others ==> f in m && f in m' && m'[f] == m[f]
  }

  lemma OthersKept(m: Memory, m': Memory, others: multiset<nat>, t: Tree)
    requires multiset(m.Keys) == others + Frames(t) && ChangesOnly(m, m', t.frame, Frames(t))
    ensures KeepsOthers(m, m', others)
  {
    forall f | f in others ensures f in m && f in m' && m'[f] == m[f] {
      assert (others + Frames(t))[f] == multiset(m.Keys)[f] <= 1;
      assert t.frame in Frames(t);
    }
  }

  /** The request that was served last after `done` updates. */
  function LastServed(first: Request, updates: seq<Request>, done: nat): Request
    requires done <= |updates|
  {
    if done == 0 then first else updates[done - 1]
  }

  /** The state between two updates: the record is served, and no frame is lost or gained. */
  ghost predicate Running(m0: Memory, m: Memory, t: Tree, top: TopTable, q: Request, others: multiset<nat>) {
    Serves(m, t, top, q) && KeepsOthers(m0, m, others) && multiset(m.Keys) == others + Frames(t)
  }

  lemma KeepsCompose(m0: Memory, m: Memory, m': Memory, others: multiset<nat>)
    requires KeepsOthers(m0, m, others) && KeepsOthers(m, m', others)
    ensures KeepsOthers(m0, m', others)
  {
  }

  /**
    Creation followed by any number of updates, freeing after each, for as long as they succeed:
    the record describes the tree after each, and the live frames are those that were there
    before plus the frames of the tree. Whatever happens, frames that were live before keep their
    contents; the run stops early only if the input was rejected or the allocator refused, and
    then the tree of the last record is still well formed.
   */
  method Run(mem: PageMemory, first: Request, updates: seq<Request>, target: Level)
    returns (r: Result<TopTable>, done: nat, ghost top: TopTable, ghost t: Tree)
    requires mem.Valid() && GoodRequest(first)
    requires forall i :: 0 <= i < |updates| ==> GoodRequest(updates[i])
    modifies mem
    ensures mem.Valid() && Preserves(old(mem.tables), mem.tables) && done <= |updates|
    ensures r == Failure(InvalidData) <==> Rejected(first.maps, first.flags, target)
    ensures r.Success? || r == Failure(AllocationFailed) ==> Honest(r.Success?, old(mem.refusals), mem.refusals)
    ensures done > 0 || r.Success? ==> WellFormed(mem.tables, t, top)
    ensures r.Success? ==>
      && done == |updates| && r.value == top && top.level == target
      && Serves(mem.tables, t, top, LastServed(first, updates, done))
      && multiset(mem.tables.Keys) == multiset(old(mem.tables.Keys)) + Frames(t)
  {
    ghost var others := multiset(mem.tables.Keys);
    done := 0;
    ghost var lost;
    r, t, lost := CreatePageTable(mem, first.maps, first.flags, first.allow, target);
    if r.Failure? {
      top := TopTable(0, target, 0, [], []);
      return;
    }
    FreshOwned(old(mem.tables), mem.tables, Frames(t));
    assert Running(old(mem.tables), mem.tables, t, r.value, first, others);
    var ok, current;
    ok, done, current, t := RunUpdates(mem, r.value, first, updates, old(mem.tables), t, others);
    top := current;
    r := if ok then Success(current) else Failure(AllocationFailed);
  }

  /** The updates of a run, from a record that is served. */
  method RunUpdates(mem: PageMemory, start: TopTable, first: Request, updates: seq<Request>,
                    ghost m0: Memory, ghost t0: Tree, ghost others: multiset<nat>)
    returns (ok: bool, done: nat, top: TopTable, ghost t: Tree)
    requires mem.Valid() && Running(m0, mem.tables, t0, start, first, others)
    requires forall i :: 0 <= i < |updates| ==> GoodRequest(updates[i])
    modifies mem
    ensures mem.Valid() && KeepsOthers(m0, mem.tables, others) && done <= |updates|
    ensures Honest(ok, old(mem.refusals), mem.refusals)
    ensures WellFormed(mem.tables, t, top) && top.level == start.level
    ensures ok ==> done == |updates| && Running(m0, mem.tables, t, top, LastServed(first, updates, done), others)
  {
    ok, done, top, t := true, 0, start, t0;
    while done < |updates|
      invariant mem.Valid() && done <= |updates| && mem.refusals == old(mem.refusals) && top.level == start.level
      invariant Running(m0, mem.tables, t, top, LastServed(first, updates, done), others)
    {
      ghost var m := mem.tables;
      ok, top, t := UpdateAndFree(mem, top, updates[done], t, others);
      KeepsCompose(m0, m, mem.tables, others);
      done := done + 1;
      if !ok {
        return;
      }
    }
    ok := true;
  }

  /**
    What the walk of a served record finds, after any history: what the request says of the
    address, wherever its flags there have no HUGE without PAT; and the address itself where they
    have no PAT.
   */
  lemma ServedWalk(m: Memory, t: Tree, top: TopTable, q: Request, a: nat)
    requires Serves(m, t, top, q) && AllAligned(Zip(q.maps, q.flags)) && a < Span(top.level)
    requires AlikeAt(Zip(q.maps, q.flags), a)
    ensures Translate(Find(m, top.phys, top.level, a), a) == ExpectedAddr(top.Mapping(), q.allow, top.level, a)
    ensures var w := LastWriter(Zip(q.maps, q.flags), a);
      q.allow <= PDPT && (w.Some? ==> !w.value.pat) ==>
      Translate(Find(m, top.phys, top.level, a), a) == if w.Some? then Some(a) else None
  {
    var input := Zip(q.maps, q.flags);
    MappableOutput(input, top.Mapping());
    assert LastWriter(top.Mapping(), a) == LastWriter(input, a);
    WalkSees(m, t, top, q.allow, a);
    if q.allow <= PDPT && (LastWriter(input, a).Some? ==> !LastWriter(input, a).value.pat) {
      ExpectedOfPlain(top.Mapping(), q.allow, top.level, a);
    }
  }

  /** Where it is the identity, exactly: outside 2 MiB blocks that one range covers with PAT. */
  lemma ServedIdentityIff(m: Memory, t: Tree, top: TopTable, q: Request, a: nat)
    requires Serves(m, t, top, q) && AllAligned(Zip(q.maps, q.flags)) && AllPositive(Zip(q.maps, q.flags))
    requires PD <= top.level && q.allow <= PDPT && a < Span(top.level)
    requires AlikeAt(Zip(q.maps, q.flags), a) && LastWriter(Zip(q.maps, q.flags), a).Some?
    ensures Translate(Find(m, top.phys, top.level, a), a) == Some(a) <==>
      !(LastWriter(Zip(q.maps, q.flags), a).value.pat && q.allow >= PD &&
        SomeRangeCovers(top.Mapping(), BlockOf(PD, a), BlockOf(PD, a) + Size(PD)))
  {
    ServedWalk(m, t, top, q, a);
    assert LastWriter(top.Mapping(), a) == LastWriter(Zip(q.maps, q.flags), a);
    ExpectedIdentity(top.Mapping(), q.allow, top.level, a);
  }

  /**
    Any two trees that serve the same request have the same shape up to frame addresses and the
    same recorded mapping, by whatever history they came about, unless the request has a range
    over a 2 MiB block with HUGE and without PAT.
   */
  lemma UpdateEqualsRebuild(m: Memory, t: Tree, top: TopTable, m': Memory, t': Tree, top': TopTable, q: Request)
    requires Serves(m, t, top, q) && Serves(m', t', top', q) && top.level == top'.level >= PD
    requires AllPositive(Zip(q.maps, q.flags))
    requires forall i :: 0 <= i < |top.Mapping()| ==> !Ambiguous(top.Mapping()[i], top.level)
    ensures top.Mapping() == top'.Mapping()
    ensures ShapesOf(t.slots) == ShapesOf(t'.slots)
  {
    var input := Zip(q.maps, q.flags);
    NormalizeCanonical(input, top.Mapping(), input, top'.Mapping());
    UnambiguousTable(top.Mapping(), q.allow, top.level, top.level, 0);
    ShapedIsBuilt(ShapesOf(t.slots), top.Mapping(), q.allow, top.level);
    ShapedIsBuilt(ShapesOf(t'.slots), top'.Mapping(), q.allow, top'.level);
  }

  /** One update with the FREE option: what the update detached is given back at once. */
  method UpdateAndFree(mem: PageMemory, top: TopTable, q: Request, ghost t: Tree, ghost others: multiset<nat>)
    returns (ok: bool, top': TopTable, ghost t': Tree)
    requires mem.Valid() && WellFormed(mem.tables, t, top) && GoodRequest(q)
    requires multiset(mem.tables.Keys) == others + Frames(t)
    modifies mem
    ensures mem.Valid() && top'.level == top.level && top'.phys == top.phys
    ensures WellFormed(mem.tables, t', top') && KeepsOthers(old(mem.tables), mem.tables, others)
    ensures Honest(ok, old(mem.refusals), mem.refusals)
    ensures !ok ==> top' == top
    ensures ok ==>
      Serves(mem.tables, t', top', q) && Renewed(t, t', top', q.allow) &&
      multiset(mem.tables.Keys) == others + Frames(t')
  {
    ghost var m0 := mem.tables;
    var r;
    ghost var dead, lost;
    r, top', t', dead, lost := UpdatePaging(mem, top, q.maps, q.flags, q.allow, t);
    OthersKept(m0, mem.tables, others, t);
    ok := r.Success?;
    if ok {
      FreeDetached(mem, top', r.value, m0, t, t', dead, others);
    }
  }

  /** Gives the detached tables back: the live tree and all other frames stay as they are. */
  method FreeDetached(mem: PageMemory, top: TopTable, freed: seq<(nat, Level)>,
                      ghost m0: Memory, ghost t: Tree, ghost t': Tree, ghost dead: seq<Tree>, ghost others: multiset<nat>)
    requires mem.Valid() && WellFormed(mem.tables, t', top) && HoldsAll(mem.tables, dead, freed)
    requires Owns(mem.tables, Frames(t') + TreesFrames(dead)) && KeepsOthers(m0, mem.tables, others)
    requires multiset(m0.Keys) == others + Frames(t)
    requires Conserves(m0, mem.tables, Frames(t), Frames(t') + TreesFrames(dead), multiset{})
    modifies mem`tables
    ensures mem.Valid() && WellFormed(mem.tables, t', top) && KeepsOthers(m0, mem.tables, others)
    ensures multiset(mem.tables.Keys) == others + Frames(t')
  {
    ghost var m := mem.tables;
    OwnsPart(m, TreesFrames(dead), Frames(t')) by {
      assert TreesFrames(dead) + Frames(t') == Frames(t') + TreesFrames(dead);
    }
    mem.FreeNotUsed(freed, dead);
    LiveAfterFree(m, mem.tables, t', dead, top);
    NothingLeaks(m0, m, mem.tables, others, t, t', dead);
    forall f | f in others ensures f in mem.tables {
      assert multiset(mem.tables.Keys)[f] == (others + Frames(t'))[f];
    }
  }
}
