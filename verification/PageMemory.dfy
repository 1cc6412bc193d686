/**
  The builder, the incremental updater, the walker and the deallocator of src/memory/paging.rs,
  writing raw 512-entry frames in place.
 */
module PageMemory {
  import opened Options
  import opened Mappings
  import opened Entries
  import opened PageTrees
  import opened Renewal
  import opened FrameTrees
  import opened Ownership

  const ZEROS: seq<nat> := seq(512, _ => 0)

  /** The `sub_map` loop: the mappings that meet a block. */
  method FilterOverlap(list: seq<Mapping>, lo: nat, hi: nat) returns (sub: seq<Mapping>)
    ensures sub == Overlap(list, lo, hi)
  {
    sub := [];
    for i := 0 to |list|
      invariant sub == Overlap(list[..i], lo, hi)
    {
      var m := list[i];
      assert list[..i + 1][..i] == list[..i];
      if m.range.start < hi && m.range.End() > lo {
        sub := sub + [m];
      }
    }
    assert list[..|list|] == list;
  }

  /** The fragmentation test after an update: all 512 entries are leaves of one contiguous run. */
  predicate Uniform(table: seq<nat>, l: Level)
    requires |table| == 512
  {
    && IsPresent(table[0]) && (IsHuge(table[0]) || l == PT)
    && forall i :: 1 <= i < 512 ==>
      AttrOf(table[i]) == AttrOf(table[0]) && AddrOf(table[i]) == AddrOf(table[0]) + i * Size(l)
  }

  method CheckUniform(table: seq<nat>, l: Level) returns (b: bool)
    requires |table| == 512
    ensures b <==> Uniform(table, l)
  {
    var first := table[0];
    if !(IsPresent(first) && (IsHuge(first) || l == PT)) {
      return false;
    }
    for i := 1 to 512
      invariant forall k :: 1 <= k < i ==>
        AttrOf(table[k]) == AttrOf(first) && AddrOf(table[k]) == AddrOf(first) + k * Size(l)
    {
      if AttrOf(table[i]) != AttrOf(first) || AddrOf(table[i]) != AddrOf(first) + i * Size(l) {
        return false;
      }
    }
    b := true;
  }

  // ---------- what the fragmentation counter counts ----------

  ghost function Raws(slots: seq<Slot>): (r: seq<nat>)
    ensures |r| == |slots|
  {
    seq(|slots|, i requires 0 <= i < |slots| => slots[i].raw)
  }

  /** The tables that stayed in use from `t` to `t'`, may be replaced by a large leaf, and are uniform now. */
  ghost function UniformTables(t: Tree, t': Tree, l: Level, allow: Level): nat
    decreases l, 2
  {
    UniformBelow(t.slots, t'.slots, l, allow, |t.slots|) +
    if l <= allow && |t'.slots| == 512 && Uniform(Raws(t'.slots), l) then 1 else 0
  }

  ghost function UniformBelow(was: seq<Slot>, now: seq<Slot>, l: Level, allow: Level, n: nat): nat
    decreases l, 1, n
  {
    if n == 0 || n > |was| || n > |now| then 0
    else UniformBelow(was, now, l, allow, n - 1) + UniformAt(was[n - 1], now[n - 1], l, allow)
  }

  ghost function UniformAt(s: Slot, s': Slot, l: Level, allow: Level): nat
    decreases l, 0
  {
    if s.Link? && s'.Link? && l > PT then UniformTables(s.sub, s'.sub, l - 1, allow) else 0
  }

  /** A slot further on does not matter. */
  lemma {:induction false} UniformBelowUpdate(was: seq<Slot>, now: seq<Slot>, l: Level, allow: Level, n: nat, idx: nat, s: Slot)
    requires n <= idx < |now|
    ensures UniformBelow(was, now[idx := s], l, allow, n) == UniformBelow(was, now, l, allow, n)
    decreases n
  {
    if n > 0 && n <= |was| {
      UniformBelowUpdate(was, now, l, allow, n - 1, idx, s);
    }
  }

  lemma UniformNext(was: seq<Slot>, now: seq<Slot>, l: Level, allow: Level, idx: nat, s: Slot)
    requires idx < |now| == |was|
    ensures UniformBelow(was, now[idx := s], l, allow, idx + 1) ==
            UniformBelow(was, now, l, allow, idx) + UniformAt(was[idx], s, l, allow)
  {
    UniformBelowUpdate(was, now, l, allow, idx, idx, s);
  }

  lemma UniformHere(m: Memory, t: Tree, t': Tree, l: Level, allow: Level)
    requires Holds(m, t', l) && |t.slots| == 512
    ensures UniformTables(t, t', l, allow) ==
            UniformBelow(t.slots, t'.slots, l, allow, 512) + if l <= allow && Uniform(m[t'.frame], l) then 1 else 0
  {
    assert m[t'.frame] == Raws(t'.slots);
  }

  /** The raw value the builder leaves in an entry that gets no table. */
  function LeafValue(sub: seq<Mapping>, l: Level, allow: Level, start: nat): nat
    requires l == PT || sub == [] || CanBeHuge(sub, l, allow, start, start + Size(l))
  {
    if sub == [] then 0 else LeafEntry(l, start, sub[0].flags)
  }

  /** Such an entry is what the list asks for, and reads back as a leaf or as absent. */
  lemma LeafSlotHolds(m: Memory, list: seq<Mapping>, allow: Level, l: Level, start: nat)
    requires AllWithin(list, PHYS_LIMIT) && start % Size(l) == 0
    requires var sub := Overlap(list, start, start + Size(l));
             l == PT || sub == [] || CanBeHuge(sub, l, allow, start, start + Size(l))
    ensures var s := Value(LeafValue(Overlap(list, start, start + Size(l)), l, allow, start));
            HoldsSlot(m, s, l) && ShapeOf(s) == WantedSlot(list, allow, l, start)
  {
    var sub := Overlap(list, start, start + Size(l));
    if sub != [] && l <= PDPT {
      OverlapSound(list, start, start + Size(l), 0);
      LeafDecode(l, start, sub[0].flags);
    }
  }

  lemma {:induction false} OverlapKeeps(list: seq<Mapping>, lo: nat, hi: nat, limit: nat)
    ensures AllWithin(list, limit) ==> AllWithin(Overlap(list, lo, hi), limit)
  {
    forall i | 0 <= i < |Overlap(list, lo, hi)| ensures Overlap(list, lo, hi)[i] in list {
      OverlapSound(list, lo, hi, i);
    }
  }

  /** A lower table built from the filtered list is the one the whole list asks for. */
  lemma LowerTable(list: seq<Mapping>, allow: Level, l: Level, start: nat)
    requires l > PT
    requires var sub := Overlap(list, start, start + Size(l));
             sub != [] && !CanBeHuge(sub, l, allow, start, start + Size(l))
    ensures WantedSlot(list, allow, l, start) ==
            Table(RELAY_BITS, WantedTable(Overlap(list, start, start + Size(l)), allow, l - 1, start))
  {
    SizeStep(l);
    BuildTableNested(list, allow, l - 1, start, start, start + Size(l));
  }

  /** The shapes of the entries done so far. */
  ghost predicate BuiltUpTo(slots: seq<Slot>, list: seq<Mapping>, allow: Level, l: Level, base: nat, n: nat) {
    n <= |slots| && forall i :: 0 <= i < n ==> ShapeOf(slots[i]) == WantedSlot(list, allow, l, SlotStart(l, base, i))
  }

  lemma BuiltAll(slots: seq<Slot>, list: seq<Mapping>, allow: Level, l: Level, base: nat)
    requires |slots| == 512 && BuiltUpTo(slots, list, allow, l, base, 512)
    ensures ShapesOf(slots) == WantedTable(list, allow, l, base)
  {
  }

  /** A zeroed table with its first `n` entries built. */
  ghost predicate Filling(m0: Memory, m: Memory, p: nat, l: Level, slots: seq<Slot>, list: seq<Mapping>, allow: Level, base: nat, n: nat) {
    && Midway(m0, m, Tree(p, EmptySlots(512)), l, slots, [], [], multiset{})
    && |slots| == 512 && (forall i :: n <= i < 512 ==> slots[i] == Value(0))
    && BuiltUpTo(slots, list, allow, l, base, n)
  }

  lemma FillReady(m0: Memory, m: Memory, p: nat, l: Level, slots: seq<Slot>, list: seq<Mapping>, allow: Level, base: nat, n: nat)
    requires Filling(m0, m, p, l, slots, list, allow, base, n) && n < 512
    ensures p in m && |m[p]| == 512 && m[p][n] == 0 && slots[n] == Value(0)
  {
  }

  lemma BuiltNext(slots: seq<Slot>, list: seq<Mapping>, allow: Level, l: Level, base: nat, n: nat, s: Slot)
    requires BuiltUpTo(slots, list, allow, l, base, n) && n < |slots|
    requires ShapeOf(s) == WantedSlot(list, allow, l, SlotStart(l, base, n))
    ensures BuiltUpTo(slots[n := s], list, allow, l, base, n + 1)
  {
  }

  lemma FillStep(m0: Memory, m: Memory, m': Memory, p: nat, l: Level, slots: seq<Slot>, list: seq<Mapping>, allow: Level, base: nat,
                 n: nat, s: Slot, ok: bool, lost: seq<Tree>)
    requires Filling(m0, m, p, l, slots, list, allow, base, n) && n < 512 && p in m0
    requires p in m && |m[p]| == 512 && Rewrites(m, m', p, n, l, Value(0), s, [], TreesFrames(lost)) && (ok ==> lost == [])
    requires ok ==> ShapeOf(s) == WantedSlot(list, allow, l, SlotStart(l, base, n))
    ensures Midway(m0, m', Tree(p, EmptySlots(512)), l, slots[n := s], [], [], TreesFrames(lost))
    ensures ok ==> Filling(m0, m', p, l, slots[n := s], list, allow, base, n + 1)
  {
    EmptySlotsFrames(512);
    MidwayStep(m0, m, m', Tree(p, EmptySlots(512)), l, slots, [], [], n, s, [], [], TreesFrames(lost));
    if ok {
      BuiltNext(slots, list, allow, l, base, n, s);
    }
  }

  /** A table in use with its first `n` entries updated, and `count` added to the counter below them. */
  ghost predicate Updating(m0: Memory, m: Memory, t: Tree, l: Level, slots: seq<Slot>, dead: seq<Tree>, freed: seq<(nat, Level)>,
                           list: seq<Mapping>, allow: Level, base: nat, n: nat, count: int) {
    && Midway(m0, m, t, l, slots, dead, freed, multiset{})
    && |slots| == 512 && |t.slots| == 512 && (forall i :: n <= i < 512 ==> slots[i] == t.slots[i])
    && RenewedUpTo(slots, t.slots, list, allow, l, base, n)
    && count == UniformBelow(t.slots, slots, l, allow, n)
  }

  lemma UpdateReady(m0: Memory, m: Memory, t: Tree, l: Level, slots: seq<Slot>, dead: seq<Tree>, freed: seq<(nat, Level)>,
                    list: seq<Mapping>, allow: Level, base: nat, n: nat, count: int)
    requires Owns(m0, Frames(t)) && Updating(m0, m, t, l, slots, dead, freed, list, allow, base, n, count) && n < 512
    ensures t.frame in m && |m[t.frame]| == 512 && m[t.frame][n] == slots[n].raw
    ensures HoldsSlot(m, slots[n], l) && Owns(m, multiset{t.frame} + SlotFrames(slots[n]))
  {
    MidwayOwns(m0, m, t, l, slots, dead, freed, n);
  }

  lemma RenewedNext(slots: seq<Slot>, was: seq<Slot>, list: seq<Mapping>, allow: Level, l: Level, base: nat, n: nat, s: Slot)
    requires RenewedUpTo(slots, was, list, allow, l, base, n) && n < |slots|
    requires ShapeOf(s) == RenewedSlot(ShapeOf(was[n]), list, allow, l, SlotStart(l, base, n))
    ensures RenewedUpTo(slots[n := s], was, list, allow, l, base, n + 1)
  {
  }

  lemma UpdateStep(m0: Memory, m: Memory, m': Memory, t: Tree, l: Level, slots: seq<Slot>, dead: seq<Tree>, freed: seq<(nat, Level)>,
                   list: seq<Mapping>, allow: Level, base: nat, n: nat, s': Slot, more: seq<Tree>, moreFreed: seq<(nat, Level)>,
                   ok: bool, lost: seq<Tree>, count: int, count': int)
    requires Owns(m0, Frames(t)) && Updating(m0, m, t, l, slots, dead, freed, list, allow, base, n, count) && n < 512
    requires t.frame in m && |m[t.frame]| == 512
    requires Rewrites(m, m', t.frame, n, l, slots[n], s', more, TreesFrames(lost)) && HoldsAll(m', more, moreFreed)
    requires ok ==> lost == []
    requires ok ==> ShapeOf(s') == RenewedSlot(ShapeOf(slots[n]), list, allow, l, SlotStart(l, base, n))
    requires ok ==> count' == count + UniformAt(slots[n], s', l, allow)
    ensures Midway(m0, m', t, l, slots[n := s'], dead + more, freed + moreFreed, TreesFrames(lost))
    ensures ok ==> Updating(m0, m', t, l, slots[n := s'], dead + more, freed + moreFreed, list, allow, base, n + 1, count')
  {
    MidwayStep(m0, m, m', t, l, slots, dead, freed, n, s', more, moreFreed, TreesFrames(lost));
    if ok {
      RenewedNext(slots, t.slots, list, allow, l, base, n, s');
      UniformNext(t.slots, slots, l, allow, n, s');
    }
  }

  /** Nothing written: the slot stays what it was, though fresh frames were lost. */
  lemma Unwritten(m: Memory, m': Memory, p: nat, idx: nat, l: Level, s: Slot, lost: multiset<nat>)
    requires p in m && idx < |m[p]| && s.raw == m[p][idx] && s.Value? && HoldsSlot(m, s, l)
    requires Preserves(m, m') && Conserves(m, m', multiset{}, multiset{}, lost)
    ensures Rewrites(m, m', p, idx, l, s, s, [], lost)
  {
    assert m[p][idx := s.raw] == m[p];
  }

  /** An entry that already is what it should be. */
  lemma Untouched(m: Memory, p: nat, idx: nat, l: Level, s: Slot)
    requires p in m && idx < |m[p]| && s.raw == m[p][idx] && HoldsSlot(m, s, l)
    ensures Rewrites(m, m, p, idx, l, s, s, [], multiset{})
  {
    assert m[p][idx := s.raw] == m[p];
    assert SlotFrames(s) + TreesFrames([]) == SlotFrames(s);
  }

  /** What the updater writes where no table goes reads back as a leaf or as absent. */
  lemma RenewedLeafHolds(m: Memory, l: Level, start: nat, f: Flags)
    requires start % Size(l) == 0 && start < PHYS_LIMIT
    ensures l != PT ==> HoldsSlot(m, Value(UpdaterHugeEntry(l, start, f)), l)
    ensures l == PT ==> HoldsSlot(m, Value(PtEntry(start, f)), l)
  {
    if l == PT {
      LeafDecode(l, start, f);
    } else if l <= PDPT {
      UpdaterAsBuilder(l, start, f);
      LeafDecode(l, start, f.(huge := false));
    }
  }

  /** What the updater leaves where no table goes does not depend on what was there. */
  lemma RenewedOfLeaf(was: Shape, list: seq<Mapping>, allow: Level, l: Level, start: nat)
    requires !NeedsTable(list, allow, l, start)
    ensures var sub := Overlap(list, start, start + Size(l));
      RenewedSlot(was, list, allow, l, start) ==
      Entry(if sub == [] then 0
            else if CanBeHuge(sub, l, allow, start, start + Size(l)) then UpdaterHugeEntry(l, start, sub[0].flags)
            else PtEntry(start, sub[0].flags))
  {
  }

  /** Where there was a table, the one below is updated with the filtered list. */
  lemma UpdatedLink(s: Slot, now: Shape, list: seq<Mapping>, sub: seq<Mapping>, allow: Level, l: Level, start: nat)
    requires s.Link? && |s.sub.slots| == 512 && NeedsTable(list, allow, l, start) && sub == Overlap(list, start, start + Size(l))
    requires now == Table(RELAY_BITS, RenewedTable(ShapesOf(s.sub.slots), sub, allow, l - 1, start))
    ensures now == RenewedSlot(ShapeOf(s), list, allow, l, start)
  {
    SizeStep(l);
    RenewedNarrow(ShapesOf(s.sub.slots), list, sub, allow, l - 1, start);
    RenewedOfTable(ShapeOf(s), list, allow, l, start);
  }

  /** Where there was no table, one is built. */
  lemma LowerBuilt(s: Slot, list: seq<Mapping>, allow: Level, l: Level, start: nat)
    requires l > PT && s.Value?
    requires var sub := Overlap(list, start, start + Size(l));
             sub != [] && !CanBeHuge(sub, l, allow, start, start + Size(l))
    ensures RenewedSlot(ShapeOf(s), list, allow, l, start) ==
            Table(RELAY_BITS, WantedTable(Overlap(list, start, start + Size(l)), allow, l - 1, start))
  {
    LowerTable(list, allow, l, start);
  }

  ghost predicate RenewedUpTo(slots: seq<Slot>, was: seq<Slot>, list: seq<Mapping>, allow: Level, l: Level, base: nat, n: nat) {
    && n <= |slots| == |was|
    && forall i :: 0 <= i < n ==> ShapeOf(slots[i]) == RenewedSlot(ShapeOf(was[i]), list, allow, l, SlotStart(l, base, i))
  }

  lemma RenewedAll(slots: seq<Slot>, was: seq<Slot>, list: seq<Mapping>, allow: Level, l: Level, base: nat)
    requires |slots| == 512 && RenewedUpTo(slots, was, list, allow, l, base, 512)
    ensures ShapesOf(slots) == RenewedTable(ShapesOf(was), list, allow, l, base)
  {
  }

  lemma RelayShape(frame: nat, t: Tree)
    requires frame % PAGE == 0 && frame < PHYS_LIMIT
    ensures ShapeOf(Link(RelayEntry(frame), t)) == Table(RELAY_BITS, ShapesOf(t.slots))
  {
    RelayDecode(frame);
  }

  /** A relay to a table built out of fresh frames. */
  lemma WriteNewLink(m0: Memory, m: Memory, p: nat, idx: nat, l: Level, s: Slot, raw: nat, t: Tree)
    requires p in m0 && |m0[p]| == 512 && idx < 512 && l > PT && s.Value?
    requires Preserves(m0, m) && Holds(m, t, l - 1)
    requires Conserves(m0, m, multiset{}, Frames(t), multiset{})
    requires IsPresent(raw) && !IsHuge(raw) && AddrOf(raw) == t.frame
    ensures Rewrites(m0, WithEntry(m, p, idx, raw), p, idx, l, s, Link(raw, t), [], multiset{})
  {
    assert Frames(t) + TreesFrames([]) == Frames(t);
    assert multiset{p} + SlotFrames(s) <= multiset(m0.Keys);
    WriteLink(m0, m, p, idx, l, s, raw, t, [], [], multiset{});
  }

  lemma ParentUnchanged(m0: Memory, m: Memory, p: nat, sub: Tree)
    requires ChangesOnly(m0, m, sub.frame, Frames(sub)) && p in m0 && p !in Frames(sub)
    ensures ChangesOnly(m0, m, p, Frames(sub)) && m[p] == m0[p]
  {
    assert sub.frame in Frames(sub);
  }

  /** The table below a slot became `t`, in place. */
  ghost predicate SubUpdated(m0: Memory, m: Memory, s: Slot, k: Level, t: Tree, dead: seq<Tree>, freed: seq<(nat, Level)>, lost: multiset<nat>)
    requires s.Link?
  {
    && t.frame == s.sub.frame && Holds(m, t, k) && HoldsAll(m, dead, freed)
    && ChangesOnly(m0, m, s.sub.frame, Frames(s.sub))
    && Conserves(m0, m, Frames(s.sub), Frames(t) + TreesFrames(dead), lost)
  }

  lemma SubReady(m: Memory, p: nat, s: Slot, l: Level, k: Level, start: nat)
    requires s.Link? && HoldsSlot(m, s, l) && k == l - 1 && Owns(m, multiset{p} + SlotFrames(s)) && start % Size(l) == 0
    ensures Holds(m, s.sub, k) && Owns(m, Frames(s.sub)) && start % (512 * Size(k)) == 0
  {
    SizeStep(l);
    SubOwned(m, p, s.sub);
  }

  lemma SubDone(m0: Memory, m: Memory, s: Slot, k: Level, t: Tree, dead: seq<Tree>, freed: seq<(nat, Level)>, lost: multiset<nat>)
    requires s.Link? && t.frame == s.sub.frame && Holds(m, t, k) && HoldsAll(m, dead, freed)
    requires ChangesOnly(m0, m, s.sub.frame, Frames(s.sub))
    requires Conserves(m0, m, Frames(s.sub), Frames(t) + TreesFrames(dead), lost)
    ensures SubUpdated(m0, m, s, k, t, dead, freed, lost)
  {
  }

  /** A relay written again after the table below it was updated in place. */
  lemma Relink(m0: Memory, m: Memory, p: nat, idx: nat, l: Level, s: Slot, raw: nat, t: Tree,
               dead: seq<Tree>, freed: seq<(nat, Level)>, lost: multiset<nat>)
    requires p in m0 && |m0[p]| == 512 && idx < 512 && l > PT && s.Link?
    requires Owns(m0, multiset{p} + SlotFrames(s)) && SubUpdated(m0, m, s, l - 1, t, dead, freed, lost)
    requires IsPresent(raw) && !IsHuge(raw) && AddrOf(raw) == t.frame
    ensures p in m && m[p] == m0[p]
    ensures Rewrites(m0, WithEntry(m, p, idx, raw), p, idx, l, s, Link(raw, t), dead, lost)
    ensures HoldsAll(WithEntry(m, p, idx, raw), dead, freed)
  {
    SubOwned(m0, p, s.sub);
    ParentUnchanged(m0, m, p, s.sub);
    WriteLink(m0, m, p, idx, l, s, raw, t, dead, freed, lost);
  }

  /** After a failure below, the old relay still points to a well-formed table. */
  lemma RelinkFailed(m0: Memory, m: Memory, p: nat, idx: nat, l: Level, s: Slot, t: Tree, dead: seq<Tree>, freed: seq<(nat, Level)>,
                     lost: multiset<nat>)
    requires p in m0 && |m0[p]| == 512 && idx < 512 && l > PT && s.Link? && s.raw == m0[p][idx] && HoldsSlot(m0, s, l)
    requires Owns(m0, multiset{p} + SlotFrames(s)) && SubUpdated(m0, m, s, l - 1, t, dead, freed, lost)
    ensures p in m && Rewrites(m0, m, p, idx, l, s, Link(s.raw, t), dead, lost)
    ensures HoldsAll(m, dead, freed)
  {
    Relink(m0, m, p, idx, l, s, s.raw, t, dead, freed, lost);
    SameEntry(m, p, idx);
  }

  lemma SubOwned(m: Memory, p: nat, sub: Tree)
    requires Owns(m, multiset{p} + Frames(sub))
    ensures Owns(m, Frames(sub)) && p !in Frames(sub)
  {
    assert Frames(sub) <= multiset{p} + Frames(sub);
    OwnsOnce(m, multiset{p}, Frames(sub), p);
  }

  // ---------- while a tree is being freed ----------

  /** A slot not yet reached is intact although the slots before it are gone. */
  lemma SlotStillThere(m: Memory, m': Memory, t: Tree, l: Level, i: nat)
    requires Holds(m, t, l) && Owns(m, Frames(t)) && i < 512
    requires Frees(m, m', SlotsFrames(t.slots[..i]))
    ensures HoldsSlot(m', t.slots[i], l) && Owns(m', SlotFrames(t.slots[i]))
  {
    var fs, gs := SlotsFrames(t.slots[..i]), SlotFrames(t.slots[i]);
    SlotsFramesAt(t.slots, i);
    assert fs + gs <= Frames(t);
    FreesAgree(m, m', fs, gs);
    assert HoldsSlot(m, t.slots[i], l);
    HoldsSlotAgree(m, m', t.slots[i], l);
  }

  /** The root frame outlives its slots. */
  lemma RootStillThere(m: Memory, m': Memory, t: Tree, l: Level, i: nat)
    requires Holds(m, t, l) && Owns(m, Frames(t)) && i <= 512
    requires Frees(m, m', SlotsFrames(t.slots[..i]))
    ensures t.frame in m' && m'[t.frame] == m[t.frame]
  {
    SlotsFramesConcat(t.slots[..i], t.slots[i..]);
    assert t.slots[..i] + t.slots[i..] == t.slots;
    assert SlotsFrames(t.slots[..i]) + multiset{t.frame} <= Frames(t);
    FreesAgree(m, m', SlotsFrames(t.slots[..i]), multiset{t.frame});
  }

  /** One more slot freed; the root is still there. */
  lemma FreesNext(m: Memory, m': Memory, m'': Memory, t: Tree, l: Level, i: nat)
    requires Holds(m, t, l) && Owns(m, Frames(t)) && i < 512
    requires Frees(m, m', SlotsFrames(t.slots[..i])) && Frees(m', m'', SlotFrames(t.slots[i]))
    ensures Frees(m, m'', SlotsFrames(t.slots[..i + 1]))
    ensures t.frame in m'' && m''[t.frame] == m[t.frame]
  {
    assert t.slots[..i + 1][..i] == t.slots[..i];
    FreesCompose(m, m', m'', SlotsFrames(t.slots[..i]), SlotFrames(t.slots[i]));
    RootStillThere(m, m'', t, l, i + 1);
  }

  /** Once the slots are gone, freeing the root frees the whole tree. */
  lemma FreesRoot(m: Memory, m': Memory, t: Tree)
    requires Frees(m, m', SlotsFrames(t.slots)) && t.frame in m'
    ensures Frees(m, m' - {t.frame}, Frames(t))
  {
    FreesOne(m', t.frame);
    FreesCompose(m, m', m' - {t.frame}, SlotsFrames(t.slots), multiset{t.frame});
    assert SlotsFrames(t.slots) + multiset{t.frame} == Frames(t);
  }

  lemma {:induction false} NoLinksAtBottom(m: Memory, t: Tree, n: nat)
    requires Holds(m, t, PT) && n <= 512
    ensures SlotsFrames(t.slots[..n]) == multiset{}
  {
    if n > 0 {
      NoLinksAtBottom(m, t, n - 1);
      assert t.slots[..n][..n - 1] == t.slots[..n - 1];
      assert HoldsSlot(m, t.slots[n - 1], PT);
    }
  }

  lemma TreeStillThere(m: Memory, m': Memory, dead: seq<Tree>, freed: seq<(nat, Level)>, i: nat)
    requires HoldsAll(m, dead, freed) && Owns(m, TreesFrames(dead)) && i < |dead|
    requires Frees(m, m', TreesFrames(dead[..i]))
    ensures Holds(m', dead[i], freed[i].1) && Owns(m', Frames(dead[i]))
  {
    var fs, gs := TreesFrames(dead[..i]), Frames(dead[i]);
    TreesFramesPrefix(dead, i);
    FreesAgree(m, m', fs, gs);
    HoldsAgree(m, m', dead[i], freed[i].1);
  }

  /** A frame the page-table code can use: aligned, within the physical limit, and not in use. */
  predicate Usable(m: Memory, f: nat) {
    f % PAGE == 0 && 0 < f < PHYS_LIMIT && f !in m
  }

  /** An operation succeeds exactly when the allocator has not refused on the way. */
  predicate Honest(ok: bool, before: nat, after: nat) {
    before <= after && (ok <==> after == before)
  }

  class PageMemory {
    /** The live page-table frames. */
    var tables: Memory

    /** What the allocator will answer, call by call; anything but a fresh aligned frame is a failure. */
    var supply: seq<nat>

    /** How often it has refused. */
    var refusals: nat

    ghost predicate Valid()
      reads this
    {
      ValidMemory(tables)
    }

    constructor (supply: seq<nat>)
      ensures Valid() && tables == map[] && this.supply == supply && refusals == 0
    {
      tables := map[];
      this.supply := supply;
      refusals := 0;
    }

    // ---------- memory ----------

    /** A fresh zeroed frame, or a refusal: an answer that is no fresh aligned frame, or none. */
    method AllocZeroed() returns (r: Option<nat>)
      requires Valid()
      modifies this
      ensures Valid()
      ensures r.None? <==> old(supply) == [] || !Usable(old(tables), old(supply)[0])
      ensures r.None? ==> tables == old(tables) && refusals == old(refusals) + 1
      ensures r.Some? ==>
        r.value == old(supply)[0] && tables == old(tables)[r.value := ZEROS] && refusals == old(refusals)
    {
      if supply == [] {
        refusals := refusals + 1;
        return None;
      }
      var f := supply[0];
      supply := supply[1..];
      if !Usable(tables, f) {
        refusals := refusals + 1;
        return None;
      }
      tables := tables[f := ZEROS];
      r := Some(f);
    }

    /** Freeing needs a live frame: a second free of the same frame is not possible. */
    method Dealloc(f: nat)
      requires Valid() && f in tables
      modifies `tables
      ensures Valid() && tables == old(tables) - {f}
    {
      tables := tables - {f};
    }

    method Write(p: nat, idx: nat, raw: nat)
      requires Valid() && p in tables && idx < 512
      modifies `tables
      ensures Valid() && tables == WithEntry(old(tables), p, idx, raw)
    {
      tables := WithEntry(tables, p, idx, raw);
    }

    /** Overwrites an entry with a leaf or with 0; a table it pointed to is detached. */
    method PutLeaf(p: nat, idx: nat, level: Level, raw: nat, ghost s: Slot)
      requires Valid() && p in tables && idx < 512
      requires HoldsSlot(tables, s, level) && Owns(tables, multiset{p} + SlotFrames(s))
      requires HoldsSlot(tables, Value(raw), level)
      modifies `tables
      ensures Valid() && p in tables
      ensures Rewrites(old(tables), tables, p, idx, level, s, Value(raw), Detached(s), multiset{})
      ensures HoldsAll(tables, Detached(s), DetachedAt(s, level))
    {
      WriteLeaf(tables, p, idx, level, s, raw);
      Write(p, idx, raw);
    }

    /** The same over an entry that is still 0. */
    method PutFresh(p: nat, idx: nat, level: Level, raw: nat)
      requires Valid() && p in tables && idx < 512
      requires HoldsSlot(tables, Value(raw), level)
      modifies `tables
      ensures Valid() && p in tables
      ensures Rewrites(old(tables), tables, p, idx, level, Value(0), Value(raw), [], multiset{})
    {
      assert multiset{p} + SlotFrames(Value(0)) <= multiset(tables.Keys);
      PutLeaf(p, idx, level, raw, Value(0));
      assert Detached(Value(0)) == [];
    }

    // ---------- building ----------

    /** One entry of `create_recursive`; on failure the entry is left as it was. */
    method CreateEntry(p: nat, start: nat, level: Level, idx: nat, list: seq<Mapping>, allow: Level)
      returns (ok: bool, ghost s: Slot, ghost lost: seq<Tree>)
      requires Valid() && p in tables && idx < 512 && tables[p][idx] == 0
      requires AllWithin(list, PHYS_LIMIT) && start % Size(level) == 0
      modifies this
      decreases level, 0
      ensures Valid() && p in tables
      ensures Honest(ok, old(refusals), refusals)
      ensures Rewrites(old(tables), tables, p, idx, level, Value(0), s, [], TreesFrames(lost))
      ensures HeldBelow(tables, lost, level) && (ok ==> lost == [])
      ensures ok ==> ShapeOf(s) == WantedSlot(list, allow, level, start)
    {
      var end := start + Size(level);
      var sub := FilterOverlap(list, start, end);
      if level > PT && sub != [] && !CanBeHuge(sub, level, allow, start, end) {
        ok, s, lost := CreateTable(p, start, level, idx, list, allow, sub);
        return;
      }
      s := CreateLeaf(p, start, level, idx, list, allow, sub);
      ok, lost := true, [];
    }

    /** The entries that get a table. */
    method CreateTable(p: nat, start: nat, level: Level, idx: nat, ghost list: seq<Mapping>, allow: Level, sub: seq<Mapping>)
      returns (ok: bool, ghost s: Slot, ghost lost: seq<Tree>)
      requires Valid() && p in tables && idx < 512 && tables[p][idx] == 0 && level > PT
      requires AllWithin(list, PHYS_LIMIT) && start % Size(level) == 0
      requires sub == Overlap(list, start, start + Size(level))
      requires sub != [] && !CanBeHuge(sub, level, allow, start, start + Size(level))
      modifies this
      decreases level - 1, 4
      ensures Valid() && p in tables
      ensures Honest(ok, old(refusals), refusals)
      ensures Rewrites(old(tables), tables, p, idx, level, Value(0), s, [], TreesFrames(lost))
      ensures HeldBelow(tables, lost, level) && (ok ==> lost == [])
      ensures ok ==> ShapeOf(s) == WantedSlot(list, allow, level, start)
    {
      OverlapKeeps(list, start, start + Size(level), PHYS_LIMIT);
      ok, s, lost := CreateBelow(p, start, level, idx, sub, allow, Value(0));
      if ok {
        LowerTable(list, allow, level, start);
      }
    }

    /** The entries that get no table: left 0, made a large leaf, or made a page. */
    method CreateLeaf(p: nat, start: nat, level: Level, idx: nat, ghost list: seq<Mapping>, allow: Level, sub: seq<Mapping>)
      returns (ghost s: Slot)
      requires Valid() && p in tables && idx < 512 && tables[p][idx] == 0
      requires AllWithin(list, PHYS_LIMIT) && start % Size(level) == 0
      requires sub == Overlap(list, start, start + Size(level))
      requires level == PT || sub == [] || CanBeHuge(sub, level, allow, start, start + Size(level))
      modifies `tables
      ensures Valid() && p in tables
      ensures Rewrites(old(tables), tables, p, idx, level, Value(0), s, [], multiset{})
      ensures ShapeOf(s) == WantedSlot(list, allow, level, start)
    {
      LeafSlotHolds(tables, list, allow, level, start);
      s := Value(LeafValue(sub, level, allow, start));
      if sub == [] {
        Untouched(tables, p, idx, level, s);
      } else if CanBeHuge(sub, level, allow, start, start + Size(level)) {
        PutFresh(p, idx, level, BuilderHugeEntry(level, start, sub[0].flags));
      } else {
        PutFresh(p, idx, level, PtEntry(start, sub[0].flags));
      }
    }

    /** Builds a lower table and links it into an entry that held no table. */
    method CreateBelow(p: nat, start: nat, level: Level, idx: nat, sub: seq<Mapping>, allow: Level, ghost s: Slot)
      returns (ok: bool, ghost s': Slot, ghost lost: seq<Tree>)
      requires Valid() && p in tables && idx < 512 && level > PT
      requires s.Value? && s.raw == tables[p][idx] && HoldsSlot(tables, s, level)
      requires AllWithin(sub, PHYS_LIMIT) && start % Size(level) == 0
      modifies this
      decreases level - 1, 3
      ensures Valid() && p in tables
      ensures Honest(ok, old(refusals), refusals)
      ensures Rewrites(old(tables), tables, p, idx, level, s, s', [], TreesFrames(lost))
      ensures HeldBelow(tables, lost, level) && (ok ==> lost == [])
      ensures ok ==> ShapeOf(s') == Table(RELAY_BITS, WantedTable(sub, allow, level - 1, start))
    {
      SizeStep(level);
      var next;
      ghost var t;
      next, t, lost := CreateRecursive(start, level - 1, sub, allow);
      HeldHigher(tables, lost, level - 1, level);
      if next.None? {
        Unwritten(old(tables), tables, p, idx, level, s, TreesFrames(lost));
        return false, s, lost;
      }
      RelayDecode(next.value);
      RelayShape(next.value, t);
      WriteNewLink(old(tables), tables, p, idx, level, s, RelayEntry(next.value), t);
      Write(p, idx, RelayEntry(next.value));
      return true, Link(RelayEntry(next.value), t), [];
    }

    /**
      `create_recursive`: builds the table for a list, out of fresh frames only. On failure the
      frames that were live are untouched, and the table being filled is given back; what is lost is
      exactly the lower tables that were already complete.
     */
    method CreateRecursive(base: nat, level: Level, list: seq<Mapping>, allow: Level)
      returns (r: Option<nat>, ghost t: Tree, ghost lost: seq<Tree>)
      requires Valid() && AllWithin(list, PHYS_LIMIT) && base % (512 * Size(level)) == 0
      modifies this
      decreases level, 2
      ensures Valid() && Preserves(old(tables), tables)
      ensures Honest(r.Some?, old(refusals), refusals)
      ensures r.Some? ==>
        && t.frame == r.value && Holds(tables, t, level)
        && Conserves(old(tables), tables, multiset{}, Frames(t), multiset{})
        && ShapesOf(t.slots) == WantedTable(list, allow, level, base)
      ensures HeldBelow(tables, lost, level) && (r.Some? ==> lost == [])
      ensures r.None? ==> Conserves(old(tables), tables, multiset{}, multiset{}, TreesFrames(lost))
    {
      r := AllocZeroed();
      t, lost := Tree(0, []), [];
      if r.None? {
        return;
      }
      var p := r.value;
      ghost var m1 := tables;
      var ok;
      ghost var slots, below;
      ok, slots, below := FillTable(p, base, level, list, allow);
      if !ok {
        AbandonedTable(old(tables), m1, tables, p, level, slots, below);
        Dealloc(p);
        return None, t, Subs(slots) + below;
      }
      BuiltAll(slots, list, allow, level, base);
      BuiltTable(old(tables), m1, tables, p, level, slots);
      t := Tree(p, slots);
    }

    /** The loop over the 512 entries of a zeroed table. */
    method FillTable(p: nat, base: nat, level: Level, list: seq<Mapping>, allow: Level)
      returns (ok: bool, ghost slots: seq<Slot>, ghost lost: seq<Tree>)
      requires Valid() && AllWithin(list, PHYS_LIMIT) && base % (512 * Size(level)) == 0
      requires p in tables && tables[p] == ZEROS
      modifies this
      decreases level, 1
      ensures Valid() && p in tables
      ensures Honest(ok, old(refusals), refusals)
      ensures Midway(old(tables), tables, Tree(p, EmptySlots(512)), level, slots, [], [], TreesFrames(lost))
      ensures HeldBelow(tables, lost, level) && (ok ==> lost == [])
      ensures |slots| == 512
      ensures ok ==> BuiltUpTo(slots, list, allow, level, base, 512)
    {
      slots := EmptySlots(512);
      MidwayStart(tables, Tree(p, slots), level);
      for idx := 0 to 512
        invariant Valid() && refusals == old(refusals)
        invariant Filling(old(tables), tables, p, level, slots, list, allow, base, idx)
      {
        SubBlock(level, base, idx);
        FillReady(old(tables), tables, p, level, slots, list, allow, base, idx);
        ghost var m := tables;
        ghost var s;
        ok, s, lost := CreateEntry(p, SlotStart(level, base, idx), level, idx, list, allow);
        FillStep(old(tables), m, tables, p, level, slots, list, allow, base, idx, s, ok, lost);
        slots := slots[idx := s];
        if !ok {
          return;
        }
      }
      ok, lost := true, [];
    }

    // ---------- updating in place ----------

    /**
      One entry of `update_recursive`. The returned list holds the tables this entry no longer
      points to, with their levels. On failure the entry is still well formed.
     */
    method UpdateEntry(p: nat, start: nat, level: Level, idx: nat, list: seq<Mapping>, allow: Level, fr: nat, ghost s: Slot)
      returns (ok: bool, fr': nat, freed: seq<(nat, Level)>, ghost s': Slot, ghost dead: seq<Tree>, ghost lost: seq<Tree>)
      requires Valid() && p in tables && idx < 512
      requires s.raw == tables[p][idx] && HoldsSlot(tables, s, level) && Owns(tables, multiset{p} + SlotFrames(s))
      requires AllWithin(list, PHYS_LIMIT) && start % Size(level) == 0
      modifies this
      decreases level, 0
      ensures Valid() && p in tables
      ensures Honest(ok, old(refusals), refusals)
      ensures Rewrites(old(tables), tables, p, idx, level, s, s', dead, TreesFrames(lost))
      ensures HeldBelow(tables, lost, level) && (ok ==> lost == [])
      ensures HoldsAll(tables, dead, freed)
      ensures ok ==> ShapeOf(s') == RenewedSlot(ShapeOf(s), list, allow, level, start)
      ensures ok ==> fr' == fr + UniformAt(s, s', level, allow)
    {
      var end := start + Size(level);
      var sub := FilterOverlap(list, start, end);
      if level > PT && sub != [] && !CanBeHuge(sub, level, allow, start, end) {
        ok, fr', freed, s', dead, lost := UpdateOrCreate(p, start, level, idx, list, allow, sub, fr, s);
        return;
      }
      freed, s', dead := UpdateLeaf(p, start, level, idx, list, allow, sub, s);
      ok, fr', lost := true, fr, [];
    }

    /** The entries that get a table: the one below is updated, or one is built. */
    method UpdateOrCreate(p: nat, start: nat, level: Level, idx: nat, ghost list: seq<Mapping>, allow: Level, sub: seq<Mapping>,
                          fr: nat, ghost s: Slot)
      returns (ok: bool, fr': nat, freed: seq<(nat, Level)>, ghost s': Slot, ghost dead: seq<Tree>, ghost lost: seq<Tree>)
      requires Valid() && p in tables && idx < 512 && level > PT
      requires s.raw == tables[p][idx] && HoldsSlot(tables, s, level) && Owns(tables, multiset{p} + SlotFrames(s))
      requires AllWithin(list, PHYS_LIMIT) && start % Size(level) == 0
      requires sub == Overlap(list, start, start + Size(level))
      requires sub != [] && !CanBeHuge(sub, level, allow, start, start + Size(level))
      modifies this
      decreases level - 1, 5
      ensures Valid() && p in tables
      ensures Honest(ok, old(refusals), refusals)
      ensures Rewrites(old(tables), tables, p, idx, level, s, s', dead, TreesFrames(lost))
      ensures HeldBelow(tables, lost, level) && (ok ==> lost == [])
      ensures HoldsAll(tables, dead, freed)
      ensures ok ==> ShapeOf(s') == RenewedSlot(ShapeOf(s), list, allow, level, start)
      ensures ok ==> fr' == fr + UniformAt(s, s', level, allow)
    {
      var current := tables[p][idx];
      OverlapKeeps(list, start, start + Size(level), PHYS_LIMIT);
      if IsPresent(current) && !IsHuge(current) {
        ok, fr', freed, s', dead, lost := UpdateBelow(p, start, level, idx, sub, allow, fr, s);
        if ok {
          UpdatedLink(s, ShapeOf(s'), list, sub, allow, level, start);
        }
      } else {
        ok, s', lost := CreateBelow(p, start, level, idx, sub, allow, s);
        fr', freed, dead := fr, [], [];
        if ok {
          LowerBuilt(s, list, allow, level, start);
        }
      }
    }

    /** The entries that get no table: cleared, made a large leaf, or made a page. */
    method UpdateLeaf(p: nat, start: nat, level: Level, idx: nat, ghost list: seq<Mapping>, allow: Level, sub: seq<Mapping>, ghost s: Slot)
      returns (freed: seq<(nat, Level)>, ghost s': Slot, ghost dead: seq<Tree>)
      requires Valid() && p in tables && idx < 512
      requires s.raw == tables[p][idx] && HoldsSlot(tables, s, level) && Owns(tables, multiset{p} + SlotFrames(s))
      requires AllWithin(list, PHYS_LIMIT) && start % Size(level) == 0
      requires sub == Overlap(list, start, start + Size(level))
      requires level == PT || sub == [] || CanBeHuge(sub, level, allow, start, start + Size(level))
      modifies `tables
      ensures Valid() && p in tables
      ensures Rewrites(old(tables), tables, p, idx, level, s, s', dead, multiset{})
      ensures HoldsAll(tables, dead, freed)
      ensures ShapeOf(s') == RenewedSlot(ShapeOf(s), list, allow, level, start) && s'.Value?
    {
      RenewedOfLeaf(ShapeOf(s), list, allow, level, start);
      if sub == [] {
        freed, s', dead := ClearEntry(p, idx, level, s);
        return;
      }
      OverlapSound(list, start, start + Size(level), 0);
      if CanBeHuge(sub, level, allow, start, start + Size(level)) {
        RenewedLeafHolds(tables, level, start, sub[0].flags);
        freed, s', dead := PutHuge(p, idx, level, UpdaterHugeEntry(level, start, sub[0].flags), s);
      } else {
        freed, s', dead := PutPage(p, idx, start, sub[0].flags, s);
      }
    }

    /** A page: written over whatever leaf was there. */
    method PutPage(p: nat, idx: nat, start: nat, f: Flags, ghost s: Slot)
      returns (freed: seq<(nat, Level)>, ghost s': Slot, ghost dead: seq<Tree>)
      requires Valid() && p in tables && idx < 512 && start % PAGE == 0 && start < PHYS_LIMIT
      requires HoldsSlot(tables, s, PT) && Owns(tables, multiset{p} + SlotFrames(s))
      modifies `tables
      ensures Valid() && p in tables
      ensures Rewrites(old(tables), tables, p, idx, PT, s, s', dead, multiset{})
      ensures HoldsAll(tables, dead, freed)
      ensures s' == Value(PtEntry(start, f))
    {
      RenewedLeafHolds(tables, PT, start, f);
      PutLeaf(p, idx, PT, PtEntry(start, f), s);
      freed, s', dead := [], Value(PtEntry(start, f)), [];
    }

    /** Nothing to map here: a present entry is cleared, and a table below it detached. */
    method ClearEntry(p: nat, idx: nat, level: Level, ghost s: Slot)
      returns (freed: seq<(nat, Level)>, ghost s': Slot, ghost dead: seq<Tree>)
      requires Valid() && p in tables && idx < 512
      requires s.raw == tables[p][idx] && HoldsSlot(tables, s, level) && Owns(tables, multiset{p} + SlotFrames(s))
      modifies `tables
      ensures Valid() && p in tables
      ensures Rewrites(old(tables), tables, p, idx, level, s, s', dead, multiset{})
      ensures HoldsAll(tables, dead, freed)
      ensures s' == Value(0)
    {
      var current := tables[p][idx];
      freed := [];
      if IsPresent(current) {
        if !IsHuge(current) && level != PT {
          freed := [(AddrOf(current), level - 1)];
        }
        PutLeaf(p, idx, level, 0, s);
        return freed, Value(0), Detached(s);
      }
      Untouched(tables, p, idx, level, s);
      return [], s, [];
    }

    /** A large leaf wanted here: written unless it is there already; a table below is detached. */
    method PutHuge(p: nat, idx: nat, level: Level, target: nat, ghost s: Slot)
      returns (freed: seq<(nat, Level)>, ghost s': Slot, ghost dead: seq<Tree>)
      requires Valid() && p in tables && idx < 512 && level > PT
      requires s.raw == tables[p][idx] && HoldsSlot(tables, s, level) && Owns(tables, multiset{p} + SlotFrames(s))
      requires HoldsSlot(tables, Value(target), level)
      modifies `tables
      ensures Valid() && p in tables
      ensures Rewrites(old(tables), tables, p, idx, level, s, s', dead, multiset{})
      ensures HoldsAll(tables, dead, freed)
      ensures s' == Value(target)
    {
      var current := tables[p][idx];
      freed := [];
      if current != target {
        if IsPresent(current) && !IsHuge(current) {
          freed := [(AddrOf(current), level - 1)];
        }
        PutLeaf(p, idx, level, target, s);
        return freed, Value(target), Detached(s);
      }
      Untouched(tables, p, idx, level, s);
      return [], s, [];
    }

    /** Updates the table below a relay entry, then writes the relay again. */
    method UpdateBelow(p: nat, start: nat, level: Level, idx: nat, sub: seq<Mapping>, allow: Level, fr: nat, ghost s: Slot)
      returns (ok: bool, fr': nat, freed: seq<(nat, Level)>, ghost s': Slot, ghost dead: seq<Tree>, ghost lost: seq<Tree>)
      requires Valid() && p in tables && idx < 512 && level > PT
      requires s.Link? && s.raw == tables[p][idx] && HoldsSlot(tables, s, level) && Owns(tables, multiset{p} + SlotFrames(s))
      requires AllWithin(sub, PHYS_LIMIT) && start % Size(level) == 0
      modifies this
      decreases level - 1, 4
      ensures Valid() && p in tables
      ensures Honest(ok, old(refusals), refusals)
      ensures Rewrites(old(tables), tables, p, idx, level, s, s', dead, TreesFrames(lost))
      ensures HeldBelow(tables, lost, level) && (ok ==> lost == [])
      ensures HoldsAll(tables, dead, freed)
      ensures ok ==>
        && |s.sub.slots| == 512
        && ShapeOf(s') == Table(RELAY_BITS, RenewedTable(ShapesOf(s.sub.slots), sub, allow, level - 1, start))
        && fr' == fr + UniformAt(s, s', level, allow)
    {
      var next := AddrOf(tables[p][idx]);
      var k: Level := level - 1;
      SubReady(tables, p, s, level, k, start);
      ghost var t;
      ok, fr', freed, t, dead, lost := UpdateRecursive(next, start, k, sub, allow, fr, s.sub);
      HeldHigher(tables, lost, k, level);
      SubDone(old(tables), tables, s, k, t, dead, freed, TreesFrames(lost));
      if !ok {
        RelinkFailed(old(tables), tables, p, idx, level, s, t, dead, freed, TreesFrames(lost));
        return false, fr', freed, Link(s.raw, t), dead, lost;
      }
      WriteRelay(p, idx, level, next, old(tables), s, t, dead, freed);
      s' := Link(RelayEntry(next), t);
    }

    /** The relay entry written again over a table that was updated. */
    method WriteRelay(p: nat, idx: nat, level: Level, next: nat, ghost m0: Memory, ghost s: Slot, ghost t: Tree,
                      ghost dead: seq<Tree>, ghost freed: seq<(nat, Level)>)
      requires Valid() && p in m0 && |m0[p]| == 512 && idx < 512 && level > PT && s.Link?
      requires Owns(m0, multiset{p} + SlotFrames(s)) && next == s.sub.frame
      requires SubUpdated(m0, tables, s, level - 1, t, dead, freed, multiset{})
      modifies `tables
      ensures Valid() && p in tables
      ensures Rewrites(m0, tables, p, idx, level, s, Link(RelayEntry(next), t), dead, multiset{})
      ensures HoldsAll(tables, dead, freed)
      ensures ShapeOf(Link(RelayEntry(next), t)) == Table(RELAY_BITS, ShapesOf(t.slots))
    {
      RelayShape(next, t);
      RelayDecode(next);
      Relink(m0, tables, p, idx, level, s, RelayEntry(next), t, dead, freed, multiset{});
      Write(p, idx, RelayEntry(next));
    }

    /**
      `update_recursive`: a successful run leaves what `RenewedTable` says of the old shapes,
      detaches exactly the tables it no longer uses, and hands them back intact.
     */
    method UpdateRecursive(p: nat, base: nat, level: Level, list: seq<Mapping>, allow: Level, fr: nat, ghost t: Tree)
      returns (ok: bool, fr': nat, freed: seq<(nat, Level)>, ghost t': Tree, ghost dead: seq<Tree>, ghost lost: seq<Tree>)
      requires Valid() && t.frame == p && Holds(tables, t, level) && Owns(tables, Frames(t))
      requires AllWithin(list, PHYS_LIMIT) && base % (512 * Size(level)) == 0
      modifies this
      decreases level, 2
      ensures Valid() && t'.frame == p && Holds(tables, t', level)
      ensures Honest(ok, old(refusals), refusals)
      ensures ChangesOnly(old(tables), tables, p, Frames(t))
      ensures Conserves(old(tables), tables, Frames(t), Frames(t') + TreesFrames(dead), TreesFrames(lost))
      ensures HeldBelow(tables, lost, level) && (ok ==> lost == [])
      ensures HoldsAll(tables, dead, freed)
      ensures ok ==> ShapesOf(t'.slots) == RenewedTable(ShapesOf(t.slots), list, allow, level, base)
      ensures ok ==> fr' == fr + UniformTables(t, t', level, allow)
    {
      ghost var slots;
      ok, fr', freed, slots, dead, lost := UpdateTable(p, base, level, list, allow, fr, t);
      t' := Tree(p, slots);
      if !ok {
        return;
      }
      RenewedAll(slots, t.slots, list, allow, level, base);
      UniformHere(tables, t, t', level, allow);
      if level <= allow {
        var uniform := CheckUniform(tables[p], level);
        if uniform {
          fr' := fr' + 1;
        }
      }
    }

    /** The loop over the 512 entries of a table in use. */
    method UpdateTable(p: nat, base: nat, level: Level, list: seq<Mapping>, allow: Level, fr: nat, ghost t: Tree)
      returns (ok: bool, fr': nat, freed: seq<(nat, Level)>, ghost slots: seq<Slot>, ghost dead: seq<Tree>, ghost lost: seq<Tree>)
      requires Valid() && t.frame == p && Holds(tables, t, level) && Owns(tables, Frames(t))
      requires AllWithin(list, PHYS_LIMIT) && base % (512 * Size(level)) == 0
      modifies this
      decreases level, 1, 1
      ensures Valid() && p in tables
      ensures Honest(ok, old(refusals), refusals)
      ensures Midway(old(tables), tables, t, level, slots, dead, freed, TreesFrames(lost))
      ensures HeldBelow(tables, lost, level) && (ok ==> lost == [])
      ensures |slots| == 512
      ensures ok ==> RenewedUpTo(slots, t.slots, list, allow, level, base, 512)
      ensures ok ==> fr' == fr + UniformBelow(t.slots, slots, level, allow, 512)
    {
      slots := t.slots;
      fr', freed, dead := fr, [], [];
      MidwayStart(tables, t, level);
      for idx := 0 to 512
        invariant Valid() && refusals == old(refusals)
        invariant Updating(old(tables), tables, t, level, slots, dead, freed, list, allow, base, idx, fr' - fr)
      {
        ok, fr', freed, slots, dead, lost :=
          UpdateRound(p, base, level, list, allow, fr, fr', freed, idx, old(tables), t, slots, dead);
        if !ok {
          return;
        }
      }
      ok, lost := true, [];
    }

    /** One round of that loop. */
    method UpdateRound(p: nat, base: nat, level: Level, list: seq<Mapping>, allow: Level, ghost fr0: nat, fr: nat,
                       freed: seq<(nat, Level)>, idx: nat, ghost m0: Memory, ghost t: Tree, ghost slots: seq<Slot>, ghost dead: seq<Tree>)
      returns (ok: bool, fr': nat, freed': seq<(nat, Level)>, ghost slots': seq<Slot>, ghost dead': seq<Tree>, ghost lost: seq<Tree>)
      requires Valid() && t.frame == p && Owns(m0, Frames(t)) && idx < 512
      requires Updating(m0, tables, t, level, slots, dead, freed, list, allow, base, idx, fr - fr0)
      requires AllWithin(list, PHYS_LIMIT) && base % (512 * Size(level)) == 0
      modifies this
      decreases level, 1, 0
      ensures Valid() && p in tables && |slots'| == 512
      ensures Honest(ok, old(refusals), refusals)
      ensures Midway(m0, tables, t, level, slots', dead', freed', TreesFrames(lost))
      ensures HeldBelow(tables, lost, level) && (ok ==> lost == [])
      ensures ok ==> Updating(m0, tables, t, level, slots', dead', freed', list, allow, base, idx + 1, fr' - fr0)
    {
      SubBlock(level, base, idx);
      UpdateReady(m0, tables, t, level, slots, dead, freed, list, allow, base, idx, fr - fr0);
      ghost var m := tables;
      var more;
      ghost var s', moreDead;
      ok, fr', more, s', moreDead, lost := UpdateEntry(p, SlotStart(level, base, idx), level, idx, list, allow, fr, slots[idx]);
      UpdateStep(m0, m, tables, t, level, slots, dead, freed, list, allow, base, idx, s', moreDead, more, ok, lost,
        fr - fr0, fr' - fr0);
      slots', dead', freed' := slots[idx := s'], dead + moreDead, freed + more;
    }

    // ---------- freeing ----------

    /** `dealloc_recursive`: frees exactly the frames of the tree, lower tables first. */
    method DeallocRecursive(frame: nat, level: Level, ghost t: Tree)
      requires Valid() && t.frame == frame && Holds(tables, t, level) && Owns(tables, Frames(t))
      modifies `tables
      decreases level, 1
      ensures Valid() && Frees(old(tables), tables, Frames(t))
    {
      if level != PT {
        FreesNothing(tables);
        for i := 0 to 512
          invariant Valid() && Frees(old(tables), tables, SlotsFrames(t.slots[..i]))
          invariant frame in tables && tables[frame] == old(tables)[frame]
        {
          SlotStillThere(old(tables), tables, t, level, i);
          ghost var m := tables;
          DeallocEntry(tables[frame][i], level, t.slots[i]);
          FreesNext(old(tables), m, tables, t, level, i);
        }
        assert t.slots[..512] == t.slots;
      } else {
        NoLinksAtBottom(tables, t, 512);
        assert t.slots[..512] == t.slots;
      }
      FreesRoot(old(tables), tables, t);
      Dealloc(frame);
    }

    /** The table below one entry, if there is one. */
    method DeallocEntry(e: nat, level: Level, ghost s: Slot)
      requires Valid() && level > PT && e == s.raw
      requires HoldsSlot(tables, s, level) && Owns(tables, SlotFrames(s))
      modifies `tables
      decreases level, 0
      ensures Valid() && Frees(old(tables), tables, SlotFrames(s))
    {
      if IsPresent(e) {
        if !IsHuge(e) {
          DeallocRecursive(AddrOf(e), level - 1, s.sub);
        }
      }
    }

    /** `free_not_used_paging`: frees every table an update handed back, and nothing else. */
    method FreeNotUsed(freed: seq<(nat, Level)>, ghost dead: seq<Tree>)
      requires Valid() && HoldsAll(tables, dead, freed) && Owns(tables, TreesFrames(dead))
      modifies `tables
      ensures Valid() && Frees(old(tables), tables, TreesFrames(dead))
    {
      FreesNothing(tables);
      for i := 0 to |freed|
        invariant Valid() && Frees(old(tables), tables, TreesFrames(dead[..i]))
      {
        TreeStillThere(old(tables), tables, dead, freed, i);
        ghost var m := tables;
        DeallocRecursive(freed[i].0, freed[i].1, dead[i]);
        FreesCompose(old(tables), m, tables, TreesFrames(dead[..i]), Frames(dead[i]));
        assert dead[..i + 1][..i] == dead[..i];
      }
      assert dead[..|dead|] == dead;
    }

    // ---------- walking ----------

    /** `get_addr`: the loop from the root level down. */
    method GetAddr(root: nat, top: Level, a: nat, ghost t: Tree) returns (r: Option<nat>)
      requires Valid() && t.frame == root && Holds(tables, t, top)
      ensures r == Translate(Find(tables, root, top, a), a)
    {
      var frame := root;
      var l := top;
      ghost var at := t;
      while true
        invariant 0 <= l <= top && at.frame == frame && Holds(tables, at, l)
        invariant Find(tables, root, top, a) == Find(tables, frame, l, a)
        decreases l
      {
        var e := tables[frame][Index(l, a)];
        if !IsPresent(e) {
          return None;
        }
        if l == PT || IsHuge(e) {
          return Some(AddrOf(e) + a % Size(l));
        }
        assert HoldsSlot(tables, at.slots[Index(l, a)], l);
        at := at.slots[Index(l, a)].sub;
        frame := AddrOf(e);
        l := l - 1;
      }
    }
  }
}
