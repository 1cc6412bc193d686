/**
  Page tables in memory: 512-entry frames that point to one another through raw entries, and the
  tree of frames that a root owns.
 */
module FrameTrees {
  import opened Options
  import opened Mappings
  import opened Entries
  import opened PageTrees

  /** The live page-table frames, by address. */
  type Memory = map<nat, seq<nat>>

  ghost predicate ValidMemory(m: Memory) {
    forall f :: f in m ==> f % PAGE == 0 && 0 < f < PHYS_LIMIT && |m[f]| == 512
  }

  /** The tree a root owns; every slot remembers the raw entry it was read from. */
  datatype Tree = Tree(frame: nat, slots: seq<Slot>)
  datatype Slot = Value(raw: nat) | Link(raw: nat, sub: Tree)

  /** `m` holds the tree `t` as a table of level `l`. */
  ghost predicate Holds(m: Memory, t: Tree, l: Level)
    decreases l, 1
  {
    && t.frame in m && |m[t.frame]| == 512 && |t.slots| == 512
    && forall i :: 0 <= i < 512 ==> m[t.frame][i] == t.slots[i].raw && HoldsSlot(m, t.slots[i], l)
  }

  /**
    An entry is absent (and then 0), a leaf, or a relay to a lower table. A present value above
    PT carries the large-page bit: that is how the code tells a leaf from a relay.
   */
  ghost predicate HoldsSlot(m: Memory, s: Slot, l: Level)
    decreases l, 0
  {
    match s
    case Value(raw) => raw == 0 || (IsPresent(raw) && (l == PT || IsHuge(raw)))
    case Link(raw, sub) =>
      l > PT && IsPresent(raw) && !IsHuge(raw) && AddrOf(raw) == sub.frame && Holds(m, sub, l - 1)
  }

  // ---------- the frames of a tree ----------

  ghost function Frames(t: Tree): multiset<nat> {
    multiset{t.frame} + SlotsFrames(t.slots)
  }

  ghost function SlotFrames(s: Slot): multiset<nat> {
    match s
    case Value(_) => multiset{}
    case Link(_, sub) => Frames(sub)
  }

  ghost function SlotsFrames(ss: seq<Slot>): multiset<nat> {
    if ss == [] then multiset{}
    else SlotsFrames(ss[..|ss| - 1]) + SlotFrames(ss[|ss| - 1])
  }

  ghost function TreesFrames(ts: seq<Tree>): multiset<nat> {
    if ts == [] then multiset{}
    else TreesFrames(ts[..|ts| - 1]) + Frames(ts[|ts| - 1])
  }

  lemma {:induction false} SlotsFramesConcat(xs: seq<Slot>, ys: seq<Slot>)
    ensures SlotsFrames(xs + ys) == SlotsFrames(xs) + SlotsFrames(ys)
  {
    if ys == [] {
      assert xs + ys == xs;
    } else {
      var n := |ys| - 1;
      assert (xs + ys)[..|xs + ys| - 1] == xs + ys[..n];
      SlotsFramesConcat(xs, ys[..n]);
    }
  }

  lemma SlotsFramesAt(ss: seq<Slot>, i: nat)
    requires i < |ss|
    ensures SlotsFrames(ss) == SlotsFrames(ss[..i]) + SlotFrames(ss[i]) + SlotsFrames(ss[i + 1..])
  {
    var front, back := ss[..i + 1], ss[i + 1..];
    assert ss == front + back;
    SlotsFramesConcat(front, back);
    assert front[..i] == ss[..i];
  }

  lemma SlotsFramesUpdate(ss: seq<Slot>, i: nat, s: Slot)
    requires i < |ss|
    ensures SlotsFrames(ss[i := s]) + SlotFrames(ss[i]) == SlotsFrames(ss) + SlotFrames(s)
  {
    SlotsFramesAt(ss, i);
    SlotsFramesAt(ss[i := s], i);
    assert ss[i := s][..i] == ss[..i] && ss[i := s][i + 1..] == ss[i + 1..];
  }

  /** Two slots of a table whose frames are pairwise distinct share no frame. */
  lemma SlotsFramesTwo(ss: seq<Slot>, i: nat, j: nat)
    requires i < |ss| && j < |ss| && i != j
    ensures SlotFrames(ss[i]) + SlotFrames(ss[j]) <= SlotsFrames(ss)
  {
    var a, b := if i < j then i else j, if i < j then j else i;
    SlotsFramesAt(ss, b);
    SlotsFramesAt(ss[..b], a);
  }

  lemma {:induction false} TreesFramesConcat(xs: seq<Tree>, ys: seq<Tree>)
    ensures TreesFrames(xs + ys) == TreesFrames(xs) + TreesFrames(ys)
  {
    if ys == [] {
      assert xs + ys == xs;
    } else {
      var n := |ys| - 1;
      assert (xs + ys)[..|xs + ys| - 1] == xs + ys[..n];
      TreesFramesConcat(xs, ys[..n]);
    }
  }

  lemma TreesFramesOne(t: Tree)
    ensures TreesFrames([t]) == Frames(t)
  {
    assert [t][..0] == [];
  }

  lemma {:induction false} TreesFramesAt(ts: seq<Tree>, i: nat)
    requires i < |ts|
    ensures Frames(ts[i]) <= TreesFrames(ts)
  {
    if i < |ts| - 1 {
      TreesFramesAt(ts[..|ts| - 1], i);
    }
  }

  lemma TreesFramesPrefix(ts: seq<Tree>, i: nat)
    requires i < |ts|
    ensures TreesFrames(ts[..i]) + Frames(ts[i]) <= TreesFrames(ts)
  {
    var front := ts[..i + 1];
    assert front[..i] == ts[..i] && front + ts[i + 1..] == ts;
    TreesFramesConcat(front, ts[i + 1..]);
  }

  // ---------- a tree depends on its own frames only ----------

  /** The two memories agree on every frame in `fs`. */
  ghost predicate AgreeOn(m: Memory, m': Memory, fs: multiset<nat>) {
    forall f :: f in fs && f in m ==> f in m' && m'[f] == m[f]
  }

  lemma {:induction false} HoldsAgree(m: Memory, m': Memory, t: Tree, l: Level)
    requires Holds(m, t, l) && AgreeOn(m, m', Frames(t))
    ensures Holds(m', t, l)
    decreases l, 1
  {
    assert t.frame in Frames(t);
    forall i | 0 <= i < 512 ensures HoldsSlot(m', t.slots[i], l) {
      SlotsFramesAt(t.slots, i);
      HoldsSlotAgree(m, m', t.slots[i], l);
    }
  }

  lemma {:induction false} HoldsSlotAgree(m: Memory, m': Memory, s: Slot, l: Level)
    requires HoldsSlot(m, s, l) && AgreeOn(m, m', SlotFrames(s))
    ensures HoldsSlot(m', s, l)
    decreases l, 0
  {
    if s.Link? {
      HoldsAgree(m, m', s.sub, l - 1);
    }
  }

  // ---------- one slot replaced ----------

  function WithEntry(m: Memory, p: nat, idx: nat, raw: nat): Memory
    requires p in m && idx < |m[p]|
  {
    var table: seq<nat> := m[p][idx := raw];
    m[p := table]
  }

  /** Every frame stays live, and only `p` and the frames in `fs` may have changed. */
  ghost predicate ChangesOnly(m: Memory, m': Memory, p: nat, fs: multiset<nat>) {
    forall f :: f in m ==> f in m' && (f == p || f in fs || m'[f] == m[f])
  }

  /** The frames of the tree are live and distinct. */
  ghost predicate Owns(m: Memory, fs: multiset<nat>) {
    fs <= multiset(m.Keys)
  }

  lemma OwnsOnce(m: Memory, fs: multiset<nat>, gs: multiset<nat>, f: nat)
    requires Owns(m, fs + gs) && f in fs
    ensures f in m && f !in gs
  {
    assert (fs + gs)[f] <= multiset(m.Keys)[f] <= 1;
  }

  /** Rewriting one entry, and what hangs below it, leaves the rest of the tree in place. */
  lemma ReplaceSlot(m: Memory, m': Memory, p: nat, slots: seq<Slot>, l: Level, idx: nat, s: Slot)
    requires Holds(m, Tree(p, slots), l) && Owns(m, Frames(Tree(p, slots))) && idx < 512
    requires ChangesOnly(m, m', p, SlotFrames(slots[idx]))
    requires m'[p] == m[p][idx := s.raw] && HoldsSlot(m', s, l)
    ensures Holds(m', Tree(p, slots[idx := s]), l)
    ensures Frames(Tree(p, slots[idx := s])) + SlotFrames(slots[idx]) == Frames(Tree(p, slots)) + SlotFrames(s)
  {
    FramesUpdate(p, slots, idx, s);
    forall i | 0 <= i < 512
      ensures m'[p][i] == slots[idx := s][i].raw && HoldsSlot(m', slots[idx := s][i], l)
    {
      SlotAfter(m, m', p, slots, l, idx, s, i);
    }
  }

  lemma FramesUpdate(p: nat, slots: seq<Slot>, idx: nat, s: Slot)
    requires idx < |slots|
    ensures Frames(Tree(p, slots[idx := s])) + SlotFrames(slots[idx]) == Frames(Tree(p, slots)) + SlotFrames(s)
  {
    SlotsFramesUpdate(slots, idx, s);
    AddFrame(multiset{p}, SlotsFrames(slots[idx := s]), SlotFrames(slots[idx]), SlotsFrames(slots), SlotFrames(s));
  }

  lemma AddFrame(p: multiset<nat>, x: multiset<nat>, b: multiset<nat>, y: multiset<nat>, c: multiset<nat>)
    requires x + b == y + c
    ensures (p + x) + b == (p + y) + c
  {
    assert (p + x) + b == p + (x + b);
    assert (p + y) + c == p + (y + c);
  }

  lemma SlotAfter(m: Memory, m': Memory, p: nat, slots: seq<Slot>, l: Level, idx: nat, s: Slot, i: nat)
    requires Holds(m, Tree(p, slots), l) && Owns(m, Frames(Tree(p, slots))) && idx < 512 && i < 512
    requires ChangesOnly(m, m', p, SlotFrames(slots[idx]))
    requires m'[p] == m[p][idx := s.raw] && HoldsSlot(m', s, l)
    ensures m'[p][i] == slots[idx := s][i].raw && HoldsSlot(m', slots[idx := s][i], l)
  {
    if i != idx {
      OtherSlotUnchanged(m, m', p, slots, idx, i);
      assert HoldsSlot(m, slots[i], l);
      HoldsSlotAgree(m, m', slots[i], l);
    }
  }

  lemma OtherSlotUnchanged(m: Memory, m': Memory, p: nat, slots: seq<Slot>, idx: nat, i: nat)
    requires Owns(m, Frames(Tree(p, slots))) && idx < |slots| && i < |slots| && i != idx
    requires ChangesOnly(m, m', p, SlotFrames(slots[idx]))
    ensures AgreeOn(m, m', SlotFrames(slots[i]))
  {
    SlotsFramesTwo(slots, i, idx);
    forall f | f in SlotFrames(slots[i]) && f in m ensures f in m' && m'[f] == m[f] {
      assert (SlotFrames(slots[i]) + SlotFrames(slots[idx]))[f] + multiset{p}[f] <= Frames(Tree(p, slots))[f];
      assert multiset(m.Keys)[f] <= 1;
    }
  }

  // ---------- what a tree looks like, up to frame addresses ----------

  ghost function ShapeOf(s: Slot): Shape
    decreases s
  {
    match s
    case Value(raw) => Entry(raw)
    case Link(raw, sub) => Table(AttrOf(raw), ShapesOf(sub.slots))
  }

  ghost function ShapesOf(ss: seq<Slot>): (r: seq<Shape>)
    ensures |r| == |ss|
    decreases ss
  {
    seq(|ss|, i requires 0 <= i < |ss| => ShapeOf(ss[i]))
  }

  // ---------- walking memory ----------

  /** The walk of `get_addr`, from a frame of level `l` down to a leaf. */
  function Find(m: Memory, frame: nat, l: Level, a: nat): Option<Leaf>
    decreases l
  {
    if frame !in m || |m[frame]| != 512 then None
    else
      var e := m[frame][Index(l, a)];
      if !IsPresent(e) then None
      else if l == PT || IsHuge(e) then Some(Leaf(l, e))
      else Find(m, AddrOf(e), l - 1, a)
  }

  /** Walking memory finds what walking the shape finds. */
  lemma {:induction false} FindInTree(m: Memory, t: Tree, l: Level, a: nat)
    requires Holds(m, t, l)
    ensures Find(m, t.frame, l, a) == FindTable(ShapesOf(t.slots), l, a)
    decreases l
  {
    var s := t.slots[Index(l, a)];
    assert HoldsSlot(m, s, l);
    assert ShapesOf(t.slots)[Index(l, a)] == ShapeOf(s);
    if s.Link? {
      FindInTree(m, s.sub, l - 1, a);
    }
  }
}

/** Who owns which frame while tables are rewritten. */
module Ownership {
  import opened Entries
  import opened FrameTrees

  /**
    Frames are conserved: the live frames of `m'` are those of `m`, less the frames in `before`,
    plus the frames in `after` and those in `lost`, which nothing points to any more; each is
    counted once.
   */
  ghost predicate Conserves(m: Memory, m': Memory, before: multiset<nat>, after: multiset<nat>, lost: multiset<nat>) {
    multiset(m.Keys) + after + lost == multiset(m'.Keys) + before
  }

  /** Complete tables of levels below `l`. */
  ghost predicate HeldBelow(m: Memory, ts: seq<Tree>, l: int) {
    forall i :: 0 <= i < |ts| ==> HeldAt(m, ts[i], l)
  }

  ghost predicate HeldAt(m: Memory, t: Tree, l: int) {
    exists k: Level :: k < l && Holds(m, t, k)
  }

  /** The detached trees are still intact, and recorded with the right frame and level. */
  ghost predicate HoldsAll(m: Memory, dead: seq<Tree>, freed: seq<(nat, Level)>) {
    && |dead| == |freed|
    && forall i :: 0 <= i < |dead| ==> freed[i].0 == dead[i].frame && Holds(m, dead[i], freed[i].1)
  }

  /** One entry rewritten: slot `s` became `s'`, and the trees in `dead` were detached. */
  ghost predicate Rewrites(m: Memory, m': Memory, p: nat, idx: nat, l: Level, s: Slot, s': Slot, dead: seq<Tree>, lost: multiset<nat>)
    requires p in m && idx < |m[p]|
  {
    && ChangesOnly(m, m', p, SlotFrames(s))
    && m'[p] == m[p][idx := s'.raw]
    && HoldsSlot(m', s', l)
    && Conserves(m, m', SlotFrames(s), SlotFrames(s') + TreesFrames(dead), lost)
  }

  lemma OwnsAfter(m: Memory, m': Memory, before: multiset<nat>, after: multiset<nat>, lost: multiset<nat>)
    requires Owns(m, before) && Conserves(m, m', before, after, lost)
    ensures Owns(m', after)
  {
    forall f ensures after[f] <= multiset(m'.Keys)[f] {
      assert (multiset(m.Keys) + after + lost)[f] == (multiset(m'.Keys) + before)[f];
      assert before[f] <= multiset(m.Keys)[f];
    }
  }

  /** Two rewriting steps in a row, the second one inside what the first left behind. */
  lemma ConservesCompose(m0: Memory, m: Memory, m': Memory, t: multiset<nat>, x: multiset<nat>, d: multiset<nat>,
                         s: multiset<nat>, s': multiset<nat>, x': multiset<nat>, e: multiset<nat>, lost: multiset<nat>)
    requires Conserves(m0, m, t, x + d, multiset{})
    requires Conserves(m, m', s, s' + e, lost)
    requires x' + s == x + s'
    ensures Conserves(m0, m', t, x' + (d + e), lost)
  {
    var k0, k, k' := multiset(m0.Keys), multiset(m.Keys), multiset(m'.Keys);
    forall f ensures (k0 + (x' + (d + e)) + lost)[f] == (k' + t)[f] {
      assert (k0 + (x + d) + multiset{})[f] == (k + t)[f];
      assert (k + (s' + e) + lost)[f] == (k' + s)[f];
      assert (x' + s)[f] == (x + s')[f];
    }
  }

  /** Detached trees are untouched by later steps, which stay inside the tree. */
  lemma DeadUntouched(m: Memory, m': Memory, live: multiset<nat>, p: nat, fs: multiset<nat>, dead: seq<Tree>, freed: seq<(nat, Level)>)
    requires HoldsAll(m, dead, freed) && Owns(m, live + TreesFrames(dead))
    requires ChangesOnly(m, m', p, fs) && p in live && fs <= live
    ensures HoldsAll(m', dead, freed)
  {
    forall i | 0 <= i < |dead| ensures Holds(m', dead[i], freed[i].1) {
      TreesFramesAt(dead, i);
      forall f | f in Frames(dead[i]) && f in m ensures f in m' && m'[f] == m[f] {
        assert f in TreesFrames(dead);
        OwnsOnce(m, TreesFrames(dead), live, f) by {
          assert TreesFrames(dead) + live == live + TreesFrames(dead);
        }
        assert f !in fs && f != p;
      }
      HoldsAgree(m, m', dead[i], freed[i].1);
    }
  }

  /** The state of an update between two entries of one table. */
  ghost predicate Midway(m0: Memory, m: Memory, t: Tree, l: Level, slots: seq<Slot>, dead: seq<Tree>, freed: seq<(nat, Level)>, lost: multiset<nat>) {
    && Holds(m, Tree(t.frame, slots), l)
    && Conserves(m0, m, Frames(t), Frames(Tree(t.frame, slots)) + TreesFrames(dead), lost)
    && ChangesOnly(m0, m, t.frame, Frames(t))
    && HoldsAll(m, dead, freed)
  }

  lemma MidwayStart(m: Memory, t: Tree, l: Level)
    requires Holds(m, t, l)
    ensures Midway(m, m, t, l, t.slots, [], [], multiset{})
  {
    assert Tree(t.frame, t.slots) == t;
    assert Frames(t) + TreesFrames([]) == Frames(t);
  }

  /** Rewriting the next entry carries the invariant on. */
  lemma MidwayStep(m0: Memory, m: Memory, m': Memory, t: Tree, l: Level, slots: seq<Slot>, dead: seq<Tree>, freed: seq<(nat, Level)>,
                   idx: nat, s': Slot, more: seq<Tree>, moreFreed: seq<(nat, Level)>, lost: multiset<nat>)
    requires Owns(m0, Frames(t)) && |t.slots| == 512
    requires Midway(m0, m, t, l, slots, dead, freed, multiset{})
    requires idx < 512 && slots[idx] == t.slots[idx]
    requires Rewrites(m, m', t.frame, idx, l, slots[idx], s', more, lost)
    requires HoldsAll(m', more, moreFreed)
    ensures Midway(m0, m', t, l, slots[idx := s'], dead + more, freed + moreFreed, lost)
  {
    var p := t.frame;
    MidwayOwns(m0, m, t, l, slots, dead, freed, idx);
    assert Holds(m', Tree(p, slots[idx := s']), l) by {
      ReplaceSlot(m, m', p, slots, l, idx, s');
    }
    assert HoldsAll(m', dead + more, freed + moreFreed) by {
      DeadUntouched(m, m', Frames(Tree(p, slots)), p, SlotFrames(slots[idx]), dead, freed);
      HoldsAllConcat(m', dead, freed, more, moreFreed);
    }
    assert ChangesOnly(m0, m', p, Frames(t)) by {
      SlotsFramesAt(t.slots, idx);
      ChangesCompose(m0, m, m', p, Frames(t), SlotFrames(slots[idx]));
    }
    FramesUpdate(p, slots, idx, s');
    TreesFramesConcat(dead, more);
    ConservesCompose(m0, m, m', Frames(t), Frames(Tree(p, slots)), TreesFrames(dead), SlotFrames(slots[idx]), SlotFrames(s'),
      Frames(Tree(p, slots[idx := s'])), TreesFrames(more), lost);
  }

  lemma MidwayOwns(m0: Memory, m: Memory, t: Tree, l: Level, slots: seq<Slot>, dead: seq<Tree>, freed: seq<(nat, Level)>, idx: nat)
    requires Owns(m0, Frames(t)) && Midway(m0, m, t, l, slots, dead, freed, multiset{}) && idx < 512
    ensures Owns(m, Frames(Tree(t.frame, slots)) + TreesFrames(dead))
    ensures Owns(m, Frames(Tree(t.frame, slots)))
    ensures t.frame in Frames(Tree(t.frame, slots))
    ensures SlotFrames(slots[idx]) <= Frames(Tree(t.frame, slots))
    ensures Owns(m, multiset{t.frame} + SlotFrames(slots[idx]))
  {
    var live := Frames(Tree(t.frame, slots));
    OwnsAfter(m0, m, Frames(t), live + TreesFrames(dead), multiset{});
    OwnsPart(m, live, TreesFrames(dead));
    SlotsFramesAt(slots, idx);
    assert multiset{t.frame} + SlotFrames(slots[idx]) <= live;
  }

  lemma HoldsAllConcat(m: Memory, dead: seq<Tree>, freed: seq<(nat, Level)>, more: seq<Tree>, moreFreed: seq<(nat, Level)>)
    requires HoldsAll(m, dead, freed) && HoldsAll(m, more, moreFreed)
    ensures HoldsAll(m, dead + more, freed + moreFreed)
  {
  }

  lemma OwnsPart(m: Memory, a: multiset<nat>, b: multiset<nat>)
    requires Owns(m, a + b)
    ensures Owns(m, a)
  {
    assert a <= a + b;
  }

  lemma ChangesCompose(m0: Memory, m: Memory, m': Memory, p: nat, fs: multiset<nat>, gs: multiset<nat>)
    requires ChangesOnly(m0, m, p, fs) && ChangesOnly(m, m', p, gs) && gs <= fs
    ensures ChangesOnly(m0, m', p, fs)
  {
  }

  // ---------- the two ways an entry is rewritten ----------

  ghost predicate Preserves(m: Memory, m': Memory) {
    forall f :: f in m ==> f in m' && m'[f] == m[f]
  }

  /** The trees that overwriting a slot detaches. */
  ghost function Detached(s: Slot): seq<Tree> {
    if s.Link? then [s.sub] else []
  }

  /** Writing an entry of `p` does not disturb a tree that does not own `p`. */
  lemma WriteElsewhere(m: Memory, p: nat, idx: nat, raw: nat, t: Tree, l: Level)
    requires p in m && idx < |m[p]| && Holds(m, t, l) && p !in Frames(t)
    ensures Holds(WithEntry(m, p, idx, raw), t, l)
  {
    HoldsAgree(m, WithEntry(m, p, idx, raw), t, l);
  }

  lemma SameEntry(m: Memory, p: nat, idx: nat)
    requires p in m && idx < |m[p]|
    ensures WithEntry(m, p, idx, m[p][idx]) == m
  {
    assert m[p][idx := m[p][idx]] == m[p];
  }

  /** How a detached table is recorded: its frame and its level. */
  function DetachedAt(s: Slot, l: Level): seq<(nat, Level)>
    requires s.Link? ==> l > PT
  {
    if s.Link? then [(s.sub.frame, l - 1)] else []
  }

  /** A leaf (or nothing) written over a slot. */
  lemma WriteLeaf(m: Memory, p: nat, idx: nat, l: Level, s: Slot, raw: nat)
    requires p in m && |m[p]| == 512 && idx < 512
    requires HoldsSlot(m, s, l) && Owns(m, multiset{p} + SlotFrames(s))
    requires HoldsSlot(m, Value(raw), l)
    ensures Rewrites(m, WithEntry(m, p, idx, raw), p, idx, l, s, Value(raw), Detached(s), multiset{})
    ensures HoldsAll(WithEntry(m, p, idx, raw), Detached(s), DetachedAt(s, l))
  {
    WriteLeafConserves(m, p, idx, s, raw);
    WriteLeafDetached(m, p, idx, l, s, raw);
  }

  lemma WriteLeafConserves(m: Memory, p: nat, idx: nat, s: Slot, raw: nat)
    requires p in m && idx < |m[p]|
    ensures Conserves(m, WithEntry(m, p, idx, raw), SlotFrames(s), SlotFrames(Value(raw)) + TreesFrames(Detached(s)), multiset{})
  {
    DetachedFrames(s);
    assert SlotFrames(Value(raw)) + TreesFrames(Detached(s)) == SlotFrames(s);
    assert WithEntry(m, p, idx, raw).Keys == m.Keys;
  }

  lemma WriteLeafDetached(m: Memory, p: nat, idx: nat, l: Level, s: Slot, raw: nat)
    requires p in m && idx < |m[p]| && HoldsSlot(m, s, l) && Owns(m, multiset{p} + SlotFrames(s))
    ensures HoldsAll(WithEntry(m, p, idx, raw), Detached(s), DetachedAt(s, l))
  {
    if s.Link? {
      OwnsOnce(m, multiset{p}, Frames(s.sub), p);
      WriteElsewhere(m, p, idx, raw, s.sub, l - 1);
    }
  }

  lemma DetachedFrames(s: Slot)
    ensures TreesFrames(Detached(s)) == SlotFrames(s)
  {
    if s.Link? {
      TreesFramesOne(s.sub);
    }
  }

  /** A relay written after the table below it was built or updated. */
  lemma WriteLink(m0: Memory, m: Memory, p: nat, idx: nat, l: Level, s: Slot, raw: nat, sub: Tree,
                  dead: seq<Tree>, freed: seq<(nat, Level)>, lost: multiset<nat>)
    requires p in m0 && |m0[p]| == 512 && idx < 512 && l > PT
    requires Owns(m0, multiset{p} + SlotFrames(s))
    requires ChangesOnly(m0, m, p, SlotFrames(s)) && m[p] == m0[p]
    requires Conserves(m0, m, SlotFrames(s), Frames(sub) + TreesFrames(dead), lost)
    requires Holds(m, sub, l - 1) && HoldsAll(m, dead, freed)
    requires IsPresent(raw) && !IsHuge(raw) && AddrOf(raw) == sub.frame
    ensures Rewrites(m0, WithEntry(m, p, idx, raw), p, idx, l, s, Link(raw, sub), dead, lost)
    ensures HoldsAll(WithEntry(m, p, idx, raw), dead, freed)
  {
    var m' := WithEntry(m, p, idx, raw);
    ParentApart(m0, m, p, SlotFrames(s), Frames(sub) + TreesFrames(dead), lost);
    assert HoldsSlot(m', Link(raw, sub), l) by {
      WriteElsewhere(m, p, idx, raw, sub, l - 1);
    }
    assert HoldsAll(m', dead, freed) by {
      WriteElsewhereAll(m, p, idx, raw, dead, freed);
    }
    WriteFrame(m0, m, p, idx, raw, SlotFrames(s), Frames(sub) + TreesFrames(dead), lost);
  }

  lemma WriteFrame(m0: Memory, m: Memory, p: nat, idx: nat, raw: nat, fs: multiset<nat>, after: multiset<nat>, lost: multiset<nat>)
    requires p in m0 && idx < |m0[p]| && ChangesOnly(m0, m, p, fs) && m[p] == m0[p]
    requires Conserves(m0, m, fs, after, lost)
    ensures ChangesOnly(m0, WithEntry(m, p, idx, raw), p, fs)
    ensures WithEntry(m, p, idx, raw)[p] == m0[p][idx := raw]
    ensures Conserves(m0, WithEntry(m, p, idx, raw), fs, after, lost)
  {
    assert WithEntry(m, p, idx, raw).Keys == m.Keys;
  }

  lemma WriteElsewhereAll(m: Memory, p: nat, idx: nat, raw: nat, dead: seq<Tree>, freed: seq<(nat, Level)>)
    requires p in m && idx < |m[p]| && HoldsAll(m, dead, freed) && p !in TreesFrames(dead)
    ensures HoldsAll(WithEntry(m, p, idx, raw), dead, freed)
  {
    forall i | 0 <= i < |dead| ensures Holds(WithEntry(m, p, idx, raw), dead[i], freed[i].1) {
      TreesFramesAt(dead, i);
      WriteElsewhere(m, p, idx, raw, dead[i], freed[i].1);
    }
  }

  /** The parent is not among the frames that came out of a step below it. */
  lemma ParentApart(m0: Memory, m: Memory, p: nat, before: multiset<nat>, after: multiset<nat>, lost: multiset<nat>)
    requires p in m0 && Owns(m0, multiset{p} + before) && Conserves(m0, m, before, after, lost)
    ensures p !in after
  {
    assert (multiset{p} + before)[p] <= multiset(m0.Keys)[p];
    assert (multiset(m0.Keys) + after + lost)[p] == (multiset(m.Keys) + before)[p];
    assert multiset(m.Keys)[p] <= 1;
  }

  // ---------- an empty table ----------

  ghost function EmptySlots(n: nat): (ss: seq<Slot>)
    ensures |ss| == n && forall i :: 0 <= i < n ==> ss[i] == Value(0)
  {
    seq(n, _ => Value(0))
  }

  lemma {:induction false} EmptySlotsFrames(n: nat)
    ensures SlotsFrames(EmptySlots(n)) == multiset{}
  {
    if n > 0 {
      assert EmptySlots(n)[..n - 1] == EmptySlots(n - 1);
      EmptySlotsFrames(n - 1);
    }
  }

  /** The tables that the slots of a table point to. */
  ghost function Subs(ss: seq<Slot>): seq<Tree> {
    if ss == [] then [] else Subs(ss[..|ss| - 1]) + Detached(ss[|ss| - 1])
  }

  lemma {:induction false} SubsFrames(ss: seq<Slot>)
    ensures TreesFrames(Subs(ss)) == SlotsFrames(ss)
  {
    if ss != [] {
      var n := |ss| - 1;
      SubsFrames(ss[..n]);
      DetachedFrames(ss[n]);
      TreesFramesConcat(Subs(ss[..n]), Detached(ss[n]));
    }
  }

  lemma {:induction false} SubsHeld(m: Memory, ss: seq<Slot>, l: Level)
    requires forall i :: 0 <= i < |ss| ==> HoldsSlot(m, ss[i], l)
    ensures HeldBelow(m, Subs(ss), l)
  {
    if ss != [] {
      var n := |ss| - 1;
      SubsHeld(m, ss[..n], l);
      assert HoldsSlot(m, ss[n], l);
      if ss[n].Link? {
        var k: Level := l - 1;
        assert Holds(m, ss[n].sub, k);
      }
    }
  }

  lemma HeldConcat(m: Memory, ts: seq<Tree>, us: seq<Tree>, l: int)
    requires HeldBelow(m, ts, l) && HeldBelow(m, us, l)
    ensures HeldBelow(m, ts + us, l)
  {
  }

  lemma HeldHigher(m: Memory, ts: seq<Tree>, k: int, l: int)
    requires HeldBelow(m, ts, k) && k <= l
    ensures HeldBelow(m, ts, l)
  {
    forall i | 0 <= i < |ts| ensures HeldAt(m, ts[i], l) {
      assert HeldAt(m, ts[i], k);
    }
  }

  /** Freeing a frame of none of the trees leaves them in place. */
  lemma HeldWithout(m: Memory, ts: seq<Tree>, l: int, p: nat)
    requires HeldBelow(m, ts, l) && p !in TreesFrames(ts)
    ensures HeldBelow(m - {p}, ts, l)
  {
    forall i | 0 <= i < |ts| ensures HeldAt(m - {p}, ts[i], l) {
      assert HeldAt(m, ts[i], l);
      var k: Level :| k < l && Holds(m, ts[i], k);
      TreesFramesAt(ts, i);
      HoldsAgree(m, m - {p}, ts[i], k);
    }
  }

  /**
    A table given up half way: freeing it leaves the frames that were there before as they were, and
    of the new ones exactly those of the lower tables that were complete.
   */
  lemma AbandonedTable(m0: Memory, m1: Memory, m: Memory, p: nat, l: Level, slots: seq<Slot>, below: seq<Tree>)
    requires p !in m0 && Preserves(m0, m1) && m1.Keys == m0.Keys + {p}
    requires Midway(m1, m, Tree(p, EmptySlots(512)), l, slots, [], [], TreesFrames(below)) && |slots| == 512
    requires HeldBelow(m, below, l)
    ensures p in m && Preserves(m0, m - {p})
    ensures HeldBelow(m - {p}, Subs(slots) + below, l)
    ensures Conserves(m0, m - {p}, multiset{}, multiset{}, TreesFrames(Subs(slots) + below))
  {
    EmptyTreeFrames(p);
    AbandonedConserves(m0, m1, m, p, slots, below);
    SubsHeld(m, slots, l);
    HeldConcat(m, Subs(slots), below, l);
    HeldWithout(m, Subs(slots) + below, l, p);
  }

  lemma EmptyTreeFrames(p: nat)
    ensures Frames(Tree(p, EmptySlots(512))) == multiset{p}
  {
    EmptySlotsFrames(512);
  }

  lemma LostFrames(slots: seq<Slot>, below: seq<Tree>)
    ensures TreesFrames(Subs(slots) + below) == SlotsFrames(slots) + TreesFrames(below)
  {
    SubsFrames(slots);
    TreesFramesConcat(Subs(slots), below);
  }

  lemma AbandonedConserves(m0: Memory, m1: Memory, m: Memory, p: nat, slots: seq<Slot>, below: seq<Tree>)
    requires p !in m0 && m1.Keys == m0.Keys + {p} && p in m
    requires Conserves(m1, m, multiset{p}, Frames(Tree(p, slots)) + TreesFrames([]), TreesFrames(below))
    ensures p !in TreesFrames(Subs(slots) + below)
    ensures Conserves(m0, m - {p}, multiset{}, multiset{}, TreesFrames(Subs(slots) + below))
  {
    LostFrames(slots, below);
    var after := Frames(Tree(p, slots)) + TreesFrames([]);
    assert after == multiset{p} + SlotsFrames(slots);
    AbandonedFrames(m0, m1, m, p, after, SlotsFrames(slots), TreesFrames(below));
  }

  /** The frames that stay when a new table `p` is freed that pointed to the frames in `a`, with `b` lost before. */
  lemma AbandonedFrames(m0: Memory, m1: Memory, m: Memory, p: nat, after: multiset<nat>, a: multiset<nat>, b: multiset<nat>)
    requires p !in m0 && m1.Keys == m0.Keys + {p} && p in m
    requires after == multiset{p} + a && Conserves(m1, m, multiset{p}, after, b)
    ensures p !in a + b
    ensures Conserves(m0, m - {p}, multiset{}, multiset{}, a + b)
  {
    var m' := m - {p};
    FreesOne(m, p);
    assert multiset(m1.Keys) == multiset(m0.Keys) + multiset{p};
    OneLess(multiset(m0.Keys), multiset(m1.Keys), multiset(m.Keys), multiset(m'.Keys), multiset{p}, a, b);
    assert multiset(m'.Keys)[p] == 0;
  }

  lemma OneLess(k0: multiset<nat>, k1: multiset<nat>, k: multiset<nat>, k': multiset<nat>, p: multiset<nat>, a: multiset<nat>, b: multiset<nat>)
    requires k1 == k0 + p && k' + p == k && k1 + (p + a) + b == k + p
    ensures k0 + (a + b) == k'
  {
    forall f ensures (k0 + (a + b))[f] == k'[f] {
      assert (k1 + (p + a) + b)[f] == (k + p)[f] && (k' + p)[f] == k[f];
    }
  }

  /** A whole table filled in: the frames added are exactly those of its tree. */
  lemma BuiltTable(m0: Memory, m1: Memory, m: Memory, p: nat, l: Level, slots: seq<Slot>)
    requires p !in m0 && Preserves(m0, m1) && m1.Keys == m0.Keys + {p}
    requires Midway(m1, m, Tree(p, EmptySlots(512)), l, slots, [], [], multiset{})
    ensures Holds(m, Tree(p, slots), l) && Preserves(m0, m)
    ensures Conserves(m0, m, multiset{}, Frames(Tree(p, slots)), multiset{})
  {
    EmptySlotsFrames(512);
    assert multiset(m1.Keys) == multiset(m0.Keys) + multiset{p};
    var fs := Frames(Tree(p, slots));
    forall f ensures (multiset(m0.Keys) + fs)[f] == multiset(m.Keys)[f] {
      assert (multiset(m1.Keys) + (fs + TreesFrames([])) + multiset{})[f] == (multiset(m.Keys) + multiset{p})[f];
    }
  }

  // ---------- freeing ----------

  /** Exactly the frames in `fs` are gone, and nothing else changed. */
  ghost predicate Frees(m: Memory, m': Memory, fs: multiset<nat>) {
    && multiset(m'.Keys) + fs == multiset(m.Keys)
    && Preserves(m', m)
  }

  lemma FreesAgree(m: Memory, m': Memory, fs: multiset<nat>, gs: multiset<nat>)
    requires Frees(m, m', fs) && Owns(m, fs + gs)
    ensures AgreeOn(m, m', gs) && Owns(m', gs)
  {
    forall f ensures gs[f] <= multiset(m'.Keys)[f] && (f in gs ==> f in m') {
      assert (multiset(m'.Keys) + fs)[f] == multiset(m.Keys)[f];
      assert (fs + gs)[f] <= multiset(m.Keys)[f];
    }
  }

  lemma FreesCompose(m: Memory, m': Memory, m'': Memory, fs: multiset<nat>, gs: multiset<nat>)
    requires Frees(m, m', fs) && Frees(m', m'', gs)
    ensures Frees(m, m'', fs + gs)
  {
    assert multiset(m''.Keys) + (fs + gs) == (multiset(m''.Keys) + gs) + fs;
  }

  lemma FreesOne(m: Memory, f: nat)
    requires f in m
    ensures Frees(m, m - {f}, multiset{f})
  {
    assert m.Keys == (m - {f}).Keys + {f};
  }

  lemma FreesNothing(m: Memory)
    ensures Frees(m, m, multiset{})
  {
  }
}
