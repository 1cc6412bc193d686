/**
  Normalisation of a mapping list: interval overriding, sorting and merging
  (`normalize_map_list` in src/memory/paging.rs).
 */
module Normalize {
  import opened Options
  import opened Mappings
  import opened Arith

  // ---------- one range carved out of the ranges before it ----------

  /** What is left of `prior` outside `over`. */
  function Carve(prior: Mapping, over: Range): seq<Mapping> {
    var r := prior.range;
    if !over.Overlaps(r) then [prior]
    else
      (if r.start < over.start then [prior.(range := Range(r.start, over.start - r.start))] else []) +
      (if over.End() < r.End() then [prior.(range := Range(over.End(), r.End() - over.End()))] else [])
  }

  function CarveAll(list: seq<Mapping>, over: Range): seq<Mapping> {
    if list == [] then []
    else CarveAll(list[..|list| - 1], over) + Carve(list[|list| - 1], over)
  }

  lemma CutAt(done: seq<Mapping>, rest: seq<Mapping>)
    requires rest != []
    ensures (done + rest)[..|done|] == done && (done + rest)[|done|] == rest[0]
    ensures (done + rest)[|done| + 1..] == rest[1..]
  {
  }

  /** One element of a partly carved list replaced by what is left of it. */
  lemma CarveStep(list: seq<Mapping>, k: nat, over: Range, before: seq<Mapping>, after: seq<Mapping>)
    requires k < |list|
    requires before == CarveAll(list[..k], over) + list[k..]
    requires var j := |CarveAll(list[..k], over)|;
             after == before[..j] + Carve(before[j], over) + before[j + 1..]
    ensures CarveAll(list[..k + 1], over) == CarveAll(list[..k], over) + Carve(list[k], over)
    ensures after == CarveAll(list[..k + 1], over) + list[k + 1..]
  {
    CutAt(CarveAll(list[..k], over), list[k..]);
    assert list[k..][1..] == list[k + 1..];
    assert list[..k + 1][..k] == list[..k];
  }

  /** One round of the inner loop: removes, splits or trims the entry at `j`; returns the next `j`. */
  method TrimAt(list: seq<Mapping>, j: nat, over: Range) returns (final: seq<Mapping>, next: nat)
    requires j < |list|
    ensures final == list[..j] + Carve(list[j], over) + list[j + 1..]
    ensures next == j + |Carve(list[j], over)|
  {
    var newStart, newEnd := over.start, over.End();
    var prior := list[j];
    var oldStart, oldEnd := prior.range.start, prior.range.End();
    final := list;
    if newStart < oldEnd && newEnd > oldStart {
      if oldStart >= newStart && oldEnd <= newEnd {
        final := final[..j] + final[j + 1..];
        return final, j;
      } else if oldStart < newStart && oldEnd > newEnd {
        final := final[j := prior.(range := Range(oldStart, newStart - oldStart))];
        var split := prior.(range := Range(newEnd, oldEnd - newEnd));
        final := final[..j + 1] + [split] + final[j + 1..];
        return final, j + 2;
      } else if oldStart < newStart {
        final := final[j := prior.(range := Range(oldStart, newStart - oldStart))];
      } else {
        final := final[j := prior.(range := Range(newEnd, oldEnd - newEnd))];
      }
    }
    next := j + 1;
  }

  /** The scan between two entries: `k` of the old list are done, and `j` stands before the next. */
  ghost predicate Scanning(list: seq<Mapping>, over: Range, k: nat, final: seq<Mapping>, j: nat) {
    k <= |list| && final == CarveAll(list[..k], over) + list[k..] && j == |CarveAll(list[..k], over)|
  }

  lemma ScanStep(list: seq<Mapping>, over: Range, k: nat, before: seq<Mapping>, j: nat, after: seq<Mapping>)
    requires Scanning(list, over, k, before, j) && j < |before|
    requires after == before[..j] + Carve(before[j], over) + before[j + 1..]
    ensures k < |list| && Scanning(list, over, k + 1, after, j + |Carve(before[j], over)|)
    ensures |after| - (j + |Carve(before[j], over)|) < |before| - j
  {
    assert before[j] == list[k];
    CarveStep(list, k, over, before, after);
  }

  /**
    One range of the outer loop: every earlier entry is cut to what is left outside the new range,
    and the new mapping is pushed. The scan ends although it both removes and inserts.
   */
  method Override(list: seq<Mapping>, over: Mapping) returns (final: seq<Mapping>)
    ensures final == CarveAll(list, over.range) + [over]
  {
    final := list;
    var j: nat := 0;
    ghost var k: nat := 0;
    while j < |final|
      invariant Scanning(list, over.range, k, final, j)
      decreases |final| - j
    {
      ghost var before, at := final, j;
      final, j := TrimAt(final, j, over.range);
      ScanStep(list, over.range, k, before, at, final);
      k := k + 1;
    }
    assert list[..k] == list;
    final := final + [over];
  }

  /** Overriding changes the meaning exactly as appending the new mapping does. */
  lemma {:induction false} CarveAllMeaning(list: seq<Mapping>, over: Range, a: nat)
    ensures LastWriter(CarveAll(list, over), a) == if over.Contains(a) then None else LastWriter(list, a)
  {
    if list != [] {
      var n := |list| - 1;
      var pieces := Carve(list[n], over);
      CarveAllMeaning(list[..n], over, a);
      LastWriterConcat(CarveAll(list[..n], over), pieces, a);
      CarveMeaning(list[n], over, a);
    }
  }

  lemma CarveMeaning(prior: Mapping, over: Range, a: nat)
    ensures LastWriter(Carve(prior, over), a) ==
            if prior.range.Contains(a) && !over.Contains(a) then Some(prior.flags) else None
  {
    var pieces := Carve(prior, over);
    if |pieces| == 1 {
      assert pieces == [pieces[0]];
      LastWriterOne(pieces[0], a);
    } else if |pieces| == 2 {
      assert pieces == [pieces[0]] + [pieces[1]];
      LastWriterConcat([pieces[0]], [pieces[1]], a);
      LastWriterOne(pieces[0], a);
      LastWriterOne(pieces[1], a);
    }
  }

  lemma OverrideMeaning(list: seq<Mapping>, over: Mapping)
    ensures SameMeaning(CarveAll(list, over.range) + [over], list + [over])
  {
    forall a: nat
      ensures LastWriter(CarveAll(list, over.range) + [over], a) == LastWriter(list + [over], a)
    {
      CarveAllMeaning(list, over.range, a);
      LastWriterConcat(CarveAll(list, over.range), [over], a);
      LastWriterConcat(list, [over], a);
      LastWriterOne(over, a);
    }
  }

  // ---------- what overriding keeps ----------

  /** Pairwise disjoint in the sense of the source's own overlap test. */
  ghost predicate Separated(list: seq<Mapping>) {
    forall i, j :: 0 <= i < j < |list| ==> !list[i].range.Overlaps(list[j].range)
  }

  ghost predicate PieceOf(p: Mapping, m: Mapping, over: Range) {
    && m.range.start <= p.range.start && p.range.End() <= m.range.End()
    && p.flags == m.flags
    && !over.Overlaps(p.range)
    && (m.range.len > 0 ==> p.range.len > 0)
    && (m.range.Aligned() && over.Aligned() ==> p.range.Aligned())
  }

  lemma AlignedDifference(a: nat, b: nat)
    requires a % PAGE == 0 && b % PAGE == 0 && b <= a
    ensures (a - b) % PAGE == 0 && (a + b) % PAGE == 0
  {
    var q, r := Split(a, PAGE);
    var q', r' := Split(b, PAGE);
    DivMod(q - q', 0, PAGE);
    DivMod(q + q', 0, PAGE);
  }

  lemma AlignedSum(a: nat, b: nat)
    requires a % PAGE == 0 && b % PAGE == 0
    ensures (a + b) % PAGE == 0
  {
    if b <= a { AlignedDifference(a, b); } else { AlignedDifference(b, a); }
  }

  lemma AlignedEnds(r: Range, over: Range)
    requires r.Aligned() && over.Aligned()
    ensures over.End() % PAGE == 0
    ensures r.start <= over.start ==> (over.start - r.start) % PAGE == 0
    ensures over.End() <= r.End() ==> (r.End() - over.End()) % PAGE == 0
  {
    AlignedSum(over.start, over.len);
    AlignedSum(r.start, r.len);
    if r.start <= over.start { AlignedDifference(over.start, r.start); }
    if over.End() <= r.End() { AlignedDifference(r.End(), over.End()); }
  }

  lemma CarvePieces(m: Mapping, over: Range, p: Mapping)
    requires p in Carve(m, over)
    ensures PieceOf(p, m, over)
  {
    if m.range.Aligned() && over.Aligned() {
      AlignedEnds(m.range, over);
    }
  }

  lemma {:induction false} CarveAllPieces(list: seq<Mapping>, over: Range, p: Mapping) returns (i: int)
    requires p in CarveAll(list, over)
    ensures 0 <= i < |list| && PieceOf(p, list[i], over)
  {
    var n := |list| - 1;
    if p in Carve(list[n], over) {
      CarvePieces(list[n], over, p);
      i := n;
    } else {
      i := CarveAllPieces(list[..n], over, p);
    }
  }

  lemma {:induction false} CarveAllApart(list: seq<Mapping>, over: Range)
    requires Separated(list)
    ensures Separated(CarveAll(list, over))
  {
    if list != [] {
      var n := |list| - 1;
      var front, back := CarveAll(list[..n], over), Carve(list[n], over);
      CarveAllApart(list[..n], over);
      forall i, j | 0 <= i < |front| && 0 <= j < |back|
        ensures !front[i].range.Overlaps(back[j].range)
      {
        var k := CarveAllPieces(list[..n], over, front[i]);
        CarvePieces(list[n], over, back[j]);
        assert !list[k].range.Overlaps(list[n].range);
      }
    }
  }

  lemma CarveAllSeparated(list: seq<Mapping>, over: Mapping)
    requires Separated(list)
    ensures Separated(CarveAll(list, over.range) + [over])
  {
    var front := CarveAll(list, over.range);
    CarveAllApart(list, over.range);
    forall i | 0 <= i < |front| ensures !front[i].range.Overlaps(over.range) {
      var k := CarveAllPieces(list, over.range, front[i]);
    }
  }

  predicate Splits(m: Mapping, over: Range) {
    m.range.start < over.start && over.End() < m.range.End()
  }

  /** A new range splits at most one prior range, so the list grows by at most one piece. */
  lemma {:induction false} CarveAllSize(list: seq<Mapping>, over: Range)
    requires Separated(list)
    ensures |CarveAll(list, over)| <= |list| + 1
    ensures (forall i :: 0 <= i < |list| ==> !Splits(list[i], over)) ==> |CarveAll(list, over)| <= |list|
  {
    if list != [] {
      var n := |list| - 1;
      CarveAllSize(list[..n], over);
      if Splits(list[n], over) {
        forall i | 0 <= i < n ensures !Splits(list[..n][i], over) {
          assert !list[i].range.Overlaps(list[n].range);
        }
      }
    }
  }

  /** Every entry after an override is the new mapping or a piece of an old one. */
  lemma OverrideSource(list: seq<Mapping>, over: Mapping, x: Mapping) returns (m: Mapping)
    requires x in CarveAll(list, over.range) + [over]
    ensures m in list + [over] && (x == m == over || PieceOf(x, m, over.range))
  {
    if x in CarveAll(list, over.range) {
      var k := CarveAllPieces(list, over.range, x);
      m := list[k];
    } else {
      m := over;
    }
  }

  lemma OverrideElements(list: seq<Mapping>, over: Mapping, limit: nat, x: Mapping)
    requires x in CarveAll(list, over.range) + [over]
    ensures AllPositive(list + [over]) ==> x.range.len > 0
    ensures AllAligned(list + [over]) ==> x.range.Aligned()
    ensures AllWithin(list + [over], limit) ==> x.range.End() <= limit
    ensures x.flags in FlagsOf(list + [over])
  {
    var m := OverrideSource(list, over, x);
    assert over in list + [over];
    assert AllAligned(list + [over]) ==> over.range.Aligned() && m.range.Aligned();
  }

  /** Everything the override loop keeps, for one new range. */
  lemma OverrideKeeps(list: seq<Mapping>, over: Mapping, limit: nat)
    requires Separated(list)
    ensures var out := CarveAll(list, over.range) + [over];
      && Separated(out)
      && |out| <= |list| + 2
      && (AllPositive(list + [over]) ==> AllPositive(out))
      && (AllAligned(list + [over]) ==> AllAligned(out))
      && (AllWithin(list + [over], limit) ==> AllWithin(out, limit))
      && FlagsOf(out) <= FlagsOf(list + [over])
  {
    var out := CarveAll(list, over.range) + [over];
    CarveAllSeparated(list, over);
    CarveAllSize(list, over.range);
    forall x | x in out
      ensures AllPositive(list + [over]) ==> x.range.len > 0
      ensures AllAligned(list + [over]) ==> x.range.Aligned()
      ensures AllWithin(list + [over], limit) ==> x.range.End() <= limit
      ensures x.flags in FlagsOf(list + [over])
    {
      OverrideElements(list, over, limit, x);
    }
  }

  /** What the override loop has established about a prefix of the input. */
  ghost predicate Overridden(final: seq<Mapping>, input: seq<Mapping>, limit: nat) {
    && SameMeaning(final, input)
    && Separated(final)
    && (input != [] ==> 0 < |final| <= 2 * |input| - 1)
    && (input == [] ==> final == [])
    && (AllPositive(input) ==> AllPositive(final))
    && (AllAligned(input) ==> AllAligned(final))
    && (AllWithin(input, limit) ==> AllWithin(final, limit))
    && FlagsOf(final) <= FlagsOf(input)
  }

  lemma OverrideStep(final: seq<Mapping>, input: seq<Mapping>, over: Mapping, limit: nat)
    requires Overridden(final, input, limit)
    ensures Overridden(CarveAll(final, over.range) + [over], input + [over], limit)
  {
    OverrideMeaning(final, over);
    OverrideKeeps(final, over, limit);
    ExtendKeeps(final, input, over, limit);
  }

  lemma OverrideNext(final: seq<Mapping>, input: seq<Mapping>, i: nat, limit: nat)
    requires i < |input| && Overridden(final, input[..i], limit)
    ensures Overridden(CarveAll(final, input[i].range) + [input[i]], input[..i + 1], limit)
  {
    OverrideStep(final, input[..i], input[i], limit);
    assert input[..i + 1] == input[..i] + [input[i]];
  }

  /** The outer loop over the input: no two ranges overlap any more, the meaning is that of the input. */
  method OverrideAll(input: seq<Mapping>, ghost limit: nat) returns (final: seq<Mapping>)
    ensures Overridden(final, input, limit)
  {
    final := [];
    for i := 0 to |input|
      invariant Overridden(final, input[..i], limit)
    {
      OverrideNext(final, input, i, limit);
      final := Override(final, input[i]);
    }
    assert input[..|input|] == input;
  }

  /** Bookkeeping for appending the same mapping to two lists. */
  lemma ExtendKeeps(xs: seq<Mapping>, ys: seq<Mapping>, over: Mapping, limit: nat)
    requires SameMeaning(xs, ys)
    ensures SameMeaning(xs + [over], ys + [over])
    ensures (AllPositive(ys) ==> AllPositive(xs)) ==> AllPositive(ys + [over]) ==> AllPositive(xs + [over])
    ensures (AllAligned(ys) ==> AllAligned(xs)) ==> AllAligned(ys + [over]) ==> AllAligned(xs + [over])
    ensures (AllWithin(ys, limit) ==> AllWithin(xs, limit)) ==>
            AllWithin(ys + [over], limit) ==> AllWithin(xs + [over], limit)
    ensures FlagsOf(xs) <= FlagsOf(ys) ==> FlagsOf(xs + [over]) <= FlagsOf(ys + [over])
  {
    forall a: nat ensures LastWriter(xs + [over], a) == LastWriter(ys + [over], a) {
      LastWriterConcat(xs, [over], a);
      LastWriterConcat(ys, [over], a);
    }
    FlagsOfConcat(xs, [over]);
    FlagsOfConcat(ys, [over]);
    var zs := ys + [over];
    assert zs[|ys|] == over;
    assert forall i :: 0 <= i < |ys| ==> ys[i] == zs[i];
  }

  // ---------- sorting ----------

  function InsertAt(s: seq<Mapping>, j: nat, m: Mapping): (out: seq<Mapping>)
    requires j <= |s|
    ensures |out| == |s| + 1
    ensures forall k :: 0 <= k < |out| ==> out[k] == if k < j then s[k] else if k == j then m else s[k - 1]
  {
    s[..j] + [m] + s[j..]
  }

  lemma InsertSorted(s: seq<Mapping>, j: nat, m: Mapping)
    requires SortedByStart(s) && j <= |s|
    requires j > 0 ==> s[j - 1].range.start <= m.range.start
    requires j < |s| ==> m.range.start <= s[j].range.start
    ensures SortedByStart(InsertAt(s, j, m))
  {
  }

  lemma InsertMultiset(s: seq<Mapping>, j: nat, m: Mapping)
    requires j <= |s|
    ensures multiset(InsertAt(s, j, m)) == multiset(s) + multiset{m}
  {
    assert s == s[..j] + s[j..];
  }

  /** Where a mapping belongs in a sorted list: after every entry that does not start later. */
  method InsertPosition(s: seq<Mapping>, m: Mapping) returns (j: nat)
    ensures j <= |s|
    ensures j > 0 ==> s[j - 1].range.start <= m.range.start
    ensures j < |s| ==> m.range.start <= s[j].range.start
  {
    j := |s|;
    while j > 0 && s[j - 1].range.start > m.range.start
      invariant j <= |s|
      invariant j < |s| ==> m.range.start <= s[j].range.start
    {
      j := j - 1;
    }
  }

  /** One more mapping put in its place. */
  method InsertOne(s: seq<Mapping>, m: Mapping) returns (out: seq<Mapping>)
    requires SortedByStart(s)
    ensures SortedByStart(out) && multiset(out) == multiset(s) + multiset{m}
  {
    var j := InsertPosition(s, m);
    InsertSorted(s, j, m);
    InsertMultiset(s, j, m);
    out := InsertAt(s, j, m);
  }

  lemma MultisetStep(list: seq<Mapping>, i: nat)
    requires i < |list|
    ensures multiset(list[..i + 1]) == multiset(list[..i]) + multiset{list[i]}
  {
    assert list[..i + 1] == list[..i] + [list[i]];
  }

  /**
    `sort_unstable_by_key` on the start address. Callers see only that the result is an ordered
    rearrangement: the order of entries with equal starts is left open.
   */
  method SortByStart(list: seq<Mapping>) returns (s: seq<Mapping>)
    ensures multiset(s) == multiset(list)
    ensures SortedByStart(s)
  {
    s := [];
    for i := 0 to |list|
      invariant multiset(s) == multiset(list[..i])
      invariant SortedByStart(s)
    {
      MultisetStep(list, i);
      s := InsertOne(s, list[i]);
    }
    assert list[..|list|] == list;
  }

  lemma {:induction false} TwoOccurrences(list: seq<Mapping>, x: Mapping) returns (i: int, j: int)
    requires multiset(list)[x] >= 2
    ensures 0 <= i < j < |list| && list[i] == x && list[j] == x
  {
    var n := |list| - 1;
    assert list == list[..n] + [list[n]];
    if list[n] == x {
      assert x in multiset(list[..n]);
      i :| 0 <= i < n && list[i] == x;
      j := n;
    } else {
      i, j := TwoOccurrences(list[..n], x);
    }
  }

  lemma OneOfTwo(list: seq<Mapping>, i: int, j: int)
    requires 0 <= i < j < |list| && list[i] == list[j]
    ensures multiset(list)[list[i]] >= 2
  {
    assert list == list[..j] + [list[j]] + list[j + 1..];
    assert list[i] in list[..j];
  }

  /** Rearranging a disjoint list keeps it disjoint and keeps its meaning. */
  lemma PermutationKeeps(xs: seq<Mapping>, ys: seq<Mapping>)
    requires multiset(xs) == multiset(ys)
    requires Disjoint(xs)
    ensures Disjoint(ys)
    ensures SameMeaning(ys, xs)
  {
    forall i, j | 0 <= i < j < |ys| ensures Apart(ys[i].range, ys[j].range) {
      assert ys[i] in multiset(xs) && ys[j] in multiset(xs);
      if ys[i] == ys[j] {
        OneOfTwo(ys, i, j);
        var k, l := TwoOccurrences(xs, ys[i]);
      } else {
        var k :| 0 <= k < |xs| && xs[k] == ys[i];
        var l :| 0 <= l < |xs| && xs[l] == ys[j];
        assert Apart(xs[k].range, xs[l].range);
      }
    }
    forall a: nat ensures LastWriter(ys, a) == LastWriter(xs, a) {
      if LastWriter(ys, a).Some? {
        var i := LastWriterWitness(ys, a);
        assert ys[i] in multiset(xs);
        var k :| 0 <= k < |xs| && xs[k] == ys[i];
        DisjointWriter(xs, a, k);
      } else if LastWriter(xs, a).Some? {
        var k := LastWriterWitness(xs, a);
        assert xs[k] in multiset(ys);
        var i :| 0 <= i < |ys| && ys[i] == xs[k];
        DisjointWriter(ys, a, i);
      }
    }
  }

  // ---------- merging ----------

  function Fuse(m: Mapping, n: Mapping): Mapping {
    m.(range := Range(m.range.start, n.range.len + m.range.len))
  }

  /** Replacing two fusable neighbours by their union. */
  function FuseAt(list: seq<Mapping>, i: nat): seq<Mapping>
    requires i + 1 < |list|
  {
    list[..i] + [Fuse(list[i], list[i + 1])] + list[i + 2..]
  }

  ghost predicate Tidy(list: seq<Mapping>) {
    SortedByStart(list) && Disjoint(list)
  }

  lemma FuseAtIndex(list: seq<Mapping>, i: nat)
    requires i + 1 < |list|
    ensures |FuseAt(list, i)| == |list| - 1
    ensures forall k :: 0 <= k < |list| - 1 ==>
      FuseAt(list, i)[k] == if k < i then list[k] else if k == i then Fuse(list[i], list[i + 1]) else list[k + 1]
  {
  }

  lemma FuseAtTidy(list: seq<Mapping>, i: nat)
    requires i + 1 < |list| && Fusable(list[i], list[i + 1])
    requires Tidy(list)
    ensures Tidy(FuseAt(list, i))
  {
    var out := FuseAt(list, i);
    FuseAtIndex(list, i);
    forall k, l | 0 <= k < l < |out|
      ensures Apart(out[k].range, out[l].range) && out[k].range.start <= out[l].range.start
    {
      var m, n := if k <= i then k else k + 1, if l <= i then l else l + 1;
      assert Apart(list[m].range, list[n].range) && list[m].range.start <= list[n].range.start;
      if k == i {
        assert Apart(list[i + 1].range, list[n].range);
        ApartFromBoth(list[n].range, list[i].range, list[i + 1].range);
      } else if l == i {
        assert Apart(list[m].range, list[i + 1].range);
        ApartFromBoth(list[m].range, list[i].range, list[i + 1].range);
      }
    }
  }

  lemma FuseElement(m: Mapping, n: Mapping)
    requires Fusable(m, n)
    ensures m.range.len > 0 ==> Fuse(m, n).range.len > 0
    ensures m.range.Aligned() && n.range.Aligned() ==> Fuse(m, n).range.Aligned()
    ensures Fuse(m, n).range.End() == n.range.End() && Fuse(m, n).flags == m.flags
  {
    if m.range.Aligned() && n.range.Aligned() {
      AlignedSum(n.range.len, m.range.len);
    }
  }

  lemma FuseAtElements(list: seq<Mapping>, i: nat, limit: nat)
    requires i + 1 < |list| && Fusable(list[i], list[i + 1])
    ensures AllPositive(list) ==> AllPositive(FuseAt(list, i))
    ensures AllAligned(list) ==> AllAligned(FuseAt(list, i))
    ensures AllWithin(list, limit) ==> AllWithin(FuseAt(list, i), limit)
    ensures FlagsOf(FuseAt(list, i)) <= FlagsOf(list)
  {
    FuseAtIndex(list, i);
    FuseElement(list[i], list[i + 1]);
    FuseAtFlags(list, i);
  }

  lemma FuseAtFlags(list: seq<Mapping>, i: nat)
    requires i + 1 < |list|
    ensures FlagsOf(FuseAt(list, i)) <= FlagsOf(list)
  {
    FuseAtIndex(list, i);
    var out := FuseAt(list, i);
    forall f | f in FlagsOf(out) ensures f in FlagsOf(list) {
      var k :| 0 <= k < |out| && out[k].flags == f;
      assert list[if k <= i then k else k + 1].flags == f;
    }
  }

  lemma ApartFromBoth(r: Range, s: Range, t: Range)
    requires Apart(r, s) && Apart(r, t) && s.End() == t.start
    ensures Apart(r, Range(s.start, t.len + s.len))
  {
  }

  lemma FuseAtMeaning(list: seq<Mapping>, i: nat)
    requires i + 1 < |list| && Fusable(list[i], list[i + 1])
    ensures SameMeaning(FuseAt(list, i), list)
  {
    var front, back := list[..i], list[i + 2..];
    var m, n := list[i], list[i + 1];
    forall a: nat ensures LastWriter(FuseAt(list, i), a) == LastWriter(list, a) {
      LastWriterConcat(front + [Fuse(m, n)], back, a);
      LastWriterConcat(front, [Fuse(m, n)], a);
      LastWriterOne(Fuse(m, n), a);
      assert list == (front + [m] + [n]) + back;
      LastWriterConcat(front + [m] + [n], back, a);
      LastWriterConcat(front + [m], [n], a);
      LastWriterConcat(front, [m], a);
      LastWriterOne(m, a);
      LastWriterOne(n, a);
    }
  }

  /** `out` is a coarser writing of `list`. */
  ghost predicate Coarsens(out: seq<Mapping>, list: seq<Mapping>, limit: nat) {
    && SameMeaning(out, list)
    && Tidy(out)
    && |out| <= |list|
    && (AllPositive(list) ==> AllPositive(out))
    && (AllAligned(list) ==> AllAligned(out))
    && (AllWithin(list, limit) ==> AllWithin(out, limit))
    && FlagsOf(out) <= FlagsOf(list)
  }

  lemma FuseAtCoarsens(list: seq<Mapping>, whole: seq<Mapping>, i: nat, limit: nat)
    requires Coarsens(whole, list, limit)
    requires i + 1 < |whole| && Fusable(whole[i], whole[i + 1])
    ensures Coarsens(FuseAt(whole, i), list, limit)
  {
    FuseAtIndex(whole, i);
    FuseAtTidy(whole, i);
    FuseAtElements(whole, i, limit);
    FuseAtMeaning(whole, i);
  }

  ghost predicate NothingToFuse(list: seq<Mapping>, n: nat) {
    forall i :: 0 <= i < n && i + 1 < |list| ==> !Fusable(list[i], list[i + 1])
  }

  /** The list as the merge pass sees it: what it has pushed, what it holds, what is still to come. */
  function Whole(merged: seq<Mapping>, curr: Mapping, rest: seq<Mapping>): (w: seq<Mapping>)
    ensures |w| == |merged| + 1 + |rest|
    ensures forall i :: 0 <= i < |w| ==>
      w[i] == if i < |merged| then merged[i] else if i == |merged| then curr else rest[i - |merged| - 1]
  {
    merged + [curr] + rest
  }

  lemma WholePush(merged: seq<Mapping>, curr: Mapping, next: Mapping, rest: seq<Mapping>)
    ensures Whole(merged, curr, [next] + rest) == Whole(merged + [curr], next, rest)
  {
  }

  lemma WholeFuse(merged: seq<Mapping>, curr: Mapping, next: Mapping, rest: seq<Mapping>)
    ensures FuseAt(Whole(merged, curr, [next] + rest), |merged|) == Whole(merged, Fuse(curr, next), rest)
  {
    var w := Whole(merged, curr, [next] + rest);
    FuseAtIndex(w, |merged|);
  }

  /** One round of the merge pass keeps the meaning and leaves nothing fusable behind. */
  lemma MergeStep(list: seq<Mapping>, merged: seq<Mapping>, curr: Mapping, next: Mapping, rest: seq<Mapping>, limit: nat)
    requires Coarsens(Whole(merged, curr, [next] + rest), list, limit)
    requires NothingToFuse(Whole(merged, curr, [next] + rest), |merged|)
    ensures Fusable(curr, next) ==>
              && Coarsens(Whole(merged, Fuse(curr, next), rest), list, limit)
              && NothingToFuse(Whole(merged, Fuse(curr, next), rest), |merged|)
    ensures !Fusable(curr, next) ==>
              && Coarsens(Whole(merged + [curr], next, rest), list, limit)
              && NothingToFuse(Whole(merged + [curr], next, rest), |merged| + 1)
  {
    var w := Whole(merged, curr, [next] + rest);
    if Fusable(curr, next) {
      FuseAtCoarsens(list, w, |merged|, limit);
      WholeFuse(merged, curr, next, rest);
      var w' := Whole(merged, Fuse(curr, next), rest);
      forall i | 0 <= i < |merged| && i + 1 < |w'| ensures !Fusable(w'[i], w'[i + 1]) {
        assert !Fusable(w[i], w[i + 1]);
      }
    } else {
      WholePush(merged, curr, next, rest);
    }
  }

  /** The merge pass before the `k`-th entry: the meaning is kept, and nothing pushed could be fused. */
  ghost predicate Merging(list: seq<Mapping>, merged: seq<Mapping>, curr: Mapping, k: nat, limit: nat) {
    && 0 < k <= |list|
    && Coarsens(Whole(merged, curr, list[k..]), list, limit)
    && NothingToFuse(Whole(merged, curr, list[k..]), |merged|)
  }

  lemma MergeStart(list: seq<Mapping>, limit: nat)
    requires Tidy(list) && list != []
    ensures Merging(list, [], list[0], 1, limit)
  {
    assert Whole([], list[0], list[1..]) == list;
  }

  lemma MergeEnd(list: seq<Mapping>, merged: seq<Mapping>, curr: Mapping, limit: nat)
    requires Merging(list, merged, curr, |list|, limit)
    ensures Coarsens(merged + [curr], list, limit) && NothingToFuse(merged + [curr], |merged| + 1)
  {
    assert Whole(merged, curr, list[|list|..]) == merged + [curr];
  }

  lemma MergeNext(list: seq<Mapping>, merged: seq<Mapping>, curr: Mapping, k: nat, limit: nat)
    requires Merging(list, merged, curr, k, limit) && k < |list|
    ensures if Fusable(curr, list[k]) then Merging(list, merged, Fuse(curr, list[k]), k + 1, limit)
            else Merging(list, merged + [curr], list[k], k + 1, limit)
  {
    assert list[k..] == [list[k]] + list[k + 1..];
    MergeStep(list, merged, curr, list[k], list[k + 1..], limit);
  }

  /** One entry of the merge pass: fused with the one held, or pushed behind it. */
  method MergeOne(list: seq<Mapping>, merged: seq<Mapping>, curr: Mapping, k: nat, ghost limit: nat)
    returns (merged': seq<Mapping>, curr': Mapping)
    requires Merging(list, merged, curr, k, limit) && k < |list|
    ensures Merging(list, merged', curr', k + 1, limit)
  {
    var next := list[k];
    MergeNext(list, merged, curr, k, limit);
    if curr.range.End() == next.range.start && curr.flags == next.flags {
      merged', curr' := merged, curr.(range := Range(curr.range.start, next.range.len + curr.range.len));
    } else {
      merged', curr' := merged + [curr], next;
    }
  }

  /** The merge pass: joins neighbours that abut with equal flags, and leaves no such pair. */
  method Merge(list: seq<Mapping>, ghost limit: nat) returns (merged: seq<Mapping>)
    requires Tidy(list)
    ensures Coarsens(merged, list, limit)
    ensures NothingToFuse(merged, |merged|)
  {
    merged := [];
    if list == [] {
      return;
    }
    var curr := list[0];
    MergeStart(list, limit);
    for k := 1 to |list|
      invariant Merging(list, merged, curr, k, limit)
    {
      merged, curr := MergeOne(list, merged, curr, k, limit);
    }
    MergeEnd(list, merged, curr, limit);
    merged := merged + [curr];
  }

  // ---------- the whole pass ----------

  /** What normalisation promises about its output, for every input. */
  ghost predicate Normalizes(input: seq<Mapping>, out: seq<Mapping>) {
    && SameMeaning(out, input)
    && Tidy(out)
    && (input != [] ==> |out| <= 2 * |input| - 1)
    && (input == [] ==> out == [])
    && (AllAligned(input) ==> AllAligned(out))
    && (AllPositive(input) ==> IsNormal(out))
    && FlagsOf(out) <= FlagsOf(input)
  }

  lemma NormalIfPositive(list: seq<Mapping>)
    requires Tidy(list) && AllPositive(list)
    requires NothingToFuse(list, |list|)
    ensures IsNormal(list)
  {
    forall i, j | 0 <= i < j < |list| ensures list[i].range.End() <= list[j].range.start {
      assert Apart(list[i].range, list[j].range);
    }
  }

  /** `normalize_map_list`, on the two parallel vectors it rewrites in place. */
  method NormalizeMapList(maps: seq<Range>, flags: seq<Flags>, ghost limit: nat)
    returns (maps': seq<Range>, flags': seq<Flags>)
    ensures Normalizes(Zip(maps, flags), Zip(maps', flags'))
    ensures AllWithin(Zip(maps, flags), limit) ==> AllWithin(Zip(maps', flags'), limit)
    ensures maps != [] ==> |maps'| == |flags'|
    ensures maps == [] ==> maps' == [] && flags' == flags
  {
    if maps == [] {
      assert Zip(maps, flags) == [];
      return maps, flags;
    }
    var input := Zip(maps, flags);
    var final := OverrideAll(input, limit);
    assert Disjoint(final);
    var sorted := SortByStart(final);
    PermutationKeeps(final, sorted);
    PermutationElements(final, sorted, limit);
    var merged := Merge(sorted, limit);
    if AllPositive(input) {
      NormalIfPositive(merged);
    }
    maps', flags' := [], [];
    for i := 0 to |merged|
      invariant |maps'| == |flags'| == i
      invariant forall k :: 0 <= k < i ==> Mapping(maps'[k], flags'[k]) == merged[k]
    {
      maps' := maps' + [merged[i].range];
      flags' := flags' + [merged[i].flags];
    }
    assert Zip(maps', flags') == merged;
  }

  lemma PermutationElements(xs: seq<Mapping>, ys: seq<Mapping>, limit: nat)
    requires multiset(xs) == multiset(ys)
    ensures |xs| == |ys|
    ensures AllPositive(xs) ==> AllPositive(ys)
    ensures AllAligned(xs) ==> AllAligned(ys)
    ensures AllWithin(xs, limit) ==> AllWithin(ys, limit)
    ensures FlagsOf(ys) <= FlagsOf(xs)
  {
    assert |multiset(xs)| == |multiset(ys)|;
    forall i | 0 <= i < |ys| ensures ys[i] in xs {
      assert ys[i] in multiset(xs);
    }
  }

  // ---------- the normal form is unique ----------

  lemma FlagsChangeAtEnd(xs: seq<Mapping>, k: nat)
    requires IsNormal(xs) && k < |xs| && xs[k].range.Contains(xs[0].range.End())
    ensures xs[k].flags != xs[0].flags
  {
    assert 0 < k;
    assert xs[0].range.End() <= xs[1].range.start;
    assert xs[1].range.len > 0;
    assert !Fusable(xs[0], xs[0 + 1]);
  }

  /** If two normal lists mean the same, the first entry of one ends no later than that of the other. */
  lemma FirstEntryBound(xs: seq<Mapping>, ys: seq<Mapping>)
    requires IsNormal(xs) && IsNormal(ys) && SameMeaning(xs, ys)
    requires xs != []
    ensures ys != [] && ys[0].range.start <= xs[0].range.start
    ensures ys[0].range.start == xs[0].range.start ==>
              xs[0].flags == ys[0].flags && ys[0].range.End() <= xs[0].range.End()
  {
    NormalDisjoint(xs);
    NormalDisjoint(ys);
    var a := xs[0].range.start;
    DisjointWriter(xs, a, 0);
    var i := LastWriterWitness(ys, a);
    if ys[0].range.start == a {
      DisjointWriter(ys, a, 0);
      var b := xs[0].range.End();
      if b < ys[0].range.End() {
        DisjointWriter(ys, b, 0);
        var k := LastWriterWitness(xs, b);
        FlagsChangeAtEnd(xs, k);
      }
    }
  }

  lemma TailMeaning(xs: seq<Mapping>, ys: seq<Mapping>)
    requires IsNormal(xs) && IsNormal(ys) && SameMeaning(xs, ys)
    requires xs != [] && ys != [] && xs[0] == ys[0]
    ensures IsNormal(xs[1..]) && IsNormal(ys[1..]) && SameMeaning(xs[1..], ys[1..])
  {
    forall a: nat ensures LastWriter(xs[1..], a) == LastWriter(ys[1..], a) {
      TailLookup(xs, a);
      TailLookup(ys, a);
      assert LastWriter(xs, a) == LastWriter(ys, a);
    }
  }

  lemma TailLookup(xs: seq<Mapping>, a: nat)
    requires IsNormal(xs) && xs != []
    ensures LastWriter(xs[1..], a) == if xs[0].range.Contains(a) then None else LastWriter(xs, a)
  {
    assert xs == [xs[0]] + xs[1..];
    LastWriterConcat([xs[0]], xs[1..], a);
    LastWriterOne(xs[0], a);
    if xs[0].range.Contains(a) {
      NoWriter(xs[1..], a);
    }
  }

  /** Two normal lists with the same meaning are the same list. */
  lemma {:induction false} UniqueNormalForm(xs: seq<Mapping>, ys: seq<Mapping>)
    requires IsNormal(xs) && IsNormal(ys) && SameMeaning(xs, ys)
    ensures xs == ys
  {
    if xs != [] {
      FirstEntryBound(xs, ys);
      FirstEntryBound(ys, xs);
      assert xs[0] == ys[0];
      TailMeaning(xs, ys);
      UniqueNormalForm(xs[1..], ys[1..]);
      assert xs == [xs[0]] + xs[1..] && ys == [ys[0]] + ys[1..];
    } else if ys != [] {
      FirstEntryBound(ys, xs);
    }
  }

  /** Inputs with the same meaning normalise to the same list, whatever the sort does with ties. */
  lemma NormalizeCanonical(a: seq<Mapping>, a': seq<Mapping>, b: seq<Mapping>, b': seq<Mapping>)
    requires AllPositive(a) && AllPositive(b) && SameMeaning(a, b)
    requires Normalizes(a, a') && Normalizes(b, b')
    ensures a' == b'
  {
    UniqueNormalForm(a', b');
  }

  lemma NormalizeIdempotent(a: seq<Mapping>, b: seq<Mapping>, c: seq<Mapping>)
    requires AllPositive(a) && Normalizes(a, b) && Normalizes(b, c)
    ensures c == b
  {
    UniqueNormalForm(c, b);
  }

  /** Adding to an already normalised list gives what normalising everything at once gives. */
  lemma NormalizeAppend(a: seq<Mapping>, a': seq<Mapping>, b: seq<Mapping>, c: seq<Mapping>, d: seq<Mapping>)
    requires AllPositive(a) && AllPositive(b)
    requires Normalizes(a, a') && Normalizes(a' + b, c) && Normalizes(a + b, d)
    ensures c == d
  {
    forall x: nat ensures LastWriter(a' + b, x) == LastWriter(a + b, x) {
      LastWriterConcat(a', b, x);
      LastWriterConcat(a, b, x);
    }
    assert AllPositive(a' + b) && AllPositive(a + b);
    NormalizeCanonical(a' + b, c, a + b, d);
  }
}
