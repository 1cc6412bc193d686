/**
  The cache of CPU flags (local_macros/src/lib.rs, src/cpu_flags/mod.rs): two arrays of 64-bit words
  hold, per flag, whether it has been detected and what was found. A detector may ask the cache for
  other flags while it runs.
 */
module FlagCache {

  import opened FlagBits

  // ---------- detectors ----------

  /** A detector: an answer, or a question to the cache and how to go on after either reply. */
  datatype Detector = Answer(value: bool) | Ask(flag: nat, yes: Detector, no: Detector)

  datatype Table = Table(detectors: seq<Detector>, ranks: seq<nat>)

  predicate AsksBelow(t: Table, d: Detector, bound: nat) {
    match d
    case Answer(_) => true
    case Ask(g, yes, no) => g < |t.ranks| && t.ranks[g] < bound && AsksBelow(t, yes, bound) && AsksBelow(t, no, bound)
  }

  /** Detectors only ask for flags of lower rank. */
  predicate WellRanked(t: Table) {
    && |t.detectors| == |t.ranks|
    && forall f :: 0 <= f < |t.detectors| ==> AsksBelow(t, t.detectors[f], t.ranks[f])
  }

  /** Uncached detection. */
  function Truth(t: Table, f: nat): bool
    requires WellRanked(t) && f < |t.detectors|
    decreases t.ranks[f]
  {
    Eval(t, t.detectors[f], t.ranks[f])
  }

  function Eval(t: Table, d: Detector, bound: nat): bool
    requires WellRanked(t) && AsksBelow(t, d, bound)
    decreases bound, d
  {
    match d
    case Answer(b) => b
    case Ask(g, yes, no) => if Truth(t, g) then Eval(t, yes, bound) else Eval(t, no, bound)
  }

  // ---------- the cache ----------

  datatype Words = Words(status: seq<Word>, values: seq<Word>)

  predicate Fits(t: Table, w: Words) {
    |w.status| == |w.values| && |t.detectors| <= 64 * |w.status|
  }

  predicate Known(w: Words, id: nat)
    requires id / 64 < |w.status|
  {
    BitOf(w.status, id)
  }

  predicate Value(w: Words, id: nat)
    requires id / 64 < |w.values|
  {
    BitOf(w.values, id)
  }

  /** Whatever the cache claims to know is what detection finds. */
  ghost predicate Consistent(t: Table, w: Words)
    requires WellRanked(t)
  {
    Fits(t, w) && forall id: nat :: id < |t.detectors| && Known(w, id) ==> Value(w, id) == Truth(t, id)
  }

  function Empty(n: nat): Words {
    Words(seq((n + 63) / 64, _ => 0), seq((n + 63) / 64, _ => 0))
  }

  lemma EmptyConsistent(t: Table)
    requires WellRanked(t)
    ensures Consistent(t, Empty(|t.detectors|))
  {
  }

  function StoreValue(w: Words, id: nat, b: bool): Words
    requires |w.status| == |w.values| && id / 64 < |w.values|
  {
    w.(values := if b then FetchOr(w.values, id) else FetchAndNot(w.values, id))
  }

  function SetKnown(w: Words, id: nat): Words
    requires |w.status| == |w.values| && id / 64 < |w.status|
  {
    w.(status := FetchOr(w.status, id))
  }

  /** From `w` to `w'` nothing known is forgotten and no right value is spoilt. */
  ghost predicate Evolves(t: Table, w: Words, w': Words)
    requires WellRanked(t) && Fits(t, w)
  {
    && Fits(t, w')
    && forall id: nat :: id < |t.detectors| ==>
      (Known(w, id) ==> Known(w', id)) && (Value(w, id) == Truth(t, id) ==> Value(w', id) == Truth(t, id))
  }

  /** Only the two bits of one flag differ. */
  ghost predicate OnlyFlag(t: Table, w: Words, w': Words, f: nat)
    requires Fits(t, w)
  {
    && Fits(t, w')
    && forall id: nat :: id < |t.detectors| && id != f ==> Known(w', id) == Known(w, id) && Value(w', id) == Value(w, id)
  }

  lemma StoreBits(t: Table, w: Words, f: nat, b: bool)
    requires WellRanked(t) && Fits(t, w) && f < |t.detectors|
    ensures OnlyFlag(t, w, StoreValue(w, f, b), f)
    ensures StoreValue(w, f, b).status == w.status && Value(StoreValue(w, f, b), f) == b
  {
    forall id: nat | id < |t.detectors|
      ensures Value(StoreValue(w, f, b), id) == (if id == f then b else Value(w, id))
    {
      if b { FetchOrBit(w.values, f, id); } else { FetchAndNotBit(w.values, f, id); }
    }
  }

  lemma KnownBits(t: Table, w: Words, f: nat)
    requires WellRanked(t) && Fits(t, w) && f < |t.detectors|
    ensures OnlyFlag(t, w, SetKnown(w, f), f)
    ensures SetKnown(w, f).values == w.values && Known(SetKnown(w, f), f)
  {
    forall id: nat | id < |t.detectors| ensures Known(SetKnown(w, f), id) == (id == f || Known(w, id)) {
      FetchOrBit(w.status, f, id);
    }
  }

  lemma StoreKeeps(t: Table, w: Words, f: nat)
    requires WellRanked(t) && Consistent(t, w) && f < |t.detectors|
    ensures var w' := StoreValue(w, f, Truth(t, f));
      Consistent(t, w') && Evolves(t, w, w') && Value(w', f) == Truth(t, f)
  {
    StoreBits(t, w, f, Truth(t, f));
  }

  lemma KnownKeeps(t: Table, w: Words, f: nat)
    requires WellRanked(t) && Consistent(t, w) && f < |t.detectors| && Value(w, f) == Truth(t, f)
    ensures var w' := SetKnown(w, f); Consistent(t, w') && Evolves(t, w, w')
  {
    KnownBits(t, w, f);
  }

  // ---------- one caller ----------

  class CpuFlagCache {
    var status: seq<Word>
    var values: seq<Word>

    ghost function Contents(): Words
      reads this
    {
      Words(status, values)
    }

    constructor (ghost t: Table, count: nat)
      requires WellRanked(t) && count == |t.detectors|
      ensures Consistent(t, Contents()) && forall id: nat :: id < count ==> !Known(Contents(), id)
    {
      status := Empty(count).status;
      values := Empty(count).values;
      new;
      EmptyConsistent(t);
    }

    /** The cached answer is that of uncached detection; nothing known is lost on the way. */
    method Has(t: Table, flag: nat) returns (r: bool)
      requires WellRanked(t) && Consistent(t, Contents()) && flag < |t.detectors|
      modifies this
      ensures r == Truth(t, flag)
      ensures Consistent(t, Contents()) && Evolves(t, old(Contents()), Contents()) && Known(Contents(), flag)
      ensures old(Known(Contents(), flag)) ==> Contents() == old(Contents())
      decreases t.ranks[flag]
    {
      if Test(status[flag / 64], flag % 64) {
        assert Known(Contents(), flag);
        return Test(values[flag / 64], flag % 64);
      }
      r := Detect(t, t.detectors[flag], t.ranks[flag]);
      StoreKeeps(t, Contents(), flag);
      if r {
        values := FetchOr(values, flag);
      } else {
        values := FetchAndNot(values, flag);
      }
      KnownBits(t, Contents(), flag);
      KnownKeeps(t, Contents(), flag);
      status := FetchOr(status, flag);
    }

    /** Runs a detector, which may come back to the cache. */
    method Detect(t: Table, d: Detector, bound: nat) returns (r: bool)
      requires WellRanked(t) && Consistent(t, Contents()) && AsksBelow(t, d, bound)
      modifies this
      ensures r == Eval(t, d, bound)
      ensures Consistent(t, Contents()) && Evolves(t, old(Contents()), Contents())
      decreases bound, d
    {
      match d
      case Answer(b) => r := b;
      case Ask(g, yes, no) =>
        var reply := Has(t, g);
        r := Detect(t, if reply then yes else no, bound);
    }
  }

  // ---------- any number of callers, step by step ----------

  /** A call in progress; one that waits for a flag holds the inner call. */
  datatype Call =
    | Entered(flag: nat)
    | Reading(flag: nat)
    | Detecting(flag: nat, d: Detector)
    | Waiting(flag: nat, inner: Call, yes: Detector, no: Detector)
    | Storing(flag: nat, b: bool)
    | Marking(flag: nat, b: bool)
    | Returned(flag: nat, b: bool)

  /** The flag whose bits the next step of the call may touch. */
  function Active(c: Call): nat {
    if c.Waiting? then Active(c.inner) else c.flag
  }

  predicate InRange(t: Table, c: Call) {
    c.flag < |t.detectors| && (c.Waiting? ==> InRange(t, c.inner))
  }

  /** One atomic step of a call: a load, a read-modify-write, or a step of its detector. */
  function Advance(t: Table, w: Words, c: Call): (Words, Call)
    requires Fits(t, w) && InRange(t, c)
    decreases c
  {
    match c
    case Entered(f) => (w, if Known(w, f) then Reading(f) else Detecting(f, t.detectors[f]))
    case Reading(f) => (w, Returned(f, Value(w, f)))
    case Detecting(f, Answer(b)) => (w, Storing(f, b))
    case Detecting(f, Ask(g, yes, no)) => (w, Waiting(f, Entered(g), yes, no))
    case Waiting(f, Returned(_, b), yes, no) => (w, Detecting(f, if b then yes else no))
    case Waiting(f, inner, yes, no) => var (w', inner') := Advance(t, w, inner); (w', Waiting(f, inner', yes, no))
    case Storing(f, b) => (StoreValue(w, f, b), Marking(f, b))
    case Marking(f, b) => (SetKnown(w, f), Returned(f, b))
    case Returned(_, _) => (w, c)
  }

  ghost predicate CallOk(t: Table, w: Words, c: Call)
    requires WellRanked(t) && Fits(t, w)
    decreases c
  {
    && c.flag < |t.detectors|
    && match c
       case Entered(f) => true
       case Reading(f) => Known(w, f)
       case Detecting(f, d) => AsksBelow(t, d, t.ranks[f]) && Eval(t, d, t.ranks[f]) == Truth(t, f)
       case Waiting(f, inner, yes, no) =>
         && CallOk(t, w, inner)
         && AsksBelow(t, yes, t.ranks[f]) && AsksBelow(t, no, t.ranks[f])
         && Eval(t, if Truth(t, inner.flag) then yes else no, t.ranks[f]) == Truth(t, f)
       case Storing(f, b) => b == Truth(t, f)
       case Marking(f, b) => b == Truth(t, f) && Value(w, f) == b
       case Returned(f, b) => b == Truth(t, f) && Known(w, f)
  }

  lemma {:induction false} OkInRange(t: Table, w: Words, c: Call)
    requires WellRanked(t) && Fits(t, w) && CallOk(t, w, c)
    ensures InRange(t, c)
  {
    if c.Waiting? {
      OkInRange(t, w, c.inner);
    }
  }

  /** What others do to the words does not upset a call in progress. */
  lemma {:induction false} CallStable(t: Table, w: Words, w': Words, c: Call)
    requires WellRanked(t) && Fits(t, w) && Evolves(t, w, w') && CallOk(t, w, c)
    ensures CallOk(t, w', c)
  {
    if c.Waiting? {
      CallStable(t, w, w', c.inner);
    }
  }

  lemma {:induction false} AdvanceOk(t: Table, w: Words, c: Call)
    requires WellRanked(t) && Consistent(t, w) && CallOk(t, w, c) && InRange(t, c)
    ensures var (w', c') := Advance(t, w, c);
      Consistent(t, w') && Evolves(t, w, w') && CallOk(t, w', c') && c'.flag == c.flag
    decreases c
  {
    if c.Waiting? && !c.inner.Returned? {
      AdvanceOk(t, w, c.inner);
    } else if c.Storing? {
      StoreKeeps(t, w, c.flag);
    } else if c.Marking? {
      KnownBits(t, w, c.flag);
      KnownKeeps(t, w, c.flag);
    }
  }

  /** A step touches the bits of one flag only. */
  lemma {:induction false} AdvanceLocal(t: Table, w: Words, c: Call)
    requires WellRanked(t) && Fits(t, w) && InRange(t, c)
    ensures OnlyFlag(t, w, Advance(t, w, c).0, Active(c))
    decreases c
  {
    if c.Waiting? && !c.inner.Returned? {
      AdvanceLocal(t, w, c.inner);
    } else if c.Storing? {
      StoreBits(t, w, c.flag, c.b);
    } else if c.Marking? {
      KnownBits(t, w, c.flag);
    }
  }

  // ---------- termination ----------

  function Max(a: nat, b: nat): nat { if a < b then b else a }

  /** A bound on the steps of a call, from the detectors alone. */
  function CallCost(t: Table, f: nat): nat
    requires WellRanked(t) && f < |t.detectors|
    decreases t.ranks[f]
  {
    3 + DetectorCost(t, t.detectors[f], t.ranks[f])
  }

  function DetectorCost(t: Table, d: Detector, bound: nat): nat
    requires WellRanked(t) && AsksBelow(t, d, bound)
    decreases bound, d
  {
    match d
    case Answer(_) => 1
    case Ask(g, yes, no) => 2 + CallCost(t, g) + Max(DetectorCost(t, yes, bound), DetectorCost(t, no, bound))
  }

  ghost function Remaining(t: Table, w: Words, c: Call): nat
    requires WellRanked(t) && Fits(t, w) && CallOk(t, w, c)
    decreases c
  {
    match c
    case Entered(f) => CallCost(t, f)
    case Reading(_) => 1
    case Detecting(f, d) => 2 + DetectorCost(t, d, t.ranks[f])
    case Waiting(f, inner, yes, no) =>
      3 + Remaining(t, w, inner) + Max(DetectorCost(t, yes, t.ranks[f]), DetectorCost(t, no, t.ranks[f]))
    case Storing(_, _) => 2
    case Marking(_, _) => 1
    case Returned(_, _) => 0
  }

  lemma {:induction false} RemainingStable(t: Table, w: Words, w': Words, c: Call)
    requires WellRanked(t) && Fits(t, w) && Fits(t, w') && CallOk(t, w, c) && CallOk(t, w', c)
    ensures Remaining(t, w', c) == Remaining(t, w, c)
  {
    if c.Waiting? {
      RemainingStable(t, w, w', c.inner);
    }
  }

  /** A step of the call itself, not of a call it waits for, uses up some of the bound. */
  lemma OwnProgress(t: Table, w: Words, c: Call, w': Words, c': Call)
    requires WellRanked(t) && Consistent(t, w) && CallOk(t, w, c) && InRange(t, c)
    requires !c.Returned? && (c.Waiting? ==> c.inner.Returned?)
    requires (w', c') == Advance(t, w, c) && Fits(t, w') && CallOk(t, w', c')
    ensures Remaining(t, w', c') < Remaining(t, w, c)
  {
  }

  lemma {:induction false} AdvanceProgress(t: Table, w: Words, c: Call)
    requires WellRanked(t) && Consistent(t, w) && CallOk(t, w, c) && InRange(t, c) && !c.Returned?
    ensures var (w', c') := Advance(t, w, c);
      Consistent(t, w') && CallOk(t, w', c') && Remaining(t, w', c') < Remaining(t, w, c)
    decreases c
  {
    AdvanceOk(t, w, c);
    var (w', c') := Advance(t, w, c);
    if c.Waiting? && !c.inner.Returned? {
      AdvanceProgress(t, w, c.inner);
    } else {
      OwnProgress(t, w, c, w', c');
    }
  }

  // ---------- runs ----------

  datatype State = State(words: Words, calls: seq<Call>)

  datatype Event = Enter(flag: nat) | Step(k: nat)

  predicate Enabled(t: Table, s: State, e: Event) {
    match e
    case Enter(f) => f < |t.detectors|
    case Step(k) => k < |s.calls| && InRange(t, s.calls[k]) && !s.calls[k].Returned?
  }

  function Next(t: Table, s: State, e: Event): State
    requires Fits(t, s.words) && Enabled(t, s, e)
  {
    match e
    case Enter(f) => s.(calls := s.calls + [Entered(f)])
    case Step(k) => var (w', c') := Advance(t, s.words, s.calls[k]); State(w', s.calls[k := c'])
  }

  ghost predicate Run(t: Table, states: seq<State>, events: seq<Event>) {
    && |states| == |events| + 1
    && states[0] == State(Empty(|t.detectors|), [])
    && forall n :: 0 <= n < |events| ==>
      && Fits(t, states[n].words) && Enabled(t, states[n], events[n])
      && states[n + 1] == Next(t, states[n], events[n])
  }

  ghost predicate Inv(t: Table, s: State)
    requires WellRanked(t)
  {
    Consistent(t, s.words) && forall k :: 0 <= k < |s.calls| ==> CallOk(t, s.words, s.calls[k])
  }

  lemma StepInv(t: Table, s: State, e: Event)
    requires WellRanked(t) && Inv(t, s) && Enabled(t, s, e)
    ensures Inv(t, Next(t, s, e))
  {
    if e.Step? {
      AdvanceOk(t, s.words, s.calls[e.k]);
      var s' := Next(t, s, e);
      forall j | 0 <= j < |s'.calls| ensures CallOk(t, s'.words, s'.calls[j]) {
        if j != e.k {
          CallStable(t, s.words, s'.words, s.calls[j]);
        }
      }
    }
  }

  lemma {:induction false} RunInv(t: Table, states: seq<State>, events: seq<Event>, n: nat)
    requires WellRanked(t) && Run(t, states, events) && n <= |events|
    ensures Inv(t, states[n])
  {
    if n == 0 {
      EmptyConsistent(t);
    } else {
      RunInv(t, states, events, n - 1);
      StepInv(t, states[n - 1], events[n - 1]);
    }
  }

  /** In every interleaving of any number of calls, each answer given is that of uncached detection. */
  lemma AnswersAreTrue(t: Table, states: seq<State>, events: seq<Event>, n: nat, k: nat)
    requires WellRanked(t) && Run(t, states, events) && n <= |events| && k < |states[n].calls|
    requires states[n].calls[k].Returned?
    ensures states[n].calls[k].flag < |t.detectors|
    ensures states[n].calls[k].b == Truth(t, states[n].calls[k].flag)
    ensures Fits(t, states[n].words) && Known(states[n].words, states[n].calls[k].flag)
  {
    RunInv(t, states, events, n);
  }

  /** A call that has not gone beyond looking into the cache. */
  predicate OnlyLooks(c: Call) {
    c.Entered? || c.Reading? || c.Returned?
  }

  lemma LooksStep(t: Table, s: State, e: Event, k: nat)
    requires WellRanked(t) && Inv(t, s) && Enabled(t, s, e) && k < |s.calls|
    requires OnlyLooks(s.calls[k]) && Known(s.words, s.calls[k].flag)
    ensures var s' := Next(t, s, e);
      && Inv(t, s') && k < |s'.calls| && s'.calls[k].flag == s.calls[k].flag
      && OnlyLooks(s'.calls[k]) && Known(s'.words, s.calls[k].flag)
  {
    StepInv(t, s, e);
    if e.Step? {
      AdvanceOk(t, s.words, s.calls[e.k]);
    }
  }

  /** A flag that is known is never detected again: a call that comes to it then only looks. */
  lemma {:induction false} KnownIsNotDetectedAgain(t: Table, states: seq<State>, events: seq<Event>, n: nat, m: nat, k: nat)
    requires WellRanked(t) && Run(t, states, events) && n <= m <= |events| && k < |states[n].calls|
    requires states[n].calls[k].Entered? && states[n].calls[k].flag < |t.detectors|
    requires Fits(t, states[n].words) && Known(states[n].words, states[n].calls[k].flag)
    ensures Inv(t, states[m]) && k < |states[m].calls| && states[m].calls[k].flag == states[n].calls[k].flag
    ensures OnlyLooks(states[m].calls[k]) && Known(states[m].words, states[n].calls[k].flag)
  {
    if n == m {
      RunInv(t, states, events, n);
    } else {
      KnownIsNotDetectedAgain(t, states, events, n, m - 1, k);
      LooksStep(t, states[m - 1], events[m - 1], k);
    }
  }

  function StepsOf(events: seq<Event>, k: nat): nat {
    if events == [] then 0
    else StepsOf(events[..|events| - 1], k) + if events[|events| - 1] == Step(k) then 1 else 0
  }

  lemma CostAfterStep(t: Table, s: State, e: Event, k: nat)
    requires WellRanked(t) && Inv(t, s) && Enabled(t, s, e) && k < |s.calls|
    ensures Inv(t, Next(t, s, e))
    ensures var s' := Next(t, s, e);
      && s'.calls[k].flag == s.calls[k].flag
      && Remaining(t, s'.words, s'.calls[k]) + (if e == Step(k) then 1 else 0) <= Remaining(t, s.words, s.calls[k])
  {
    StepInv(t, s, e);
    if e == Step(k) {
      AdvanceOk(t, s.words, s.calls[k]);
      AdvanceProgress(t, s.words, s.calls[k]);
    } else {
      assert Next(t, s, e).calls[k] == s.calls[k];
      RemainingStable(t, s.words, Next(t, s, e).words, s.calls[k]);
    }
  }

  /** Calls end: whatever the others do, a call makes at most `CallCost` steps, nested calls included. */
  lemma {:induction false} CallsEnd(t: Table, states: seq<State>, events: seq<Event>, n: nat, k: nat)
    requires WellRanked(t) && Run(t, states, events) && n <= |events|
    ensures Inv(t, states[n])
    ensures k < |states[n].calls| ==>
      StepsOf(events[..n], k) + Remaining(t, states[n].words, states[n].calls[k])
        <= CallCost(t, states[n].calls[k].flag)
    ensures k >= |states[n].calls| ==> StepsOf(events[..n], k) == 0
  {
    RunInv(t, states, events, n);
    if n > 0 {
      CallsEnd(t, states, events, n - 1, k);
      assert events[..n][..n - 1] == events[..n - 1];
      if k < |states[n - 1].calls| {
        CostAfterStep(t, states[n - 1], events[n - 1], k);
      }
    }
  }

  // ---------- the kernel's own detectors ----------

  /** What the detectors read from the processor. */
  datatype Processor = Processor(
    maxBaseLeaf: nat, leaf7Edx29: bool, leaf7Ecx16: bool, cr4La57: bool,
    pdptHuge: bool, nx: bool, tscAdjust: bool, invariantTsc: bool, aux: bool, x2apic: bool)

  const FLAG_COUNT := 10
  const CURRENT_PML5 := 0
  const CAPABILITIES := 1
  const SUPPORT_LEAF7 := 2
  const PML5 := 3

  /** The detector of each id; three of them go through the cache. */
  function KernelDetector(p: Processor, f: nat): Detector {
    match f
    case 0 => Ask(PML5, Answer(p.cr4La57), Answer(false))
    case 1 => Ask(SUPPORT_LEAF7, Answer(p.leaf7Edx29), Answer(false))
    case 2 => Answer(p.maxBaseLeaf >= 7)
    case 3 => Ask(SUPPORT_LEAF7, Answer(p.leaf7Ecx16), Answer(false))
    case 4 => Answer(p.pdptHuge)
    case 5 => Answer(p.nx)
    case 6 => Answer(p.tscAdjust)
    case 7 => Answer(p.invariantTsc)
    case 8 => Answer(p.aux)
    case _ => Answer(p.x2apic)
  }

  function KernelRank(f: nat): nat {
    if f == CURRENT_PML5 then 2 else if f == CAPABILITIES || f == PML5 then 1 else 0
  }

  function KernelFlags(p: Processor): Table {
    Table(seq(FLAG_COUNT, f requires f >= 0 => KernelDetector(p, f)), seq(FLAG_COUNT, f requires f >= 0 => KernelRank(f)))
  }

  /** The kernel's detectors cannot ask in a circle. */
  lemma KernelFlagsRanked(p: Processor)
    ensures WellRanked(KernelFlags(p))
  {
    var t := KernelFlags(p);
    forall f | 0 <= f < FLAG_COUNT ensures AsksBelow(t, t.detectors[f], t.ranks[f]) {
      assert t.detectors[f] == KernelDetector(p, f) && t.ranks[f] == KernelRank(f);
      assert t.ranks[PML5] == 1 && t.ranks[SUPPORT_LEAF7] == 0;
    }
  }

  lemma LeafSevenTruth(p: Processor)
    ensures WellRanked(KernelFlags(p))
    ensures Truth(KernelFlags(p), SUPPORT_LEAF7) == (p.maxBaseLeaf >= 7)
  {
    KernelFlagsRanked(p);
  }

  /** Uncached detection of one flag that asks for another and otherwise says no. */
  lemma GuardedTruth(t: Table, f: nat, g: nat, b: bool)
    requires WellRanked(t) && f < |t.detectors| && g < |t.detectors|
    requires t.detectors[f] == Ask(g, Answer(b), Answer(false))
    ensures Truth(t, f) <==> Truth(t, g) && b
  {
    assert Truth(t, f) == Eval(t, t.detectors[f], t.ranks[f]);
    assert Eval(t, Answer(b), t.ranks[f]) == b && !Eval(t, Answer(false), t.ranks[f]);
  }

  /** A detector that asks no other flag. */
  lemma PlainTruth(t: Table, f: nat, b: bool)
    requires WellRanked(t) && f < |t.detectors| && t.detectors[f] == Answer(b)
    ensures Truth(t, f) == b
  {
    assert Truth(t, f) == Eval(t, t.detectors[f], t.ranks[f]);
  }

  lemma PlainFlags(p: Processor)
    requires WellRanked(KernelFlags(p))
    ensures Truth(KernelFlags(p), 4) == p.pdptHuge && Truth(KernelFlags(p), 5) == p.nx
    ensures Truth(KernelFlags(p), 6) == p.tscAdjust && Truth(KernelFlags(p), 7) == p.invariantTsc
    ensures Truth(KernelFlags(p), 8) == p.aux && Truth(KernelFlags(p), 9) == p.x2apic
  {
    var t := KernelFlags(p);
    PlainTruth(t, 4, p.pdptHuge);
    PlainTruth(t, 5, p.nx);
    PlainTruth(t, 6, p.tscAdjust);
    PlainTruth(t, 7, p.invariantTsc);
    PlainTruth(t, 8, p.aux);
    PlainTruth(t, 9, p.x2apic);
  }

  /**
    What uncached detection says of each of the ten flags, in the order of the macro. Five-level
    paging is reported as current only through both of the flags it depends on.
   */
  lemma KernelFlagsTruth(p: Processor)
    ensures WellRanked(KernelFlags(p)) && |KernelFlags(p).detectors| == 10
    ensures Truth(KernelFlags(p), 0) <==> p.maxBaseLeaf >= 7 && p.leaf7Ecx16 && p.cr4La57
    ensures Truth(KernelFlags(p), 1) <==> p.maxBaseLeaf >= 7 && p.leaf7Edx29
    ensures Truth(KernelFlags(p), 2) <==> p.maxBaseLeaf >= 7
    ensures Truth(KernelFlags(p), 3) <==> p.maxBaseLeaf >= 7 && p.leaf7Ecx16
    ensures Truth(KernelFlags(p), 4) == p.pdptHuge && Truth(KernelFlags(p), 5) == p.nx
    ensures Truth(KernelFlags(p), 6) == p.tscAdjust && Truth(KernelFlags(p), 7) == p.invariantTsc
    ensures Truth(KernelFlags(p), 8) == p.aux && Truth(KernelFlags(p), 9) == p.x2apic
  {
    var t := KernelFlags(p);
    LeafSevenTruth(p);
    PlainFlags(p);
    GuardedTruth(t, CAPABILITIES, SUPPORT_LEAF7, p.leaf7Edx29);
    GuardedTruth(t, PML5, SUPPORT_LEAF7, p.leaf7Ecx16);
    GuardedTruth(t, CURRENT_PML5, PML5, p.cr4La57);
  }
}
