/**
  The start-up barrier between the boot core and the application processors (src/main.rs): one
  shared counter used twice, a timer flag raised for a while, and a clock value published by the
  boot core.
 */
module Barrier {

  datatype Boot =
    | WaitBooted       // until the counter equals the number of cores
    | ResetCount
    | ClearValue
    | RaiseTimer
    | LowerTimer
    | WaitCalibrated   // until the counter reaches the number of cores
    | Publish
    | WaitAdjusted     // until the counter reaches twice the number of cores
    | FinalReset
    | Left

  datatype Core =
    | Booting
    | WaitRaised                         // counted in; waits for the timer flag
    | WaitLowered(start: nat)            // first clock reading taken
    | Calibrated(rate: nat)              // rate stored, not yet counted
    | WaitValue(rate: nat)               // counted; waits for a value other than 0
    | GotValue(rate: nat, value: nat)
    | Adjusted(rate: nat, adjust: int)   // adjustment stored, not yet counted
    | Running(rate: nat, adjust: int)    // counted

  datatype State = State(count: nat, value: nat, timer: bool, boot: Boot, cores: seq<Core>)

  datatype Event =
    | BootStep(tsc: nat)             // the boot core moves; `tsc` is its clock reading
    | CoreStep(k: nat, tsc: nat)     // core `k` moves; `tsc` is its clock reading

  predicate BootEnabled(s: State) {
    match s.boot
    case WaitBooted => s.count == |s.cores|
    case WaitCalibrated => s.count >= |s.cores|
    case WaitAdjusted => s.count >= |s.cores| * 2
    case Left => false
    case _ => true
  }

  function BootNext(s: State, tsc: nat): State {
    match s.boot
    case WaitBooted => s.(boot := ResetCount)
    case ResetCount => s.(count := 0, boot := ClearValue)
    case ClearValue => s.(value := 0, boot := RaiseTimer)
    case RaiseTimer => s.(timer := true, boot := LowerTimer)
    case LowerTimer => s.(timer := false, boot := WaitCalibrated)
    case WaitCalibrated => s.(boot := Publish)
    case Publish => s.(value := tsc, boot := WaitAdjusted)
    case WaitAdjusted => s.(boot := FinalReset)
    case FinalReset => s.(count := 0, boot := Left)
    case Left => s
  }

  predicate CoreEnabled(s: State, c: Core) {
    match c
    case WaitRaised => s.timer
    case WaitLowered(_) => !s.timer
    case WaitValue(_) => s.value != 0
    case Running(_, _) => false
    case _ => true
  }

  /** Counts per 100 ns, from the clock readings around a pulse of 100 ms; the difference is that of 64-bit words. */
  function Rate(start: nat, end: nat): nat {
    (end - start) % 0x1_0000_0000_0000_0000 / 1_000_000
  }

  /** The core after its step, and whether the step increments the counter. */
  function CoreNext(s: State, c: Core, tsc: nat): (Core, bool) {
    match c
    case Booting => (WaitRaised, true)
    case WaitRaised => (WaitLowered(tsc), false)
    case WaitLowered(start) => (Calibrated(Rate(start, tsc)), false)
    case Calibrated(rate) => (WaitValue(rate), true)
    case WaitValue(rate) => (GotValue(rate, s.value), false)
    case GotValue(rate, v) => (Adjusted(rate, v - tsc), false)
    case Adjusted(rate, a) => (Running(rate, a), true)
    case Running(_, _) => (c, false)
  }

  predicate Enabled(s: State, e: Event) {
    match e
    case BootStep(_) => BootEnabled(s)
    case CoreStep(k, _) => k < |s.cores| && CoreEnabled(s, s.cores[k])
  }

  function Next(s: State, e: Event): State
    requires Enabled(s, e)
  {
    match e
    case BootStep(tsc) => BootNext(s, tsc)
    case CoreStep(k, tsc) =>
      var (c, counts) := CoreNext(s, s.cores[k], tsc);
      s.(cores := s.cores[k := c], count := if counts then s.count + 1 else s.count)
  }

  /** The published value may start as anything: it is cleared before a core can look at it. */
  predicate Init(s: State) {
    s.count == 0 && !s.timer && s.boot == WaitBooted && forall k :: 0 <= k < |s.cores| ==> s.cores[k] == Booting
  }

  predicate Follows(s: State, e: Event, s': State) {
    Enabled(s, e) && s' == Next(s, e)
  }

  ghost predicate Run(states: seq<State>, events: seq<Event>) {
    && |states| == |events| + 1
    && forall k :: 0 <= k < |events| ==> Follows(states[k], events[k], states[k + 1])
  }

  // ---------- what the counter counts ----------

  predicate AfterReset(b: Boot) { !b.WaitBooted? && !b.ResetCount? }

  predicate Published(b: Boot) { b.WaitAdjusted? || b.FinalReset? || b.Left? }

  /** How often a core has incremented the counter since it was last reset. */
  function Weight(reset: bool, c: Core): nat {
    if !reset then (if c.Booting? then 0 else 1)
    else if c.Running? then 2
    else if c.WaitValue? || c.GotValue? || c.Adjusted? then 1
    else 0
  }

  function Total(reset: bool, cores: seq<Core>): nat {
    if cores == [] then 0 else Weight(reset, cores[0]) + Total(reset, cores[1..])
  }

  lemma {:induction false} TotalUpdate(reset: bool, cores: seq<Core>, k: nat, c: Core)
    requires k < |cores|
    ensures Total(reset, cores[k := c]) == Total(reset, cores) - Weight(reset, cores[k]) + Weight(reset, c)
  {
    if k == 0 {
      assert cores[0 := c][1..] == cores[1..];
    } else {
      TotalUpdate(reset, cores[1..], k - 1, c);
      assert cores[k := c][1..] == cores[1..][k - 1 := c];
    }
  }

  /** If no core weighs more than `m`, the total is at most `m` each, and then only when all weigh `m`. */
  lemma {:induction false} TotalBound(reset: bool, cores: seq<Core>, m: nat)
    requires forall k :: 0 <= k < |cores| ==> Weight(reset, cores[k]) <= m
    ensures Total(reset, cores) <= |cores| * m
    ensures Total(reset, cores) == |cores| * m ==> forall k :: 0 <= k < |cores| ==> Weight(reset, cores[k]) == m
  {
    if cores != [] {
      TotalBound(reset, cores[1..], m);
      assert |cores| * m == |cores[1..]| * m + m;
      if Total(reset, cores) == |cores| * m {
        forall k | 0 <= k < |cores| ensures Weight(reset, cores[k]) == m {
          if k > 0 {
            assert cores[k] == cores[1..][k - 1];
          }
        }
      }
    }
  }

  lemma {:induction false} TotalZero(reset: bool, cores: seq<Core>)
    requires forall k :: 0 <= k < |cores| ==> Weight(reset, cores[k]) == 0
    ensures Total(reset, cores) == 0
  {
    if cores != [] {
      TotalZero(reset, cores[1..]);
    }
  }

  // ---------- the invariant ----------

  /** Where a core can be, given where the boot core is. */
  predicate CoreOk(s: State, c: Core) {
    match c
    case Booting => s.boot.WaitBooted?
    case WaitRaised => !s.boot.Publish? && !Published(s.boot)
    case WaitLowered(_) => s.boot.LowerTimer? || s.boot.WaitCalibrated?
    case Calibrated(_) => s.boot.WaitCalibrated?
    case WaitValue(_) => s.boot.WaitCalibrated? || s.boot.Publish? || s.boot.WaitAdjusted?
    case GotValue(_, v) => s.boot.WaitAdjusted? && v == s.value
    case Adjusted(_, _) => s.boot.WaitAdjusted?
    case Running(_, _) => Published(s.boot)
  }

  predicate Inv(s: State) {
    && (forall k :: 0 <= k < |s.cores| ==> CoreOk(s, s.cores[k]))
    && (if s.boot.Left? then s.count == 0 else s.count == Total(AfterReset(s.boot), s.cores))
    && (s.timer <==> s.boot.LowerTimer?)
    && (AfterReset(s.boot) && !s.boot.ClearValue? && !Published(s.boot) ==> s.value == 0)
  }

  lemma InitInv(s: State)
    requires Init(s)
    ensures Inv(s)
  {
    TotalZero(false, s.cores);
  }

  /** When the counter shows `m` increments per core and no core can have made more, every core made `m`. */
  lemma AllWeigh(s: State, m: nat)
    requires Inv(s) && !s.boot.Left? && s.count >= |s.cores| * m
    requires forall k :: 0 <= k < |s.cores| ==> Weight(AfterReset(s.boot), s.cores[k]) <= m
    ensures forall k :: 0 <= k < |s.cores| ==> Weight(AfterReset(s.boot), s.cores[k]) == m
  {
    TotalBound(AfterReset(s.boot), s.cores, m);
  }

  lemma BootKeeps(s: State, tsc: nat)
    requires Inv(s) && BootEnabled(s)
    ensures Inv(BootNext(s, tsc))
  {
    var t := BootNext(s, tsc);
    if s.boot.WaitBooted? || s.boot.WaitCalibrated? {
      AllWeigh(s, 1);
    } else if s.boot.WaitAdjusted? {
      AllWeigh(s, 2);
    } else if s.boot.ResetCount? {
      TotalZero(true, s.cores);
    }
    forall k | 0 <= k < |s.cores| ensures CoreOk(t, s.cores[k]) {
      assert CoreOk(s, s.cores[k]);
    }
  }

  lemma CoreKeeps(s: State, k: nat, tsc: nat)
    requires Inv(s) && Enabled(s, CoreStep(k, tsc))
    ensures Inv(Next(s, CoreStep(k, tsc)))
  {
    var t := Next(s, CoreStep(k, tsc));
    TotalUpdate(AfterReset(s.boot), s.cores, k, t.cores[k]);
    forall j | 0 <= j < |s.cores| ensures CoreOk(t, t.cores[j]) {
      assert CoreOk(s, s.cores[j]) && CoreOk(s, s.cores[k]);
    }
  }

  lemma StepKeeps(s: State, e: Event, s': State)
    requires Inv(s) && Follows(s, e, s')
    ensures Inv(s') && |s'.cores| == |s.cores|
  {
    match e
    case BootStep(tsc) => BootKeeps(s, tsc);
    case CoreStep(k, tsc) => CoreKeeps(s, k, tsc);
  }

  lemma {:induction false} RunInv(states: seq<State>, events: seq<Event>, n: nat)
    requires Run(states, events) && Init(states[0]) && n <= |events|
    ensures Inv(states[n]) && |states[n].cores| == |states[0].cores|
  {
    if n == 0 {
      InitInv(states[0]);
    } else {
      RunInv(states, events, n - 1);
      StepKeeps(states[n - 1], events[n - 1], states[n]);
    }
  }

  // ---------- what is promised ----------

  /** From the moment the boot core may publish its clock, every core has calibrated. */
  lemma PublishAfterAllCalibrated(states: seq<State>, events: seq<Event>, n: nat, k: nat)
    requires Run(states, events) && Init(states[0]) && n <= |events| && k < |states[n].cores|
    requires states[n].boot.Publish? || Published(states[n].boot)
    ensures !states[n].cores[k].Booting? && !states[n].cores[k].WaitRaised?
    ensures !states[n].cores[k].WaitLowered? && !states[n].cores[k].Calibrated?
  {
    RunInv(states, events, n);
    assert CoreOk(states[n], states[n].cores[k]);
  }

  /** No increment is lost to a reset: at each one every core has made exactly the increments waited for. */
  lemma ResetLosesNothing(states: seq<State>, events: seq<Event>, n: nat, k: nat)
    requires Run(states, events) && Init(states[0]) && n <= |events| && k < |states[n].cores|
    ensures states[n].boot.ResetCount? ==> states[n].cores[k] == WaitRaised && states[n].count == |states[n].cores|
    ensures states[n].boot.FinalReset? ==> states[n].cores[k].Running? && states[n].count == 2 * |states[n].cores|
    ensures !states[n].boot.Left? ==> states[n].count == Total(AfterReset(states[n].boot), states[n].cores)
    ensures states[n].boot.Left? ==> states[n].count == 0
  {
    RunInv(states, events, n);
    var s := states[n];
    forall j | 0 <= j < |s.cores| ensures CoreOk(s, s.cores[j]) {}
    if s.boot.ResetCount? {
      TotalAll(false, s.cores, 1);
    } else if s.boot.FinalReset? {
      TotalAll(true, s.cores, 2);
    }
  }

  lemma {:induction false} TotalAll(reset: bool, cores: seq<Core>, m: nat)
    requires forall k :: 0 <= k < |cores| ==> Weight(reset, cores[k]) == m
    ensures Total(reset, cores) == m * |cores|
  {
    if cores != [] {
      TotalAll(reset, cores[1..], m);
      assert m * |cores| == m * |cores[1..]| + m;
    }
  }

  // ---------- how long a run can get ----------

  function BootLeft(b: Boot): nat {
    match b
    case WaitBooted => 9
    case ResetCount => 8
    case ClearValue => 7
    case RaiseTimer => 6
    case LowerTimer => 5
    case WaitCalibrated => 4
    case Publish => 3
    case WaitAdjusted => 2
    case FinalReset => 1
    case Left => 0
  }

  function CoreLeft(c: Core): nat {
    match c
    case Booting => 7
    case WaitRaised => 6
    case WaitLowered(_) => 5
    case Calibrated(_) => 4
    case WaitValue(_) => 3
    case GotValue(_, _) => 2
    case Adjusted(_, _) => 1
    case Running(_, _) => 0
  }

  function CoresLeft(cores: seq<Core>): nat {
    if cores == [] then 0 else CoreLeft(cores[0]) + CoresLeft(cores[1..])
  }

  /** The steps that boot core and cores together have still to make. */
  function StepsLeft(s: State): nat {
    BootLeft(s.boot) + CoresLeft(s.cores)
  }

  lemma {:induction false} CoresLeftUpdate(cores: seq<Core>, k: nat, c: Core)
    requires k < |cores|
    ensures CoresLeft(cores[k := c]) == CoresLeft(cores) - CoreLeft(cores[k]) + CoreLeft(c)
  {
    if k == 0 {
      assert cores[0 := c][1..] == cores[1..];
    } else {
      CoresLeftUpdate(cores[1..], k - 1, c);
      assert cores[k := c][1..] == cores[1..][k - 1 := c];
    }
  }

  /** Every step of every run is one of them. */
  lemma StepUses(s: State, e: Event)
    requires Enabled(s, e)
    ensures StepsLeft(Next(s, e)) == StepsLeft(s) - 1
  {
    if e.CoreStep? {
      CoresLeftUpdate(s.cores, e.k, CoreNext(s, s.cores[e.k], e.tsc).0);
    }
  }

  // ---------- the clock readings of a run ----------

  /** Step `i` is made by core `k`, with so many steps left to make. */
  ghost predicate CoreMadeAt(states: seq<State>, events: seq<Event>, i: nat, k: nat, left: nat) {
    && i < |events| < |states| && events[i].CoreStep? && events[i].k == k
    && k < |states[i].cores| && CoreLeft(states[i].cores[k]) == left
  }

  ghost predicate BootMadeAt(states: seq<State>, events: seq<Event>, i: nat, left: nat) {
    i < |events| < |states| && events[i].BootStep? && BootLeft(states[i].boot) == left
  }

  lemma LeftStep(s: State, e: Event, s': State, k: nat)
    requires Follows(s, e, s') && k < |s.cores|
    ensures |s'.cores| == |s.cores|
    ensures CoreLeft(s'.cores[k]) == CoreLeft(s.cores[k]) - if e.CoreStep? && e.k == k then 1 else 0
    ensures BootLeft(s'.boot) == BootLeft(s.boot) - if e.BootStep? then 1 else 0
  {
  }

  /** A core only ever moves on. */
  lemma {:induction false} LeftFalls(states: seq<State>, events: seq<Event>, i: nat, n: nat, k: nat)
    requires Run(states, events) && i <= n <= |events| && k < |states[i].cores|
    ensures |states[n].cores| == |states[i].cores|
    ensures CoreLeft(states[n].cores[k]) <= CoreLeft(states[i].cores[k])
    ensures BootLeft(states[n].boot) <= BootLeft(states[i].boot)
  {
    if i < n {
      LeftFalls(states, events, i, n - 1, k);
      LeftStep(states[n - 1], events[n - 1], states[n], k);
    }
  }

  /** It makes each of its steps once. */
  lemma CoreMadeOnce(states: seq<State>, events: seq<Event>, i: nat, j: nat, k: nat, left: nat)
    requires Run(states, events) && CoreMadeAt(states, events, i, k, left) && CoreMadeAt(states, events, j, k, left)
    ensures i == j
  {
    if i < j {
      LeftStep(states[i], events[i], states[i + 1], k);
      LeftFalls(states, events, i + 1, j, k);
    } else if j < i {
      LeftStep(states[j], events[j], states[j + 1], k);
      LeftFalls(states, events, j + 1, i, k);
    }
  }

  lemma BootMadeOnce(states: seq<State>, events: seq<Event>, i: nat, j: nat, k: nat, left: nat)
    requires Run(states, events) && BootMadeAt(states, events, i, left) && BootMadeAt(states, events, j, left)
    requires k < |states[i].cores| && k < |states[j].cores|
    ensures i == j
  {
    if i < j {
      LeftStep(states[i], events[i], states[i + 1], k);
      LeftFalls(states, events, i + 1, j, k);
    } else if j < i {
      LeftStep(states[j], events[j], states[j + 1], k);
      LeftFalls(states, events, j + 1, i, k);
    }
  }

  /** A step that is behind a core was made. */
  lemma {:induction false} CoreMade(states: seq<State>, events: seq<Event>, n: nat, k: nat, left: nat) returns (i: nat)
    requires Run(states, events) && n <= |events| && k < |states[0].cores|
    requires forall m :: 0 <= m <= n ==> k < |states[m].cores|
    requires CoreLeft(states[n].cores[k]) < left <= CoreLeft(states[0].cores[k])
    ensures i < n && CoreMadeAt(states, events, i, k, left)
  {
    LeftStep(states[n - 1], events[n - 1], states[n], k);
    if CoreLeft(states[n - 1].cores[k]) < left {
      i := CoreMade(states, events, n - 1, k, left);
    } else {
      i := n - 1;
    }
  }

  lemma {:induction false} BootMade(states: seq<State>, events: seq<Event>, n: nat, left: nat) returns (i: nat)
    requires Run(states, events) && n <= |events|
    requires BootLeft(states[n].boot) < left <= BootLeft(states[0].boot)
    ensures i < n && BootMadeAt(states, events, i, left)
  {
    if BootLeft(states[n - 1].boot) < left {
      i := BootMade(states, events, n - 1, left);
    } else {
      i := n - 1;
    }
  }

  function RateOf(c: Core): nat { if CoreLeft(c) <= 4 then c.rate else 0 }

  function AdjustOf(c: Core): int { if CoreLeft(c) <= 1 then c.adjust else 0 }

  /** What a core has stored, and what the boot core has published, stays. */
  lemma {:induction false} DataStays(states: seq<State>, events: seq<Event>, i: nat, n: nat, k: nat)
    requires Run(states, events) && i <= n <= |events| && k < |states[i].cores|
    ensures |states[n].cores| == |states[i].cores|
    ensures states[i].cores[k].WaitLowered? && states[n].cores[k].WaitLowered? ==> states[n].cores[k] == states[i].cores[k]
    ensures CoreLeft(states[i].cores[k]) <= 4 ==> RateOf(states[n].cores[k]) == RateOf(states[i].cores[k])
    ensures CoreLeft(states[i].cores[k]) <= 1 ==> AdjustOf(states[n].cores[k]) == AdjustOf(states[i].cores[k])
    ensures BootLeft(states[i].boot) <= 2 ==> states[n].value == states[i].value
  {
    if i < n {
      DataStays(states, events, i, n - 1, k);
      LeftFalls(states, events, i, n - 1, k);
      LeftStep(states[n - 1], events[n - 1], states[n], k);
    }
  }

  /** Step `i` is core `k` reading its clock where the source does: at the raised flag, at the lowered flag, at the value. */
  ghost predicate ReadsRaised(states: seq<State>, events: seq<Event>, i: nat, k: nat) {
    && i < |events| < |states| && events[i].CoreStep? && events[i].k == k
    && k < |states[i].cores| && states[i].cores[k].WaitRaised?
  }

  ghost predicate ReadsLowered(states: seq<State>, events: seq<Event>, i: nat, k: nat) {
    && i < |events| < |states| && events[i].CoreStep? && events[i].k == k
    && k < |states[i].cores| && states[i].cores[k].WaitLowered?
  }

  ghost predicate ReadsAtValue(states: seq<State>, events: seq<Event>, i: nat, k: nat) {
    && i < |events| < |states| && events[i].CoreStep? && events[i].k == k
    && k < |states[i].cores| && states[i].cores[k].GotValue?
  }

  /** Step `i` is the boot core publishing its clock. */
  ghost predicate Publishes(states: seq<State>, events: seq<Event>, i: nat) {
    i < |events| < |states| && events[i].BootStep? && states[i].boot.Publish?
  }

  /** The rate comes from one reading with the flag up and one after it went down. */
  lemma RateFromReadings(states: seq<State>, events: seq<Event>, n: nat, k: nat) returns (up: nat, down: nat)
    requires Run(states, events) && Init(states[0]) && n <= |events| && k < |states[n].cores|
    requires CoreLeft(states[n].cores[k]) <= 4
    ensures up < down < n && ReadsRaised(states, events, up, k) && ReadsLowered(states, events, down, k)
    ensures states[up].timer && !states[down].timer
    ensures RateOf(states[n].cores[k]) == Rate(events[up].tsc, events[down].tsc)
  {
    RunInv(states, events, n);
    forall m | 0 <= m <= n ensures k < |states[m].cores| {
      RunInv(states, events, m);
    }
    down := CoreMade(states, events, n, k, 5);
    up := CoreMade(states, events, down, k, 6);
    DataStays(states, events, up + 1, down, k);
    DataStays(states, events, down + 1, n, k);
  }

  /** The adjustment comes from the published clock and one reading after it was published. */
  lemma AdjustFromReadings(states: seq<State>, events: seq<Event>, n: nat, k: nat) returns (publish: nat, read: nat)
    requires Run(states, events) && Init(states[0]) && n <= |events| && k < |states[n].cores|
    requires CoreLeft(states[n].cores[k]) <= 1
    ensures publish < read < n && Publishes(states, events, publish) && ReadsAtValue(states, events, read, k)
    ensures AdjustOf(states[n].cores[k]) == events[publish].tsc - events[read].tsc
  {
    RunInv(states, events, n);
    forall m | 0 <= m <= n ensures k < |states[m].cores| {
      RunInv(states, events, m);
    }
    read := CoreMade(states, events, n, k, 2);
    RunInv(states, events, read);
    assert CoreOk(states[read], states[read].cores[k]);
    publish := BootMade(states, events, read, 3);
    DataStays(states, events, publish + 1, read, k);
    DataStays(states, events, read + 1, n, k);
  }

  /**
    The boot core leaves the last wait only after every core has stored its rate and its adjustment,
    and these come from clock readings of the run: the rate from the one reading taken with the flag
    up and the one taken after it went down, the adjustment from the one reading the boot core
    published and the one the core took once it had that value. There are no other such readings.
   */
  lemma LeaveAfterAllAdjusted(states: seq<State>, events: seq<Event>, n: nat, k: nat)
    returns (up: nat, down: nat, publish: nat, read: nat)
    requires Run(states, events) && Init(states[0]) && n <= |events| && k < |states[n].cores|
    requires states[n].boot.FinalReset? || states[n].boot.Left?
    ensures up < down < n && publish < read < n
    ensures ReadsRaised(states, events, up, k) && states[up].timer
    ensures ReadsLowered(states, events, down, k) && !states[down].timer
    ensures Publishes(states, events, publish) && ReadsAtValue(states, events, read, k)
    ensures states[n].cores[k].Running? && states[n].cores[k].adjust == events[publish].tsc - events[read].tsc
    ensures var rate, counts := states[n].cores[k].rate, (events[down].tsc - events[up].tsc) % 0x1_0000_0000_0000_0000;
      rate * 1_000_000 <= counts < (rate + 1) * 1_000_000
    ensures forall i :: ReadsRaised(states, events, i, k) ==> i == up
    ensures forall i :: ReadsLowered(states, events, i, k) ==> i == down
    ensures forall i :: ReadsAtValue(states, events, i, k) ==> i == read
    ensures forall i :: Publishes(states, events, i) ==> i == publish
  {
    RunInv(states, events, n);
    assert CoreOk(states[n], states[n].cores[k]);
    up, down := RateFromReadings(states, events, n, k);
    publish, read := AdjustFromReadings(states, events, n, k);
    forall i | ReadsRaised(states, events, i, k) ensures i == up { CoreMadeOnce(states, events, i, up, k, 6); }
    forall i | ReadsLowered(states, events, i, k) ensures i == down { CoreMadeOnce(states, events, i, down, k, 5); }
    forall i | ReadsAtValue(states, events, i, k) ensures i == read { CoreMadeOnce(states, events, i, read, k, 2); }
    forall i | Publishes(states, events, i) ensures i == publish {
      RunInv(states, events, i);
      RunInv(states, events, publish);
      BootMadeOnce(states, events, i, publish, k, 3);
    }
  }

  // ---------- completion after the pulse ----------

  /** No core is still waiting for the flag to be raised. */
  predicate PulseSeen(s: State) {
    forall k :: 0 <= k < |s.cores| ==> !s.cores[k].WaitRaised?
  }

  /** After a pulse that every core saw, with a value that ends the cores' wait once it is published. */
  predicate Clear(s: State) {
    && Inv(s) && PulseSeen(s)
    && (s.boot.WaitCalibrated? || s.boot.Publish? || Published(s.boot))
    && (Published(s.boot) ==> s.value != 0)
  }

  /** The clock the boot core publishes is not 0. */
  predicate PublishesTime(s: State, e: Event) {
    s.boot.Publish? && e.BootStep? ==> e.tsc != 0
  }

  lemma ClearStep(s: State, e: Event)
    requires Clear(s) && Enabled(s, e) && PublishesTime(s, e)
    ensures Clear(Next(s, e))
  {
    match e
    case BootStep(tsc) => BootKeeps(s, tsc);
    case CoreStep(k, tsc) => CoreKeeps(s, k, tsc);
  }

  /** A core that waits for neither the boot core nor the end of the barrier can move. */
  predicate CoreDone(s: State, c: Core) {
    if s.boot.WaitCalibrated? then c.WaitValue? else c.Running?
  }

  lemma CoreMoves(s: State, k: nat)
    requires Clear(s) && (s.boot.WaitCalibrated? || s.boot.WaitAdjusted?)
    requires k < |s.cores| && !CoreDone(s, s.cores[k])
    ensures Enabled(s, CoreStep(k, 1))
  {
    assert CoreOk(s, s.cores[k]);
  }

  lemma AllDoneMoves(s: State)
    requires Clear(s) && (s.boot.WaitCalibrated? || s.boot.WaitAdjusted?)
    requires forall k :: 0 <= k < |s.cores| ==> CoreDone(s, s.cores[k])
    ensures BootEnabled(s)
  {
    TotalAll(true, s.cores, if s.boot.WaitCalibrated? then 1 else 2);
  }

  /** Until the boot core has left, something can always move. */
  lemma SomethingMoves(s: State) returns (e: Event)
    requires Clear(s) && !s.boot.Left?
    ensures Enabled(s, e) && PublishesTime(s, e)
  {
    e := BootStep(1);
    if s.boot.WaitCalibrated? || s.boot.WaitAdjusted? {
      if k :| 0 <= k < |s.cores| && !CoreDone(s, s.cores[k]) {
        CoreMoves(s, k);
        e := CoreStep(k, 1);
      } else {
        AllDoneMoves(s);
      }
    }
  }

  /**
    Once every core has seen the pulse, every run completes: each step is one fewer to make, and
    as long as the boot core has not left there is a step to make.
   */
  lemma {:induction false} EveryRunCompletes(states: seq<State>, events: seq<Event>, n: nat)
    requires Run(states, events) && Clear(states[0]) && n <= |events|
    requires forall m :: 0 <= m < |events| ==> PublishesTime(states[m], events[m])
    ensures Clear(states[n]) && n + StepsLeft(states[n]) == StepsLeft(states[0])
    ensures !states[n].boot.Left? ==> exists e :: Enabled(states[n], e)
  {
    if n > 0 {
      EveryRunCompletes(states, events, n - 1);
      ClearStep(states[n - 1], events[n - 1]);
      StepUses(states[n - 1], events[n - 1]);
    }
    if !states[n].boot.Left? {
      var e := SomethingMoves(states[n]);
    }
  }

  lemma {:induction false} Completion(s: State) returns (states: seq<State>, events: seq<Event>)
    requires Clear(s)
    ensures LeavesBy(s, states, events)
    decreases StepsLeft(s)
  {
    if s.boot.Left? {
      return [s], [];
    }
    var e := SomethingMoves(s);
    ClearStep(s, e);
    StepUses(s, e);
    var rest, more := Completion(Next(s, e));
    states, events := [s] + rest, [e] + more;
  }

  /** A run from `s` after which the boot core has left. */
  ghost predicate LeavesBy(s: State, states: seq<State>, events: seq<Event>) {
    Run(states, events) && states[0] == s && states[|events|].boot.Left?
  }

  ghost predicate CanLeave(s: State) {
    exists states, events :: LeavesBy(s, states, events)
  }

  // ---------- a missed pulse ----------

  predicate Missed(s: State, k: nat) {
    Inv(s) && s.boot.WaitCalibrated? && k < |s.cores| && s.cores[k].WaitRaised?
  }

  /** The counter stays short of the number of cores. */
  lemma BootWaits(s: State, k: nat)
    requires Missed(s, k)
    ensures !BootEnabled(s)
  {
    forall j | 0 <= j < |s.cores| ensures Weight(true, s.cores[j]) <= 1 {
      assert CoreOk(s, s.cores[j]);
    }
    TotalBound(true, s.cores, 1);
    assert Weight(true, s.cores[k]) == 0;
  }

  lemma MissedStep(s: State, e: Event, k: nat)
    requires Missed(s, k) && Enabled(s, e)
    ensures Missed(Next(s, e), k)
  {
    BootWaits(s, k);
    if e.CoreStep? {
      CoreKeeps(s, e.k, e.tsc);
    }
  }

  /** After the pulse a core still waiting for it waits for ever, and the boot core never publishes. */
  lemma {:induction false} MissedPulseStalls(states: seq<State>, events: seq<Event>, n: nat, k: nat)
    requires Run(states, events) && Missed(states[0], k) && n <= |events|
    ensures Missed(states[n], k)
  {
    if n > 0 {
      MissedPulseStalls(states, events, n - 1, k);
      MissedStep(states[n - 1], events[n - 1], k);
    }
  }

  /**
    When the barrier can complete: from every reachable state after the pulse the boot core can
    still leave if and only if no core was waiting for the flag when it was lowered.
   */
  lemma CompletesIffPulseSeen(states: seq<State>, events: seq<Event>, n: nat)
    requires Run(states, events) && Init(states[0]) && n <= |events|
    requires states[n].boot.WaitCalibrated?
    ensures CanLeave(states[n]) <==> PulseSeen(states[n])
  {
    RunInv(states, events, n);
    var s := states[n];
    if PulseSeen(s) {
      var run, steps := Completion(s);
    } else {
      var k: nat :| k < |s.cores| && s.cores[k].WaitRaised?;
      forall run, steps ensures !LeavesBy(s, run, steps) {
        if LeavesBy(s, run, steps) {
          MissedPulseStalls(run, steps, |steps|, k);
        }
      }
    }
  }

  /** Such a run exists: nothing makes the boot core wait until the raised flag has been seen. */
  lemma PulseCanBeMissed() returns (states: seq<State>, events: seq<Event>)
    ensures Run(states, events) && Init(states[0]) && |events| == 6
    ensures states[6].boot == WaitCalibrated && states[6].cores == [WaitRaised]
  {
    var s0 := State(0, 0, false, WaitBooted, [Booting]);
    var s1 := Next(s0, CoreStep(0, 0));
    var s2 := Next(s1, BootStep(0));
    var s3 := Next(s2, BootStep(0));
    var s4 := Next(s3, BootStep(0));
    var s5 := Next(s4, BootStep(0));
    var s6 := Next(s5, BootStep(0));
    states := [s0, s1, s2, s3, s4, s5, s6];
    events := [CoreStep(0, 0), BootStep(0), BootStep(0), BootStep(0), BootStep(0), BootStep(0)];
  }
}
