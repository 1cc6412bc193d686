/**
  How application processors claim their stacks (src/arch/x86_64/trampoline.asm): every core
  probes a shared array from the front and takes the first entry it can zero with an atomic
  compare-and-swap. The array ends with the sentinel 1.
 */
module StackClaim {

  /** One core in the probe loop; `i` is both the array position and the index it will report. */
  datatype Core =
    | Probing(i: nat)
    | Loaded(i: nat, v: nat)     // read a non-zero value, compare-and-swap to come
    | Claimed(i: nat, v: nat)
    | Crashed                    // read the sentinel

  datatype State = State(slots: seq<nat>, cores: seq<Core>)

  datatype Event = Load(k: nat) | Cas(k: nat)

  predicate Enabled(s: State, e: Event) {
    match e
    case Load(k) => k < |s.cores| && s.cores[k].Probing? && s.cores[k].i < |s.slots|
    case Cas(k) => k < |s.cores| && s.cores[k].Loaded? && s.cores[k].i < |s.slots|
  }

  function Next(s: State, e: Event): State
    requires Enabled(s, e)
  {
    match e
    case Load(k) =>
      var i := s.cores[k].i;
      var v := s.slots[i];
      s.(cores := s.cores[k := if v == 0 then Probing(i + 1) else if v == 1 then Crashed else Loaded(i, v)])
    case Cas(k) =>
      var i, v := s.cores[k].i, s.cores[k].v;
      if s.slots[i] == v then State(s.slots[i := 0], s.cores[k := Claimed(i, v)])
      else s.(cores := s.cores[k := Probing(i + 1)])
  }

  /** The stack tops: real addresses, all different. */
  predicate GoodStacks(stacks: seq<nat>) {
    && (forall j :: 0 <= j < |stacks| ==> stacks[j] > 1)
    && forall i, j :: 0 <= i < j < |stacks| ==> stacks[i] != stacks[j]
  }

  predicate Init(s: State, stacks: seq<nat>) {
    s.slots == stacks + [1] && forall k :: 0 <= k < |s.cores| ==> s.cores[k] == Probing(0)
  }

  ghost predicate Run(states: seq<State>, events: seq<Event>) {
    && |states| == |events| + 1
    && forall k :: 0 <= k < |events| ==> Enabled(states[k], events[k]) && states[k + 1] == Next(states[k], events[k])
  }

  // ---------- the invariant ----------

  /** Every entry is its stack or taken, and the sentinel is in place. */
  ghost predicate SlotsOk(s: State, stacks: seq<nat>) {
    && |s.slots| == |stacks| + 1 && s.slots[|stacks|] == 1
    && forall j :: 0 <= j < |stacks| ==> s.slots[j] == stacks[j] || s.slots[j] == 0
  }

  ghost predicate CoreOk(s: State, stacks: seq<nat>, c: Core)
    requires SlotsOk(s, stacks)
  {
    match c
    case Probing(i) => i <= |stacks| && (forall j :: 0 <= j < i ==> s.slots[j] == 0)
    case Loaded(i, v) => i < |stacks| && v == stacks[i] && (forall j :: 0 <= j < i ==> s.slots[j] == 0)
    case Claimed(i, v) => i < |stacks| && v == stacks[i] && s.slots[i] == 0
    case Crashed => forall j :: 0 <= j < |stacks| ==> s.slots[j] == 0
  }

  ghost predicate OwnerOf(s: State, j: int, k: int) {
    0 <= k < |s.cores| && s.cores[k].Claimed? && s.cores[k].i == j
  }

  ghost predicate Inv(s: State, stacks: seq<nat>) {
    && SlotsOk(s, stacks)
    && (forall k :: 0 <= k < |s.cores| ==> CoreOk(s, stacks, s.cores[k]))
    && (forall j :: 0 <= j < |stacks| && s.slots[j] == 0 ==> exists k :: OwnerOf(s, j, k))
    && (forall j, k, k' :: OwnerOf(s, j, k) && OwnerOf(s, j, k') ==> k == k')
  }

  // ---------- counting ----------

  /** The cores that have claimed one of the first `n` entries. */
  ghost function Owners(s: State, n: nat): set<nat> {
    set k | 0 <= k < |s.cores| && s.cores[k].Claimed? && s.cores[k].i < n
  }

  /** If the first `n` entries are all taken, `n` different cores took them. */
  lemma {:induction false} OwnersCount(s: State, stacks: seq<nat>, n: nat)
    requires Inv(s, stacks) && n <= |stacks| && forall j :: 0 <= j < n ==> s.slots[j] == 0
    ensures |Owners(s, n)| == n
  {
    if n == 0 {
      assert Owners(s, 0) == {};
    } else {
      OwnersCount(s, stacks, n - 1);
      assert s.slots[n - 1] == 0;
      var k :| OwnerOf(s, n - 1, k);
      forall k' | k' in Owners(s, n) && k' !in Owners(s, n - 1) ensures k' == k {
        assert OwnerOf(s, n - 1, k');
      }
      assert Owners(s, n) == Owners(s, n - 1) + {k};
    }
  }

  /** A set of core numbers is no larger than the number of cores. */
  lemma {:induction false} CoresBound(ks: set<nat>, n: nat)
    requires forall k :: k in ks ==> k < n
    ensures |ks| <= n
  {
    if n == 0 {
      assert ks == {};
    } else {
      CoresBound(ks - {n - 1}, n - 1);
    }
  }

  /** One more entry has at most one more owner. */
  lemma OneMoreOwner(s: State, stacks: seq<nat>, j: nat)
    requires Inv(s, stacks)
    ensures |Owners(s, j + 1)| <= |Owners(s, j)| + 1
  {
    var more := Owners(s, j + 1) - Owners(s, j);
    assert forall k :: k in more ==> OwnerOf(s, j, k);
    assert Owners(s, j + 1) == Owners(s, j) + more;
    if more != {} {
      var k :| k in more;
      assert more == {k};
    }
  }

  /** However the claims stand, no more cores have claimed one of the first `n` entries than there are. */
  lemma {:induction false} OwnersAtMost(s: State, stacks: seq<nat>, n: nat)
    requires Inv(s, stacks)
    ensures |Owners(s, n)| <= n
  {
    if n == 0 {
      assert Owners(s, 0) == {};
    } else {
      OwnersAtMost(s, stacks, n - 1);
      OneMoreOwner(s, stacks, n - 1);
    }
  }

  /** Where the first `n` entries are taken and some core took none of them, there are more cores than that. */
  lemma SpareCore(s: State, stacks: seq<nat>, n: nat, k: nat)
    requires Inv(s, stacks) && n <= |stacks| && (forall j :: 0 <= j < n ==> s.slots[j] == 0)
    requires k < |s.cores| && !s.cores[k].Claimed?
    ensures n < |s.cores|
  {
    OwnersCount(s, stacks, n);
    assert k !in Owners(s, n);
    CoresBound(Owners(s, n) + {k}, |s.cores|);
  }

  /** If every core has claimed a stack, there are stacks enough. */
  lemma {:induction false} CoresFit(s: State, stacks: seq<nat>, ks: set<nat>, n: nat)
    requires Inv(s, stacks) && n <= |s.cores| && (forall k :: 0 <= k < n ==> s.cores[k].Claimed?)
    requires ks == set k | 0 <= k < n && s.cores[k].Claimed?
    ensures |ks| == n && ks <= Owners(s, |stacks|)
  {
    forall k | k in ks ensures k in Owners(s, |stacks|) {
      assert CoreOk(s, stacks, s.cores[k]);
    }
    if n > 0 {
      CoresFit(s, stacks, ks - {n - 1}, n - 1);
    } else {
      assert ks == {};
    }
  }

  lemma SubsetSize(a: set<nat>, b: set<nat>)
    requires a <= b
    ensures |a| <= |b|
  {
    assert b == a + (b - a);
  }

  // ---------- steps ----------

  lemma InitInv(s: State, stacks: seq<nat>)
    requires Init(s, stacks) && GoodStacks(stacks)
    ensures Inv(s, stacks)
  {
  }

  lemma LoadKeeps(s: State, stacks: seq<nat>, k: nat)
    requires Inv(s, stacks) && GoodStacks(stacks) && Enabled(s, Load(k))
    ensures Inv(Next(s, Load(k)), stacks)
  {
    var s' := Next(s, Load(k));
    assert CoreOk(s, stacks, s.cores[k]);
    forall c | 0 <= c < |s.cores| ensures CoreOk(s', stacks, s'.cores[c]) {
      assert CoreOk(s, stacks, s.cores[c]);
    }
    forall j | 0 <= j < |stacks| && s'.slots[j] == 0 ensures exists o :: OwnerOf(s', j, o) {
      var o :| OwnerOf(s, j, o);
      assert OwnerOf(s', j, o);
    }
    forall j, o, o' | OwnerOf(s', j, o) && OwnerOf(s', j, o') ensures o == o' {
      assert OwnerOf(s, j, o) && OwnerOf(s, j, o');
    }
  }

  lemma CasKeeps(s: State, stacks: seq<nat>, k: nat)
    requires Inv(s, stacks) && GoodStacks(stacks) && Enabled(s, Cas(k))
    ensures Inv(Next(s, Cas(k)), stacks)
  {
    var s' := Next(s, Cas(k));
    var i := s.cores[k].i;
    assert CoreOk(s, stacks, s.cores[k]);
    forall c | 0 <= c < |s.cores| ensures CoreOk(s', stacks, s'.cores[c]) {
      assert CoreOk(s, stacks, s.cores[c]);
    }
    forall j | 0 <= j < |stacks| && s'.slots[j] == 0 ensures exists o :: OwnerOf(s', j, o) {
      if s.slots[j] == 0 {
        var o :| OwnerOf(s, j, o);
        assert OwnerOf(s', j, o);
      } else {
        assert OwnerOf(s', j, k);
      }
    }
    forall j, o, o' | OwnerOf(s', j, o) && OwnerOf(s', j, o') ensures o == o' {
      OwnersBefore(s, stacks, k, j, o);
      OwnersBefore(s, stacks, k, j, o');
    }
  }

  /** After the swap an owner is the core that swapped, at its entry, or an owner from before at another. */
  lemma OwnersBefore(s: State, stacks: seq<nat>, k: nat, j: nat, o: nat)
    requires Inv(s, stacks) && GoodStacks(stacks) && Enabled(s, Cas(k)) && OwnerOf(Next(s, Cas(k)), j, o)
    ensures o != k ==> OwnerOf(s, j, o)
    ensures o != k && j == s.cores[k].i ==> s.slots[j] == 0
    ensures o == k ==> j == s.cores[k].i && s.slots[j] == s.cores[k].v
    ensures s.cores[k].v > 1
  {
    assert CoreOk(s, stacks, s.cores[k]);
    if o != k {
      assert CoreOk(s, stacks, s.cores[o]);
    }
  }

  lemma StepInv(s: State, stacks: seq<nat>, e: Event)
    requires Inv(s, stacks) && GoodStacks(stacks) && Enabled(s, e)
    ensures Inv(Next(s, e), stacks) && |Next(s, e).cores| == |s.cores|
  {
    match e
    case Load(k) => LoadKeeps(s, stacks, k);
    case Cas(k) => CasKeeps(s, stacks, k);
  }

  lemma {:induction false} RunInv(states: seq<State>, events: seq<Event>, stacks: seq<nat>, n: nat)
    requires Run(states, events) && GoodStacks(stacks) && Init(states[0], stacks) && n <= |events|
    ensures Inv(states[n], stacks) && |states[n].cores| == |states[0].cores|
  {
    if n == 0 {
      InitInv(states[0], stacks);
    } else {
      RunInv(states, events, stacks, n - 1);
      StepInv(states[n - 1], stacks, events[n - 1]);
    }
  }

  // ---------- what is promised ----------

  /** Whatever the number of cores: a claimed entry is a real stack, and no two cores share one. */
  lemma ClaimsAreExclusive(states: seq<State>, events: seq<Event>, stacks: seq<nat>, n: nat, k: nat, k': nat)
    requires Run(states, events) && GoodStacks(stacks) && Init(states[0], stacks) && n <= |events|
    requires k < |states[n].cores| && k' < |states[n].cores| && k != k'
    requires states[n].cores[k].Claimed? && states[n].cores[k'].Claimed?
    ensures var c, c' := states[n].cores[k], states[n].cores[k'];
      && c.i < |stacks| && c.v == stacks[c.i]
      && c.i != c'.i && c.v != c'.v
  {
    RunInv(states, events, stacks, n);
    var s := states[n];
    assert CoreOk(s, stacks, s.cores[k]) && CoreOk(s, stacks, s.cores[k']);
    if s.cores[k].i == s.cores[k'].i {
      assert OwnerOf(s, s.cores[k].i, k) && OwnerOf(s, s.cores[k].i, k');
    }
  }

  /** With stacks enough no core ever reads the sentinel, and every core stays within the stacks while it looks. */
  lemma SentinelNeverReached(states: seq<State>, events: seq<Event>, stacks: seq<nat>, n: nat, k: nat)
    requires Run(states, events) && GoodStacks(stacks) && Init(states[0], stacks)
    requires |states[0].cores| <= |stacks| && n <= |events| && k < |states[n].cores|
    ensures !states[n].cores[k].Crashed?
    ensures states[n].cores[k].i < |stacks|
  {
    RunInv(states, events, stacks, n);
    var s := states[n];
    assert CoreOk(s, stacks, s.cores[k]);
    if s.cores[k].Crashed? {
      SpareCore(s, stacks, |stacks|, k);
    } else if s.cores[k].Probing? {
      SpareCore(s, stacks, s.cores[k].i, k);
    }
  }

  predicate Finished(s: State) {
    forall k :: 0 <= k < |s.cores| ==> s.cores[k].Claimed? || s.cores[k].Crashed?
  }

  ghost predicate SomeCrash(s: State) {
    exists k :: 0 <= k < |s.cores| && s.cores[k].Crashed?
  }

  /** The bound is exact: in every finished run some core has crashed if and only if there were too many. */
  lemma CrashIffTooManyCores(states: seq<State>, events: seq<Event>, stacks: seq<nat>, n: nat)
    requires Run(states, events) && GoodStacks(stacks) && Init(states[0], stacks) && n <= |events|
    requires Finished(states[n])
    ensures SomeCrash(states[n]) <==> |states[0].cores| > |stacks|
  {
    RunInv(states, events, stacks, n);
    var s := states[n];
    if SomeCrash(s) {
      var k :| 0 <= k < |s.cores| && s.cores[k].Crashed?;
      assert CoreOk(s, stacks, s.cores[k]);
      SpareCore(s, stacks, |stacks|, k);
    } else {
      var all := set k | 0 <= k < |s.cores| && s.cores[k].Claimed?;
      CoresFit(s, stacks, all, |s.cores|);
      SubsetSize(all, Owners(s, |stacks|));
      OwnersAtMost(s, stacks, |stacks|);
    }
  }

  // ---------- every run finishes ----------

  /** The steps a core can still make. */
  function StepsLeft(c: Core, n: nat): nat {
    match c
    case Probing(i) => if i <= n then 2 * (n - i) + 1 else 0
    case Loaded(i, _) => if i <= n then 2 * (n - i) else 0
    case Claimed(_, _) => 0
    case Crashed => 0
  }

  function AllStepsLeft(cores: seq<Core>, n: nat): nat {
    if cores == [] then 0 else AllStepsLeft(cores[..|cores| - 1], n) + StepsLeft(cores[|cores| - 1], n)
  }

  lemma {:induction false} StepsLeftUpdate(cores: seq<Core>, n: nat, k: nat, c: Core)
    requires k < |cores|
    ensures AllStepsLeft(cores[k := c], n) == AllStepsLeft(cores, n) - StepsLeft(cores[k], n) + StepsLeft(c, n)
  {
    var m := |cores| - 1;
    if k == m {
      assert cores[k := c][..m] == cores[..m];
    } else {
      StepsLeftUpdate(cores[..m], n, k, c);
      assert cores[k := c][..m] == cores[..m][k := c];
    }
  }

  lemma StepUses(s: State, stacks: seq<nat>, e: Event)
    requires Inv(s, stacks) && GoodStacks(stacks) && Enabled(s, e)
    ensures AllStepsLeft(Next(s, e).cores, |stacks|) < AllStepsLeft(s.cores, |stacks|)
  {
    var c := Next(s, e).cores[e.k];
    assert CoreOk(s, stacks, s.cores[e.k]);
    assert Next(s, e).cores == s.cores[e.k := c];
    StepsLeftUpdate(s.cores, |stacks|, e.k, c);
  }

  /** A core that has neither claimed nor crashed can always move. */
  lemma CanMove(s: State, stacks: seq<nat>)
    requires Inv(s, stacks) && !Finished(s)
    ensures exists e :: Enabled(s, e)
  {
    var k :| 0 <= k < |s.cores| && !s.cores[k].Claimed? && !s.cores[k].Crashed?;
    assert CoreOk(s, stacks, s.cores[k]);
    assert Enabled(s, if s.cores[k].Probing? then Load(k) else Cas(k));
  }

  /** Every run finishes: until then a step is possible, and there are only so many. */
  lemma {:induction false} RunsFinish(states: seq<State>, events: seq<Event>, stacks: seq<nat>, n: nat)
    requires Run(states, events) && GoodStacks(stacks) && Init(states[0], stacks) && n <= |events|
    ensures n + AllStepsLeft(states[n].cores, |stacks|) <= AllStepsLeft(states[0].cores, |stacks|)
    ensures !Finished(states[n]) ==> exists e :: Enabled(states[n], e)
  {
    RunInv(states, events, stacks, n);
    if !Finished(states[n]) {
      CanMove(states[n], stacks);
    }
    if n > 0 {
      RunsFinish(states, events, stacks, n - 1);
      RunInv(states, events, stacks, n - 1);
      StepUses(states[n - 1], stacks, events[n - 1]);
    }
  }
}
