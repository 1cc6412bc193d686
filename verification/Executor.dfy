/**
  The sleep/notify handshake between one executor and any number of spawners and wakers
  (src/asy_nc/mod.rs), as interleaved atomic steps. Atomics are sequentially consistent and the
  queue lock is a mutex that is not reentrant.
 */
module Executor {

  /** How a queued task got into the queue. */
  datatype Origin = Spawned | Woken

  /** `asksQueue`: while being polled it wakes itself or another task of this executor. */
  datatype Task = Task(origin: Origin, asksQueue: bool)

  /** A core inside one of the `spawn_*` entry points. */
  datatype Spawner =
    | Idle
    | Pushed                     // queued, `noise` not yet swapped
    | Swapped(already: bool)     // `noise` swapped, `online` not yet read
    | Decided(needsIpi: bool)    // about to send vector 65, or not

  /** Where the executor is in `run`. */
  datatype Pc =
    | Top                        // loop head
    | Popped(task: Task)         // a task was popped; the queue guard lives to the end of the poll
    | SawNoise(task: Task)
    | Polling(task: Task)
    | Asking(task: Task)         // the polled task waits for the queue lock, in a waker
    | Empty                      // nothing popped; interrupts off from here until the halt
    | Checked                    // tickets and queue seen empty
    | Quiet                      // `noise` was false
    | Offline                    // `online` stored false
    | Halted                     // in `hlt`, interrupts on
    | Awake                      // after `hlt`, `online` still false

  /** Who holds the queue lock between two steps. A push holds it only within its own step. */
  datatype Holder = Free | ByExecutor

  datatype State = State(
    queue: seq<Task>, lock: Holder, noise: bool, online: bool, pending: bool, pc: Pc, spawners: seq<Spawner>)

  datatype Event =
    | Push(i: nat, asks: bool) | Swap(i: nat) | ReadOnline(i: nat) | Send(i: nat)
    | WakerPush(asks: bool)
    | Pop | ReadNoise | ClearNoise | PollDone | Ask | AskGranted
    | CheckQueue(ticketsEmpty: bool) | SwapNoise | GoOffline | Halt
    | Interrupt | OtherInterrupt | GoOnline | Deliver

  predicate InterruptsOn(pc: Pc) {
    !(pc.Empty? || pc.Checked? || pc.Quiet? || pc.Offline?)
  }

  /** The executor has seen its queue empty and has not come back since. */
  predicate Dozing(pc: Pc) {
    pc.Checked? || GoingToSleep(pc)
  }

  predicate GoingToSleep(pc: Pc) {
    pc.Quiet? || pc.Offline? || pc.Halted?
  }

  predicate At(s: State, i: nat) {
    i < |s.spawners|
  }

  function SetSpawner(s: State, i: nat, t: Spawner): State
    requires At(s, i)
  {
    s.(spawners := s.spawners[i := t])
  }

  predicate Enabled(s: State, e: Event) {
    match e
    case Push(i, _) => At(s, i) && s.spawners[i].Idle? && s.lock.Free?
    case Swap(i) => At(s, i) && s.spawners[i].Pushed?
    case ReadOnline(i) => At(s, i) && s.spawners[i].Swapped?
    case Send(i) => At(s, i) && s.spawners[i].Decided?
    case WakerPush(_) => s.lock.Free?
    case Pop => s.pc.Top? && s.lock.Free?
    case ReadNoise => s.pc.Popped?
    case ClearNoise => s.pc.SawNoise?
    case PollDone => s.pc.Polling? && !s.pc.task.asksQueue
    case Ask => s.pc.Polling? && s.pc.task.asksQueue
    case AskGranted => s.pc.Asking? && s.lock.Free?
    case CheckQueue(_) => s.pc.Empty? && s.lock.Free?
    case SwapNoise => s.pc.Checked?
    case GoOffline => s.pc.Quiet?
    case Halt => s.pc.Offline?
    case Interrupt => s.pc.Halted? && s.pending
    case OtherInterrupt => s.pc.Halted?
    case GoOnline => s.pc.Awake?
    case Deliver => s.pending && InterruptsOn(s.pc) && !s.pc.Halted?
  }

  function Next(s: State, e: Event): State
    requires Enabled(s, e)
  {
    match e
    case Push(i, asks) => SetSpawner(s, i, Pushed).(queue := s.queue + [Task(Spawned, asks)])
    case Swap(i) => SetSpawner(s, i, Swapped(s.noise)).(noise := true)
    case ReadOnline(i) => SetSpawner(s, i, Decided(!s.spawners[i].already || !s.online))
    case Send(i) => SetSpawner(s, i, Idle).(pending := s.pending || s.spawners[i].needsIpi)
    case WakerPush(asks) => s.(queue := s.queue + [Task(Woken, asks)])
    case Pop =>
      if s.queue == [] then s.(pc := Empty)
      else s.(queue := s.queue[1..], lock := ByExecutor, pc := Popped(s.queue[0]))
    case ReadNoise => s.(pc := if s.noise then SawNoise(s.pc.task) else Polling(s.pc.task))
    case ClearNoise => s.(noise := false, pc := Polling(s.pc.task))
    case PollDone => s.(lock := Free, pc := Top)
    case Ask => s.(pc := Asking(s.pc.task))
    case AskGranted =>
      s.(queue := s.queue + [Task(Woken, s.pc.task.asksQueue)], pc := Polling(s.pc.task.(asksQueue := false)))
    case CheckQueue(ticketsEmpty) => s.(pc := if ticketsEmpty && s.queue == [] then Checked else Top)
    case SwapNoise => s.(noise := false, pc := if s.noise then Top else Quiet)
    case GoOffline => s.(online := false, pc := Offline)
    case Halt => s.(pc := Halted)
    case Interrupt => s.(pending := false, pc := Awake)
    case OtherInterrupt => s.(pc := Awake)
    case GoOnline => s.(online := true, pc := Top)
    case Deliver => s.(pending := false)
  }

  /** A new executor with any number of cores outside the spawn calls. */
  predicate Init(s: State) {
    && s.queue == [] && s.lock.Free? && !s.noise && s.online && !s.pending && s.pc == Top
    && forall i :: 0 <= i < |s.spawners| ==> s.spawners[i] == Idle
  }

  predicate Follows(s: State, e: Event, s': State) {
    Enabled(s, e) && s' == Next(s, e)
  }

  /** The states of a run: each follows from the one before by an enabled event. */
  ghost predicate Run(states: seq<State>, events: seq<Event>) {
    && |states| == |events| + 1
    && forall k :: 0 <= k < |events| ==> Follows(states[k], events[k], states[k + 1])
  }

  /** A run with one step put in front. */
  lemma Prepend(s: State, e: Event, states: seq<State>, events: seq<Event>)
    requires Enabled(s, e) && Run(states, events) && states[0] == Next(s, e)
    ensures Run([s] + states, [e] + events)
    ensures ([s] + states)[0] == s && ([s] + states)[|[e] + events|] == states[|events|]
  {
  }

  // ---------- the lock ----------

  predicate HoldsGuard(pc: Pc) {
    pc.Popped? || pc.SawNoise? || pc.Polling? || pc.Asking?
  }

  /** Between steps the lock is held exactly while a popped task is on its way through its poll. */
  predicate LockInv(s: State) {
    && (s.lock.ByExecutor? <==> HoldsGuard(s.pc))
    && (s.pc.Asking? ==> s.pc.task.asksQueue)
  }

  lemma LockStep(s: State, e: Event)
    requires LockInv(s) && Enabled(s, e)
    ensures LockInv(Next(s, e))
  {
  }

  // ---------- when it sends, sleeps and listens ----------

  /** Where `online` is false: from its own store before the halt to the one after it. */
  predicate Away(pc: Pc) {
    pc.Offline? || pc.Halted? || pc.Awake?
  }

  lemma {:induction false} OnlineExactlyUnlessAway(states: seq<State>, events: seq<Event>, k: nat)
    requires Run(states, events) && Init(states[0]) && k <= |events|
    ensures states[k].online <==> !Away(states[k].pc)
  {
    if k > 0 {
      OnlineExactlyUnlessAway(states, events, k - 1);
      AwayStep(states[k - 1], events[k - 1], states[k]);
    }
  }

  lemma AwayStep(s: State, e: Event, s': State)
    requires Follows(s, e, s') && (s.online <==> !Away(s.pc))
    ensures s'.online <==> !Away(s'.pc)
  {
  }

  /** Step `j` of a run is the sending of an interrupt. */
  ghost predicate SendsAt(states: seq<State>, events: seq<Event>, j: nat) {
    && j < |events| < |states| && events[j].Send? && At(states[j], events[j].i)
    && states[j].spawners[events[j].i] == Decided(true)
  }

  ghost predicate TakesInterrupt(e: Event) {
    e.Interrupt? || e.Deliver?
  }

  /** Step `j` sent an interrupt that nobody had taken before step `k`. */
  ghost predicate SentSince(states: seq<State>, events: seq<Event>, j: nat, k: nat) {
    SendsAt(states, events, j) && j < k <= |events| && forall m :: j < m < k ==> !TakesInterrupt(events[m])
  }

  /** The interrupt is pending exactly if one was sent and not taken since. */
  lemma {:induction false} PendingIffSent(states: seq<State>, events: seq<Event>, k: nat)
    requires Run(states, events) && Init(states[0]) && k <= |events|
    ensures states[k].pending <==> exists j :: SentSince(states, events, j, k)
  {
    if k > 0 {
      PendingIffSent(states, events, k - 1);
      var s, e := states[k - 1], events[k - 1];
      assert Follows(s, e, states[k - 1 + 1]);
      if SendsAt(states, events, k - 1) {
        assert SentSince(states, events, k - 1, k);
      } else if states[k].pending {
        PendingStep(s, e, states[k]);
        var j :| SentSince(states, events, j, k - 1);
        assert SentSince(states, events, j, k);
      } else if j :| SentSince(states, events, j, k) {
        PendingStep(s, e, states[k]);
        assert SentSince(states, events, j, k - 1);
      }
    }
  }

  lemma PendingStep(s: State, e: Event, s': State)
    requires Follows(s, e, s')
    ensures TakesInterrupt(e) ==> !s'.pending
    ensures !TakesInterrupt(e) ==> s'.pending == (s.pending || (e.Send? && s.spawners[e.i] == Decided(true)))
  {
  }

  /** An event that is not one of spawner `i`. */
  predicate ByOther(e: Event, i: nat) {
    e.Push? || e.Swap? || e.ReadOnline? || e.Send? ==> e.i != i
  }

  /** No event of spawner `i` from step `j` up to step `k`. */
  ghost predicate LeftAlone(events: seq<Event>, i: nat, j: nat, k: nat)
    requires k <= |events|
  {
    forall m :: j <= m < k ==> ByOther(events[m], i)
  }

  lemma OtherStep(s: State, e: Event, s': State, i: nat)
    requires Follows(s, e, s') && At(s, i) && ByOther(e, i)
    ensures At(s', i) && s'.spawners[i] == s.spawners[i]
  {
  }

  lemma {:induction false} SpawnerKept(states: seq<State>, events: seq<Event>, i: nat, j: nat, k: nat)
    requires Run(states, events) && j <= k <= |events| && At(states[j], i) && LeftAlone(events, i, j, k)
    ensures At(states[k], i) && states[k].spawners[i] == states[j].spawners[i]
  {
    if j < k {
      SpawnerKept(states, events, i, j, k - 1);
      OtherStep(states[k - 1], events[k - 1], states[k], i);
    }
  }

  lemma SwapAndLook(s: State, e: Event, s': State)
    requires Follows(s, e, s') && (e.Swap? || e.ReadOnline?)
    ensures At(s, e.i) && At(s', e.i)
    ensures e.Swap? ==> s'.spawners[e.i] == Swapped(s.noise) && s'.noise
    ensures e.ReadOnline? ==> s.spawners[e.i].Swapped?
    ensures e.ReadOnline? ==> s'.spawners[e.i] == Decided(!s.spawners[e.i].already || !s.online)
  {
  }

  /**
    When a spawner sends: in every run, if and only if it found `noise` down at its swap or the
    executor offline at its look, whatever happened in between.
   */
  lemma SendsIff(states: seq<State>, events: seq<Event>, i: nat, swap: nat, look: nat, send: nat)
    requires Run(states, events) && swap < look < send < |events|
    requires events[swap] == Swap(i) && events[look] == ReadOnline(i) && events[send] == Send(i)
    requires LeftAlone(events, i, swap + 1, look) && LeftAlone(events, i, look + 1, send)
    ensures SendsAt(states, events, send) <==> !states[swap].noise || !states[look].online
    ensures states[swap + 1].noise
  {
    SwapAndLook(states[swap], events[swap], states[swap + 1]);
    SpawnerKept(states, events, i, swap + 1, look);
    SwapAndLook(states[look], events[look], states[look + 1]);
    SpawnerKept(states, events, i, look + 1, send);
  }

  /** Step `j` is the executor finding neither tickets nor tasks. */
  ghost predicate SawIdle(states: seq<State>, events: seq<Event>, j: nat) {
    j < |events| < |states| && events[j] == CheckQueue(true) && states[j].queue == []
  }

  /** Step `j` is the executor finding `noise` down, which it leaves so. */
  ghost predicate SawQuiet(states: seq<State>, events: seq<Event>, j: nat) {
    j < |events| < |states| && events[j] == SwapNoise && !states[j].noise && !states[j + 1].noise
  }

  lemma DozeStart(s: State, e: Event, s': State)
    requires Follows(s, e, s') && Dozing(s'.pc) && !Dozing(s.pc)
    ensures e == CheckQueue(true) && s.queue == [] && s'.pc.Checked?
  {
  }

  lemma SleepStart(s: State, e: Event, s': State)
    requires Follows(s, e, s') && GoingToSleep(s'.pc) && !GoingToSleep(s.pc)
    ensures s.pc.Checked? && e == SwapNoise && !s.noise && !s'.noise
  {
  }

  /**
    It goes to sleep only after finding no tickets and no tasks and then `noise` down; from the
    first of these on it has not been up again.
   */
  lemma {:induction false} SleepsOnlyWhenIdle(states: seq<State>, events: seq<Event>, k: nat) returns (idle: nat, quiet: nat)
    requires Run(states, events) && Init(states[0]) && k <= |events| && Dozing(states[k].pc)
    ensures idle < k && SawIdle(states, events, idle) && forall m :: idle < m <= k ==> Dozing(states[m].pc)
    ensures GoingToSleep(states[k].pc) ==> idle < quiet < k && SawQuiet(states, events, quiet)
  {
    assert Follows(states[k - 1], events[k - 1], states[k - 1 + 1]);
    idle, quiet := k - 1, k - 1;
    if Dozing(states[k - 1].pc) {
      idle, quiet := SleepsOnlyWhenIdle(states, events, k - 1);
      if GoingToSleep(states[k].pc) && !GoingToSleep(states[k - 1].pc) {
        SleepStart(states[k - 1], events[k - 1], states[k]);
        quiet := k - 1;
      }
    } else {
      DozeStart(states[k - 1], events[k - 1], states[k]);
    }
  }

  /** Every poll begins with `noise` down, so the first spawn during it sends. */
  lemma PollBeginsQuiet(s: State, e: Event, s': State)
    requires LockInv(s) && Follows(s, e, s') && s'.pc.Polling? && !s.pc.Polling?
    ensures !s'.noise
  {
  }

  // ---------- first in, first out ----------

  /** What an event puts into the queue, if it is a push. */
  function PushedTask(e: Event): seq<Task> {
    match e
    case Push(_, asks) => [Task(Spawned, asks)]
    case WakerPush(asks) => [Task(Woken, asks)]
    case _ => []
  }

  /** The tasks pushed by the first `k` events, in order. */
  function Pushes(events: seq<Event>, k: nat): seq<Task>
    requires k <= |events|
  {
    if k == 0 then [] else Pushes(events, k - 1) + PushedTask(events[k - 1])
  }

  /** What the executor takes up in a step: a pop after which it holds a task. */
  function PoppedTask(e: Event, s': State): seq<Task> {
    if e.Pop? && s'.pc.Popped? then [s'.pc.task] else []
  }

  /** What ends its poll in a step. */
  function PolledTask(s: State, e: Event): seq<Task> {
    if e.PollDone? then InHand(s.pc) else []
  }

  /** What is being polled, or about to be. */
  function InHand(pc: Pc): seq<Task> {
    if HoldsGuard(pc) then [pc.task] else []
  }

  /** The tasks taken up in the first `k` steps, in order. */
  function Pops(states: seq<State>, events: seq<Event>, k: nat): seq<Task>
    requires k <= |events| < |states|
  {
    if k == 0 then [] else Pops(states, events, k - 1) + PoppedTask(events[k - 1], states[k])
  }

  /** The tasks whose polls have ended, in order. */
  function Polls(states: seq<State>, events: seq<Event>, k: nat): seq<Task>
    requires k <= |events| < |states|
  {
    if k == 0 then [] else Polls(states, events, k - 1) + PolledTask(states[k - 1], events[k - 1])
  }

  lemma QueueStep(s: State, e: Event, s': State)
    requires LockInv(s) && Follows(s, e, s')
    ensures LockInv(s')
    ensures s.queue + PushedTask(e) == PoppedTask(e, s') + s'.queue
    ensures InHand(s.pc) + PoppedTask(e, s') == PolledTask(s, e) + InHand(s'.pc)
  {
  }

  lemma Regroup(x: seq<Task>, a: seq<Task>, b: seq<Task>, c: seq<Task>, d: seq<Task>)
    requires a + b == c + d
    ensures (x + a) + b == (x + c) + d
  {
    assert (x + a) + b == x + (a + b);
    assert (x + c) + d == x + (c + d);
  }

  /** The pushed tasks in order: those whose polls have ended, the one in hand, those in the queue. */
  predicate InOrder(pushed: seq<Task>, popped: seq<Task>, polled: seq<Task>, s: State) {
    LockInv(s) && pushed == popped + s.queue && popped == polled + InHand(s.pc)
  }

  lemma InOrderStep(pushed: seq<Task>, popped: seq<Task>, polled: seq<Task>, s: State, e: Event, s': State)
    requires InOrder(pushed, popped, polled, s) && Follows(s, e, s')
    ensures InOrder(pushed + PushedTask(e), popped + PoppedTask(e, s'), polled + PolledTask(s, e), s')
  {
    QueueStep(s, e, s');
    Regroup(popped, s.queue, PushedTask(e), PoppedTask(e, s'), s'.queue);
    Regroup(polled, InHand(s.pc), PoppedTask(e, s'), PolledTask(s, e), InHand(s'.pc));
  }

  /**
    No task is lost, doubled or overtaken: the tasks pushed so far are, in the order in which they
    were pushed, those whose polls have ended, the one in hand, and those in the queue.
   */
  lemma {:induction false} FirstInFirstOut(states: seq<State>, events: seq<Event>, k: nat)
    requires Run(states, events) && Init(states[0]) && k <= |events|
    ensures InOrder(Pushes(events, k), Pops(states, events, k), Polls(states, events, k), states[k])
  {
    if k > 0 {
      FirstInFirstOut(states, events, k - 1);
      InOrderStep(Pushes(events, k - 1), Pops(states, events, k - 1), Polls(states, events, k - 1),
        states[k - 1], events[k - 1], states[k]);
    }
  }

  lemma {:induction false} PushesGrow(events: seq<Event>, j: nat, k: nat)
    requires j <= k <= |events|
    ensures Pushes(events, j) <= Pushes(events, k)
  {
    if j < k {
      PushesGrow(events, j, k - 1);
    }
  }

  /** The `n`-th task, counted through those done, the one in hand and the queue. */
  predicate TaskAt(task: Task, n: nat, done: seq<Task>, hand: seq<Task>, queue: seq<Task>) {
    if n < |done| then done[n] == task
    else if n < |done| + |hand| then hand[n - |done|] == task
    else n < |done| + |hand| + |queue| && queue[n - |done| - |hand|] == task
  }

  lemma FoundAt(all: seq<Task>, n: nat, popped: seq<Task>, done: seq<Task>, hand: seq<Task>, queue: seq<Task>)
    requires all == popped + queue && popped == done + hand && n < |all|
    ensures TaskAt(all[n], n, done, hand, queue)
  {
  }

  lemma PushAt(events: seq<Event>, j: nat, k: nat)
    requires j < k <= |events| && PushedTask(events[j]) != []
    ensures |Pushes(events, j)| < |Pushes(events, k)|
    ensures Pushes(events, k)[|Pushes(events, j)|] == PushedTask(events[j])[0]
  {
    PushesGrow(events, j + 1, k);
    assert Pushes(events, j + 1)[|Pushes(events, j)|] == Pushes(events, k)[|Pushes(events, j)|];
  }

  /** Where a pushed task is later: polled, in hand or queued, behind exactly the tasks pushed before it. */
  lemma PushedTaskIsSomewhere(states: seq<State>, events: seq<Event>, j: nat, k: nat)
    requires Run(states, events) && Init(states[0]) && j < k <= |events| && PushedTask(events[j]) != []
    ensures TaskAt(PushedTask(events[j])[0], |Pushes(events, j)|,
              Polls(states, events, k), InHand(states[k].pc), states[k].queue)
  {
    PushAt(events, j, k);
    FirstInFirstOut(states, events, k);
    FoundAt(Pushes(events, k), |Pushes(events, j)|, Pops(states, events, k),
      Polls(states, events, k), InHand(states[k].pc), states[k].queue);
  }

  // ---------- no lost wakeup ----------

  /** A spawner that is still going to send vector 65. */
  predicate Bound(s: State, i: nat) {
    (Arriving(s, i) && !s.noise) || Committed(s, i)
  }

  ghost predicate Notified(s: State) {
    s.pending || exists i :: Bound(s, i)
  }

  predicate Committed(s: State, i: nat) {
    At(s, i) && (s.spawners[i] == Swapped(false) || s.spawners[i] == Decided(true))
  }

  predicate Arriving(s: State, i: nat) {
    At(s, i) && s.spawners[i].Pushed?
  }

  ghost predicate SpawnedTaskQueued(s: State) {
    exists q :: q in s.queue && q.origin.Spawned?
  }

  /** What every step keeps, from the moment the executor has seen its queue empty. */
  ghost predicate Inv(s: State) {
    && LockInv(s)
    && (Dozing(s.pc) && SpawnedTaskQueued(s) ==> s.noise || exists i :: Arriving(s, i))
    && (GoingToSleep(s.pc) && s.noise ==> s.pending || exists i :: Committed(s, i))
  }

  lemma InitInv(s: State)
    requires Init(s)
    ensures Inv(s)
  {
  }

  lemma SpawnerStepKeeps(s: State, i: nat, t: Spawner, j: nat)
    requires At(s, i) && j != i
    ensures Arriving(s, j) ==> Arriving(SetSpawner(s, i, t), j)
    ensures Committed(s, j) ==> Committed(SetSpawner(s, i, t), j)
  {
  }

  lemma PushKeeps(s: State, i: nat, asks: bool)
    requires Inv(s) && Enabled(s, Push(i, asks))
    ensures Inv(Next(s, Push(i, asks)))
  {
    var s' := Next(s, Push(i, asks));
    assert Arriving(s', i);
    if j :| Committed(s, j) {
      SpawnerStepKeeps(s, i, Pushed, j);
      assert Committed(s', j);
    }
  }

  lemma SwapKeeps(s: State, i: nat)
    requires Inv(s) && Enabled(s, Swap(i))
    ensures Inv(Next(s, Swap(i)))
  {
    var s' := Next(s, Swap(i));
    if !s.noise {
      assert Committed(s', i);
    } else if j :| Committed(s, j) {
      SpawnerStepKeeps(s, i, Swapped(s.noise), j);
      assert Committed(s', j);
    }
  }

  lemma ReadOnlineKeeps(s: State, i: nat)
    requires Inv(s) && Enabled(s, ReadOnline(i))
    ensures Inv(Next(s, ReadOnline(i)))
  {
    var s' := Next(s, ReadOnline(i));
    var t := s'.spawners[i];
    assert SpawnedTaskQueued(s') == SpawnedTaskQueued(s);
    if j :| Arriving(s, j) {
      SpawnerStepKeeps(s, i, t, j);
      assert Arriving(s', j);
    }
    if j :| Committed(s, j) {
      if j != i {
        SpawnerStepKeeps(s, i, t, j);
      }
      assert Committed(s', j);
    }
  }

  lemma SendKeeps(s: State, i: nat)
    requires Inv(s) && Enabled(s, Send(i))
    ensures Inv(Next(s, Send(i)))
  {
    var s' := Next(s, Send(i));
    assert SpawnedTaskQueued(s') == SpawnedTaskQueued(s);
    if j :| Arriving(s, j) {
      SpawnerStepKeeps(s, i, Idle, j);
      assert Arriving(s', j);
    }
    if !s'.pending {
      if j :| Committed(s, j) {
        SpawnerStepKeeps(s, i, Idle, j);
        assert Committed(s', j);
      }
    }
  }

  /** The other steps leave the spawners alone. */
  lemma SameSpawners(s: State, s': State)
    requires s.spawners == s'.spawners
    ensures (exists i :: Arriving(s, i)) ==> exists i :: Arriving(s', i)
    ensures (exists i :: Committed(s, i)) ==> exists i :: Committed(s', i)
  {
    if i :| Arriving(s, i) {
      assert Arriving(s', i);
    }
    if i :| Committed(s, i) {
      assert Committed(s', i);
    }
  }

  /** A waker's push adds no spawned task. */
  lemma WakerPushKeeps(s: State, asks: bool)
    requires Inv(s) && Enabled(s, WakerPush(asks))
    ensures Inv(Next(s, WakerPush(asks)))
  {
    var s' := Next(s, WakerPush(asks));
    SameSpawners(s, s');
    if Dozing(s.pc) && SpawnedTaskQueued(s') {
      var q :| q in s'.queue && q.origin.Spawned?;
      assert q in s.queue;
    }
  }

  lemma StepInv(s: State, e: Event)
    requires Inv(s) && Enabled(s, e)
    ensures Inv(Next(s, e))
  {
    LockStep(s, e);
    if e.Push? {
      PushKeeps(s, e.i, e.asks);
    } else if e.Swap? {
      SwapKeeps(s, e.i);
    } else if e.ReadOnline? {
      ReadOnlineKeeps(s, e.i);
    } else if e.Send? {
      SendKeeps(s, e.i);
    } else if e.WakerPush? {
      WakerPushKeeps(s, e.asks);
    } else {
      SameSpawners(s, Next(s, e));
    }
  }

  lemma {:induction false} RunInv(states: seq<State>, events: seq<Event>, k: nat)
    requires Run(states, events) && Inv(states[0]) && k <= |events|
    ensures Inv(states[k])
  {
    if k > 0 {
      RunInv(states, events, k - 1);
      assert Follows(states[k - 1], events[k - 1], states[k - 1 + 1]);
      StepInv(states[k - 1], events[k - 1]);
    }
  }

  lemma HaltedNotified(s: State)
    requires Inv(s) && s.pc.Halted? && SpawnedTaskQueued(s)
    ensures Notified(s)
  {
    if s.noise {
      if i :| Committed(s, i) {
        assert Bound(s, i);
      }
    } else {
      var i :| Arriving(s, i);
      assert Bound(s, i);
    }
  }

  /**
    Whenever the executor is halted while a spawned task is queued, vector 65 is pending or some
    spawner in flight is still bound to send it, even with wakers pushing in between.
   */
  lemma NoLostWakeup(states: seq<State>, events: seq<Event>, k: nat)
    requires Run(states, events) && Init(states[0]) && k <= |events|
    requires states[k].pc.Halted? && SpawnedTaskQueued(states[k])
    ensures Notified(states[k])
  {
    InitInv(states[0]);
    RunInv(states, events, k);
    HaltedNotified(states[k]);
  }

  /** A spawner that will not send any more. */
  predicate Resting(t: Spawner) {
    t.Idle? || t == Decided(false)
  }

  predicate AllResting(s: State) {
    forall i :: 0 <= i < |s.spawners| ==> Resting(s.spawners[i])
  }

  /** Hence once no spawner is going to send any more the interrupt is there. */
  lemma SettledMeansPending(states: seq<State>, events: seq<Event>, k: nat)
    requires Run(states, events) && Init(states[0]) && k <= |events|
    requires states[k].pc.Halted? && SpawnedTaskQueued(states[k]) && AllResting(states[k])
    ensures states[k].pending
  {
    NoLostWakeup(states, events, k);
  }

  // ---------- what a notified executor does ----------

  /** The next step of the executor itself. */
  function OwnStep(pc: Pc): Event {
    match pc
    case Top => Pop
    case Popped(_) => ReadNoise
    case SawNoise(_) => ClearNoise
    case Polling(task) => if task.asksQueue then Ask else PollDone
    case Asking(_) => AskGranted
    case Empty => CheckQueue(true)
    case Checked => SwapNoise
    case Quiet => GoOffline
    case Offline => Halt
    case Halted => Interrupt
    case Awake => GoOnline
  }

  /** It does not sleep on without an interrupt, and its poll will end. */
  predicate WillLook(s: State) {
    && LockInv(s)
    && (HoldsGuard(s.pc) ==> !s.pc.task.asksQueue)
    && (Dozing(s.pc) ==> s.pending || (s.pc.Checked? && s.noise))
  }

  function StepsToPop(pc: Pc): nat {
    match pc
    case Top => 0
    case Popped(_) => 3
    case SawNoise(_) => 2
    case Polling(_) => 1
    case Asking(_) => 4
    case Empty => 1
    case Checked => 6
    case Quiet => 5
    case Offline => 4
    case Halted => 3
    case Awake => 2
  }

  lemma LookStep(s: State, s': State)
    requires WillLook(s) && s.queue != [] && !s.pc.Top?
    requires s' == if Enabled(s, OwnStep(s.pc)) then Next(s, OwnStep(s.pc)) else s
    ensures Enabled(s, OwnStep(s.pc)) && WillLook(s') && s'.queue == s.queue && StepsToPop(s'.pc) < StepsToPop(s.pc)
  {
  }

  /** Any interrupt makes a halted executor look again. */
  lemma AnyInterruptWakes(s: State, e: Event, s': State)
    requires LockInv(s) && s.pc.Halted? && Follows(s, e, s') && (e.Interrupt? || e.OtherInterrupt?)
    ensures WillLook(s')
  {
  }

  /**
    A task at the head of the queue is popped by the executor's own next steps, from every state in
    which the executor is up or the interrupt is pending. With `NoLostWakeup` that makes the wakeup
    of a spawned task take effect.
   */
  lemma {:induction false} HeadGetsPopped(s: State) returns (states: seq<State>, events: seq<Event>)
    requires WillLook(s) && s.queue != []
    ensures Run(states, events) && states[0] == s && |events| <= StepsToPop(s.pc) + 1
    ensures forall k :: 0 <= k < |events| ==> events[k] == OwnStep(states[k].pc)
    ensures states[|events|].pc == Popped(s.queue[0]) && states[|events|].queue == s.queue[1..]
    decreases StepsToPop(s.pc)
  {
    var e := OwnStep(s.pc);
    if s.pc.Top? {
      return [s, Next(s, e)], [e];
    }
    LookStep(s, if Enabled(s, e) then Next(s, e) else s);
    var rest, more := HeadGetsPopped(Next(s, e));
    Prepend(s, e, rest, more);
    states, events := [s] + rest, [e] + more;
  }

  /** Own steps to the halt from a state with nothing to do; with `noise` up it goes round once more. */
  function StepsToHalt(pc: Pc, noise: bool): nat {
    var again := if noise then 3 else 0;
    match pc
    case Top => 5 + again
    case Popped(_) => 11
    case SawNoise(_) => 10
    case Polling(_) => 9
    case Asking(_) => 12
    case Empty => 4 + again
    case Checked => 3 + again
    case Quiet => 2
    case Offline => 1
    case Halted => 0
    case Awake => 9
  }

  lemma IdleStep(s: State, s': State)
    requires LockInv(s) && s.queue == [] && (HoldsGuard(s.pc) ==> !s.pc.task.asksQueue) && !s.pc.Halted?
    requires s' == if Enabled(s, OwnStep(s.pc)) then Next(s, OwnStep(s.pc)) else s
    ensures Enabled(s, OwnStep(s.pc)) && LockInv(s') && s'.queue == [] && (HoldsGuard(s'.pc) ==> !s'.pc.task.asksQueue)
    ensures StepsToHalt(s'.pc, s'.noise) < StepsToHalt(s.pc, s.noise)
  {
  }

  /** With no task and no ticket the executor halts, after a bounded number of its own steps. */
  lemma {:induction false} IdleGetsToSleep(s: State) returns (states: seq<State>, events: seq<Event>)
    requires LockInv(s) && s.queue == [] && (HoldsGuard(s.pc) ==> !s.pc.task.asksQueue)
    ensures Run(states, events) && states[0] == s && |events| <= StepsToHalt(s.pc, s.noise)
    ensures forall k :: 0 <= k < |events| ==> events[k] == OwnStep(states[k].pc)
    ensures states[|events|].pc.Halted?
    decreases StepsToHalt(s.pc, s.noise)
  {
    if s.pc.Halted? {
      return [s], [];
    }
    var e := OwnStep(s.pc);
    IdleStep(s, if Enabled(s, e) then Next(s, e) else s);
    var rest, more := IdleGetsToSleep(Next(s, e));
    Prepend(s, e, rest, more);
    states, events := [s] + rest, [e] + more;
  }

  lemma CommittedStep(s: State, e: Event, s': State, i: nat)
    requires Committed(s, i) && Follows(s, e, s')
    ensures e == Send(i) ==> s'.pending
    ensures e != Send(i) ==> Committed(s', i)
  {
  }

  lemma {:induction false} StaysCommitted(states: seq<State>, events: seq<Event>, k: nat, m: nat, i: nat)
    requires Run(states, events) && k <= m <= |events| && Committed(states[k], i)
    requires forall j :: k <= j < m ==> events[j] != Send(i)
    ensures Committed(states[m], i)
  {
    if k < m {
      StaysCommitted(states, events, k, m - 1, i);
      CommittedStep(states[m - 1], events[m - 1], states[m], i);
    }
  }

  /** In every interleaving a committed spawner stays so until its own send makes the interrupt pending. */
  lemma CommittedSends(states: seq<State>, events: seq<Event>, k: nat, m: nat, i: nat)
    requires Run(states, events) && k <= m < |events| && Committed(states[k], i)
    requires forall j :: k <= j < m ==> events[j] != Send(i)
    ensures Committed(states[m], i)
    ensures events[m] == Send(i) ==> states[m + 1].pending
  {
    StaysCommitted(states, events, k, m, i);
    CommittedStep(states[m], events[m], states[m + 1], i);
  }

  // ---------- wakers ----------

  /** A waker that pushes while the executor is on its way to sleep. */
  predicate LatePush(s: State, e: Event) {
    e.WakerPush? && Dozing(s.pc)
  }

  /** Whatever the executor is going to sleep on was spawned. */
  predicate SleepsOnSpawned(s: State) {
    Dozing(s.pc) ==> forall q :: q in s.queue ==> q.origin.Spawned?
  }

  lemma SpawnedStep(s: State, e: Event, s': State)
    requires SleepsOnSpawned(s) && Follows(s, e, s') && !LatePush(s, e)
    ensures SleepsOnSpawned(s')
  {
  }

  lemma {:induction false} StaysSpawned(states: seq<State>, events: seq<Event>, j: nat, k: nat)
    requires Run(states, events) && j <= k <= |events| && !Dozing(states[j].pc)
    requires forall m :: j <= m < k ==> !LatePush(states[m], events[m])
    ensures SleepsOnSpawned(states[k])
  {
    if j < k {
      StaysSpawned(states, events, j, k - 1);
      SpawnedStep(states[k - 1], events[k - 1], states[k]);
    }
  }

  /**
    No wakeup at all is lost without a late push since the executor was last up: halted with any
    task queued then means notified, whatever happened before.
   */
  lemma NothingLostWithoutLatePush(states: seq<State>, events: seq<Event>, j: nat, k: nat)
    requires Run(states, events) && Init(states[0]) && j <= k <= |events| && !Dozing(states[j].pc)
    requires forall m :: j <= m < k ==> !LatePush(states[m], events[m])
    requires states[k].pc.Halted? && states[k].queue != []
    ensures Notified(states[k])
  {
    StaysSpawned(states, events, j, k);
    assert states[k].queue[0] in states[k].queue;
    NoLostWakeup(states, events, k);
  }

  /** A task is queued, the executor sleeps or is going to, and nothing under way will wake it. */
  predicate Doomed(s: State) {
    Dozing(s.pc) && s.queue != [] && !s.noise && !s.pending && AllResting(s)
  }

  /** Nobody spawns or wakes, and no unrelated interrupt comes; spawners in flight go on. */
  predicate Silent(e: Event) {
    !e.Push? && !e.WakerPush? && !e.OtherInterrupt?
  }

  lemma DoomedStep(s: State, e: Event, s': State)
    requires Doomed(s) && Follows(s, e, s') && Silent(e)
    ensures Doomed(s')
  {
  }

  lemma {:induction false} DoomedStays(states: seq<State>, events: seq<Event>, k: nat)
    requires Run(states, events) && Doomed(states[0]) && k <= |events|
    requires forall j :: 0 <= j < |events| ==> Silent(events[j])
    ensures Doomed(states[k]) && !Notified(states[k])
  {
    if k > 0 {
      DoomedStays(states, events, k - 1);
      DoomedStep(states[k - 1], events[k - 1], states[k]);
    }
  }

  /** A task is lost: the executor is halted on it, and neither an interrupt nor a spawner will tell it. */
  predicate Lost(s: State) {
    s.pc.Halted? && s.queue != [] && !s.pending && AllResting(s)
  }

  /** A run from `s` in which nobody else pushes, and which ends with a task lost. */
  ghost predicate LosesBy(s: State, states: seq<State>, events: seq<Event>) {
    && Run(states, events) && states[0] == s
    && (forall j :: 0 <= j < |events| ==> Silent(events[j]))
    && Lost(states[|events|])
  }

  ghost predicate CanLose(s: State) {
    exists states, events :: LosesBy(s, states, events)
  }

  /** A losing run, with one silent step put in front. */
  lemma LosePrepend(s: State, e: Event, states: seq<State>, events: seq<Event>)
    requires Enabled(s, e) && Silent(e) && LosesBy(Next(s, e), states, events)
    ensures LosesBy(s, [s] + states, [e] + events)
  {
    Prepend(s, e, states, events);
  }

  /** The executor's own steps from a doomed state to its halt. */
  lemma {:induction false} DoomedHalts(s: State) returns (states: seq<State>, events: seq<Event>)
    requires Doomed(s)
    ensures LosesBy(s, states, events)
    decreases if s.pc.Checked? then 3 else if s.pc.Quiet? then 2 else if s.pc.Offline? then 1 else 0
  {
    if s.pc.Halted? {
      return [s], [];
    }
    var e := if s.pc.Checked? then SwapNoise else if s.pc.Quiet? then GoOffline else Halt;
    var rest, more := DoomedHalts(Next(s, e));
    LosePrepend(s, e, rest, more);
    states, events := [s] + rest, [e] + more;
  }

  /** A spawner that need not send: at rest, or about to find the executor online and told before. */
  predicate NeedNotSend(s: State, t: Spawner) {
    Resting(t) || (t == Swapped(true) && s.online)
  }

  /** Nothing under way is bound to wake the executor. */
  predicate Unhelped(s: State) {
    !s.noise && !s.pending && forall i :: 0 <= i < |s.spawners| ==> NeedNotSend(s, s.spawners[i])
  }

  /** First the spawners that need not send read `online`, then the executor goes on to its halt. */
  lemma {:induction false} UnhelpedLoses(s: State, n: nat) returns (states: seq<State>, events: seq<Event>)
    requires Dozing(s.pc) && s.queue != [] && Unhelped(s) && n <= |s.spawners|
    requires forall i :: n <= i < |s.spawners| ==> Resting(s.spawners[i])
    ensures LosesBy(s, states, events)
    decreases n
  {
    if n == 0 {
      states, events := DoomedHalts(s);
    } else if Resting(s.spawners[n - 1]) {
      states, events := UnhelpedLoses(s, n - 1);
    } else {
      var e := ReadOnline(n - 1);
      var rest, more := UnhelpedLoses(Next(s, e), n - 1);
      LosePrepend(s, e, rest, more);
      states, events := [s] + rest, [e] + more;
    }
  }

  /** As long as the executor is up, or nothing is queued, or something is bound to wake it. */
  predicate Rousable(s: State) {
    Dozing(s.pc) && s.queue != [] ==> !Unhelped(s)
  }

  lemma UnhelpedWitness(s: State) returns (i: nat)
    requires !Unhelped(s) && !s.noise && !s.pending
    ensures i < |s.spawners| && !NeedNotSend(s, s.spawners[i])
  {
    i :| 0 <= i < |s.spawners| && !NeedNotSend(s, s.spawners[i]);
  }

  lemma RousableStep(s: State, e: Event, s': State)
    requires Rousable(s) && Follows(s, e, s') && Silent(e)
    ensures Rousable(s')
  {
    if Dozing(s'.pc) && s'.queue != [] {
      assert Dozing(s.pc) && s.queue != [];
      if !s.noise && !s.pending {
        var i := UnhelpedWitness(s);
        assert s'.noise || s'.pending || !NeedNotSend(s', s'.spawners[i]);
      }
    }
  }

  lemma {:induction false} StaysRousable(states: seq<State>, events: seq<Event>, k: nat)
    requires Run(states, events) && Rousable(states[0]) && k <= |events|
    requires forall j :: 0 <= j < |events| ==> Silent(events[j])
    ensures Rousable(states[k])
  {
    if k > 0 {
      StaysRousable(states, events, k - 1);
      RousableStep(states[k - 1], events[k - 1], states[k]);
    }
  }

  lemma RousableNotLost(s: State)
    requires Inv(s) && Rousable(s)
    ensures !Lost(s)
  {
  }

  lemma RousableNeverLoses(s: State, states: seq<State>, events: seq<Event>)
    requires Inv(s) && Rousable(s)
    ensures !LosesBy(s, states, events)
  {
    if LosesBy(s, states, events) {
      StaysRousable(states, events, |events|);
      RunInv(states, events, |events|);
      RousableNotLost(states[|events|]);
    }
  }

  /**
    When a waker's push can be lost: in every reachable state where it can push, exactly when the
    executor has already seen its queue empty, neither `noise` nor the interrupt is up, and no
    spawner in flight is bound to send.
   */
  lemma WakerPushLostIff(states: seq<State>, events: seq<Event>, k: nat, asks: bool)
    requires Run(states, events) && Init(states[0]) && k <= |events|
    requires Enabled(states[k], WakerPush(asks))
    ensures CanLose(Next(states[k], WakerPush(asks))) <==> Dozing(states[k].pc) && Unhelped(states[k])
  {
    var s, s' := states[k], Next(states[k], WakerPush(asks));
    assert Unhelped(s) == Unhelped(s');
    if Dozing(s.pc) && Unhelped(s) {
      var run, steps := UnhelpedLoses(s', |s'.spawners|);
    } else {
      InitInv(states[0]);
      RunInv(states, events, k);
      StepInv(s, WakerPush(asks));
      forall run, steps ensures !LosesBy(s', run, steps) {
        RousableNeverLoses(s', run, steps);
      }
    }
  }

  /** And a lost task stays lost for as long as nobody pushes and no other interrupt comes. */
  lemma LostIsDoomed(s: State)
    requires Inv(s) && Lost(s)
    ensures Doomed(s)
  {
  }

  /** Such states are reached: a run that ends with a task lost. */
  lemma WokenTaskCanBeLost() returns (states: seq<State>, events: seq<Event>)
    ensures Run(states, events) && Init(states[0]) && Lost(states[|events|])
  {
    var s0 := State([], Free, false, true, false, Top, []);
    var s1 := Next(s0, Pop);
    var s2 := Next(s1, CheckQueue(true));
    var s3 := Next(s2, WakerPush(false));
    var rest, more := DoomedHalts(s3);
    Prepend(s2, WakerPush(false), rest, more);
    Prepend(s1, CheckQueue(true), [s2] + rest, [WakerPush(false)] + more);
    states, events := [s1] + ([s2] + rest), [CheckQueue(true)] + ([WakerPush(false)] + more);
    Prepend(s0, Pop, states, events);
    states, events := [s0] + states, [Pop] + events;
  }

  // ---------- a task that asks for its own queue ----------

  /** In the poll of a task that will ask for the queue lock, with the executor holding it. */
  predicate Trapped(s: State) {
    s.lock.ByExecutor? && HoldsGuard(s.pc) && s.pc.task.asksQueue
  }

  /** Nothing about the poll or the queue has changed. */
  predicate StillTrapped(s: State, s': State)
    requires Trapped(s)
  {
    Trapped(s') && s'.pc.task == s.pc.task && s'.queue == s.queue
  }

  ghost predicate NobodyCanPush(s: State) {
    forall e :: Enabled(s, e) ==> !e.Push? && !e.WakerPush? && !e.Pop? && !e.AskGranted?
  }

  lemma TrappedBlocks(s: State)
    requires Trapped(s)
    ensures NobodyCanPush(s)
  {
  }

  lemma TrappedStep(s: State, e: Event, s': State)
    requires Trapped(s) && Follows(s, e, s')
    ensures StillTrapped(s, s')
  {
  }

  lemma {:induction false} StaysTrapped(states: seq<State>, events: seq<Event>, k: nat)
    requires Run(states, events) && Trapped(states[0]) && k <= |events|
    ensures StillTrapped(states[0], states[k])
  {
    if k > 0 {
      StaysTrapped(states, events, k - 1);
      TrappedStep(states[k - 1], events[k - 1], states[k]);
    }
  }

  /**
    From then on, in every interleaving, its poll neither ends nor gets the lock, nothing
    is popped, and no spawner and no waker can push: the queue never changes again.
   */
  lemma AskingBlocksEveryone(states: seq<State>, events: seq<Event>, k: nat)
    requires Run(states, events) && Trapped(states[0]) && k <= |events|
    ensures StillTrapped(states[0], states[k])
    ensures NobodyCanPush(states[k])
  {
    StaysTrapped(states, events, k);
    TrappedBlocks(states[k]);
  }

  /** Such a task gets there as soon as it is spawned and popped. */
  lemma AskingTaskGetsPolled() returns (states: seq<State>, events: seq<Event>)
    ensures Run(states, events) && Init(states[0]) && Trapped(states[|events|])
  {
    var s0 := State([], Free, false, true, false, Top, [Idle]);
    var s1 := Next(s0, Push(0, true));
    var s2 := Next(s1, Pop);
    states, events := [s0, s1, s2], [Push(0, true), Pop];
  }

  /** A run from `s` that brings the executor back to its loop head. */
  ghost predicate ReturnsBy(s: State, states: seq<State>, events: seq<Event>) {
    Run(states, events) && states[0] == s && states[|events|].pc.Top?
  }

  ghost predicate CanReturn(s: State) {
    exists states, events :: ReturnsBy(s, states, events)
  }

  /** The steps left in a poll whose task does not ask. */
  function PollSteps(pc: Pc): nat {
    if pc.Popped? then 3 else if pc.SawNoise? then 2 else if pc.Polling? then 1 else 0
  }

  lemma {:induction false} PollFinishes(s: State) returns (states: seq<State>, events: seq<Event>)
    requires s.pc.Top? || (HoldsGuard(s.pc) && !s.pc.Asking? && !s.pc.task.asksQueue)
    ensures ReturnsBy(s, states, events)
    decreases PollSteps(s.pc)
  {
    if s.pc.Top? {
      return [s], [];
    }
    var e := if s.pc.Popped? then ReadNoise else if s.pc.SawNoise? then ClearNoise else PollDone;
    var rest, more := PollFinishes(Next(s, e));
    Prepend(s, e, rest, more);
    states, events := [s] + rest, [e] + more;
  }

  /** When a poll can finish: in every reachable state inside one, exactly when its task does not ask. */
  lemma PollReturnsIff(states: seq<State>, events: seq<Event>, k: nat)
    requires Run(states, events) && Init(states[0]) && k <= |events| && HoldsGuard(states[k].pc)
    ensures CanReturn(states[k]) <==> !states[k].pc.task.asksQueue
  {
    InitInv(states[0]);
    RunInv(states, events, k);
    var s := states[k];
    if s.pc.task.asksQueue {
      forall run, steps ensures !ReturnsBy(s, run, steps) {
        if ReturnsBy(s, run, steps) {
          StaysTrapped(run, steps, |steps|);
        }
      }
    } else {
      var run, steps := PollFinishes(s);
    }
  }
}
