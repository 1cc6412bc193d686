/**
  The join handle of a spawned future (src/asy_nc/mod.rs): polls of the handle interleaved with the
  completion of the wrapped future. The result slot and the waker slot have a lock each; a poll
  keeps the result lock while it stores its waker.
 */
module JoinHandle {
  import opened Options

  /** Where the poll in progress is; `w` is the waker it was called with. */
  datatype Poll =
    | NoPoll
    | Locked(w: nat)       // holds the result lock
    | SawNothing(w: nat)   // the slot was empty; the lock is still held
    | Stored(w: nat)       // the waker is stored; the lock is still held

  datatype Completer =
    | Running              // the future has not finished
    | DataSet              // the result is in the slot, the lock released
    | TookWaker(w: Option<nat>)
    | Finished

  /** `result` is what the future will come to. */
  datatype State = State(result: int, data: Option<int>, waker: Option<nat>, poll: Poll, completer: Completer)

  datatype Event = PollLock(w: nat) | PollTake | PollStore | PollReturn | SetData | TakeWaker | Wake

  /** A completer that took a waker holds the waker lock until it has woken it. */
  predicate WakerLocked(s: State) {
    s.completer.TookWaker? && s.completer.w.Some?
  }

  predicate Enabled(s: State, e: Event) {
    match e
    case PollLock(_) => s.poll.NoPoll?
    case PollTake => s.poll.Locked?
    case PollStore => s.poll.SawNothing? && !WakerLocked(s)
    case PollReturn => s.poll.Stored?
    case SetData => s.completer.Running? && s.poll.NoPoll?
    case TakeWaker => s.completer.DataSet?
    case Wake => s.completer.TookWaker?
  }

  function Next(s: State, e: Event): State
    requires Enabled(s, e)
  {
    match e
    case PollLock(w) => s.(poll := Locked(w))
    case PollTake =>
      if s.data.Some? then s.(data := None, poll := NoPoll)
      else s.(poll := SawNothing(s.poll.w))
    case PollStore => s.(waker := Some(s.poll.w), poll := Stored(s.poll.w))
    case PollReturn => s.(poll := NoPoll)
    case SetData => s.(data := Some(s.result), completer := DataSet)
    case TakeWaker => s.(waker := None, completer := TookWaker(s.waker))
    case Wake => s.(completer := Finished)
  }

  predicate Init(s: State) {
    s.data == None && s.waker == None && s.poll == NoPoll && s.completer == Running
  }

  predicate Follows(s: State, e: Event, s': State) {
    Enabled(s, e) && s' == Next(s, e)
  }

  ghost predicate Run(states: seq<State>, events: seq<Event>) {
    && |states| == |events| + 1
    && forall k :: 0 <= k < |events| ==> Follows(states[k], events[k], states[k + 1])
  }

  // ---------- what the outside has seen ----------

  /** What the last poll that returned said. */
  datatype Last = Never | Ready | Pending(w: nat)

  /** What polls have handed out, what the last one said, the waker of the one begun last, whether that is still open, and who was woken. */
  datatype History = History(delivered: seq<int>, last: Last, asking: nat, open: bool, woken: set<nat>)

  /** One more event: a poll that finds the slot filled hands its content out, one that stored its waker says Pending. */
  function Seen(h: History, s: State, e: Event): History {
    match e
    case PollLock(w) => h.(asking := w, open := true)
    case PollTake => if s.data.Some? then h.(delivered := h.delivered + [s.data.value], last := Ready, open := false) else h
    case PollReturn => h.(last := Pending(h.asking), open := false)
    case Wake => if s.completer.TookWaker? && s.completer.w.Some? then h.(woken := h.woken + {s.completer.w.value}) else h
    case _ => h
  }

  /** After the first `k` events of a run. */
  function HistoryOf(states: seq<State>, events: seq<Event>, k: nat): History
    requires k <= |events| <= |states|
  {
    if k == 0 then History([], Never, 0, false, {}) else Seen(HistoryOf(states, events, k - 1), states[k - 1], events[k - 1])
  }

  /** The waker that the completer has, will take, or has woken. */
  predicate WakerOnItsWay(s: State, h: History, w: nat) {
    match s.completer
    case Running => s.waker == Some(w)
    case DataSet => s.waker == Some(w)
    case TookWaker(x) => x == Some(w)
    case Finished => w in h.woken
  }

  predicate Inv(s: State, h: History) {
    // the result exists in exactly one place once it is set
    && (s.completer.Running? ==> s.data == None && h.delivered == [])
    && (!s.completer.Running? ==> (h.delivered == [] && s.data == Some(s.result)) || (h.delivered == [s.result] && s.data == None))
    // until the result is delivered, a poll that saw nothing shuts the completer out
    && (h.open <==> !s.poll.NoPoll?) && (h.open ==> s.poll.w == h.asking)
    && (h.delivered == [] && (s.poll.SawNothing? || s.poll.Stored?) ==> s.completer.Running?)
    && (h.delivered == [] && s.poll.Stored? ==> s.waker == Some(s.poll.w))
    && (h.delivered == [] && h.last.Pending? && !s.poll.Stored? ==> WakerOnItsWay(s, h, h.last.w))
    && (h.delivered == [] && (s.completer.TookWaker? || s.completer.Finished?) ==> s.waker == None)
  }

  lemma StepInv(s: State, h: History, e: Event, s': State)
    requires Inv(s, h) && Follows(s, e, s')
    ensures Inv(s', Seen(h, s, e)) && s'.result == s.result
  {
  }

  lemma {:induction false} RunInv(states: seq<State>, events: seq<Event>, k: nat)
    requires Run(states, events) && Init(states[0]) && k <= |events|
    ensures Inv(states[k], HistoryOf(states, events, k)) && states[k].result == states[0].result
  {
    if k > 0 {
      RunInv(states, events, k - 1);
      assert Follows(states[k - 1], events[k - 1], states[k - 1 + 1]);
      StepInv(states[k - 1], HistoryOf(states, events, k - 1), events[k - 1], states[k]);
    }
  }

  /** The result is handed out at most once, and it is the future's own result. */
  lemma DeliveredAtMostOnce(states: seq<State>, events: seq<Event>, k: nat)
    requires Run(states, events) && Init(states[0]) && k <= |events|
    ensures var h := HistoryOf(states, events, k); h.delivered == [] || h.delivered == [states[0].result]
  {
    RunInv(states, events, k);
  }

  /**
    Once the completion has finished, a handle whose last poll said Pending has been woken through
    the waker of that very poll, which is no longer kept, or else its result had been handed out before.
   */
  lemma PendingHandleIsWoken(states: seq<State>, events: seq<Event>, k: nat)
    requires Run(states, events) && Init(states[0]) && k <= |events|
    requires states[k].completer.Finished? && HistoryOf(states, events, k).last.Pending?
    ensures var h := HistoryOf(states, events, k);
      h.delivered == [states[0].result] || (h.last.w in h.woken && states[k].waker == None)
  {
    RunInv(states, events, k);
  }

  /** After that wakeup the next poll delivers: its first look hands out the result, once, and it is over. */
  lemma NextPollDelivers(states: seq<State>, events: seq<Event>, k: nat, w: nat)
    requires Run(states, events) && Init(states[0]) && k <= |events|
    requires states[k].completer.Finished? && states[k].poll.NoPoll? && HistoryOf(states, events, k).delivered == []
    ensures var locked := Next(states[k], PollLock(w));
      && Enabled(locked, PollTake) && Next(locked, PollTake).poll.NoPoll?
      && Seen(HistoryOf(states, events, k), locked, PollTake).delivered == [states[0].result]
  {
    RunInv(states, events, k);
  }

  /** A poll that has begun and not ended can go on, at once or after the completer has woken somebody. */
  lemma PollGoesOn(states: seq<State>, events: seq<Event>, k: nat)
    requires Run(states, events) && Init(states[0]) && k <= |events| && HistoryOf(states, events, k).open
    ensures exists e :: Enabled(states[k], e) && (e.PollTake? || e.PollStore? || e.PollReturn? || e.Wake?)
  {
    RunInv(states, events, k);
    var s := states[k];
    assert Enabled(s, if s.poll.Locked? then PollTake else if s.poll.Stored? then PollReturn
                      else if WakerLocked(s) then Wake else PollStore);
  }
}
