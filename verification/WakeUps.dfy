// Waiting for index requests (src/threaded_queue.hh, src/pipeline.cc): any
// number of indexer threads and pushers and one quit, interleaved step by step,
// with spurious wake-ups.
module WakeUps {
  import opened Index

  datatype Indexer =
    | Running     // parsing, or about to look for a request
    | Entering    // found none, about to lock in wait
    | Locked      // holds the mutex, about to look at g_quit
    | SawNoQuit   // holds the mutex, about to look at the queue
    | SawEmpty    // holds the mutex, about to sleep
    | Asleep
    | Woken       // about to lock again
    | Exited

  datatype Pusher = Idle | Holding | Added

  datatype Quitter = NotQuitting | Stored | HoldingQueue | Released | Notified

  datatype Holder = ByIndexer(i: nat) | ByPusher(j: nat) | ByQuitter

  // count is total_count_; clearing the queue on exit leaves it as it is.
  datatype State = State(indexers: seq<Indexer>, pushers: seq<Pusher>, quitter: Quitter, mutex: Option<Holder>,
                         quit: bool, queue: seq<int>, count: int)

  datatype Action =
    | TryPop(i: nat)
    | Return(i: nat)       // a request that is skipped also leads to wait
    | Lock(i: nat)
    | CheckQuit(i: nat)
    | CheckQueue(i: nat)
    | Sleep(i: nat)
    | Spurious(i: nat)
    | PushLock(j: nat)
    | PushAdd(j: nat, element: int)
    | PushNotify(j: nat, woken: Option<nat>)
    | StoreQuit
    | QuitLock
    | QuitUnlock
    | NotifyAll
    | ClearQueue

  predicate SomeoneAsleep(s: State) { exists i :: 0 <= i < |s.indexers| && s.indexers[i].Asleep? }

  predicate Enabled(s: State, a: Action) {
    match a
    case TryPop(i) => i < |s.indexers| && s.indexers[i].Running? && s.mutex.None?
    case Return(i) => i < |s.indexers| && s.indexers[i].Running?
    case Lock(i) => i < |s.indexers| && (s.indexers[i].Entering? || s.indexers[i].Woken?) && s.mutex.None?
    case CheckQuit(i) => i < |s.indexers| && s.indexers[i].Locked?
    case CheckQueue(i) => i < |s.indexers| && s.indexers[i].SawNoQuit?
    case Sleep(i) => i < |s.indexers| && s.indexers[i].SawEmpty?
    case Spurious(i) => i < |s.indexers| && s.indexers[i].Asleep?
    case PushLock(j) => j < |s.pushers| && s.pushers[j].Idle? && s.mutex.None?
    case PushAdd(j, _) => j < |s.pushers| && s.pushers[j].Holding?
    // notify_one wakes a sleeping thread if there is one
    case PushNotify(j, woken) =>
      && j < |s.pushers| && s.pushers[j].Added?
      && (woken.Some? ==> woken.value < |s.indexers| && s.indexers[woken.value].Asleep?) && (woken.None? ==> !SomeoneAsleep(s))
    case StoreQuit => s.quitter.NotQuitting?
    case QuitLock => s.quitter.Stored? && s.mutex.None?
    case QuitUnlock => s.quitter.HoldingQueue?
    case NotifyAll => s.quitter.Released?
    case ClearQueue => s.quit && s.mutex.None?
  }

  function Set(s: State, i: nat, pc: Indexer): State
    requires i < |s.indexers|
  {
    s.(indexers := s.indexers[i := pc])
  }

  function Do(s: State, a: Action): State
    requires Enabled(s, a)
  {
    match a
    case TryPop(i) => if s.queue == [] then Set(s, i, Entering) else s.(queue := s.queue[1..], count := s.count - 1)
    case Return(i) => Set(s, i, Entering)
    case Lock(i) => Set(s, i, Locked).(mutex := Some(ByIndexer(i)))
    case CheckQuit(i) => if s.quit then Set(s, i, Exited).(mutex := None) else Set(s, i, SawNoQuit)
    case CheckQueue(i) => if s.count != 0 then Set(s, i, Running).(mutex := None) else Set(s, i, SawEmpty)
    case Sleep(i) => Set(s, i, Asleep).(mutex := None)
    case Spurious(i) => Set(s, i, Woken)
    case PushLock(j) => s.(pushers := s.pushers[j := Holding], mutex := Some(ByPusher(j)))
    case PushAdd(j, x) => s.(pushers := s.pushers[j := Added], queue := s.queue + [x], count := s.count + 1)
    case PushNotify(j, woken) =>
      var t := s.(pushers := s.pushers[j := Idle], mutex := None);
      if woken.Some? then Set(t, woken.value, Woken) else t
    case StoreQuit => s.(quitter := Stored, quit := true)
    case QuitLock => s.(quitter := HoldingQueue, mutex := Some(ByQuitter))
    case QuitUnlock => s.(quitter := Released, mutex := None)
    case NotifyAll => s.(quitter := Notified, indexers := seq(|s.indexers|, i requires 0 <= i < |s.indexers| => if s.indexers[i].Asleep? then Woken else s.indexers[i]))
    case ClearQueue => s.(queue := [])
  }

  predicate Initial(s: State) {
    && (forall i :: 0 <= i < |s.indexers| ==> s.indexers[i].Running?)
    && (forall j :: 0 <= j < |s.pushers| ==> s.pushers[j].Idle?)
    && s.quitter.NotQuitting? && s.mutex == None && !s.quit && s.queue == [] && s.count == 0
  }

  // ---------- The invariant ----------

  predicate HoldsMutex(pc: Indexer) { pc.Locked? || pc.SawNoQuit? || pc.SawEmpty? }

  predicate MutexOk(s: State) {
    && (forall i :: 0 <= i < |s.indexers| ==> (HoldsMutex(s.indexers[i]) <==> s.mutex == Some(ByIndexer(i))))
    && (forall j :: 0 <= j < |s.pushers| ==> (!s.pushers[j].Idle? <==> s.mutex == Some(ByPusher(j))))
    && (s.quitter.HoldingQueue? <==> s.mutex == Some(ByQuitter))
  }

  predicate QueueOk(s: State) {
    && (s.quit <==> !s.quitter.NotQuitting?)
    && (!s.quit ==> s.count == |s.queue|)
    && (forall i :: 0 <= i < |s.indexers| && s.indexers[i].SawEmpty? && !s.quit ==> s.count == 0)
    && (forall i :: 0 <= i < |s.indexers| && s.indexers[i].Exited? ==> s.quit)
  }

  predicate BeingPushed(s: State) { exists j :: 0 <= j < |s.pushers| && s.pushers[j].Added? }

  predicate SomeoneAwake(s: State) { exists i :: 0 <= i < |s.indexers| && !s.indexers[i].Asleep? }

  // No wake-up is lost before quit, and none is needed after it.
  predicate NoneLost(s: State) {
    && (!s.quit && s.queue != [] && s.indexers != [] && !BeingPushed(s) ==> SomeoneAwake(s))
    && (s.quitter.HoldingQueue? || s.quitter.Released? || s.quitter.Notified? ==>
          forall i :: 0 <= i < |s.indexers| ==> !s.indexers[i].SawNoQuit? && !s.indexers[i].SawEmpty?)
    && (s.quitter.Notified? ==> !SomeoneAsleep(s))
  }

  predicate Inv(s: State) { MutexOk(s) && QueueOk(s) && NoneLost(s) }

  lemma MutexStep(s: State, a: Action)
    requires Inv(s) && Enabled(s, a)
    ensures MutexOk(Do(s, a))
  {
  }

  lemma QueueStep(s: State, a: Action)
    requires Inv(s) && Enabled(s, a)
    ensures QueueOk(Do(s, a))
  {
  }

  lemma AwakeStep(s: State, a: Action)
    requires Inv(s) && Enabled(s, a)
    ensures var t := Do(s, a); !t.quit && t.queue != [] && t.indexers != [] && !BeingPushed(t) ==> SomeoneAwake(t)
  {
    var t := Do(s, a);
    if a.PushAdd? { assert t.pushers[a.j].Added?; }
    if a.Sleep? { assert s.indexers[a.i].SawEmpty?; }
    if !t.quit && t.queue != [] && t.indexers != [] && !BeingPushed(t) {
      match a
      case PushNotify(j, woken) =>
        if woken.Some? {
          assert !t.indexers[woken.value].Asleep?;
        } else {
          assert !s.indexers[0].Asleep?;
        }
      case PushLock(j) =>
        assert !BeingPushed(s);
        var i :| 0 <= i < |s.indexers| && !s.indexers[i].Asleep?;
        assert !t.indexers[i].Asleep?;
      case TryPop(i) => assert !t.indexers[i].Asleep?;
      case Return(i) => assert !t.indexers[i].Asleep?;
      case Lock(i) => assert !t.indexers[i].Asleep?;
      case CheckQuit(i) => assert !t.indexers[i].Asleep?;
      case CheckQueue(i) => assert !t.indexers[i].Asleep?;
      case Spurious(i) => assert !t.indexers[i].Asleep?;
      case _ =>
    }
  }

  lemma QuitStep(s: State, a: Action)
    requires Inv(s) && Enabled(s, a)
    ensures var t := Do(s, a);
      && (t.quitter.HoldingQueue? || t.quitter.Released? || t.quitter.Notified? ==>
            forall i :: 0 <= i < |t.indexers| ==> !t.indexers[i].SawNoQuit? && !t.indexers[i].SawEmpty?)
      && (t.quitter.Notified? ==> !SomeoneAsleep(t))
  {
    hide BeingPushed, SomeoneAwake;
  }

  lemma InvStep(s: State, a: Action)
    requires Inv(s) && Enabled(s, a)
    ensures Inv(Do(s, a))
  {
    MutexStep(s, a);
    QueueStep(s, a);
    AwakeStep(s, a);
    QuitStep(s, a);
    hide Do, Enabled, MutexOk, QueueOk;
  }

  ghost predicate IsRun(run: seq<State>, actions: seq<Action>) {
    && |run| == |actions| + 1 && Initial(run[0])
    && forall n :: 0 <= n < |actions| ==> Enabled(run[n], actions[n]) && run[n + 1] == Do(run[n], actions[n])
  }

  lemma {:induction false} RunInv(run: seq<State>, actions: seq<Action>, n: nat)
    requires IsRun(run, actions) && n < |run|
    ensures Inv(run[n])
  {
    if n > 0 {
      RunInv(run, actions, n - 1);
      hide Inv, Do, Enabled;
      InvStep(run[n - 1], actions[n - 1]);
    }
  }

  // With the mutex free and before quit, a waiting request finds a started
  // indexer that is not asleep; once quit has notified, no indexer is asleep.
  lemma NoLostWakeUp(run: seq<State>, actions: seq<Action>, n: nat)
    requires IsRun(run, actions) && n < |run|
    ensures var s := run[n]; s.mutex == None && !s.quit && s.queue != [] && s.indexers != [] ==> SomeoneAwake(s)
    ensures run[n].quitter.Notified? ==> !SomeoneAsleep(run[n])
  {
    RunInv(run, actions, n);
    hide IsRun;
    var s := run[n];
    assert s.mutex == None ==> forall j :: 0 <= j < |s.pushers| ==> s.pushers[j].Idle?;
  }

  // No indexer falls asleep after quit has notified.
  lemma NoSleepAfterQuit(run: seq<State>, actions: seq<Action>, n: nat)
    requires IsRun(run, actions) && n < |actions| && run[n].quitter.Notified?
    ensures !actions[n].Sleep? && run[n + 1].quitter.Notified?
  {
    RunInv(run, actions, n);
    assert Enabled(run[n], actions[n]);
  }
}
