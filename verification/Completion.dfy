// What an indexer thread has done by the time it releases the mutex of a path
// (src/pipeline.cc): a version it stores has been pushed exactly once, and a
// cached version it takes up exactly once unless it was given up.
module Completion {
  import opened Index
  import opened Delta
  import opened Rebuild
  import opened History
  import opened Pipeline

  predicate Pushes(a: Action, t: nat) { a.Act? && a.t == t && (a.op.PushDelta? || a.op.PushCached?) }

  predicate Releases(a: Action, t: nat) { a == Act(t, Unlock) }

  predicate GivesUp(a: Action, t: nat) { a == Act(t, GiveUp) }

  // From action n to action m thread t pushes nothing.
  predicate NoPush(actions: seq<Action>, n: nat, m: nat, t: nat) {
    m <= |actions| && forall i :: n <= i < m ==> !Pushes(actions[i], t)
  }

  // Action k is the only push of t from n to m: of version f, from previous.
  predicate OnlyPush(run: seq<State>, actions: seq<Action>, n: nat, m: nat, t: nat, k: nat, previous: IndexFile, f: IndexFile) {
    && n <= k < m <= |actions| < |run|
    && Pushes(actions[k], t) && run[k + 1].pushed == run[k].pushed + [Item(actions[k].op.update, previous, f)]
    && NoPush(actions, n, k, t) && NoPush(actions, k + 1, m, t)
  }

  // ---------- Storing ----------

  predicate Storing(pc: Pc, f: IndexFile) {
    match pc
    case StoreLocked(g, _) => g == f
    case StoreCounted(g, _, _) => g == f
    case StoreMissed(g, _, _) => g == f
    case StoreRead(g, _, _, _) => g == f
    case StoreKept(g, _, _, _) => g == f
    case StoreWritten(g, _, _) => g == f
    case _ => false
  }

  predicate Done(pc: Pc, p: string) {
    match pc
    case StorePushed(g, _) => g.path == p
    case LoadPushed(q) => q == p
    case Finished(q) => q == p
    case _ => false
  }

  lemma StoringStep(c: Settings, s: State, op: Op, pc: Pc, f: IndexFile)
    requires CanDo(c, s, op, pc) && Storing(pc, f)
    ensures !op.Unlock? && !op.PushCached?
    ensures !op.PushDelta? ==> Storing(NextPc(c, s, op, pc), f) && PushedItem(op, pc) == None
    ensures op.PushDelta? ==> pc.StoreWritten? && Done(NextPc(c, s, op, pc), f.path) && PushedItem(op, pc) == Some(Item(op.update, pc.prev, f))
  {
    hide IsDelta, EmptyFile;
  }

  lemma DoneStep(c: Settings, s: State, op: Op, pc: Pc, p: string)
    requires CanDo(c, s, op, pc) && Done(pc, p) && !op.Unlock?
    ensures Done(NextPc(c, s, op, pc), p) && !op.PushDelta? && !op.PushCached?
  {
    hide IsDelta, EmptyFile;
  }

  // The other actions leave the thread where it is.
  lemma OtherStep(c: Settings, s: State, a: Action, t: nat)
    requires t < |s.pcs| && Enabled(c, s, a) && (a.Act? ==> a.t != t)
    ensures t < |Do(c, s, a).pcs| && Do(c, s, a).pcs[t] == s.pcs[t]
  {
    hide CanDo, NextPc;
  }

  lemma RunLength(c: Settings, run: seq<State>, actions: seq<Action>)
    requires IsRun(c, run, actions)
    ensures |run| == |actions| + 1
  {
  }

  lemma RunStep(c: Settings, run: seq<State>, actions: seq<Action>, n: nat)
    requires IsRun(c, run, actions) && n < |actions|
    ensures |run| == |actions| + 1 && Enabled(c, run[n], actions[n]) && run[n + 1] == Do(c, run[n], actions[n]) && |run[n + 1].pcs| == |run[n].pcs|
  {
    hide CanDo, NextPc, Locked, Phases, FreeSettled, InOrder;
  }

  lemma PhaseAt(c: Settings, s: State, t: nat)
    requires Inv(c, s) && t < |s.pcs| && !s.pcs[t].Idle?
    ensures Phase(c, s.pcs[t], ViewOf(c, s, s.pcs[t].PathOf()))
  {
    hide Phase, ViewOf, Locked, InOrder, FreeSettled, Pc.PathOf;
  }

  lemma WrittenFromLast(c: Settings, pc: Pc, v: View)
    requires pc.StoreWritten? && Phase(c, pc, v)
    ensures pc.prev == OrEmpty(pc.cur.path, v.last)
  {
  }

  // What a push starts from is the version of the path pushed last.
  lemma StartsFromLast(c: Settings, s: State, t: nat)
    requires Inv(c, s) && t < |s.pcs| && s.pcs[t].StoreWritten?
    ensures s.pcs[t].prev == VersionOf(Latest(Currents(s.pushed)), s.pcs[t].cur.path)
  {
    hide Inv, Phase, Latest, Currents, EmptyFile;
    PhaseAt(c, s, t);
    WrittenFromLast(c, s.pcs[t], ViewOf(c, s, s.pcs[t].PathOf()));
  }

  lemma StartStep(c: Settings, s: State, op: Op, pc: Pc)
    requires CanDo(c, s, op, pc)
    ensures op.StartStore? ==> NextPc(c, s, op, pc) == StoreLocked(op.cur, op.deleted)
    ensures op.StartLoad? ==> NextPc(c, s, op, pc) == LoadLocked(op.path, op.dep)
  {
    hide IsDelta, EmptyFile;
  }

  // f has been pushed by action k, and nothing else.
  ghost predicate Stores(run: seq<State>, actions: seq<Action>, n: nat, m: nat, t: nat, k: nat, f: IndexFile) {
    k < |run| && OnlyPush(run, actions, n, m, t, k, VersionOf(Latest(Currents(run[k].pushed)), f.path), f)
  }

  ghost predicate StoreState(run: seq<State>, actions: seq<Action>, n: nat, m: nat, t: nat, f: IndexFile) {
    && m < |run| && t < |run[m].pcs|
    && ((Storing(run[m].pcs[t], f) && NoPush(actions, n, m, t))
        || (Done(run[m].pcs[t], f.path) && exists k :: n <= k < m && Stores(run, actions, n, m, t, k, f)))
  }

  lemma StoreStart(c: Settings, run: seq<State>, actions: seq<Action>, n: nat, t: nat, f: IndexFile, deleted: bool)
    requires IsRun(c, run, actions) && n < |actions| && actions[n] == Act(t, StartStore(f, deleted))
    ensures StoreState(run, actions, n, n + 1, t, f)
  {
    RunStep(c, run, actions, n);
    hide IsRun, CanDo, NextPc, NextHolder, NextLoaded, NextMemory, NextDisk, NextPushed, Stores;
    StartStep(c, run[n], actions[n].op, run[n].pcs[t]);
  }

  lemma {:induction false} StoreProgress(c: Settings, run: seq<State>, actions: seq<Action>, n: nat, m: nat, t: nat, f: IndexFile, deleted: bool)
    requires c.Legal() && IsRun(c, run, actions) && n < m < |run| && actions[n] == Act(t, StartStore(f, deleted))
    requires forall i :: n < i < m ==> !Releases(actions[i], t)
    ensures StoreState(run, actions, n, m, t, f)
    decreases m
  {
    hide IsRun, Do, Settings.Legal, StoreState;
    RunLength(c, run, actions);
    if m == n + 1 {
      StoreStart(c, run, actions, n, t, f, deleted);
    } else {
      StoreProgress(c, run, actions, n, m - 1, t, f, deleted);
      StoreOne(c, run, actions, n, m - 1, t, f);
    }
  }

  lemma ActedPc(c: Settings, s: State, a: Action)
    requires a.Act? && a.t < |s.pcs|
    ensures Do(c, s, a).pcs == s.pcs[a.t := NextPc(c, s, a.op, s.pcs[a.t])]
    ensures Do(c, s, a).pushed == NextPushed(s, a.op, s.pcs[a.t])
  {
    hide NextPc, NextPushed, NextHolder, NextLoaded, NextMemory, NextDisk;
  }

  lemma StoreOne(c: Settings, run: seq<State>, actions: seq<Action>, n: nat, m: nat, t: nat, f: IndexFile)
    requires c.Legal() && IsRun(c, run, actions) && m < |actions| && StoreState(run, actions, n, m, t, f) && !Releases(actions[m], t) && n <= m
    ensures StoreState(run, actions, n, m + 1, t, f)
  {
    hide IsRun, Inv, Do, CanDo, NextPc, Storing, Done, Settings.Legal, PushedItem, Stores;
    RunStep(c, run, actions, m);
    var a, s := actions[m], run[m];
    StillStores(run, actions, n, m, t, f);
    if !(a.Act? && a.t == t) {
      OtherStep(c, s, a, t);
      assert !Pushes(a, t);
    } else if Storing(s.pcs[t], f) && NoPush(actions, n, m, t) {
      StoringStep(c, s, a.op, s.pcs[t], f);
      ActedPc(c, s, a);
      if a.op.PushDelta? { StoredNow(c, run, actions, n, m, t, f); }
    } else {
      DoneStep(c, s, a.op, s.pcs[t], f.path);
      ActedPc(c, s, a);
    }
  }

  lemma StoredNow(c: Settings, run: seq<State>, actions: seq<Action>, n: nat, m: nat, t: nat, f: IndexFile)
    requires c.Legal() && IsRun(c, run, actions) && n <= m < |actions| && NoPush(actions, n, m, t)
    requires t < |run[m].pcs| && Storing(run[m].pcs[t], f) && actions[m].Act? && actions[m].t == t && actions[m].op.PushDelta?
    ensures Stores(run, actions, n, m + 1, t, m, f)
  {
    hide Inv, CanDo, NextPc, Storing, Done, Settings.Legal, Latest, Currents, Do, VersionOf;
    RunStep(c, run, actions, m);
    RunInv(c, run, actions, m);
    hide IsRun;
    var a, s := actions[m], run[m];
    StoringStep(c, s, a.op, s.pcs[t], f);
    StartsFromLast(c, s, t);
    StoringPath(s.pcs[t], f);
    ActedPc(c, s, a);
    hide PushedItem;
  }

  lemma StillStores(run: seq<State>, actions: seq<Action>, n: nat, m: nat, t: nat, f: IndexFile)
    requires m < |actions|
    ensures !Pushes(actions[m], t) ==> forall k :: n <= k < m && Stores(run, actions, n, m, t, k, f) ==> Stores(run, actions, n, m + 1, t, k, f)
  {
    hide Pushes, Latest, Currents, VersionOf;
    StillOnly(run, actions, n, m, t);
    hide OnlyPush;
  }

  lemma StoringPath(pc: Pc, f: IndexFile)
    requires Storing(pc, f)
    ensures pc.StoreWritten? ==> pc.cur == f
  {
  }

  lemma StillOnly(run: seq<State>, actions: seq<Action>, n: nat, m: nat, t: nat)
    requires m < |actions|
    ensures !Pushes(actions[m], t) ==> forall k, previous, f :: OnlyPush(run, actions, n, m, t, k, previous, f) ==> OnlyPush(run, actions, n, m + 1, t, k, previous, f)
  {
    hide Pushes;
  }

  // When a thread that started to store f releases the mutex, it has pushed f
  // exactly once, from the version of the file pushed last.
  lemma StoreCompletes(c: Settings, run: seq<State>, actions: seq<Action>, n: nat, m: nat, t: nat, f: IndexFile, deleted: bool)
    requires c.Legal() && IsRun(c, run, actions) && n < m < |actions|
    requires actions[n] == Act(t, StartStore(f, deleted)) && Releases(actions[m], t) && forall i :: n < i < m ==> !Releases(actions[i], t)
    ensures exists k :: n < k < m && Stores(run, actions, n, m, t, k, f)
  {
    hide Do, VersionOf, Latest, Currents;
    StoreProgress(c, run, actions, n, m, t, f, deleted);
    RunStep(c, run, actions, m);
    hide IsRun;
    if k :| n <= k < m && Stores(run, actions, n, m, t, k, f) {
      assert k != n;
    }
  }

  // ---------- Taking up a cached version ----------

  predicate Loading(pc: Pc, p: string) {
    match pc
    case LoadLocked(q, _) => q == p
    case LoadMissed(q, _) => q == p
    case LoadRead(q, _, _) => q == p
    case LoadReady(q, _) => q == p
    case LoadCounted(q, _) => q == p
    case _ => false
  }

  lemma LoadingStep(c: Settings, s: State, op: Op, pc: Pc, p: string)
    requires CanDo(c, s, op, pc) && Loading(pc, p)
    ensures !op.Unlock? && !op.PushDelta?
    ensures op.PushCached? ==> (pc.LoadReady? || pc.LoadCounted?) && Done(NextPc(c, s, op, pc), p) && PushedItem(op, pc) == Some(Item(op.update, EmptyFile(p), pc.version))
    ensures op.GiveUp? ==> Done(NextPc(c, s, op, pc), p)
    ensures !op.PushCached? && !op.GiveUp? ==> Loading(NextPc(c, s, op, pc), p)
  {
    hide IsDelta;
  }

  lemma ReadyFromDisk(c: Settings, pc: Pc, v: View)
    requires (pc.LoadReady? || pc.LoadCounted?) && Phase(c, pc, v)
    ensures v.disk == Some(pc.version) && v.last == None
  {
  }

  // Only what the disk holds for a path never pushed before is taken up.
  lemma TakenFromDisk(c: Settings, s: State, t: nat, p: string)
    requires Inv(c, s) && t < |s.pcs| && Loading(s.pcs[t], p) && (s.pcs[t].LoadReady? || s.pcs[t].LoadCounted?)
    ensures s.OnDisk(c, p) == Some(s.pcs[t].version) && p !in Latest(Currents(s.pushed))
  {
    hide Inv, Phase, Latest, Currents, State.OnDisk;
    PhaseAt(c, s, t);
    ReadyFromDisk(c, s.pcs[t], ViewOf(c, s, s.pcs[t].PathOf()));
  }

  // Action k is the only push of t: of the version on disk, the first for p.
  ghost predicate TakesUp(c: Settings, run: seq<State>, actions: seq<Action>, n: nat, m: nat, t: nat, k: nat, p: string) {
    && n <= k < m <= |actions| < |run| && run[k].OnDisk(c, p).Some?
    && OnlyPush(run, actions, n, m, t, k, EmptyFile(p), run[k].OnDisk(c, p).value)
    && p !in Latest(Currents(run[k].pushed))
  }

  predicate GaveUp(actions: seq<Action>, n: nat, m: nat, t: nat) { m <= |actions| && exists i :: n <= i < m && GivesUp(actions[i], t) }

  ghost predicate LoadState(c: Settings, run: seq<State>, actions: seq<Action>, n: nat, m: nat, t: nat, p: string) {
    && m < |run| && t < |run[m].pcs|
    && ((Loading(run[m].pcs[t], p) && NoPush(actions, n, m, t))
        || (Done(run[m].pcs[t], p) && GaveUp(actions, n, m, t) && NoPush(actions, n, m, t))
        || (Done(run[m].pcs[t], p) && exists k :: n <= k < m && TakesUp(c, run, actions, n, m, t, k, p)))
  }

  lemma LoadStart(c: Settings, run: seq<State>, actions: seq<Action>, n: nat, t: nat, p: string, dep: bool)
    requires IsRun(c, run, actions) && n < |actions| && actions[n] == Act(t, StartLoad(p, dep))
    ensures LoadState(c, run, actions, n, n + 1, t, p)
  {
    RunStep(c, run, actions, n);
    hide IsRun, CanDo, NextPc, NextHolder, NextLoaded, NextMemory, NextDisk, NextPushed, TakesUp, GaveUp;
    StartStep(c, run[n], actions[n].op, run[n].pcs[t]);
  }

  lemma {:induction false} LoadProgress(c: Settings, run: seq<State>, actions: seq<Action>, n: nat, m: nat, t: nat, p: string, dep: bool)
    requires c.Legal() && IsRun(c, run, actions) && n < m < |run| && actions[n] == Act(t, StartLoad(p, dep))
    requires forall i :: n < i < m ==> !Releases(actions[i], t)
    ensures LoadState(c, run, actions, n, m, t, p)
    decreases m
  {
    hide IsRun, Do, Settings.Legal, LoadState;
    RunLength(c, run, actions);
    if m == n + 1 {
      LoadStart(c, run, actions, n, t, p, dep);
    } else {
      LoadProgress(c, run, actions, n, m - 1, t, p, dep);
      LoadOne(c, run, actions, n, m - 1, t, p);
    }
  }

  lemma LoadOne(c: Settings, run: seq<State>, actions: seq<Action>, n: nat, m: nat, t: nat, p: string)
    requires c.Legal() && IsRun(c, run, actions) && m < |actions| && LoadState(c, run, actions, n, m, t, p) && !Releases(actions[m], t) && n <= m
    ensures LoadState(c, run, actions, n, m + 1, t, p)
  {
    hide IsRun, Inv, Do, CanDo, NextPc, Loading, Done, Settings.Legal, PushedItem, TakesUp, EmptyFile;
    RunStep(c, run, actions, m);
    var a, s := actions[m], run[m];
    StillTakesUp(c, run, actions, n, m, t, p);
    if !(a.Act? && a.t == t) {
      OtherStep(c, s, a, t);
      assert !Pushes(a, t);
    } else if Loading(s.pcs[t], p) && NoPush(actions, n, m, t) {
      LoadingStep(c, s, a.op, s.pcs[t], p);
      ActedPc(c, s, a);
      if a.op.PushCached? { TakenNow(c, run, actions, n, m, t, p); }
      if a.op.GiveUp? { assert GivesUp(actions[m], t); }
    } else {
      DoneStep(c, s, a.op, s.pcs[t], p);
      ActedPc(c, s, a);
    }
  }

  lemma TakenNow(c: Settings, run: seq<State>, actions: seq<Action>, n: nat, m: nat, t: nat, p: string)
    requires c.Legal() && IsRun(c, run, actions) && n <= m < |actions| && NoPush(actions, n, m, t)
    requires t < |run[m].pcs| && Loading(run[m].pcs[t], p) && actions[m].Act? && actions[m].t == t && actions[m].op.PushCached?
    ensures TakesUp(c, run, actions, n, m + 1, t, m, p)
  {
    hide Inv, CanDo, NextPc, Loading, Done, Settings.Legal, EmptyFile, State.OnDisk, Latest, Currents, Do;
    RunStep(c, run, actions, m);
    RunInv(c, run, actions, m);
    hide IsRun;
    var a, s := actions[m], run[m];
    LoadingStep(c, s, a.op, s.pcs[t], p);
    TakenFromDisk(c, s, t, p);
    ActedPc(c, s, a);
    hide PushedItem;
    assert OnlyPush(run, actions, n, m + 1, t, m, EmptyFile(p), s.pcs[t].version);
  }

  lemma StillTakesUp(c: Settings, run: seq<State>, actions: seq<Action>, n: nat, m: nat, t: nat, p: string)
    requires m < |actions|
    ensures !Pushes(actions[m], t) ==> forall k :: n <= k < m && TakesUp(c, run, actions, n, m, t, k, p) ==> TakesUp(c, run, actions, n, m + 1, t, k, p)
  {
    hide Pushes, State.OnDisk, Latest, Currents, EmptyFile;
    StillOnly(run, actions, n, m, t);
    hide OnlyPush;
  }

  // When a thread that looked for a cached version of p releases the mutex, it has
  // given up, or has pushed what the disk held exactly once, as the first version
  // of p.
  lemma LoadCompletes(c: Settings, run: seq<State>, actions: seq<Action>, n: nat, m: nat, t: nat, p: string, dep: bool)
    requires c.Legal() && IsRun(c, run, actions) && n < m < |actions|
    requires actions[n] == Act(t, StartLoad(p, dep)) && Releases(actions[m], t) && forall i :: n < i < m ==> !Releases(actions[i], t)
    ensures (GaveUp(actions, n, m, t) && NoPush(actions, n, m, t)) || exists k :: n < k < m && TakesUp(c, run, actions, n, m, t, k, p)
  {
    hide Do, Latest, Currents, State.OnDisk, EmptyFile;
    LoadProgress(c, run, actions, n, m, t, p, dep);
    RunStep(c, run, actions, m);
    hide IsRun;
    if k :| n <= k < m && TakesUp(c, run, actions, n, m, t, k, p) {
      assert k != n;
    }
  }
}
