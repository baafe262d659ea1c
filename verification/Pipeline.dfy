// The indexer threads (src/pipeline.cc): any number of threads load cached
// versions and store new ones under per-path mutexes, keep them in memory or on
// disk, and push updates for the main thread. The steps below are the atomic
// actions of indexer_Parse, rawCacheLoad and removeCache; which path a thread
// takes up, and whether it gives up a cached version, is left open.
module Pipeline {
  import opened Index
  import opened Delta
  import opened Rebuild
  import opened History

  // The contents of a cache file.
  type Stored = seq<U8>

  // cache.retainInMemory, whether cache.directory is set, the hash that picks
  // one of the mutexes; the versions the indexer makes, the cache files that may
  // be written for one, and how a cache file is read.
  datatype Settings = Settings(retain: int, onDisk: bool, bucket: string -> int,
                               good: IndexFile -> bool, stores: (Stored, IndexFile) -> bool, parse: (string, Stored) -> Option<IndexFile>)
  {
    // Without a directory retainInMemory is forced to 1; what is written for a
    // version reads back as that version.
    ghost predicate Legal() {
      && (!onDisk ==> retain == 1)
      && (forall f, b :: good(f) && stores(b, f) ==> parse(f.path, b) == Some(f))
      && (forall p, b :: parse(p, b).Some? ==> parse(p, b).value.path == p)
    }
  }

  // A pushed update and the versions it was computed from.
  datatype Item = Item(update: IndexUpdate, previous: IndexFile, current: IndexFile)

  datatype Pc =
    | Idle
    // taking up a cached version, as the main file or as a dependency
    | LoadLocked(path: string, dep: bool)
    | LoadMissed(path: string, dep: bool)
    | LoadRead(path: string, dep: bool, found: Option<IndexFile>)
    | LoadReady(path: string, version: IndexFile)
    | LoadPushed(path: string)
    | LoadCounted(path: string, version: IndexFile)
    // storing a new version
    | StoreLocked(cur: IndexFile, deleted: bool)
    | StoreCounted(cur: IndexFile, deleted: bool, loaded: nat)
    | StoreMissed(cur: IndexFile, deleted: bool, loaded: nat)
    | StoreRead(cur: IndexFile, deleted: bool, loaded: nat, prev: IndexFile)
    | StoreKept(cur: IndexFile, deleted: bool, loaded: nat, prev: IndexFile)
    | StoreWritten(cur: IndexFile, loaded: nat, prev: IndexFile)
    | StorePushed(cur: IndexFile, loaded: nat)
    // about to release the mutex
    | Finished(path: string)
  {
    function PathOf(): string {
      match this
      case Idle => ""
      case LoadLocked(p, _) => p
      case LoadMissed(p, _) => p
      case LoadRead(p, _, _) => p
      case LoadReady(p, _) => p
      case LoadPushed(p) => p
      case LoadCounted(p, _) => p
      case StoreLocked(f, _) => f.path
      case StoreCounted(f, _, _) => f.path
      case StoreMissed(f, _, _) => f.path
      case StoreRead(f, _, _, _) => f.path
      case StoreKept(f, _, _, _) => f.path
      case StoreWritten(f, _, _) => f.path
      case StorePushed(f, _) => f.path
      case Finished(p) => p
    }

    predicate Holds(p: string) { !Idle? && PathOf() == p }
  }

  datatype State = State(pcs: seq<Pc>, holder: map<int, nat>, loaded: map<string, nat>,
                         memory: map<string, IndexFile>, disk: map<string, Stored>, pushed: seq<Item>)
  {
    function Loaded(p: string): nat { if p in loaded then loaded[p] else 0 }
    function InMemory(p: string): Option<IndexFile> { if p in memory then Some(memory[p]) else None }
    function OnDisk(c: Settings, p: string): Option<IndexFile> { if p in disk then c.parse(p, disk[p]) else None }
  }

  // The atomic actions of a thread.
  datatype Op =
    | StartLoad(path: string, dep: bool)
    | StartStore(cur: IndexFile, deleted: bool)
    | ReadLoaded
    | CheckMemory
    | ReadDisk
    | GiveUp
    | CheckLoaded
    | CountDependency
    | PushCached(update: IndexUpdate)
    | Keep
    | Write(bytes: Stored)
    | PushDelta(update: IndexUpdate)
    | Count
    | Unlock

  datatype Action = Act(t: nat, op: Op) | RemoveCache(path: string)

  // A missing previous version counts as an empty file.
  function OrEmpty(p: string, v: Option<IndexFile>): IndexFile { if v.Some? then v.value else EmptyFile(p) }

  ghost predicate CanDo(c: Settings, s: State, op: Op, pc: Pc) {
    match op
    case StartLoad(p, _) => pc.Idle? && c.bucket(p) !in s.holder
    case StartStore(f, deleted) => pc.Idle? && c.bucket(f.path) !in s.holder && c.good(f) && (deleted ==> f == EmptyFile(f.path))
    case ReadLoaded => pc.StoreLocked?
    case CheckMemory => pc.LoadLocked? || pc.StoreCounted?
    case ReadDisk => pc.LoadMissed? || pc.StoreMissed?
    case GiveUp => pc.LoadRead?
    case CheckLoaded => pc.LoadRead? && !pc.dep && pc.found.Some? && s.Loaded(pc.path) == 0
    case CountDependency => pc.LoadRead? && pc.dep && pc.found.Some? && s.Loaded(pc.path) == 0
    case PushCached(u) => (pc.LoadReady? || pc.LoadCounted?) && IsDelta(u, EmptyFile(pc.path), pc.version)
    case Keep => pc.StoreRead?
    case Write(b) => pc.StoreKept? && c.stores(b, pc.cur)
    case PushDelta(u) => pc.StoreWritten? && IsDelta(u, pc.prev, pc.cur)
    case Count => pc.LoadPushed? || pc.StorePushed?
    case Unlock => pc.Finished?
  }

  // The path an action of a thread concerns.
  function PathFor(op: Op, pc: Pc): string {
    if op.StartLoad? then op.path else if op.StartStore? then op.cur.path else pc.PathOf()
  }

  // rawCacheLoad up to the disk: consult the memory, if it is in use.
  function Remembered(c: Settings, s: State, p: string): Option<IndexFile> {
    if c.retain != 0 then s.InMemory(p) else None
  }

  predicate GoesToDisk(c: Settings, s: State, p: string) {
    Remembered(c, s, p).None? && !(c.retain != 0 && !c.onDisk)
  }

  function NextPc(c: Settings, s: State, op: Op, pc: Pc): Pc {
    match pc
    case Idle => if op.StartLoad? then LoadLocked(op.path, op.dep) else if op.StartStore? then StoreLocked(op.cur, op.deleted) else Idle
    case LoadLocked(p, dep) => if GoesToDisk(c, s, p) then LoadMissed(p, dep) else LoadRead(p, dep, Remembered(c, s, p))
    case LoadMissed(p, dep) => LoadRead(p, dep, s.OnDisk(c, p))
    case LoadRead(p, dep, found) =>
      if op.GiveUp? || found.None? then Finished(p) else if dep then LoadCounted(p, found.value) else LoadReady(p, found.value)
    case LoadReady(p, _) => LoadPushed(p)
    case LoadPushed(p) => Finished(p)
    case LoadCounted(p, _) => Finished(p)
    case StoreLocked(f, deleted) => StoreCounted(f, deleted, s.Loaded(f.path))
    case StoreCounted(f, deleted, loaded) =>
      if loaded == 0 then StoreRead(f, deleted, loaded, EmptyFile(f.path))
      else if GoesToDisk(c, s, f.path) then StoreMissed(f, deleted, loaded)
      else StoreRead(f, deleted, loaded, OrEmpty(f.path, Remembered(c, s, f.path)))
    case StoreMissed(f, deleted, loaded) => StoreRead(f, deleted, loaded, OrEmpty(f.path, s.OnDisk(c, f.path)))
    case StoreRead(f, deleted, loaded, prev) => StoreKept(f, deleted, loaded, prev)
    case StoreKept(f, _, loaded, prev) => StoreWritten(f, loaded, prev)
    case StoreWritten(f, loaded, _) => StorePushed(f, loaded)
    case StorePushed(f, _) => Finished(f.path)
    case Finished(_) => Idle
  }

  function NextHolder(c: Settings, s: State, t: nat, op: Op, pc: Pc): map<int, nat> {
    var b := c.bucket(PathFor(op, pc));
    if op.StartLoad? || op.StartStore? then s.holder[b := t] else if op.Unlock? then s.holder - {b} else s.holder
  }

  function NextLoaded(s: State, op: Op, pc: Pc): map<string, nat> {
    if op.CountDependency? || op.Count? then s.loaded[pc.PathOf() := s.Loaded(pc.PathOf()) + 1] else s.loaded
  }

  function NextMemory(c: Settings, s: State, op: Op, pc: Pc): map<string, IndexFile> {
    if op.Keep? && pc.StoreRead? && 0 < c.retain <= pc.loaded + 1 then s.memory[pc.cur.path := pc.cur] else s.memory
  }

  function NextDisk(c: Settings, s: State, op: Op, pc: Pc): map<string, Stored> {
    if op.Write? && pc.StoreKept? && c.onDisk then
      if pc.deleted then s.disk - {pc.cur.path} else s.disk[pc.cur.path := op.bytes]
    else s.disk
  }

  // The update a push action appends.
  function PushedItem(op: Op, pc: Pc): Option<Item> {
    if op.PushCached? && (pc.LoadReady? || pc.LoadCounted?) then Some(Item(op.update, EmptyFile(pc.path), pc.version))
    else if op.PushDelta? && pc.StoreWritten? then Some(Item(op.update, pc.prev, pc.cur))
    else None
  }

  function NextPushed(s: State, op: Op, pc: Pc): seq<Item> {
    var x := PushedItem(op, pc);
    if x.Some? then s.pushed + [x.value] else s.pushed
  }

  function Effect(c: Settings, s: State, t: nat, op: Op): State
    requires t < |s.pcs|
  {
    var pc := s.pcs[t];
    State(s.pcs[t := NextPc(c, s, op, pc)], NextHolder(c, s, t, op, pc), NextLoaded(s, op, pc), NextMemory(c, s, op, pc),
          NextDisk(c, s, op, pc), NextPushed(s, op, pc))
  }

  ghost predicate Enabled(c: Settings, s: State, a: Action) {
    a.Act? ==> a.t < |s.pcs| && CanDo(c, s, a.op, s.pcs[a.t])
  }

  // removeCache forgets a path, only with a cache directory.
  function Do(c: Settings, s: State, a: Action): State
    requires a.Act? ==> a.t < |s.pcs|
  {
    if a.Act? then Effect(c, s, a.t, a.op)
    else if c.onDisk then s.(memory := s.memory - {a.path})
    else s
  }

  // No thread has started; the disk may hold anything.
  predicate Initial(s: State) {
    && (forall t :: 0 <= t < |s.pcs| ==> s.pcs[t].Idle?)
    && s.holder == map[] && s.loaded == map[] && s.memory == map[] && s.pushed == []
  }

  // ---------- What one path sees ----------

  function Currents(items: seq<Item>): seq<IndexFile> { seq(|items|, i requires 0 <= i < |items| => items[i].current) }
  function Updates(items: seq<Item>): seq<IndexUpdate> { seq(|items|, i requires 0 <= i < |items| => items[i].update) }

  datatype View = View(loaded: nat, mem: Option<IndexFile>, disk: Option<IndexFile>, last: Option<IndexFile>)

  function LastPushed(items: seq<Item>, p: string): Option<IndexFile> {
    var vs := Latest(Currents(items));
    if p in vs then Some(vs[p]) else None
  }

  function ViewOf(c: Settings, s: State, p: string): View {
    View(s.Loaded(p), s.InMemory(p), s.OnDisk(c, p), LastPushed(s.pushed, p))
  }

  // With the mutex free: once loaded, the cache holds the last pushed version.
  predicate Settled(c: Settings, p: string, v: View) {
    && (v.loaded == 0 ==> v.mem == None && v.last == None)
    && (v.loaded > 0 ==>
          && v.last.Some?
          && (v.mem.Some? ==> v.mem == v.last && 0 < c.retain <= v.loaded)
          && (c.onDisk ==> OrEmpty(p, v.disk) == v.last.value)
          && (!c.onDisk ==> v.mem.Some?))
  }

  // The memory once cur has been kept.
  predicate Kept(c: Settings, v: View, cur: IndexFile, loaded: nat) {
    (v.mem.Some? ==> v.mem.value == cur && 0 < c.retain <= loaded + 1) && (!c.onDisk ==> v.mem.Some?)
  }

  // What holds of the path of a thread at each program counter.
  predicate Phase(c: Settings, pc: Pc, v: View)
    requires !pc.Idle?
  {
    match pc
    case LoadLocked(p, _) => Settled(c, p, v)
    case LoadMissed(p, _) => Settled(c, p, v) && v.mem == None && c.onDisk
    case LoadRead(p, _, found) => Settled(c, p, v) && (v.loaded == 0 ==> found == if c.onDisk then v.disk else None)
    case LoadReady(p, f) => Settled(c, p, v) && v.loaded == 0 && c.onDisk && v.disk == Some(f) && f.path == p
    case LoadPushed(p) => v.loaded == 0 && v.mem == None && c.onDisk && v.disk.Some? && v.last == v.disk
    case LoadCounted(p, f) => v.loaded == 1 && v.mem == None && v.last == None && c.onDisk && v.disk == Some(f) && f.path == p
    case StoreLocked(f, deleted) => Settled(c, f.path, v) && c.good(f) && (deleted ==> f == EmptyFile(f.path))
    case StoreCounted(f, deleted, n) => Settled(c, f.path, v) && n == v.loaded && c.good(f) && (deleted ==> f == EmptyFile(f.path))
    case StoreMissed(f, deleted, n) =>
      Settled(c, f.path, v) && n == v.loaded > 0 && v.mem == None && c.onDisk && c.good(f) && (deleted ==> f == EmptyFile(f.path))
    case StoreRead(f, deleted, n, prev) =>
      Settled(c, f.path, v) && n == v.loaded && prev == OrEmpty(f.path, v.last) && c.good(f) && (deleted ==> f == EmptyFile(f.path))
    case StoreKept(f, deleted, n, prev) =>
      n == v.loaded && prev == OrEmpty(f.path, v.last) && Kept(c, v, f, n) && c.good(f) && (deleted ==> f == EmptyFile(f.path))
    case StoreWritten(f, n, prev) =>
      n == v.loaded && prev == OrEmpty(f.path, v.last) && Kept(c, v, f, n) && (c.onDisk ==> OrEmpty(f.path, v.disk) == f)
    case StorePushed(f, n) =>
      n == v.loaded && v.last == Some(f) && Kept(c, v, f, n) && (c.onDisk ==> OrEmpty(f.path, v.disk) == f)
    case Finished(p) => Settled(c, p, v)
  }

  // Whoever works on a path holds its mutex.
  predicate Locked(c: Settings, s: State) {
    forall t :: 0 <= t < |s.pcs| && !s.pcs[t].Idle? ==>
      c.bucket(s.pcs[t].PathOf()) in s.holder && s.holder[c.bucket(s.pcs[t].PathOf())] == t
  }

  predicate Free(s: State, p: string) { forall t :: 0 <= t < |s.pcs| ==> !s.pcs[t].Holds(p) }

  ghost predicate Phases(c: Settings, s: State) {
    forall t :: 0 <= t < |s.pcs| && !s.pcs[t].Idle? ==> Phase(c, s.pcs[t], ViewOf(c, s, s.pcs[t].PathOf()))
  }

  ghost predicate FreeSettled(c: Settings, s: State) {
    forall p :: Free(s, p) ==> Settled(c, p, ViewOf(c, s, p))
  }

  ghost predicate Inv(c: Settings, s: State) {
    Locked(c, s) && Phases(c, s) && FreeSettled(c, s) && InOrder(Updates(s.pushed), Currents(s.pushed))
  }

  // ---------- One action, seen from one path ----------

  // How an action changes the view of its path.
  function NextView(c: Settings, op: Op, pc: Pc, v: View): View {
    View(if op.CountDependency? || op.Count? then v.loaded + 1 else v.loaded,
         if op.Keep? && pc.StoreRead? && 0 < c.retain <= pc.loaded + 1 then Some(pc.cur) else v.mem,
         if op.Write? && pc.StoreKept? && c.onDisk then if pc.deleted then None else Some(pc.cur) else v.disk,
         var x := PushedItem(op, pc); if x.Some? then Some(x.value.current) else v.last)
  }

  lemma CurrentsSnoc(items: seq<Item>, x: Item)
    ensures Currents(items + [x]) == Currents(items) + [x.current]
    ensures Updates(items + [x]) == Updates(items) + [x.update]
  {
  }

  lemma LastPushedSnoc(items: seq<Item>, x: Item, p: string)
    ensures LastPushed(items + [x], p) == if p == x.current.path then Some(x.current) else LastPushed(items, p)
  {
    CurrentsSnoc(items, x);
    LatestSnoc(Currents(items), x.current);
    hide Currents, Latest;
  }

  lemma LoadedView(s: State, op: Op, pc: Pc, p: string)
    ensures var m := NextLoaded(s, op, pc);
      (if p in m then m[p] else 0) == if p == pc.PathOf() && (op.CountDependency? || op.Count?) then s.Loaded(p) + 1 else s.Loaded(p)
  {
  }

  lemma PushedView(s: State, op: Op, pc: Pc, p: string)
    ensures LastPushed(NextPushed(s, op, pc), p) ==
      var x := PushedItem(op, pc); if x.Some? && x.value.current.path == p then Some(x.value.current) else LastPushed(s.pushed, p)
  {
    var x := PushedItem(op, pc);
    hide LastPushed, PushedItem;
    if x.Some? { LastPushedSnoc(s.pushed, x.value, p); }
  }

  lemma DiskView(c: Settings, s: State, op: Op, pc: Pc, p: string)
    requires c.Legal() && (op.Write? && pc.StoreKept? ==> c.good(pc.cur) && c.stores(op.bytes, pc.cur))
    ensures var m := NextDisk(c, s, op, pc);
      (if p in m then c.parse(p, m[p]) else None) ==
        if op.Write? && pc.StoreKept? && c.onDisk && p == pc.cur.path then (if pc.deleted then None else Some(pc.cur)) else s.OnDisk(c, p)
  {
  }

  // An action changes only the view of its own path, and that as described.
  lemma ViewStep(c: Settings, s: State, t: nat, op: Op, p: string)
    requires c.Legal() && t < |s.pcs| && CanDo(c, s, op, s.pcs[t])
    requires var pc := s.pcs[t]; (op.PushCached? ==> pc.version.path == pc.path) && (op.Write? ==> c.good(pc.cur))
    ensures var pc := s.pcs[t];
      ViewOf(c, Effect(c, s, t, op), p) == if p == PathFor(op, pc) then NextView(c, op, pc, ViewOf(c, s, p)) else ViewOf(c, s, p)
  {
    hide CanDo, NextPc, NextHolder, NextLoaded, NextMemory, NextDisk, NextPushed, LastPushed, Pc.PathOf, Settings.Legal;
    var pc := s.pcs[t];
    ActionPc(c, s, op, pc);
    LoadedView(s, op, pc, p);
    MemoryView(c, s, op, pc, p);
    DiskView(c, s, op, pc, p);
    PushedView(s, op, pc, p);
  }

  lemma MemoryView(c: Settings, s: State, op: Op, pc: Pc, p: string)
    ensures var m := NextMemory(c, s, op, pc);
      (if p in m then Some(m[p]) else None) ==
        if op.Keep? && pc.StoreRead? && 0 < c.retain <= pc.loaded + 1 && p == pc.cur.path then Some(pc.cur) else s.InMemory(p)
  {
  }

  // The program counter of a thread about to act, and its path.
  lemma ActionPc(c: Settings, s: State, op: Op, pc: Pc)
    requires CanDo(c, s, op, pc)
    ensures pc.Idle? <==> op.StartLoad? || op.StartStore?
    ensures !pc.Idle? ==> PathFor(op, pc) == pc.PathOf()
    ensures op.Write? ==> pc.StoreKept? && c.stores(op.bytes, pc.cur) && pc.PathOf() == pc.cur.path
    ensures op.Keep? ==> pc.StoreRead? && pc.PathOf() == pc.cur.path
    ensures op.PushCached? ==> (pc.LoadReady? || pc.LoadCounted?) && pc.PathOf() == pc.path
    ensures op.PushDelta? ==> pc.StoreWritten? && pc.PathOf() == pc.cur.path
    ensures op.CountDependency? || op.Count? ==> !pc.Idle?
  {
    hide IsDelta, EmptyFile;
  }

  // The path of a thread about to act: free, or in the phase of the thread.
  ghost predicate Ready(c: Settings, p: string, pc: Pc, v: View) {
    if pc.Idle? then Settled(c, p, v) else pc.PathOf() == p && Phase(c, pc, v)
  }

  // Consulting the cache.
  lemma ReadStep(c: Settings, s: State, op: Op, pc: Pc)
    requires c.Legal() && (op.CheckMemory? || op.ReadDisk?) && CanDo(c, s, op, pc)
    requires Ready(c, PathFor(op, pc), pc, ViewOf(c, s, PathFor(op, pc)))
    ensures Ready(c, PathFor(op, pc), NextPc(c, s, op, pc), NextView(c, op, pc, ViewOf(c, s, PathFor(op, pc))))
  {
    hide LastPushed, EmptyFile;
  }

  lemma LoadStep(c: Settings, s: State, op: Op, pc: Pc)
    requires c.Legal() && CanDo(c, s, op, pc)
    requires op.StartLoad? || pc.LoadRead? || pc.LoadReady? || pc.LoadPushed? || pc.LoadCounted? || pc.Finished?
    requires Ready(c, PathFor(op, pc), pc, ViewOf(c, s, PathFor(op, pc)))
    ensures Ready(c, PathFor(op, pc), NextPc(c, s, op, pc), NextView(c, op, pc, ViewOf(c, s, PathFor(op, pc))))
  {
    hide LastPushed, IsDelta, EmptyFile;
  }

  lemma StoreStep(c: Settings, s: State, op: Op, pc: Pc)
    requires c.Legal() && CanDo(c, s, op, pc)
    requires op.StartStore? || pc.StoreLocked? || pc.StoreRead? || pc.StoreKept? || pc.StoreWritten? || pc.StorePushed?
    requires Ready(c, PathFor(op, pc), pc, ViewOf(c, s, PathFor(op, pc)))
    ensures Ready(c, PathFor(op, pc), NextPc(c, s, op, pc), NextView(c, op, pc, ViewOf(c, s, PathFor(op, pc))))
  {
    hide LastPushed, IsDelta;
  }

  // On its path, every action leads from one phase to the next.
  lemma PhaseStep(c: Settings, s: State, op: Op, pc: Pc)
    requires c.Legal() && CanDo(c, s, op, pc)
    requires Ready(c, PathFor(op, pc), pc, ViewOf(c, s, PathFor(op, pc)))
    ensures Ready(c, PathFor(op, pc), NextPc(c, s, op, pc), NextView(c, op, pc, ViewOf(c, s, PathFor(op, pc))))
  {
    WhichStep(c, s, op, pc);
    hide Ready, NextPc, NextView, ViewOf, CanDo, Settings.Legal, PathFor;
    if op.CheckMemory? || op.ReadDisk? {
      ReadStep(c, s, op, pc);
    } else if op.StartLoad? || pc.LoadRead? || pc.LoadReady? || pc.LoadPushed? || pc.LoadCounted? || pc.Finished? {
      LoadStep(c, s, op, pc);
    } else {
      StoreStep(c, s, op, pc);
    }
  }

  lemma WhichStep(c: Settings, s: State, op: Op, pc: Pc)
    requires CanDo(c, s, op, pc)
    ensures op.CheckMemory? || op.ReadDisk? || op.StartLoad? || op.StartStore? || pc.LoadRead? || pc.LoadReady? || pc.LoadPushed?
         || pc.LoadCounted? || pc.Finished? || pc.StoreLocked? || pc.StoreRead? || pc.StoreKept? || pc.StoreWritten? || pc.StorePushed?
  {
    hide IsDelta, EmptyFile;
  }

  // ---------- One action, seen from all paths ----------

  lemma HolderStep(c: Settings, s: State, t: nat, op: Op, pc: Pc)
    requires CanDo(c, s, op, pc)
    ensures var b := c.bucket(PathFor(op, pc)); var h := NextHolder(c, s, t, op, pc);
      if pc.Idle? then b !in s.holder && h == s.holder[b := t]
      else if op.Unlock? then h == s.holder - {b}
      else h == s.holder
  {
    hide IsDelta, EmptyFile;
  }

  lemma NextPcIdle(c: Settings, s: State, op: Op, pc: Pc)
    requires CanDo(c, s, op, pc)
    ensures NextPc(c, s, op, pc).Idle? <==> op.Unlock?
    ensures !op.Unlock? ==> NextPc(c, s, op, pc).PathOf() == PathFor(op, pc)
  {
    hide IsDelta, EmptyFile;
  }

  lemma LockedStep(c: Settings, s: State, t: nat, op: Op)
    requires Locked(c, s) && t < |s.pcs| && CanDo(c, s, op, s.pcs[t])
    ensures Locked(c, Effect(c, s, t, op))
  {
    var s', pc := Effect(c, s, t, op), s.pcs[t];
    hide CanDo, NextPc, NextHolder, NextLoaded, NextMemory, NextDisk, NextPushed, Pc.PathOf, PathFor;
    ActionPc(c, s, op, pc);
    NextPcIdle(c, s, op, pc);
    HolderStep(c, s, t, op, pc);
    forall u | 0 <= u < |s'.pcs| && !s'.pcs[u].Idle?
      ensures c.bucket(s'.pcs[u].PathOf()) in s'.holder && s'.holder[c.bucket(s'.pcs[u].PathOf())] == u
    {
      if u != t { assert s'.pcs[u] == s.pcs[u]; }
    }
  }

  // Other threads work on other paths.
  lemma OthersElsewhere(c: Settings, s: State, t: nat, op: Op, u: nat)
    requires Locked(c, s) && t < |s.pcs| && u < |s.pcs| && u != t && !s.pcs[u].Idle? && CanDo(c, s, op, s.pcs[t])
    ensures s.pcs[u].PathOf() != PathFor(op, s.pcs[t])
  {
    hide CanDo, Pc.PathOf, PathFor;
    ActionPc(c, s, op, s.pcs[t]);
    HolderStep(c, s, t, op, s.pcs[t]);
    hide NextHolder;
  }

  // Before an action, the path of the acting thread is ready for it.
  lemma Before(c: Settings, s: State, t: nat, op: Op)
    requires Locked(c, s) && Phases(c, s) && FreeSettled(c, s) && t < |s.pcs| && CanDo(c, s, op, s.pcs[t])
    ensures Ready(c, PathFor(op, s.pcs[t]), s.pcs[t], ViewOf(c, s, PathFor(op, s.pcs[t])))
  {
    var pc := s.pcs[t];
    var p := PathFor(op, pc);
    hide CanDo, Pc.PathOf, PathFor, Settled, Phase, ViewOf, Locked;
    ActionPc(c, s, op, pc);
    if pc.Idle? {
      forall u | 0 <= u < |s.pcs|
        ensures !s.pcs[u].Holds(p)
      {
        if u != t && !s.pcs[u].Idle? { OthersElsewhere(c, s, t, op, u); }
      }
      assert Free(s, p);
    }
  }

  lemma ReadyFacts(c: Settings, s: State, op: Op, pc: Pc)
    requires CanDo(c, s, op, pc) && Ready(c, PathFor(op, pc), pc, ViewOf(c, s, PathFor(op, pc)))
    ensures op.PushCached? ==> pc.version.path == pc.path
    ensures op.Write? ==> c.good(pc.cur)
  {
    hide IsDelta, EmptyFile, ViewOf, Settled;
  }

  lemma PhasesStep(c: Settings, s: State, t: nat, op: Op)
    requires c.Legal() && Locked(c, s) && Phases(c, s) && FreeSettled(c, s) && t < |s.pcs| && CanDo(c, s, op, s.pcs[t])
    ensures Phases(c, Effect(c, s, t, op)) && FreeSettled(c, Effect(c, s, t, op))
  {
    var s', pc := Effect(c, s, t, op), s.pcs[t];
    var p := PathFor(op, pc);
    assert s'.pcs == s.pcs[t := NextPc(c, s, op, pc)];
    hide CanDo, Pc.PathOf, PathFor, Settled, Phase, ViewOf, Locked, NextPc, NextView, Effect, Settings.Legal, Free;
    Before(c, s, t, op);
    ReadyFacts(c, s, op, pc);
    PhaseStep(c, s, op, pc);
    NextPcIdle(c, s, op, pc);
    forall u | 0 <= u < |s'.pcs| && !s'.pcs[u].Idle?
      ensures Phase(c, s'.pcs[u], ViewOf(c, s', s'.pcs[u].PathOf()))
    {
      ViewStep(c, s, t, op, s'.pcs[u].PathOf());
      if u != t { OthersElsewhere(c, s, t, op, u); }
    }
    forall q | Free(s', q)
      ensures Settled(c, q, ViewOf(c, s', q))
    {
      ViewStep(c, s, t, op, q);
      if q == p {
        FreeIdle(s', t, q);
      } else {
        ActionPc(c, s, op, pc);
        StillFree(s, s', t, q, p);
      }
    }
  }

  lemma FreeIdle(s: State, t: nat, q: string)
    requires Free(s, q) && t < |s.pcs| && (s.pcs[t].Idle? || s.pcs[t].PathOf() == q)
    ensures s.pcs[t].Idle?
  {
    assert !s.pcs[t].Holds(q);
  }

  lemma StillFree(s: State, s': State, t: nat, q: string, p: string)
    requires Free(s', q) && t < |s.pcs| == |s'.pcs| && q != p
    requires forall u :: 0 <= u < |s.pcs| && u != t ==> s'.pcs[u] == s.pcs[u]
    requires s.pcs[t].Idle? || s.pcs[t].PathOf() == p
    ensures Free(s, q)
  {
    forall u | 0 <= u < |s.pcs|
      ensures !s.pcs[u].Holds(q)
    {
      if u != t { assert !s'.pcs[u].Holds(q); }
    }
  }

  lemma InOrderSnoc(items: seq<Item>, x: Item)
    requires InOrder(Updates(items), Currents(items))
    requires IsDelta(x.update, OrEmpty(x.current.path, LastPushed(items, x.current.path)), x.current)
    ensures InOrder(Updates(items + [x]), Currents(items + [x]))
  {
    hide IsDelta, Latest;
    var us, cs := Updates(items), Currents(items);
    CurrentsSnoc(items, x);
    forall i | 0 <= i < |us| + 1
      ensures IsDelta((us + [x.update])[i], VersionOf(Latest((cs + [x.current])[..i]), (cs + [x.current])[i].path), (cs + [x.current])[i])
    {
      assert (cs + [x.current])[..i] == cs[..i];
      if i == |us| { assert cs[..i] == cs; }
    }
  }

  // A pushed update starts from the version pushed last.
  lemma PushedDelta(c: Settings, s: State, op: Op, pc: Pc)
    requires CanDo(c, s, op, pc) && Ready(c, PathFor(op, pc), pc, ViewOf(c, s, PathFor(op, pc)))
    ensures var x := PushedItem(op, pc);
      x.Some? ==> IsDelta(x.value.update, OrEmpty(x.value.current.path, LastPushed(s.pushed, x.value.current.path)), x.value.current)
  {
    hide IsDelta, LastPushed, EmptyFile;
  }

  lemma PushStep(c: Settings, s: State, t: nat, op: Op)
    requires Inv(c, s) && t < |s.pcs| && CanDo(c, s, op, s.pcs[t])
    ensures var s' := Effect(c, s, t, op); InOrder(Updates(s'.pushed), Currents(s'.pushed))
  {
    hide CanDo, InOrder, LastPushed, Locked, Phases, FreeSettled, NextPc, Updates, Currents, ViewOf, Ready, PushedItem, PathFor, IsDelta;
    Before(c, s, t, op);
    PushedDelta(c, s, op, s.pcs[t]);
    var x := PushedItem(op, s.pcs[t]);
    if x.Some? { InOrderSnoc(s.pushed, x.value); }
  }

  // Dropping a path from the memory loses nothing while there is a disk.
  lemma Forget(c: Settings, p: string, pc: Pc, v: View)
    requires c.onDisk
    ensures !pc.Idle? && Phase(c, pc, v) ==> Phase(c, pc, v.(mem := None))
    ensures Settled(c, p, v) ==> Settled(c, p, v.(mem := None))
  {
  }

  lemma RemoveView(c: Settings, s: State, p: string, q: string)
    ensures ViewOf(c, Do(c, s, RemoveCache(p)), q) == if c.onDisk && q == p then ViewOf(c, s, q).(mem := None) else ViewOf(c, s, q)
  {
    hide LastPushed;
  }

  lemma SamePcs(c: Settings, s: State, p: string)
    ensures var s' := Do(c, s, RemoveCache(p));
      s'.pcs == s.pcs && s'.holder == s.holder && s'.pushed == s.pushed && forall q :: Free(s', q) <==> Free(s, q)
  {
  }

  lemma RemoveStep(c: Settings, s: State, p: string)
    requires Inv(c, s)
    ensures Inv(c, Do(c, s, RemoveCache(p)))
  {
    var s' := Do(c, s, RemoveCache(p));
    hide ViewOf, Phase, InOrder, Do, Settled, Free, Pc.PathOf;
    SamePcs(c, s, p);
    forall u | 0 <= u < |s'.pcs| && !s'.pcs[u].Idle?
      ensures Phase(c, s'.pcs[u], ViewOf(c, s', s'.pcs[u].PathOf()))
    {
      RemoveView(c, s, p, s.pcs[u].PathOf());
      if c.onDisk { Forget(c, p, s.pcs[u], ViewOf(c, s, s.pcs[u].PathOf())); }
    }
    forall q | Free(s', q)
      ensures Settled(c, q, ViewOf(c, s', q))
    {
      RemoveView(c, s, p, q);
      if c.onDisk { Forget(c, q, Idle, ViewOf(c, s, q)); }
    }
  }

  // Every action of every thread keeps the invariant.
  lemma InvStep(c: Settings, s: State, a: Action)
    requires c.Legal() && Inv(c, s) && Enabled(c, s, a)
    ensures Inv(c, Do(c, s, a))
  {
    hide Locked, Phases, FreeSettled, InOrder, Effect, CanDo, Settings.Legal;
    if a.Act? {
      LockedStep(c, s, a.t, a.op);
      PhasesStep(c, s, a.t, a.op);
      PushStep(c, s, a.t, a.op);
    } else {
      RemoveStep(c, s, a.path);
    }
  }

  lemma InvInitial(c: Settings, s: State)
    requires Initial(s)
    ensures Inv(c, s)
  {
  }

  // ---------- Runs ----------

  ghost predicate IsRun(c: Settings, run: seq<State>, actions: seq<Action>) {
    && |run| == |actions| + 1 && Initial(run[0])
    && forall i :: 0 <= i < |actions| ==> Enabled(c, run[i], actions[i]) && run[i + 1] == Do(c, run[i], actions[i])
  }

  lemma {:induction false} RunInv(c: Settings, run: seq<State>, actions: seq<Action>, n: nat)
    requires c.Legal() && IsRun(c, run, actions) && n < |run|
    ensures Inv(c, run[n])
  {
    hide Inv, Do, Enabled, Settings.Legal;
    if n == 0 {
      InvInitial(c, run[0]);
    } else {
      RunInv(c, run, actions, n - 1);
      InvStep(c, run[n - 1], actions[n - 1]);
    }
  }

  // rawCacheLoad as a whole.
  function RawCacheLoad(c: Settings, s: State, p: string): Option<IndexFile> {
    if GoesToDisk(c, s, p) then s.OnDisk(c, p) else Remembered(c, s, p)
  }

  // In every interleaving the updates pushed for a path form a chain: each starts
  // from the version pushed before it, the first from an empty file.
  lemma PushedChain(c: Settings, run: seq<State>, actions: seq<Action>, n: nat)
    requires c.Legal() && IsRun(c, run, actions) && n < |run|
    ensures InOrder(Updates(run[n].pushed), Currents(run[n].pushed))
  {
    hide IsRun, Locked, Phases, FreeSettled, InOrder, Settings.Legal;
    RunInv(c, run, actions, n);
  }

  // Whenever nobody works on a loaded path, rawCacheLoad yields the version
  // pushed last; nothing at all stands for a deleted file.
  lemma CacheIsLastPushed(c: Settings, run: seq<State>, actions: seq<Action>, n: nat, p: string)
    requires c.Legal() && IsRun(c, run, actions) && n < |run|
    requires Free(run[n], p) && run[n].Loaded(p) > 0
    ensures LastPushed(run[n].pushed, p) == Some(OrEmpty(p, RawCacheLoad(c, run[n], p)))
  {
    hide *;
    RunInv(c, run, actions, n);
    FreePath(c, run[n], p);
    SettledCache(c, run[n], p);
  }

  lemma FreePath(c: Settings, s: State, p: string)
    requires Inv(c, s) && Free(s, p)
    ensures Settled(c, p, ViewOf(c, s, p))
  {
    hide Settled, ViewOf, Locked, Phases, InOrder, Free;
  }

  lemma SettledCache(c: Settings, s: State, p: string)
    requires c.Legal() && Settled(c, p, ViewOf(c, s, p)) && s.Loaded(p) > 0
    ensures LastPushed(s.pushed, p) == Some(OrEmpty(p, RawCacheLoad(c, s, p)))
  {
    hide LastPushed, EmptyFile;
  }
}
