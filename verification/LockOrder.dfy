/**
 Every lock, permit and join that a request can wait for, followed through the control flow
 of the code: no reachable state is stuck, and without new requests every run ends with all
 of them answered.

 A strand is a request, a package fetch running inside one, or a detached archive download.
 Registry, disk and network operations always return here, with any outcome.
 */
module LockOrder {
  import opened Common
  import opened Metadata

  /** Archive keys. */
  type ArchiveKey(==, !new)

  datatype Lock =
    | VersionLock(key: VersionKey)
    | IndexLock(provider: ProviderKey)
    | DiscoveryLock(host: string)
    | ArchiveLock(archive: ArchiveKey)

  const PERMITS := 8
  const SLOTS := 8
  const MAX_PLATFORMS := 128

  /** What an index is being loaded or refreshed for: to be listed, by a synchronisation with
      `rest` still to do, for a version, or again because it did not list that version. */
  datatype Why = List | Sync(rest: seq<ProviderKey>) | Load(key: VersionKey) | Force(key: VersionKey)

  /** Where a strand is. */
  datatype Pc =
    | WantVersion(key: VersionKey)
    | InVersion(key: VersionKey)
    | WantIndex(why: Why, p: ProviderKey)
    | InIndex(why: Why, p: ProviderKey)
    | WantDiscovery(why: Why, p: ProviderKey)
    | InDiscovery(why: Why, p: ProviderKey)
    | Asking(why: Why, p: ProviderKey)
    | Loaded(key: VersionKey)
    | Looking(key: VersionKey)
    | Fetching(key: VersionKey, first: nat, count: nat, started: nat)
    | FetchQueued(host: string, parent: nat)
    | FetchStart(host: string)
    | FetchWant(host: string)
    | FetchIn(host: string)
    | AwaitDownload(child: nat)
    | WantArchive(a: ArchiveKey)
    | InArchive(a: ArchiveKey)
    | WantPermit(a: ArchiveKey)
    | Downloading(a: ArchiveKey)
    | Finished

  datatype State = State(strands: seq<Pc>, locks: map<Lock, nat>, permits: set<nat>)

  datatype Action =
    | Call(pc: Pc)
    | CallArchive(a: ArchiveKey)
    | Acquire(t: nat)
    | TakePermit(t: nat)
    | Go(t: nat, pc: Pc)
    | QueueFetches(t: nat, count: nat)
    | StartFetch(t: nat)
    | Join(t: nat)
    | Cancel(t: nat)

  const INIT := State([], map[], {})

  // ---------------------------------------------------------------- control flow

  function Outer(why: Why): set<Lock> {
    match why
    case List => {}
    case Sync(_) => {}
    case Load(key) => {VersionLock(key)}
    case Force(key) => {VersionLock(key)}
  }

  /** The locks held at a point of the code: guards live to the end of their block. */
  function Holds(pc: Pc): set<Lock> {
    match pc
    case InVersion(key) => {VersionLock(key)}
    case Loaded(key) => {VersionLock(key)}
    case Looking(key) => {VersionLock(key)}
    case Fetching(key, _, _, _) => {VersionLock(key)}
    case WantIndex(why, _) => Outer(why)
    case InIndex(why, p) => Outer(why) + {IndexLock(p)}
    case WantDiscovery(why, p) => Outer(why) + {IndexLock(p)}
    case InDiscovery(why, p) => Outer(why) + {IndexLock(p), DiscoveryLock(p.hostname)}
    case Asking(why, p) => Outer(why) + {IndexLock(p)}
    case FetchIn(host) => {DiscoveryLock(host)}
    case InArchive(a) => {ArchiveLock(a)}
    case WantPermit(a) => {ArchiveLock(a)}
    case Downloading(a) => {ArchiveLock(a)}
    case _ => {}
  }

  /** The lock waited for, and where its acquisition leads. */
  function Wants(pc: Pc): Option<(Lock, Pc)> {
    match pc
    case WantVersion(key) => Some((VersionLock(key), InVersion(key)))
    case WantIndex(why, p) => Some((IndexLock(p), InIndex(why, p)))
    case WantDiscovery(why, p) => Some((DiscoveryLock(p.hostname), InDiscovery(why, p)))
    case FetchWant(host) => Some((DiscoveryLock(host), FetchIn(host)))
    case WantArchive(a) => Some((ArchiveLock(a), InArchive(a)))
    case _ => None
  }

  predicate AfterIndex(why: Why, next: Pc) {
    match why
    case List => next == Finished
    case Sync(rest) => next == if rest == [] then Finished else WantIndex(Sync(rest[1..]), rest[0])
    case Load(key) => next == Loaded(key) || next == Finished
    case Force(key) => next == Looking(key) || next == Finished
  }

  /** Steps that wait for nothing but an operation that returns. */
  predicate Next(pc: Pc, next: Pc) {
    match pc
    case InVersion(key) => next == Finished || next == Loaded(key) || next == WantIndex(Load(key), key.provider)
    case InIndex(why, p) => AfterIndex(why, next) || next == Asking(why, p) || next == WantDiscovery(why, p)
    case InDiscovery(why, p) => AfterIndex(why, next) || next == Asking(why, p)
    case Asking(why, _) => AfterIndex(why, next)
    case Loaded(key) => next == Looking(key) || next == WantIndex(Force(key), key.provider)
    case Looking(_) => next == Finished
    case FetchStart(host) => next == FetchWant(host) || next == Finished
    case FetchIn(_) => next == Finished
    case InArchive(a) => next == Finished || next == WantPermit(a)
    case Downloading(_) => next == Finished
    case _ => false
  }

  /** A package fetch that was started. */
  predicate IsFetch(pc: Pc) {
    pc.FetchStart? || pc.FetchWant? || pc.FetchIn? || pc.Finished?
  }

  predicate IsDownload(pc: Pc) {
    pc.WantArchive? || pc.InArchive? || pc.WantPermit? || pc.Downloading? || pc.Finished?
  }

  // ---------------------------------------------------------------- steps

  predicate Begins(pc: Pc) {
    pc.WantVersion? || (pc.WantIndex? && (pc.why.List? || pc.why.Sync?))
  }

  predicate Live(s: State, t: nat) {
    t < |s.strands| && s.strands[t] != Finished
  }

  predicate Joins(s: State, pc: Pc) {
    match pc
    case Fetching(_, first, count, _) =>
      first + count <= |s.strands| && forall i :: first <= i < first + count ==> s.strands[i] == Finished
    case AwaitDownload(child) => child < |s.strands| && s.strands[child] == Finished
    case _ => false
  }

  /** The started fetches inside a strand that are not finished. */
  function Busy(strands: seq<Pc>, pc: Pc): set<nat>
    requires pc.Fetching?
  {
    set i: nat | pc.first <= i < pc.first + pc.started && i < |strands| && strands[i] != Finished
  }

  /** A strand starts the fetches inside it in order, and no more than it has slots for. */
  predicate Starts(strands: seq<Pc>, pc: Pc) {
    && pc.Fetching? && pc.started < pc.count && pc.first + pc.started < |strands|
    && |Busy(strands, pc)| < SLOTS
  }

  predicate Enabled(s: State, act: Action) {
    match act
    case Call(pc) => Begins(pc)
    case CallArchive(_) => true
    case Acquire(t) => t < |s.strands| && Wants(s.strands[t]).Some? && Wants(s.strands[t]).value.0 !in s.locks
    case TakePermit(t) => t < |s.strands| && s.strands[t].WantPermit? && |s.permits| < PERMITS
    case Go(t, pc) => t < |s.strands| && Next(s.strands[t], pc)
    case QueueFetches(t, count) => t < |s.strands| && s.strands[t].Looking? && count <= MAX_PLATFORMS
    case StartFetch(t) => t < |s.strands| && Starts(s.strands, s.strands[t])
    case Join(t) => t < |s.strands| && Joins(s, s.strands[t])
    case Cancel(t) => Live(s, t) && !s.strands[t].FetchQueued? && !IsFetch(s.strands[t]) && !IsDownload(s.strands[t])
  }

  /** Whether `i` is a strand that runs inside a fetching one. */
  predicate Inside(pc: Pc, i: nat) {
    pc.Fetching? && pc.first <= i < pc.first + pc.count
  }

  /** Dropping a request drops the package fetches inside it; a download is detached. */
  function Dropped(strands: seq<Pc>, t: nat): (r: seq<Pc>)
    requires t < |strands|
    ensures |r| == |strands|
    ensures forall i :: 0 <= i < |strands| ==>
              r[i] == if i == t || Inside(strands[t], i) then Finished else strands[i]
  {
    seq(|strands|, i requires 0 <= i < |strands| => if i == t || Inside(strands[t], i) then Finished else strands[i])
  }

  function StrandsAfter(s: State, act: Action): seq<Pc>
    requires Enabled(s, act)
  {
    match act
    case Call(pc) => s.strands + [pc]
    case CallArchive(a) => s.strands + [AwaitDownload(|s.strands| + 1), WantArchive(a)]
    case Acquire(t) => s.strands[t := Wants(s.strands[t]).value.1]
    case TakePermit(t) => s.strands[t := Downloading(s.strands[t].a)]
    case Go(t, pc) => s.strands[t := pc]
    case QueueFetches(t, count) =>
      var key := s.strands[t].key;
      s.strands[t := Fetching(key, |s.strands|, count, 0)] + seq(count, _ => FetchQueued(key.provider.hostname, t))
    case StartFetch(t) =>
      var pc := s.strands[t];
      s.strands[t := pc.(started := pc.started + 1)][pc.first + pc.started := FetchStart(pc.key.provider.hostname)]
    case Join(t) => s.strands[t := Finished]
    case Cancel(t) => Dropped(s.strands, t)
  }

  /** A lock is released when its holder moves past the end of the guard's block. */
  function Released(locks: map<Lock, nat>, strands: seq<Pc>): map<Lock, nat> {
    map l | l in locks && locks[l] < |strands| && l in Holds(strands[locks[l]]) :: locks[l]
  }

  function LocksAfter(s: State, act: Action): map<Lock, nat>
    requires Enabled(s, act)
  {
    var taken := if act.Acquire? then s.locks[Wants(s.strands[act.t]).value.0 := act.t] else s.locks;
    Released(taken, StrandsAfter(s, act))
  }

  function PermitsAfter(s: State, act: Action): set<nat>
    requires Enabled(s, act)
  {
    match act
    case TakePermit(t) => s.permits + {t}
    case Go(t, _) => s.permits - {t}
    case _ => s.permits
  }

  function Apply(s: State, act: Action): State
    requires Enabled(s, act)
  {
    State(StrandsAfter(s, act), LocksAfter(s, act), PermitsAfter(s, act))
  }

  // ---------------------------------------------------------------- invariant

  ghost predicate LocksHeld(strands: seq<Pc>, locks: map<Lock, nat>) {
    forall l :: l in locks ==> locks[l] < |strands| && l in Holds(strands[locks[l]])
  }

  /** At most one strand is at a point of the code that holds a given lock. */
  ghost predicate HoldersOwn(strands: seq<Pc>, locks: map<Lock, nat>) {
    forall t: nat, l :: t < |strands| && l in Holds(strands[t]) ==> l in locks && locks[l] == t
  }

  ghost predicate PermitsHeld(strands: seq<Pc>, permits: set<nat>) {
    && |permits| <= PERMITS
    && (forall t :: t in permits ==> t < |strands| && strands[t].Downloading?)
    && (forall t: nat :: t < |strands| && strands[t].Downloading? ==> t in permits)
  }

  /** A fetch inside strand `t`, which is at `pc`, was started or is still queued for it. */
  ghost predicate Minds(pc: Pc, t: nat, i: nat, child: Pc)
    requires pc.Fetching?
  {
    if i < pc.first + pc.started then IsFetch(child) else child == FetchQueued(pc.key.provider.hostname, t)
  }

  ghost predicate Placed(strands: seq<Pc>, t: nat, pc: Pc) {
    && (pc.Fetching? ==>
          && pc.started <= pc.count && pc.first + pc.count <= |strands|
          && forall i: nat :: Inside(pc, i) ==> Minds(pc, t, i, strands[i]))
    && (pc.AwaitDownload? ==> pc.child < |strands| && IsDownload(strands[pc.child]))
    && (pc.FetchQueued? ==> pc.parent < |strands| && Inside(strands[pc.parent], t))
  }

  ghost predicate ChildrenPlaced(strands: seq<Pc>) {
    forall t: nat :: t < |strands| ==> Placed(strands, t, strands[t])
  }

  ghost predicate Inv(s: State) {
    && LocksHeld(s.strands, s.locks) && HoldersOwn(s.strands, s.locks)
    && PermitsHeld(s.strands, s.permits) && ChildrenPlaced(s.strands)
  }

  // ---------------------------------------------------------------- ranks

  /** Everything a strand can wait for is held by a strand of higher rank. */
  function Rank(pc: Pc): (r: nat)
    ensures r <= 5
  {
    match pc
    case WantVersion(_) => 0
    case InVersion(_) => 1
    case Loaded(_) => 1
    case Looking(_) => 1
    case Fetching(_, _, _, _) => 1
    case FetchQueued(_, _) => 0
    case WantIndex(_, _) => 2
    case InIndex(_, _) => 3
    case Asking(_, _) => 3
    case FetchStart(_) => 3
    case WantDiscovery(_, _) => 4
    case FetchWant(_) => 4
    case InDiscovery(_, _) => 5
    case FetchIn(_) => 5
    case AwaitDownload(_) => 0
    case WantArchive(_) => 1
    case InArchive(_) => 2
    case WantPermit(_) => 2
    case Downloading(_) => 3
    case Finished => 0
  }

  /** What `t` waits for and `u` has. */
  ghost predicate WaitsFor(s: State, t: nat, u: nat) {
    && Live(s, t) && Live(s, u)
    && var pc := s.strands[t];
       || (Wants(pc).Some? && Wants(pc).value.0 in Holds(s.strands[u]))
       || (pc.WantPermit? && |s.permits| == PERMITS && u in s.permits)
       || (pc.FetchQueued? && pc.parent == u)
       || (pc.Fetching? && u in Busy(s.strands, pc) && (pc.started == pc.count || |Busy(s.strands, pc)| >= SLOTS))
       || (pc.AwaitDownload? && pc.child == u)
  }

  lemma HoldersRankHigher(pc: Pc, holder: Pc)
    requires Wants(pc).Some? && Wants(pc).value.0 in Holds(holder)
    ensures Rank(pc) < Rank(holder)
  {
  }

  function RankOf(s: State, t: nat): nat {
    if t < |s.strands| then Rank(s.strands[t]) else 0
  }

  /** The wait-for graph climbs in rank, so it has no cycle. */
  lemma WaitingClimbs(s: State, t: nat, u: nat)
    requires Inv(s) && WaitsFor(s, t, u)
    ensures RankOf(s, t) < RankOf(s, u)
  {
    hide LocksHeld, HoldersOwn;
    var pc := s.strands[t];
    if Wants(pc).Some? && Wants(pc).value.0 in Holds(s.strands[u]) {
      HoldersRankHigher(pc, s.strands[u]);
    }
  }

  ghost predicate IsCycle(s: State, cycle: seq<nat>) {
    && cycle != []
    && (forall i :: 0 <= i < |cycle| - 1 ==> WaitsFor(s, cycle[i], cycle[i + 1]))
    && WaitsFor(s, cycle[|cycle| - 1], cycle[0])
  }

  lemma {:induction false} ChainClimbs(s: State, chain: seq<nat>, i: nat)
    requires Inv(s) && i < |chain|
    requires forall k :: 0 <= k < |chain| - 1 ==> WaitsFor(s, chain[k], chain[k + 1])
    ensures RankOf(s, chain[0]) <= RankOf(s, chain[i])
  {
    hide Inv, WaitsFor;
    if i > 0 {
      ChainClimbs(s, chain, i - 1);
      assert WaitsFor(s, chain[i - 1], chain[i - 1 + 1]);
      WaitingClimbs(s, chain[i - 1], chain[i]);
    }
  }

  lemma NoCycle(s: State, cycle: seq<nat>)
    requires Inv(s)
    ensures !IsCycle(s, cycle)
  {
    if IsCycle(s, cycle) {
      ChainClimbs(s, cycle, |cycle| - 1);
      WaitingClimbs(s, cycle[|cycle| - 1], cycle[0]);
    }
  }

  // ---------------------------------------------------------------- the invariant is kept

  lemma LocksKept(s: State, act: Action)
    requires Inv(s) && Enabled(s, act)
    ensures LocksHeld(StrandsAfter(s, act), LocksAfter(s, act))
  {
    hide Holds, StrandsAfter, Inv;
  }

  /** Only an acquisition adds a lock to those a strand holds. */
  lemma OnlyAcquiredIsNew(s: State, act: Action, t: nat, l: Lock)
    requires Enabled(s, act) && t < |StrandsAfter(s, act)| && l in Holds(StrandsAfter(s, act)[t])
    ensures (act == Acquire(t) && l == Wants(s.strands[t]).value.0) || (t < |s.strands| && l in Holds(s.strands[t]))
  {
    match act {
      case Go(u, pc) =>
        if t == u { NextHolds(s.strands[t], pc); }
      case _ =>
    }
  }

  lemma NextHolds(pc: Pc, next: Pc)
    requires Next(pc, next)
    ensures Holds(next) <= Holds(pc)
  {
  }

  lemma HoldersKept(s: State, act: Action)
    requires Inv(s) && Enabled(s, act)
    ensures HoldersOwn(StrandsAfter(s, act), LocksAfter(s, act))
  {
    hide Holds, StrandsAfter, PermitsHeld, ChildrenPlaced, Wants;
    var strands := StrandsAfter(s, act);
    forall t: nat, l | t < |strands| && l in Holds(strands[t])
      ensures l in LocksAfter(s, act) && LocksAfter(s, act)[l] == t
    {
      OnlyAcquiredIsNew(s, act, t, l);
    }
  }

  lemma PermitsKept(s: State, act: Action)
    requires Inv(s) && Enabled(s, act)
    ensures PermitsHeld(StrandsAfter(s, act), PermitsAfter(s, act))
  {
    hide LocksHeld, HoldersOwn, ChildrenPlaced, StrandsAfter, Enabled;
    PermitCount(s, act);
    var strands, permits := StrandsAfter(s, act), PermitsAfter(s, act);
    forall t: nat ensures t in permits <==> t < |strands| && strands[t].Downloading? {
      PermitKept(s, act, t);
    }
  }

  lemma PermitCount(s: State, act: Action)
    requires |s.permits| <= PERMITS && Enabled(s, act)
    ensures |PermitsAfter(s, act)| <= PERMITS
  {
    hide StrandsAfter, Next, Joins;
    if act.Go? { assert s.permits == s.permits - {act.t} || s.permits == s.permits - {act.t} + {act.t}; }
  }

  lemma PermitKept(s: State, act: Action, t: nat)
    requires Inv(s) && Enabled(s, act)
    ensures t in PermitsAfter(s, act) <==> t < |StrandsAfter(s, act)| && StrandsAfter(s, act)[t].Downloading?
  {
    hide LocksHeld, HoldersOwn, ChildrenPlaced, Holds;
    if act.Cancel? { FetchesHoldNoPermit(s, act.t); }
    if act.StartFetch? { QueuedIsNext(s, act.t); }
  }

  lemma FetchesHoldNoPermit(s: State, t: nat)
    requires Inv(s) && t < |s.strands|
    ensures forall i: nat :: i < |s.strands| && Inside(s.strands[t], i) ==> !s.strands[i].Downloading?
  {
    hide LocksHeld, HoldersOwn, PermitsHeld;
  }

  /** The fetch that a strand starts next is queued for it. */
  lemma QueuedIsNext(s: State, t: nat)
    requires ChildrenPlaced(s.strands) && t < |s.strands| && Starts(s.strands, s.strands[t])
    ensures s.strands[s.strands[t].first + s.strands[t].started].FetchQueued?
  {
    var pc := s.strands[t];
    assert Placed(s.strands, t, pc) && Inside(pc, pc.first + pc.started);
  }

  /** A fetch stays a fetch and a download a download, until finished. */
  lemma KindStays(s: State, act: Action, i: nat)
    requires ChildrenPlaced(s.strands) && Enabled(s, act) && i < |s.strands|
    ensures i < |StrandsAfter(s, act)|
    ensures IsFetch(s.strands[i]) ==> IsFetch(StrandsAfter(s, act)[i])
    ensures IsDownload(s.strands[i]) ==> IsDownload(StrandsAfter(s, act)[i])
  {
    if act.StartFetch? { QueuedIsNext(s, act.t); }
  }

  /** A queued fetch stays queued until the strand it is inside starts it, ends or is dropped. */
  lemma QueuedStays(s: State, act: Action, t: nat, i: nat)
    requires ChildrenPlaced(s.strands) && Enabled(s, act) && t < |s.strands| && i < |s.strands|
    requires Inside(s.strands[t], i) && i >= s.strands[t].first + s.strands[t].started
    requires t < |StrandsAfter(s, act)| && StrandsAfter(s, act)[t] == s.strands[t]
    ensures i < |StrandsAfter(s, act)| && StrandsAfter(s, act)[i] == s.strands[i]
  {
    assert Placed(s.strands, t, s.strands[t]) && Minds(s.strands[t], t, i, s.strands[i]);
    if act.StartFetch? || act.Cancel? {
      assert Placed(s.strands, act.t, s.strands[act.t]);
    }
  }

  lemma FetchingKept(s: State, act: Action, t: nat)
    requires ChildrenPlaced(s.strands) && Enabled(s, act) && t < |StrandsAfter(s, act)|
    requires StrandsAfter(s, act)[t].Fetching?
    ensures Placed(StrandsAfter(s, act), t, StrandsAfter(s, act)[t])
  {
    var n, pc := StrandsAfter(s, act), StrandsAfter(s, act)[t];
    if t < |s.strands| && pc == s.strands[t] {
      assert Placed(s.strands, t, pc);
      forall i: nat | Inside(pc, i) ensures i < |n| && Minds(pc, t, i, n[i]) {
        KindStays(s, act, i);
        assert Minds(pc, t, i, s.strands[i]);
        if i >= pc.first + pc.started { QueuedStays(s, act, t, i); }
      }
    } else if act.StartFetch? {
      assert Placed(s.strands, t, s.strands[t]);
      forall i: nat | Inside(pc, i) ensures i < |n| && Minds(pc, t, i, n[i]) {
        assert Minds(s.strands[t], t, i, s.strands[i]);
      }
    }
  }

  lemma QueuedKept(s: State, act: Action, t: nat)
    requires ChildrenPlaced(s.strands) && Enabled(s, act) && t < |StrandsAfter(s, act)|
    requires StrandsAfter(s, act)[t].FetchQueued?
    ensures Placed(StrandsAfter(s, act), t, StrandsAfter(s, act)[t])
  {
  }

  lemma AwaitKept(s: State, act: Action, t: nat)
    requires ChildrenPlaced(s.strands) && Enabled(s, act) && t < |StrandsAfter(s, act)|
    requires StrandsAfter(s, act)[t].AwaitDownload?
    ensures Placed(StrandsAfter(s, act), t, StrandsAfter(s, act)[t])
  {
    if t < |s.strands| {
      assert Placed(s.strands, t, s.strands[t]);
      if s.strands[t].AwaitDownload? { KindStays(s, act, s.strands[t].child); }
    }
  }

  lemma ChildrenKept(s: State, act: Action)
    requires Inv(s) && Enabled(s, act)
    ensures ChildrenPlaced(StrandsAfter(s, act))
  {
    hide LocksHeld, HoldersOwn, PermitsHeld, StrandsAfter, Enabled;
    var strands := StrandsAfter(s, act);
    forall t: nat | t < |strands| ensures Placed(strands, t, strands[t]) {
      if strands[t].Fetching? {
        FetchingKept(s, act, t);
      } else if strands[t].FetchQueued? {
        QueuedKept(s, act, t);
      } else if strands[t].AwaitDownload? {
        AwaitKept(s, act, t);
      }
    }
  }

  lemma InvKept(s: State, act: Action)
    requires Inv(s) && Enabled(s, act)
    ensures Inv(Apply(s, act))
  {
    LocksKept(s, act);
    HoldersKept(s, act);
    PermitsKept(s, act);
    ChildrenKept(s, act);
    hide LocksHeld, HoldersOwn, PermitsHeld, ChildrenPlaced;
  }

  predicate ValidRun(s: State, acts: seq<Action>)
    decreases |acts|
  {
    acts == [] || (Enabled(s, acts[0]) && ValidRun(Apply(s, acts[0]), acts[1..]))
  }

  function Run(s: State, acts: seq<Action>): State
    requires ValidRun(s, acts)
    decreases |acts|
  {
    if acts == [] then s else Run(Apply(s, acts[0]), acts[1..])
  }

  lemma {:induction false} InvAlways(s: State, acts: seq<Action>)
    requires Inv(s) && ValidRun(s, acts)
    ensures Inv(Run(s, acts))
    decreases |acts|
  {
    hide Inv, Apply, Enabled;
    if acts != [] {
      InvKept(s, acts[0]);
      InvAlways(Apply(s, acts[0]), acts[1..]);
    }
  }

  // ---------------------------------------------------------------- fetches in flight

  ghost predicate SlotsHeld(strands: seq<Pc>) {
    forall t: nat :: t < |strands| && strands[t].Fetching? ==> |Busy(strands, strands[t])| <= SLOTS
  }

  lemma SmallerSet(a: set<nat>, b: set<nat>)
    requires a <= b
    ensures |a| <= |b|
  {
    var rest := b - a;
    assert b == a + rest;
  }

  lemma FinishedStays(s: State, act: Action, i: nat)
    requires ChildrenPlaced(s.strands) && Enabled(s, act) && i < |s.strands| && s.strands[i] == Finished
    ensures i < |StrandsAfter(s, act)| && StrandsAfter(s, act)[i] == Finished
  {
    if act.StartFetch? { QueuedIsNext(s, act.t); }
  }

  /** A strand with fetches inside has just queued them, or started one, or was there before. */
  lemma FetchingBefore(s: State, act: Action, t: nat)
    requires Enabled(s, act) && t < |StrandsAfter(s, act)| && StrandsAfter(s, act)[t].Fetching?
    ensures var pc := StrandsAfter(s, act)[t];
            || pc.started == 0
            || (t < |s.strands| <= |StrandsAfter(s, act)| && pc == s.strands[t])
            || (act == StartFetch(t) && pc == s.strands[t].(started := s.strands[t].started + 1) &&
                |s.strands| == |StrandsAfter(s, act)|)
  {
  }

  /** Strands that finish free slots; starting a fetch takes one. */
  lemma BusyChanges(a: seq<Pc>, b: seq<Pc>, pc: Pc, started: nat)
    requires pc.Fetching? && pc.started <= started <= pc.started + 1 && pc.first + started <= |a| <= |b|
    requires forall i: nat :: i < |a| && a[i] == Finished ==> b[i] == Finished
    ensures |Busy(b, pc.(started := started))| <= |Busy(a, pc)| + (started - pc.started)
  {
    var x := pc.first + pc.started;
    if started == pc.started {
      SmallerSet(Busy(b, pc), Busy(a, pc));
    } else {
      SmallerSet(Busy(b, pc.(started := started)), Busy(a, pc) + {x});
    }
  }

  lemma BusyAfter(s: State, act: Action, t: nat)
    requires Inv(s) && SlotsHeld(s.strands) && Enabled(s, act) && t < |StrandsAfter(s, act)|
    requires StrandsAfter(s, act)[t].Fetching?
    ensures |Busy(StrandsAfter(s, act), StrandsAfter(s, act)[t])| <= SLOTS
  {
    hide LocksHeld, HoldersOwn, PermitsHeld, StrandsAfter, Next, Joins, IsFetch, Minds, Wants;
    var n := StrandsAfter(s, act);
    FetchingBefore(s, act, t);
    if n[t].started == 0 {
      assert Busy(n, n[t]) == {};
    } else {
      assert Placed(s.strands, t, s.strands[t]);
      forall i: nat | i < |s.strands| && s.strands[i] == Finished ensures i < |n| && n[i] == Finished {
        FinishedStays(s, act, i);
      }
      BusyChanges(s.strands, n, s.strands[t], n[t].started);
    }
  }

  lemma {:induction false} SlotsAlways(s: State, acts: seq<Action>)
    requires Inv(s) && SlotsHeld(s.strands) && ValidRun(s, acts)
    ensures SlotsHeld(Run(s, acts).strands)
    decreases |acts|
  {
    hide Inv, Enabled, StrandsAfter, LocksAfter, PermitsAfter, Busy;
    if acts != [] {
      var n := StrandsAfter(s, acts[0]);
      forall t: nat | t < |n| && n[t].Fetching? ensures |Busy(n, n[t])| <= SLOTS { BusyAfter(s, acts[0], t); }
      InvKept(s, acts[0]);
      SlotsAlways(Apply(s, acts[0]), acts[1..]);
    }
  }

  /** No version refresh ever has more than eight package fetches in flight. */
  lemma FetchesBounded(acts: seq<Action>, t: nat)
    requires ValidRun(INIT, acts) && t < |Run(INIT, acts).strands| && Run(INIT, acts).strands[t].Fetching?
    ensures |Busy(Run(INIT, acts).strands, Run(INIT, acts).strands[t])| <= SLOTS
  {
    SlotsAlways(INIT, acts);
  }

  // ---------------------------------------------------------------- progress

  /** A strand's own next step, when it has one. */
  ghost predicate Steps(s: State, t: nat, act: Action) {
    && Enabled(s, act) && !act.Call? && !act.CallArchive? && !act.Cancel? && act.t == t
  }

  lemma LockStepsOrWaits(s: State, t: nat) returns (act: Action, u: nat)
    requires Inv(s) && Live(s, t) && Wants(s.strands[t]).Some?
    ensures Steps(s, t, act) || WaitsFor(s, t, u)
  {
    hide HoldersOwn, PermitsHeld, ChildrenPlaced;
    var lock := Wants(s.strands[t]).value.0;
    act := Acquire(t);
    u := if lock in s.locks then s.locks[lock] else t;
  }

  lemma JoinStepsOrWaits(s: State, t: nat) returns (act: Action, u: nat)
    requires Inv(s) && Live(s, t) && s.strands[t].AwaitDownload?
    ensures Steps(s, t, act) || WaitsFor(s, t, u)
  {
    hide HoldersOwn, PermitsHeld, LocksHeld;
    act, u := Join(t), s.strands[t].child;
  }

  /** A strand with fetches inside starts the next one, or joins them, or waits for one that
      was started: for a slot, or because it is the last there is to wait for. */
  lemma FetchingStepsOrWaits(s: State, t: nat) returns (act: Action, u: nat)
    requires Inv(s) && Live(s, t) && s.strands[t].Fetching?
    ensures Steps(s, t, act) || WaitsFor(s, t, u)
  {
    hide HoldersOwn, PermitsHeld, LocksHeld;
    var pc := s.strands[t];
    assert Placed(s.strands, t, pc);
    u := t;
    if pc.started < pc.count {
      act := StartFetch(t);
      if |Busy(s.strands, pc)| >= SLOTS { u :| u in Busy(s.strands, pc); }
    } else {
      act := Join(t);
      if !Joins(s, pc) { u :| pc.first <= u < pc.first + pc.count && s.strands[u] != Finished; }
    }
  }

  lemma PermitStepsOrWaits(s: State, t: nat) returns (act: Action, u: nat)
    requires Inv(s) && Live(s, t) && s.strands[t].WantPermit?
    ensures Steps(s, t, act) || WaitsFor(s, t, u)
  {
    hide HoldersOwn, ChildrenPlaced, LocksHeld;
    act := TakePermit(t);
    u := t;
    if |s.permits| == PERMITS { u :| u in s.permits; }
  }

  lemma QueuedWaits(s: State, t: nat)
    requires Inv(s) && Live(s, t) && s.strands[t].FetchQueued?
    ensures WaitsFor(s, t, s.strands[t].parent)
  {
    hide HoldersOwn, PermitsHeld, LocksHeld;
    assert Placed(s.strands, t, s.strands[t]);
  }

  /** A strand that is not finished can step, or waits for one that is not finished either. */
  lemma StepsOrWaits(s: State, t: nat) returns (act: Action, u: nat)
    requires Inv(s) && Live(s, t)
    ensures Steps(s, t, act) || WaitsFor(s, t, u)
  {
    hide Inv, WaitsFor;
    var pc := s.strands[t];
    u := t;
    if Wants(pc).Some? {
      act, u := LockStepsOrWaits(s, t);
    } else if pc.WantPermit? {
      act, u := PermitStepsOrWaits(s, t);
    } else if pc.Fetching? {
      act, u := FetchingStepsOrWaits(s, t);
    } else if pc.FetchQueued? {
      act, u := Join(t), pc.parent;
      QueuedWaits(s, t);
    } else if pc.AwaitDownload? {
      act, u := JoinStepsOrWaits(s, t);
    } else if pc.Loaded? {
      act := Go(t, Looking(pc.key));
    } else if pc.InIndex? || pc.InDiscovery? || pc.Asking? {
      act := LeaveIndex(t, pc.why);
    } else {
      act := Go(t, Finished);
    }
  }

  function LeaveIndex(t: nat, why: Why): Action {
    Go(t, if why.Sync? && why.rest != [] then WantIndex(Sync(why.rest[1..]), why.rest[0]) else Finished)
  }

  lemma {:induction false} SomeoneSteps(s: State, t: nat) returns (u: nat, act: Action)
    requires Inv(s) && Live(s, t)
    ensures Steps(s, u, act)
    decreases 5 - RankOf(s, t)
  {
    hide Inv, WaitsFor, Steps;
    var v: nat;
    act, v := StepsOrWaits(s, t);
    u := t;
    if !Steps(s, t, act) {
      WaitingClimbs(s, t, v);
      WaitedIsLive(s, t, v);
      u, act := SomeoneSteps(s, v);
    }
  }

  lemma WaitedIsLive(s: State, t: nat, u: nat)
    requires WaitsFor(s, t, u)
    ensures Live(s, u)
  {
  }

  /** No reachable state is stuck: the wait-for graph has no cycle, and while any request,
      fetch or download is unfinished, one of them can step. */
  lemma NeverStuck(acts: seq<Action>, t: nat, cycle: seq<nat>) returns (u: nat, act: Action)
    requires ValidRun(INIT, acts) && Live(Run(INIT, acts), t)
    ensures Steps(Run(INIT, acts), u, act)
    ensures !IsCycle(Run(INIT, acts), cycle)
  {
    InvAlways(INIT, acts);
    NoCycle(Run(INIT, acts), cycle);
    u, act := SomeoneSteps(Run(INIT, acts), t);
  }

  // ---------------------------------------------------------------- every request is answered

  function AfterWork(why: Why): nat {
    match why
    case List => 0
    case Sync(rest) => 5 * |rest|
    case Load(_) => 520
    case Force(_) => 514
  }

  /** A bound on the steps a strand has yet to take, with those of the fetches it may start. */
  function Work(pc: Pc): nat {
    match pc
    case WantVersion(_) => 527
    case InVersion(_) => 526
    case WantIndex(why, _) => 5 + AfterWork(why)
    case InIndex(why, _) => 4 + AfterWork(why)
    case WantDiscovery(why, _) => 3 + AfterWork(why)
    case InDiscovery(why, _) => 2 + AfterWork(why)
    case Asking(why, _) => 1 + AfterWork(why)
    case Loaded(_) => 520
    case Looking(_) => 2 + 4 * MAX_PLATFORMS
    case Fetching(_, _, count, started) => 1 + if started < count then count - started else 0
    case FetchQueued(_, _) => 3
    case FetchStart(_) => 3
    case FetchWant(_) => 2
    case FetchIn(_) => 1
    case AwaitDownload(_) => 1
    case WantArchive(_) => 4
    case InArchive(_) => 3
    case WantPermit(_) => 2
    case Downloading(_) => 1
    case Finished => 0
  }

  function TotalWork(strands: seq<Pc>): nat {
    if strands == [] then 0 else TotalWork(strands[..|strands| - 1]) + Work(strands[|strands| - 1])
  }

  lemma {:induction false} TotalPointwise(a: seq<Pc>, b: seq<Pc>, t: nat)
    requires |a| == |b| && forall i :: 0 <= i < |a| ==> Work(b[i]) <= Work(a[i])
    requires t < |a| ==> Work(b[t]) < Work(a[t])
    ensures TotalWork(b) <= TotalWork(a) && (t < |a| ==> TotalWork(b) < TotalWork(a))
  {
    hide Work;
    if a != [] { TotalPointwise(a[..|a| - 1], b[..|b| - 1], t); }
  }

  lemma {:induction false} TotalOfFetches(strands: seq<Pc>, host: string, t: nat, count: nat)
    ensures TotalWork(strands + seq(count, _ => FetchQueued(host, t))) == TotalWork(strands) + 3 * count
  {
    var all := strands + seq(count, _ => FetchQueued(host, t));
    if count == 0 {
      assert all == strands;
    } else {
      TotalOfFetches(strands, host, t, count - 1);
      assert all[..|all| - 1] == strands + seq(count - 1, _ => FetchQueued(host, t));
    }
  }

  lemma {:induction false} TotalUpdate(strands: seq<Pc>, t: nat, pc: Pc)
    requires t < |strands|
    ensures TotalWork(strands[t := pc]) == TotalWork(strands) - Work(strands[t]) + Work(pc)
  {
    hide Work;
    var n := |strands| - 1;
    if t == n {
      assert strands[t := pc][..n] == strands[..n];
    } else {
      TotalUpdate(strands[..n], t, pc);
      assert strands[t := pc][..n] == strands[..n][t := pc];
    }
  }

  lemma NextWorksLess(pc: Pc, next: Pc)
    requires Next(pc, next)
    ensures Work(next) < Work(pc)
  {
  }

  lemma WantedWorksLess(pc: Pc)
    requires Wants(pc).Some?
    ensures Work(Wants(pc).value.1) < Work(pc)
  {
  }

  /** Every step but a new call uses up work. */
  lemma StepUsesWork(s: State, act: Action)
    requires Inv(s) && Enabled(s, act) && !act.Call? && !act.CallArchive?
    ensures TotalWork(StrandsAfter(s, act)) < TotalWork(s.strands)
  {
    hide TotalWork;
    var t := act.t;
    match act {
      case Acquire(_) =>
        WantedWorksLess(s.strands[t]);
        TotalUpdate(s.strands, t, Wants(s.strands[t]).value.1);
      case TakePermit(_) => TotalUpdate(s.strands, t, Downloading(s.strands[t].a));
      case Go(_, pc) =>
        NextWorksLess(s.strands[t], pc);
        TotalUpdate(s.strands, t, pc);
      case QueueFetches(_, count) =>
        var key := s.strands[t].key;
        TotalUpdate(s.strands, t, Fetching(key, |s.strands|, count, 0));
        TotalOfFetches(s.strands[t := Fetching(key, |s.strands|, count, 0)], key.provider.hostname, t, count);
      case StartFetch(_) =>
        var pc := s.strands[t];
        QueuedIsNext(s, t);
        var moved := pc.(started := pc.started + 1);
        TotalUpdate(s.strands, t, moved);
        TotalUpdate(s.strands[t := moved], pc.first + pc.started, FetchStart(pc.key.provider.hostname));
      case Join(_) => TotalUpdate(s.strands, t, Finished);
      case Cancel(_) => TotalPointwise(s.strands, Dropped(s.strands, t), t);
    }
  }

  /** Without new calls a run takes no more steps than there is work. */
  lemma {:induction false} RunsEnd(s: State, acts: seq<Action>)
    requires Inv(s) && ValidRun(s, acts)
    requires forall i :: 0 <= i < |acts| ==> !acts[i].Call? && !acts[i].CallArchive?
    ensures |acts| <= TotalWork(s.strands)
    decreases |acts|
  {
    hide TotalWork, Inv, Enabled, StrandsAfter, LocksAfter, PermitsAfter;
    if acts != [] {
      InvKept(s, acts[0]);
      StepUsesWork(s, acts[0]);
      RunsEnd(Apply(s, acts[0]), acts[1..]);
    }
  }

  /** From every reachable state, whichever steps are taken while any can be, and with no new
      calls, the run comes to an end, and there every strand is finished. */
  lemma EveryCallAnswered(before: seq<Action>, acts: seq<Action>, t: nat)
    requires ValidRun(INIT, before) && ValidRun(Run(INIT, before), acts)
    requires forall i :: 0 <= i < |acts| ==> !acts[i].Call? && !acts[i].CallArchive?
    requires forall u, act :: !Steps(Run(Run(INIT, before), acts), u, act)
    ensures |acts| <= TotalWork(Run(INIT, before).strands)
    ensures !Live(Run(Run(INIT, before), acts), t)
  {
    hide Enabled, Apply, TotalWork, Inv, Steps;
    var s := Run(INIT, before);
    assert Inv(INIT) by { InitInv(); }
    InvAlways(INIT, before);
    InvAlways(s, acts);
    RunsEnd(s, acts);
    if Live(Run(s, acts), t) {
      var u, act := SomeoneSteps(Run(s, acts), t);
    }
  }

  lemma InitInv()
    ensures Inv(INIT)
  {
  }

  // ---------------------------------------------------------------- one at a time

  /** From taking its lock to its end, whatever it is waiting for meanwhile. */
  predicate LoadsVersion(pc: Pc, key: VersionKey) {
    match pc
    case InVersion(k) => k == key
    case Loaded(k) => k == key
    case Looking(k) => k == key
    case Fetching(k, _, _, _) => k == key
    case WantIndex(why, _) => why == Load(key) || why == Force(key)
    case InIndex(why, _) => why == Load(key) || why == Force(key)
    case WantDiscovery(why, _) => why == Load(key) || why == Force(key)
    case InDiscovery(why, _) => why == Load(key) || why == Force(key)
    case Asking(why, _) => why == Load(key) || why == Force(key)
    case _ => false
  }

  predicate LoadsIndex(pc: Pc, provider: ProviderKey) {
    (pc.InIndex? || pc.WantDiscovery? || pc.InDiscovery? || pc.Asking?) && pc.p == provider
  }

  predicate Discovers(pc: Pc, host: string) {
    (pc.InDiscovery? && pc.p.hostname == host) || pc == FetchIn(host)
  }

  predicate LoadsArchive(pc: Pc, a: ArchiveKey) {
    (pc.InArchive? || pc.WantPermit? || pc.Downloading?) && pc.a == a
  }

  /** In every reachable state no two strands load the same version, index or archive, or
      discover the same host, and at most eight download. */
  lemma OneAtATime(acts: seq<Action>, t: nat, u: nat, downloading: set<nat>)
    requires ValidRun(INIT, acts) && t < u < |Run(INIT, acts).strands|
    requires forall d :: d in downloading ==>
               d < |Run(INIT, acts).strands| && Run(INIT, acts).strands[d].Downloading?
    ensures var a, b := Run(INIT, acts).strands[t], Run(INIT, acts).strands[u];
            && (forall key :: !(LoadsVersion(a, key) && LoadsVersion(b, key)))
            && (forall p :: !(LoadsIndex(a, p) && LoadsIndex(b, p)))
            && (forall host :: !(Discovers(a, host) && Discovers(b, host)))
            && (forall archive :: !(LoadsArchive(a, archive) && LoadsArchive(b, archive)))
    ensures |downloading| <= 8
  {
    hide Run, ValidRun, LocksHeld, ChildrenPlaced, Holds, LoadsVersion, LoadsIndex, Discovers, LoadsArchive;
    InitInv();
    InvAlways(INIT, acts);
    var s := Run(INIT, acts);
    SmallerSet(downloading, s.permits);
    LoadersHold(s.strands[t]);
    LoadersHold(s.strands[u]);
    assert forall l :: l in Holds(s.strands[t]) ==> l in s.locks && s.locks[l] == t;
    assert forall l :: l in Holds(s.strands[u]) ==> l in s.locks && s.locks[l] == u;
  }

  lemma LoadersHold(pc: Pc)
    ensures forall key :: LoadsVersion(pc, key) ==> VersionLock(key) in Holds(pc)
    ensures forall p :: LoadsIndex(pc, p) ==> IndexLock(p) in Holds(pc)
    ensures forall host :: Discovers(pc, host) ==> DiscoveryLock(host) in Holds(pc)
    ensures forall a :: LoadsArchive(pc, a) ==> ArchiveLock(a) in Holds(pc)
  {
  }

  /** In every reachable state a waiting fetch may start if and only if fewer than eight of the
      same refresh are under way, and a waiting download if and only if fewer than eight are. */
  lemma EightEach(acts: seq<Action>, t: nat, downloading: set<nat>)
    requires ValidRun(INIT, acts) && t < |Run(INIT, acts).strands|
    requires forall d: nat :: d in downloading <==>
               d < |Run(INIT, acts).strands| && Run(INIT, acts).strands[d].Downloading?
    ensures var s := Run(INIT, acts);
            && (Enabled(s, StartFetch(t)) <==>
                  && s.strands[t].Fetching? && s.strands[t].started < s.strands[t].count
                  && |Busy(s.strands, s.strands[t])| < 8)
            && (Enabled(s, TakePermit(t)) <==> s.strands[t].WantPermit? && |downloading| < 8)
  {
    hide Run, ValidRun, LocksHeld, HoldersOwn, Minds;
    InitInv();
    InvAlways(INIT, acts);
    var s := Run(INIT, acts);
    assert Placed(s.strands, t, s.strands[t]);
    assert downloading == s.permits;
  }
}
