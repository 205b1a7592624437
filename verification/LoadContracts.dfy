/**
 What the loads of the metadata service promise: how they may be answered, on what grounds,
 and what a version refresh makes of its inputs; with the facts their proofs share.
 */
module LoadContracts {
  import opened Common
  import opened Metadata
  import opened CacheState
  import opened Merge
  import A = ArchiveName
  import B = Backoff

  datatype RegistryError = NoSuchProvider | Unavailable

  type IndexResult = Result<IndexEntry, MetadataError>
  type VersionResult = Result<VersionEntry, MetadataError>
  type RegistryAnswer = Result<seq<RegistryVersion>, RegistryError>
  type PackageAnswer = Result<Package, RegistryError>

  /** What comes of writing a document: it fails before the rename, or after it when the
      directory cannot be synchronised, or succeeds. */
  datatype Write = NotRenamed | NotSynced | Durable

  /** What the outside will say in the course of an index load, if it comes to that: whether the
      disk can be read, what the registry answers, and what comes of writing the answer. */
  datatype IndexIo = IndexIo(readable: bool, answer: RegistryAnswer, write: Write)

  /** And in the course of a version load: for the index, when loaded and when asked for again;
      and for each platform of the line, by its place in it. */
  datatype VersionIo = VersionIo(
    readable: bool, load: IndexIo, again: IndexIo, packages: nat -> PackageAnswer, write: Write)

  function MapRegistry(e: RegistryError): MetadataError {
    match e
    case NoSuchProvider => NotFound
    case Unavailable => Registry
  }

  predicate ShouldBackoff(e: MetadataError) {
    !(e.NotFound? || e.InvalidAddress? || e.RegistryNotAllowed?)
  }

  /** A version the registry does not have is no error to a client. */
  function Reply(loaded: VersionResult): Result<Option<VersionMetadata>, MetadataError> {
    match loaded
    case Ok(entry) => Ok(Some(entry.value))
    case Err(NotFound) => Ok(None)
    case Err(e) => Err(e)
  }

  /** How a load was answered. */
  datatype Served = Hit | Unreadable | HeldBack | Refreshed | FellBack(error: MetadataError)

  /** A deadline still to come forbids asking, if there is any backoff at all. */
  predicate InForce(deadlines: B.Deadlines, key: B.Key, at: World, cfg: Settings) {
    0 < cfg.backoff && key in deadlines && at.mono < deadlines[key]
  }

  /** In clock terms: an entry is young until its lifetime has passed since it was fetched, the
      shorter one for a partial entry; a lifetime of zero is none, even with the clock set back. */
  predicate Young<T>(cfg: Settings, e: CacheEntry<T>, wall: nat) {
    if e.complete then 0 < cfg.freshness && wall < e.fetchedAt + cfg.freshness
    else 0 < cfg.partialRetry && wall < e.fetchedAt + cfg.partialRetry
  }

  /** What the code tests, by a saturating difference, is that. */
  lemma FreshExactly<T>(cfg: Settings, e: CacheEntry<T>, wall: nat)
    ensures Fresh(cfg, e, wall) <==> Young(cfg, e, wall)
  {
  }

  function Or<T>(known: Option<T>, e: MetadataError): Result<T, MetadataError> {
    if known.Some? then Ok(known.value) else Err(e)
  }

  function Known<K, T>(m: map<K, T>, k: K): Option<T> {
    if k in m then Some(m[k]) else None
  }

  /** The failures that count: trouble with the registry, the network or the disk. */
  predicate Counts(e: MetadataError) {
    e.Registry? || e.Io? || e.RefreshBackoff?
  }

  /** A failure that counts has set the key's deadline one backoff ahead. */
  predicate Penalised(deadlines: B.Deadlines, key: B.Key, e: MetadataError, at: World, cfg: Settings) {
    Counts(e) ==> key in deadlines && deadlines[key] == at.mono + cfg.backoff
  }

  /** How an outcome is noted among the deadlines: success clears the key's, a failure that
      counts sets it, and any other failure changes nothing. */
  ghost predicate Noted<T>(cfg: Settings, before: B.Deadlines, after: B.Deadlines, key: B.Key, mono: int,
                           r: Result<T, MetadataError>)
  {
    match r
    case Ok(_) => after == before - {key}
    case Err(e) => if Counts(e) then B.NotedFailure(before, after, key, mono, cfg.backoff) else after == before
  }

  lemma NotedPenalises<T>(cfg: Settings, before: B.Deadlines, after: B.Deadlines, key: B.Key, at: World,
                          r: Result<T, MetadataError>)
    requires Noted(cfg, before, after, key, at.mono, r)
    ensures r.Ok? ==> key !in after
    ensures r.Err? ==> Penalised(after, key, r.error, at, cfg)
  {
  }

  // ---------------------------------------------------------------- instants

  /** A stretch of a service's history: its events from the `from`-th on. */
  datatype Span = Span(birth: World, log: seq<Event>, from: nat)

  /** A state the service was in, at the start of the stretch or after one of its events. */
  ghost predicate During(sp: Span, at: World) {
    exists i: nat :: sp.from <= i <= |sp.log| && StateAt(sp.birth, sp.log, i) == at
  }

  ghost predicate Part(a: Span, b: Span) {
    a.birth == b.birth && a.log <= b.log && b.from <= a.from
  }

  // ---------------------------------------------------------------- asking the registry

  /** A question to the registry: the instant its answer came, and the instants before and after
      the outcome was noted among the deadlines. */
  datatype Ask = Ask(replied: World, noting: World, settled: World)

  /** What an answer leads to: a valid one, once written, to an index stamped with the clock when
      it came; any other to an error, and so does a failure to write it. */
  predicate Outcome(io: IndexIo, replied: World, r: IndexResult) {
    match io.answer
    case Err(refused) => r == Err(if refused.NoSuchProvider? then NotFound else Registry)
    case Ok(versions) =>
      if !ValidateRegistryVersions(versions) then r == Err(InvalidAddress)
      else if io.write.Durable? then r == Ok(CacheEntry(replied.wall, true, versions))
      else r == Err(Io)
  }

  /** Success is in memory, was written first, and has cleared the deadline; a failure that
      counts has set it, and nothing else was done to it. */
  ghost predicate Answered(cfg: Settings, io: IndexIo, key: ProviderKey, q: Ask, r: IndexResult) {
    && Outcome(io, q.replied, r)
    && SameEntries(q.noting, q.settled)
    && Noted(cfg, q.noting.indexFailures, q.settled.indexFailures, B.OfProvider(key), q.settled.mono, r)
    && (r.Ok? ==> Known(q.settled.indices, key) == Some(r.value) && WroteIndex(key, r.value) in q.settled.written)
  }

  // ---------------------------------------------------------------- index loads

  /** What an index load answers, by the state `at` one instant of the call. */
  predicate IndexAnswer(cfg: Settings, at: World, key: ProviderKey, r: IndexResult, how: Served) {
    var known := Known(at.indices, key);
    match how
    case Hit => known.Some? && Young(cfg, known.value, at.wall) && r == Ok(known.value)
    case Unreadable => known.None? && r == Err(Io)
    case HeldBack => InForce(at.indexFailures, B.OfProvider(key), at, cfg) && r == Or(known, RefreshBackoff)
    case Refreshed =>
      && known.Some? && r == Ok(known.value) && known.value.complete
      && WroteIndex(key, known.value) in at.written && B.OfProvider(key) !in at.indexFailures
    case FellBack(e) => Penalised(at.indexFailures, B.OfProvider(key), e, at, cfg) && r == Or(known, e)
  }

  /** The instants of a load, in order: the look at the disk, the last time nothing fresh was
      found, the question whether the registry may be asked, the one before an outcome was
      noted among the deadlines, and the one that decides the answer; and, for an index, what
      became of asking. */
  datatype Trace = Trace(looked: World, stale: World, asked: World, noting: World, at: World, ask: Option<Ask>)

  /** A load that ended `at` an instant without asking anyone. */
  function Unasked(looked: World, at: World): Trace {
    Trace(looked, at, at, at, at, None)
  }

  ghost predicate AskDuring(sp: Span, ask: Option<Ask>) {
    ask.Some? ==>
      && During(sp, ask.value.replied) && During(sp, ask.value.noting) && During(sp, ask.value.settled)
      && Evolves(ask.value.replied, ask.value.noting)
  }

  ghost predicate Traced(sp: Span, trace: Trace) {
    && During(sp, trace.looked) && During(sp, trace.stale) && During(sp, trace.asked)
    && During(sp, trace.noting) && During(sp, trace.at)
    && AskDuring(sp, trace.ask) && Ordered(trace)
  }

  ghost predicate Ordered(trace: Trace) {
    && Evolves(trace.looked, trace.stale) && Evolves(trace.stale, trace.asked)
    && Evolves(trace.asked, trace.noting) && Evolves(trace.noting, trace.at)
    && (trace.ask.Some? ==> Evolves(trace.asked, trace.ask.value.replied))
  }

  predicate UsableIndex(w: World, key: ProviderKey) {
    && w.past != [] && IndexPath(key) in CurrentDisk(w)
    && CurrentDisk(w)[IndexPath(key)].IndexDoc?
    && ValidateRegistryVersions(CurrentDisk(w)[IndexPath(key)].index.value)
  }

  /** What a look at the disk finds. */
  function IndexOnDisk(w: World, key: ProviderKey): Option<IndexEntry> {
    if UsableIndex(w, key) then Some(CurrentDisk(w)[IndexPath(key)].index) else None
  }

  /** Why an index load did not just return a cached index: nothing fresh was in memory; the
      registry was asked only when no deadline forbade it, and what came of it is the result or
      the reason for falling back; with none in memory, the very index then on disk was taken
      into memory before that, if it was usable, and the load failed there if and only if the
      disk could not be read; otherwise it ends in an error only if the disk had no usable index. */
  ghost predicate IndexGrounds(cfg: Settings, io: IndexIo, trace: Trace, key: ProviderKey,
                               r: IndexResult, how: Served)
  {
    && (how.Unreadable? <==> key !in trace.looked.indices && !io.readable)
    && (!how.Hit? && key in trace.stale.indices ==> !Young(cfg, trace.stale.indices[key], trace.stale.wall))
    && (how.Refreshed? || how.FellBack? ==>
          && !InForce(trace.asked.indexFailures, B.OfProvider(key), trace.asked, cfg)
          && trace.ask.Some? && trace.ask.value.noting == trace.noting && trace.ask.value.settled == trace.at
          && Answered(cfg, io, key, trace.ask.value, if how.Refreshed? then r else Err(how.error)))
    && (!how.Unreadable? && key !in trace.looked.indices ==>
          Known(trace.stale.indices, key) == IndexOnDisk(trace.looked, key))
    && (r.Err? && !how.Unreadable? ==> !UsableIndex(trace.looked, key))
  }

  // ---------------------------------------------------------------- the index of a version

  /** The first listed version that is spelled like the key, up to one leading `v`. */
  function Summary(versions: seq<RegistryVersion>, version: string): Option<RegistryVersion> {
    if versions == [] then None
    else if NormalizeVersion(versions[0].version) == version then Some(versions[0])
    else Summary(versions[1..], version)
  }

  predicate Lists(index: IndexEntry, version: string) {
    Summary(index.value, version).Some?
  }

  /** How the index for a version was come by. */
  datatype Found = LoadFailed | Listed | Throttled | Asked

  /** The lookup of an index for a version: the load it began with, the second look `before`
      under the index lock, the question `at` which it was asked for again, the instant `seen`
      at which the index used was in memory, and what became of asking again. */
  datatype Lookup = Lookup(
    loaded: IndexResult, how: Served, load: Trace,
    found: Found, before: World, at: World, seen: World, ask: Option<Ask>)

  ghost predicate LookupTraced(sp: Span, l: Lookup) {
    Traced(sp, l.load) && Forced(sp, l)
  }

  /** The part of a lookup after the load. */
  ghost predicate Forced(sp: Span, l: Lookup) {
    During(sp, l.before) && During(sp, l.at) && During(sp, l.seen) && Evolves(l.before, l.at) && AskDuring(sp, l.ask)
  }

  /** The lookup began with an index load, with its answer and grounds, and if that index lists
      the version it is the one used. */
  ghost predicate Began(cfg: Settings, io: IndexIo, l: Lookup, key: VersionKey, r: IndexResult) {
    && IndexAnswer(cfg, l.load.at, key.provider, l.loaded, l.how)
    && IndexGrounds(cfg, io, l.load, key.provider, l.loaded, l.how)
    && (l.loaded.Ok? && Lists(l.loaded.value, key.version) ==> l.found.Listed? && r == l.loaded)
  }

  /** An index it ends with was in memory at an instant of the call: one that lists the version
      or, under a deadline, does not; or one that was asked for again, when the index then in
      memory did not list the version and no deadline was in force, the miss deadline being set
      first.  An error it ends with is that of the load or of asking. */
  ghost predicate Concluded(cfg: Settings, io: IndexIo, l: Lookup, key: VersionKey, r: IndexResult) {
    var k := B.OfProvider(key.provider);
    && (r.Ok? ==> Known(l.seen.indices, key.provider) == Some(r.value))
    && match l.found
       case LoadFailed => l.loaded.Err? && r == l.loaded
       case Listed => r.Ok? && Lists(r.value, key.version)
       case Throttled =>
         && r.Ok? && !Lists(r.value, key.version)
         && (InForce(l.at.missRefreshes, k, l.at, cfg) || InForce(l.at.indexFailures, k, l.at, cfg))
       case Asked =>
         && key.provider in l.before.indices && !Lists(l.before.indices[key.provider], key.version)
         && !InForce(l.before.missRefreshes, k, l.before, cfg) && !InForce(l.at.indexFailures, k, l.at, cfg)
         && Known(l.at.missRefreshes, k) == Some(l.at.mono + cfg.backoff)
         && l.ask.Some? && Answered(cfg, io, key.provider, l.ask.value, r)
  }

  ghost predicate IndexLookup(cfg: Settings, io: VersionIo, l: Lookup, key: VersionKey, r: IndexResult) {
    Began(cfg, io.load, l, key, r) && Concluded(cfg, io.again, l, key, r)
  }

  // ---------------------------------------------------------------- version loads

  /** What a version load answers, by the state `at` one instant of the call. */
  predicate VersionAnswer(cfg: Settings, at: World, key: VersionKey, r: VersionResult, how: Served) {
    var known := Known(at.versions, key);
    match how
    case Hit => known.Some? && Young(cfg, known.value, at.wall) && r == Ok(known.value)
    case Unreadable => known.None? && r == Err(Io)
    case HeldBack => InForce(at.versionFailures, B.OfVersion(key), at, cfg) && r == Or(known, RefreshBackoff)
    case Refreshed =>
      && known.Some? && r == Ok(known.value)
      && WroteVersion(key, known.value) in at.written && B.OfVersion(key) !in at.versionFailures
    case FellBack(e) => Penalised(at.versionFailures, B.OfVersion(key), e, at, cfg) && r == Or(known, e)
  }

  predicate UsableVersion(syn: Syntax, w: World, key: VersionKey) {
    w.past != [] && Reloads(syn, CurrentDisk(w), key)
  }

  function VersionOnDisk(syn: Syntax, w: World, key: VersionKey): Option<VersionEntry> {
    if UsableVersion(syn, w, key) then Some(CurrentDisk(w)[VersionPath(key)].version) else None
  }

  /** A package answer counts only if it passes validation against its request. */
  function Checked(syn: Syntax, key: VersionKey, p: RegistryPlatform, answer: PackageAnswer): Fetch {
    match answer
    case Err(e) => Failed(MapRegistry(e))
    case Ok(package) => if ValidatePackage(syn, key, p, package) then Fetched(package) else Failed(InvalidAddress)
  }

  /** What an answer to one package request counts as: a package if there is one and it passes
      validation against the request, and otherwise the reason why not. */
  ghost predicate Counted(syn: Syntax, key: VersionKey, p: RegistryPlatform, answer: PackageAnswer, fetch: Fetch) {
    match answer
    case Err(NoSuchProvider) => fetch == Failed(NotFound)
    case Err(_) => fetch == Failed(Registry)
    case Ok(package) =>
      && (ValidatePackage(syn, key, p, package) ==> fetch == Fetched(package))
      && (!ValidatePackage(syn, key, p, package) ==> fetch == Failed(InvalidAddress))
  }

  ghost predicate AllChecked(syn: Syntax, key: VersionKey, platforms: seq<RegistryPlatform>,
                             packages: nat -> PackageAnswer, fetched: seq<Fetch>)
  {
    && |fetched| <= |platforms|
    && forall i :: 0 <= i < |fetched| ==> Counted(syn, key, platforms[i], packages(i), fetched[i])
  }

  /** What a version refresh makes of the index's platforms, the cached ones and the fetches. */
  ghost predicate Built(key: VersionKey, summary: seq<RegistryPlatform>, cached: seq<Package>, fetched: seq<Fetch>,
                        wall: nat, write: Write, r: VersionResult)
  {
    && |fetched| == |summary|
    && var platforms := Merged(summary, cached, fetched, |summary|);
       var error := FirstError(fetched, |fetched|);
       if platforms == [] && error.Some? then r == Err(error.value)
       else if write.Durable? then r.Ok? && Stored(key, platforms, wall, error.None?, r.value)
       else r == Err(Io)
  }

  /** A document for the key with these platforms, stamped and marked. */
  predicate Stored(key: VersionKey, platforms: seq<Package>, wall: nat, complete: bool, e: VersionEntry) {
    && e.fetchedAt == wall && e.complete == complete
    && e.value.hostname == key.provider.hostname && e.value.namespace == key.provider.namespace
    && e.value.providerType == key.provider.providerType && e.value.version == key.version
    && e.value.platforms == platforms
  }

  /** What a merge went by: the line of the index, the packages cached, what the answers counted
      as, and the instant it was made. */
  datatype Basis = Basis(summary: RegistryVersion, cached: seq<Package>, fetched: seq<Fetch>, merged: World)

  ghost predicate RestsOn(syn: Syntax, io: VersionIo, key: VersionKey, basis: Basis, r: VersionResult) {
    && AllChecked(syn, key, basis.summary.platforms, io.packages, basis.fetched)
    && Built(key, basis.summary.platforms, basis.cached, basis.fetched, basis.merged.wall, io.write, r)
  }

  /** A line of the index with a platform that no archive can be named after makes every
      document for that version partial, whatever the registry answers. */
  lemma UnnameableNeverComplete(syn: Syntax, io: VersionIo, key: VersionKey, basis: Basis, r: VersionResult, i: nat)
    requires A.SemverFacts(syn.semver) && RestsOn(syn, io, key, basis, r) && i < |basis.summary.platforms|
    requires !A.ValidPlatform(basis.summary.platforms[i].os, basis.summary.platforms[i].arch)
    ensures r.Ok? ==> !r.value.complete
  {
    hide ValidatePackage, Merged, A.SemverFacts, A.ValidPlatform;
    if io.packages(i).Ok? { ListedPlatforms(syn, key, basis.summary.platforms[i], io.packages(i).value); }
    assert Counted(syn, key, basis.summary.platforms[i], io.packages(i), basis.fetched[i]);
    FirstErrorExactly(basis.fetched, |basis.fetched|);
  }

  /** The refresh of a version: the index it was looked up in, how that was come by, and what
      the merge went by, if it came to one. */
  datatype Refresh = Refresh(index: IndexResult, lookup: Lookup, basis: Option<Basis>)

  ghost predicate RefreshTraced(sp: Span, f: Refresh) {
    LookupTraced(sp, f.lookup) && (f.basis.Some? ==> During(sp, f.basis.value.merged))
  }

  /** Without an index the refresh ends in the lookup's error, and without a line for the
      version in not-found; otherwise its result rests on that line, on the packages cached at
      `start`, and on validated answers. */
  ghost predicate VersionRefresh(cfg: Settings, io: VersionIo, key: VersionKey, f: Refresh, start: World,
                                 r: VersionResult)
  {
    && IndexLookup(cfg, io, f.lookup, key, f.index)
    && match f.index
       case Err(e) => f.basis.None? && r == Err(e)
       case Ok(index) =>
         var line := Summary(index.value, key.version);
         if line.None? then f.basis.None? && r == Err(NotFound)
         else
           && f.basis.Some? && f.basis.value.summary == line.value
           && f.basis.value.cached == CachedPlatforms(start, key) && RestsOn(cfg.syn, io, key, f.basis.value, r)
  }

  /** The grounds of a version load: as for an index, with the refresh in place of the ask. */
  ghost predicate VersionGrounds(cfg: Settings, io: VersionIo, trace: Trace, f: Option<Refresh>, key: VersionKey,
                                 r: VersionResult, how: Served)
  {
    && (how.Unreadable? <==> key !in trace.looked.versions && !io.readable)
    && (!how.Hit? && key in trace.stale.versions ==> !Young(cfg, trace.stale.versions[key], trace.stale.wall))
    && (how.Refreshed? || how.FellBack? ==>
          && !InForce(trace.asked.versionFailures, B.OfVersion(key), trace.asked, cfg)
          && SameEntries(trace.noting, trace.at)
          && var outcome := if how.Refreshed? then r else Err(how.error);
             && f.Some? && VersionRefresh(cfg, io, key, f.value, trace.asked, outcome)
             && Noted(cfg, trace.noting.versionFailures, trace.at.versionFailures, B.OfVersion(key), trace.at.mono,
                      outcome))
    && (!how.Unreadable? && key !in trace.looked.versions ==>
          Known(trace.stale.versions, key) == VersionOnDisk(cfg.syn, trace.looked, key))
    && (r.Err? && !how.Unreadable? ==> !UsableVersion(cfg.syn, trace.looked, key))
  }

  // ---------------------------------------------------------------- shared facts

  /** Whoever holds more may rely on more. */
  lemma Lift(a: World, b: World, held: Held, outer: Held)
    requires Rely(a, b, held) && outer.indices <= held.indices && outer.versions <= held.versions
    ensures Rely(a, b, outer)
  {
    hide Evolves;
  }

  lemma OnDiskOnce(a: World, b: World, f: File)
    requires a.past != [] && f in CurrentDisk(a) && Evolves(a, b)
    ensures WasOnDisk(b.past, f, CurrentDisk(a)[f])
  {
    assert b.past[|a.past| - 1] == CurrentDisk(a);
  }

  function CachedPlatforms(w: World, key: VersionKey): seq<Package> {
    if key in w.versions then w.versions[key].value.platforms else []
  }

  lemma CachedIsSound(syn: Syntax, w: World, key: VersionKey)
    requires Inv(syn, w)
    ensures ValidatePackages(syn, key, CachedPlatforms(w, key))
  {
    hide ValidatePackage;
  }

  lemma NoneCompleted()
    ensures IsCompletion([], [])
  {
  }

  /** A further answer may come in anywhere among those already in. */
  lemma OneMoreCompleted(completed: seq<(int, Fetch)>, fetched: seq<Fetch>, slot: nat, result: Fetch)
    requires IsCompletion(completed, fetched) && slot <= |completed|
    ensures IsCompletion(completed[..slot] + [(|fetched|, result)] + completed[slot..], fetched + [result])
  {
    var c, f := completed[..slot] + [(|fetched|, result)] + completed[slot..], fetched + [result];
    forall k | 0 <= k < |c| ensures Carries(c[k], f) {
      if k < slot { assert c[k] == completed[k]; }
      if k > slot { assert c[k] == completed[k - 1]; }
    }
  }

  lemma CheckedAnswers(syn: Syntax, key: VersionKey, platforms: seq<RegistryPlatform>,
                       packages: nat -> PackageAnswer, fetched: seq<Fetch>)
    requires |fetched| == |platforms| && AllChecked(syn, key, platforms, packages, fetched)
    ensures AnswersRequests(platforms, fetched)
    ensures forall i :: 0 <= i < |fetched| && fetched[i].Fetched? ==>
                          ValidatePackage(syn, key, platforms[i], fetched[i].package)
  {
    hide A.Parse;
    forall i | 0 <= i < |fetched| && fetched[i].Fetched?
      ensures ValidatePackage(syn, key, platforms[i], fetched[i].package)
    {
      assert Counted(syn, key, platforms[i], packages(i), fetched[i]);
    }
  }

  /** The merged document is one the service may hold. */
  lemma MergedAcceptable(syn: Syntax, key: VersionKey, platforms: seq<RegistryPlatform>,
                         cached: seq<Package>, fetched: seq<Fetch>)
    requires |fetched| == |platforms| <= 128 && ValidVersion(key.version)
    requires ValidatePackages(syn, key, cached) && AnswersRequests(platforms, fetched)
    requires forall i :: 0 <= i < |fetched| && fetched[i].Fetched? ==>
               ValidatePackage(syn, key, platforms[i], fetched[i].package)
    ensures Acceptable(syn, key, Document(key, Merged(platforms, cached, fetched, |platforms|)))
  {
    hide ValidatePackage, ValidVersion, Merged;
    var _ := MergedFollowsIndex(platforms, cached, fetched, |platforms|);
    MergedIsValid(syn, key, platforms, cached, fetched, |platforms|);
  }

  /** The summary of a version is a listed line for it, the first one, and there is one exactly
      when the version is listed. */
  lemma {:induction false} SummaryIs(versions: seq<RegistryVersion>, version: string)
    ensures Summary(versions, version).None? <==>
            forall i :: 0 <= i < |versions| ==> NormalizeVersion(versions[i].version) != version
    ensures Summary(versions, version).Some? ==>
              exists i :: 0 <= i < |versions| && versions[i] == Summary(versions, version).value &&
                          NormalizeVersion(versions[i].version) == version &&
                          forall j :: 0 <= j < i ==> NormalizeVersion(versions[j].version) != version
    ensures Summary(versions, version).Some? && ValidateRegistryVersions(versions) ==>
              ValidateRegistryVersion(Summary(versions, version).value)
  {
    hide ValidateRegistryVersion, NormalizeVersion;
    if versions != [] && NormalizeVersion(versions[0].version) != version {
      SummaryIs(versions[1..], version);
      if Summary(versions, version).Some? {
        var i :| 0 <= i < |versions[1..]| && versions[1..][i] == Summary(versions, version).value &&
                 NormalizeVersion(versions[1..][i].version) == version &&
                 forall j :: 0 <= j < i ==> NormalizeVersion(versions[1..][j].version) != version;
        assert versions[i + 1] == versions[1..][i];
        forall j | 0 <= j < i + 1 ensures NormalizeVersion(versions[j].version) != version {
          if j > 0 { assert versions[j] == versions[1..][j - 1]; }
        }
      }
    }
  }

  lemma ReloadedAcceptable(syn: Syntax, key: VersionKey, m: VersionMetadata)
    requires ValidateVersionMetadata(syn, key, m) && ValidVersion(key.version)
    ensures Acceptable(syn, key, m)
  {
  }

  lemma VersionStays(syn: Syntax, a: World, b: World, key: VersionKey)
    requires Evolves(a, b) && Inv(syn, b)
    ensures key in a.versions ==> key in b.versions
    ensures key in b.versions ==> Acceptable(syn, key, b.versions[key].value)
  {
    hide Acceptable;
  }

  /** What a synchronisation did for one key. */
  datatype Synced = Synced(ask: Ask, result: IndexResult)

  /** Every key is still to do or was asked for, each once, in the stretch. */
  ghost predicate Accounted(cfg: Settings, io: ProviderKey -> IndexIo, sp: Span, keys: set<ProviderKey>,
                            rest: set<ProviderKey>, done: map<ProviderKey, Synced>)
  {
    && rest <= keys && done.Keys == keys - rest
    && forall k :: k in done ==>
         Answered(cfg, io(k), k, done[k].ask, done[k].result) && AskDuring(sp, Some(done[k].ask))
  }

  /** The keys that were not refreshed. */
  ghost function NotRefreshed(done: map<ProviderKey, Synced>): set<ProviderKey> {
    set k | k in done && done[k].result.Err?
  }

  lemma NoneAccounted(cfg: Settings, io: ProviderKey -> IndexIo, sp: Span, keys: set<ProviderKey>)
    ensures Accounted(cfg, io, sp, keys, keys, map[]) && NotRefreshed(map[]) == {}
  {
  }

  lemma OneAccounted(cfg: Settings, io: ProviderKey -> IndexIo, sp: Span, keys: set<ProviderKey>,
                     rest: set<ProviderKey>, done: map<ProviderKey, Synced>,
                     one: Span, whole: Span, key: ProviderKey, synced: Synced)
    requires Accounted(cfg, io, sp, keys, rest, done) && Part(sp, whole) && Part(one, whole) && key in rest
    requires Answered(cfg, io(key), key, synced.ask, synced.result) && AskDuring(one, Some(synced.ask))
    ensures Accounted(cfg, io, whole, keys, rest - {key}, done[key := synced])
  {
    hide Answered, AskDuring, Part;
    var now := done[key := synced];
    assert now.Keys == keys - (rest - {key});
    forall k | k in now
      ensures Answered(cfg, io(k), k, now[k].ask, now[k].result) && AskDuring(whole, Some(now[k].ask))
    {
      WidenAsk(if k == key then one else sp, whole, Some(now[k].ask));
    }
  }

  lemma OneCounted(done: map<ProviderKey, Synced>, key: ProviderKey, one: Synced)
    requires key !in done
    ensures |NotRefreshed(done[key := one])| == |NotRefreshed(done)| + if one.result.Err? then 1 else 0
  {
    var now := done[key := one];
    if one.result.Err? {
      assert NotRefreshed(now) == NotRefreshed(done) + {key} && key !in NotRefreshed(done);
    } else {
      assert NotRefreshed(now) == NotRefreshed(done);
    }
  }

  /** A step that touches only the locked index leaves the rest as it was. */
  lemma IndexStepOutside(a: World, b: World, held: Held, key: ProviderKey)
    requires Guarantee(a, b, held) && held.indices == {key} && a.versions == b.versions
    ensures Rely(a, b, Outer(held))
  {
  }

  /** An instant of a part of a call is one of the call. */
  lemma Widen(a: Span, b: Span, at: World)
    requires Part(a, b) && During(a, at)
    ensures During(b, at)
  {
    var i: nat :| a.from <= i <= |a.log| && StateAt(a.birth, a.log, i) == at;
    assert StateAt(b.birth, b.log, i) == at;
  }

  lemma WidenAsk(a: Span, b: Span, ask: Option<Ask>)
    requires Part(a, b) && AskDuring(a, ask)
    ensures AskDuring(b, ask)
  {
    hide Part, During, Evolves;
    if ask.Some? {
      Widen(a, b, ask.value.noting);
      Widen(a, b, ask.value.replied);
      Widen(a, b, ask.value.settled);
    }
  }

  lemma WidenTrace(a: Span, b: Span, trace: Trace)
    requires Part(a, b) && Traced(a, trace)
    ensures Traced(b, trace)
  {
    hide Part, During, AskDuring, Ordered;
    Widen(a, b, trace.looked);
    Widen(a, b, trace.stale);
    Widen(a, b, trace.asked);
    Widen(a, b, trace.noting);
    Widen(a, b, trace.at);
    WidenAsk(a, b, trace.ask);
  }

  lemma WidenForced(a: Span, b: Span, l: Lookup)
    requires Part(a, b) && Forced(a, l)
    ensures Forced(b, l)
  {
    hide Part, During, AskDuring, Evolves;
    Widen(a, b, l.before);
    Widen(a, b, l.at);
    Widen(a, b, l.seen);
    WidenAsk(a, b, l.ask);
  }

  lemma WidenLookup(a: Span, b: Span, l: Lookup)
    requires Part(a, b) && LookupTraced(a, l)
    ensures LookupTraced(b, l)
  {
    hide Part, Traced, Forced;
    WidenTrace(a, b, l.load);
    WidenForced(a, b, l);
  }

  lemma WidenRefresh(a: Span, b: Span, f: Refresh)
    requires Part(a, b) && RefreshTraced(a, f)
    ensures RefreshTraced(b, f)
  {
    hide Part, During, LookupTraced;
    WidenLookup(a, b, f.lookup);
    if f.basis.Some? { Widen(a, b, f.basis.value.merged); }
  }

  lemma Present(syn: Syntax, sp: Span, now: World)
    requires History(syn, sp.birth, sp.log, now) && sp.from <= |sp.log|
    ensures During(sp, now)
  {
    hide Lawful;
    assert StateAt(sp.birth, sp.log, |sp.log|) == now;
  }

  /** What was in memory at an instant of the past still is. */
  lemma InstantEvolves(syn: Syntax, sp: Span, at: World, now: World)
    requires History(syn, sp.birth, sp.log, now) && During(sp, at)
    ensures Evolves(at, now)
  {
    hide History, Evolves;
    var i: nat :| sp.from <= i <= |sp.log| && StateAt(sp.birth, sp.log, i) == at;
    HistoryKeeps(syn, sp.birth, sp.log, now, i);
  }

  /** The instants of asking are in order. */
  lemma OrderedAsk(syn: Syntax, sp: Span, trace: Trace)
    requires History(syn, sp.birth, sp.log, trace.at)
    requires During(sp, trace.noting)
    requires Evolves(trace.looked, trace.stale) && Evolves(trace.stale, trace.asked)
    requires trace.ask.Some? ==>
               && Evolves(trace.asked, trace.ask.value.replied) && trace.ask.value.noting == trace.noting
               && Evolves(trace.ask.value.replied, trace.noting)
    requires trace.ask.None? ==> trace.noting == trace.asked
    ensures Ordered(trace)
  {
    hide Evolves, History, During;
    if trace.ask.Some? {
      EvolvesChains(trace.asked, trace.ask.value.replied, trace.noting);
    } else {
      Still(trace.asked, NOTHING);
    }
    InstantEvolves(syn, sp, trace.noting, trace.at);
  }

  /** Without an entry in the end, the disk had none to offer. */
  lemma TakenFromDisk(looked: World, b: World, c: World, key: ProviderKey)
    requires key !in looked.indices ==> Known(b.indices, key) == IndexOnDisk(looked, key)
    requires key in looked.indices ==> key in b.indices
    requires Evolves(b, c)
    ensures key !in c.indices ==> !UsableIndex(looked, key)
  {
    hide ValidateRegistryVersions;
  }

  lemma VersionTakenFromDisk(syn: Syntax, looked: World, b: World, c: World, key: VersionKey)
    requires key !in looked.versions ==> Known(b.versions, key) == VersionOnDisk(syn, looked, key)
    requires key in looked.versions ==> key in b.versions
    requires Evolves(b, c)
    ensures key !in c.versions ==> !UsableVersion(syn, looked, key)
  {
    hide Reloads;
  }

  lemma FreshGrounds(cfg: Settings, io: IndexIo, trace: Trace, key: ProviderKey)
    requires key in trace.at.indices && Fresh(cfg, trace.at.indices[key], trace.at.wall) && trace.looked == trace.at
    ensures IndexGrounds(cfg, io, trace, key, Ok(trace.at.indices[key]), Hit)
    ensures IndexAnswer(cfg, trace.at, key, Ok(trace.at.indices[key]), Hit)
  {
  }

  /** Whatever way an index load was answered with an index, that index was in memory then. */
  lemma AnswerIsKnown(cfg: Settings, at: World, key: ProviderKey, r: IndexResult, how: Served)
    requires IndexAnswer(cfg, at, key, r, how)
    ensures r.Ok? ==> Known(at.indices, key) == Some(r.value)
    ensures r.Err? ==> key !in at.indices
  {
  }

  lemma FreshVersionGrounds(cfg: Settings, io: VersionIo, trace: Trace, key: VersionKey)
    requires key in trace.at.versions && Fresh(cfg, trace.at.versions[key], trace.at.wall) && trace.looked == trace.at
    ensures VersionGrounds(cfg, io, trace, None, key, Ok(trace.at.versions[key]), Hit)
    ensures VersionAnswer(cfg, trace.at, key, Ok(trace.at.versions[key]), Hit)
  {
  }

  lemma VersionAnswerIsKnown(cfg: Settings, at: World, key: VersionKey, r: VersionResult, how: Served)
    requires VersionAnswer(cfg, at, key, r, how)
    ensures r.Ok? ==> Known(at.versions, key) == Some(r.value)
    ensures r.Err? ==> key !in at.versions
  {
  }

  lemma KnownStays(syn: Syntax, a: World, b: World, key: ProviderKey)
    requires Evolves(a, b) && Inv(syn, b)
    ensures key in a.indices ==> key in b.indices
    ensures key in b.indices ==> ValidateRegistryVersions(b.indices[key].value)
  {
  }

  lemma WrittenIsSound(syn: Syntax, a: World, w: World, x: Written)
    requires Inv(syn, w) && Evolves(a, w) && x in a.written
    ensures WrittenSound(syn, w.past, x) && x in w.written
  {
  }

  /** Only deadlines differ. */
  predicate SameEntries(a: World, b: World) {
    && a.indices == b.indices && a.versions == b.versions && a.past == b.past && a.written == b.written
    && a.mono == b.mono && a.wall == b.wall
  }

  lemma StillSound(syn: Syntax, a: World, b: World)
    requires Inv(syn, a) && SameEntries(a, b) && Bounded(b)
    ensures Inv(syn, b)
  {
  }

  lemma Unchanged(a: World, b: World, held: Held)
    requires SameEntries(a, b)
    ensures Rely(a, b, held) && Guarantee(a, b, held)
  {
  }

  lemma ShrinkBounded(m: B.Deadlines, key: B.Key)
    ensures |m - {key}| <= |m|
  {
    var n := m - {key};
    B.KeysSubsetSize(n.Keys, m.Keys);
    B.MapSize(n);
    B.MapSize(m);
  }
}
