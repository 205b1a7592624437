/**
 The state the metadata cache shares between tasks, how it may change while a task is
 between two of its own steps, and what every step keeps.

 A task holding the lock of a key relies on the others not touching that key's entry
 (`Rely`), and keeps its own steps to the keys it holds (`Guarantee`).  The service keeps a
 history of its steps, each one lawful in this sense (`History`), and
 `OthersCanBeReliedOn` shows that with exclusive locks the guarantees of all tasks together
 are what each of them relies on.
 */
module CacheState {
  import opened Common
  import opened Metadata
  import B = Backoff

  datatype CacheEntry<T> = CacheEntry(fetchedAt: nat, complete: bool, value: T)

  type IndexEntry = CacheEntry<seq<RegistryVersion>>
  type VersionEntry = CacheEntry<VersionMetadata>

  /** Times to live are whole seconds of the wall clock; the backoff is measured on the
      monotonic clock. */
  datatype Settings = Settings(syn: Syntax, freshness: nat, partialRetry: nat, backoff: nat)

  datatype File = File(provider: ProviderKey, name: string)

  function IndexPath(key: ProviderKey): File {
    File(key, IndexFile())
  }

  function VersionPath(key: VersionKey): File {
    File(key.provider, VersionFile(key.version))
  }

  /** Every document has a file of its own, but for a version spelled like the index. */
  lemma FilesDistinct(a: VersionKey, b: VersionKey, p: ProviderKey)
    ensures VersionPath(a) == VersionPath(b) <==> a == b
    ensures VersionPath(a) == IndexPath(p) <==> a == VersionKey(p, "index")
  {
    DocumentFilesDistinct(a.version, b.version);
  }

  /** What decoding a file can give; a document of the other kind does not decode. */
  datatype Doc = IndexDoc(index: IndexEntry) | VersionDoc(version: VersionEntry) | Corrupt

  type Disk = map<File, Doc>

  datatype Written =
    | WroteIndex(provider: ProviderKey, index: IndexEntry)
    | WroteVersion(key: VersionKey, version: VersionEntry)

  /** `past` is every content the disk has had, the present one last; `written` is what this
      process wrote.  Both are bookkeeping: nothing decides on them but the present disk. */
  datatype World = World(
    indices: map<ProviderKey, IndexEntry>, versions: map<VersionKey, VersionEntry>,
    indexFailures: B.Deadlines, versionFailures: B.Deadlines, missRefreshes: B.Deadlines,
    past: seq<Disk>, written: set<Written>, wall: nat, mono: int)

  predicate Fresh<T>(cfg: Settings, entry: CacheEntry<T>, wall: nat) {
    var age := if wall < entry.fetchedAt then 0 else wall - entry.fetchedAt;
    age < if entry.complete then cfg.freshness else cfg.partialRetry
  }

  // ---------------------------------------------------------------- what every state satisfies

  predicate WasOnDisk(past: seq<Disk>, f: File, d: Doc) {
    exists i :: 0 <= i < |past| && f in past[i] && past[i][f] == d
  }

  lemma WasOnDiskStays(a: seq<Disk>, b: seq<Disk>, f: File, d: Doc)
    requires a <= b && WasOnDisk(a, f, d)
    ensures WasOnDisk(b, f, d)
  {
    var i :| 0 <= i < |a| && f in a[i] && a[i][f] == d;
    assert b[i] == a[i];
  }

  /** An index the service may hold or write. */
  predicate IndexSound(past: seq<Disk>, key: ProviderKey, e: IndexEntry) {
    ValidateRegistryVersions(e.value) && WasOnDisk(past, IndexPath(key), IndexDoc(e))
  }

  /** A version document the service may hold or write: read back and validated, or built for
      the key. */
  predicate Acceptable(syn: Syntax, key: VersionKey, m: VersionMetadata) {
    && ValidVersion(key.version) && |m.platforms| <= 128 && ValidatePackages(syn, key, m.platforms)
    && (ValidateVersionMetadata(syn, key, m) || m == Document(key, m.platforms))
  }

  predicate VersionSound(syn: Syntax, past: seq<Disk>, key: VersionKey, e: VersionEntry) {
    Acceptable(syn, key, e.value) && WasOnDisk(past, VersionPath(key), VersionDoc(e))
  }

  predicate WrittenSound(syn: Syntax, past: seq<Disk>, x: Written) {
    match x
    case WroteIndex(k, e) => IndexSound(past, k, e)
    case WroteVersion(k, e) => VersionSound(syn, past, k, e)
  }

  predicate EntriesSound(syn: Syntax, w: World) {
    && (forall k :: k in w.indices ==> IndexSound(w.past, k, w.indices[k]))
    && (forall k :: k in w.versions ==> VersionSound(syn, w.past, k, w.versions[k]))
    && (forall x :: x in w.written ==> WrittenSound(syn, w.past, x))
  }

  predicate Bounded(w: World) {
    && |w.indexFailures| <= B.MAX_FAILURES && |w.versionFailures| <= B.MAX_FAILURES
    && |w.missRefreshes| <= B.MAX_FAILURES
  }

  predicate Inv(syn: Syntax, w: World) {
    w.past != [] && EntriesSound(syn, w) && Bounded(w)
  }

  function CurrentDisk(w: World): Disk
    requires w.past != []
  {
    w.past[|w.past| - 1]
  }

  // ---------------------------------------------------------------- how the state evolves

  /** No entry ever leaves memory, and one is replaced only by one that was written first. */
  predicate EntriesStay(a: World, b: World) {
    && (forall k :: k in a.indices ==>
          k in b.indices && (b.indices[k] == a.indices[k] || WroteIndex(k, b.indices[k]) in b.written))
    && (forall k :: k in a.versions ==>
          k in b.versions && (b.versions[k] == a.versions[k] || WroteVersion(k, b.versions[k]) in b.written))
  }

  predicate Evolves(a: World, b: World) {
    a.past <= b.past && a.written <= b.written && a.mono <= b.mono && EntriesStay(a, b)
  }

  predicate SameIndex(a: World, b: World, k: ProviderKey) {
    (k in a.indices <==> k in b.indices) && (k in a.indices ==> a.indices[k] == b.indices[k])
  }

  predicate SameVersion(a: World, b: World, k: VersionKey) {
    (k in a.versions <==> k in b.versions) && (k in a.versions ==> a.versions[k] == b.versions[k])
  }

  /** The keys whose locks a task holds. */
  datatype Held = Held(indices: set<ProviderKey>, versions: set<VersionKey>)

  const NOTHING := Held({}, {})

  /** What a task sees happen while it holds `held` and takes no step itself. */
  predicate Rely(a: World, b: World, held: Held) {
    && Evolves(a, b)
    && (forall k :: k in held.indices ==> SameIndex(a, b, k))
    && (forall k :: k in held.versions ==> SameVersion(a, b, k))
  }

  /** What a task does in one step while it holds `held`. */
  ghost predicate Guarantee(a: World, b: World, held: Held) {
    && Evolves(a, b)
    && (forall k :: k !in held.indices ==> SameIndex(a, b, k))
    && (forall k :: k !in held.versions ==> SameVersion(a, b, k))
  }

  /** No key locked by both. */
  predicate Apart(a: Held, b: Held) {
    a.indices !! b.indices && a.versions !! b.versions
  }

  /** The locks other than the index lock, which is taken last. */
  function Outer(held: Held): Held {
    Held({}, held.versions)
  }

  /** The lock that a write is made under. */
  predicate Covers(held: Held, x: Written) {
    match x
    case WroteIndex(k, _) => k in held.indices
    case WroteVersion(k, _) => k in held.versions
  }

  /** Per-key mutual exclusion makes another task's step one that may be relied on. */
  lemma OthersRespectLocks(a: World, b: World, mine: Held, theirs: Held)
    requires Apart(mine, theirs) && Guarantee(a, b, theirs)
    ensures Rely(a, b, mine)
  {
    hide Evolves;
    forall k | k in mine.indices ensures SameIndex(a, b, k) { assert k !in theirs.indices; }
    forall k | k in mine.versions ensures SameVersion(a, b, k) { assert k !in theirs.versions; }
  }

  lemma EvolvesChains(a: World, b: World, c: World)
    requires Evolves(a, b) && Evolves(b, c)
    ensures Evolves(a, c)
  {
  }

  /** Step `n` of a run is made by another task under its own locks, while `t` holds `mine` and
      no key is locked by two tasks. */
  ghost predicate StepOfOther(a: World, b: World, owner: nat, locks: nat -> Held, t: nat, mine: Held) {
    && owner != t && Guarantee(a, b, locks(owner))
    && locks(t) == mine && forall u: nat :: u != t ==> Apart(mine, locks(u))
  }

  /** Any stretch of any run in which task `t` holds `mine` and takes no step: if every step is
      made under its owner's locks and no key is locked by two tasks, `t` finds afterwards only
      what it relies on. */
  lemma {:induction false} OthersCanBeReliedOn(run: seq<World>, owner: nat -> nat, locks: nat -> nat -> Held,
                                               t: nat, mine: Held, i: nat, j: nat)
    requires i <= j < |run|
    requires forall n: nat :: i <= n < j ==> StepOfOther(run[n], run[n + 1], owner(n), locks(n), t, mine)
    ensures Rely(run[i], run[j], mine)
    decreases j - i
  {
    hide Guarantee, Apart, Rely;
    if i == j {
      Still(run[i], mine);
    } else {
      assert StepOfOther(run[i], run[i + 1], owner(i), locks(i), t, mine);
      OthersRespectLocks(run[i], run[i + 1], mine, locks(i)(owner(i)));
      OthersCanBeReliedOn(run, owner, locks, t, mine, i + 1, j);
      RelyChains(run[i], run[i + 1], run[j], mine);
    }
  }

  lemma Still(w: World, held: Held)
    ensures Rely(w, w, held)
  {
  }

  // ---------------------------------------------------------------- the history of a service

  /** A step of the service itself, or what others did between two of them, and the locks it
      held. */
  datatype Event =
    | Own(before: World, after: World, held: Held)
    | Others(before: World, after: World, held: Held)

  ghost predicate Lawful(syn: Syntax, e: Event) {
    Inv(syn, e.after) && if e.Own? then Guarantee(e.before, e.after, e.held) else Rely(e.before, e.after, e.held)
  }

  /** Events that lead, one from the other and each lawful, from `birth` to `now`. */
  ghost predicate History(syn: Syntax, birth: World, log: seq<Event>, now: World)
    decreases |log|
  {
    if log == [] then now == birth
    else
      var e := log[|log| - 1];
      e.after == now && Lawful(syn, e) && History(syn, birth, log[..|log| - 1], e.before)
  }

  lemma Logged(syn: Syntax, birth: World, log: seq<Event>, e: Event)
    requires History(syn, birth, log, e.before) && Lawful(syn, e)
    ensures History(syn, birth, log + [e], e.after)
  {
    hide Lawful;
    assert (log + [e])[..|log|] == log;
  }

  /** The state after so many events. */
  function StateAt(birth: World, log: seq<Event>, i: nat): World
    requires i <= |log|
  {
    if i == 0 then birth else log[i - 1].after
  }

  lemma LawfulEvolves(syn: Syntax, e: Event)
    requires Lawful(syn, e)
    ensures Evolves(e.before, e.after)
  {
    hide Evolves, Inv;
  }

  /** In a history what is in memory at any time stays. */
  lemma {:induction false} HistoryKeeps(syn: Syntax, birth: World, log: seq<Event>, now: World, i: nat)
    requires History(syn, birth, log, now) && i <= |log|
    ensures Evolves(StateAt(birth, log, i), now)
    decreases |log|
  {
    hide Lawful, Evolves;
    if i == |log| {
      Still(now, NOTHING);
    } else {
      var n := |log| - 1;
      HistoryKeeps(syn, birth, log[..n], log[n].before, i);
      LawfulEvolves(syn, log[n]);
      EvolvesChains(StateAt(birth, log, i), log[n].before, now);
    }
  }

  lemma {:induction false} HistoryIsLawful(syn: Syntax, birth: World, log: seq<Event>, now: World, j: nat)
    requires History(syn, birth, log, now) && j < |log|
    ensures Lawful(syn, log[j])
    decreases |log|
  {
    hide Lawful;
    var n := |log| - 1;
    if j < n { HistoryIsLawful(syn, birth, log[..n], log[n].before, j); }
  }

  lemma RelyChains(a: World, b: World, c: World, held: Held)
    requires Rely(a, b, held) && Rely(b, c, held)
    ensures Rely(a, c, held)
  {
    EvolvesChains(a, b, c);
    hide Evolves;
    forall k | k in held.indices ensures SameIndex(a, c, k) { assert SameIndex(a, b, k); }
    forall k | k in held.versions ensures SameVersion(a, c, k) { assert SameVersion(a, b, k); }
  }

  // ---------------------------------------------------------------- atomic steps

  function PutIndex(w: World, key: ProviderKey, e: IndexEntry): World {
    w.(indices := w.indices[key := e])
  }

  function PutVersion(w: World, key: VersionKey, e: VersionEntry): World {
    w.(versions := w.versions[key := e])
  }

  /** The rename of a complete document onto its path. */
  function Publish(w: World, f: File, d: Doc, x: Written): World
    requires w.past != []
  {
    w.(past := w.past + [CurrentDisk(w)[f := d]], written := w.written + {x})
  }

  lemma PutIndexStep(syn: Syntax, w: World, key: ProviderKey, e: IndexEntry, held: Held)
    requires Inv(syn, w) && key in held.indices && IndexSound(w.past, key, e)
    requires key in w.indices ==> WroteIndex(key, e) in w.written
    ensures Inv(syn, PutIndex(w, key, e)) && Guarantee(w, PutIndex(w, key, e), held)
  {
    hide IndexSound, VersionSound, WrittenSound;
  }

  lemma PutVersionStep(syn: Syntax, w: World, key: VersionKey, e: VersionEntry, held: Held)
    requires Inv(syn, w) && key in held.versions && VersionSound(syn, w.past, key, e)
    requires key in w.versions ==> WroteVersion(key, e) in w.written
    ensures Inv(syn, PutVersion(w, key, e)) && Guarantee(w, PutVersion(w, key, e), held)
  {
    hide IndexSound, VersionSound, WrittenSound;
  }

  lemma EntriesSoundStays(syn: Syntax, w: World, past: seq<Disk>)
    requires EntriesSound(syn, w) && w.past <= past
    ensures EntriesSound(syn, w.(past := past))
  {
    hide ValidateRegistryVersions, Acceptable;
    hide WasOnDisk;
    forall f, d | WasOnDisk(w.past, f, d) ensures WasOnDisk(past, f, d) { WasOnDiskStays(w.past, past, f, d); }
  }

  /** Which file and document a write stands for. */
  predicate Stands(syn: Syntax, x: Written, f: File, d: Doc) {
    match x
    case WroteIndex(k, e) => f == IndexPath(k) && d == IndexDoc(e) && ValidateRegistryVersions(e.value)
    case WroteVersion(k, e) => f == VersionPath(k) && d == VersionDoc(e) && Acceptable(syn, k, e.value)
  }

  lemma PublishedSound(syn: Syntax, w: World, f: File, d: Doc, x: Written)
    requires Inv(syn, w) && Stands(syn, x, f, d)
    ensures Inv(syn, Publish(w, f, d, x))
  {
    hide ValidateRegistryVersions, Acceptable, WasOnDisk;
    var past := w.past + [CurrentDisk(w)[f := d]];
    EntriesSoundStays(syn, w, past);
    assert WasOnDisk(past, f, d) by { Latest(w.past, CurrentDisk(w)[f := d], f); }
    assert WrittenSound(syn, past, x);
    hide IndexSound, VersionSound, WrittenSound;
  }

  lemma Latest(past: seq<Disk>, disk: Disk, f: File)
    requires f in disk
    ensures WasOnDisk(past + [disk], f, disk[f])
  {
    assert (past + [disk])[|past|] == disk;
  }

  lemma PublishStep(syn: Syntax, w: World, f: File, d: Doc, x: Written, held: Held)
    requires Inv(syn, w) && Stands(syn, x, f, d)
    ensures Inv(syn, Publish(w, f, d, x)) && Guarantee(w, Publish(w, f, d, x), held)
  {
    PublishedSound(syn, w, f, d, x);
    hide Inv, Stands;
    assert w.past <= Publish(w, f, d, x).past;
  }

  // ---------------------------------------------------------------- restart

  /** What the service accepts from disk for a version key. */
  predicate Reloads(syn: Syntax, disk: Disk, key: VersionKey) {
    && VersionPath(key) in disk && disk[VersionPath(key)].VersionDoc?
    && ValidateVersionMetadata(syn, key, disk[VersionPath(key)].version.value)
  }

  /** Whatever a process wrote for a version key with no leading `v`, the next process accepts,
      as long as the file still holds it. */
  lemma WrittenVersionsReload(syn: Syntax, w: World, key: VersionKey, e: VersionEntry, disk: Disk)
    requires Inv(syn, w) && WroteVersion(key, e) in w.written && !LeadingV(key.version)
    requires VersionPath(key) in disk && disk[VersionPath(key)] == VersionDoc(e)
    ensures Reloads(syn, disk, key)
  {
    assert WrittenSound(syn, w.past, WroteVersion(key, e));
    WrittenDocumentReloads(syn, key, e.value.platforms);
  }

  /** Everything in memory passes the reload validators too, for such keys. */
  lemma MemoryReloads(syn: Syntax, w: World, key: VersionKey)
    requires Inv(syn, w) && key in w.versions && !LeadingV(key.version)
    ensures ValidateVersionMetadata(syn, key, w.versions[key].value)
  {
    WrittenDocumentReloads(syn, key, w.versions[key].value.platforms);
  }
}
