/**
 The metadata cache service: loading an index or a version document through memory, disk and
 the registry, with other tasks at work between any two of its steps.

 Waiting for a lock, for the disk or for the registry, and being descheduled, are all one
 thing here: `Yield`, after which everything may have changed that the locks held do not
 protect.  A call abandoned half-way has made some of its atomic steps, and each of those
 keeps the invariant on its own.
 */
module MetadataService {
  import opened Common
  import opened Metadata
  import opened CacheState
  import opened Merge
  import opened LoadContracts
  import B = Backoff

  // ---------------------------------------------------------------- start-up

  /** The files start-up takes as indices. */
  predicate Discoverable(disk: Disk, allowed: set<string>, f: File) {
    && f in disk && f.name == IndexFile()
    && f.provider.hostname in allowed && ValidComponent(f.provider.namespace) && ValidComponent(f.provider.providerType)
    && disk[f].IndexDoc? && ValidateRegistryVersions(disk[f].index.value)
  }

  /** The walk over the data directory, in any order; anything undecodable or invalid is
      passed over. */
  method DiscoverIndices(disk: Disk, allowed: set<string>) returns (found: map<ProviderKey, IndexEntry>)
    ensures forall k :: k in found <==>
              && IndexPath(k) in disk && k.hostname in allowed
              && ValidComponent(k.namespace) && ValidComponent(k.providerType)
              && disk[IndexPath(k)].IndexDoc? && ValidateRegistryVersions(disk[IndexPath(k)].index.value)
    ensures forall k :: k in found ==> Known(disk, IndexPath(k)) == Some(IndexDoc(found[k]))
  {
    hide ValidateRegistryVersions, ValidComponent;
    found := map[];
    var rest := disk.Keys;
    while rest != {}
      invariant rest <= disk.Keys
      invariant forall k :: k in found <==> IndexPath(k) !in rest && Discoverable(disk, allowed, IndexPath(k))
      invariant forall k :: k in found ==> Known(disk, IndexPath(k)) == Some(IndexDoc(found[k]))
      decreases |rest|
    {
      var f :| f in rest;
      rest := rest - {f};
      if Discoverable(disk, allowed, f) {
        assert f == IndexPath(f.provider);
        found := found[f.provider := disk[f].index];
      }
    }
  }

  /** After a restart every index an earlier process wrote, and whose file still holds it, is
      found again: for the keys the service accepts and a registry still allowed. */
  lemma WrittenIndicesFoundAgain(syn: Syntax, w: World, key: ProviderKey, e: IndexEntry,
                                 disk: Disk, allowed: set<string>)
    requires Inv(syn, w) && WroteIndex(key, e) in w.written && ValidProviderKey(key) && key.hostname in allowed
    requires IndexPath(key) in disk && disk[IndexPath(key)] == IndexDoc(e)
    ensures Discoverable(disk, allowed, IndexPath(key))
  {
    hide ValidateRegistryVersions, ValidComponent;
    assert WrittenSound(syn, w.past, WroteIndex(key, e));
  }

  class Service {
    const settings: Settings
    var indices: map<ProviderKey, IndexEntry>
    var versions: map<VersionKey, VersionEntry>
    const indexFailures: B.FailureMap
    const versionFailures: B.FailureMap
    const missRefreshes: B.FailureMap
    // The lock guards this task has.
    var held: Held
    // The outside: the disk's history, what was written to it, and the two clocks.
    var past: seq<Disk>
    var written: set<Written>
    var wall: nat
    var mono: int
    // Every step so far, this task's and the others'.
    ghost const birth: World
    ghost var log: seq<Event>

    ghost function Repr(): set<object> {
      {this, indexFailures, versionFailures, missRefreshes}
    }

    ghost function Now(): World
      reads Repr()
    {
      World(indices, versions, indexFailures.deadlines, versionFailures.deadlines, missRefreshes.deadlines,
            past, written, wall, mono)
    }

    ghost predicate Separate() {
      && indexFailures != versionFailures && indexFailures != missRefreshes && versionFailures != missRefreshes
      && indexFailures.backoff == versionFailures.backoff == missRefreshes.backoff == settings.backoff
    }

    /** The state is sound, and every change since the start is a logged, lawful event. */
    ghost predicate Valid()
      reads Repr()
    {
      Separate() && Inv(settings.syn, Now()) && History(settings.syn, birth, log, Now())
    }

    /** The events of this service from the `from`-th on. */
    ghost function Since(from: nat): Span
      reads this
    {
      Span(birth, log, from)
    }

    lemma Here(from: nat)
      requires Valid() && from <= |log|
      ensures During(Since(from), Now())
    {
      hide History, During;
      Present(settings.syn, Since(from), Now());
    }

    /** A service on the disk as it is found, with the indices read at start-up. */
    constructor (settings: Settings, disk: Disk, found: map<ProviderKey, IndexEntry>, wall: nat, mono: int)
      requires forall k :: k in found ==>
                 && IndexPath(k) in disk && disk[IndexPath(k)] == IndexDoc(found[k])
                 && ValidateRegistryVersions(found[k].value)
      ensures Valid() && fresh(Repr()) && held == NOTHING && log == []
      ensures this.settings == settings && indices == found && versions == map[] && past == [disk] && written == {}
    {
      this.settings := settings;
      indices, versions, past, written := found, map[], [disk], {};
      indexFailures := new B.FailureMap(settings.backoff);
      versionFailures := new B.FailureMap(settings.backoff);
      missRefreshes := new B.FailureMap(settings.backoff);
      this.wall, this.mono, this.held := wall, mono, NOTHING;
      birth := World(found, map[], map[], map[], map[], [disk], {}, wall, mono);
      log := [];
      new;
      forall k | k in indices ensures IndexSound(past, k, indices[k]) {
        Latest([], disk, IndexPath(k));
        assert [] + [disk] == past;
      }
    }

    // ---------------------------------------------------------------- steps

    /** Others run: anything they may do to the keys not held here. */
    method Yield()
      requires Valid()
      modifies Repr()
      ensures Valid() && held == old(held) && old(log) <= log && Rely(old(Now()), Now(), held)
    {
      hide Inv, Rely, History;
      var before := World(indices, versions, indexFailures.deadlines, versionFailures.deadlines,
                          missRefreshes.deadlines, past, written, wall, mono);
      assert Now() == before;
      var next: World := *;
      if Rely(before, next, held) && Inv(settings.syn, next) {
        indices, versions, past, written := next.indices, next.versions, next.past, next.written;
        wall, mono := next.wall, next.mono;
        indexFailures.deadlines := next.indexFailures;
        versionFailures.deadlines := next.versionFailures;
        missRefreshes.deadlines := next.missRefreshes;
        assert Now() == next;
      } else {
        Still(before, held);
      }
      Logged(settings.syn, birth, log, Others(before, Now(), held));
      log := log + [Others(before, Now(), held)];
    }

    /** The index lock is taken last, and only one of them. */
    method LockIndex(key: ProviderKey)
      requires Valid() && held.indices == {}
      modifies Repr()
      ensures Valid() && held == Held({key}, old(held).versions) && old(log) <= log
      ensures Rely(old(Now()), Now(), old(held))
    {
      hide Inv, Rely, History;
      Yield();
      held := Held({key}, held.versions);
    }

    method UnlockIndex(key: ProviderKey)
      requires Valid() && held.indices == {key}
      modifies this`held
      ensures Valid() && held == Outer(old(held)) && Now() == old(Now())
    {
      held := Outer(held);
    }

    /** The version lock is taken first. */
    method LockVersion(key: VersionKey)
      requires Valid() && held == NOTHING
      modifies Repr()
      ensures Valid() && held == Held({}, {key}) && old(log) <= log && Rely(old(Now()), Now(), NOTHING)
    {
      hide Inv, Rely, History;
      Yield();
      held := Held({}, {key});
    }

    method UnlockVersion(key: VersionKey)
      requires Valid() && held == Held({}, {key})
      modifies this`held
      ensures Valid() && held == NOTHING && Now() == old(Now())
    {
      held := NOTHING;
    }

    /** Logs a step of this task. */
    ghost method Log(before: World)
      requires Separate() && Inv(settings.syn, Now()) && History(settings.syn, birth, log, before)
      requires Guarantee(before, Now(), held)
      modifies this`log
      ensures Valid() && log == old(log) + [Own(before, Now(), held)]
    {
      hide Inv, Guarantee, History;
      Logged(settings.syn, birth, log, Own(before, Now(), held));
      log := log + [Own(before, Now(), held)];
    }

    method InsertIndex(key: ProviderKey, e: IndexEntry)
      requires Valid() && key in held.indices && IndexSound(past, key, e)
      requires key in indices ==> WroteIndex(key, e) in written
      modifies this`indices, this`log
      ensures Valid() && old(log) <= log
      ensures Now() == PutIndex(old(Now()), key, e) && Guarantee(old(Now()), Now(), held)
    {
      hide Inv, Guarantee, History;
      PutIndexStep(settings.syn, Now(), key, e, held);
      indices := indices[key := e];
      Log(old(Now()));
    }

    method InsertVersion(key: VersionKey, e: VersionEntry)
      requires Valid() && key in held.versions && VersionSound(settings.syn, past, key, e)
      requires key in versions ==> WroteVersion(key, e) in written
      modifies this`versions, this`log
      ensures Valid() && old(log) <= log
      ensures Now() == PutVersion(old(Now()), key, e) && Guarantee(old(Now()), Now(), held)
    {
      hide Inv, Guarantee, History;
      PutVersionStep(settings.syn, Now(), key, e, held);
      versions := versions[key := e];
      Log(old(Now()));
    }

    /** One atomic write of a document, under the lock of its key. */
    method WriteJson(f: File, d: Doc, x: Written, write: Write) returns (ok: bool)
      requires Valid() && Covers(held, x) && Stands(settings.syn, x, f, d)
      modifies this`past, this`written, this`log
      ensures Valid() && old(log) <= log && Guarantee(old(Now()), Now(), NOTHING)
      ensures Now() == if write.NotRenamed? then old(Now()) else Publish(old(Now()), f, d, x)
      ensures ok <==> write.Durable?
    {
      hide EntriesSound, Bounded, Guarantee, Stands, History;
      if !write.NotRenamed? {
        PublishStep(settings.syn, Now(), f, d, x, NOTHING);
        PublishStep(settings.syn, Now(), f, d, x, held);
        past, written := past + [past[|past| - 1][f := d]], written + {x};
      } else {
        Unchanged(Now(), Now(), NOTHING);
        Unchanged(Now(), Now(), held);
      }
      ok := write.Durable?;
      Log(old(Now()));
    }

    method Penalise(failures: B.FailureMap, key: B.Key, e: MetadataError)
      requires Valid() && failures in {indexFailures, versionFailures}
      modifies failures, this`log
      ensures Valid() && old(log) <= log && SameEntries(old(Now()), Now())
      ensures Noted<()>(settings, old(failures.deadlines), failures.deadlines, key, mono, Err(e))
    {
      hide EntriesSound, History, B.NotedFailure;
      if ShouldBackoff(e) {
        var _ := failures.RecordFailure(key, mono);
      }
      NoteDeadlines(old(Now()));
    }

    method Pardon(failures: B.FailureMap, key: B.Key)
      requires Valid() && failures in {indexFailures, versionFailures}
      modifies failures, this`log
      ensures Valid() && old(log) <= log && SameEntries(old(Now()), Now())
      ensures failures.deadlines == old(failures.deadlines) - {key}
    {
      hide EntriesSound, History;
      ShrinkBounded(failures.deadlines, key);
      failures.ClearFailure(key);
      NoteDeadlines(old(Now()));
    }

    method RecordMiss(key: ProviderKey)
      requires Valid()
      modifies missRefreshes, this`log
      ensures Valid() && old(log) <= log && SameEntries(old(Now()), Now())
      ensures B.NotedFailure(old(missRefreshes.deadlines), missRefreshes.deadlines, B.OfProvider(key), mono,
                             settings.backoff)
      ensures indexFailures.deadlines == old(indexFailures.deadlines)
    {
      hide EntriesSound, History;
      var _ := missRefreshes.RecordFailure(B.OfProvider(key), mono);
      NoteDeadlines(old(Now()));
    }

    /** Logs a step that only touched deadlines. */
    ghost method NoteDeadlines(before: World)
      requires Separate() && Inv(settings.syn, before) && History(settings.syn, birth, log, before)
      requires SameEntries(before, Now()) && Bounded(Now())
      modifies this`log
      ensures Valid() && old(log) <= log
    {
      hide EntriesSound, History;
      StillSound(settings.syn, before, Now());
      Unchanged(before, Now(), held);
      Log(before);
    }

    // ---------------------------------------------------------------- indices

    /** Asks the registry and stores the answer, under the key's lock. */
    method RefreshIndexUnlocked(key: ProviderKey, io: IndexIo) returns (r: IndexResult, ghost replied: World)
      requires Valid() && held.indices == {key}
      modifies Repr()
      ensures Valid() && held == old(held) && old(log) <= log
      ensures Rely(old(Now()), Now(), Outer(held)) && During(Since(old(|log|)), replied)
      ensures Evolves(old(Now()), replied)
      ensures Outcome(io, replied, r)
      ensures r.Ok? ==> Known(indices, key) == Some(r.value) && WroteIndex(key, r.value) in written
      ensures r.Err? ==> SameIndex(old(Now()), Now(), key)
    {
      hide Evolves, EntriesSound, Bounded, ValidateRegistryVersions, History;
      ghost var start, n := Now(), |log|;
      Yield();
      replied := Now();
      Lift(start, replied, held, Outer(held));
      Here(n);
      ghost var call := Since(n);
      match io.answer {
        case Err(e) => r := Err(MapRegistry(e));
        case Ok(versions) =>
          if !ValidateRegistryVersions(versions) {
            r := Err(InvalidAddress);
          } else {
            r := StoreIndex(key, CacheEntry(wall, true, versions), io.write);
            RelyChains(start, replied, Now(), Outer(held));
            Widen(call, Since(n), replied);
          }
      }
    }

    /** Writes a validated index, then makes it visible. */
    method StoreIndex(key: ProviderKey, entry: IndexEntry, write: Write) returns (r: IndexResult)
      requires Valid() && held.indices == {key} && ValidateRegistryVersions(entry.value)
      modifies Repr()
      ensures Valid() && held == old(held) && old(log) <= log && Rely(old(Now()), Now(), Outer(held))
      ensures r == if write.Durable? then Ok(entry) else Err(Io)
      ensures r.Ok? ==> Known(indices, key) == Some(entry) && WroteIndex(key, entry) in written
      ensures r.Err? ==> SameIndex(old(Now()), Now(), key)
    {
      hide Evolves, EntriesSound, Bounded, ValidateRegistryVersions, History;
      ghost var start := Now();
      ghost var outer := Outer(held);
      var ok := WriteJson(IndexPath(key), IndexDoc(entry), WroteIndex(key, entry), write);
      ghost var w := Now();
      OthersRespectLocks(start, w, outer, NOTHING);
      if !ok { return Err(Io); }
      Yield();
      ghost var y := Now();
      Lift(w, y, held, outer);
      RelyChains(start, w, y, outer);
      WrittenIsSound(settings.syn, w, y, WroteIndex(key, entry));
      InsertIndex(key, entry);
      IndexStepOutside(y, Now(), held, key);
      RelyChains(start, y, Now(), outer);
      r := Ok(entry);
    }

    /** Reads the index back from disk when memory has none; an undecodable or invalid
        document counts as none. */
    method ReloadIndex(key: ProviderKey, readable: bool) returns (ok: bool, ghost looked: World)
      requires Valid() && held.indices == {key} && key !in indices
      modifies Repr()
      ensures Valid() && held == old(held) && old(log) <= log
      ensures Rely(old(Now()), Now(), Outer(held)) && During(Since(old(|log|)), looked)
      ensures key !in looked.indices && ok == readable && (!ok ==> key !in indices)
      ensures ok ==> Known(indices, key) == IndexOnDisk(looked, key)
    {
      hide Evolves, EntriesSound, Bounded, ValidateRegistryVersions, History;
      ghost var start, n := Now(), |log|;
      ghost var outer := Outer(held);
      Yield();
      looked := Now();
      Lift(start, looked, held, outer);
      Here(n);
      ghost var call := Since(n);
      ok := readable;
      if !ok { return; }
      var disk := past[|past| - 1];
      Yield();
      ghost var b := Now();
      Lift(looked, b, held, outer);
      RelyChains(start, looked, b, outer);
      if IndexPath(key) in disk && disk[IndexPath(key)].IndexDoc? &&
         ValidateRegistryVersions(disk[IndexPath(key)].index.value) {
        OnDiskOnce(looked, b, IndexPath(key));
        InsertIndex(key, disk[IndexPath(key)].index);
        IndexStepOutside(b, Now(), held, key);
        RelyChains(start, b, Now(), outer);
      }
      Widen(call, Since(n), looked);
    }

    /** Notes the outcome of asking among the deadlines. */
    method SettleIndex(key: ProviderKey, r: IndexResult) returns (ghost noting: World)
      requires Valid() && held.indices == {key}
      modifies Repr()
      ensures Valid() && held == old(held) && old(log) <= log && Rely(old(Now()), Now(), held)
      ensures During(Since(old(|log|)), noting) && Evolves(old(Now()), noting) && SameEntries(noting, Now())
      ensures Noted(settings, noting.indexFailures, indexFailures.deadlines, B.OfProvider(key), mono, r)
    {
      hide Evolves, EntriesSound, Bounded, History, B.NotedFailure;
      ghost var start, n := Now(), |log|;
      Yield();
      noting := Now();
      Here(n);
      ghost var call := Since(n);
      match r {
        case Ok(_) => Pardon(indexFailures, B.OfProvider(key));
        case Err(e) => Penalise(indexFailures, B.OfProvider(key), e);
      }
      Unchanged(noting, Now(), held);
      RelyChains(start, noting, Now(), held);
      Widen(call, Since(n), noting);
    }

    /** Asks the registry and notes the outcome among the deadlines. */
    method RefreshAndSettle(key: ProviderKey, io: IndexIo) returns (r: IndexResult, ghost q: Ask)
      requires Valid() && held.indices == {key}
      modifies Repr()
      ensures Valid() && held == old(held) && old(log) <= log && Rely(old(Now()), Now(), Outer(held))
      ensures Answered(settings, io, key, q, r) && q.settled == Now() && AskDuring(Since(old(|log|)), Some(q))
      ensures Evolves(old(Now()), q.replied)
      ensures r.Err? ==> SameIndex(old(Now()), Now(), key)
    {
      hide Evolves, EntriesSound, Bounded, ValidateRegistryVersions, Outcome, History, Noted, During, SameVersion;
      ghost var start, n := Now(), |log|;
      ghost var outer := Outer(held);
      ghost var replied;
      r, replied := RefreshIndexUnlocked(key, io);
      ghost var a, call, m := Now(), Since(n), |log|;
      InstantEvolves(settings.syn, Since(n), replied, a);
      ghost var noting := SettleIndex(key, r);
      Lift(a, Now(), held, outer);
      RelyChains(start, a, Now(), outer);
      EvolvesChains(replied, a, noting);
      if r.Ok? { WrittenIsSound(settings.syn, a, Now(), WroteIndex(key, r.value)); }
      Widen(call, Since(n), replied);
      Widen(Since(m), Since(n), noting);
      Here(n);
      q := Ask(replied, noting, Now());
    }

    /** With nothing fresh to serve: waits out a deadline, or asks the registry and falls back
        on what is known. */
    method AskForIndex(key: ProviderKey, io: IndexIo)
      returns (r: IndexResult, how: Served, ghost ask: Option<Ask>, ghost asked: World)
      requires Valid() && held.indices == {key}
      modifies Repr()
      ensures Valid() && held == old(held) && old(log) <= log && Rely(old(Now()), Now(), Outer(held))
      ensures During(Since(old(|log|)), asked) && AskDuring(Since(old(|log|)), ask)
      ensures Evolves(old(Now()), asked) && (ask.Some? ==> Evolves(asked, ask.value.replied))
      ensures if ask.Some? then ask.value.settled == Now() else asked == Now()
      ensures IndexAnswer(settings, Now(), key, r, how) && !how.Hit? && !how.Unreadable?
      ensures (how.Refreshed? || how.FellBack?) ==>
                && !InForce(asked.indexFailures, B.OfProvider(key), asked, settings) && ask.Some?
                && Answered(settings, io, key, ask.value, if how.Refreshed? then r else Err(how.error))
    {
      hide Evolves, EntriesSound, Bounded, ValidateRegistryVersions, History;
      ghost var start, n := Now(), |log|;
      ghost var outer := Outer(held);
      var cached := Known(indices, key);
      Yield();
      asked := Now();
      Lift(start, asked, held, outer);
      Here(n);
      if !B.RefreshAllowed(indexFailures.deadlines, B.OfProvider(key), mono, settings.backoff) {
        return Or(cached, RefreshBackoff), HeldBack, None, asked;
      }
      ghost var call, m := Since(n), |log|;
      var refreshed;
      ghost var q;
      refreshed, q := RefreshAndSettle(key, io);
      ask := Some(q);
      NotedPenalises(settings, q.noting.indexFailures, indexFailures.deadlines, B.OfProvider(key), Now(), refreshed);
      RelyChains(start, asked, Now(), outer);
      Widen(call, Since(n), asked);
      WidenAsk(Since(m), Since(n), ask);
      match refreshed {
        case Ok(_) => r, how := refreshed, Refreshed;
        case Err(e) => r, how := Or(if cached.Some? then cached else Known(indices, key), e), FellBack(e);
      }
    }

    /** What memory and, if that has none, the disk can answer, under the key's lock. */
    method IndexAtHand(key: ProviderKey, readable: bool)
      returns (done: bool, r: IndexResult, how: Served, ghost looked: World)
      requires Valid() && held.indices == {key}
      modifies Repr()
      ensures Valid() && held == old(held) && old(log) <= log && Rely(old(Now()), Now(), Outer(held))
      ensures During(Since(old(|log|)), looked) && Evolves(looked, Now())
      ensures !how.Unreadable? && key !in looked.indices ==> Known(indices, key) == IndexOnDisk(looked, key)
      ensures key in looked.indices ==> key in indices
      ensures how.Unreadable? <==> key !in looked.indices && !readable
      ensures done ==> (how.Hit? || how.Unreadable?) && IndexAnswer(settings, Now(), key, r, how)
      ensures !done ==> how.Hit? && (key in indices ==> !Young(settings, indices[key], wall))
    {
      hide Evolves, EntriesSound, Bounded, ValidateRegistryVersions, UsableIndex, History;
      hide During, SameVersion, IndexOnDisk;
      ghost var start, n := Now(), |log|;
      ghost var outer := Outer(held);
      Still(start, outer);
      Here(n);
      looked := start;
      if key in indices && Fresh(settings, indices[key], wall) {
        return true, Ok(indices[key]), Hit, looked;
      }
      if key !in indices {
        var ok;
        ok, looked := ReloadIndex(key, readable);
        InstantEvolves(settings.syn, Since(n), looked, Now());
        if !ok { return true, Err(Io), Unreadable, looked; }
      }
      ghost var a, call := Now(), Since(n);
      Yield();
      Lift(a, Now(), held, outer);
      RelyChains(start, a, Now(), outer);
      Widen(call, Since(n), looked);
      EvolvesChains(looked, a, Now());
      done := key in indices && Fresh(settings, indices[key], wall);
      r, how := if key in indices then Ok(indices[key]) else Err(RefreshBackoff), Hit;
    }

    method LoadIndexLocked(key: ProviderKey, io: IndexIo) returns (r: IndexResult, how: Served, ghost trace: Trace)
      requires Valid() && held.indices == {key}
      modifies Repr()
      ensures Valid() && held == old(held) && old(log) <= log && Rely(old(Now()), Now(), Outer(held))
      ensures trace.at == Now() && Traced(Since(old(|log|)), trace)
      ensures IndexAnswer(settings, Now(), key, r, how)
      ensures IndexGrounds(settings, io, trace, key, r, how)
    {
      hide Evolves, EntriesSound, Bounded, ValidateRegistryVersions, UsableIndex, Answered, History;
      hide During, SameVersion, Penalised, IndexOnDisk, SameIndex, InForce;
      ghost var start, n := Now(), |log|;
      var done;
      ghost var looked;
      done, r, how, looked := IndexAtHand(key, io.readable);
      ghost var b, m, call := Now(), |log|, Since(n);
      Here(n);
      Still(b, Outer(held));
      trace := Unasked(looked, b);
      if done { return; }
      ghost var ask, asked;
      r, how, ask, asked := AskForIndex(key, io);
      trace := Trace(looked, b, asked, if ask.Some? then ask.value.noting else asked, Now(), ask);
      RelyChains(start, b, Now(), Outer(held));
      Here(n);
      Widen(call, Since(n), looked);
      Widen(call, Since(n), b);
      Widen(Since(m), Since(n), asked);
      WidenAsk(Since(m), Since(n), ask);
      TakenFromDisk(looked, b, Now(), key);
      OrderedAsk(settings.syn, Since(n), trace);
    }

    /** An index load, as the instant `trace.at` of the call decides it.  Once an index is in
        memory the answer is always an index. */
    method LoadIndex(key: ProviderKey, io: IndexIo) returns (r: IndexResult, how: Served, ghost trace: Trace)
      requires Valid() && held.indices == {}
      modifies Repr()
      ensures Valid() && held == old(held) && old(log) <= log && Rely(old(Now()), Now(), held)
      ensures Traced(Since(old(|log|)), trace)
      ensures IndexAnswer(settings, trace.at, key, r, how)
      ensures IndexGrounds(settings, io, trace, key, r, how)
      ensures key in old(indices) ==> r.Ok?
      ensures r.Ok? ==> ValidateRegistryVersions(r.value.value)
    {
      hide Evolves, EntriesSound, Bounded, ValidateRegistryVersions, IndexAnswer, IndexGrounds, History;
      hide During, Fresh, SameIndex, SameVersion;
      ghost var start, n := Now(), |log|;
      Yield();
      ghost var a := Now();
      Here(n);
      KnownStays(settings.syn, start, a, key);
      if key in indices && Fresh(settings, indices[key], wall) {
        trace := Unasked(a, a);
        Still(a, NOTHING);
        FreshGrounds(settings, io, trace, key);
        return Ok(indices[key]), Hit, trace;
      }
      LockIndex(key);
      ghost var b, m := Now(), |log|;
      RelyChains(start, a, b, Outer(held));
      r, how, trace := LoadIndexLocked(key, io);
      RelyChains(start, b, Now(), Outer(held));
      WidenTrace(Since(m), Since(n), trace);
      AnswerIsKnown(settings, Now(), key, r, how);
      KnownStays(settings.syn, start, Now(), key);
      UnlockIndex(key);
    }

    // ---------------------------------------------------------------- synchronisation

    /** Asks for one index again, under its lock. */
    method SyncIndex(key: ProviderKey, io: IndexIo) returns (r: IndexResult, ghost q: Ask)
      requires Valid() && held == NOTHING
      modifies Repr()
      ensures Valid() && held == NOTHING && old(log) <= log && Rely(old(Now()), Now(), NOTHING)
      ensures Answered(settings, io, key, q, r) && AskDuring(Since(old(|log|)), Some(q))
    {
      hide Evolves, EntriesSound, Bounded, Answered, History;
      ghost var start, n := Now(), |log|;
      LockIndex(key);
      ghost var a, m := Now(), |log|;
      r, q := RefreshAndSettle(key, io);
      RelyChains(start, a, Now(), NOTHING);
      WidenAsk(Since(m), Since(n), Some(q));
      UnlockIndex(key);
    }

    /** Asks again for every index known when it starts; the failures are those not refreshed. */
    method SyncKnown(io: ProviderKey -> IndexIo) returns (failures: nat, ghost done: map<ProviderKey, Synced>)
      requires Valid() && held == NOTHING
      modifies Repr()
      ensures Valid() && held == NOTHING && old(log) <= log && Rely(old(Now()), Now(), NOTHING)
      ensures Accounted(settings, io, Since(old(|log|)), old(indices).Keys, {}, done)
      ensures failures == |NotRefreshed(done)|
    {
      hide Inv, Rely, Accounted, History, NotRefreshed, Answered;
      ghost var start, n := Now(), |log|;
      Still(start, NOTHING);
      ghost var keys := indices.Keys;
      var rest := indices.Keys;
      failures, done := 0, map[];
      NoneAccounted(settings, io, Since(n), keys);
      while rest != {}
        invariant Valid() && held == NOTHING && old(log) <= log && Rely(start, Now(), NOTHING)
        invariant Accounted(settings, io, Since(n), keys, rest, done) && failures == |NotRefreshed(done)|
        invariant rest <= keys && done.Keys == keys - rest
        decreases |rest|
      {
        var key :| key in rest;
        ghost var a, m, call := Now(), |log|, Since(n);
        var r;
        ghost var q;
        r, q := SyncIndex(key, io(key));
        RelyChains(start, a, Now(), NOTHING);
        OneAccounted(settings, io, call, keys, rest, done, Since(m), Since(n), key, Synced(q, r));
        OneCounted(done, key, Synced(q, r));
        done := done[key := Synced(q, r)];
        rest := rest - {key};
        if r.Err? { failures := failures + 1; }
      }
    }

    // ---------------------------------------------------------------- the index of a version

    predicate MissAllowed(key: ProviderKey)
      reads this, missRefreshes
    {
      B.RefreshAllowed(missRefreshes.deadlines, B.OfProvider(key), mono, settings.backoff)
    }

    predicate IndexAllowed(key: ProviderKey)
      reads this, indexFailures
    {
      B.RefreshAllowed(indexFailures.deadlines, B.OfProvider(key), mono, settings.backoff)
    }

    /** The index to look a version up in: the loaded one, or, when that does not list the
        version and no deadline forbids it, one asked for again. */
    method IndexFor(key: VersionKey, io: VersionIo) returns (r: IndexResult, ghost l: Lookup)
      requires Valid() && held == Held({}, {key})
      modifies Repr()
      ensures Valid() && held == old(held) && old(log) <= log && Rely(old(Now()), Now(), held)
      ensures LookupTraced(Since(old(|log|)), l) && IndexLookup(settings, io, l, key, r)
      ensures r.Ok? ==> ValidateRegistryVersions(r.value.value)
    {
      hide Evolves, EntriesSound, Bounded, ValidateRegistryVersions, Lists, IndexAnswer, IndexGrounds, History;
      hide During, SameIndex, SameVersion;
      ghost var start, n := Now(), |log|;
      var how;
      ghost var load;
      r, how, load := LoadIndex(key.provider, io.load);
      ghost var a, call := Now(), Since(n);
      AnswerIsKnown(settings, load.at, key.provider, r, how);
      Still(load.at, NOTHING);
      l := Lookup(r, how, load, LoadFailed, load.at, load.at, load.at, None);
      if r.Err? { return; }
      InstantEvolves(settings.syn, Since(n), load.at, a);
      KnownStays(settings.syn, load.at, a, key.provider);
      r, l := LookFurther(key, io.again, r.value, l, n);
      RelyChains(start, a, Now(), held);
      WidenTrace(call, Since(n), load);
    }

    /** The lookup after the load, begun at the `n`-th event: an index that lists the version is
        used; any other is asked for again unless a deadline forbids it. */
    method LookFurther(key: VersionKey, io: IndexIo, loaded: IndexEntry, ghost l0: Lookup, ghost n: nat)
      returns (r: IndexResult, ghost l: Lookup)
      requires Valid() && held == Held({}, {key}) && n <= |log| && key.provider in indices
      requires During(Since(n), l0.seen) && Known(l0.seen.indices, key.provider) == Some(loaded) && l0.ask.None?
      requires ValidateRegistryVersions(loaded.value)
      modifies Repr()
      ensures Valid() && held == old(held) && old(log) <= log && Rely(old(Now()), Now(), held)
      ensures l.loaded == l0.loaded && l.how == l0.how && l.load == l0.load
      ensures Forced(Since(n), l) && Concluded(settings, io, l, key, r) && !l.found.LoadFailed?
      ensures Lists(loaded, key.version) ==> l.found.Listed? && r == Ok(loaded)
      ensures r.Ok? ==> ValidateRegistryVersions(r.value.value)
    {
      hide Evolves, EntriesSound, Bounded, ValidateRegistryVersions, Lists, History;
      hide During, SameIndex, SameVersion, Answered;
      ghost var start, call := Now(), Since(n);
      Yield();
      ghost var a := Now();
      Widen(call, Since(n), l0.seen);
      Here(n);
      Still(a, NOTHING);
      r := Ok(loaded);
      l := l0.(found := Listed, before := a, at := a);
      if Lists(loaded, key.version) { return; }
      l := l.(found := Throttled);
      if !MissAllowed(key.provider) { return; }
      KnownStays(settings.syn, start, a, key.provider);
      r, l := LookUnderDeadline(key, io, loaded, l, n);
      RelyChains(start, a, Now(), held);
    }

    /** The lookup of a version that the loaded index does not list, once no miss forbids it. */
    method LookUnderDeadline(key: VersionKey, io: IndexIo, loaded: IndexEntry, ghost l0: Lookup, ghost n: nat)
      returns (r: IndexResult, ghost l: Lookup)
      requires Valid() && held == Held({}, {key}) && n <= |log| && key.provider in indices
      requires During(Since(n), l0.seen) && Known(l0.seen.indices, key.provider) == Some(loaded) && l0.ask.None?
      requires ValidateRegistryVersions(loaded.value) && !Lists(loaded, key.version) && l0.found.Throttled?
      modifies Repr()
      ensures Valid() && held == old(held) && old(log) <= log && Rely(old(Now()), Now(), held)
      ensures l.loaded == l0.loaded && l.how == l0.how && l.load == l0.load
      ensures Forced(Since(n), l) && Concluded(settings, io, l, key, r) && !l.found.LoadFailed?
      ensures r.Ok? ==> ValidateRegistryVersions(r.value.value)
    {
      hide Evolves, EntriesSound, Bounded, ValidateRegistryVersions, Lists, History;
      hide During, SameIndex, SameVersion, Answered;
      ghost var start, call := Now(), Since(n);
      Yield();
      ghost var a := Now();
      Widen(call, Since(n), l0.seen);
      Here(n);
      Still(a, NOTHING);
      r, l := Ok(loaded), l0.(before := a, at := a);
      if !IndexAllowed(key.provider) { return; }
      KnownStays(settings.syn, start, a, key.provider);
      ghost var m, forced := |log|, l;
      r, forced := ForceIndex(key, io, loaded);
      RelyChains(start, a, Now(), held);
      WidenForced(Since(m), Since(n), forced);
      l := forced.(loaded := l0.loaded, how := l0.how, load := l0.load);
    }

    /** Under the index lock: looks again, and asks the registry at most once per window. */
    method ForceIndex(key: VersionKey, io: IndexIo, loaded: IndexEntry) returns (r: IndexResult, ghost l: Lookup)
      requires Valid() && held == Held({}, {key}) && key.provider in indices
      modifies Repr()
      ensures Valid() && held == old(held) && old(log) <= log && Rely(old(Now()), Now(), held)
      ensures Forced(Since(old(|log|)), l) && Concluded(settings, io, l, key, r) && !l.found.LoadFailed?
      ensures r.Ok? ==> ValidateRegistryVersions(r.value.value)
    {
      hide Evolves, EntriesSound, Bounded, ValidateRegistryVersions, Summary, Answered, History;
      ghost var start, n := Now(), |log|;
      LockIndex(key.provider);
      ghost var before, m := Now(), |log|;
      KnownStays(settings.syn, start, before, key.provider);
      var index := if key.provider in indices then indices[key.provider] else loaded;
      Here(n);
      Still(before, NOTHING);
      ghost var none := Unasked(before, before);
      l := Lookup(Ok(index), Hit, none, Listed, before, before, before, None);
      r := Ok(index);
      if !Lists(index, key.version) {
        l := l.(found := Throttled);
        if MissAllowed(key.provider) {
          r, l := ForceAllowed(key, io, index, l);
          RelyChains(start, before, Now(), Outer(held));
          WidenForced(Since(m), Since(n), l);
        }
      }
      UnlockIndex(key.provider);
    }

    method ForceAllowed(key: VersionKey, io: IndexIo, index: IndexEntry, ghost l0: Lookup)
      returns (r: IndexResult, ghost l: Lookup)
      requires Valid() && held == Held({key.provider}, {key}) && Known(indices, key.provider) == Some(index)
      requires !Lists(index, key.version) && MissAllowed(key.provider) && ValidateRegistryVersions(index.value)
      requires l0.before == l0.at == l0.seen == Now() && l0.ask == None && l0.found.Throttled?
      modifies Repr()
      ensures Valid() && held == old(held) && old(log) <= log && Rely(old(Now()), Now(), Outer(held))
      ensures Forced(Since(old(|log|)), l) && Concluded(settings, io, l, key, r) && !l.found.LoadFailed?
      ensures r.Ok? ==> ValidateRegistryVersions(r.value.value)
    {
      hide Evolves, EntriesSound, Bounded, ValidateRegistryVersions, Answered, Lists, History;
      hide During;
      ghost var start, n := Now(), |log|;
      ghost var outer := Outer(held);
      Here(n);
      ghost var call := Since(n);
      Yield();
      ghost var a, m := Now(), |log|;
      Lift(start, a, held, outer);
      Here(n);
      Widen(call, Since(n), start);
      r, l := Ok(index), l0.(at := a);
      if !IndexAllowed(key.provider) { return; }
      ghost var at, q;
      r, at, q := AskAfterMiss(key, io);
      l := l0.(found := Asked, at := at, seen := Now(), ask := Some(q));
      RelyChains(start, a, Now(), outer);
      EvolvesChains(start, a, at);
      Here(n);
      Widen(call, Since(n), start);
      Widen(Since(m), Since(n), at);
      WidenAsk(Since(m), Since(n), Some(q));
    }

    method AskAfterMiss(key: VersionKey, io: IndexIo) returns (r: IndexResult, ghost at: World, ghost q: Ask)
      requires Valid() && held == Held({key.provider}, {key}) && IndexAllowed(key.provider)
      modifies Repr()
      ensures Valid() && held == old(held) && old(log) <= log && Rely(old(Now()), Now(), Outer(held))
      ensures Evolves(old(Now()), at) && During(Since(old(|log|)), at) && AskDuring(Since(old(|log|)), Some(q))
      ensures Known(at.missRefreshes, B.OfProvider(key.provider)) == Some(at.mono + settings.backoff)
      ensures !InForce(at.indexFailures, B.OfProvider(key.provider), at, settings)
      ensures Answered(settings, io, key.provider, q, r) && q.settled == Now()
      ensures r.Ok? ==> Known(indices, key.provider) == Some(r.value) && ValidateRegistryVersions(r.value.value)
    {
      hide Evolves, EntriesSound, Bounded, ValidateRegistryVersions, History;
      ghost var start, n := Now(), |log|;
      RecordMiss(key.provider);
      at := Now();
      Here(n);
      ghost var call, m := Since(n), |log|;
      Unchanged(start, at, Outer(held));
      r, q := RefreshAndSettle(key.provider, io);
      RelyChains(start, at, Now(), Outer(held));
      Widen(call, Since(n), at);
      WidenAsk(Since(m), Since(n), Some(q));
    }

    // ---------------------------------------------------------------- versions

    /** Asks for every platform; the answers come back in any order. */
    method FetchPackages(key: VersionKey, platforms: seq<RegistryPlatform>, packages: nat -> PackageAnswer)
      returns (completed: seq<(int, Fetch)>, ghost fetched: seq<Fetch>)
      requires Valid() && held == Held({}, {key})
      modifies Repr()
      ensures Valid() && held == old(held) && old(log) <= log && Rely(old(Now()), Now(), held)
      ensures IsCompletion(completed, fetched) && |fetched| == |platforms|
      ensures AllChecked(settings.syn, key, platforms, packages, fetched)
    {
      hide Evolves, EntriesSound, Bounded, ValidatePackage, IsCompletion, History;
      ghost var start := Now();
      Still(start, held);
      completed, fetched := [], [];
      NoneCompleted();
      for i := 0 to |platforms|
        invariant Valid() && held == old(held) && old(log) <= log && Rely(start, Now(), held)
        invariant |fetched| == |completed| == i && IsCompletion(completed, fetched)
        invariant AllChecked(settings.syn, key, platforms, packages, fetched)
      {
        ghost var a := Now();
        Yield();
        RelyChains(start, a, Now(), held);
        var result := Checked(settings.syn, key, platforms[i], packages(i));
        var slot :| 0 <= slot <= i;
        OneMoreCompleted(completed, fetched, slot, result);
        completed := completed[..slot] + [(i, result)] + completed[slot..];
        fetched := fetched + [result];
      }
    }

    /** Writes a version document, then makes it visible. */
    method StoreVersion(key: VersionKey, entry: VersionEntry, write: Write) returns (r: VersionResult)
      requires Valid() && held == Held({}, {key}) && Acceptable(settings.syn, key, entry.value)
      modifies Repr()
      ensures Valid() && held == old(held) && old(log) <= log && Rely(old(Now()), Now(), NOTHING)
      ensures r == if write.Durable? then Ok(entry) else Err(Io)
      ensures r.Ok? ==> Known(versions, key) == Some(entry) && WroteVersion(key, entry) in written
      ensures r.Err? ==> SameVersion(old(Now()), Now(), key)
    {
      hide Evolves, EntriesSound, Bounded, Acceptable, History;
      ghost var start := Now();
      var ok := WriteJson(VersionPath(key), VersionDoc(entry), WroteVersion(key, entry), write);
      ghost var w := Now();
      OthersRespectLocks(start, w, NOTHING, NOTHING);
      if !ok { return Err(Io); }
      Yield();
      ghost var y := Now();
      Lift(w, y, held, NOTHING);
      RelyChains(start, w, y, NOTHING);
      WrittenIsSound(settings.syn, w, y, WroteVersion(key, entry));
      InsertVersion(key, entry);
      OthersRespectLocks(y, Now(), NOTHING, held);
      RelyChains(start, y, Now(), NOTHING);
      r := Ok(entry);
    }

    /** The refresh of a version the index lists: fetch, merge with the cached platforms, store. */
    method MergeAndStore(key: VersionKey, io: VersionIo, summary: RegistryVersion)
      returns (r: VersionResult, ghost basis: Basis)
      requires Valid() && held == Held({}, {key}) && ValidateRegistryVersion(summary) && ValidVersion(key.version)
      modifies Repr()
      ensures Valid() && held == old(held) && old(log) <= log && Rely(old(Now()), Now(), NOTHING)
      ensures basis.summary == summary && basis.cached == CachedPlatforms(old(Now()), key)
      ensures During(Since(old(|log|)), basis.merged) && RestsOn(settings.syn, io, key, basis, r)
      ensures r.Ok? ==> Known(versions, key) == Some(r.value) && WroteVersion(key, r.value) in written
      ensures r.Err? ==> SameVersion(old(Now()), Now(), key)
    {
      hide Evolves, EntriesSound, Bounded, ValidatePackage, IsCompletion, Acceptable, ValidVersion, History;
      ghost var start, n := Now(), |log|;
      var known := if key in versions then versions[key].value.platforms else [];
      CachedIsSound(settings.syn, start, key);
      var completed;
      ghost var fetched;
      completed, fetched := FetchPackages(key, summary.platforms, io.packages);
      ghost var a := Now();
      Lift(start, a, held, NOTHING);
      Here(n);
      ghost var call := Since(n);
      CheckedAnswers(settings.syn, key, summary.platforms, io.packages, fetched);
      var platforms, firstError := MergePlatforms(summary.platforms, known, completed, fetched);
      basis := Basis(summary, known, fetched, a);
      if platforms == [] && firstError.Some? { r := Err(firstError.value); return; }
      MergedAcceptable(settings.syn, key, summary.platforms, known, fetched);
      r := StoreVersion(key, CacheEntry(wall, firstError.None?, Document(key, platforms)), io.write);
      RelyChains(start, a, Now(), NOTHING);
      Widen(call, Since(n), a);
    }

    /** The refresh of a version: find its line in an index, then fetch and store. */
    method RefreshVersion(key: VersionKey, io: VersionIo) returns (r: VersionResult, ghost f: Refresh)
      requires Valid() && held == Held({}, {key}) && ValidVersion(key.version)
      modifies Repr()
      ensures Valid() && held == old(held) && old(log) <= log && Rely(old(Now()), Now(), NOTHING)
      ensures RefreshTraced(Since(old(|log|)), f) && VersionRefresh(settings, io, key, f, old(Now()), r)
      ensures r.Ok? ==> Known(versions, key) == Some(r.value) && WroteVersion(key, r.value) in written
      ensures r.Err? ==> SameVersion(old(Now()), Now(), key)
    {
      hide Evolves, EntriesSound, Bounded, ValidateRegistryVersions, Summary, RestsOn, History;
      hide ValidVersion, IndexLookup, LookupTraced;
      ghost var start, n := Now(), |log|;
      var index;
      ghost var l;
      index, l := IndexFor(key, io);
      ghost var a, m, call := Now(), |log|, Since(n);
      Lift(start, a, held, NOTHING);
      f := Refresh(index, l, None);
      if index.Err? { r := Err(index.error); return; }
      var summary := Summary(index.value.value, key.version);
      if summary.None? { r := Err(NotFound); return; }
      SummaryIs(index.value.value, key.version);
      ghost var basis;
      r, basis := MergeAndStore(key, io, summary.value);
      f := Refresh(index, l, Some(basis));
      RelyChains(start, a, Now(), NOTHING);
      WidenLookup(call, Since(n), l);
      Widen(Since(m), Since(n), basis.merged);
    }

    method ReloadVersion(key: VersionKey, readable: bool) returns (ok: bool, ghost looked: World)
      requires Valid() && held == Held({}, {key}) && key !in versions && ValidVersion(key.version)
      modifies Repr()
      ensures Valid() && held == old(held) && old(log) <= log
      ensures Rely(old(Now()), Now(), NOTHING) && During(Since(old(|log|)), looked)
      ensures key !in looked.versions && ok == readable && (!ok ==> key !in versions)
      ensures ok ==> Known(versions, key) == VersionOnDisk(settings.syn, looked, key)
    {
      hide Evolves, EntriesSound, Bounded, ValidateVersionMetadata, ValidVersion, History;
      ghost var start, n := Now(), |log|;
      Yield();
      looked := Now();
      Lift(start, looked, held, NOTHING);
      Here(n);
      ghost var call := Since(n);
      ok := readable;
      if !ok { return; }
      var disk := past[|past| - 1];
      Yield();
      ghost var b := Now();
      Lift(looked, b, held, NOTHING);
      RelyChains(start, looked, b, NOTHING);
      if VersionPath(key) in disk && disk[VersionPath(key)].VersionDoc? &&
         ValidateVersionMetadata(settings.syn, key, disk[VersionPath(key)].version.value) {
        OnDiskOnce(looked, b, VersionPath(key));
        ReloadedAcceptable(settings.syn, key, disk[VersionPath(key)].version.value);
        InsertVersion(key, disk[VersionPath(key)].version);
        OthersRespectLocks(b, Now(), NOTHING, held);
        RelyChains(start, b, Now(), NOTHING);
      }
      Widen(call, Since(n), looked);
    }

    method AskForVersion(key: VersionKey, io: VersionIo)
      returns (r: VersionResult, how: Served, ghost f: Option<Refresh>, ghost asked: World, ghost noting: World)
      requires Valid() && held == Held({}, {key}) && ValidVersion(key.version)
      modifies Repr()
      ensures Valid() && held == old(held) && old(log) <= log && Rely(old(Now()), Now(), NOTHING)
      ensures During(Since(old(|log|)), noting) && Evolves(asked, noting) && Evolves(noting, Now())
      ensures During(Since(old(|log|)), asked) && (f.Some? ==> RefreshTraced(Since(old(|log|)), f.value))
      ensures Evolves(old(Now()), asked)
      ensures VersionAnswer(settings, Now(), key, r, how) && !how.Hit? && !how.Unreadable?
      ensures (how.Refreshed? || how.FellBack?) ==>
                && !InForce(asked.versionFailures, B.OfVersion(key), asked, settings) && f.Some?
                && var outcome := if how.Refreshed? then r else Err(how.error);
                   && VersionRefresh(settings, io, key, f.value, asked, outcome) && SameEntries(noting, Now())
                   && Noted(settings, noting.versionFailures, versionFailures.deadlines, B.OfVersion(key), mono, outcome)
    {
      hide Evolves, EntriesSound, Bounded, VersionRefresh, RefreshTraced, ValidVersion, History, Noted;
      ghost var start, n := Now(), |log|;
      var cached := Known(versions, key);
      Yield();
      asked := Now();
      Lift(start, asked, held, NOTHING);
      Here(n);
      ghost var call, m := Since(n), |log|;
      f := None;
      if !B.RefreshAllowed(versionFailures.deadlines, B.OfVersion(key), mono, settings.backoff) {
        Still(asked, NOTHING);
        return Or(cached, RefreshBackoff), HeldBack, None, asked, asked;
      }
      var refreshed;
      ghost var f';
      refreshed, f' := RefreshVersion(key, io);
      ghost var b, refresh, k := Now(), Since(m), |log|;
      RelyChains(start, asked, b, NOTHING);
      r, how, noting := SettleVersion(key, cached, refreshed);
      f := Some(f');
      RelyChains(start, b, Now(), NOTHING);
      EvolvesChains(asked, b, noting);
      Widen(Since(k), Since(n), noting);
      Widen(call, Since(n), asked);
      WidenRefresh(refresh, Since(n), f');
    }

    method SettleVersion(key: VersionKey, cached: Option<VersionEntry>, refreshed: VersionResult)
      returns (r: VersionResult, how: Served, ghost noting: World)
      requires Valid() && held == Held({}, {key})
      requires refreshed.Err? ==> Known(versions, key) == cached
      requires refreshed.Ok? ==>
                 Known(versions, key) == Some(refreshed.value) && WroteVersion(key, refreshed.value) in written
      modifies Repr()
      ensures Valid() && held == old(held) && old(log) <= log && Rely(old(Now()), Now(), NOTHING)
      ensures VersionAnswer(settings, Now(), key, r, how)
      ensures if refreshed.Ok? then how == Refreshed && r == refreshed else how == FellBack(refreshed.error)
      ensures During(Since(old(|log|)), noting) && Evolves(old(Now()), noting) && SameEntries(noting, Now())
      ensures Evolves(noting, Now())
      ensures Noted(settings, noting.versionFailures, versionFailures.deadlines, B.OfVersion(key), mono, refreshed)
    {
      hide Evolves, EntriesSound, Bounded, History, B.NotedFailure;
      ghost var start, n := Now(), |log|;
      Yield();
      ghost var a := Now();
      noting := a;
      Lift(start, a, held, NOTHING);
      Here(n);
      ghost var call := Since(n);
      match refreshed {
        case Ok(entry) =>
          WrittenIsSound(settings.syn, start, a, WroteVersion(key, entry));
          Pardon(versionFailures, B.OfVersion(key));
          r, how := refreshed, Refreshed;
        case Err(e) =>
          Penalise(versionFailures, B.OfVersion(key), e);
          r, how := Or(if cached.Some? then cached else Known(versions, key), e), FellBack(e);
      }
      Unchanged(a, Now(), NOTHING);
      RelyChains(start, a, Now(), NOTHING);
      Widen(call, Since(n), a);
      NotedPenalises(settings, a.versionFailures, versionFailures.deadlines, B.OfVersion(key), Now(), refreshed);
    }

    /** What memory and, if that has none, the disk can answer, under the key's lock. */
    method VersionAtHand(key: VersionKey, readable: bool)
      returns (done: bool, r: VersionResult, how: Served, ghost looked: World)
      requires Valid() && held == Held({}, {key}) && ValidVersion(key.version)
      modifies Repr()
      ensures Valid() && held == old(held) && old(log) <= log && Rely(old(Now()), Now(), NOTHING)
      ensures During(Since(old(|log|)), looked) && Evolves(looked, Now())
      ensures !how.Unreadable? && key !in looked.versions ==>
                Known(versions, key) == VersionOnDisk(settings.syn, looked, key)
      ensures key in looked.versions ==> key in versions
      ensures how.Unreadable? <==> key !in looked.versions && !readable
      ensures done ==> (how.Hit? || how.Unreadable?) && VersionAnswer(settings, Now(), key, r, how)
      ensures !done ==> how.Hit? && (key in versions ==> !Young(settings, versions[key], wall))
    {
      hide Evolves, EntriesSound, Bounded, ValidVersion, UsableVersion, History;
      hide During, SameIndex, VersionOnDisk;
      ghost var start, n := Now(), |log|;
      Still(start, NOTHING);
      Here(n);
      looked := start;
      if key in versions && Fresh(settings, versions[key], wall) {
        return true, Ok(versions[key]), Hit, looked;
      }
      if key !in versions {
        var ok;
        ok, looked := ReloadVersion(key, readable);
        InstantEvolves(settings.syn, Since(n), looked, Now());
        if !ok { return true, Err(Io), Unreadable, looked; }
      }
      ghost var a, call := Now(), Since(n);
      Yield();
      Lift(a, Now(), held, NOTHING);
      RelyChains(start, a, Now(), NOTHING);
      Widen(call, Since(n), looked);
      EvolvesChains(looked, a, Now());
      done := key in versions && Fresh(settings, versions[key], wall);
      r, how := if key in versions then Ok(versions[key]) else Err(RefreshBackoff), Hit;
    }

    method LoadVersionLocked(key: VersionKey, io: VersionIo)
      returns (r: VersionResult, how: Served, ghost f: Option<Refresh>, ghost trace: Trace)
      requires Valid() && held == Held({}, {key}) && ValidVersion(key.version)
      modifies Repr()
      ensures Valid() && held == old(held) && old(log) <= log && Rely(old(Now()), Now(), NOTHING)
      ensures trace.at == Now() && Traced(Since(old(|log|)), trace)
      ensures f.Some? ==> RefreshTraced(Since(old(|log|)), f.value)
      ensures VersionAnswer(settings, Now(), key, r, how)
      ensures VersionGrounds(settings, io, trace, f, key, r, how)
    {
      hide Evolves, EntriesSound, Bounded, ValidVersion, VersionRefresh, RefreshTraced, UsableVersion, History;
      hide During, SameIndex, Penalised, VersionOnDisk, SameVersion, InForce, Noted;
      ghost var start, n := Now(), |log|;
      var done;
      ghost var looked;
      done, r, how, looked := VersionAtHand(key, io.readable);
      ghost var b, m, call := Now(), |log|, Since(n);
      Here(n);
      Still(b, NOTHING);
      f, trace := None, Unasked(looked, b);
      if done { return; }
      ghost var asked, noting;
      r, how, f, asked, noting := AskForVersion(key, io);
      trace := Trace(looked, b, asked, noting, Now(), None);
      RelyChains(start, b, Now(), NOTHING);
      Here(n);
      Widen(call, Since(n), looked);
      Widen(call, Since(n), b);
      Widen(Since(m), Since(n), asked);
      Widen(Since(m), Since(n), noting);
      if f.Some? { WidenRefresh(Since(m), Since(n), f.value); }
      VersionTakenFromDisk(settings.syn, looked, b, Now(), key);
    }

    /** A version load, as the instant `trace.at` of the call decides it.  Once a version is in
        memory the answer is always a version. */
    method LoadVersion(key: VersionKey, io: VersionIo)
      returns (r: VersionResult, how: Served, ghost f: Option<Refresh>, ghost trace: Trace)
      requires Valid() && held == NOTHING && ValidVersion(key.version)
      modifies Repr()
      ensures Valid() && held == NOTHING && old(log) <= log && Evolves(old(Now()), Now())
      ensures Traced(Since(old(|log|)), trace) && (f.Some? ==> RefreshTraced(Since(old(|log|)), f.value))
      ensures VersionAnswer(settings, trace.at, key, r, how)
      ensures VersionGrounds(settings, io, trace, f, key, r, how)
      ensures key in old(versions) ==> r.Ok?
      ensures r.Ok? ==> Acceptable(settings.syn, key, r.value.value)
    {
      hide Evolves, EntriesSound, Bounded, Acceptable, ValidVersion, VersionGrounds, RefreshTraced, History;
      hide During, SameIndex, SameVersion, VersionAnswer;
      ghost var start, n := Now(), |log|;
      Yield();
      ghost var a := Now();
      Here(n);
      VersionStays(settings.syn, start, a, key);
      f := None;
      if key in versions && Fresh(settings, versions[key], wall) {
        trace := Unasked(a, a);
        Still(a, NOTHING);
        FreshVersionGrounds(settings, io, trace, key);
        return Ok(versions[key]), Hit, None, trace;
      }
      LockVersion(key);
      ghost var b, m := Now(), |log|;
      RelyChains(start, a, b, NOTHING);
      r, how, f, trace := LoadVersionLocked(key, io);
      RelyChains(start, b, Now(), NOTHING);
      WidenTrace(Since(m), Since(n), trace);
      if f.Some? { WidenRefresh(Since(m), Since(n), f.value); }
      VersionAnswerIsKnown(settings, Now(), key, r, how);
      VersionStays(settings.syn, start, Now(), key);
      UnlockVersion(key);
    }

    /** What clients call: the address is validated here, whatever it is, and a version that
        does not exist is an answer, not an error. */
    method GetVersion(allowed: set<string>, provider: ProviderKey, version: string, io: VersionIo)
      returns (r: Result<Option<VersionMetadata>, MetadataError>, loaded: VersionResult, how: Served,
               ghost f: Option<Refresh>, ghost trace: Trace)
      requires Valid() && held == NOTHING
      modifies Repr()
      ensures Valid() && held == NOTHING && old(log) <= log && Evolves(old(Now()), Now())
      ensures !ValidateVersion(version) || !ValidProviderKey(provider) ==> r == Err(InvalidAddress)
      ensures ValidateVersion(version) && ValidProviderKey(provider) && provider.hostname !in allowed ==>
                r == Err(RegistryNotAllowed)
      ensures ValidateVersion(version) && ValidProviderKey(provider) && provider.hostname in allowed ==>
                var key := VersionKey(provider, NormalizeVersion(version));
                && (loaded.Ok? ==> r == Ok(Some(loaded.value.value)))
                && (loaded.Err? ==> r == if loaded.error.NotFound? then Ok(None) else Err(loaded.error))
                && Traced(Since(old(|log|)), trace)
                && VersionAnswer(settings, trace.at, key, loaded, how)
                && VersionGrounds(settings, io, trace, f, key, loaded, how)
                && (f.Some? ==> RefreshTraced(Since(old(|log|)), f.value))
                && (r.Ok? && r.value.Some? ==> Acceptable(settings.syn, key, r.value.value))
                && (key in old(versions) ==> r.Ok? && r.value.Some?)
    {
      hide Inv, Acceptable, Evolves, ValidVersion, ValidProviderKey, VersionGrounds, VersionAnswer, History;
      hide Traced, RefreshTraced;
      Still(Now(), NOTHING);
      loaded, how, f := Err(InvalidAddress), Unreadable, None;
      trace := Unasked(Now(), Now());
      if !ValidateVersion(version) || !ValidProviderKey(provider) { r := Err(InvalidAddress); return; }
      if provider.hostname !in allowed { r := Err(RegistryNotAllowed); return; }
      loaded, how, f, trace := LoadVersion(VersionKey(provider, NormalizeVersion(version)), io);
      r := Reply(loaded);
    }
  }

  /** Over the whole life of a service, whatever it and the others did: what was in memory after
      any of its events is in memory now, unless replaced by something written first; each of
      its own steps kept to the keys whose locks it held then; and every state was sound. */
  lemma EntriesNeverLeave(service: Service, i: nat)
    requires service.Valid() && i <= |service.log|
    ensures Evolves(StateAt(service.birth, service.log, i), service.Now())
    ensures forall j :: 0 <= j < |service.log| ==> Lawful(service.settings.syn, service.log[j])
  {
    hide History, Lawful, Evolves;
    HistoryKeeps(service.settings.syn, service.birth, service.log, service.Now(), i);
    forall j | 0 <= j < |service.log| ensures Lawful(service.settings.syn, service.log[j]) {
      HistoryIsLawful(service.settings.syn, service.birth, service.log, service.Now(), j);
    }
  }
}
