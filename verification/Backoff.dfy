/**
 The bounded map of retry deadlines that throttles refreshes, and what its bound costs:
 when a deadline can be forgotten early.
 */
module Backoff {
  import M = Metadata

  /** Deadlines are kept for providers (index refreshes, forced refreshes) and for versions. */
  datatype Key = OfProvider(provider: M.ProviderKey) | OfVersion(version: M.VersionKey)

  type Deadlines = map<Key, int>

  const MAX_FAILURES := 4096

  // ---------------------------------------------------------------- the map

  predicate RefreshAllowed(m: Deadlines, key: Key, now: int, backoff: nat) {
    key !in m || now >= m[key] || backoff == 0
  }

  function Unexpired(m: Deadlines, now: int): Deadlines {
    map k | k in m && m[k] > now :: m[k]
  }

  predicate IsOldest(m: Deadlines, k: Key) {
    k in m && forall j :: j in m ==> m[k] <= m[j]
  }

  /** What recording does once the expired deadlines are gone: a full map gives up one of its
      oldest deadlines, whether or not the key is already present. */
  function Record(m: Deadlines, oldest: Key, key: Key, now: int, backoff: nat): Deadlines {
    var kept := Unexpired(m, now);
    (if |kept| >= MAX_FAILURES then kept - {oldest} else kept)[key := now + backoff]
  }

  /** What recording a failure at `now` does to the deadlines: the key's is one backoff ahead,
      the others are those not yet past, and only of a full map an earliest one is missing. */
  ghost predicate NotedFailure(before: Deadlines, after: Deadlines, key: Key, now: int, backoff: nat) {
    && key in after && after[key] == now + backoff
    && (forall k :: k in after && k != key ==> k in before && before[k] > now && after[k] == before[k])
    && (forall k :: Dropped(before, after, k, now) ==>
          4096 <= |Unexpired(before, now)| && IsOldest(Unexpired(before, now), k))
    && (forall j, k :: Dropped(before, after, j, now) && Dropped(before, after, k, now) ==> j == k)
  }

  predicate Dropped(before: Deadlines, after: Deadlines, k: Key, now: int) {
    k in before && before[k] > now && k !in after
  }

  lemma RecordNotes(m: Deadlines, oldest: Key, key: Key, now: int, backoff: nat)
    requires |Unexpired(m, now)| >= MAX_FAILURES ==> IsOldest(Unexpired(m, now), oldest)
    ensures NotedFailure(m, Record(m, oldest, key, now, backoff), key, now, backoff)
  {
  }

  class FailureMap {
    var deadlines: Deadlines
    const backoff: nat

    constructor (backoff: nat)
      ensures deadlines == map[] && this.backoff == backoff
    {
      deadlines := map[];
      this.backoff := backoff;
    }

    method RecordFailure(key: Key, now: int) returns (oldest: Key)
      requires |deadlines| <= MAX_FAILURES
      modifies this
      ensures |deadlines| <= MAX_FAILURES
      ensures |Unexpired(old(deadlines), now)| >= MAX_FAILURES ==> IsOldest(Unexpired(old(deadlines), now), oldest)
      ensures deadlines == Record(old(deadlines), oldest, key, now, backoff)
      ensures NotedFailure(old(deadlines), deadlines, key, now, backoff)
    {
      RecordBounded(deadlines, key, now, backoff);
      ghost var m := deadlines;
      hide Unexpired, IsOldest, NotedFailure;
      deadlines := Unexpired(deadlines, now);
      oldest := key;
      if |deadlines| >= MAX_FAILURES {
        oldest := FindOldest(deadlines);
        deadlines := deadlines - {oldest};
      }
      deadlines := deadlines[key := now + backoff];
      RecordNotes(m, oldest, key, now, backoff);
    }

    method ClearFailure(key: Key)
      modifies this
      ensures deadlines == old(deadlines) - {key}
    {
      deadlines := deadlines - {key};
    }
  }

  /** A linear scan for the earliest deadline, in any iteration order. */
  method FindOldest(m: Deadlines) returns (k: Key)
    requires m != map[]
    ensures IsOldest(m, k)
  {
    var rest := m.Keys;
    k :| k in rest;
    rest := rest - {k};
    while rest != {}
      invariant rest <= m.Keys && k in m && k !in rest
      invariant forall j :: j in m && j !in rest ==> m[k] <= m[j]
      decreases |rest|
    {
      var j :| j in rest;
      rest := rest - {j};
      if m[j] < m[k] { k := j; }
    }
  }

  lemma KeysSubsetSize(a: set<Key>, b: set<Key>)
    requires a <= b
    ensures |a| <= |b|
  {
    assert b == a + (b - a);
  }

  lemma MapSize(m: Deadlines)
    ensures |m| == |m.Keys|
  {
  }

  lemma RecordBounded(m: Deadlines, key: Key, now: int, backoff: nat)
    requires |m| <= MAX_FAILURES
    ensures |Unexpired(m, now)| <= MAX_FAILURES
    ensures forall oldest :: (|Unexpired(m, now)| >= MAX_FAILURES ==> IsOldest(Unexpired(m, now), oldest)) ==>
              |Record(m, oldest, key, now, backoff)| <= MAX_FAILURES
  {
    var kept := Unexpired(m, now);
    KeysSubsetSize(kept.Keys, m.Keys);
    MapSize(m);
    MapSize(kept);
    forall oldest | |kept| >= MAX_FAILURES ==> IsOldest(kept, oldest)
      ensures |Record(m, oldest, key, now, backoff)| <= MAX_FAILURES
    {
      var rest := if |kept| >= MAX_FAILURES then kept - {oldest} else kept;
      if |kept| >= MAX_FAILURES { assert rest.Keys == kept.Keys - {oldest}; }
      MapSize(rest);
      assert |rest| < MAX_FAILURES;
      var r := Record(m, oldest, key, now, backoff);
      assert r.Keys == rest.Keys + {key};
      MapSize(r);
      assert r.Keys - {key} <= rest.Keys;
      KeysSubsetSize(r.Keys - {key}, rest.Keys);
    }
  }

  // ---------------------------------------------------------------- runs

  /** `recorded` (when each key was last recorded) and `live` (not cleared since) are
      bookkeeping; `pending` holds the time of the allowed-check of every provider whose
      forced refresh is under way, under that provider's index lock. */
  datatype State = State(
    deadlines: Deadlines, now: int,
    recorded: map<Key, int>, live: set<Key>, pending: map<Key, int>)

  datatype Action =
    | Fail(key: Key, oldest: Key)
    | Clear(key: Key)
    | CheckMiss(key: Key)
    | ForceRefresh(key: Key, oldest: Key)

  function Init(now: int): State {
    State(map[], now, map[], {}, map[])
  }

  /** Every action reads a later time than the one before. */
  predicate Enabled(s: State, a: Action, time: int, backoff: nat) {
    && s.now < time
    && match a
       case Fail(key, oldest) => key !in s.pending && EvictsOldest(s, oldest, time)
       case Clear(key) => true
       case CheckMiss(key) => key !in s.pending && RefreshAllowed(s.deadlines, key, time, backoff)
       case ForceRefresh(key, oldest) => key in s.pending && EvictsOldest(s, oldest, time)
  }

  predicate EvictsOldest(s: State, oldest: Key, time: int) {
    var kept := Unexpired(s.deadlines, time);
    |kept| >= MAX_FAILURES ==> IsOldest(kept, oldest)
  }

  function Recorded(s: State, key: Key, oldest: Key, time: int, backoff: nat): State {
    s.(deadlines := Record(s.deadlines, oldest, key, time, backoff), now := time,
       recorded := s.recorded[key := time], live := s.live + {key})
  }

  function Apply(s: State, a: Action, time: int, backoff: nat): State
    requires Enabled(s, a, time, backoff)
  {
    match a
    case Fail(key, oldest) => Recorded(s, key, oldest, time, backoff)
    case Clear(key) => s.(deadlines := s.deadlines - {key}, now := time, live := s.live - {key})
    case CheckMiss(key) => s.(now := time, pending := s.pending[key := time])
    case ForceRefresh(key, oldest) =>
      Recorded(s, key, oldest, time, backoff).(pending := s.pending - {key})
  }

  predicate ValidRun(s: State, acts: seq<(Action, int)>, backoff: nat)
    decreases |acts|
  {
    acts == [] || (Enabled(s, acts[0].0, acts[0].1, backoff) &&
                   ValidRun(Apply(s, acts[0].0, acts[0].1, backoff), acts[1..], backoff))
  }

  function Run(s: State, acts: seq<(Action, int)>, backoff: nat): State
    requires ValidRun(s, acts, backoff)
    decreases |acts|
  {
    if acts == [] then s else Run(Apply(s, acts[0].0, acts[0].1, backoff), acts[1..], backoff)
  }

  /** The keys recorded since `key` was. */
  function RecordedSince(s: State, key: Key): set<Key>
    requires key in s.recorded
  {
    set j | j in s.recorded && s.recorded[j] > s.recorded[key]
  }

  const FLOOD := MAX_FAILURES - 1

  predicate Flooded(s: State, key: Key)
    requires key in s.recorded
  {
    |RecordedSince(s, key)| >= FLOOD
  }

  /** The deadline of a recorded key that was not cleared is still known, has passed, or was
      pushed out by a flood of other keys. */
  predicate Remembered(s: State, key: Key, backoff: nat)
    requires key in s.recorded
  {
    key in s.deadlines || s.now >= s.recorded[key] + backoff || Flooded(s, key)
  }

  ghost predicate TimesExact(s: State, backoff: nat) {
    && (forall k :: k in s.deadlines ==> k in s.recorded && k in s.live && s.deadlines[k] == s.recorded[k] + backoff)
    && (forall k :: k in s.live ==> k in s.recorded)
    && (forall k :: k in s.recorded ==> s.recorded[k] <= s.now)
    && DistinctTimes(s.recorded)
  }

  ghost predicate DistinctTimes(recorded: map<Key, int>) {
    forall j, k :: j in recorded && k in recorded && recorded[j] == recorded[k] ==> j == k
  }

  lemma DistinctKept(recorded: map<Key, int>, key: Key, time: int)
    requires DistinctTimes(recorded) && forall k :: k in recorded ==> recorded[k] < time
    ensures DistinctTimes(recorded[key := time])
  {
  }

  ghost predicate AllRemembered(s: State, backoff: nat)
    requires TimesExact(s, backoff)
  {
    forall k :: k in s.live ==> Remembered(s, k, backoff)
  }

  ghost predicate ChecksHold(s: State, backoff: nat) {
    forall k :: k in s.pending && k in s.recorded && k in s.live ==>
                  s.pending[k] >= s.recorded[k] + backoff || Flooded(s, k)
  }

  ghost predicate Inv(s: State, backoff: nat) {
    && |s.deadlines| <= MAX_FAILURES
    && TimesExact(s, backoff) && AllRemembered(s, backoff) && ChecksHold(s, backoff)
  }

  lemma TimesKept(s: State, a: Action, time: int, backoff: nat)
    requires TimesExact(s, backoff) && Enabled(s, a, time, backoff)
    ensures TimesExact(Apply(s, a, time, backoff), backoff)
  {
    hide DistinctTimes, Record, EvictsOldest;
    if a.Fail? || a.ForceRefresh? {
      DistinctKept(s.recorded, a.key, time);
      RecordKeepsOthers(s.deadlines, a.oldest, a.key, time, backoff);
    }
  }

  lemma RecordKeepsOthers(m: Deadlines, oldest: Key, key: Key, now: int, backoff: nat)
    ensures var r := Record(m, oldest, key, now, backoff);
            forall k :: k in r ==> if k == key then r[k] == now + backoff else k in m && r[k] == m[k]
  {
  }

  /** Recording some other key never makes fewer keys recorded since `key`. */
  lemma SinceGrows(s: State, a: Action, time: int, backoff: nat, key: Key)
    requires TimesExact(s, backoff) && Enabled(s, a, time, backoff) && key in s.recorded
    requires (a.Fail? || a.ForceRefresh?) ==> a.key != key
    ensures Flooded(s, key) ==> Flooded(Apply(s, a, time, backoff), key)
  {
    KeysSubsetSize(RecordedSince(s, key), RecordedSince(Apply(s, a, time, backoff), key));
  }

  lemma EvictedIsFlooded(s: State, key: Key, other: Key, time: int, backoff: nat)
    requires TimesExact(s, backoff) && s.now < time && key in s.recorded && other != key
    requires var kept := Unexpired(s.deadlines, time); |kept| >= MAX_FAILURES && IsOldest(kept, key)
    ensures Flooded(Recorded(s, other, key, time, backoff), key)
  {
    var kept := Unexpired(s.deadlines, time);
    var since := RecordedSince(Recorded(s, other, key, time, backoff), key);
    MapSize(kept);
    forall j | j in kept.Keys - {key} ensures j in since {
      assert kept[key] <= kept[j];
    }
    KeysSubsetSize(kept.Keys - {key}, since);
  }

  lemma RememberedKept(s: State, a: Action, time: int, backoff: nat, key: Key)
    requires TimesExact(s, backoff) && Enabled(s, a, time, backoff)
    requires key in s.live && Remembered(s, key, backoff)
    requires key in Apply(s, a, time, backoff).live && key in Apply(s, a, time, backoff).recorded
    ensures Remembered(Apply(s, a, time, backoff), key, backoff)
  {
    var n := Apply(s, a, time, backoff);
    if (a.Fail? || a.ForceRefresh?) {
      if a.key != key {
        SinceGrows(s, a, time, backoff, key);
        if key in s.deadlines && key !in n.deadlines && s.deadlines[key] > time {
          EvictedIsFlooded(s, key, a.key, time, backoff);
        }
      }
    } else {
      SinceGrows(s, a, time, backoff, key);
    }
  }

  lemma ChecksKept(s: State, a: Action, time: int, backoff: nat)
    requires Inv(s, backoff) && Enabled(s, a, time, backoff) && TimesExact(Apply(s, a, time, backoff), backoff)
    ensures ChecksHold(Apply(s, a, time, backoff), backoff)
  {
    var n := Apply(s, a, time, backoff);
    forall k | k in n.pending && k in n.recorded && k in n.live
      ensures n.pending[k] >= n.recorded[k] + backoff || Flooded(n, k)
    {
      assert (a.Fail? || a.ForceRefresh?) ==> a.key != k;
      SinceGrows(s, a, time, backoff, k);
      if a.CheckMiss? && a.key == k {
        assert Remembered(s, k, backoff);
      }
    }
  }

  lemma InvKept(s: State, a: Action, time: int, backoff: nat)
    requires Inv(s, backoff) && Enabled(s, a, time, backoff)
    ensures Inv(Apply(s, a, time, backoff), backoff)
  {
    hide Record, Flooded, Unexpired;
    TimesKept(s, a, time, backoff);
    ChecksKept(s, a, time, backoff);
    var n := Apply(s, a, time, backoff);
    forall k | k in n.live ensures Remembered(n, k, backoff) {
      if k in s.live { RememberedKept(s, a, time, backoff, k); } else { NewlyRecorded(s, a, time, backoff); }
    }
    SizeKept(s, a, time, backoff);
  }

  lemma NewlyRecorded(s: State, a: Action, time: int, backoff: nat)
    requires Enabled(s, a, time, backoff) && (a.Fail? || a.ForceRefresh?)
    ensures a.key in Apply(s, a, time, backoff).deadlines
  {
  }

  lemma SizeKept(s: State, a: Action, time: int, backoff: nat)
    requires |s.deadlines| <= MAX_FAILURES && Enabled(s, a, time, backoff)
    ensures |Apply(s, a, time, backoff).deadlines| <= MAX_FAILURES
  {
    match a {
      case Fail(key, oldest) => RecordBounded(s.deadlines, key, time, backoff);
      case ForceRefresh(key, oldest) => RecordBounded(s.deadlines, key, time, backoff);
      case Clear(key) =>
        var n := s.deadlines - {key};
        KeysSubsetSize(n.Keys, s.deadlines.Keys);
        MapSize(n);
        MapSize(s.deadlines);
      case CheckMiss(_) =>
    }
  }

  lemma {:induction false} InvAlways(s: State, acts: seq<(Action, int)>, backoff: nat)
    requires Inv(s, backoff) && ValidRun(s, acts, backoff)
    ensures Inv(Run(s, acts, backoff), backoff)
    decreases |acts|
  {
    if acts != [] {
      InvKept(s, acts[0].0, acts[0].1, backoff);
      InvAlways(Apply(s, acts[0].0, acts[0].1, backoff), acts[1..], backoff);
    }
  }

  // ---------------------------------------------------------------- main results

  /** The map never exceeds its bound, and an uncleared key is forgotten before its deadline
      only after at least 4095 other distinct keys were recorded since. */
  lemma ForgottenOnlyByFlood(now: int, acts: seq<(Action, int)>, backoff: nat, key: Key)
    requires ValidRun(Init(now), acts, backoff)
    ensures var s := Run(Init(now), acts, backoff);
            && |s.deadlines| <= 4096
            && (key in s.live && key !in s.deadlines ==>
                  key in s.recorded &&
                  (s.now >= s.recorded[key] + backoff || |RecordedSince(s, key)| >= 4095))
  {
    InvAlways(Init(now), acts, backoff);
  }

  /** Asking is refused only within one backoff of a failure that was recorded and not cleared
      since, so it is allowed again at the deadline; and within that time it is refused, unless
      a flood of other keys has pushed the deadline out. */
  lemma RefusedExactly(now: int, acts: seq<(Action, int)>, backoff: nat, key: Key, time: int)
    requires ValidRun(Init(now), acts, backoff) && time >= Run(Init(now), acts, backoff).now
    ensures var s := Run(Init(now), acts, backoff);
            var waiting := key in s.live && key in s.recorded && time < s.recorded[key] + backoff;
            && (!RefreshAllowed(s.deadlines, key, time, backoff) ==> waiting)
            && (waiting ==> !RefreshAllowed(s.deadlines, key, time, backoff) || |RecordedSince(s, key)| >= 4095)
            && (!RefreshAllowed(s.deadlines, key, time, backoff) <==> waiting && key in s.deadlines)
  {
    InvAlways(Init(now), acts, backoff);
    var s := Run(Init(now), acts, backoff);
    hide Run, ValidRun;
    if key in s.live { assert Remembered(s, key, backoff); }
  }

  /** A provider's forced refresh was allowed a full window after its previous one, or a
      flood of other providers came in between. */
  lemma ForcedOncePerWindow(now: int, acts: seq<(Action, int)>, backoff: nat, key: Key, oldest: Key, time: int)
    requires ValidRun(Init(now), acts, backoff)
    requires Enabled(Run(Init(now), acts, backoff), ForceRefresh(key, oldest), time, backoff)
    ensures var s := Run(Init(now), acts, backoff);
            key in s.recorded && key in s.live ==>
              time > s.pending[key] >= s.recorded[key] + backoff || |RecordedSince(s, key)| >= 4095
  {
    InvAlways(Init(now), acts, backoff);
    PendingPast(Init(now), acts, backoff);
  }

  lemma {:induction false} PendingPast(s: State, acts: seq<(Action, int)>, backoff: nat)
    requires ValidRun(s, acts, backoff) && forall k :: k in s.pending ==> s.pending[k] <= s.now
    ensures forall k :: k in Run(s, acts, backoff).pending ==>
                          Run(s, acts, backoff).pending[k] <= Run(s, acts, backoff).now
    decreases |acts|
  {
    if acts != [] { PendingPast(Apply(s, acts[0].0, acts[0].1, backoff), acts[1..], backoff); }
  }
}
