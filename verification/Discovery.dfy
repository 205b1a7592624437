/**
 Service discovery for one registry host: a cached origin with a lifetime, a retry backoff
 and a single request in flight, under any interleaving of callers.  Hosts do not share
 cache entries or locks, so one host is the whole story.
 */
module Discovery {
  import opened Common

  /** Provider API origins. */
  type Origin(==, !new)

  const SECOND := 1_000_000_000  // clock units
  const LIFETIME := 30 * 60 * SECOND
  const RETRY := 30 * SECOND

  datatype Entry = Entry(origin: Option<Origin>, fetchedAt: int, retryAt: Option<int>)

  datatype Answer = Got(origin: Origin) | InBackoff | Failed

  /** `known`: an origin was cached when the call began (bookkeeping). */
  datatype Task =
    | Begun(known: bool)
    | Queued(known: bool)
    | Locked(known: bool)
    | Requesting(known: bool)
    | Done(known: bool, answer: Answer)

  datatype Completion = Completion(at: int, ok: bool)

  /** `joinable`: the well-known path can be appended to the host's base address, which is
      fixed for a host.  `last`, `started` and `ended` only observe the requests made. */
  datatype State = State(
    joinable: bool, cache: Option<Entry>, holder: Option<nat>, tasks: map<nat, Task>, now: int,
    last: Option<Completion>, started: nat, ended: nat)

  datatype Action =
    | Call(t: nat)
    | FastCheck(t: nat, t1: int, t2: int)
    | Lock(t: nat)
    | Recheck(t: nat, t1: int, t2: int)
    | Succeed(t: nat, origin: Origin, at: int)
    | Fail(t: nat, t1: int, t2: int)
    | Cancel(t: nat)

  function Init(joinable: bool, now: int): State {
    State(joinable, None, None, map[], now, None, 0, 0)
  }

  predicate Known(s: State) {
    s.cache.Some? && s.cache.value.origin.Some?
  }

  /** The test made before and again after taking the lock, with its two clock readings. */
  predicate Answers(s: State, t1: int, t2: int) {
    && s.cache.Some?
    && var e := s.cache.value;
       (e.origin.Some? && t1 - e.fetchedAt < LIFETIME) || (e.retryAt.Some? && t2 < e.retryAt.value)
  }

  function CachedAnswer(s: State): Answer {
    if Known(s) then Got(s.cache.value.origin.value) else InBackoff
  }

  predicate Enabled(s: State, a: Action) {
    match a
    case Call(t) => t !in s.tasks
    case FastCheck(t, t1, t2) => t in s.tasks && s.tasks[t].Begun? && s.now <= t1 <= t2
    case Lock(t) => t in s.tasks && s.tasks[t].Queued? && s.holder.None?
    case Recheck(t, t1, t2) => t in s.tasks && s.tasks[t].Locked? && s.now <= t1 <= t2
    case Succeed(t, _, at) => t in s.tasks && s.tasks[t].Requesting? && s.now <= at
    case Fail(t, t1, t2) => t in s.tasks && s.tasks[t].Requesting? && s.now <= t1 <= t2
    case Cancel(t) => t in s.tasks && !s.tasks[t].Done?
  }

  /** The recheck misses and a request goes out. */
  predicate StartsRequest(s: State, a: Action) {
    a.Recheck? && Enabled(s, a) && !Answers(s, a.t1, a.t2) && s.joinable
  }

  function Set(s: State, t: nat, k: Task): State {
    s.(tasks := s.tasks[t := k])
  }

  function Apply(s: State, a: Action): State
    requires Enabled(s, a)
  {
    match a
    case Call(t) => Set(s, t, Begun(Known(s)))
    case FastCheck(t, t1, t2) =>
      var known := s.tasks[t].known;
      Set(s, t, if Answers(s, t1, t2) then Done(known, CachedAnswer(s)) else Queued(known)).(now := t2)
    case Lock(t) => Set(s, t, Locked(s.tasks[t].known)).(holder := Some(t))
    case Recheck(t, t1, t2) =>
      var known := s.tasks[t].known;
      if Answers(s, t1, t2) then Set(s, t, Done(known, CachedAnswer(s))).(holder := None, now := t2)
      else if !s.joinable then Set(s, t, Done(known, Failed)).(holder := None, now := t2)
      else Set(s, t, Requesting(known)).(now := t2, started := s.started + 1)
    case Succeed(t, origin, at) =>
      Set(s, t, Done(s.tasks[t].known, Got(origin)))
      .(cache := Some(Entry(Some(origin), at, None)), holder := None, now := at,
        last := Some(Completion(at, true)), ended := s.ended + 1)
    case Fail(t, t1, t2) =>
      var e := if s.cache.Some? then s.cache.value else Entry(None, t1, None);
      Set(s, t, Done(s.tasks[t].known, if e.origin.Some? then Got(e.origin.value) else Failed))
      .(cache := Some(e.(retryAt := Some(t2 + RETRY))), holder := None, now := t2,
        last := Some(Completion(t2, false)), ended := s.ended + 1)
    case Cancel(t) =>
      s.(tasks := s.tasks - {t}, holder := if s.holder == Some(t) then None else s.holder)
  }

  predicate ValidRun(s: State, acts: seq<Action>)
    decreases |acts|
  {
    acts == [] || (Enabled(s, acts[0]) && ValidRun(Apply(s, acts[0]), acts[1..]))
  }

  function Run(s: State, acts: seq<Action>): State
    requires ValidRun(s, acts)
    decreases |acts|
  {
    if acts == [] then s else Run(Apply(s, acts[0]), acts[1..])
  }

  // ---------------------------------------------------------------- invariant

  predicate Holds(k: Task) {
    k.Locked? || k.Requesting?
  }

  ghost predicate SingleFlight(s: State) {
    && (forall t :: t in s.tasks && Holds(s.tasks[t]) ==> s.holder == Some(t))
    && (s.holder.Some? ==> s.holder.value in s.tasks && Holds(s.tasks[s.holder.value]))
  }

  /** The cache entry records the last completed request. */
  predicate CacheMatchesLast(s: State) {
    && (s.last.None? <==> s.cache.None?)
    && (s.last.Some? ==>
          && s.last.value.at <= s.now
          && (if s.last.value.ok
              then s.cache.value.origin.Some? && s.cache.value.fetchedAt == s.last.value.at
              else s.cache.value.retryAt == Some(s.last.value.at + RETRY)))
    && (!s.joinable ==> s.cache.None?)
  }

  ghost predicate AnswersKept(s: State) {
    && (forall t :: t in s.tasks && s.tasks[t].known ==> Known(s) && s.joinable)
    && (forall t :: t in s.tasks && s.tasks[t].Done? && s.tasks[t].known ==> s.tasks[t].answer.Got?)
    && (forall t :: t in s.tasks && s.tasks[t].Requesting? ==> s.joinable)
  }

  ghost predicate Inv(s: State) {
    SingleFlight(s) && CacheMatchesLast(s) && AnswersKept(s)
  }

  lemma SingleFlightKept(s: State, a: Action)
    requires SingleFlight(s) && Enabled(s, a)
    ensures SingleFlight(Apply(s, a))
  {
  }

  lemma CacheKept(s: State, a: Action)
    requires CacheMatchesLast(s) && AnswersKept(s) && Enabled(s, a)
    ensures CacheMatchesLast(Apply(s, a)) && (Known(s) ==> Known(Apply(s, a)))
  {
  }

  lemma AnswersStay(s: State, a: Action)
    requires CacheMatchesLast(s) && AnswersKept(s) && Enabled(s, a)
    ensures AnswersKept(Apply(s, a))
  {
  }

  lemma InvKept(s: State, a: Action)
    requires Inv(s) && Enabled(s, a)
    ensures Inv(Apply(s, a)) && (Known(s) ==> Known(Apply(s, a)))
  {
    SingleFlightKept(s, a);
    CacheKept(s, a);
    AnswersStay(s, a);
  }

  lemma {:induction false} InvAlways(s: State, acts: seq<Action>)
    requires Inv(s) && ValidRun(s, acts)
    ensures Inv(Run(s, acts)) && (Known(s) ==> Known(Run(s, acts)))
    decreases |acts|
  {
    if acts != [] {
      InvKept(s, acts[0]);
      InvAlways(Apply(s, acts[0]), acts[1..]);
    }
  }

  // ---------------------------------------------------------------- main results

  predicate InFlight(s: State) {
    s.holder.Some? && s.holder.value in s.tasks && s.tasks[s.holder.value].Requesting?
  }

  /** In every run, with or without cancelled callers, a request starts only while no other
      is in flight, and no sooner than 30 seconds after the last one failed or 30 minutes
      after it succeeded. */
  lemma RequestsSpaced(joinable: bool, now: int, acts: seq<Action>, a: Action)
    requires ValidRun(Init(joinable, now), acts)
    requires StartsRequest(Run(Init(joinable, now), acts), a)
    ensures var s := Run(Init(joinable, now), acts);
            && !InFlight(s)
            && (s.last.Some? ==> a.t2 >= s.last.value.at + if s.last.value.ok then LIFETIME else RETRY)
  {
    InvAlways(Init(joinable, now), acts);
  }

  /** Without cancellation every request that starts completes before the next one starts,
      so the spacing is between consecutive requests. */
  lemma {:induction false} NoneLostWithoutCancel(s: State, acts: seq<Action>)
    requires Inv(s) && ValidRun(s, acts) && forall a :: a in acts ==> !a.Cancel?
    requires s.started == s.ended + if InFlight(s) then 1 else 0
    ensures var n := Run(s, acts); n.started == n.ended + if InFlight(n) then 1 else 0
    decreases |acts|
  {
    if acts != [] {
      assert acts[0] in acts;
      InvKept(s, acts[0]);
      assert forall a :: a in acts[1..] ==> a in acts;
      NoneLostWithoutCancel(Apply(s, acts[0]), acts[1..]);
    }
  }

  /** Once an origin is known it is never lost, and every call that began since and has
      finished returned an origin, however many refreshes failed. */
  lemma OriginNeverLost(joinable: bool, now: int, acts: seq<Action>, more: seq<Action>, t: nat)
    requires ValidRun(Init(joinable, now), acts)
    requires Known(Run(Init(joinable, now), acts)) && ValidRun(Run(Init(joinable, now), acts), more)
    ensures var s, n := Run(Init(joinable, now), acts), Run(Run(Init(joinable, now), acts), more);
            && Known(n)
            && (t !in s.tasks && t in n.tasks && n.tasks[t].Done? ==> n.tasks[t].answer.Got?)
  {
    InvAlways(Init(joinable, now), acts);
    var s := Run(Init(joinable, now), acts);
    InvAlways(s, more);
    BegunKnown(s, more, t, t in s.tasks);
  }

  lemma {:induction false} BegunKnown(s: State, acts: seq<Action>, t: nat, before: bool)
    requires Inv(s) && Known(s) && ValidRun(s, acts)
    requires !before && t in s.tasks ==> s.tasks[t].known
    ensures !before && t in Run(s, acts).tasks ==> Run(s, acts).tasks[t].known
    decreases |acts|
  {
    if acts != [] {
      InvKept(s, acts[0]);
      BegunKnown(Apply(s, acts[0]), acts[1..], t, before);
    }
  }

  // ---------------------------------------------------------------- answers, by what happened

  /** The request of a run that last succeeded. */
  function LastSuccess(acts: seq<Action>): Option<Action> {
    if acts == [] then None
    else if acts[|acts| - 1].Succeed? then Some(acts[|acts| - 1])
    else LastSuccess(acts[..|acts| - 1])
  }

  /** The request of a run that last failed, unless one has succeeded since. */
  function FailureSince(acts: seq<Action>): Option<Action> {
    if acts == [] || acts[|acts| - 1].Succeed? then None
    else if acts[|acts| - 1].Fail? then Some(acts[|acts| - 1])
    else FailureSince(acts[..|acts| - 1])
  }

  /** The last success is younger than 30 minutes. */
  predicate StillFresh(acts: seq<Action>, t1: int) {
    var won := LastSuccess(acts);
    won.Some? && won.value.Succeed? && t1 < won.value.at + 30 * 60 * SECOND
  }

  /** The last request failed less than 30 seconds ago. */
  predicate HeldOff(acts: seq<Action>, t2: int) {
    var lost := FailureSince(acts);
    lost.Some? && lost.value.Fail? && t2 < lost.value.t2 + 30 * SECOND
  }

  /** The origin of the last success, or else the answer for when there never was one. */
  function LatestOr(acts: seq<Action>, none: Answer): Answer {
    var won := LastSuccess(acts);
    if won.Some? && won.value.Succeed? then Got(won.value.origin) else none
  }

  /** The cache is what the requests of the run make it. */
  predicate CacheTells(s: State, acts: seq<Action>) {
    var won, lost := LastSuccess(acts), FailureSince(acts);
    && (won.Some? ==> won.value.Succeed?) && (lost.Some? ==> lost.value.Fail?)
    && (s.cache.None? <==> won.None? && lost.None?)
    && (s.cache.Some? ==>
          && (s.cache.value.origin.Some? <==> won.Some?)
          && (won.Some? ==> s.cache.value.origin.value == won.value.origin && s.cache.value.fetchedAt == won.value.at)
          && s.cache.value.retryAt == if lost.Some? then Some(lost.value.t2 + RETRY) else None)
  }

  lemma {:induction false} RunExtends(s: State, acts: seq<Action>, a: Action)
    requires ValidRun(s, acts + [a])
    ensures ValidRun(s, acts) && Enabled(Run(s, acts), a) && Run(s, acts + [a]) == Apply(Run(s, acts), a)
    decreases |acts|
  {
    hide Enabled, Apply;
    if acts == [] {
      assert ([] + [a])[1..] == [];
    } else {
      assert (acts + [a])[1..] == acts[1..] + [a];
      RunExtends(Apply(s, acts[0]), acts[1..], a);
    }
  }

  lemma {:induction false} CacheFollows(joinable: bool, now: int, acts: seq<Action>)
    requires ValidRun(Init(joinable, now), acts)
    ensures CacheTells(Run(Init(joinable, now), acts), acts)
    decreases |acts|
  {
    if acts != [] {
      var n := |acts| - 1;
      assert acts[..n] + [acts[n]] == acts;
      RunExtends(Init(joinable, now), acts[..n], acts[n]);
      CacheFollows(joinable, now, acts[..n]);
    }
  }

  /** In every reachable state the cached origin is that of the last request that succeeded. */
  lemma OriginIsLatest(joinable: bool, now: int, acts: seq<Action>)
    requires ValidRun(Init(joinable, now), acts)
    ensures var s := Run(Init(joinable, now), acts);
            && (Known(s) <==> LastSuccess(acts).Some?)
            && (Known(s) ==> Got(s.cache.value.origin.value) == LatestOr(acts, Failed))
  {
    CacheFollows(joinable, now, acts);
  }

  /** What a step makes of its call, by what happened before it: a call that looks is answered
      from the last success if that is younger than 30 minutes or the last failure younger than
      30 seconds, and held off if there was only a failure; otherwise it goes on, under the
      lock to a request.  A request's own origin is the answer; one that fails gives the last
      success. */
  ghost predicate Decided(joinable: bool, acts: seq<Action>, a: Action, after: Task) {
    match a
    case FastCheck(_, t1, t2) =>
      if StillFresh(acts, t1) || HeldOff(acts, t2) then after.Done? && after.answer == LatestOr(acts, InBackoff)
      else after.Queued?
    case Recheck(_, t1, t2) =>
      if StillFresh(acts, t1) || HeldOff(acts, t2) then after.Done? && after.answer == LatestOr(acts, InBackoff)
      else if joinable then after.Requesting?
      else after.Done? && after.answer == Failed
    case Succeed(_, origin, _) => after.Done? && after.answer == Got(origin)
    case Fail(_, _, _) => after.Done? && after.answer == LatestOr(acts, Failed)
    case Call(_) => after.Begun?
    case Lock(_) => after.Locked?
    case Cancel(_) => true
  }

  /** Every step of every run decides its call so, takes a cancelled one away, and leaves every
      other as it was. */
  lemma EveryStepDecides(joinable: bool, now: int, acts: seq<Action>, a: Action)
    requires ValidRun(Init(joinable, now), acts + [a])
    ensures ValidRun(Init(joinable, now), acts)
    ensures var s, n := Run(Init(joinable, now), acts), Run(Init(joinable, now), acts + [a]);
            && (forall t :: t != a.t ==> (t in n.tasks <==> t in s.tasks))
            && (forall t :: t != a.t && t in s.tasks ==> n.tasks[t] == s.tasks[t])
            && (a.t in n.tasks <==> !a.Cancel?)
            && (a.t in n.tasks ==> Decided(joinable, acts, a, n.tasks[a.t]))
  {
    RunExtends(Init(joinable, now), acts, a);
    CacheFollows(joinable, now, acts);
    JoinableStays(Init(joinable, now), acts);
    hide Run, ValidRun, LastSuccess, FailureSince;
  }

  lemma {:induction false} JoinableStays(s: State, acts: seq<Action>)
    requires ValidRun(s, acts)
    ensures Run(s, acts).joinable == s.joinable
    decreases |acts|
  {
    if acts != [] { JoinableStays(Apply(s, acts[0]), acts[1..]); }
  }

  /** The `i`-th action of the run finished the call, with the answer it has now. */
  ghost predicate FinishedAt(joinable: bool, now: int, acts: seq<Action>, t: nat, answer: Answer, i: nat) {
    && 0 < i <= |acts| && acts[i - 1].t == t
    && ValidRun(Init(joinable, now), acts[..i - 1]) && ValidRun(Init(joinable, now), acts[..i])
    && var before, after := Run(Init(joinable, now), acts[..i - 1]), Run(Init(joinable, now), acts[..i]);
       && t in before.tasks && !before.tasks[t].Done?
       && t in after.tasks && after.tasks[t].Done? && after.tasks[t].answer == answer
  }

  /** A finished call that got an origin got that of the last success at the instant it
      finished, which may be its own. */
  lemma {:induction false} AnswerWasLatest(joinable: bool, now: int, acts: seq<Action>, t: nat)
    requires ValidRun(Init(joinable, now), acts)
    requires var n := Run(Init(joinable, now), acts); t in n.tasks && n.tasks[t].Done? && n.tasks[t].answer.Got?
    ensures var answer := Run(Init(joinable, now), acts).tasks[t].answer;
            exists i: nat :: FinishedAt(joinable, now, acts, t, answer, i) && LatestOr(acts[..i], Failed) == answer
    decreases |acts|
  {
    if acts != [] {
      var m := |acts| - 1;
      var first, a := acts[..m], acts[m];
      assert first + [a] == acts;
      EveryStepDecides(joinable, now, first, a);
      RunExtends(Init(joinable, now), first, a);
      var s, n := Run(Init(joinable, now), first), Run(Init(joinable, now), acts);
      if a.t == t {
        assert acts[..|acts|] == acts;
        assert t in s.tasks && !s.tasks[t].Done?;
        assert FinishedAt(joinable, now, acts, t, n.tasks[t].answer, |acts|) by { hide Run, ValidRun, Apply, Enabled; }
      } else {
        hide Run, ValidRun, Apply, FailureSince, LastSuccess, FinishedAt;
        AnswerWasLatest(joinable, now, first, t);
        var i: nat :| FinishedAt(joinable, now, first, t, s.tasks[t].answer, i) &&
                      LatestOr(first[..i], Failed) == s.tasks[t].answer;
        FinishedStill(joinable, now, first, a, t, s.tasks[t].answer, i);
        assert first[..i] == acts[..i];
      }
    }
  }

  lemma FinishedStill(joinable: bool, now: int, acts: seq<Action>, a: Action, t: nat, answer: Answer, i: nat)
    requires FinishedAt(joinable, now, acts, t, answer, i)
    ensures FinishedAt(joinable, now, acts + [a], t, answer, i) && i <= |acts|
  {
    hide Run, ValidRun;
    assert (acts + [a])[..i] == acts[..i] && (acts + [a])[..i - 1] == acts[..i - 1];
  }
}
