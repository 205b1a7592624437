/**
 The reloading certificate resolver: chain validation, and the throttled reload protocol
 that any number of handshakes run at once.
 */
module Resolver {
  import opened Common
  import opened Der
  import Calendar

  type Chain = seq<seq<Byte>>

  // ---------------------------------------------------------------- chain validation

  predicate AdmitsCert(der: seq<Byte>, now: int) {
    var v := ParseCertificateValidity(der);
    v.Validity? && v.notBefore <= now <= v.notAfter
  }

  /** Every certificate parses and its inclusive validity period contains `now`
      (section 4.1.2.5 of RFC 5280). */
  ghost predicate Admits(chain: Chain, now: int) {
    forall i :: 0 <= i < |chain| ==> AdmitsCert(chain[i], now)
  }

  /** The end of the chain's life: the earliest notAfter. */
  ghost predicate EndsAt(chain: Chain, end: int) {
    && (forall i :: 0 <= i < |chain| && ParseCertificateValidity(chain[i]).Validity? ==>
                      end <= ParseCertificateValidity(chain[i]).notAfter)
    && (end == Calendar.I64_MAX || exists i :: 0 <= i < |chain| && ParseCertificateValidity(chain[i]).Validity? &&
                                                end == ParseCertificateValidity(chain[i]).notAfter)
  }

  method ValidateCertificateValidity(certs: Chain, now: int) returns (end: Option<int>)
    requires Calendar.FitsI64(now)
    ensures end.Some? <==> Admits(certs, now)
    ensures end.Some? ==> EndsAt(certs, end.value) && now <= end.value
  {
    hide ParseCertificateValidity;
    var earliest := Calendar.I64_MAX;
    for i := 0 to |certs|
      invariant Admits(certs[..i], now)
      invariant EndsAt(certs[..i], earliest)
      invariant now <= earliest
    {
      var v := ParseCertificateValidity(certs[i]);
      if v.NoValidity? { assert !AdmitsCert(certs[i], now); return None; }
      if now < v.notBefore { assert !AdmitsCert(certs[i], now); return None; }
      if now > v.notAfter { assert !AdmitsCert(certs[i], now); return None; }
      ghost var before := certs[..i];
      ghost var after := certs[..i + 1];
      assert after == before + [certs[i]];
      assert forall j :: 0 <= j < i ==> after[j] == before[j];
      ghost var previous := earliest;
      if v.notAfter < earliest { earliest := v.notAfter; }
      assert EndsAt(after, earliest) by {
        if earliest == v.notAfter {
          assert after[i] == certs[i];
        } else if previous != Calendar.I64_MAX {
          var j :| 0 <= j < |before| && ParseCertificateValidity(before[j]).Validity? &&
                   previous == ParseCertificateValidity(before[j]).notAfter;
          assert after[j] == before[j];
        }
      }
    }
    assert certs[..|certs|] == certs;
    return Some(earliest);
  }

  /** Once admitted, a chain stays admitted exactly until its end. */
  lemma AdmittedUntilEnd(chain: Chain, end: int, past: int, now: int)
    requires Admits(chain, past) && EndsAt(chain, end) && past <= now
    requires Calendar.FitsI64(now)
    ensures Admits(chain, now) <==> now <= end
  {
    hide ParseCertificateValidity;
    if now > end {
      var i :| 0 <= i < |chain| && ParseCertificateValidity(chain[i]).Validity? &&
               end == ParseCertificateValidity(chain[i]).notAfter;
      assert !AdmitsCert(chain[i], now);
    } else {
      forall i | 0 <= i < |chain| ensures AdmitsCert(chain[i], now) {
        assert AdmitsCert(chain[i], past);
      }
    }
  }

  // ---------------------------------------------------------------- the protocol

  /** `loadedAt` is the wall clock reading at which the chain was validated; the program
      does not store it. */
  datatype Cached = Cached(chain: Chain, notAfter: int, loadedAt: int)

  /** A handshake.  `now` and `epoch` are its two clock readings; `claim` is the number of
      its claim. */
  datatype Task =
    | Started(now: int, epoch: int)
    | Stale(now: int, epoch: int)
    | Loading(now: int, epoch: int, claim: nat)
    | Loaded(now: int, epoch: int, claim: nat, fetched: Cached)
    | Failed(now: int, epoch: int)
    | Returned(epoch: int, result: Option<Chain>)

  /** `claims` lists the readings under which reloads were claimed, the constructor's first. */
  datatype State = State(
    cached: Cached, stamp: int, interval: nat,
    mono: int, wall: int,
    tasks: map<nat, Task>, claims: seq<int>)

  datatype Action =
    | Tick(mono: int, wall: int)
    | Start(t: nat)
    | ReadCheck(t: nat)
    | Claim(t: nat)
    | LoadOk(t: nat, chain: Chain, end: int)
    | LoadErr(t: nat)
    | Publish(t: nat)
    | Fallback(t: nat)

  /** Elapsed time on the monotonic clock; an earlier reading counts as no time. */
  function Since(now: int, past: int): nat {
    if now >= past then now - past else 0
  }

  ghost predicate Enabled(s: State, a: Action) {
    match a
    case Tick(mono, wall) => s.mono <= mono && s.wall <= wall && Calendar.FitsI64(wall)
    case Start(t) => t !in s.tasks
    case ReadCheck(t) => t in s.tasks && s.tasks[t].Started?
    case Claim(t) => t in s.tasks && s.tasks[t].Stale?
    case LoadOk(t, chain, end) =>
      t in s.tasks && s.tasks[t].Loading? && chain != [] && Admits(chain, s.wall) && EndsAt(chain, end)
    case LoadErr(t) => t in s.tasks && s.tasks[t].Loading?
    case Publish(t) => t in s.tasks && s.tasks[t].Loaded?
    case Fallback(t) => t in s.tasks && s.tasks[t].Failed?
  }

  function Serve(s: State, epoch: int): Task {
    Returned(epoch, if epoch <= s.cached.notAfter then Some(s.cached.chain) else None)
  }

  ghost function Apply(s: State, a: Action): State
    requires Enabled(s, a)
  {
    match a
    case Tick(mono, wall) => s.(mono := mono, wall := wall)
    case Start(t) => s.(tasks := s.tasks[t := Started(s.mono, s.wall)])
    case ReadCheck(t) =>
      var k := s.tasks[t];
      s.(tasks := s.tasks[t := if Since(k.now, s.stamp) < s.interval then Serve(s, k.epoch) else Stale(k.now, k.epoch)])
    case Claim(t) =>
      var k := s.tasks[t];
      if Since(k.now, s.stamp) < s.interval then
        s.(tasks := s.tasks[t := Serve(s, k.epoch)])
      else
        s.(stamp := k.now, claims := s.claims + [k.now], tasks := s.tasks[t := Loading(k.now, k.epoch, |s.claims|)])
    case LoadOk(t, chain, end) =>
      var k := s.tasks[t];
      s.(tasks := s.tasks[t := Loaded(k.now, k.epoch, k.claim, Cached(chain, end, s.wall))])
    case LoadErr(t) =>
      var k := s.tasks[t];
      s.(tasks := s.tasks[t := Failed(k.now, k.epoch)])
    case Publish(t) =>
      var k := s.tasks[t];
      s.(cached := k.fetched, stamp := k.now, tasks := s.tasks[t := Returned(k.epoch, Some(k.fetched.chain))])
    case Fallback(t) =>
      s.(tasks := s.tasks[t := Serve(s, s.tasks[t].epoch)])
  }

  ghost predicate ValidRun(s: State, acts: seq<Action>)
    decreases |acts|
  {
    acts == [] || (Enabled(s, acts[0]) && ValidRun(Apply(s, acts[0]), acts[1..]))
  }

  ghost function Run(s: State, acts: seq<Action>): State
    requires ValidRun(s, acts)
    decreases |acts|
  {
    if acts == [] then s else Run(Apply(s, acts[0]), acts[1..])
  }

  /** The constructor: a chain validated at the wall clock, stamped a little later. */
  ghost predicate Initial(s: State) {
    && Good(s.cached, s.wall) && s.tasks == map[] && s.claims == [s.stamp] && s.stamp == s.mono
    && Calendar.FitsI64(s.wall)
  }

  // ---------------------------------------------------------------- only valid chains are served

  ghost predicate Good(c: Cached, wall: int) {
    c.chain != [] && Admits(c.chain, c.loadedAt) && EndsAt(c.chain, c.notAfter) && c.loadedAt <= wall
  }

  /** Some reading of the wall clock between the start of the call and now lies in the
      validity period of every certificate. */
  ghost predicate ValidDuring(chain: Chain, epoch: int, wall: int) {
    exists w :: epoch <= w <= wall && Admits(chain, w)
  }

  ghost predicate GoodTask(k: Task, wall: int) {
    && k.epoch <= wall && Calendar.FitsI64(k.epoch)
    && (k.Loaded? ==> Good(k.fetched, wall) && k.epoch <= k.fetched.loadedAt)
    && (k.Returned? && k.result.Some? ==> ValidDuring(k.result.value, k.epoch, wall))
  }

  ghost predicate Inv(s: State) {
    && Good(s.cached, s.wall) && Calendar.FitsI64(s.wall)
    && forall t :: t in s.tasks ==> GoodTask(s.tasks[t], s.wall)
  }

  lemma ServeIsValid(s: State, epoch: int)
    requires Good(s.cached, s.wall) && epoch <= s.wall && Calendar.FitsI64(epoch) && epoch <= s.cached.notAfter
    ensures ValidDuring(s.cached.chain, epoch, s.wall)
  {
    var c := s.cached;
    if c.loadedAt <= epoch {
      AdmittedUntilEnd(c.chain, c.notAfter, c.loadedAt, epoch);
    } else {
      assert Admits(c.chain, c.loadedAt);
    }
  }

  lemma StillValidDuring(chain: Chain, epoch: int, wall: int, later: int)
    requires ValidDuring(chain, epoch, wall) && wall <= later
    ensures ValidDuring(chain, epoch, later)
  {
    var w :| epoch <= w <= wall && Admits(chain, w);
    assert epoch <= w <= later;
  }

  lemma InvKept(s: State, a: Action)
    requires Inv(s) && Enabled(s, a)
    ensures Inv(Apply(s, a))
  {
    hide Admits, EndsAt, ValidDuring;
    var n := Apply(s, a);
    forall t | t in n.tasks ensures GoodTask(n.tasks[t], n.wall) {
      var k := n.tasks[t];
      if k.Returned? && k.result.Some? {
        if t in s.tasks && s.tasks[t].Returned? {
          StillValidDuring(k.result.value, k.epoch, s.wall, n.wall);
        } else if a.Publish? {
          PublishedIsValid(s.tasks[t].fetched, k.epoch, s.wall);
        } else {
          ServeIsValid(s, k.epoch);
        }
      }
    }
  }

  lemma PublishedIsValid(c: Cached, epoch: int, wall: int)
    requires Good(c, wall) && epoch <= c.loadedAt
    ensures ValidDuring(c.chain, epoch, wall)
  {
    assert Admits(c.chain, c.loadedAt);
  }

  lemma {:induction false} InvAlways(s: State, acts: seq<Action>)
    requires Inv(s) && ValidRun(s, acts)
    ensures Inv(Run(s, acts))
    decreases |acts|
  {
    if acts != [] {
      InvKept(s, acts[0]);
      InvAlways(Apply(s, acts[0]), acts[1..]);
    }
  }

  /** Whatever the interleaving of handshakes, reloads and clock ticks, a chain is only
      returned if it was valid at some moment of the call. */
  lemma OnlyValidChainsServed(s: State, acts: seq<Action>, t: nat)
    requires Initial(s) && ValidRun(s, acts)
    ensures var n := Run(s, acts);
            t in n.tasks && n.tasks[t].Returned? && n.tasks[t].result.Some? ==>
              ValidDuring(n.tasks[t].result.value, n.tasks[t].epoch, n.wall)
  {
    InvAlways(s, acts);
  }

  /** Only a successful load replaces the cached pair, with a chain valid at that load; a
      handshake goes without a certificate only when the cached one had run out for it. */
  lemma LastGoodPairKept(s: State, a: Action)
    requires Inv(s) && Enabled(s, a)
    ensures !a.Publish? ==> Apply(s, a).cached == s.cached
    ensures a.Publish? ==> Apply(s, a).cached == s.tasks[a.t].fetched &&
                           Admits(Apply(s, a).cached.chain, Apply(s, a).cached.loadedAt)
    ensures forall t :: t in Apply(s, a).tasks && (t !in s.tasks || !s.tasks[t].Returned?) ==>
              Apply(s, a).tasks[t].Returned? && Apply(s, a).tasks[t].result.None? ==>
                !Admits(s.cached.chain, Apply(s, a).tasks[t].epoch)
  {
    hide EndsAt;
    var n := Apply(s, a);
    forall t | t in n.tasks && (t !in s.tasks || !s.tasks[t].Returned?) &&
               n.tasks[t].Returned? && n.tasks[t].result.None?
      ensures !Admits(s.cached.chain, n.tasks[t].epoch)
    {
      ExpiredIsNotAdmitted(s.cached, n.tasks[t].epoch);
    }
  }

  lemma ExpiredIsNotAdmitted(c: Cached, epoch: int)
    requires EndsAt(c.chain, c.notAfter) && Calendar.FitsI64(epoch) && epoch > c.notAfter
    ensures !Admits(c.chain, epoch)
  {
    hide ParseCertificateValidity;
    var i :| 0 <= i < |c.chain| && ParseCertificateValidity(c.chain[i]).Validity? &&
             c.notAfter == ParseCertificateValidity(c.chain[i]).notAfter;
    assert !AdmitsCert(c.chain[i], epoch);
  }

  /** A handshake that was not under way to an answer before the step has one after it. */
  predicate Answers(s: State, n: State, t: nat) {
    t in n.tasks && n.tasks[t].Returned? && (t !in s.tasks || !s.tasks[t].Returned?)
  }

  /** Whatever a handshake is answered with is the pair cached at that instant, exactly if it
      has not run out for it, or the chain it has just loaded itself. */
  lemma AnsweredFromPair(s: State, a: Action, t: nat)
    requires Inv(s) && Enabled(s, a) && Answers(s, Apply(s, a), t)
    ensures t in s.tasks
    ensures var result := Apply(s, a).tasks[t].result;
            if a.Publish? then s.tasks[t].Loaded? && result == Some(s.tasks[t].fetched.chain)
            else
              && (result.Some? <==> s.tasks[t].epoch <= s.cached.notAfter)
              && (result.Some? ==> result.value == s.cached.chain)
  {
    hide Admits, EndsAt, ValidDuring;
  }

  /** What a load found is what its handshake has, until it publishes that very pair. */
  lemma LoadedIsFound(s: State, a: Action, t: nat)
    requires Enabled(s, a) && t in Apply(s, a).tasks && Apply(s, a).tasks[t].Loaded?
    ensures var found := Apply(s, a).tasks[t].fetched;
            if t in s.tasks && s.tasks[t].Loaded? then found == s.tasks[t].fetched
            else a == LoadOk(t, found.chain, found.notAfter) && found.loadedAt == s.wall
  {
    hide Admits, EndsAt;
  }

  // ---------------------------------------------------------------- reloads happen when due

  /** The throttle is stamped with the reading of some claim. */
  ghost predicate Stamped(s: State) {
    && s.stamp in s.claims
    && forall t :: t in s.tasks && (s.tasks[t].Loading? || s.tasks[t].Loaded?) ==> s.tasks[t].now in s.claims
  }

  lemma {:induction false} StampedAlways(s: State, acts: seq<Action>)
    requires Stamped(s) && ValidRun(s, acts)
    ensures Stamped(Run(s, acts))
    decreases |acts|
  {
    hide Admits, EndsAt;
    if acts != [] { StampedAlways(Apply(s, acts[0]), acts[1..]); }
  }

  /** In every reachable state, a handshake whose reading is an interval or more after every
      claim passes the throttle: its first look finds the pair due for a reload, and its second
      claims that reload, under its own reading. */
  lemma DueIsClaimed(s: State, acts: seq<Action>, a: Action)
    requires Initial(s) && ValidRun(s, acts) && Enabled(Run(s, acts), a) && (a.ReadCheck? || a.Claim?)
    requires var n := Run(s, acts);
             forall i :: 0 <= i < |n.claims| ==> n.claims[i] + n.interval <= n.tasks[a.t].now
    ensures var n := Run(s, acts);
            var k, after := n.tasks[a.t], Apply(n, a);
            && (a.ReadCheck? ==> after.tasks[a.t] == Stale(k.now, k.epoch) && after.claims == n.claims)
            && (a.Claim? ==>
                  && after.tasks[a.t].Loading? && after.tasks[a.t].now == k.now
                  && after.claims == n.claims + [k.now] && after.stamp == k.now)
  {
    hide Admits, EndsAt, Run, ValidRun;
    assert Stamped(s);
    StampedAlways(s, acts);
    assert Run(s, acts).stamp in Run(s, acts).claims;
  }

  /** A look less than an interval after the stamp, and so any look at all with the clock behind
      the stamp unless the interval is zero, ends the handshake at once: it is answered from the
      cached pair and nothing shared changes. */
  lemma RecentIsServed(s: State, a: Action)
    requires Inv(s) && Enabled(s, a) && (a.ReadCheck? || a.Claim?)
    ensures var k, after := s.tasks[a.t], Apply(s, a);
            if 0 < s.interval && k.now < s.stamp + s.interval then
              && after.tasks[a.t].Returned? && after.tasks[a.t].epoch == k.epoch
              && after == s.(tasks := after.tasks) && (forall t :: t != a.t && t in after.tasks ==>
                                                         t in s.tasks && after.tasks[t] == s.tasks[t])
              && after.tasks[a.t].result == if k.epoch <= s.cached.notAfter then Some(s.cached.chain) else None
            else !after.tasks[a.t].Returned?
  {
    hide Admits, EndsAt, ValidDuring;
  }

  // ---------------------------------------------------------------- spacing of reloads

  predicate Spaced(claims: seq<int>, interval: nat) {
    forall i :: 0 <= i < |claims| - 1 ==> claims[i] + interval <= claims[i + 1]
  }

  predicate Pending(k: Task) {
    k.Started? || k.Stale?
  }

  function LastClaim(s: State): int
    requires s.claims != []
  {
    s.claims[|s.claims| - 1]
  }

  /** With the throttle stamped at `stamp`, no reading, pending or still to come, that passes
      the throttle lies within an interval of the last claim. */
  ghost predicate Guards(s: State, stamp: int)
    requires s.claims != []
  {
    stamp == LastClaim(s) ||
    (LastClaim(s) + s.interval <= s.mono &&
     forall u :: u in s.tasks && Pending(s.tasks[u]) ==>
       s.tasks[u].now < stamp + s.interval || LastClaim(s) + s.interval <= s.tasks[u].now)
  }

  ghost predicate Paced(s: State) {
    && s.interval > 0 && s.claims != [] && Spaced(s.claims, s.interval)
    && s.stamp <= LastClaim(s) <= s.mono && Guards(s, s.stamp)
    && (forall t :: t in s.tasks && (s.tasks[t].Loading? || s.tasks[t].Loaded?) ==>
          s.tasks[t].claim < |s.claims| && s.claims[s.tasks[t].claim] == s.tasks[t].now)
    && (forall t :: t in s.tasks && Pending(s.tasks[t]) ==> s.tasks[t].now <= s.mono)
  }

  /** A load publishes before the next claim is made; or else an interval has passed since the
      last claim and no handshake is under way whose reading falls between the end of the
      load's interval and the end of the last claim's. */
  ghost predicate Harmless(s: State, a: Action)
    requires Enabled(s, a)
  {
    a.Publish? && s.claims != [] ==> s.tasks[a.t].claim == |s.claims| - 1 || Guards(s, s.tasks[a.t].now)
  }

  ghost predicate HarmlessRun(s: State, acts: seq<Action>)
    requires ValidRun(s, acts)
    decreases |acts|
  {
    acts == [] || (Harmless(s, acts[0]) && HarmlessRun(Apply(s, acts[0]), acts[1..]))
  }

  lemma PacedKept(s: State, a: Action)
    requires Paced(s) && Enabled(s, a) && Harmless(s, a)
    ensures Paced(Apply(s, a)) && Apply(s, a).interval == s.interval
  {
    hide Admits, EndsAt;
    if a.Publish? {
      PublishPaced(s, a);
    } else if a.Claim? {
      ClaimPaced(s, a);
    }
  }

  lemma ClaimPaced(s: State, a: Action)
    requires Paced(s) && a.Claim? && Enabled(s, a)
    ensures Paced(Apply(s, a))
  {
    hide Admits, EndsAt;
    var n := Apply(s, a);
    assert n.claims == s.claims || (n.claims == s.claims + [n.stamp] && LastClaim(s) + s.interval <= n.stamp);
  }

  lemma PublishPaced(s: State, a: Action)
    requires Paced(s) && a.Publish? && Enabled(s, a) && Harmless(s, a)
    ensures Paced(Apply(s, a))
  {
    hide Admits, EndsAt;
    var claim := s.tasks[a.t].claim;
    if claim < |s.claims| - 1 { SpacedApart(s.claims, s.interval, claim, |s.claims| - 1); }
  }

  lemma {:induction false} PacedAlways(s: State, acts: seq<Action>)
    requires Paced(s) && ValidRun(s, acts) && HarmlessRun(s, acts)
    ensures Paced(Run(s, acts)) && Run(s, acts).interval == s.interval
    decreases |acts|
  {
    hide Paced, Enabled, Apply, Harmless;
    if acts != [] {
      PacedKept(s, acts[0]);
      PacedAlways(Apply(s, acts[0]), acts[1..]);
    }
  }

  /** Reloads are claimed at least one interval apart, whatever the interleaving, if every load
      publishes before the next claim or harmlessly late. */
  lemma ClaimsSpaced(s: State, acts: seq<Action>)
    requires Initial(s) && s.interval > 0 && ValidRun(s, acts) && HarmlessRun(s, acts)
    ensures Spaced(Run(s, acts).claims, s.interval)
  {
    hide ValidRun, Run, HarmlessRun;
    PacedAlways(s, acts);
  }

  /** The condition is exact.  In every state reached so far within it, a publication keeps it
      if and only if the claims stay spaced whatever follows within it. */
  lemma HarmlessExactly(s0: State, acts: seq<Action>, t: nat)
    requires Initial(s0) && s0.interval > 0 && ValidRun(s0, acts) && HarmlessRun(s0, acts)
    requires Enabled(Run(s0, acts), Publish(t))
    ensures var s := Run(s0, acts);
            var n := Apply(s, Publish(t));
            Harmless(s, Publish(t)) <==>
            forall more :: ValidRun(n, more) && HarmlessRun(n, more) ==> Spaced(Run(n, more).claims, s0.interval)
  {
    assert Paced(s0);
    hide ValidRun, Run, HarmlessRun, Apply, Paced, Harmless;
    PacedAlways(s0, acts);
    var s := Run(s0, acts);
    var n := Apply(s, Publish(t));
    if Harmless(s, Publish(t)) {
      PacedKept(s, Publish(t));
      forall more | ValidRun(n, more) && HarmlessRun(n, more) ensures Spaced(Run(n, more).claims, s0.interval) {
        PacedAlways(n, more);
        PacedMeansSpaced(Run(n, more));
      }
    } else {
      var more := LatePublishBreaksSpacing(s, t);
    }
  }

  lemma PacedMeansSpaced(s: State)
    requires Paced(s)
    ensures Spaced(s.claims, s.interval)
  {
  }

  /** A publication that breaks the condition winds the stamp back, and some handshake within
      an interval of the last claim, under way or new, claims again. */
  lemma LatePublishBreaksSpacing(s: State, t: nat) returns (more: seq<Action>)
    requires Paced(s) && Enabled(s, Publish(t)) && !Harmless(s, Publish(t))
    ensures var n := Apply(s, Publish(t));
            ValidRun(n, more) && HarmlessRun(n, more) && !Spaced(Run(n, more).claims, s.interval)
  {
    SpacedApart(s.claims, s.interval, s.tasks[t].claim, |s.claims| - 1);
    var n := Apply(s, Publish(t));
    if s.mono < LastClaim(s) + s.interval {
      var u := Fresh(n.tasks.Keys);
      var n1 := Apply(n, Start(u));
      assert n1.tasks[u] == Started(s.mono, s.wall);
      var rest := SecondClaim(n1, u);
      more := [Start(u)] + rest;
      RunSteps(n, Start(u), rest);
    } else {
      var u :| u in s.tasks && Pending(s.tasks[u]) && s.tasks[t].now + s.interval <= s.tasks[u].now &&
               s.tasks[u].now < LastClaim(s) + s.interval;
      assert n.tasks[u] == s.tasks[u];
      more := SecondClaim(n, u);
    }
  }

  /** A pending handshake that passes the throttle too soon after the last claim. */
  lemma SecondClaim(s: State, u: nat) returns (more: seq<Action>)
    requires s.interval > 0 && s.claims != [] && u in s.tasks && Pending(s.tasks[u])
    requires s.stamp + s.interval <= s.tasks[u].now < LastClaim(s) + s.interval
    ensures ValidRun(s, more) && HarmlessRun(s, more) && !Spaced(Run(s, more).claims, s.interval)
  {
    var s1 := if s.tasks[u].Started? then Apply(s, ReadCheck(u)) else s;
    assert s1.tasks[u] == Stale(s.tasks[u].now, s.tasks[u].epoch);
    var s2 := Apply(s1, Claim(u));
    var last := |s.claims| - 1;
    assert s2.claims == s.claims + [s.tasks[u].now];
    assert s2.claims[last] == s.claims[last] && s2.claims[last + 1] == s.tasks[u].now;
    RunSteps(s1, Claim(u), []);
    more := [Claim(u)];
    if s.tasks[u].Started? {
      RunSteps(s, ReadCheck(u), [Claim(u)]);
      more := [ReadCheck(u), Claim(u)];
    }
  }

  lemma {:induction false} Fresh(used: set<nat>) returns (u: nat)
    ensures forall x :: x in used ==> x < u
    decreases used
  {
    if used == {} {
      u := 0;
    } else {
      var x :| x in used;
      var below := Fresh(used - {x});
      u := if below <= x then x + 1 else below;
      assert forall y :: y in used ==> y == x || y in used - {x};
    }
  }

  lemma {:induction false} SpacedApart(claims: seq<int>, interval: nat, i: nat, j: nat)
    requires Spaced(claims, interval) && i < j < |claims|
    ensures claims[i] + interval <= claims[j]
    decreases j
  {
    if i + 1 < j { SpacedApart(claims, interval, i, j - 1); }
  }

  lemma RunSteps(s: State, a: Action, acts: seq<Action>)
    requires Enabled(s, a) && ValidRun(Apply(s, a), acts)
    ensures ValidRun(s, [a] + acts) && Run(s, [a] + acts) == Run(Apply(s, a), acts)
    ensures Harmless(s, a) && HarmlessRun(Apply(s, a), acts) ==> HarmlessRun(s, [a] + acts)
  {
    assert ([a] + acts)[1..] == acts;
  }

  lemma {:induction false} Next(s: State, acts: seq<Action>, a: Action)
    requires ValidRun(s, acts) && Enabled(Run(s, acts), a)
    ensures ValidRun(s, acts + [a]) && Run(s, acts + [a]) == Apply(Run(s, acts), a)
    decreases |acts|
  {
    hide Enabled, Apply;
    if acts == [] {
      assert ([] + [a])[1..] == [];
    } else {
      assert (acts + [a])[1..] == acts[1..] + [a];
      Next(Apply(s, acts[0]), acts[1..], a);
    }
  }

  /** A handshake at `mono` that passes the throttle. */
  function Handshake(t: nat, mono: int, wall: int): seq<Action> {
    [Tick(mono, wall), Start(t), ReadCheck(t), Claim(t)]
  }

  lemma HandshakeClaims(s: State, acts: seq<Action>, t: nat, mono: int)
    requires ValidRun(s, acts)
    requires var n := Run(s, acts);
             && t !in n.tasks && n.mono <= mono && n.stamp + n.interval <= mono && Calendar.FitsI64(n.wall)
    ensures var n := Run(s, acts);
            var more := acts + Handshake(t, mono, n.wall);
            && ValidRun(s, more)
            && Run(s, more) == n.(mono := mono, stamp := mono, claims := n.claims + [mono],
                                  tasks := n.tasks[t := Loading(mono, n.wall, |n.claims|)])
  {
    hide ValidRun, Run;
    var n := Run(s, acts);
    var acts1 := acts + [Tick(mono, n.wall)];
    var acts2 := acts1 + [Start(t)];
    var acts3 := acts2 + [ReadCheck(t)];
    Next(s, acts, Tick(mono, n.wall));
    Next(s, acts1, Start(t));
    assert Run(s, acts2) == n.(mono := mono, tasks := n.tasks[t := Started(mono, n.wall)]);
    Next(s, acts2, ReadCheck(t));
    assert Run(s, acts3) == n.(mono := mono, tasks := n.tasks[t := Stale(mono, n.wall)]);
    Next(s, acts3, Claim(t));
    assert acts3 + [Claim(t)] == acts + Handshake(t, mono, n.wall);
  }

  /** One interval after start a handshake claims a reload; its load is slow.  Another interval
      later a second handshake claims, the slow load publishes, and a third handshake claims at
      the very same moment. */
  function SlowLoad(s: State, chain: Chain, end: int): seq<Action> {
    Handshake(0, s.mono + s.interval, s.wall) + Handshake(1, s.mono + 2 * s.interval, s.wall) +
    [LoadOk(0, chain, end)] + [Publish(0)] + Handshake(2, s.mono + 2 * s.interval, s.wall)
  }

  lemma SecondClaimFromStart(s: State)
    requires Initial(s) && s.interval > 0
    ensures var acts := Handshake(0, s.mono + s.interval, s.wall) + Handshake(1, s.mono + 2 * s.interval, s.wall);
            && ValidRun(s, acts)
            && var n := Run(s, acts);
               && n.mono == n.stamp == s.mono + 2 * s.interval && n.wall == s.wall && n.interval == s.interval
               && n.claims == [s.mono, s.mono + s.interval, s.mono + 2 * s.interval]
               && 0 in n.tasks && n.tasks[0] == Loading(s.mono + s.interval, s.wall, 1) && 2 !in n.tasks
  {
    assert ValidRun(s, []) && Run(s, []) == s;
    hide ValidRun, Run, Admits, EndsAt, Handshake;
    var acts := Handshake(0, s.mono + s.interval, s.wall);
    HandshakeClaims(s, [], 0, s.mono + s.interval);
    assert [] + acts == acts;
    assert Run(s, acts).claims == [s.mono, s.mono + s.interval];
    HandshakeClaims(s, acts, 1, s.mono + 2 * s.interval);
  }

  lemma LoadPublishes(s: State, acts: seq<Action>, t: nat, chain: Chain, end: int)
    requires ValidRun(s, acts)
    requires var n := Run(s, acts);
             && t in n.tasks && n.tasks[t].Loading?
             && chain != [] && Admits(chain, n.wall) && EndsAt(chain, end)
    ensures var n := Run(s, acts);
            var more := acts + [LoadOk(t, chain, end)] + [Publish(t)];
            && ValidRun(s, more)
            && Run(s, more) == n.(cached := Cached(chain, end, n.wall), stamp := n.tasks[t].now,
                                  tasks := n.tasks[t := Returned(n.tasks[t].epoch, Some(chain))])
  {
    hide ValidRun, Run, Admits, EndsAt;
    Next(s, acts, LoadOk(t, chain, end));
    Next(s, acts + [LoadOk(t, chain, end)], Publish(t));
  }

  /** From the start: every resolver with a positive interval can be driven into two claims at
      one moment. */
  lemma SlowLoadFromStart(s: State, chain: Chain, end: int)
    requires Initial(s) && s.interval > 0 && chain != [] && Admits(chain, s.wall) && EndsAt(chain, end)
    ensures ValidRun(s, SlowLoad(s, chain, end))
    ensures Run(s, SlowLoad(s, chain, end)).claims ==
            [s.mono, s.mono + s.interval, s.mono + 2 * s.interval, s.mono + 2 * s.interval]
    ensures !Spaced(Run(s, SlowLoad(s, chain, end)).claims, s.interval)
  {
    hide ValidRun, Run, Admits, EndsAt, Handshake, Enabled;
    SecondClaimFromStart(s);
    var acts := Handshake(0, s.mono + s.interval, s.wall) + Handshake(1, s.mono + 2 * s.interval, s.wall);
    LoadPublishes(s, acts, 0, chain, end);
    HandshakeClaims(s, acts + [LoadOk(0, chain, end)] + [Publish(0)], 2, s.mono + 2 * s.interval);
    var claims := Run(s, SlowLoad(s, chain, end)).claims;
    assert claims[2] + s.interval > claims[3];
  }

  /** An early handshake that is slow to claim, and a later one that overtakes it. */
  function Overtaking(s: State): seq<Action> {
    [Start(0)] + Handshake(1, s.mono + 1, s.wall) + [ReadCheck(0)] + [Claim(0)]
  }

  /** A positive interval is needed: without one an overtaken handshake claims with its older
      reading. */
  lemma ZeroIntervalDisorders(s: State)
    requires Initial(s) && s.interval == 0
    ensures ValidRun(s, Overtaking(s)) && Run(s, Overtaking(s)).claims == [s.mono, s.mono + 1, s.mono]
    ensures !Spaced(Run(s, Overtaking(s)).claims, s.interval)
  {
    assert ValidRun(s, []) && Run(s, []) == s;
    hide ValidRun, Run, Admits, EndsAt, Handshake;
    Next(s, [], Start(0));
    assert [] + [Start(0)] == [Start(0)];
    HandshakeClaims(s, [Start(0)], 1, s.mono + 1);
    var acts := [Start(0)] + Handshake(1, s.mono + 1, s.wall);
    assert Run(s, acts).tasks[0] == Started(s.mono, s.wall) && Run(s, acts).claims == [s.mono, s.mono + 1];
    hide Initial, Apply, Enabled;
    OvertakenClaims(s, acts, 0);
    var claims := Run(s, Overtaking(s)).claims;
    assert claims[1] > claims[2];
  }

  lemma OvertakenClaims(s: State, acts: seq<Action>, t: nat)
    requires ValidRun(s, acts)
    requires var n := Run(s, acts); n.interval == 0 && t in n.tasks && n.tasks[t].Started?
    ensures var n := Run(s, acts);
            var more := acts + [ReadCheck(t)] + [Claim(t)];
            ValidRun(s, more) && Run(s, more).claims == n.claims + [n.tasks[t].now]
  {
    hide ValidRun, Run, Admits, EndsAt;
    Next(s, acts, ReadCheck(t));
    Next(s, acts + [ReadCheck(t)], Claim(t));
  }
}
