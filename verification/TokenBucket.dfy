/**
 The request rate limiter.  Time is in seconds; reals stand for the double-precision
 numbers of the program, so rounding is not modelled.
 */
module TokenBucket {

  datatype Rate = Rate(qps: real, burst: real) {
    predicate Valid() {
      qps >= 1.0 && burst >= 1.0
    }
  }

  datatype Level = Level(tokens: real, lastRefill: real)

  predicate WithinBurst(r: Rate, b: Level) {
    0.0 <= b.tokens <= r.burst
  }

  /** Elapsed time between readings; an earlier reading counts as no time. */
  function Elapsed(now: real, last: real): real {
    if now >= last then now - last else 0.0
  }

  function Min(a: real, b: real): real {
    if a <= b then a else b
  }

  function Refilled(r: Rate, b: Level, now: real): real {
    Min(b.tokens + Elapsed(now, b.lastRefill) * r.qps, r.burst)
  }

  predicate Admitted(r: Rate, b: Level, now: real) {
    Refilled(r, b, now) >= 1.0
  }

  function Next(r: Rate, b: Level, now: real): (n: Level)
    ensures n.lastRefill == now
  {
    Level(Refilled(r, b, now) - (if Admitted(r, b, now) then 1.0 else 0.0), now)
  }

  class Limiter {
    const rate: Rate
    var tokens: real
    var lastRefill: real

    ghost predicate Valid()
      reads this
    {
      rate.Valid() && WithinBurst(rate, View())
    }

    function View(): Level
      reads this
    {
      Level(tokens, lastRefill)
    }

    constructor (qps: nat, burst: nat, now: real)
      ensures Valid() && View() == Level(rate.burst, now)
      ensures rate.burst == (if burst == 0 then 1 else burst) as real
      ensures rate.qps == (if qps == 0 then 1 else qps) as real
    {
      rate := Rate((if qps < 1 then 1 else qps) as real, (if burst < 1 then 1 else burst) as real);
      tokens := (if burst < 1 then 1 else burst) as real;
      lastRefill := now;
    }

    /** One request whose clock reading is `now`; readings may reach the lock out of order. */
    method TryAcquire(now: real) returns (granted: bool)
      requires Valid()
      modifies this
      ensures Valid() && View() == Next(rate, old(View()), now)
      ensures granted == Admitted(rate, old(View()), now)
      ensures var elapsed := if now >= old(lastRefill) then now - old(lastRefill) else 0.0;
              var inflow := elapsed * rate.qps;
              var there := if old(tokens) + inflow <= rate.burst then old(tokens) + inflow else rate.burst;
              && tokens + (if granted then 1.0 else 0.0) == there && lastRefill == now
              && (granted <==> there >= 1.0)
    {
      NextWithinBurst(rate, View(), now);
      var elapsed := if now >= lastRefill then now - lastRefill else 0.0;
      var inflow := elapsed * rate.qps;
      tokens := if tokens + inflow <= rate.burst then tokens + inflow else rate.burst;
      lastRefill := now;
      if tokens < 1.0 {
        return false;
      }
      tokens := tokens - 1.0;
      return true;
    }
  }

  lemma NextWithinBurst(r: Rate, b: Level, now: real)
    requires r.Valid() && WithinBurst(r, b)
    ensures WithinBurst(r, Next(r, b, now))
    ensures 0.0 <= Elapsed(now, b.lastRefill) * r.qps
  {
  }

  // ---------------------------------------------------------------- whole runs

  function After(r: Rate, b: Level, readings: seq<real>): Level
    decreases |readings|
  {
    if readings == [] then b else After(r, Next(r, b, readings[0]), readings[1..])
  }

  function Grants(r: Rate, b: Level, readings: seq<real>): nat
    decreases |readings|
  {
    if readings == [] then 0
    else Grant(r, b, readings[0]) + Grants(r, Next(r, b, readings[0]), readings[1..])
  }

  /** The sum of the forward movements of the clock, in lock order. */
  function Forward(last: real, readings: seq<real>): real
    decreases |readings|
  {
    if readings == [] then 0.0 else Elapsed(readings[0], last) + Forward(readings[0], readings[1..])
  }

  /** Tokens lost at the brim. */
  function Spill(r: Rate, b: Level, now: real): real {
    b.tokens + Elapsed(now, b.lastRefill) * r.qps - Refilled(r, b, now)
  }

  function Spilled(r: Rate, b: Level, readings: seq<real>): real
    decreases |readings|
  {
    if readings == [] then 0.0
    else Spill(r, b, readings[0]) + Spilled(r, Next(r, b, readings[0]), readings[1..])
  }

  function Grant(r: Rate, b: Level, now: real): nat {
    if Admitted(r, b, now) then 1 else 0
  }

  lemma StepConserved(r: Rate, b: Level, now: real)
    requires r.Valid() && WithinBurst(r, b)
    ensures Spill(r, b, now) >= 0.0
    ensures Grant(r, b, now) as real + Spill(r, b, now) + Next(r, b, now).tokens ==
            b.tokens + Elapsed(now, b.lastRefill) * r.qps
  {
  }

  lemma Distributes(q: real, e: real, f: real)
    ensures (e + f) * q == e * q + f * q
  {
  }

  /** Over any stretch of any run tokens are conserved: what was there and what flowed in is
      what was granted, spilled and left. */
  lemma {:induction false} TokensConserved(r: Rate, b: Level, readings: seq<real>)
    requires r.Valid() && WithinBurst(r, b)
    ensures WithinBurst(r, After(r, b, readings)) && Spilled(r, b, readings) >= 0.0
    ensures Grants(r, b, readings) as real + Spilled(r, b, readings) + After(r, b, readings).tokens ==
            b.tokens + Forward(b.lastRefill, readings) * r.qps
    decreases |readings|
  {
    hide Next, Refilled, Admitted, Elapsed, Grant, Spill;
    if readings != [] {
      var next := Next(r, b, readings[0]);
      NextWithinBurst(r, b, readings[0]);
      StepConserved(r, b, readings[0]);
      TokensConserved(r, next, readings[1..]);
      Distributes(r.qps, Elapsed(readings[0], b.lastRefill), Forward(readings[0], readings[1..]));
    }
  }

  /** Tokens spill only over the brim. */
  lemma SpillsAtBrim(r: Rate, b: Level, now: real)
    requires r.Valid() && WithinBurst(r, b)
    ensures Spill(r, b, now) > 0.0 ==> Refilled(r, b, now) == r.burst
    ensures Spill(r, b, now) >= 0.0
  {
  }

  /** No request of the run finds the bucket full. */
  predicate NeverFull(r: Rate, b: Level, readings: seq<real>)
    decreases |readings|
  {
    readings == [] ||
    (Refilled(r, b, readings[0]) < r.burst && NeverFull(r, Next(r, b, readings[0]), readings[1..]))
  }

  /** A bucket that is never full loses nothing: what was granted and what is left is what was
      there and what flowed in. */
  lemma {:induction false} NothingLostBelowBrim(r: Rate, b: Level, readings: seq<real>)
    requires r.Valid() && WithinBurst(r, b) && NeverFull(r, b, readings)
    ensures Grants(r, b, readings) as real + After(r, b, readings).tokens ==
            b.tokens + Forward(b.lastRefill, readings) * r.qps
  {
    NothingSpilled(r, b, readings);
    TokensConserved(r, b, readings);
  }

  lemma {:induction false} NothingSpilled(r: Rate, b: Level, readings: seq<real>)
    requires r.Valid() && WithinBurst(r, b) && NeverFull(r, b, readings)
    ensures Spilled(r, b, readings) == 0.0
    decreases |readings|
  {
    hide Next, Refilled, Admitted, Elapsed, Spill;
    if readings != [] {
      SpillsAtBrim(r, b, readings[0]);
      NextWithinBurst(r, b, readings[0]);
      NothingSpilled(r, Next(r, b, readings[0]), readings[1..]);
    }
  }

  // ---------------------------------------------------------------- the limit is the whole rule

  function Room(r: Rate, start: real, forward: real, grants: nat): real {
    start + forward * r.qps - grants as real
  }

  /** What the limit leaves at `now` of the stretch that begins with request `i`: the burst,
      and the rate times the forward movements since that request, less the grants. */
  function RoomSince(r: Rate, b: Level, readings: seq<real>, now: real, i: nat): real
    requires i < |readings|
  {
    Room(r, r.burst, Forward(readings[i], readings[i + 1..] + [now]),
         Grants(r, After(r, b, readings[..i]), readings[i..]))
  }

  /** What is left at `now` of what was there at the start and has flowed in since. */
  function RoomInAll(r: Rate, b: Level, readings: seq<real>, now: real): real {
    Room(r, b.tokens, Forward(b.lastRefill, readings + [now]), Grants(r, b, readings))
  }

  /** After any run the next request is admitted if and only if there is room for it in every
      stretch that ends now: the limiter enforces the burst and the rate, and refuses nothing
      that they allow. */
  lemma {:induction false} AdmittedExactly(r: Rate, b: Level, readings: seq<real>, now: real)
    requires r.Valid() && WithinBurst(r, b)
    ensures Admitted(r, After(r, b, readings), now) <==>
            && RoomInAll(r, b, readings, now) >= 1.0
            && forall i :: 0 <= i < |readings| ==> RoomSince(r, b, readings, now, i) >= 1.0
    decreases |readings|
  {
    if readings == [] {
      assert readings + [now] == [now] && [now][1..] == [];
      assert Forward(b.lastRefill, [now]) == Elapsed(now, b.lastRefill);
      assert Grants(r, b, readings) == 0 && After(r, b, readings) == b;
    } else {
      var next, rest := Next(r, b, readings[0]), readings[1..];
      NextWithinBurst(r, b, readings[0]);
      AdmittedExactly(r, next, rest, now);
      FirstStretch(r, b, readings, now);
      forall i | 0 <= i < |rest|
        ensures RoomSince(r, b, readings, now, i + 1) == RoomSince(r, next, rest, now, i)
      {
        SameStretch(r, b, readings, now, i);
      }
      hide Admitted, RoomSince, RoomInAll;
      if forall i :: 0 <= i < |rest| ==> RoomSince(r, next, rest, now, i) >= 1.0 {
        forall i | 1 <= i < |readings| ensures RoomSince(r, b, readings, now, i) >= 1.0 {
          assert RoomSince(r, next, rest, now, i - 1) >= 1.0;
        }
      }
    }
  }

  /** A stretch that begins later is one of what follows the first request. */
  lemma SameStretch(r: Rate, b: Level, readings: seq<real>, now: real, i: nat)
    requires i + 1 < |readings|
    ensures RoomSince(r, b, readings, now, i + 1) == RoomSince(r, Next(r, b, readings[0]), readings[1..], now, i)
  {
    hide Next, Grants, Forward, Room;
    var rest := readings[1..];
    assert readings[..i + 1][1..] == rest[..i] && readings[i + 1..] == rest[i..];
    assert readings[i + 2..] == rest[i + 1..];
  }

  /** What the first request leaves is the lesser of two allowances. */
  lemma FirstStretch(r: Rate, b: Level, readings: seq<real>, now: real)
    requires readings != []
    ensures RoomInAll(r, Next(r, b, readings[0]), readings[1..], now) ==
            Min(RoomInAll(r, b, readings, now), RoomSince(r, b, readings, now, 0))
  {
    var next, rest := Next(r, b, readings[0]), readings[1..];
    var e, f := Elapsed(readings[0], b.lastRefill), Forward(readings[0], rest + [now]);
    var g, h := Grant(r, b, readings[0]), Grants(r, next, rest);
    StretchesSplit(r, b, readings, now);
    FirstLevel(r, b, readings[0]);
    LesserRoom(r, b.tokens, next.tokens, e, f, g, h);
  }

  lemma StretchesSplit(r: Rate, b: Level, readings: seq<real>, now: real)
    requires readings != []
    ensures var rest := readings[1..];
            var f := Forward(readings[0], rest + [now]);
            var grants := Grant(r, b, readings[0]) + Grants(r, Next(r, b, readings[0]), rest);
            && RoomSince(r, b, readings, now, 0) == Room(r, r.burst, f, grants)
            && RoomInAll(r, b, readings, now) == Room(r, b.tokens, Elapsed(readings[0], b.lastRefill) + f, grants)
  {
    hide Elapsed, Next, Grant, Room;
    var rest := readings[1..];
    assert readings[..0] == [] && readings[0..] == readings && readings[0 + 1..] == rest;
    assert (readings + [now])[1..] == rest + [now];
  }

  lemma LesserRoom(r: Rate, tokens: real, level: real, e: real, f: real, g: nat, h: nat)
    requires level + g as real == Min(tokens + e * r.qps, r.burst)
    ensures Room(r, level, f, h) == Min(Room(r, tokens, e + f, g + h), Room(r, r.burst, f, g + h))
  {
    Distributes(r.qps, e, f);
    assert (g + h) as real == g as real + h as real;
  }

  lemma FirstLevel(r: Rate, b: Level, now: real)
    ensures Next(r, b, now).tokens + Grant(r, b, now) as real ==
            Min(b.tokens + Elapsed(now, b.lastRefill) * r.qps, r.burst)
    ensures Next(r, b, now).lastRefill == now
  {
  }

  predicate Ascending(last: real, readings: seq<real>)
    decreases |readings|
  {
    readings == [] || (last <= readings[0] && Ascending(readings[0], readings[1..]))
  }

  /** The sum of the backward movements of the clock, in lock order. */
  function Backward(last: real, readings: seq<real>): real
    decreases |readings|
  {
    if readings == [] then 0.0 else Elapsed(last, readings[0]) + Backward(readings[0], readings[1..])
  }

  lemma {:induction false} ForwardMinusBackward(last: real, readings: seq<real>)
    ensures Backward(last, readings) >= 0.0
    ensures Forward(last, readings) - Backward(last, readings) ==
            (if readings == [] then 0.0 else readings[|readings| - 1] - last)
    ensures Backward(last, readings) == 0.0 <==> Ascending(last, readings)
    decreases |readings|
  {
    if readings != [] { ForwardMinusBackward(readings[0], readings[1..]); }
  }

  /** The advertised limit, at most the burst and the rate times the time covered, is exceeded
      by at most the rate times the backward movements, of which there are none exactly when
      requests reach the lock in clock order. */
  lemma BurstPlusRate(r: Rate, b: Level, readings: seq<real>)
    requires r.Valid() && WithinBurst(r, b) && readings != []
    ensures Grants(r, b, readings) as real <=
            r.burst + (readings[|readings| - 1] - b.lastRefill + Backward(b.lastRefill, readings)) * r.qps
    ensures Ascending(b.lastRefill, readings) <==> Backward(b.lastRefill, readings) == 0.0
    ensures Ascending(b.lastRefill, readings) ==>
              Grants(r, b, readings) as real <= r.burst + (readings[|readings| - 1] - b.lastRefill) * r.qps
  {
    hide Grants, Forward, Spilled, After, Ascending, Backward;
    TokensConserved(r, b, readings);
    ForwardMinusBackward(b.lastRefill, readings);
  }

  /** A reading of 1.0 and a late one of 0.0, again and again. */
  function Alternating(k: nat): seq<real> {
    if k == 0 then [1.0] else [1.0, 0.0] + Alternating(k - 1)
  }

  /** Out of clock order the limit does not hold, and not even a multiple of it: an earlier
      reading that gets the lock late winds the clock back, and the same second is paid out
      again.  A bucket of burst and rate one, made at time zero, grants any number of requests
      within its first second. */
  lemma {:induction false} LateReadingsExceedLimit(k: nat, tokens: real)
    requires 0.0 <= tokens <= 1.0
    ensures var r, b, readings := Rate(1.0, 1.0), Level(tokens, 0.0), Alternating(k);
            && r.Valid() && WithinBurst(r, b)
            && (forall x :: x in readings ==> b.lastRefill <= x <= 1.0) && readings[|readings| - 1] == 1.0
            && Grants(r, b, readings) == k + 1
            && Backward(b.lastRefill, readings) == k as real
    decreases k
  {
    var r, b, readings := Rate(1.0, 1.0), Level(tokens, 0.0), Alternating(k);
    ThereAndBack(tokens);
    hide Next, Admitted, Refilled;
    if k == 0 {
      assert readings[1..] == [];
    } else {
      var late := Level(0.0, 1.0);
      LateReadingsExceedLimit(k - 1, 0.0);
      var rest := Alternating(k - 1);
      var tail := [0.0] + rest;
      assert readings[1..] == tail && tail[1..] == rest;
      assert Grants(r, late, tail) == Grants(r, Level(0.0, 0.0), rest);
      assert Backward(1.0, tail) == 1.0 + Backward(0.0, rest);
      assert readings[|readings| - 1] == rest[|rest| - 1];
    }
  }

  /** A reading of 1.0 takes the token and one of 0.0 after it winds the clock back. */
  lemma ThereAndBack(tokens: real)
    requires 0.0 <= tokens <= 1.0
    ensures var r := Rate(1.0, 1.0);
            && Next(r, Level(tokens, 0.0), 1.0) == Level(0.0, 1.0) && Admitted(r, Level(tokens, 0.0), 1.0)
            && Next(r, Level(0.0, 1.0), 0.0) == Level(0.0, 0.0) && !Admitted(r, Level(0.0, 1.0), 0.0)
  {
  }

  /** After any run, a request one second after the last one is admitted, so telling a
      rejected client to retry after one second is truthful. */
  lemma QuietSecondAdmits(r: Rate, b: Level, readings: seq<real>, now: real)
    requires r.Valid() && WithinBurst(r, b)
    requires now >= After(r, b, readings).lastRefill + 1.0
    ensures Admitted(r, After(r, b, readings), now)
  {
    TokensConserved(r, b, readings);
    var e := Elapsed(now, After(r, b, readings).lastRefill);
    assert e * r.qps >= 1.0 by {
      assert e >= 1.0 && r.qps >= 1.0;
      assert (e - 1.0) * r.qps >= 0.0;
    }
  }

  /** A rejection lasts exactly until the missing fraction of a token has flowed in. */
  lemma RejectionEndsExactly(r: Rate, b: Level, now: real, later: real)
    requires r.Valid() && WithinBurst(r, b) && !Admitted(r, b, now) && later >= now
    ensures Admitted(r, Next(r, b, now), later) <==> (later - now) * r.qps >= 1.0 - Next(r, b, now).tokens
  {
  }
}
