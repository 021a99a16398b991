/** internal/tunnel/client/reconnect.go and endpoints.go: the reconnect loop, its
    backoff, and the ring of endpoints it walks. */
module Reconnect {
  import opened Base

  // -------------------------------------------------------------- backoff

  const TWO_63: int := 0x8000_0000_0000_0000
  const TWO_64: int := 0x1_0000_0000_0000_0000

  const MAX_SHIFT: nat := 30

  /** The int64 a mathematical integer wraps to. */
  function Wrap64(x: int): int {
    (x + TWO_63) % TWO_64 - TWO_63
  }

  function Shift(attempt: int): nat {
    if attempt < 0 then 0 else if attempt > MAX_SHIFT then MAX_SHIFT else attempt
  }

  function Capped(base: int, room: int): int {
    var ceiling := if room < 0 then 0 else room;
    if base <= 0 || base > ceiling then ceiling else base
  }

  /** The exponential part before jitter: the shifted minimum, capped so that the
      jitter still fits below the maximum. */
  function BackoffBase(minD: int, maxD: int, attempt: int): int {
    Capped(Wrap64(minD * Pow2(Shift(attempt))), maxD - minD)
  }

  function Clamp(d: int, lo: int, hi: int): int {
    var e := if d < lo then lo else d;
    if e > hi then hi else e
  }

  /** `jitter` is the uniform draw from [0, minD), zero if minD is not positive. */
  method Backoff(minD: int, maxD: int, attempt: int, jitter: int) returns (d: int)
    ensures d == Clamp(BackoffBase(minD, maxD, attempt) + jitter, minD, maxD)
  {
    var n := attempt;
    if n < 0 {
      n := 0;
    }
    if n > MAX_SHIFT {
      n := MAX_SHIFT;
    }
    var base := Wrap64(minD * Pow2(n));
    var ceiling := maxD - minD;
    if ceiling < 0 {
      ceiling := 0;
    }
    if base <= 0 || base > ceiling {
      base := ceiling;
    }
    d := base + jitter;
    if d < minD {
      d := minD;
    }
    if d > maxD {
      d := maxD;
    }
  }

  /** The wait never exceeds the maximum, and is no shorter than the minimum if that
      is the smaller of the two, whatever the shift wrapped to and for any settings;
      for sensible ones the sum before clamping does not overflow either. */
  lemma BackoffInRange(minD: int, maxD: int, attempt: int, jitter: int)
    ensures var d := Clamp(BackoffBase(minD, maxD, attempt) + jitter, minD, maxD);
      d <= maxD && (minD <= maxD ==> minD <= d)
    ensures 0 < minD <= maxD < TWO_63 && 0 <= jitter < minD ==>
      0 <= BackoffBase(minD, maxD, attempt) + jitter < maxD
  {
  }

  function Least(a: int, b: int): int { if a < b then a else b }

  /** The exponential the documentation promises, capped below the maximum. */
  function Promised(minD: int, maxD: int, attempt: int): int {
    Least(minD * Pow2(Shift(attempt)), maxD - minD)
  }

  lemma Fitting(exact: int, room: int)
    requires 0 < exact < TWO_63 && 0 < room
    ensures Capped(Wrap64(exact), room) == Least(exact, room)
  {
  }

  lemma ShiftGrows(minD: int, attempt: int)
    requires minD > 0
    ensures minD <= minD * Pow2(Shift(attempt))
  {
    MulMonotone(minD, 1, Pow2(Shift(attempt)));
  }

  /** With room for the jitter (max at least twice min) and a shift that fits in
      an int64, the wait is exactly the promised exponential plus the jitter, no
      clamp bites, and it stays below max. */
  lemma BackoffExact(minD: int, maxD: int, attempt: int, jitter: int)
    requires 0 < minD && 2 * minD <= maxD < TWO_63 && 0 <= jitter < minD
    requires minD * Pow2(Shift(attempt)) < TWO_63
    ensures var d := Clamp(BackoffBase(minD, maxD, attempt) + jitter, minD, maxD);
      d == Promised(minD, maxD, attempt) + jitter && minD <= d < maxD
  {
    ShiftGrows(minD, attempt);
    Fitting(minD * Pow2(Shift(attempt)), maxD - minD);
  }

  /** When the shift does overflow, the wait still follows the promise exactly
      when the wrapped value is caught by the cap: not positive, or at least the
      ceiling. */
  lemma BackoffExactIff(minD: int, maxD: int, attempt: int)
    requires 0 < minD && 2 * minD <= maxD < TWO_63
    ensures var exact := minD * Pow2(Shift(attempt));
      BackoffBase(minD, maxD, attempt) == Promised(minD, maxD, attempt) <==>
        exact < TWO_63 || Wrap64(exact) <= 0 || Wrap64(exact) >= maxD - minD
  {
    ShiftGrows(minD, attempt);
  }

  /** A minimum just above 2^34 ns wraps to a small positive number: after thirty
      failures the client is back to waiting only its minimum. */
  lemma BackoffCollapses()
    ensures var minD := 0x4_0000_0001;
      var maxD := 0x4000_0000_0000;
      && Clamp(BackoffBase(minD, maxD, 30) + 0, minD, maxD) == minD
      && Promised(minD, maxD, 30) == maxD - minD
  {
    assert Pow2(10) == 1024;
    assert Pow2(20) == 1024 * 1024 by { assert Pow2(15) == 32 * Pow2(10); }
    assert Pow2(30) == 0x4000_0000 by { assert Pow2(25) == 32 * Pow2(20); }
    DivUnique(0x4_0000_0001 * 0x4000_0000 + TWO_63, TWO_64, 1, 0x4000_0000 + TWO_63);
  }

  // ------------------------------------------------------------------ ring

  datatype Endpoint = Endpoint(server: string, serverName: string, note: string)

  /** The ring's position: where it is, and how many endpoints have been tried
      since the last success or full cycle. */
  datatype Position = Position(idx: nat, tried: nat)

  /** The next index in cyclic order. */
  function Next(n: nat, i: nat): nat {
    if i + 1 >= n then 0 else i + 1
  }

  function Advanced(n: nat, p: Position): (Position, bool) {
    (Position(if n > 1 then Next(n, p.idx) else p.idx, Next(n, p.tried)), p.tried + 1 >= n)
  }

  lemma NextIsMod(n: nat, i: nat)
    requires i < n
    ensures (i + 1) % n == Next(n, i)
  {
    if i + 1 < n {
      DivUnique(i + 1, n, 0, i + 1);
    } else {
      DivUnique(n, n, 1, 0);
    }
  }

  class Ring {
    const eps: seq<Endpoint>
    var idx: nat
    var tried: nat

    ghost predicate Valid()
      reads this
    {
      idx < |eps| && tried < |eps|
    }

    function Pos(): Position
      reads this
    {
      Position(idx, tried)
    }

    /** The preferred endpoint comes first in the walk, provided the list has it. */
    constructor (eps: seq<Endpoint>, preferred: string)
      requires |eps| > 0
      ensures Valid() && this.eps == eps && tried == 0
      ensures preferred != "" && (exists i :: 0 <= i < |eps| && eps[i].server == preferred) ==>
                eps[idx].server == preferred && forall j :: 0 <= j < idx ==> eps[j].server != preferred
      ensures preferred == "" || (forall i :: 0 <= i < |eps| ==> eps[i].server != preferred) ==> idx == 0
    {
      this.eps := eps;
      var at := 0;
      for i := 0 to |eps|
        invariant at == 0
        invariant preferred != "" ==> forall j :: 0 <= j < i ==> eps[j].server != preferred
      {
        if preferred != "" && eps[i].server == preferred {
          at := i;
          break;
        }
      }
      idx, tried := at, 0;
    }

    method Current() returns (ep: Endpoint)
      requires Valid()
      ensures ep == eps[idx]
    {
      ep := eps[idx];
    }

    method Advance() returns (cycled: bool)
      requires Valid()
      modifies this
      ensures Valid() && (Pos(), cycled) == Advanced(|eps|, old(Pos()))
    {
      if |eps| > 1 {
        NextIsMod(|eps|, idx);
        idx := (idx + 1) % |eps|;
      }
      tried := tried + 1;
      if tried >= |eps| {
        tried := 0;
        return true;
      }
      return false;
    }

    method Succeeded() returns (ep: Endpoint)
      requires Valid()
      modifies this`tried
      ensures Valid() && tried == 0 && ep == eps[idx]
    {
      tried := 0;
      ep := eps[idx];
    }
  }

  // ------------------------------------------------------------------ loop

  const SUSPECTED_AUTH_LIMIT: nat := 5

  /** How one connectOnce ended. */
  datatype Outcome = Clean | FatalError | SuspectedAuth | Retryable

  datatype Wait = Elapsed | CancelledWaiting | DeviceDiedWaiting

  /** Everything the environment decides during one pass of the loop. `reached`
      says that the attempt got as far as a working session; `heldLong` that it
      lasted at least the reset threshold. */
  datatype Pass = Pass(
    deviceDead: bool, reached: bool, outcome: Outcome, heldLong: bool,
    cancelled: bool, cancelledLate: bool, wait: Wait)

  datatype Exit = ExitClean | ExitFatal | ExitRejected | ExitDeviceGone

  datatype Action = Try(endpoint: nat) | Sleep(attempt: nat)

  datatype Loop = Loop(pos: Position, attempt: nat, suspected: nat)

  function SuspectedAuthExit(o: Outcome, streak: nat): (nat, bool) {
    if !o.SuspectedAuth? then (0, false) else (streak + 1, streak + 1 >= SUSPECTED_AUTH_LIMIT)
  }

  /** One pass over `n` endpoints: the new state, what was done, and the exit if
      the loop ends here. */
  function Once(n: nat, s: Loop, p: Pass): (Loop, seq<Action>, Option<Exit>)
    requires n > 0
  {
    if p.deviceDead then (s, [], Some(ExitDeviceGone))
    else
      var tries := [Try(s.pos.idx)];
      var pos := if p.reached then s.pos.(tried := 0) else s.pos;
      var s1 := s.(pos := pos);
      if p.outcome.Clean? || p.cancelled then (s1, tries, Some(ExitClean))
      else if p.outcome.FatalError? then (s1, tries, Some(ExitFatal))
      else
        var (streak, giveUp) := SuspectedAuthExit(p.outcome, s.suspected);
        var s2 := s1.(suspected := streak);
        if giveUp then (s2, tries, Some(ExitRejected))
        else
          var (pos', cycled) := Advanced(n, pos);
          var s3 := Loop(pos', if p.heldLong then 0 else s.attempt, streak);
          if p.cancelledLate then (s3, tries, Some(ExitClean))
          else if !cycled then (s3, tries, None)
          else
            match p.wait
            case CancelledWaiting => (s3, tries + [Sleep(s3.attempt)], Some(ExitClean))
            case DeviceDiedWaiting => (s3, tries + [Sleep(s3.attempt)], Some(ExitDeviceGone))
            case Elapsed => (s3.(attempt := s3.attempt + 1), tries + [Sleep(s3.attempt)], None)
  }

  /** Passes until the loop exits or the script of the environment ends. */
  function Drive(n: nat, s: Loop, ps: seq<Pass>): (Loop, seq<Action>, Option<Exit>)
    requires n > 0
    decreases |ps|
  {
    if ps == [] then (s, [], None)
    else
      var (s1, done, exit) := Once(n, s, ps[0]);
      if exit.Some? then (s1, done, exit)
      else
        var (s2, rest, exit2) := Drive(n, s1, ps[1..]);
        (s2, done + rest, exit2)
  }

  /** The body of the loop. */
  method OnePass(ring: Ring, attempt: nat, suspected: nat, p: Pass)
    returns (attempt': nat, suspected': nat, did: seq<Action>, exit: Option<Exit>)
    requires ring.Valid()
    modifies ring
    ensures ring.Valid()
    ensures (Loop(ring.Pos(), attempt', suspected'), did, exit) ==
            Once(|ring.eps|, Loop(old(ring.Pos()), attempt, suspected), p)
  {
    attempt', suspected', did := attempt, suspected, [];
    if p.deviceDead {
      return attempt', suspected', did, Some(ExitDeviceGone);
    }
    did := [Try(ring.idx)];
    if p.reached {
      var _ := ring.Succeeded();
    }
    if p.outcome.Clean? || p.cancelled {
      return attempt', suspected', did, Some(ExitClean);
    }
    if p.outcome.FatalError? {
      return attempt', suspected', did, Some(ExitFatal);
    }
    var (streak, giveUp) := SuspectedAuthExit(p.outcome, suspected);
    suspected' := streak;
    if giveUp {
      return attempt', suspected', did, Some(ExitRejected);
    }
    if p.heldLong {
      attempt' := 0;
    }
    var cycled := ring.Advance();
    if p.cancelledLate {
      return attempt', suspected', did, Some(ExitClean);
    }
    if !cycled {
      return attempt', suspected', did, None;
    }
    did := did + [Sleep(attempt')];
    match p.wait {
      case CancelledWaiting => exit := Some(ExitClean);
      case DeviceDiedWaiting => exit := Some(ExitDeviceGone);
      case Elapsed =>
        attempt' := attempt' + 1;
        exit := None;
    }
  }

  /** The first `i` passes have done `trace` and left the loop running in `s`. */
  ghost predicate DrivenTo(n: nat, s0: Loop, ps: seq<Pass>, i: nat, trace: seq<Action>, s: Loop)
    requires n > 0 && i <= |ps|
  {
    var all, rest := Drive(n, s0, ps), Drive(n, s, ps[i..]);
    all.0 == rest.0 && all.1 == trace + rest.1 && all.2 == rest.2
  }

  lemma DrivenNext(n: nat, s0: Loop, ps: seq<Pass>, i: nat, trace: seq<Action>, s: Loop)
    requires n > 0 && i < |ps| && DrivenTo(n, s0, ps, i, trace, s)
    ensures var (s1, did, exit) := Once(n, s, ps[i]);
      if exit.Some? then
        var all := Drive(n, s0, ps);
        all.0 == s1 && all.1 == trace + did && all.2 == exit
      else DrivenTo(n, s0, ps, i + 1, trace + did, s1)
  {
    assert ps[i..][1..] == ps[i + 1..] && ps[i..][0] == ps[i];
    var (s1, did, exit) := Once(n, s, ps[i]);
    if exit.None? {
      Assoc(trace, did, Drive(n, s1, ps[i + 1..]).1);
    }
  }

  method RunReconnectLoop(ring: Ring, ps: seq<Pass>) returns (trace: seq<Action>, exit: Option<Exit>)
    requires ring.Valid()
    modifies ring
    ensures ring.Valid()
    ensures var (s, t, e) := Drive(|ring.eps|, Loop(old(ring.Pos()), 0, 0), ps);
      ring.Pos() == s.pos && trace == t && exit == e
  {
    var attempt, suspected := 0, 0;
    trace := [];
    ghost var start := Loop(ring.Pos(), 0, 0);
    assert ps[0..] == ps;
    for i := 0 to |ps|
      invariant ring.Valid()
      invariant DrivenTo(|ring.eps|, start, ps, i, trace, Loop(ring.Pos(), attempt, suspected))
    {
      DrivenNext(|ring.eps|, start, ps, i, trace, Loop(ring.Pos(), attempt, suspected));
      var did;
      attempt, suspected, did, exit := OnePass(ring, attempt, suspected, ps[i]);
      trace := trace + did;
      if exit.Some? {
        return;
      }
    }
    exit := None;
  }

  // --------------------------------------------------------------- results

  /** The loop is still running after the passes `ps`. */
  predicate Running(n: nat, s: Loop, ps: seq<Pass>)
    requires n > 0
  {
    Drive(n, s, ps).2.None?
  }

  /** One more pass at the end is one more pass. */
  lemma {:induction false} DriveSnoc(n: nat, s: Loop, ps: seq<Pass>, p: Pass)
    requires n > 0 && Running(n, s, ps)
    ensures var (s1, did, _) := Drive(n, s, ps);
      var (s2, more, exit) := Once(n, s1, p);
      Drive(n, s, ps + [p]) == (s2, did + more, exit)
    decreases |ps|
  {
    if ps == [] {
      assert (ps + [p])[1..] == [];
      var did := Once(n, s, p).1;
      assert [] + did == did && did + [] == did;
    } else {
      assert (ps + [p])[1..] == ps[1..] + [p];
      DriveSnoc(n, Once(n, s, ps[0]).0, ps[1..], p);
      var first, rest := Once(n, s, ps[0]).1, Drive(n, Once(n, s, ps[0]).0, ps[1..]).1;
      var more := Once(n, Drive(n, s, ps).0, p).1;
      assert first + (rest + more) == (first + rest) + more;
    }
  }

  lemma {:induction false} RunningPrefix(n: nat, s: Loop, ps: seq<Pass>, more: seq<Pass>)
    requires n > 0 && Running(n, s, ps + more)
    ensures Running(n, s, ps)
    decreases |ps|
  {
    if ps != [] {
      assert (ps + more)[1..] == ps[1..] + more;
      RunningPrefix(n, Once(n, s, ps[0]).0, ps[1..], more);
    }
  }

  /** Nothing follows an exit: whatever the environment would have done next, the
      loop makes no further attempt. */
  lemma {:induction false} NothingAfterExit(n: nat, s: Loop, ps: seq<Pass>, more: seq<Pass>)
    requires n > 0 && !Running(n, s, ps)
    ensures Drive(n, s, ps + more) == Drive(n, s, ps)
    decreases |ps|
  {
    assert (ps + more)[1..] == ps[1..] + more;
    if Once(n, s, ps[0]).2.None? {
      NothingAfterExit(n, Once(n, s, ps[0]).0, ps[1..], more);
    }
  }

  /** A fatal error that is not a cancellation ends the loop at once: that attempt
      is the last one, whatever comes next. */
  lemma NoTryAfterFatal(n: nat, s: Loop, ps: seq<Pass>, p: Pass, more: seq<Pass>)
    requires n > 0 && Running(n, s, ps)
    requires p.outcome.FatalError? && !p.cancelled && !p.deviceDead
    ensures var (s1, did, _) := Drive(n, s, ps);
      var (_, all, exit) := Drive(n, s, ps + [p] + more);
      all == did + [Try(s1.pos.idx)] && exit == Some(ExitFatal)
  {
    DriveSnoc(n, s, ps, p);
    NothingAfterExit(n, s, ps + [p], more);
  }

  /** Failures since `tried` was last zeroed by a working session; a session that
      worked and then failed counts as one. */
  function FailuresSince(ps: seq<Pass>): nat {
    if ps == [] then 0
    else if ps[|ps| - 1].reached then 1
    else FailuresSince(ps[..|ps| - 1]) + 1
  }

  /** Whether pass `k` completes a walk around the `n` endpoints. */
  predicate Waits(n: nat, ps: seq<Pass>, k: nat)
    requires n > 0 && k < |ps|
  {
    FailuresSince(ps[..k + 1]) % n == 0
  }

  predicate NoneHeldLong(ps: seq<Pass>, j: nat, k: nat)
    requires k < |ps|
  {
    forall i :: j < i <= k ==> !ps[i].heldLong
  }

  /** The waits before pass `k` that no session held long since has made count for
      nothing; a session held long in pass `k` itself does so too. */
  function WaitsSince(n: nat, ps: seq<Pass>, k: nat): set<nat>
    requires n > 0 && k < |ps|
  {
    set j: nat | j < k && Waits(n, ps, j) && NoneHeldLong(ps, j, k)
  }

  /** Suspected-auth outcomes in a row at the end of the passes. */
  function Streak(ps: seq<Pass>): nat {
    if ps == [] || !ps[|ps| - 1].outcome.SuspectedAuth? then 0 else Streak(ps[..|ps| - 1]) + 1
  }

  /** `k` steps of the ring from `i`. */
  function Walk(n: nat, i: nat, k: nat): (r: nat)
    requires i < n
    ensures r < n
  {
    if k == 0 then i else Next(n, Walk(n, i, k - 1))
  }

  /** How often the walk has come round. */
  lemma {:induction false} Laps(n: nat, i: nat, k: nat) returns (laps: nat)
    requires i < n
    ensures i + k == n * laps + Walk(n, i, k)
  {
    if k == 0 {
      laps := 0;
    } else {
      var before := Laps(n, i, k - 1);
      laps := if Walk(n, i, k - 1) + 1 >= n then before + 1 else before;
      assert n * (before + 1) == n * before + n;
    }
  }

  lemma WalkIsMod(n: nat, i: nat, k: nat)
    requires i < n
    ensures Walk(n, i, k) == (i + k) % n
  {
    var laps := Laps(n, i, k);
    DivUnique(i + k, n, laps, Walk(n, i, k));
  }

  /** A pass the loop survives: one attempt, one step of the ring, and a wait
      exactly when the ring has come full circle. */
  lemma Survives(n: nat, s: Loop, p: Pass)
    requires s.pos.idx < n && Once(n, s, p).2.None?
    ensures var t := if p.reached then 0 else s.pos.tried;
      Once(n, s, p).0.pos == Position(Next(n, s.pos.idx), Next(n, t))
    ensures Once(n, s, p).1 == [Try(s.pos.idx)] +
      if Once(n, s, p).0.pos.tried == 0 then [Sleep(if p.heldLong then 0 else s.attempt)] else []
    ensures Once(n, s, p).0.attempt ==
      (if p.heldLong then 0 else s.attempt) + if Once(n, s, p).0.pos.tried == 0 then 1 else 0
    ensures Once(n, s, p).0.suspected == (if p.outcome.SuspectedAuth? then s.suspected + 1 else 0)
    ensures Once(n, s, p).0.suspected < SUSPECTED_AUTH_LIMIT
  {
  }

  predicate Beginning(n: nat, s: Loop) {
    s.pos.idx < n && s.pos.tried == 0 && s.attempt == 0 && s.suspected == 0
  }

  /** Where a running loop stands: the ring has moved one endpoint per failure,
      `tried` counts failures around the ring, and the streak is below the limit. */
  lemma {:induction false} LoopTracks(n: nat, s: Loop, ps: seq<Pass>)
    requires Beginning(n, s) && Running(n, s, ps)
    ensures Drive(n, s, ps).0.pos == Position(Walk(n, s.pos.idx, |ps|), Walk(n, 0, FailuresSince(ps)))
    ensures Drive(n, s, ps).0.suspected == Streak(ps) < SUSPECTED_AUTH_LIMIT
    decreases |ps|
  {
    if ps != [] {
      var front, last := ps[..|ps| - 1], ps[|ps| - 1];
      assert ps == front + [last];
      RunningPrefix(n, s, front, [last]);
      LoopTracks(n, s, front);
      DriveSnoc(n, s, front, last);
      Survives(n, Drive(n, s, front).0, last);
      assert Walk(n, 0, 1) == Next(n, 0);
    }
  }

  /** The waits of a longer history, seen from its last two passes. */
  lemma WaitsSinceNext(n: nat, ps: seq<Pass>, k: nat)
    requires n > 0 && 0 < k < |ps|
    ensures WaitsSince(n, ps, k) ==
      if ps[k].heldLong then {} else WaitsSince(n, ps, k - 1) + if Waits(n, ps, k - 1) then {k - 1} else {}
  {
    forall j: nat | j < k
      ensures NoneHeldLong(ps, j, k) <==> !ps[k].heldLong && (j == k - 1 || NoneHeldLong(ps, j, k - 1))
    {
    }
  }

  lemma WaitsPrefix(n: nat, ps: seq<Pass>, more: seq<Pass>, k: nat)
    requires n > 0 && k < |ps|
    ensures Waits(n, ps + more, k) == Waits(n, ps, k)
  {
    assert (ps + more)[..k + 1] == ps[..k + 1];
  }

  lemma WaitsSincePrefix(n: nat, ps: seq<Pass>, more: seq<Pass>, k: nat)
    requires n > 0 && k < |ps|
    ensures WaitsSince(n, ps + more, k) == WaitsSince(n, ps, k)
  {
    forall j: nat | j < k
      ensures Waits(n, ps + more, j) == Waits(n, ps, j) && NoneHeldLong(ps + more, j, k) == NoneHeldLong(ps, j, k)
    {
      WaitsPrefix(n, ps, more, j);
      assert forall i :: 0 <= i < |ps| ==> (ps + more)[i] == ps[i];
    }
  }

  lemma TriedCounts(n: nat, s: Loop, ps: seq<Pass>)
    requires Beginning(n, s) && Running(n, s, ps)
    ensures Drive(n, s, ps).0.pos.idx < n && Drive(n, s, ps).0.pos.tried == FailuresSince(ps) % n
  {
    LoopTracks(n, s, ps);
    WalkIsMod(n, 0, FailuresSince(ps));
  }

  lemma LastWaits(n: nat, ps: seq<Pass>, p: Pass)
    requires n > 0
    ensures Waits(n, ps + [p], |ps|) <==> FailuresSince(ps + [p]) % n == 0
  {
    assert (ps + [p])[..|ps| + 1] == ps + [p];
  }

  /** A pass the loop survives resets the attempt number after a long session, and
      counts it up after a wait. */
  lemma AttemptNext(n: nat, s: Loop, ps: seq<Pass>, p: Pass)
    requires Beginning(n, s) && Running(n, s, ps + [p])
    ensures Running(n, s, ps)
    ensures Drive(n, s, ps + [p]).0.attempt ==
      (if p.heldLong then 0 else Drive(n, s, ps).0.attempt) + if Waits(n, ps + [p], |ps|) then 1 else 0
  {
    RunningPrefix(n, s, ps, [p]);
    TriedCounts(n, s, ps);
    TriedCounts(n, s, ps + [p]);
    DriveSnoc(n, s, ps, p);
    Survives(n, Drive(n, s, ps).0, p);
    LastWaits(n, ps, p);
  }

  lemma WaitsSinceSnoc(n: nat, ps: seq<Pass>, p: Pass)
    requires n > 0 && ps != []
    ensures |WaitsSince(n, ps + [p], |ps|)| ==
      if p.heldLong then 0 else |WaitsSince(n, ps, |ps| - 1)| + if Waits(n, ps, |ps| - 1) then 1 else 0
  {
    WaitsPrefix(n, ps, [p], |ps| - 1);
    WaitsSincePrefix(n, ps, [p], |ps| - 1);
    WaitsSinceNext(n, ps + [p], |ps|);
  }

  /** The attempt number the loop carries: what pass `p` would sleep on. */
  lemma {:induction false} AttemptCounts(n: nat, s: Loop, ps: seq<Pass>, p: Pass)
    requires Beginning(n, s) && Running(n, s, ps)
    ensures (if p.heldLong then 0 else Drive(n, s, ps).0.attempt) == |WaitsSince(n, ps + [p], |ps|)|
    decreases |ps|
  {
    if ps == [] {
      assert WaitsSince(n, ps + [p], 0) == {};
    } else {
      var front, last := ps[..|ps| - 1], ps[|ps| - 1];
      assert ps == front + [last];
      AttemptNext(n, s, front, last);
      AttemptCounts(n, s, front, last);
      WaitsSinceSnoc(n, ps, p);
    }
  }

  /** One pass from the state `s`, case by case. */
  lemma PassFrom(n: nat, s: Loop, p: Pass)
    requires s.pos.idx < n && s.suspected < SUSPECTED_AUTH_LIMIT
    ensures var stopped := p.cancelled || p.outcome.Clean? || p.outcome.FatalError?
        || (p.outcome.SuspectedAuth? && s.suspected == 4);
      var waits := !p.deviceDead && !stopped && !p.cancelledLate && Next(n, if p.reached then 0 else s.pos.tried) == 0;
      && Once(n, s, p).1 == (if p.deviceDead then [] else [Try(s.pos.idx)])
                            + (if waits then [Sleep(if p.heldLong then 0 else s.attempt)] else [])
      && Once(n, s, p).2 ==
         if p.deviceDead then Some(ExitDeviceGone)
         else if p.outcome.Clean? || p.cancelled then Some(ExitClean)
         else if p.outcome.FatalError? then Some(ExitFatal)
         else if p.outcome.SuspectedAuth? && s.suspected == 4 then Some(ExitRejected)
         else if p.cancelledLate || (waits && p.wait.CancelledWaiting?) then Some(ExitClean)
         else if waits && p.wait.DeviceDiedWaiting? then Some(ExitDeviceGone)
         else None
  {
  }

  lemma FailuresNext(n: nat, ps: seq<Pass>, p: Pass)
    requires n > 0
    ensures FailuresSince(ps + [p]) % n == Next(n, if p.reached then 0 else FailuresSince(ps) % n)
  {
    assert (ps + [p])[..|ps|] == ps;
    if p.reached {
      NextIsMod(n, 0);
    } else {
      var f := FailuresSince(ps);
      NextIsMod(n, f % n);
      WalkIsMod(n, 0, f);
      WalkIsMod(n, 0, f + 1);
    }
  }

  /** What pass `p` does after the passes `ps`, and whether it ends the loop, all
      counted on the passes: it tries the endpoint one step further per failure;
      unless something stops it first it waits exactly when the failures since
      `tried` was zero have come round the endpoints; and the attempt number of
      that wait is the number of waits since the last session held long. */
  lemma PassDoes(n: nat, s: Loop, ps: seq<Pass>, p: Pass)
    requires Beginning(n, s) && Running(n, s, ps)
    ensures var (_, trace, exit) := Drive(n, s, ps + [p]);
      var stopped := p.cancelled || p.outcome.Clean? || p.outcome.FatalError?
        || (p.outcome.SuspectedAuth? && Streak(ps) == 4);
      var waits := !p.deviceDead && !stopped && !p.cancelledLate && FailuresSince(ps + [p]) % n == 0;
      && trace == Drive(n, s, ps).1 + ((if p.deviceDead then [] else [Try((s.pos.idx + |ps|) % n)])
                  + (if waits then [Sleep(|WaitsSince(n, ps + [p], |ps|)|)] else []))
      && exit ==
         if p.deviceDead then Some(ExitDeviceGone)
         else if p.outcome.Clean? || p.cancelled then Some(ExitClean)
         else if p.outcome.FatalError? then Some(ExitFatal)
         else if p.outcome.SuspectedAuth? && Streak(ps) == 4 then Some(ExitRejected)
         else if p.cancelledLate || (waits && p.wait.CancelledWaiting?) then Some(ExitClean)
         else if waits && p.wait.DeviceDiedWaiting? then Some(ExitDeviceGone)
         else None
  {
    LoopTracks(n, s, ps);
    TriedCounts(n, s, ps);
    DriveSnoc(n, s, ps, p);
    AttemptCounts(n, s, ps, p);
    FailuresNext(n, ps, p);
    WalkIsMod(n, s.pos.idx, |ps|);
    PassFrom(n, Drive(n, s, ps).0, p);
  }

  /** Over the passes a loop survives: each waits exactly when the failures since
      `tried` was zero are a multiple of the number of endpoints. */
  lemma SleepsEveryCycle(n: nat, s: Loop, ps: seq<Pass>, p: Pass)
    requires Beginning(n, s) && Running(n, s, ps + [p])
    ensures Running(n, s, ps)
    ensures Drive(n, s, ps + [p]).1 == Drive(n, s, ps).1 + [Try((s.pos.idx + |ps|) % n)]
      + if FailuresSince(ps + [p]) % n == 0 then [Sleep(|WaitsSince(n, ps + [p], |ps|)|)] else []
  {
    RunningPrefix(n, s, ps, [p]);
    PassDoes(n, s, ps, p);
    Assoc(Drive(n, s, ps).1, [Try((s.pos.idx + |ps|) % n)],
          if FailuresSince(ps + [p]) % n == 0 then [Sleep(|WaitsSince(n, ps + [p], |ps|)|)] else []);
  }

  /** Pass `k` tries this endpoint. */
  predicate Tries(n: nat, idx: nat, k: nat, endpoint: nat)
    requires n > 0
  {
    (idx + k) % n == endpoint
  }

  /** These predicates are what the loop does at pass `k`. */
  lemma PassMeaning(n: nat, s: Loop, ps: seq<Pass>, k: nat)
    requires Beginning(n, s) && Running(n, s, ps) && k < |ps|
    ensures var before, after := Drive(n, s, ps[..k]).1, Drive(n, s, ps[..k + 1]).1;
      && before <= after
      && |after| == |before| + (if Waits(n, ps, k) then 2 else 1)
      && after[|before|].Try? && Tries(n, s.pos.idx, k, after[|before|].endpoint)
      && (Waits(n, ps, k) ==> after[|before| + 1] == Sleep(|WaitsSince(n, ps, k)|))
  {
    assert ps == ps[..k + 1] + ps[k + 1..];
    RunningPrefix(n, s, ps[..k + 1], ps[k + 1..]);
    assert ps[..k + 1] == ps[..k] + [ps[k]];
    SleepsEveryCycle(n, s, ps[..k], ps[k]);
    WaitsSincePrefix(n, ps[..k + 1], ps[k + 1..], k);
  }

  lemma {:induction false} FailuresAfter(ps: seq<Pass>, i: nat, j: nat)
    requires i <= j <= |ps| && forall k :: i <= k < j ==> !ps[k].reached
    ensures FailuresSince(ps[..j]) == FailuresSince(ps[..i]) + (j - i)
    decreases j
  {
    if i < j {
      FailuresAfter(ps, i, j - 1);
      assert ps[..j][..j - 1] == ps[..j - 1];
    }
  }

  predicate EndsCycle(n: nat, j: nat)
    requires n > 0
  {
    (j + 1) % n == 0
  }

  function CyclesBefore(n: nat, k: nat): set<nat>
    requires n > 0
  {
    set j: nat | j < k && EndsCycle(n, j)
  }

  lemma QuotientNext(k: nat, n: nat)
    requires n > 0 && k > 0
    ensures k / n == (k - 1) / n + if k % n == 0 then 1 else 0
  {
    var q, r := (k - 1) / n, (k - 1) % n;
    assert k == n * q + r + 1;
    if r + 1 == n {
      DivUnique(k, n, q + 1, 0);
    } else {
      DivUnique(k, n, q, r + 1);
    }
  }

  lemma CyclesNext(n: nat, k: nat)
    requires n > 0 && k > 0
    ensures |CyclesBefore(n, k)| == |CyclesBefore(n, k - 1)| + if EndsCycle(n, k - 1) then 1 else 0
  {
    if EndsCycle(n, k - 1) {
      assert CyclesBefore(n, k) == CyclesBefore(n, k - 1) + {k - 1};
    } else {
      assert CyclesBefore(n, k) == CyclesBefore(n, k - 1);
    }
  }

  lemma {:induction false} CycleCount(n: nat, k: nat)
    requires n > 0
    ensures |CyclesBefore(n, k)| == k / n
  {
    if k == 0 {
      DivUnique(0, n, 0, 0);
    } else {
      CycleCount(n, k - 1);
      CyclesNext(n, k);
      QuotientNext(k, n);
    }
  }

  /** With no session since the start, the loop has waited once per full cycle. */
  lemma WaitsWhileFailing(n: nat, ps: seq<Pass>, k: nat)
    requires n > 0 && k < |ps| && forall i :: 0 <= i <= k ==> !ps[i].reached && !ps[i].heldLong
    ensures Waits(n, ps, k) <==> (k + 1) % n == 0
    ensures |WaitsSince(n, ps, k)| == k / n
  {
    forall j: nat | j <= k ensures Waits(n, ps, j) <==> EndsCycle(n, j) {
      FailuresAfter(ps, 0, j + 1);
      assert ps[..0] == [];
    }
    assert WaitsSince(n, ps, k) == CyclesBefore(n, k);
    CycleCount(n, k);
  }

  /** The wait after the first full cycle of failures is the minimum, and it doubles
      with every further one until it reaches the cap: with `c` cycles behind it,
      pass `k` sleeps for min*2^c plus the jitter, or for what the maximum allows. */
  lemma FailingWaitsDouble(n: nat, s: Loop, ps: seq<Pass>, k: nat, minD: int, maxD: int, jitter: int)
    requires Beginning(n, s) && Running(n, s, ps) && k < |ps| && (k + 1) % n == 0
    requires forall i :: 0 <= i <= k ==> !ps[i].reached && !ps[i].heldLong
    requires 0 < minD && 2 * minD <= maxD < TWO_63 && 0 <= jitter < minD
    requires minD * Pow2(if k / n <= 30 then k / n else 30) < TWO_63
    ensures var before, after := Drive(n, s, ps[..k]).1, Drive(n, s, ps[..k + 1]).1;
      var c := k / n;
      && after == before + [Try((s.pos.idx + k) % n), Sleep(c)]
      && Clamp(BackoffBase(minD, maxD, c) + jitter, minD, maxD) ==
           Least(minD * Pow2(if c <= 30 then c else 30), maxD - minD) + jitter
  {
    WaitsWhileFailing(n, ps, k);
    PassMeaning(n, s, ps, k);
    BackoffExact(minD, maxD, k / n, jitter);
    var before, after := Drive(n, s, ps[..k]).1, Drive(n, s, ps[..k + 1]).1;
    assert after == before + after[|before|..];
  }

  /** Passes `a` and `b` wait, none between them does, and no pass after `a` up to
      `b` reached a working session. */
  ghost predicate ConsecutiveWaits(n: nat, ps: seq<Pass>, a: nat, b: nat)
    requires n > 0
  {
    && a < b < |ps| && Waits(n, ps, a) && Waits(n, ps, b)
    && (forall k :: a < k < b ==> !Waits(n, ps, k))
    && (forall k :: a < k <= b ==> !ps[k].reached)
  }

  lemma Multiples(f: nat, n: nat, d: nat)
    requires n > 0 && f % n == 0 && d <= n
    ensures (f + d) % n == 0 <==> d == 0 || d == n
  {
    if d == n {
      DivUnique(f + d, n, f / n + 1, 0);
    } else {
      DivUnique(f + d, n, f / n, d);
    }
  }

  /** After a wait, the next `d` failures end in a wait only at a full cycle. */
  lemma WaitsAgain(n: nat, ps: seq<Pass>, a: nat, d: nat)
    requires 0 < d <= n && a + d < |ps| && Waits(n, ps, a)
    requires forall k :: a < k <= a + d ==> !ps[k].reached
    ensures Waits(n, ps, a + d) <==> d == n
  {
    FailuresAfter(ps, a + 1, a + d + 1);
    Multiples(FailuresSince(ps[..a + 1]), n, d);
  }

  lemma CycleLength(n: nat, ps: seq<Pass>, a: nat, b: nat)
    requires n > 0 && ConsecutiveWaits(n, ps, a, b)
    ensures b - a == n
  {
    WaitsAgain(n, ps, a, if b - a > n then n else b - a);
  }

  /** Two passes less than a cycle apart try different endpoints. */
  lemma SameEndpoint(n: nat, idx: nat, i: nat, j: nat, e: nat)
    requires n > 0 && i <= j < i + n && Tries(n, idx, i, e) && Tries(n, idx, j, e)
    ensures i == j
  {
    var a, b := (idx + i) / n, (idx + j) / n;
    assert n * (b - a) == j - i;
    if b - a >= 1 {
      MulMonotone(n, 1, b - a);
    } else if b - a <= -1 {
      MulMonotone(n, b - a, -1);
    }
  }

  /** The pass after `a` that tries endpoint `e`. */
  lemma PassFor(n: nat, idx: nat, a: nat, e: nat) returns (k: nat)
    requires e < n
    ensures a < k <= a + n && Tries(n, idx, k, e)
  {
    var base := (idx + a + 1) % n;
    var q := (idx + a + 1) / n;
    if e >= base {
      k := a + 1 + (e - base);
      DivUnique(idx + k, n, q, e);
    } else {
      k := a + 1 + (e + n - base);
      assert n * (q + 1) == n * q + n;
      DivUnique(idx + k, n, q + 1, e);
    }
  }

  ghost predicate TriedBetween(n: nat, idx: nat, a: nat, b: nat, endpoint: nat)
    requires n > 0
  {
    exists k :: a < k <= b && Tries(n, idx, k, endpoint)
  }

  /** Between two consecutive waits with no working session in between, exactly n
      attempts are made, and they try every endpoint exactly once. */
  lemma EachEndpointOncePerCycle(n: nat, idx: nat, ps: seq<Pass>, a: nat, b: nat)
    requires idx < n && ConsecutiveWaits(n, ps, a, b)
    ensures b - a == n
    ensures forall e: nat :: e < n ==> TriedBetween(n, idx, a, b, e)
    ensures forall i, j, e :: a < i <= j <= b && Tries(n, idx, i, e) && Tries(n, idx, j, e) ==> i == j
  {
    CycleLength(n, ps, a, b);
    forall i, j, e | a < i <= j <= b && Tries(n, idx, i, e) && Tries(n, idx, j, e) ensures i == j {
      SameEndpoint(n, idx, i, j, e);
    }
    forall e: nat | e < n ensures TriedBetween(n, idx, a, b, e) {
      var k := PassFor(n, idx, a, e);
    }
  }

  lemma {:induction false} StreakMeaning(ps: seq<Pass>, m: nat)
    ensures Streak(ps) >= m <==> m <= |ps| && forall j :: |ps| - m <= j < |ps| ==> ps[j].outcome.SuspectedAuth?
    decreases m
  {
    if m > 0 && ps != [] {
      var front := ps[..|ps| - 1];
      StreakMeaning(front, m - 1);
      assert forall j :: 0 <= j < |front| ==> front[j] == ps[j];
    }
  }

  /** The loop gives up on a rejected client exactly when this attempt and the
      four before it were all suspected-auth alerts, and nothing cancelled it
      first. */
  lemma RejectedAfterFive(n: nat, s: Loop, ps: seq<Pass>, p: Pass)
    requires Beginning(n, s) && Running(n, s, ps)
    ensures Drive(n, s, ps + [p]).2 == Some(ExitRejected) <==>
            && !p.deviceDead && !p.cancelled && p.outcome.SuspectedAuth?
            && |ps| >= 4 && forall j :: |ps| - 4 <= j < |ps| ==> ps[j].outcome.SuspectedAuth?
  {
    LoopTracks(n, s, ps);
    DriveSnoc(n, s, ps, p);
    StreakMeaning(ps, 4);
  }
}
