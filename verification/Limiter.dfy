/** internal/tunnel/server/limiter.go: the per-source and global connection
    caps, and the throttle that holds a slot after a failed handshake. */
module Limiter {
  import opened Base

  datatype Caps = Caps(maxPerIP: int, maxTotal: int, failPenalty: int) {
    /** A cap of zero (or less) means "no limit"; the throttle needs both caps
        and a penalty window. */
    predicate ThrottleActive() {
      maxPerIP > 0 && maxTotal > 0 && failPenalty > 0
    }
  }

  datatype Counters = Counters(total: int, perIP: map<string, int>)

  /** Reading a missing entry of the Go map yields zero. */
  function Count(perIP: map<string, int>, ip: string): int {
    if ip in perIP then perIP[ip] else 0
  }

  predicate Admits(caps: Caps, c: Counters, ip: string) {
    && !(caps.maxTotal > 0 && c.total >= caps.maxTotal)
    && !(caps.maxPerIP > 0 && Count(c.perIP, ip) >= caps.maxPerIP)
  }

  function Taken(c: Counters, ip: string): Counters {
    Counters(c.total + 1, c.perIP[ip := Count(c.perIP, ip) + 1])
  }

  function Freed(c: Counters, ip: string): Counters {
    var n := Count(c.perIP, ip) - 1;
    Counters(c.total - 1, if n <= 0 then c.perIP - {ip} else c.perIP[ip := n])
  }

  class ConnLimiter {
    const caps: Caps
    var total: int
    var perIP: map<string, int>

    function State(): Counters
      reads this
    {
      Counters(total, perIP)
    }

    constructor (caps: Caps)
      ensures this.caps == caps && State() == Counters(0, map[])
    {
      this.caps := caps;
      total, perIP := 0, map[];
    }

    method Acquire(ip: string) returns (ok: bool)
      modifies this
      ensures ok == Admits(caps, old(State()), ip)
      ensures State() == if ok then Taken(old(State()), ip) else old(State())
    {
      if caps.maxTotal > 0 && total >= caps.maxTotal {
        return false;
      }
      if caps.maxPerIP > 0 && Count(perIP, ip) >= caps.maxPerIP {
        return false;
      }
      total := total + 1;
      perIP := perIP[ip := Count(perIP, ip) + 1];
      return true;
    }

    method Dec(ip: string)
      modifies this
      ensures State() == Freed(old(State()), ip)
    {
      total := total - 1;
      var n := Count(perIP, ip) - 1;
      if n <= 0 {
        perIP := perIP - {ip};
      } else {
        perIP := perIP[ip := n];
      }
    }

    /** Either frees the slot now or arms a timer that will call Dec after the
        penalty window; `armed` says which. */
    method Release(ip: string, penalize: bool) returns (armed: bool)
      modifies this
      ensures armed == (penalize && caps.ThrottleActive())
      ensures State() == if armed then old(State()) else Freed(old(State()), ip)
    {
      armed := penalize && caps.ThrottleActive();
      if !armed {
        Dec(ip);
      }
    }
  }

  // ---------------------------------------------------------------- runs

  /** A penalised release: its source and when it happened. */
  datatype Penalty = Penalty(ip: string, at: int)

  /** The limiter inside its environment. `live` are the connections holding a
      slot, by handler; `hist` is every penalised release so far, and `pending`
      indexes those whose timer has not fired yet. */
  datatype Timed = Timed(
    c: Counters,
    live: map<nat, string>,
    hist: seq<Penalty>,
    pending: set<nat>,
    now: int)

  datatype Event =
    | Acquire(h: nat, ip: string)
    | Release(h: nat, penalize: bool)
    | Fire(i: nat)
    | Tick(d: nat)

  function Init(now: int): Timed {
    Timed(Counters(0, map[]), map[], [], {}, now)
  }

  /** The release closure is called at most once, and a timer armed for the
      penalty window never fires before the window has passed. */
  predicate Enabled(caps: Caps, s: Timed, e: Event) {
    match e
    case Acquire(h, ip) => h !in s.live
    case Release(h, penalize) => h in s.live
    case Fire(i) => i in s.pending && i < |s.hist| && s.now >= s.hist[i].at + caps.failPenalty
    case Tick(d) => true
  }

  function Step(caps: Caps, s: Timed, e: Event): Timed
    requires Enabled(caps, s, e)
  {
    match e
    case Acquire(h, ip) =>
      if Admits(caps, s.c, ip) then s.(c := Taken(s.c, ip), live := s.live[h := ip]) else s
    case Release(h, penalize) =>
      var ip := s.live[h];
      if penalize && caps.ThrottleActive() then
        s.(live := s.live - {h}, hist := s.hist + [Penalty(ip, s.now)], pending := s.pending + {|s.hist|})
      else
        s.(live := s.live - {h}, c := Freed(s.c, ip))
    case Fire(i) => s.(c := Freed(s.c, s.hist[i].ip), pending := s.pending - {i})
    case Tick(d) => s.(now := s.now + d)
  }

  predicate Runs(caps: Caps, s: Timed, es: seq<Event>)
    decreases |es|
  {
    es == [] || (Enabled(caps, s, es[0]) && Runs(caps, Step(caps, s, es[0]), es[1..]))
  }

  function Run(caps: Caps, s: Timed, es: seq<Event>): Timed
    requires Runs(caps, s, es)
    decreases |es|
  {
    if es == [] then s else Run(caps, Step(caps, s, es[0]), es[1..])
  }

  function LiveOf(live: map<nat, string>, ip: string): set<nat> {
    set h | h in live && live[h] == ip
  }

  function PendingOf(hist: seq<Penalty>, pending: set<nat>, ip: string): set<nat> {
    set i | i in pending && i < |hist| && hist[i].ip == ip
  }

  /** The penalised releases of `ip` that fall in [from, from + width). */
  function Window(hist: seq<Penalty>, ip: string, from: int, width: int): set<nat> {
    set i: nat | i < |hist| && hist[i].ip == ip && from <= hist[i].at < from + width
  }

  ghost predicate CountsExact(s: Timed) {
    && (forall i :: i in s.pending ==> i < |s.hist|)
    && s.c.total == |s.live| + |s.pending|
    && (forall ip :: Count(s.c.perIP, ip) == |LiveOf(s.live, ip)| + |PendingOf(s.hist, s.pending, ip)|)
    && (forall ip :: ip in s.c.perIP ==> s.c.perIP[ip] > 0)
    && SumOf(s.c.perIP) == s.c.total
  }

  ghost predicate CapsHold(caps: Caps, s: Timed) {
    && (caps.maxTotal > 0 ==> s.c.total <= caps.maxTotal)
    && (caps.maxPerIP > 0 ==> forall ip :: Count(s.c.perIP, ip) <= caps.maxPerIP)
  }

  /** A penalised release less than one window old still holds its slot. */
  ghost predicate PenaltiesHeld(caps: Caps, s: Timed) {
    && (s.hist != [] ==> caps.ThrottleActive())
    && (forall i :: 0 <= i < |s.hist| ==> s.hist[i].at <= s.now)
    && (forall i :: 0 <= i < |s.hist| && s.hist[i].at + caps.failPenalty > s.now ==> i in s.pending)
  }

  ghost predicate WindowsBounded(caps: Caps, s: Timed) {
    caps.ThrottleActive() ==>
      forall ip, from :: |Window(s.hist, ip, from, caps.failPenalty)| <= caps.maxPerIP
  }

  ghost predicate Inv(caps: Caps, s: Timed) {
    CountsExact(s) && CapsHold(caps, s) && PenaltiesHeld(caps, s) && WindowsBounded(caps, s)
  }

  lemma TakenSum(c: Counters, ip: string)
    ensures SumOf(Taken(c, ip).perIP) == SumOf(c.perIP) + 1
  {
    SumUpdated(c.perIP, ip, Count(c.perIP, ip) + 1);
  }

  lemma FreedSum(c: Counters, ip: string)
    requires Count(c.perIP, ip) > 0
    ensures SumOf(Freed(c, ip).perIP) == SumOf(c.perIP) - 1
  {
    if Count(c.perIP, ip) == 1 {
      SumWithout(c.perIP, ip);
    } else {
      SumUpdated(c.perIP, ip, Count(c.perIP, ip) - 1);
    }
  }

  lemma FreedCounts(c: Counters, ip: string)
    requires forall k :: k in c.perIP ==> c.perIP[k] > 0
    requires Count(c.perIP, ip) > 0
    ensures forall k :: k in Freed(c, ip).perIP ==> Freed(c, ip).perIP[k] > 0
    ensures forall k :: Count(Freed(c, ip).perIP, k) == Count(c.perIP, k) - (if k == ip then 1 else 0)
  {
  }

  lemma LiveWith(live: map<nat, string>, h: nat, ip: string, k: string)
    requires h !in live
    ensures |live[h := ip]| == |live| + 1
    ensures |LiveOf(live[h := ip], k)| == |LiveOf(live, k)| + (if k == ip then 1 else 0)
  {
    assert live[h := ip].Keys == live.Keys + {h};
    if k == ip {
      assert LiveOf(live[h := ip], k) == LiveOf(live, k) + {h};
    } else {
      assert LiveOf(live[h := ip], k) == LiveOf(live, k);
    }
  }

  lemma AcquireCounts(s: Timed, h: nat, ip: string)
    requires CountsExact(s) && h !in s.live
    ensures CountsExact(s.(c := Taken(s.c, ip), live := s.live[h := ip]))
  {
    var s' := s.(c := Taken(s.c, ip), live := s.live[h := ip]);
    TakenSum(s.c, ip);
    LiveWith(s.live, h, ip, ip);
    forall k
      ensures Count(s'.c.perIP, k) == |LiveOf(s'.live, k)| + |PendingOf(s'.hist, s'.pending, k)|
    {
      LiveWith(s.live, h, ip, k);
    }
  }

  lemma AcquireKeeps(caps: Caps, s: Timed, h: nat, ip: string)
    requires Inv(caps, s) && h !in s.live
    ensures Inv(caps, Step(caps, s, Acquire(h, ip)))
  {
    if Admits(caps, s.c, ip) {
      AcquireCounts(s, h, ip);
    }
  }

  lemma LiveWithout(live: map<nat, string>, h: nat, k: string)
    requires h in live
    ensures |live - {h}| == |live| - 1
    ensures |LiveOf(live - {h}, k)| == |LiveOf(live, k)| - (if live[h] == k then 1 else 0)
  {
    assert (live - {h}).Keys == live.Keys - {h};
    if live[h] == k {
      assert LiveOf(live - {h}, k) == LiveOf(live, k) - {h};
    } else {
      assert LiveOf(live - {h}, k) == LiveOf(live, k);
    }
  }

  lemma ImmediateReleaseKeeps(caps: Caps, s: Timed, h: nat, penalize: bool)
    requires Inv(caps, s) && h in s.live && !(penalize && caps.ThrottleActive())
    ensures Inv(caps, Step(caps, s, Release(h, penalize)))
  {
    var s' := Step(caps, s, Release(h, penalize));
    var ip := s.live[h];
    LiveWithout(s.live, h, ip);
    FreedSum(s.c, ip);
    FreedCounts(s.c, ip);
    forall k
      ensures Count(s'.c.perIP, k) == |LiveOf(s'.live, k)| + |PendingOf(s'.hist, s'.pending, k)|
    {
      LiveWithout(s.live, h, k);
    }
  }

  lemma PendingWith(s: Timed, p: Penalty, k: string)
    ensures var n := |s.hist|;
      PendingOf(s.hist + [p], s.pending + {n}, k) ==
        if p.ip == k then PendingOf(s.hist, s.pending, k) + {n} else PendingOf(s.hist, s.pending, k)
  {
  }

  lemma PenaltyCounts(caps: Caps, s: Timed, h: nat)
    requires Inv(caps, s) && h in s.live && caps.ThrottleActive()
    ensures CountsExact(Step(caps, s, Release(h, true)))
  {
    var s' := Step(caps, s, Release(h, true));
    forall k
      ensures Count(s'.c.perIP, k) == |LiveOf(s'.live, k)| + |PendingOf(s'.hist, s'.pending, k)|
    {
      LiveWithout(s.live, h, k);
      PendingWith(s, Penalty(s.live[h], s.now), k);
      assert |s.hist| !in PendingOf(s.hist, s.pending, k);
    }
  }

  lemma WindowWith(hist: seq<Penalty>, p: Penalty, ip: string, from: int, width: int)
    ensures var w, w' := Window(hist, ip, from, width), Window(hist + [p], ip, from, width);
      if p.ip == ip && from <= p.at < from + width then w' == w + {|hist|} else w' == w
  {
    assert forall i :: 0 <= i < |hist| ==> hist[i] == (hist + [p])[i];
  }

  /** Everything in a window that reaches up to now is still pending. */
  lemma WindowIsPending(caps: Caps, s: Timed, ip: string, from: int)
    requires PenaltiesHeld(caps, s) && s.now < from + caps.failPenalty
    ensures Window(s.hist, ip, from, caps.failPenalty) <= PendingOf(s.hist, s.pending, ip)
  {
  }

  lemma PenaltyHeld(caps: Caps, s: Timed, h: nat)
    requires Inv(caps, s) && h in s.live && caps.ThrottleActive()
    ensures var s' := Step(caps, s, Release(h, true)); CapsHold(caps, s') && PenaltiesHeld(caps, s')
  {
  }

  /** The rate bound: every earlier release in the window is still pending, so
      the per-source counter counts them all. */
  lemma PenaltyWindows(caps: Caps, s: Timed, h: nat)
    requires Inv(caps, s) && h in s.live && caps.ThrottleActive()
    ensures WindowsBounded(caps, Step(caps, s, Release(h, true)))
  {
    var s', p := Step(caps, s, Release(h, true)), Penalty(s.live[h], s.now);
    PenaltyCounts(caps, s, h);
    PenaltyHeld(caps, s, h);
    forall ip, from
      ensures |Window(s'.hist, ip, from, caps.failPenalty)| <= caps.maxPerIP
    {
      WindowWith(s.hist, p, ip, from, caps.failPenalty);
      if p.ip == ip && from <= p.at < from + caps.failPenalty {
        WindowIsPending(caps, s', ip, from);
        SubsetSize(Window(s'.hist, ip, from, caps.failPenalty), PendingOf(s'.hist, s'.pending, ip));
        assert Count(s'.c.perIP, ip) <= caps.maxPerIP;
      }
    }
  }

  lemma PendingWithout(s: Timed, i: nat, k: string)
    requires i in s.pending && i < |s.hist|
    ensures |PendingOf(s.hist, s.pending - {i}, k)| ==
      |PendingOf(s.hist, s.pending, k)| - if s.hist[i].ip == k then 1 else 0
  {
    if s.hist[i].ip == k {
      assert i in PendingOf(s.hist, s.pending, k);
      assert PendingOf(s.hist, s.pending - {i}, k) == PendingOf(s.hist, s.pending, k) - {i};
    } else {
      assert PendingOf(s.hist, s.pending - {i}, k) == PendingOf(s.hist, s.pending, k);
    }
  }

  lemma FireCounts(caps: Caps, s: Timed, i: nat)
    requires Inv(caps, s) && Enabled(caps, s, Fire(i))
    ensures CountsExact(Step(caps, s, Fire(i)))
  {
    var s' := Step(caps, s, Fire(i));
    var ip := s.hist[i].ip;
    assert i in PendingOf(s.hist, s.pending, ip);
    FreedSum(s.c, ip);
    FreedCounts(s.c, ip);
    forall k
      ensures Count(s'.c.perIP, k) == |LiveOf(s'.live, k)| + |PendingOf(s'.hist, s'.pending, k)|
    {
      PendingWithout(s, i, k);
    }
  }

  lemma FireKeeps(caps: Caps, s: Timed, i: nat)
    requires Inv(caps, s) && Enabled(caps, s, Fire(i))
    ensures Inv(caps, Step(caps, s, Fire(i)))
  {
    FireCounts(caps, s, i);
    assert i in PendingOf(s.hist, s.pending, s.hist[i].ip);
    FreedCounts(s.c, s.hist[i].ip);
  }

  lemma PenaltyKeeps(caps: Caps, s: Timed, h: nat)
    requires Inv(caps, s) && h in s.live && caps.ThrottleActive()
    ensures Inv(caps, Step(caps, s, Release(h, true)))
  {
    PenaltyCounts(caps, s, h);
    PenaltyHeld(caps, s, h);
    PenaltyWindows(caps, s, h);
  }

  lemma TickKeeps(caps: Caps, s: Timed, d: nat)
    requires Inv(caps, s)
    ensures Inv(caps, Step(caps, s, Tick(d)))
  {
  }

  lemma StepKeeps(caps: Caps, s: Timed, e: Event)
    requires Inv(caps, s) && Enabled(caps, s, e)
    ensures Inv(caps, Step(caps, s, e))
  {
    match e
    case Acquire(h, ip) => AcquireKeeps(caps, s, h, ip);
    case Release(h, penalize) =>
      if penalize && caps.ThrottleActive() {
        PenaltyKeeps(caps, s, h);
      } else {
        ImmediateReleaseKeeps(caps, s, h, penalize);
      }
    case Fire(i) => FireKeeps(caps, s, i);
    case Tick(d) => TickKeeps(caps, s, d);
  }

  lemma {:induction false} RunKeeps(caps: Caps, s: Timed, es: seq<Event>)
    requires Inv(caps, s) && Runs(caps, s, es)
    ensures Inv(caps, Run(caps, s, es))
    decreases |es|
  {
    if es != [] {
      StepKeeps(caps, s, es[0]);
      RunKeeps(caps, Step(caps, s, es[0]), es[1..]);
    }
  }

  lemma InitHolds(caps: Caps, now: int)
    ensures Inv(caps, Init(now))
  {
    var s := Init(now);
    assert forall ip :: LiveOf(s.live, ip) == {} && PendingOf(s.hist, s.pending, ip) == {};
    assert forall ip, from :: Window(s.hist, ip, from, caps.failPenalty) == {};
  }

  /** Conservation: in every reachable state the total is the sum of the
      per-source counts and the number of live connections plus pending
      penalties; no source has a zero entry; the caps hold; and with the global
      cap set the per-source map has at most that many entries. */
  lemma Conservation(caps: Caps, now: int, es: seq<Event>)
    requires Runs(caps, Init(now), es)
    ensures var s := Run(caps, Init(now), es);
      && s.c.total == SumOf(s.c.perIP) == |s.live| + |s.pending|
      && (forall ip :: Count(s.c.perIP, ip) == |LiveOf(s.live, ip)| + |PendingOf(s.hist, s.pending, ip)|)
      && (forall ip :: ip in s.c.perIP ==> s.c.perIP[ip] > 0)
      && CapsHold(caps, s)
      && (caps.maxTotal > 0 ==> |s.c.perIP| <= caps.maxTotal)
  {
    InitHolds(caps, now);
    RunKeeps(caps, Init(now), es);
    SumBoundsSize(Run(caps, Init(now), es).c.perIP);
  }

  /** A connection gets its slot exactly if both caps, where set, have room for one
      more: live connections and penalties still running all count. */
  lemma AdmittedExactlyIfRoom(caps: Caps, now: int, es: seq<Event>, h: nat, ip: string)
    requires Runs(caps, Init(now), es) && h !in Run(caps, Init(now), es).live
    ensures var s := Run(caps, Init(now), es);
      h in Step(caps, s, Acquire(h, ip)).live <==>
        && (caps.maxTotal > 0 ==> |s.live| + |s.pending| < caps.maxTotal)
        && (caps.maxPerIP > 0 ==> |LiveOf(s.live, ip)| + |PendingOf(s.hist, s.pending, ip)| < caps.maxPerIP)
  {
    InitHolds(caps, now);
    RunKeeps(caps, Init(now), es);
  }

  /** The failed handshakes of a run, in order: the releases asked to penalise,
      under a throttle that needs both caps and a window. */
  function Penalties(caps: Caps, s: Timed, es: seq<Event>): seq<Penalty>
    requires Runs(caps, s, es)
    decreases |es|
  {
    if es == [] then []
    else
      (if es[0].Release? && es[0].penalize && caps.maxPerIP > 0 && caps.maxTotal > 0 && caps.failPenalty > 0
       then [Penalty(s.live[es[0].h], s.now)] else [])
      + Penalties(caps, Step(caps, s, es[0]), es[1..])
  }

  /** Each of them is on record, and nothing else is. */
  lemma {:induction false} PenaltiesRecorded(caps: Caps, s: Timed, es: seq<Event>)
    requires Runs(caps, s, es)
    ensures Run(caps, s, es).hist == s.hist + Penalties(caps, s, es)
    decreases |es|
  {
    if es != [] {
      var t := Step(caps, s, es[0]);
      PenaltiesRecorded(caps, t, es[1..]);
      var now := Penalties(caps, s, es)[..|t.hist| - |s.hist|];
      assert t.hist == s.hist + now;
      Assoc(s.hist, now, Penalties(caps, t, es[1..]));
    }
  }

  /** Those of `ip` that are less than one window old. */
  function Recent(hist: seq<Penalty>, ip: string, now: int, width: int): set<nat> {
    Window(hist, ip, now - width + 1, width)
  }

  lemma PenaltyStillCounts(caps: Caps, s: Timed, ip: string)
    requires Inv(caps, s)
    ensures |LiveOf(s.live, ip)| + |Recent(s.hist, ip, s.now, caps.failPenalty)| <= Count(s.c.perIP, ip)
  {
    WindowIsPending(caps, s, ip, s.now - caps.failPenalty + 1);
    SubsetSize(Recent(s.hist, ip, s.now, caps.failPenalty), PendingOf(s.hist, s.pending, ip));
  }

  lemma RecordedFromStart(caps: Caps, now: int, es: seq<Event>)
    requires Runs(caps, Init(now), es)
    ensures Run(caps, Init(now), es).hist == Penalties(caps, Init(now), es)
  {
    PenaltiesRecorded(caps, Init(now), es);
    var failed := Penalties(caps, Init(now), es);
    assert [] + failed == failed;
  }

  /** Rate: with the throttle active, no half-open window as long as the penalty
      holds more than maxPerIP failed handshakes of one source; and each of them
      still counts against its source until that long has passed. */
  lemma PenaltyRate(caps: Caps, now: int, es: seq<Event>, ip: string, from: int)
    requires caps.ThrottleActive() && Runs(caps, Init(now), es)
    ensures var s, failed := Run(caps, Init(now), es), Penalties(caps, Init(now), es);
      && |Window(failed, ip, from, caps.failPenalty)| <= caps.maxPerIP
      && |LiveOf(s.live, ip)| + |Recent(failed, ip, s.now, caps.failPenalty)| <= Count(s.c.perIP, ip)
  {
    InitHolds(caps, now);
    RunKeeps(caps, Init(now), es);
    RecordedFromStart(caps, now, es);
    PenaltyStillCounts(caps, Run(caps, Init(now), es), ip);
  }
}
