/** What becomes of a connection, over whole runs of the server's machine: whom it
    kicks and waits for, when it is given an address, and what a failed handshake
    costs. */
module Admission {
  import opened Base
  import opened IpAlloc
  import opened Server
  import L = Limiter

  // ------------------------------------------------------- runs and prefixes

  lemma {:induction false} RunConcat(caps: L.Caps, s: State, a: seq<Event>, b: seq<Event>)
    ensures Runs(caps, s, a + b) <==> Runs(caps, s, a) && Runs(caps, Run(caps, s, a), b)
    ensures Runs(caps, s, a + b) ==> Run(caps, s, a + b) == Run(caps, Run(caps, s, a), b)
    decreases |a|
  {
    if a == [] {
      assert a + b == b;
    } else {
      assert (a + b)[0] == a[0] && (a + b)[1..] == a[1..] + b;
      if Enabled(caps, s, a[0]) {
        RunConcat(caps, Step(caps, s, a[0]), a[1..], b);
      }
    }
  }

  /** The state before event `i` of a run. */
  ghost function Before(caps: L.Caps, s: State, es: seq<Event>, i: nat): State
    requires Runs(caps, s, es) && i <= |es|
  {
    RunConcat(caps, s, es[..i], es[i..]);
    assert es[..i] + es[i..] == es;
    Run(caps, s, es[..i])
  }

  lemma Between(caps: L.Caps, s: State, es: seq<Event>, i: nat, k: nat)
    requires Runs(caps, s, es) && i <= k <= |es|
    ensures Runs(caps, Before(caps, s, es, i), es[i..k])
    ensures Before(caps, s, es, k) == Run(caps, Before(caps, s, es, i), es[i..k])
  {
    assert es[..k] == es[..i] + es[i..k] && es == es[..k] + es[k..];
    RunConcat(caps, s, es[..k], es[k..]);
    RunConcat(caps, s, es[..i], es[i..k]);
  }

  lemma BeforeNext(caps: L.Caps, s: State, es: seq<Event>, i: nat)
    requires Runs(caps, s, es) && i < |es|
    ensures Enabled(caps, Before(caps, s, es, i), es[i])
    ensures Before(caps, s, es, i + 1) == Step(caps, Before(caps, s, es, i), es[i])
  {
    Between(caps, s, es, i, i + 1);
    var t := Before(caps, s, es, i);
    assert es[i..i + 1] == [es[i]] && [es[i]][1..] == [];
    assert Runs(caps, t, [es[i]]) && Run(caps, t, [es[i]]) == Run(caps, Step(caps, t, es[i]), []);
  }

  lemma BeforeHolds(caps: L.Caps, addrs: seq<IPv4>, now: int, es: seq<Event>, i: nat)
    requires Ascending(addrs) && Runs(caps, Start(addrs, now), es) && i <= |es|
    ensures Inv(caps, Before(caps, Start(addrs, now), es, i))
  {
    StartHolds(caps, addrs, now);
    RunConcat(caps, Start(addrs, now), es[..i], es[i..]);
    assert es[..i] + es[i..] == es;
    RunKeeps(caps, Start(addrs, now), es[..i]);
  }

  // ----------------------------------------------------------------- kicking

  /** Handler `h` found `g` registered under its own name: until it is admitted it
      is about to close it, or has closed it and waits, or is done waiting. */
  predicate Owes(s: State, h: Handler, g: Handler, timedOut: bool) {
    && h in s.phases
    && match s.phases[h]
       case Accepted(_) => false
       case Handshaking => false
       case Identified(_) => false
       case Kicking(_, prev) => prev == g
       case Joining(_, prev) => prev == g && g in s.closed
       case Admitting(_) => g in s.closed && (g in s.done || timedOut)
       case _ => true
  }

  lemma OwesNext(caps: L.Caps, s: State, e: Event, h: Handler, g: Handler, timedOut: bool)
    requires Owes(s, h, g, timedOut) && Enabled(caps, s, e)
    ensures Owes(Step(caps, s, e), h, g, timedOut || e == JoinTimeout(h))
    ensures s.closed <= Step(caps, s, e).closed && s.done <= Step(caps, s, e).done
  {
  }

  lemma {:induction false} OwesOn(caps: L.Caps, s: State, es: seq<Event>, h: Handler, g: Handler, timedOut: bool)
    requires Owes(s, h, g, timedOut) && Runs(caps, s, es)
    ensures Owes(Run(caps, s, es), h, g, timedOut || JoinTimeout(h) in es)
    decreases |es|
  {
    if es != [] {
      OwesNext(caps, s, es[0], h, g, timedOut);
      OwesOn(caps, Step(caps, s, es[0]), es[1..], h, g, timedOut || es[0] == JoinTimeout(h));
      assert es == [es[0]] + es[1..];
    }
  }

  /** Handler `h` looks its name up at `i` and finds `g` registered under it. */
  ghost predicate Finds(caps: L.Caps, s: State, es: seq<Event>, i: nat, h: Handler, g: Handler)
    requires Runs(caps, s, es)
  {
    && i < |es| && es[i] == Lookup(h)
    && var t := Before(caps, s, es, i);
       && Registered(t, g) && h in t.phases && t.phases[h].Identified? && t.phases[g].cn == t.phases[h].cn
  }

  lemma OwesFirst(caps: L.Caps, s: State, h: Handler, g: Handler)
    requires Core(s) && Enabled(caps, s, Lookup(h)) && Registered(s, g) && s.phases[g].cn == s.phases[h].cn
    ensures Owes(Step(caps, s, Lookup(h)), h, g, false)
  {
    IndexesExact(s);
  }

  lemma FoundIsOwed(caps: L.Caps, addrs: seq<IPv4>, now: int, es: seq<Event>, i: nat, k: nat, h: Handler, g: Handler)
    requires Ascending(addrs) && Runs(caps, Start(addrs, now), es) && i < k <= |es|
    requires Finds(caps, Start(addrs, now), es, i, h, g)
    ensures Owes(Before(caps, Start(addrs, now), es, k), h, g, JoinTimeout(h) in es[i + 1..k])
  {
    var s := Start(addrs, now);
    BeforeHolds(caps, addrs, now, es, i);
    BeforeNext(caps, s, es, i);
    OwesFirst(caps, Before(caps, s, es, i), h, g);
    Between(caps, s, es, i + 1, k);
    OwesOn(caps, Before(caps, s, es, i + 1), es[i + 1..k], h, g, false);
  }

  /** However its wait ends, a handler that waits goes on to ask for an address
      under its own name. */
  lemma WaitingEndsInAsking(caps: L.Caps, s: State, h: Handler, e: Event)
    requires h in s.phases && s.phases[h].Joining?
    requires e == JoinTimeout(h) || (e == Joined(h) && s.phases[h].prev in s.done)
    ensures Enabled(caps, s, e)
    ensures var t := Step(caps, s, e);
      Enabled(caps, t, Allocate(h)) && t.phases[h].cn == s.phases[h].cn && t.pool == s.pool && t.index == s.index
  {
  }

  /** A connection that finds another session registered under its name is not
      admitted before that session was closed, and had wholly gone or the wait for
      it had timed out. */
  lemma KickedBeforeAdmitted(caps: L.Caps, addrs: seq<IPv4>, now: int, es: seq<Event>, i: nat, k: nat,
                             h: Handler, g: Handler)
    requires Ascending(addrs) && Runs(caps, Start(addrs, now), es) && i < k < |es|
    requires Finds(caps, Start(addrs, now), es, i, h, g) && es[k] == Allocate(h)
    ensures var t := Before(caps, Start(addrs, now), es, k);
      g in t.closed && (g in t.done || exists j :: i < j < k && es[j] == JoinTimeout(h))
  {
    FoundIsOwed(caps, addrs, now, es, i, k, h, g);
    BeforeNext(caps, Start(addrs, now), es, k);
    if JoinTimeout(h) in es[i + 1..k] {
      var j :| 0 <= j < |es[i + 1..k]| && es[i + 1..k][j] == JoinTimeout(h);
      assert es[i + 1 + j] == JoinTimeout(h);
    }
  }

  /** Event `i` closes session `g`: a shutdown while it is registered, or the kick
      by a connection that found it. */
  ghost predicate Closes(caps: L.Caps, s: State, es: seq<Event>, i: nat, g: Handler)
    requires Runs(caps, s, es)
  {
    && i < |es|
    && (|| (es[i].Shutdown? && Registered(Before(caps, s, es, i), g))
        || (es[i].Kick? && exists j: nat :: j < i && Finds(caps, s, es, j, es[i].h, g)))
  }

  lemma LookupFinds(caps: L.Caps, addrs: seq<IPv4>, now: int, es: seq<Event>, i: nat, h: Handler, g: Handler)
    requires Ascending(addrs) && Runs(caps, Start(addrs, now), es) && i < |es| && es[i] == Lookup(h)
    requires var t := Before(caps, Start(addrs, now), es, i + 1);
      h in t.phases && t.phases[h].Kicking? && t.phases[h].prev == g
    ensures Finds(caps, Start(addrs, now), es, i, h, g)
  {
    BeforeHolds(caps, addrs, now, es, i);
    BeforeNext(caps, Start(addrs, now), es, i);
    IndexesExact(Before(caps, Start(addrs, now), es, i));
  }

  /** Whom a handler is about to kick it found by looking its name up. */
  lemma {:induction false} KickingFound(caps: L.Caps, addrs: seq<IPv4>, now: int, es: seq<Event>, k: nat, h: Handler)
    returns (j: nat)
    requires Ascending(addrs) && Runs(caps, Start(addrs, now), es) && k <= |es|
    requires var t := Before(caps, Start(addrs, now), es, k); h in t.phases && t.phases[h].Kicking?
    ensures j < k && Finds(caps, Start(addrs, now), es, j, h, Before(caps, Start(addrs, now), es, k).phases[h].prev)
  {
    var s := Start(addrs, now);
    assert k > 0 by { assert es[..0] == []; }
    BeforeNext(caps, s, es, k - 1);
    var was, t := Before(caps, s, es, k - 1), Before(caps, s, es, k);
    if es[k - 1] == Lookup(h) {
      j := k - 1;
      LookupFinds(caps, addrs, now, es, j, h, t.phases[h].prev);
    } else {
      assert h in was.phases && was.phases[h] == t.phases[h];
      j := KickingFound(caps, addrs, now, es, k - 1, h);
    }
  }

  lemma ClosingNext(caps: L.Caps, addrs: seq<IPv4>, now: int, es: seq<Event>, i: nat, g: Handler)
    requires Ascending(addrs) && Runs(caps, Start(addrs, now), es) && i < |es|
    ensures g in Before(caps, Start(addrs, now), es, i + 1).closed <==>
      g in Before(caps, Start(addrs, now), es, i).closed || Closes(caps, Start(addrs, now), es, i, g)
  {
    var s := Start(addrs, now);
    var t := Before(caps, s, es, i);
    BeforeHolds(caps, addrs, now, es, i);
    BeforeNext(caps, s, es, i);
    IndexesExact(t);
    if es[i].Kick? {
      var j := KickingFound(caps, addrs, now, es, i, es[i].h);
      if Closes(caps, s, es, i, g) {
        var m: nat :| m < i && Finds(caps, s, es, m, es[i].h, g);
        FoundIsOwed(caps, addrs, now, es, m, i, es[i].h, g);
      }
    }
  }

  lemma {:induction false} ClosedUpTo(caps: L.Caps, addrs: seq<IPv4>, now: int, es: seq<Event>, k: nat, g: Handler)
    requires Ascending(addrs) && Runs(caps, Start(addrs, now), es) && k <= |es|
    ensures g in Before(caps, Start(addrs, now), es, k).closed <==>
      exists i: nat :: i < k && Closes(caps, Start(addrs, now), es, i, g)
  {
    if k == 0 {
      assert es[..0] == [];
    } else {
      ClosedUpTo(caps, addrs, now, es, k - 1, g);
      ClosingNext(caps, addrs, now, es, k - 1, g);
    }
  }

  /** A session is closed from outside exactly if a shutdown found it registered, or
      a connection that had found it registered under its own name kicked it. */
  lemma ClosedExactlyIf(caps: L.Caps, addrs: seq<IPv4>, now: int, es: seq<Event>, g: Handler)
    requires Ascending(addrs) && Runs(caps, Start(addrs, now), es)
    ensures g in Run(caps, Start(addrs, now), es).closed <==>
      exists i: nat :: i < |es| && Closes(caps, Start(addrs, now), es, i, g)
  {
    ClosedUpTo(caps, addrs, now, es, |es|, g);
    assert es[..|es|] == es;
  }

  // --------------------------------------------------------------- addresses

  ghost predicate Unheld(addrs: seq<IPv4>, ps: Phases, a: IPv4) {
    a in addrs && forall g :: g in ps && HoldsAddress(ps[g]) ==> ps[g].ip != a
  }

  lemma FreeIsUnheld(s: State, a: IPv4)
    requires Core(s)
    ensures Unheld(s.pool.addrs, s.phases, a) <==> a in s.pool.free
  {
    if a in s.pool.addrs && a !in s.pool.free {
      var c :| c in s.pool.byClient && s.pool.byClient[c] == a;
      var g :| HoldsFor(s.phases, g, c);
      assert s.phases[g].ip == a;
    }
  }

  /** A connection that is to be given an address gets one exactly if nobody holds
      one under its name and some address of the pool is held by nobody, and then
      the least such; otherwise it leaves. */
  lemma AdmittedExactlyIf(caps: L.Caps, addrs: seq<IPv4>, now: int, es: seq<Event>, h: Handler)
    requires Ascending(addrs) && Runs(caps, Start(addrs, now), es)
    requires Enabled(caps, Run(caps, Start(addrs, now), es), Allocate(h))
    ensures var s := Run(caps, Start(addrs, now), es);
      var p := Step(caps, s, Allocate(h)).phases[h];
      && (p.Holding? <==>
            (forall g :: !HoldsFor(s.phases, g, s.phases[h].cn)) && exists a :: Unheld(addrs, s.phases, a))
      && (p.Holding? ==>
            && p.cn == s.phases[h].cn && Unheld(addrs, s.phases, p.ip)
            && forall a :: Unheld(addrs, s.phases, a) ==> p.ip <= a)
      && (!p.Holding? ==> p == Leaving(true))
  {
    StartHolds(caps, addrs, now);
    RunKeeps(caps, Start(addrs, now), es);
    AddrsFixed(caps, Start(addrs, now), es);
    var s := Run(caps, Start(addrs, now), es);
    AllocateMeaning(s.pool, s.phases[h].cn);
    forall a ensures Unheld(addrs, s.phases, a) <==> a in s.pool.free {
      FreeIsUnheld(s, a);
    }
  }

  /** A connection gets its slot exactly if there is room under both caps for what
      is connected now and what still pays for a failed handshake. */
  lemma SlotExactlyIfRoom(caps: L.Caps, addrs: seq<IPv4>, now: int, es: seq<Event>, h: Handler)
    requires Ascending(addrs) && Runs(caps, Start(addrs, now), es)
    requires Enabled(caps, Run(caps, Start(addrs, now), es), Acquire(h))
    ensures var s := Run(caps, Start(addrs, now), es);
      var ip := s.phases[h].remote;
      var p := Step(caps, s, Acquire(h)).phases[h];
      && (p == Handshaking <==>
            && (caps.maxTotal > 0 ==>
                  |set g | g in s.phases && HoldsSlot(s.phases[g])| + |s.lim.pending| < caps.maxTotal)
            && (caps.maxPerIP > 0 ==>
                  |L.LiveOf(s.lim.live, ip)| + |L.PendingOf(s.lim.hist, s.lim.pending, ip)| < caps.maxPerIP))
      && (p != Handshaking ==> p == Gone)
  {
    StartHolds(caps, addrs, now);
    RunKeeps(caps, Start(addrs, now), es);
    var s := Run(caps, Start(addrs, now), es);
    assert (set g | g in s.phases && HoldsSlot(s.phases[g])) == s.lim.live.Keys;
  }

  // ------------------------------------------------------- failed handshakes

  /** Until it is gone, a handler knows whether its handshake failed. */
  predicate Told(s: State, failed: bool, h: Handler) {
    if h !in s.phases then !failed
    else if s.phases[h].Leaving? then s.phases[h].handshakeOK == !failed
    else s.phases[h].Gone? || !failed
  }

  lemma ToldNext(caps: L.Caps, s: State, e: Event, failed: bool, h: Handler)
    requires Told(s, failed, h) && Enabled(caps, s, e)
    ensures Told(Step(caps, s, e), failed || e == FailHandshake(h), h)
  {
  }

  lemma {:induction false} ToldOn(caps: L.Caps, s: State, es: seq<Event>, failed: bool, h: Handler)
    requires Told(s, failed, h) && Runs(caps, s, es)
    ensures Told(Run(caps, s, es), failed || FailHandshake(h) in es, h)
    decreases |es|
  {
    if es != [] {
      ToldNext(caps, s, es[0], failed, h);
      ToldOn(caps, Step(caps, s, es[0]), es[1..], failed || es[0] == FailHandshake(h), h);
      assert es == [es[0]] + es[1..];
    }
  }

  /** A slot is charged to the address the connection came from. */
  ghost predicate Charged(s: State, before: seq<Event>) {
    && (forall h :: h in s.phases && s.phases[h].Accepted? ==> Accept(h, s.phases[h].remote) in before)
    && (forall h :: h in s.lim.live ==> Accept(h, s.lim.live[h]) in before)
  }

  lemma ChargedNext(caps: L.Caps, s: State, before: seq<Event>, e: Event)
    requires Charged(s, before) && Enabled(caps, s, e)
    ensures Charged(Step(caps, s, e), before + [e])
  {
  }

  lemma {:induction false} ChargedOn(caps: L.Caps, s: State, before: seq<Event>, es: seq<Event>)
    requires Charged(s, before) && Runs(caps, s, es)
    ensures Charged(Run(caps, s, es), before + es)
    decreases |es|
  {
    if es == [] {
      assert before + es == before;
    } else {
      ChargedNext(caps, s, before, es[0]);
      ChargedOn(caps, Step(caps, s, es[0]), before + [es[0]], es[1..]);
      assert before + [es[0]] + es[1..] == before + es;
    }
  }

  /** What a connection's end costs its source: with the throttle on and outside a
      shutdown, a connection whose handshake failed keeps its slot and goes on
      record under the address it came from; every other slot is free at once. */
  lemma PenalisedExactlyIfFailed(caps: L.Caps, addrs: seq<IPv4>, now: int, es: seq<Event>,
                                 h: Handler, shuttingDown: bool)
    requires Ascending(addrs) && Runs(caps, Start(addrs, now), es)
    requires Enabled(caps, Run(caps, Start(addrs, now), es), ReleaseSlot(h, shuttingDown))
    ensures var s := Run(caps, Start(addrs, now), es);
      var s' := Step(caps, s, ReleaseSlot(h, shuttingDown));
      var pays := FailHandshake(h) in es && !shuttingDown
        && caps.maxPerIP > 0 && caps.maxTotal > 0 && caps.failPenalty > 0;
      && Accept(h, s.lim.live[h]) in es && h !in s'.lim.live
      && s'.lim.hist == s.lim.hist + (if pays then [L.Penalty(s.lim.live[h], s.lim.now)] else [])
      && s'.lim.c.total == s.lim.c.total - if pays then 0 else 1
  {
    ToldOn(caps, Start(addrs, now), es, false, h);
    ChargedOn(caps, Start(addrs, now), [], es);
    assert [] + es == es;
  }

  // ---------------------------------------------------------------- being let in

  lemma OneMore(caps: L.Caps, s: State, es: seq<Event>, e: Event)
    requires Runs(caps, s, es) && Enabled(caps, Run(caps, s, es), e)
    ensures Runs(caps, s, es + [e]) && Run(caps, s, es + [e]) == Step(caps, Run(caps, s, es), e)
  {
    RunConcat(caps, s, es, [e]);
    var t := Run(caps, s, es);
    assert [e][1..] == [];
    assert Runs(caps, Step(caps, t, e), []) && Runs(caps, t, [e]);
  }

  lemma FirstTwo(caps: L.Caps, s: State, d: Event, e: Event)
    requires Enabled(caps, s, d) && Enabled(caps, Step(caps, s, d), e)
    ensures Runs(caps, s, [d, e]) && Run(caps, s, [d, e]) == Step(caps, Step(caps, s, d), e)
  {
    OneMore(caps, s, [], d);
    OneMore(caps, s, [d], e);
    assert [] + [d] == [d] && [d] + [e] == [d, e];
  }

  lemma Greeted(caps: L.Caps, s: State, h: Handler, remote: string, cn: string)
    requires Inv(caps, s) && h !in s.phases && cn != "" && L.Admits(caps, s.lim.c, remote)
    ensures var es := [Accept(h, remote), Acquire(h), Identify(h, cn)];
      && Runs(caps, s, es)
      && var t := Run(caps, s, es);
         && t.phases == s.phases[h := Identified(cn)] && t.pool == s.pool && t.index == s.index
         && t.closed == s.closed && t.done == s.done
  {
    FirstTwo(caps, s, Accept(h, remote), Acquire(h));
    var t := Run(caps, s, [Accept(h, remote), Acquire(h)]);
    assert t.phases == s.phases[h := Handshaking];
    OneMore(caps, s, [Accept(h, remote), Acquire(h)], Identify(h, cn));
    assert [Accept(h, remote), Acquire(h)] + [Identify(h, cn)] == [Accept(h, remote), Acquire(h), Identify(h, cn)];
  }

  lemma Enrolled(caps: L.Caps, s: State, h: Handler)
    requires Inv(caps, s) && Enabled(caps, s, Allocate(h))
    requires s.phases[h].cn !in s.pool.byClient && s.pool.free != {}
    ensures var es := [Allocate(h), Register(h)];
      && Runs(caps, s, es)
      && var t := Run(caps, s, es);
         && Registered(t, h) && t.phases[h].cn == s.phases[h].cn && t.phases[h].ip in s.pool.free
         && t.closed == s.closed
  {
    AllocateMeaning(s.pool, s.phases[h].cn);
    FirstTwo(caps, s, Allocate(h), Register(h));
  }

  /** A new client is let in: with room under the caps, nobody holding an address
      under its name and an address free, its handler gets from accept to the
      registry without waiting for anyone. */
  lemma NewClientIsServed(caps: L.Caps, s: State, h: Handler, remote: string, cn: string)
    requires Inv(caps, s) && h !in s.phases && cn != "" && L.Admits(caps, s.lim.c, remote)
    requires (forall g :: !HoldsFor(s.phases, g, cn)) && s.pool.free != {}
    ensures var es := [Accept(h, remote), Acquire(h), Identify(h, cn)] + [Lookup(h)] + [Allocate(h), Register(h)];
      && Runs(caps, s, es)
      && var t := Run(caps, s, es); Registered(t, h) && t.phases[h].cn == cn && t.closed == s.closed
  {
    var hello := [Accept(h, remote), Acquire(h), Identify(h, cn)];
    Greeted(caps, s, h, remote, cn);
    RunKeeps(caps, s, hello);
    var t := Run(caps, s, hello);
    assert cn !in t.index.byCN by {
      if cn in t.index.byCN { assert HoldsFor(s.phases, t.index.byCN[cn], cn); }
    }
    StepKeeps(caps, t, Lookup(h));
    var u := Step(caps, t, Lookup(h));
    OneMore(caps, s, hello, Lookup(h));
    Enrolled(caps, u, h);
    RunConcat(caps, s, hello + [Lookup(h)], [Allocate(h), Register(h)]);
  }

  lemma KickSteps(caps: L.Caps, s: State, h: Handler, g: Handler)
    requires Enabled(caps, s, Lookup(h)) && s.phases[h].cn in s.index.byCN && s.index.byCN[s.phases[h].cn] == g
    ensures Runs(caps, s, [Lookup(h), Kick(h)])
    ensures var t := Run(caps, s, [Lookup(h), Kick(h)]);
      && t.phases == s.phases[h := Joining(s.phases[h].cn, g)] && g in t.closed
  {
    FirstTwo(caps, s, Lookup(h), Kick(h));
  }

  /** A handler that finds `g` under its name kicks it and waits. */
  lemma Kicked(caps: L.Caps, s: State, h: Handler, g: Handler)
    requires Inv(caps, s) && Enabled(caps, s, Lookup(h)) && Registered(s, g) && s.phases[g].cn == s.phases[h].cn
    ensures Runs(caps, s, [Lookup(h), Kick(h)])
    ensures var t := Run(caps, s, [Lookup(h), Kick(h)]);
      && t.phases == s.phases[h := Joining(s.phases[h].cn, g)] && g in t.closed
  {
    IndexesExact(s);
    KickSteps(caps, s, h, g);
  }

  lemma Unwound(caps: L.Caps, s: State, g: Handler)
    requires Registered(s, g)
    ensures Runs(caps, s, [Unregister(g), Unlease(g), CloseDone(g)])
    ensures var t := Run(caps, s, [Unregister(g), Unlease(g), CloseDone(g)]);
      && t.phases == s.phases[g := Leaving(true)] && t.pool == Released(s.pool, s.phases[g].cn)
      && t.done == s.done + {g} && t.closed == s.closed
  {
    FirstTwo(caps, s, Unregister(g), Unlease(g));
    OneMore(caps, s, [Unregister(g), Unlease(g)], CloseDone(g));
    assert [Unregister(g), Unlease(g)] + [CloseDone(g)] == [Unregister(g), Unlease(g), CloseDone(g)];
  }

  lemma HeldComesBack(s: State, g: Handler)
    requires Core(s) && Registered(s, g)
    ensures var pool := Released(s.pool, s.phases[g].cn);
      s.phases[g].cn !in pool.byClient && s.phases[g].ip in pool.free
  {
    assert HoldsFor(s.phases, g, s.phases[g].cn);
  }

  /** A kicked session's teardown. */
  lemma TornDown(caps: L.Caps, s: State, g: Handler)
    requires Core(s) && Registered(s, g)
    ensures Runs(caps, s, [Unregister(g), Unlease(g), CloseDone(g)])
    ensures var t := Run(caps, s, [Unregister(g), Unlease(g), CloseDone(g)]);
      && t.phases == s.phases[g := Leaving(true)] && g in t.done && s.closed <= t.closed
      && s.phases[g].cn !in t.pool.byClient && t.pool.free != {}
  {
    Unwound(caps, s, g);
    HeldComesBack(s, g);
  }

  lemma JoinedAndEnrolled(caps: L.Caps, s: State, h: Handler)
    requires Inv(caps, s) && Enabled(caps, s, Joined(h))
    requires s.phases[h].cn !in s.pool.byClient && s.pool.free != {}
    ensures var es := [Joined(h)] + [Allocate(h), Register(h)];
      && Runs(caps, s, es)
      && var t := Run(caps, s, es);
         Registered(t, h) && t.phases[h].cn == s.phases[h].cn && t.closed == s.closed
  {
    StepKeeps(caps, s, Joined(h));
    var u := Step(caps, s, Joined(h));
    OneMore(caps, s, [], Joined(h));
    assert [] + [Joined(h)] == [Joined(h)];
    Enrolled(caps, u, h);
    RunConcat(caps, s, [Joined(h)], [Allocate(h), Register(h)]);
  }

  /** A client that reconnects takes over from its old session: the new handler
      kicks it, and once that one has torn itself down it is let in under the same
      name, even with no other address free. */
  lemma ReconnectTakesOver(caps: L.Caps, s: State, h: Handler, g: Handler, remote: string)
    requires Inv(caps, s) && h !in s.phases && Registered(s, g) && s.phases[g].cn != ""
    requires L.Admits(caps, s.lim.c, remote)
    ensures var es := [Accept(h, remote), Acquire(h), Identify(h, s.phases[g].cn)] + [Lookup(h), Kick(h)]
                      + [Unregister(g), Unlease(g), CloseDone(g)] + ([Joined(h)] + [Allocate(h), Register(h)]);
      && Runs(caps, s, es)
      && var t := Run(caps, s, es); Registered(t, h) && t.phases[h].cn == s.phases[g].cn && g in t.closed
  {
    var hello := [Accept(h, remote), Acquire(h), Identify(h, s.phases[g].cn)];
    var kick, bye := [Lookup(h), Kick(h)], [Unregister(g), Unlease(g), CloseDone(g)];
    Greeted(caps, s, h, remote, s.phases[g].cn);
    RunKeeps(caps, s, hello);
    var t := Run(caps, s, hello);
    Kicked(caps, t, h, g);
    RunConcat(caps, s, hello, kick);
    RunKeeps(caps, s, hello + kick);
    var u := Run(caps, s, hello + kick);
    TornDown(caps, u, g);
    RunConcat(caps, s, hello + kick, bye);
    RunKeeps(caps, s, hello + kick + bye);
    JoinedAndEnrolled(caps, Run(caps, s, hello + kick + bye), h);
    RunConcat(caps, s, hello + kick + bye, [Joined(h)] + [Allocate(h), Register(h)]);
  }

  // ------------------------------------------------------------ getting out

  /** An event of handler `h` itself, not of a timer or the operator. */
  predicate Own(e: Event, h: Handler) {
    !e.Fire? && !e.Tick? && !e.Shutdown? && e.h == h
  }

  /** Something `h` can do by itself, wherever it stands. */
  function NextMove(p: Phase, h: Handler): Event {
    match p
    case Accepted(_) => Acquire(h)
    case Handshaking => FailHandshake(h)
    case Identified(_) => Lookup(h)
    case Kicking(_, _) => Kick(h)
    case Joining(_, _) => JoinTimeout(h)
    case Admitting(_) => Allocate(h)
    case Holding(_, _) => Register(h)
    case Serving(_, _) => Unregister(h)
    case Unlisted(_, _) => Unlease(h)
    case Unleased(_, _) => CloseDone(h)
    case Leaving(_) => ReleaseSlot(h, false)
    case Gone => Shutdown
  }

  function MovesLeft(p: Phase): nat {
    match p
    case Accepted(_) => 11
    case Handshaking => 10
    case Identified(_) => 9
    case Kicking(_, _) => 8
    case Joining(_, _) => 7
    case Admitting(_) => 6
    case Holding(_, _) => 5
    case Serving(_, _) => 4
    case Unlisted(_, _) => 3
    case Unleased(_, _) => 2
    case Leaving(_) => 1
    case Gone => 0
  }

  lemma MovesOn(caps: L.Caps, s: State, h: Handler)
    requires SlotsMatch(s) && h in s.phases && !s.phases[h].Gone?
    ensures var e := NextMove(s.phases[h], h);
      && Own(e, h) && Enabled(caps, s, e)
      && h in Step(caps, s, e).phases && MovesLeft(Step(caps, s, e).phases[h]) < MovesLeft(s.phases[h])
  {
  }

  /** No handler needs another one to get out: wherever it stands, waiting included,
      its own moves alone take it to its end, slot and address given back. */
  lemma {:induction false} GetsOutAlone(caps: L.Caps, s: State, h: Handler) returns (es: seq<Event>)
    requires Inv(caps, s) && h in s.phases
    ensures Runs(caps, s, es) && forall e :: e in es ==> Own(e, h)
    ensures var t := Run(caps, s, es);
      && Inv(caps, t) && h in t.phases && t.phases[h].Gone?
      && h !in t.lim.live && forall cn :: !HoldsFor(t.phases, h, cn)
    decreases MovesLeft(if h in s.phases then s.phases[h] else Gone)
  {
    if s.phases[h].Gone? {
      es := [];
    } else {
      MovesOn(caps, s, h);
      var e := NextMove(s.phases[h], h);
      StepKeeps(caps, s, e);
      var rest := GetsOutAlone(caps, Step(caps, s, e), h);
      es := [e] + rest;
      assert es[1..] == rest;
    }
  }
}
