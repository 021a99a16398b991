/** connWriter of internal/tunnel/client/client.go: every producer of the client
    writes to the connection under one lock, because a frame is two writes. */
module ConnWriters {
  import opened Base
  import opened Frames

  /** One Data or Control call, run while the writer's lock is held. The write
      deadline is set first; if that fails nothing is written. */
  method LockedWrite(conn: Conn, p: Packet, deadlineSet: bool) returns (error: Option<WriteError>)
    modifies conn
    ensures error == None ==> deadlineSet && Fits(p) && !conn.broken && conn.wire == old(conn.wire) + Encoded(p)
    ensures error != None ==> conn.wire == old(conn.wire) ||
                              (Fits(p) && conn.broken && exists k ::
                                 0 <= k <= |Encoded(p)| && conn.wire == old(conn.wire) + Encoded(p)[..k])
    ensures deadlineSet && Fits(p) && error != None ==> conn.broken
    ensures !deadlineSet || !Fits(p) || old(conn.broken) ==> error != None && conn.wire == old(conn.wire)
    ensures !deadlineSet || !Fits(p) ==> conn.broken == old(conn.broken)
    ensures deadlineSet && |p.body| <= 65534 && !old(conn.broken) ==> (error == None <==> Holds(old(conn.fate), 2))
  {
    if !deadlineSet {
      return Some(WriteFailed);
    }
    error := WritePacket(conn, p);
    assert error.Some? ==> error.value == FrameTooLarge || error.value == WriteFailed;
  }

  // ------------------------------------------------ interleaved producers

  type Producer = nat

  datatype Phase =
    | Idle
    | Blocked(p: Packet)      // called Data or Control, waiting for the lock
    | Locked(p: Packet)       // holds the lock, deadline set, nothing written
    | HeaderOut(p: Packet)    // holds the lock, header written

  /** A frame of which `k` octets are on the wire but whose call has not
      returned success. */
  datatype Tail = Tail(p: Packet, k: nat)

  datatype State = State(
    phases: map<Producer, Phase>,
    lock: Option<Producer>,
    wire: Bytes,
    broken: bool,
    completed: seq<Packet>,   // calls that returned success, in lock order
    tail: Option<Tail>)

  datatype Event =
    | Call(t: Producer, p: Packet)
    | Lock(t: Producer, deadlineSet: bool)
    | WriteHeader(t: Producer, survives: Option<nat>)   // Some(k): fails after k octets
    | WriteBody(t: Producer, survives: Option<nat>)

  const START := State(map[], None, [], false, [], None)

  predicate Enabled(s: State, e: Event) {
    match e
    case Call(t, p) => t in s.phases ==> s.phases[t].Idle?
    case Lock(t, _) => t in s.phases && s.phases[t].Blocked? && s.lock == None
    case WriteHeader(t, survives) =>
      && t in s.phases && s.phases[t].Locked? && s.lock == Some(t)
      && (survives.Some? ==> survives.value <= 2)
    case WriteBody(t, survives) =>
      && t in s.phases && s.phases[t].HeaderOut? && s.lock == Some(t)
      && (survives.Some? ==> survives.value <= |Payload(s.phases[t].p)|)
  }

  function Unlock(s: State, t: Producer): State {
    s.(phases := s.phases[t := Idle], lock := None)
  }

  function Step(s: State, e: Event): State
    requires Enabled(s, e)
  {
    match e
    case Call(t, p) => s.(phases := s.phases[t := Blocked(p)])
    case Lock(t, deadlineSet) =>
      var p := s.phases[t].p;
      if deadlineSet && Fits(p) then s.(phases := s.phases[t := Locked(p)], lock := Some(t))
      else s.(phases := s.phases[t := Idle])
    case WriteHeader(t, survives) =>
      var p := s.phases[t].p;
      if s.broken || !Fits(p) then Unlock(s, t)
      else
        var header := Header(|Payload(p)|);
        (match survives
         case Some(k) => Unlock(s, t).(wire := s.wire + header[..k], broken := true, tail := Some(Tail(p, k)))
         case None => s.(phases := s.phases[t := HeaderOut(p)], wire := s.wire + header, tail := Some(Tail(p, 2))))
    case WriteBody(t, survives) =>
      var p := s.phases[t].p;
      match survives
      case Some(k) =>
        Unlock(s, t).(wire := s.wire + Payload(p)[..k], broken := true, tail := Some(Tail(p, 2 + k)))
      case None =>
        Unlock(s, t).(wire := s.wire + Payload(p), completed := s.completed + [p], tail := None)
  }

  predicate Runs(s: State, es: seq<Event>)
    decreases |es|
  {
    es == [] || (Enabled(s, es[0]) && Runs(Step(s, es[0]), es[1..]))
  }

  function Run(s: State, es: seq<Event>): State
    requires Runs(s, es)
    decreases |es|
  {
    if es == [] then s else Run(Step(s, es[0]), es[1..])
  }

  lemma RunCons(s: State, e: Event, es: seq<Event>)
    requires Enabled(s, e) && Runs(Step(s, e), es)
    ensures Runs(s, [e] + es) && Run(s, [e] + es) == Run(Step(s, e), es)
  {
    assert ([e] + es)[1..] == es;
  }

  /** Up to three steps spelled out. */
  lemma RunOfThree(s: State, e: Event, f: Event, g: Event)
    requires Enabled(s, e) && Enabled(Step(s, e), f)
    ensures Runs(s, [e, f]) && Run(s, [e, f]) == Step(Step(s, e), f)
    ensures Enabled(Step(Step(s, e), f), g) ==>
              Runs(s, [e, f, g]) && Run(s, [e, f, g]) == Step(Step(Step(s, e), f), g)
  {
    var s1, s2 := Step(s, e), Step(Step(s, e), f);
    assert [f] + [] == [f] && [e] + [f] == [e, f] && [g] + [] == [g];
    assert [f] + [g] == [f, g] && [e] + [f, g] == [e, f, g];
    RunCons(s1, f, []);
    RunCons(s, e, [f]);
    if Enabled(s2, g) {
      RunCons(s2, g, []);
      RunCons(s1, f, [g]);
      RunCons(s, e, [f, g]);
    }
  }

  /** A failed write of a frame is a failed header or a failed body. */
  ghost method TornRun(s: State, t: Producer, p: Packet, wire: Bytes) returns (es: seq<Event>)
    requires t in s.phases && s.phases[t] == Blocked(p) && s.lock == None && !s.broken && Fits(p)
    requires exists k :: 0 <= k <= |Encoded(p)| && wire == s.wire + Encoded(p)[..k]
    ensures Runs(s, es)
    ensures var s' := Run(s, es);
      && s'.wire == wire && s'.broken && s'.lock == None && s'.phases == s.phases[t := Idle]
      && s'.completed == s.completed
  {
    var k :| 0 <= k <= |Encoded(p)| && wire == s.wire + Encoded(p)[..k];
    var lock, header := Lock(t, true), Header(|Payload(p)|);
    if k <= 2 {
      RunOfThree(s, lock, WriteHeader(t, Some(k)), lock);
      es := [lock, WriteHeader(t, Some(k))];
      assert Encoded(p)[..k] == header[..k];
    } else {
      var body := WriteBody(t, Some(k - 2));
      RunOfThree(s, lock, WriteHeader(t, None), body);
      es := [lock, WriteHeader(t, None), body];
      assert (s.wire + header) + Payload(p)[..k - 2] == s.wire + Encoded(p)[..k];
    }
  }

  /** A producer that was blocked and gets the lock: its LockedWrite is a run of its
      own steps, without anyone in between. */
  method LockedCall(conn: Conn, ghost s: State, t: Producer, p: Packet, deadlineSet: bool)
    returns (error: Option<WriteError>, ghost es: seq<Event>)
    requires t in s.phases && s.phases[t] == Blocked(p) && s.lock == None
    requires conn.wire == s.wire && conn.broken == s.broken
    modifies conn
    ensures Runs(s, es)
    ensures var s' := Run(s, es);
      && conn.wire == s'.wire && conn.broken == s'.broken
      && s'.lock == None && s'.phases == s.phases[t := Idle]
      && s'.completed == if error == None then s.completed + [p] else s.completed
  {
    ghost var lock, header := Lock(t, deadlineSet), WriteHeader(t, None);
    error := LockedWrite(conn, p, deadlineSet);
    if !deadlineSet || !Fits(p) {
      es := [lock];
      assert es[1..] == [];
      return;
    }
    RunOfThree(s, lock, header, WriteBody(t, None));
    assert Encoded(p)[..2] == Header(|Payload(p)|);
    if s.broken {
      es := [lock, header];
    } else if error == None {
      es := [lock, header, WriteBody(t, None)];
      assert (s.wire + Header(|Payload(p)|)) + Payload(p) == s.wire + Encoded(p);
    } else {
      assert s.wire + Encoded(p)[..0] == s.wire;
      es := TornRun(s, t, p, conn.wire);
    }
  }

  ghost predicate Inv(s: State) {
    && AllFit(s.completed)
    && (s.tail.Some? ==> Fits(s.tail.value.p) && s.tail.value.k <= |Encoded(s.tail.value.p)|)
    && s.wire == EncodedAll(s.completed) +
                 (if s.tail.None? then [] else Encoded(s.tail.value.p)[..s.tail.value.k])
    && (forall t :: t in s.phases && (s.phases[t].Locked? || s.phases[t].HeaderOut?) ==>
          s.lock == Some(t) && Fits(s.phases[t].p))
    && (s.lock == None || (s.lock.value in s.phases &&
          (s.phases[s.lock.value].Locked? || s.phases[s.lock.value].HeaderOut?)))
    && (s.broken <==> s.tail.Some? && !(s.lock.Some? && s.phases[s.lock.value].HeaderOut?))
    && (s.lock.Some? && s.phases[s.lock.value].HeaderOut? ==> s.tail == Some(Tail(s.phases[s.lock.value].p, 2)))
  }

  lemma HeaderKeeps(s: State, e: Event)
    requires Inv(s) && e.WriteHeader? && Enabled(s, e)
    ensures Inv(Step(s, e))
  {
    var p := s.phases[e.t].p;
    var header := Header(|Payload(p)|);
    var k := if e.survives.Some? then e.survives.value else 2;
    assert Encoded(p)[..k] == header[..k] && header[..2] == header;
  }

  lemma BodyTorn(s: State, t: Producer, k: nat)
    requires Inv(s) && Enabled(s, WriteBody(t, Some(k)))
    ensures Inv(Step(s, WriteBody(t, Some(k))))
  {
    var p := s.phases[t].p;
    var header := Header(|Payload(p)|);
    assert Encoded(p)[..2] == header;
    assert (EncodedAll(s.completed) + header) + Payload(p)[..k] == EncodedAll(s.completed) + Encoded(p)[..2 + k];
  }

  lemma BodyWhole(s: State, t: Producer)
    requires Inv(s) && Enabled(s, WriteBody(t, None))
    ensures Inv(Step(s, WriteBody(t, None)))
  {
    var p := s.phases[t].p;
    var header := Header(|Payload(p)|);
    assert Encoded(p)[..2] == header;
    EncodedAllSnoc(s.completed, p);
    assert (EncodedAll(s.completed) + header) + Payload(p) == EncodedAll(s.completed) + Encoded(p);
  }

  lemma StepKeeps(s: State, e: Event)
    requires Inv(s) && Enabled(s, e)
    ensures Inv(Step(s, e))
  {
    match e
    case Call(t, p) =>
    case Lock(t, _) =>
    case WriteHeader(t, _) => HeaderKeeps(s, e);
    case WriteBody(t, survives) => if survives.Some? { BodyTorn(s, t, survives.value); } else { BodyWhole(s, t); }
  }

  lemma {:induction false} RunKeeps(s: State, es: seq<Event>)
    requires Inv(s) && Runs(s, es)
    ensures Inv(Run(s, es))
    decreases |es|
  {
    if es != [] {
      StepKeeps(s, es[0]);
      RunKeeps(Step(s, es[0]), es[1..]);
    }
  }

  /** Completed packets followed by the first `k` octets of one more. */
  lemma ReadAllOfTorn(ps: seq<Packet>, p: Packet, k: nat, wire: Bytes)
    requires AllFit(ps) && Fits(p) && k <= |Encoded(p)|
    requires wire == EncodedAll(ps) + Encoded(p)[..k]
    ensures ReadAll(wire).0 == if k == |Encoded(p)| then ps + [p] else ps
    ensures ReadAll(wire).1 == EOF <==> k == 0 || k == |Encoded(p)|
  {
    ReadAllAfter(ps, Encoded(p)[..k]);
    if k == |Encoded(p)| {
      ReadNext(p, []);
      assert Encoded(p)[..k] == Encoded(p) + [] && [p] + [] == [p];
    } else {
      ReadPartial(p, k);
      assert ps + [] == ps;
    }
  }

  /** For every interleaving of producers on a fail-stop connection the wire reads
      back as exactly the calls that returned success, in lock order, plus at most
      one frame whose call did not: torn, or delivered whole but reported as
      failed. While nothing is torn or in progress the stream ends cleanly. */
  lemma WireDecodes(es: seq<Event>)
    requires Runs(START, es)
    ensures var s := Run(START, es);
      var (got, e) := ReadAll(s.wire);
      && (got == s.completed ||
          (s.tail.Some? && got == s.completed + [s.tail.value.p]))
      && (!s.broken && s.lock == None ==> got == s.completed && e == EOF)
  {
    RunKeeps(START, es);
    var s := Run(START, es);
    if s.tail.Some? {
      ReadAllOfTorn(s.completed, s.tail.value.p, s.tail.value.k, s.wire);
    } else {
      assert s.wire == EncodedAll(s.completed);
      RoundTrip(s.completed);
    }
  }

  /** Why the lock is there: two producers whose writes interleave corrupt the
      stream, and the reader recovers neither packet. */
  lemma WithoutTheLock()
    ensures var a, b := Packet(Data, [1]), Packet(Control, [2, 3]);
      var wire := Header(2) + Header(3) + Payload(a) + Payload(b);
      ReadAll(wire) == ([], UnknownType(0))
  {
    var a, b := Packet(Data, [1]), Packet(Control, [2, 3]);
    var wire := Header(2) + Header(3) + Payload(a) + Payload(b);
    assert wire == [0, 2, 0, 3, 2, 1, 1, 2, 3];
    assert wire[..2] == [0, 2];
    assert wire[2..][..2] == [0, 3];
  }
}
