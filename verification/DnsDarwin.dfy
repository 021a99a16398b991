/** internal/dns/dns_darwin.go: pointing every network service at the tunnel's
    resolvers, with a marker on disk that outlives a crash. */
module DnsDarwin {
  import opened Base

  /** `bareIP` is what net.ParseIP says of the text: a link-local resolver with a
      zone, for one, is not a bare address. */
  datatype Resolver = Resolver(text: string, bareIP: bool)

  type Settings = map<string, seq<Resolver>>

  function ValidIPs(list: seq<Resolver>): seq<Resolver> {
    if list == [] then [] else (if list[0].bareIP then [list[0]] else []) + ValidIPs(list[1..])
  }

  predicate Bare(list: seq<Resolver>) { forall r :: r in list ==> r.bareIP }

  lemma {:induction false} ValidIPsKeepsExactlyBare(list: seq<Resolver>)
    ensures ValidIPs(list) == list <==> Bare(list)
    ensures |ValidIPs(list)| <= |list|
  {
    if list != [] {
      ValidIPsKeepsExactlyBare(list[1..]);
      if list[0].bareIP {
        assert ValidIPs(list)[1..] == ValidIPs(list[1..]);
        assert list == [list[0]] + list[1..];
      } else {
        assert |ValidIPs(list)| < |list|;
      }
    }
  }

  /** The filter goes entry by entry: it keeps a bare address where it stands and
      drops anything else. */
  lemma {:induction false} ValidIPsSplits(a: seq<Resolver>, r: Resolver, b: seq<Resolver>)
    ensures ValidIPs(a + [r] + b) == ValidIPs(a) + (if r.bareIP then [r] else []) + ValidIPs(b)
  {
    if a == [] {
      assert (a + [r] + b)[0] == r && (a + [r] + b)[1..] == b;
    } else {
      assert (a + [r] + b)[0] == a[0] && (a + [r] + b)[1..] == a[1..] + [r] + b;
      ValidIPsSplits(a[1..], r, b);
    }
  }

  lemma {:induction false} ValidIPsTwice(list: seq<Resolver>)
    ensures ValidIPs(ValidIPs(list)) == ValidIPs(list)
  {
    if list != [] {
      ValidIPsTwice(list[1..]);
      var kept, rest := ValidIPs(list), ValidIPs(list[1..]);
      if list[0].bareIP {
        assert kept[0] == list[0] && kept[1..] == rest;
        assert ValidIPs(kept) == [list[0]] + ValidIPs(rest);
      } else {
        assert kept == rest;
      }
    }
  }

  datatype Phase =
    | Idle
    | Snapped
    | Applied
    | Restoring(todo: set<string>, clean: bool)
    | Reconciling(todo: set<string>, clean: bool)

  /** The host's settings and the marker on disk; the runner's memory. */
  datatype State = State(services: Settings, marker: Option<Settings>, saved: Option<Settings>, phase: Phase)

  /** One write, or a crash. `took` says whether a command had its effect, `ok`
      what it reported: one that reports success took, one that fails may have. */
  datatype Event =
    | Snapshot(svcs: set<string>)
    | WriteMarker(ok: bool)
    | Set(svc: string, servers: seq<Resolver>, took: bool)
    | BeginRestore
    | Unset(svc: string, ok: bool, took: bool)
    | EndRestore(dropped: bool)
    | BeginReconcile
    | Reset(svc: string, ok: bool, took: bool)
    | EndReconcile(dropped: bool)
    | Crash

  predicate Enabled(s: State, e: Event) {
    match e
    case Snapshot(svcs) => s.phase.Idle? && svcs != {} && svcs <= s.services.Keys
    case WriteMarker(_) => s.phase.Snapped? && s.saved.Some?
    case Set(svc, _, _) => s.phase.Applied? && s.saved.Some? && svc in s.saved.value
    case BeginRestore => s.phase.Applied? && s.saved.Some?
    case Unset(svc, ok, took) =>
      s.phase.Restoring? && s.saved.Some? && svc in s.phase.todo && svc in s.saved.value && (ok ==> took)
    case EndRestore(_) => s.phase.Restoring? && s.phase.todo == {}
    case BeginReconcile => s.phase.Idle? && s.marker.Some?
    case Reset(svc, ok, took) =>
      s.phase.Reconciling? && s.marker.Some? && svc in s.phase.todo && svc in s.marker.value && (ok ==> took)
    case EndReconcile(_) => s.phase.Reconciling? && s.phase.todo == {}
    case Crash => true
  }

  function Taken(services: Settings, svcs: set<string>): Settings {
    map svc | svc in svcs && svc in services :: services[svc]
  }

  function Step(s: State, e: Event): State
    requires Enabled(s, e)
  {
    match e
    case Snapshot(svcs) => s.(saved := Some(Taken(s.services, svcs)), phase := Snapped)
    case WriteMarker(ok) => s.(marker := if ok then s.saved else s.marker, phase := Applied)
    case Set(svc, servers, took) => if took then s.(services := s.services[svc := servers]) else s
    case BeginRestore => s.(phase := Restoring(s.saved.value.Keys, true))
    case Unset(svc, ok, took) =>
      s.(services := if took then s.services[svc := s.saved.value[svc]] else s.services,
         phase := Restoring(s.phase.todo - {svc}, s.phase.clean && ok))
    case EndRestore(dropped) =>
      s.(marker := if s.phase.clean && dropped then None else s.marker, saved := None, phase := Idle)
    case BeginReconcile => s.(phase := Reconciling(s.marker.value.Keys, true))
    case Reset(svc, ok, took) =>
      s.(services := if took then s.services[svc := ValidIPs(s.marker.value[svc])] else s.services,
         phase := Reconciling(s.phase.todo - {svc}, s.phase.clean && ok))
    case EndReconcile(dropped) =>
      s.(marker := if s.phase.clean && dropped then None else s.marker, phase := Idle)
    case Crash => s.(saved := None, phase := Idle)
  }

  /** A host and everything that has happened to it since. */
  datatype History = Start(first: State) | Then(past: History, e: Event)

  predicate Lawful(h: History)
    decreases h, 0
  {
    h.Then? ==> Lawful(h.past) && Enabled(Now(h.past), h.e)
  }

  function Now(h: History): State
    requires Lawful(h)
    decreases h, 1
  {
    match h
    case Start(s) => s
    case Then(past, e) => Step(Now(past), e)
  }

  lemma NowThen(h: History, e: Event)
    requires Lawful(h) && Enabled(Now(h), e)
    ensures Lawful(Then(h, e)) && Now(Then(h, e)) == Step(Now(h), e)
  {
  }

  // ------------------------------------------------------------ the runner

  /** `values` written over `services`, except where the write failed. */
  function Put(services: Settings, values: Settings, fails: set<string>): Settings {
    map svc | svc in services :: if svc in values && svc !in fails then values[svc] else services[svc]
  }

  lemma PutOne(services: Settings, values: Settings, fails: set<string>, todo: set<string>, svc: string)
    requires svc in todo && svc in values && svc in services
    ensures var before := Put(services, values, fails + todo);
      var after := Put(services, values, fails + (todo - {svc}));
      after == if svc in fails then before else before[svc := values[svc]]
  {
  }

  /** The named services pointed at `servers`. */
  function Pointed(services: Settings, svcs: seq<string>, servers: seq<Resolver>): Settings {
    map svc | svc in services :: if svc in svcs then servers else services[svc]
  }

  lemma TakenIs(services: Settings, svcs: seq<string>)
    requires forall svc :: svc in svcs ==> svc in services
    ensures Taken(services, set svc | svc in svcs) == map svc | svc in svcs :: services[svc]
  {
  }

  lemma PointedNext(services: Settings, svcs: seq<string>, i: nat, servers: seq<Resolver>)
    requires i < |svcs| && svcs[i] in services
    ensures Pointed(services, svcs[..i + 1], servers) == Pointed(services, svcs[..i], servers)[svcs[i] := servers]
    ensures forall svc :: svc in svcs[..i + 1] <==> svc in svcs[..i] || svc == svcs[i]
  {
    assert svcs[..i + 1] == svcs[..i] + [svcs[i]];
  }

  function Filtered(m: Settings): Settings { map svc | svc in m :: ValidIPs(m[svc]) }

  /** Writing the originals back undoes any change confined to their services,
      where the write succeeds. */
  lemma PutBack(was: Settings, now: Settings, snap: Settings, fails: set<string>)
    requires now.Keys == was.Keys && snap.Keys <= was.Keys
    requires forall svc :: svc in snap ==> snap[svc] == was[svc]
    requires forall svc :: svc in was && svc !in snap ==> now[svc] == was[svc]
    ensures Put(now, snap, fails).Keys == was.Keys
    ensures forall svc :: svc in was && !(svc in snap && svc in fails) ==> Put(now, snap, fails)[svc] == was[svc]
  {
  }

  class Runner {
    var services: Settings
    var marker: Option<Settings>
    var saved: Option<Settings>
    ghost var phase: Phase
    ghost var history: History

    ghost function Abstract(): State
      reads this
    {
      State(services, marker, saved, phase)
    }

    /** What the object holds is what its history has made of it. */
    ghost predicate Faithful()
      reads this
    {
      Lawful(history) && Now(history) == Abstract()
    }

    ghost predicate Valid()
      reads this
    {
      && Faithful()
      && phase == (if saved.Some? then Applied else Idle)
      && (saved.Some? ==> saved.value.Keys <= services.Keys)
      && (marker.Some? ==> marker.value.Keys <= services.Keys)
    }

    constructor (services: Settings, marker: Option<Settings>)
      requires marker.Some? ==> marker.value.Keys <= services.Keys
      ensures Valid() && Abstract() == State(services, marker, None, Idle) && history == Start(Abstract())
    {
      this.services, this.marker, saved, phase := services, marker, None, Idle;
      history := Start(State(services, marker, None, Idle));
    }

    /** One setDNS call: `fails` is the set of services it fails for. */
    method SetDNS(svc: string, servers: seq<Resolver>, fails: set<string>) returns (ok: bool)
      modifies this`services
      ensures ok <==> svc !in fails
      ensures services == if ok then old(services)[svc := servers] else old(services)
    {
      ok := svc !in fails;
      if ok {
        services := services[svc := servers];
      }
    }

    /** Reads every service's list before any is changed. */
    method Snap(svcs: seq<string>) returns (snap: Settings)
      requires forall svc :: svc in svcs ==> svc in services
      ensures snap == Taken(services, set svc | svc in svcs)
    {
      snap := map[];
      for i := 0 to |svcs|
        invariant snap == Taken(services, set svc | svc in svcs[..i])
      {
        assert svcs[i] in svcs;
        snap := snap[svcs[i] := services[svcs[i]]];
        assert svcs[..i + 1] == svcs[..i] + [svcs[i]];
      }
      assert svcs[..|svcs|] == svcs;
    }

    method PointOne(svc: string, servers: seq<Resolver>, fails: set<string>) returns (good: bool)
      requires Valid() && saved.Some? && svc in saved.value
      modifies this`services, this`history
      ensures Valid() && good == (svc !in fails)
      ensures services == if good then old(services)[svc := servers] else old(services)
    {
      good := SetDNS(svc, servers, fails);
      history := Then(history, Set(svc, servers, good));
    }

    /** Points the services at `servers`, up to the first failure. */
    method PointAt(svcs: seq<string>, servers: seq<Resolver>, fails: set<string>) returns (ok: bool)
      requires Valid() && saved.Some? && forall svc :: svc in svcs ==> svc in saved.value
      modifies this`services, this`history
      ensures Valid()
      ensures ok <==> forall svc :: svc in svcs ==> svc !in fails
      ensures ok ==> services == Pointed(old(services), svcs, servers)
      ensures services.Keys == old(services.Keys)
      ensures forall svc :: svc in services && svc !in svcs ==> services[svc] == old(services)[svc]
    {
      for i := 0 to |svcs|
        invariant Valid()
        invariant services == Pointed(old(services), svcs[..i], servers)
        invariant forall svc :: svc in svcs[..i] ==> svc !in fails
      {
        assert svcs[i] in svcs;
        PointedNext(old(services), svcs, i, servers);
        var good := PointOne(svcs[i], servers, fails);
        if !good {
          return false;
        }
      }
      assert svcs[..|svcs|] == svcs;
      return true;
    }

    /** Remembers every service's list and writes the marker before any changes. */
    method Mark(svcs: seq<string>, markerOk: bool)
      requires Valid() && saved.None? && svcs != [] && forall svc :: svc in svcs ==> svc in services
      modifies this`saved, this`marker, this`phase, this`history
      ensures Valid() && saved == Some(Taken(services, set svc | svc in svcs))
      ensures marker == if markerOk then saved else old(marker)
    {
      ghost var names := set svc | svc in svcs;
      assert svcs[0] in names;
      var snap := Snap(svcs);
      saved, phase, history := Some(snap), Snapped, Then(history, Snapshot(names));
      assert Faithful();
      marker := if markerOk then saved else marker;
      phase, history := Applied, Then(history, WriteMarker(markerOk));
    }

    /** `fails` and `undoFails` are the services whose command fails here and in the
        Restore that follows a failure; `dropOk` says whether that could delete the
        marker. */
    method Apply(svcs: seq<string>, servers: seq<Resolver>, readable: bool, markerOk: bool,
                 fails: set<string>, undoFails: set<string>, dropOk: bool)
      returns (ok: bool)
      requires Valid() && saved.None?
      requires forall svc :: svc in svcs ==> svc in services
      modifies this
      ensures Valid()
      ensures ok <==> svcs != [] && readable && forall svc :: svc in svcs ==> svc !in fails
      ensures ok ==> saved == Some(map svc | svc in svcs :: old(services)[svc])
      ensures ok ==> marker == if markerOk then saved else old(marker)
      ensures ok ==> services == map svc | svc in old(services) :: if svc in svcs then servers else old(services)[svc]
      ensures !ok ==> saved.None?
      ensures !ok && (svcs == [] || !readable) ==> history == old(history)
      ensures !ok ==> services.Keys == old(services.Keys)
      ensures !ok ==>
        forall svc :: svc in services && !(svc in svcs && svc in undoFails) ==> services[svc] == old(services)[svc]
      ensures !ok && svcs != [] && readable ==>
        marker == if dropOk && forall svc :: svc in svcs ==> svc !in undoFails then None
                  else if markerOk then Some(Taken(old(services), set svc | svc in svcs)) else old(marker)
    {
      if |svcs| == 0 || !readable {
        return false;
      }
      TakenIs(services, svcs);
      Mark(svcs, markerOk);
      ok := PointAt(svcs, servers, fails);
      if !ok {
        Undo(old(services), undoFails, dropOk);
      }
    }

    /** Puts one service back, from memory or from the marker. */
    method Revert(svc: string, list: seq<Resolver>, fails: set<string>) returns (good: bool)
      requires Faithful() && (phase.Restoring? || phase.Reconciling?) && svc in phase.todo
      requires phase.Restoring? ==> saved.Some? && svc in saved.value && list == saved.value[svc]
      requires phase.Reconciling? ==> marker.Some? && svc in marker.value && list == ValidIPs(marker.value[svc])
      modifies this`services, this`history, this`phase
      ensures Faithful()
      ensures good <==> svc !in fails
      ensures services == if good then old(services)[svc := list] else old(services)
      ensures phase == old(phase).(todo := old(phase).todo - {svc}, clean := old(phase).clean && good)
    {
      good := SetDNS(svc, list, fails);
      history := Then(history, if phase.Restoring? then Unset(svc, good, good) else Reset(svc, good, good));
      phase := phase.(todo := phase.todo - {svc}, clean := phase.clean && good);
    }

    /** Puts every service back, going on after a failure. */
    method PutAll(values: Settings, fails: set<string>) returns (ok: bool)
      requires Faithful() && values.Keys <= services.Keys
      requires (phase.Restoring? || phase.Reconciling?) && phase.todo == values.Keys && phase.clean
      requires phase.Restoring? ==> saved == Some(values)
      requires phase.Reconciling? ==> marker.Some? && values == Filtered(marker.value)
      modifies this`services, this`history, this`phase
      ensures Faithful()
      ensures services == Put(old(services), values, fails)
      ensures ok <==> values.Keys !! fails
      ensures phase == old(phase).(todo := {}, clean := ok)
    {
      ok := true;
      var todo := values.Keys;
      assert Put(services, values, fails + todo) == services;
      while todo != {}
        invariant todo <= values.Keys && Faithful()
        invariant phase == old(phase).(todo := todo, clean := ok)
        invariant services == Put(old(services), values, fails + todo)
        invariant ok <==> (values.Keys - todo) !! fails
      {
        var svc :| svc in todo;
        PutOne(old(services), values, fails, todo, svc);
        var good := Revert(svc, values[svc], fails);
        todo, ok := todo - {svc}, ok && good;
      }
      assert fails + todo == fails;
    }

    method Restore(fails: set<string>, dropOk: bool) returns (ok: bool)
      requires Valid()
      modifies this
      ensures Valid() && saved.None?
      ensures old(saved).None? ==> ok && services == old(services) && marker == old(marker)
      ensures old(saved).Some? ==> services == Put(old(services), old(saved).value, fails)
      ensures old(saved).Some? ==> (ok <==> old(saved).value.Keys !! fails)
      ensures old(saved).Some? ==> marker == if ok && dropOk then None else old(marker)
    {
      if saved.None? {
        return true;
      }
      var originals := saved.value;
      phase, history := Restoring(originals.Keys, true), Then(history, BeginRestore);
      ok := PutAll(originals, fails);
      saved, phase, history := None, Idle, Then(history, EndRestore(dropOk));
      if ok && dropOk {
        marker := None;
      }
    }

    /** The Restore after a failed Apply: `was` is what the services were before. */
    method Undo(ghost was: Settings, fails: set<string>, dropOk: bool)
      requires Valid() && saved.Some? && services.Keys == was.Keys
      requires forall svc :: svc in saved.value ==> saved.value[svc] == was[svc]
      requires forall svc :: svc in was && svc !in saved.value ==> services[svc] == was[svc]
      modifies this
      ensures Valid() && saved.None? && services.Keys == was.Keys
      ensures forall svc :: svc in was && !(svc in old(saved).value && svc in fails) ==> services[svc] == was[svc]
      ensures marker == if old(saved).value.Keys !! fails && dropOk then None else old(marker)
    {
      PutBack(was, services, saved.value, fails);
      var _ := Restore(fails, dropOk);
    }

    /** `readable` says whether a marker that is there could be read and parsed. */
    method Reconcile(readable: bool, fails: set<string>, dropOk: bool) returns (ok: bool)
      requires Valid() && saved.None?
      modifies this
      ensures Valid() && saved.None?
      ensures old(marker).None? ==> ok && services == old(services) && marker.None?
      ensures old(marker).Some? && !readable ==> !ok && Abstract() == old(Abstract())
      ensures old(marker).Some? && readable ==> services == Put(old(services), Filtered(old(marker).value), fails)
      ensures old(marker).Some? && readable ==> (ok <==> old(marker).value.Keys !! fails)
      ensures old(marker).Some? && readable ==> marker == if ok && dropOk then None else old(marker)
    {
      if marker.None? {
        return true;
      }
      if !readable {
        return false;
      }
      var recorded := marker.value;
      phase, history := Reconciling(recorded.Keys, true), Then(history, BeginReconcile);
      ok := PutAll(Filtered(recorded), fails);
      phase, history := Idle, Then(history, EndReconcile(dropOk));
      if ok && dropOk {
        marker := None;
      }
    }
  }

  // ------------------------------------------------------ crash safety

  /** What a fully successful Reconcile makes of the host. */
  function Recovered(s: State): Settings {
    if s.marker.None? then s.services else Put(s.services, Filtered(s.marker.value), {})
  }

  /** `list` is the original `orig`; or, where `strict` is off, what a recovery
      makes of it. */
  predicate Kept(list: seq<Resolver>, orig: seq<Resolver>, strict: bool) {
    list == orig || (!strict && list == ValidIPs(orig))
  }

  predicate Agrees(m: Settings, orig: Settings, strict: bool) {
    forall svc :: svc in m ==> svc in orig && Kept(m[svc], orig[svc], strict)
  }

  /** Every service that is not as it was is in the marker, with its original. */
  predicate Covered(s: State, orig: Settings, strict: bool) {
    && s.services.Keys == orig.Keys
    && (s.marker.Some? ==> Agrees(s.marker.value, orig, strict))
    && forall svc :: svc in orig && !(s.marker.Some? && svc in s.marker.value) ==>
                       Kept(s.services[svc], orig[svc], strict)
  }

  /** Every service not waiting in `todo` is as it was. */
  predicate DoneBut(s: State, orig: Settings, todo: set<string>, strict: bool) {
    forall svc :: svc in orig && svc !in todo ==> svc in s.services && Kept(s.services[svc], orig[svc], strict)
  }

  /** What the runner remembers and how far it has come. */
  predicate PhaseInv(s: State, orig: Settings, strict: bool) {
    match s.phase
    case Idle => true
    case Snapped => s.saved.Some? && Agrees(s.saved.value, orig, strict) && s.marker.None?
    case Applied => s.saved.Some? && s.marker == s.saved
    case Restoring(todo, clean) =>
      s.saved.Some? && s.marker == s.saved && (clean ==> DoneBut(s, orig, todo, strict))
    case Reconciling(todo, clean) => s.marker.Some? && (clean ==> DoneBut(s, orig, todo, strict))
  }

  predicate Inv(s: State, orig: Settings, strict: bool) {
    Covered(s, orig, strict) && PhaseInv(s, orig, strict)
  }

  /** What the guarantee asks of the surroundings: a session starts with no marker
      pending, and its marker gets written. */
  predicate Careful(s: State, e: Event) {
    && (e.Snapshot? ==> s.marker.None?)
    && (e.WriteMarker? ==> e.ok)
  }

  predicate CarefulHistory(h: History)
    requires Lawful(h)
  {
    h.Then? ==> Careful(Now(h.past), h.e) && CarefulHistory(h.past)
  }

  predicate NeverReconciled(h: History) {
    h.Then? ==> !h.e.Reset? && NeverReconciled(h.past)
  }

  predicate AllBare(orig: Settings) { forall svc :: svc in orig ==> Bare(orig[svc]) }

  /** A host as its owner set it up, before the first session. */
  predicate FromClean(h: History, orig: Settings) {
    if h.Start? then h.first == State(orig, None, None, Idle) else FromClean(h.past, orig)
  }

  lemma StepKeeps(s: State, e: Event, orig: Settings, strict: bool)
    requires Inv(s, orig, strict) && Enabled(s, e) && Careful(s, e)
    requires e.Reset? && strict ==> AllBare(orig)
    ensures Inv(Step(s, e), orig, strict)
  {
    match e
    case Reset(svc, _, _) =>
      ValidIPsKeepsExactlyBare(orig[svc]);
      ValidIPsTwice(orig[svc]);
    case _ =>
  }

  lemma {:induction false} HistoryKeeps(h: History, orig: Settings, strict: bool)
    requires Lawful(h) && FromClean(h, orig) && CarefulHistory(h)
    requires strict ==> AllBare(orig) || NeverReconciled(h)
    ensures Inv(Now(h), orig, strict)
  {
    if h.Then? {
      HistoryKeeps(h.past, orig, strict);
      StepKeeps(Now(h.past), h.e, orig, strict);
    }
  }

  /** Whatever happens, and wherever it stops, a service that is not back to its
      original is in the marker with that original: in particular a Restore that
      failed in part leaves the marker that covers the services it stranded. */
  lemma StrandedIsCovered(h: History, orig: Settings, svc: string)
    requires Lawful(h) && FromClean(h, orig) && CarefulHistory(h) && svc in orig
    requires AllBare(orig) || NeverReconciled(h)
    ensures var s := Now(h);
      && svc in s.services
      && (s.services[svc] == orig[svc] || (s.marker.Some? && svc in s.marker.value && s.marker.value[svc] == orig[svc]))
  {
    HistoryKeeps(h, orig, true);
  }

  lemma RecoveredAt(s: State, orig: Settings, svc: string)
    requires Covered(s, orig, true) && svc in orig
    ensures Recovered(s).Keys == orig.Keys
    ensures Recovered(s)[svc] == orig[svc] <==> (s.marker.Some? && svc in s.marker.value ==> Bare(orig[svc]))
  {
    ValidIPsKeepsExactlyBare(orig[svc]);
    if s.marker.Some? && svc in s.marker.value {
      assert Filtered(s.marker.value)[svc] == ValidIPs(orig[svc]);
    }
  }

  lemma RecoveredIffBare(s: State, orig: Settings)
    requires Covered(s, orig, true)
    ensures Recovered(s) == orig <==>
      (s.marker.Some? ==> forall svc :: svc in s.marker.value ==> svc in orig && Bare(orig[svc]))
  {
    forall svc | svc in orig
      ensures Recovered(s).Keys == orig.Keys
      ensures Recovered(s)[svc] == orig[svc] <==> (s.marker.Some? && svc in s.marker.value ==> Bare(orig[svc]))
    {
      RecoveredAt(s, orig, svc);
    }
  }

  /** A crash after any step of a session, then a fully successful Reconcile, gives
      back every service's original resolvers: exactly when each list the marker
      holds consists of bare addresses. */
  lemma CrashIsRecoverable(h: History, orig: Settings)
    requires Lawful(h) && FromClean(h, orig) && CarefulHistory(h) && NeverReconciled(h)
    ensures var s := Step(Now(h), Crash);
      Recovered(s) == orig <==>
        (s.marker.Some? ==> forall svc :: svc in s.marker.value ==> svc in orig && Bare(orig[svc]))
  {
    HistoryKeeps(h, orig, true);
    RecoveredIffBare(Step(Now(h), Crash), orig);
  }

  /** A link-local resolver with a zone is one the filter drops: a crash between the
      marker and the first change already loses it. */
  lemma ZonedResolverIsLost()
    ensures var orig: Settings := map["Wi-Fi" := [Resolver("fe80::1%en0", false)]];
      var h := Then(Then(Start(State(orig, None, None, Idle)), Snapshot({"Wi-Fi"})), WriteMarker(true));
      Lawful(h) && Recovered(Step(Now(h), Crash)) == map["Wi-Fi" := []]
  {
    var orig: Settings := map["Wi-Fi" := [Resolver("fe80::1%en0", false)]];
    var s := State(orig, None, None, Idle);
    assert Now(Start(s)) == s;
    var h1 := Then(Start(s), Snapshot({"Wi-Fi"}));
    assert Lawful(h1) && Now(h1) == s.(saved := Some(Taken(orig, {"Wi-Fi"})), phase := Snapped);
    assert Taken(orig, {"Wi-Fi"}) == orig;
    assert ValidIPs(orig["Wi-Fi"]) == [];
  }

  /** With bare addresses everywhere, that is every history, over any number of
      sessions, crashes and recoveries that fail half way. */
  lemma BareHostsAlwaysRecover(h: History, orig: Settings)
    requires Lawful(h) && FromClean(h, orig) && CarefulHistory(h) && AllBare(orig)
    ensures Recovered(Step(Now(h), Crash)) == orig
  {
    HistoryKeeps(h, orig, true);
    RecoveredIffBare(Step(Now(h), Crash), orig);
  }

  /** On any host, over any number of sessions, crashes and recoveries: a service
      comes back with its original list or with just the bare addresses of it, so
      the entries that survive are the bare ones, all of them and in order. */
  lemma BareEntriesSurvive(h: History, orig: Settings, svc: string)
    requires Lawful(h) && FromClean(h, orig) && CarefulHistory(h) && svc in orig
    ensures var got := Recovered(Step(Now(h), Crash));
      && svc in got && (got[svc] == orig[svc] || got[svc] == ValidIPs(orig[svc]))
      && ValidIPs(got[svc]) == ValidIPs(orig[svc])
  {
    HistoryKeeps(h, orig, false);
    ValidIPsTwice(orig[svc]);
    var s := Step(Now(h), Crash);
    if s.marker.Some? && svc in s.marker.value {
      assert Filtered(s.marker.value)[svc] == ValidIPs(s.marker.value[svc]);
    }
  }

  /** An Apply over a marker that is still pending (a Restore that failed in part,
      then the next session) replaces it by what the host has now: the originals
      survive exactly when nothing was stranded. */
  lemma ApplyOverPendingMarker(s: State, orig: Settings)
    requires Covered(s, orig, true) && s.phase.Idle? && s.services != map[] && AllBare(s.services)
    ensures var h := Then(Then(Start(s), Snapshot(s.services.Keys)), WriteMarker(true));
      Lawful(h) && (Recovered(Step(Now(h), Crash)) == orig <==> s.services == orig)
  {
    var svc :| svc in s.services;
    assert svc in s.services.Keys;
    assert Now(Start(s)) == s;
    var h1 := Then(Start(s), Snapshot(s.services.Keys));
    assert Lawful(h1);
    var t := Step(Step(Now(h1), WriteMarker(true)), Crash);
    assert t.marker == Some(s.services) by {
      assert Taken(s.services, s.services.Keys) == s.services;
    }
    RecoveredIffBare(t, s.services);
  }

  /** Without the marker, a crash after `svc` was pointed at the tunnel loses its
      original, unless that happened to be the same list. */
  lemma UnmarkedApply(orig: Settings, svc: string, servers: seq<Resolver>)
    requires svc in orig
    ensures var h := Then(Then(Then(Start(State(orig, None, None, Idle)),
                            Snapshot(orig.Keys)), WriteMarker(false)), Set(svc, servers, true));
      Lawful(h) && (Recovered(Step(Now(h), Crash)) == orig <==> servers == orig[svc])
  {
    assert Now(Start(State(orig, None, None, Idle))) == State(orig, None, None, Idle);
    var h1 := Then(Start(State(orig, None, None, Idle)), Snapshot(orig.Keys));
    assert svc in orig.Keys && Lawful(h1);
    assert Now(h1) == State(orig, None, Some(Taken(orig, orig.Keys)), Snapped);
    var h2 := Then(h1, WriteMarker(false));
    assert Lawful(h2) && Now(h2) == State(orig, None, Some(Taken(orig, orig.Keys)), Applied);
    var t := Step(Step(Now(h2), Set(svc, servers, true)), Crash);
    assert t.services == orig[svc := servers] && t.marker.None?;
  }
}
