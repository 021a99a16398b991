/** internal/ca: issuing client certificates, the issuance ledger, and the
    vpn-ca operations that revoke and un-revoke a name. Certificates are (name,
    serial) pairs; every file write is atomic, and an operation may stop before
    any of its writes. */
module Ca {
  import opened Base
  import opened Revoke

  datatype Issued = Issued(name: string, serial: Serial)

  /** The CA directory on disk: issued.json, revoked.json and the per-client key
      and certificate files. A key file is identified by the serial of the
      certificate it was generated for. */
  datatype Dir = Dir(
    ledger: seq<Issued>,
    revoked: seq<Entry>,
    keys: map<string, Serial>,
    certs: map<string, Serial>)

  const EMPTY_DIR := Dir([], [], map[], map[])

  /** A name that filepath.Base leaves alone: it cannot leave clients/. */
  predicate ValidName(name: string) {
    name != "" && name != "." && name != ".." && ('/' !in name || name == "/")
  }

  /** What the revoke and unrevoke commands accept: a backslash is refused too. */
  predicate PlainName(name: string) {
    name != "" && name != "." && name != ".." && '/' !in name && '\\' !in name
  }

  /** The serials of `name` in the ledger, oldest first, each once. */
  function SerialsIn(ledger: seq<Issued>, name: string): seq<Serial> {
    if ledger == [] then []
    else
      var earlier := SerialsIn(ledger[..|ledger| - 1], name);
      var last := ledger[|ledger| - 1];
      if last.name != name || last.serial in earlier then earlier else earlier + [last.serial]
  }

  datatype Lookup = InvalidName | NoSuchClient | Serials(list: seq<Serial>)

  /** ClientSerials: the ledger's serials, or failing that the certificate on
      disk. */
  function ClientSerials(d: Dir, name: string): Lookup {
    if !ValidName(name) then InvalidName
    else if SerialsIn(d.ledger, name) != [] then Serials(SerialsIn(d.ledger, name))
    else if name in d.certs then Serials([d.certs[name]])
    else NoSuchClient
  }

  /** Adds the serials to the deny-list one by one, stopping at a failed write. */
  function DenyAll(list: seq<Entry>, left: nat, serials: seq<Serial>, name: string, now: int)
    : (seq<Entry>, nat, bool)
    decreases |serials|
  {
    if serials == [] then (list, left, true)
    else
      var (list', left', ok) := Added(list, left, serials[0], name, now);
      if ok then DenyAll(list', left', serials[1..], name, now) else (list', left', false)
  }

  /** revokeSuperseded: a name never issued has nothing to supersede. */
  function RevokeSuperseded(d: Dir, left: nat, name: string, now: int): (Dir, nat, bool) {
    match ClientSerials(d, name)
    case InvalidName => (d, left, false)
    case NoSuchClient => (d, left, true)
    case Serials(list) =>
      var (revoked, left', ok) := DenyAll(d.revoked, left, list, name, now);
      (d.(revoked := revoked), left', ok)
  }

  /** IssueClient with `left` more writes before it stops: deny what it
      supersedes, record, write the key, write the certificate. */
  function IssueClient(d: Dir, left: nat, name: string, serial: Serial, now: int): (Dir, nat, bool) {
    if !ValidName(name) then (d, left, false)
    else
      var (d1, n, ok) := RevokeSuperseded(d, left, name, now);
      if !ok then (d1, n, false)
      else if n == 0 then (d1, 0, false)
      else
        var d2 := d1.(ledger := d1.ledger + [Issued(name, serial)]);
        if n == 1 then (d2, 0, false)
        else
          var d3 := d2.(keys := d2.keys[name := serial]);
          if n == 2 then (d3, 0, false)
          else (d3.(certs := d3.certs[name := serial]), n - 3, true)
  }

  /** `vpn-ca revoke -name`: every serial ever issued to the name. */
  function RevokeName(d: Dir, left: nat, name: string, now: int): (Dir, nat, bool) {
    match if PlainName(name) then ClientSerials(d, name) else InvalidName
    case InvalidName => (d, left, false)
    case NoSuchClient => (d, left, false)
    case Serials(list) =>
      var (revoked, left', ok) := DenyAll(d.revoked, left, list, name, now);
      (d.(revoked := revoked), left', ok)
  }

  /** `vpn-ca unrevoke -name`: the certificate currently on disk, no other. */
  function UnrevokeName(d: Dir, left: nat, name: string): (Dir, nat, bool) {
    if !PlainName(name) || name !in d.certs then (d, left, false)
    else
      var (revoked, left', ok) := RemovedSerial(d.revoked, left, d.certs[name]);
      (d.(revoked := revoked), left', ok)
  }

  class Authority {
    const disk: Disk
    const store: Store
    var ledger: seq<Issued>
    var keys: map<string, Serial>
    var certs: map<string, Serial>

    constructor (disk: Disk, store: Store)
      requires store.disk == disk && store.list == []
      ensures this.disk == disk && this.store == store && State() == EMPTY_DIR
    {
      this.disk, this.store := disk, store;
      ledger, keys, certs := [], map[], map[];
    }

    ghost predicate Valid()
      reads this
    {
      store.disk == disk
    }

    function State(): Dir
      reads this, store
    {
      Dir(ledger, store.list, keys, certs)
    }

    method Serials(name: string) returns (r: Lookup)
      ensures r == ClientSerials(State(), name)
    {
      if !ValidName(name) {
        return InvalidName;
      }
      var serials: seq<Serial> := [];
      var seen: set<Serial> := {};
      for i := 0 to |ledger|
        invariant serials == SerialsIn(ledger[..i], name)
        invariant forall s :: s in seen <==> s in serials
      {
        assert ledger[..i + 1][..i] == ledger[..i];
        if ledger[i].name == name && ledger[i].serial !in seen {
          seen := seen + {ledger[i].serial};
          serials := serials + [ledger[i].serial];
        }
      }
      assert ledger[..|ledger|] == ledger;
      if |serials| > 0 {
        return Lookup.Serials(serials);
      }
      if name in certs {
        return Lookup.Serials([certs[name]]);
      }
      return NoSuchClient;
    }

    method AppendIssued(name: string, serial: Serial) returns (ok: bool)
      requires Valid()
      modifies this`ledger, disk
      ensures ok == (old(disk.left) > 0)
      ensures disk.left == if ok then old(disk.left) - 1 else old(disk.left)
      ensures ledger == if ok then old(ledger) + [Issued(name, serial)] else old(ledger)
    {
      ok := disk.Commit();
      if ok {
        ledger := ledger + [Issued(name, serial)];
      }
    }

    method Deny(serials: seq<Serial>, name: string, now: int) returns (ok: bool)
      requires Valid()
      modifies store, disk
      ensures (store.list, disk.left, ok) == DenyAll(old(store.list), old(disk.left), serials, name, now)
    {
      for i := 0 to |serials|
        invariant DenyAll(store.list, disk.left, serials[i..], name, now) ==
                  DenyAll(old(store.list), old(disk.left), serials, name, now)
      {
        var _, done := store.Add(serials[i], name, now);
        if !done {
          return false;
        }
      }
      return true;
    }

    method Supersede(name: string, now: int) returns (ok: bool)
      requires Valid()
      modifies store, disk
      ensures (State(), disk.left, ok) == RevokeSuperseded(old(State()), old(disk.left), name, now)
    {
      var prior := Serials(name);
      match prior {
        case InvalidName => ok := false;
        case NoSuchClient => ok := true;
        case Serials(list) => ok := Deny(list, name, now);
      }
    }

    method Issue(name: string, serial: Serial, now: int) returns (ok: bool)
      requires Valid()
      modifies this`ledger, this`keys, this`certs, store, disk
      ensures (State(), disk.left, ok) == IssueClient(old(State()), old(disk.left), name, serial, now)
    {
      if !ValidName(name) {
        return false;
      }
      ok := Supersede(name, now);
      if !ok {
        return;
      }
      ok := AppendIssued(name, serial);
      if !ok {
        return;
      }
      ok := disk.Commit();
      if !ok {
        return;
      }
      keys := keys[name := serial];
      ok := disk.Commit();
      if ok {
        certs := certs[name := serial];
      }
    }

    method Revoke(name: string, now: int) returns (ok: bool)
      requires Valid()
      modifies store, disk
      ensures (State(), disk.left, ok) == RevokeName(old(State()), old(disk.left), name, now)
    {
      if !PlainName(name) {
        return false;
      }
      var serials := Serials(name);
      match serials {
        case InvalidName => ok := false;
        case NoSuchClient => ok := false;
        case Serials(list) => ok := Deny(list, name, now);
      }
    }

    method Unrevoke(name: string) returns (ok: bool)
      requires Valid()
      modifies store, disk
      ensures (State(), disk.left, ok) == UnrevokeName(old(State()), old(disk.left), name)
    {
      if !PlainName(name) || name !in certs {
        return false;
      }
      var _, done := store.RemoveSerial(certs[name]);
      ok := done;
    }
  }

  // ------------------------------------------------------------------ runs

  /** The directory, and every certificate ever written to it. */
  datatype World = World(dir: Dir, written: set<Issued>)

  /** `left` is how far the operation gets: it may stop before any write. */
  datatype Event =
    | Issue(name: string, serial: Serial, now: int, left: nat)
    | Revoke(name: string, now: int, left: nat)
    | Unrevoke(name: string, left: nat)

  /** Serials are drawn fresh. */
  predicate Enabled(w: World, e: Event) {
    e.Issue? ==>
      && (forall i :: 0 <= i < |w.dir.ledger| ==> w.dir.ledger[i].serial != e.serial)
      && (forall i :: 0 <= i < |w.dir.revoked| ==> w.dir.revoked[i].serial != e.serial)
  }

  function After(d: Dir, e: Event): (Dir, nat, bool) {
    match e
    case Issue(name, serial, now, left) => IssueClient(d, left, name, serial, now)
    case Revoke(name, now, left) => RevokeName(d, left, name, now)
    case Unrevoke(name, left) => UnrevokeName(d, left, name)
  }

  function Step(w: World, e: Event): World {
    var d := After(w.dir, e).0;
    World(d, w.written + set n | n in d.certs :: Issued(n, d.certs[n]))
  }

  predicate Runs(w: World, es: seq<Event>)
    decreases |es|
  {
    es == [] || (Enabled(w, es[0]) && Runs(Step(w, es[0]), es[1..]))
  }

  function Run(w: World, es: seq<Event>): World
    decreases |es|
  {
    if es == [] then w else Run(Step(w, es[0]), es[1..])
  }

  const EMPTY := World(EMPTY_DIR, {})

  ghost predicate Current(d: Dir, c: Issued) {
    c.name in d.certs && d.certs[c.name] == c.serial
  }

  ghost predicate Inv(w: World) {
    && (forall c :: c in w.written ==> c in w.dir.ledger)
    && (forall c :: c in w.written ==> Current(w.dir, c) || Denied(w.dir.revoked, c.serial))
    && (forall n :: n in w.dir.certs ==> Issued(n, w.dir.certs[n]) in w.written)
    && (forall c, d :: c in w.dir.ledger && d in w.dir.ledger && c.serial == d.serial ==> c.name == d.name)
  }

  lemma {:induction false} SerialsInMeaning(ledger: seq<Issued>, name: string)
    ensures forall s :: s in SerialsIn(ledger, name) <==> Issued(name, s) in ledger
    ensures forall i, j :: 0 <= i < j < |SerialsIn(ledger, name)| ==>
                             SerialsIn(ledger, name)[i] != SerialsIn(ledger, name)[j]
  {
    if ledger != [] {
      var front, last := ledger[..|ledger| - 1], ledger[|ledger| - 1];
      SerialsInMeaning(front, name);
      assert ledger == front + [last];
    }
  }

  /** A complete pass denies every serial given; a partial one denies a prefix.
      Nothing is ever taken off the list. */
  lemma {:induction false} DenyAllMeaning(list: seq<Entry>, left: nat, serials: seq<Serial>, name: string, now: int)
    ensures var (list', left', ok) := DenyAll(list, left, serials, name, now);
      && (forall s :: Denied(list, s) ==> Denied(list', s))
      && (forall s :: Denied(list', s) ==> Denied(list, s) || s in serials)
      && (ok ==> forall s :: s in serials ==> Denied(list', s))
    decreases |serials|
  {
    if serials != [] {
      AddMeaning(list, left, serials[0], name, now);
      var (list1, left1, ok) := Added(list, left, serials[0], name, now);
      if ok {
        DenyAllMeaning(list1, left1, serials[1..], name, now);
      }
    }
  }

  /** What every prefix of revokeSuperseded leaves alone, and what the whole of
      it achieves: every ledger serial of the name is denied. */
  lemma SupersedeMeaning(d: Dir, left: nat, name: string, now: int)
    requires ValidName(name)
    ensures var (d', left', ok) := RevokeSuperseded(d, left, name, now);
      && d' == d.(revoked := d'.revoked)
      && (forall s :: Denied(d.revoked, s) ==> Denied(d'.revoked, s))
      && (forall s :: Denied(d'.revoked, s) ==>
            Denied(d.revoked, s) || Issued(name, s) in d.ledger || Current(d, Issued(name, s)))
      && (ok ==> forall s :: Issued(name, s) in d.ledger ==> Denied(d'.revoked, s))
  {
    SerialsInMeaning(d.ledger, name);
    var found := ClientSerials(d, name);
    if found.Serials? {
      DenyAllMeaning(d.revoked, left, found.list, name, now);
    } else {
      assert forall s :: s !in SerialsIn(d.ledger, name);
    }
  }

  /** The stages an issue can stop at: the certificate is written only after the
      ledger entry, and that only after everything superseded is denied. */
  lemma IssueStages(d: Dir, left: nat, name: string, serial: Serial, now: int)
    requires ValidName(name)
    ensures var (d', _, ok) := IssueClient(d, left, name, serial, now);
      var (d1, _, denied) := RevokeSuperseded(d, left, name, now);
      && d'.revoked == d1.revoked
      && (d'.ledger == d.ledger || (denied && d'.ledger == d.ledger + [Issued(name, serial)]))
      && (d'.certs == d.certs ||
          (denied && d'.ledger == d.ledger + [Issued(name, serial)] && d'.certs == d.certs[name := serial]))
      && (ok ==> d'.certs == d.certs[name := serial] && denied && d'.ledger == d.ledger + [Issued(name, serial)])
  {
    SupersedeMeaning(d, left, name, now);
  }

  /** Whatever an issue supersedes is denied before the certificate is replaced. */
  lemma IssueDenies(w: World, e: Event, c: Issued)
    requires Inv(w) && e.Issue? && ValidName(e.name) && c in w.written
    ensures var d' := After(w.dir, e).0; Current(d', c) || Denied(d'.revoked, c.serial)
  {
    IssueStages(w.dir, e.left, e.name, e.serial, e.now);
    SupersedeMeaning(w.dir, e.left, e.name, e.now);
    if Current(w.dir, c) && c.name == e.name {
      assert Issued(e.name, c.serial) == c;
    }
  }

  lemma IssueLedger(w: World, e: Event)
    requires Inv(w) && e.Issue? && ValidName(e.name) && Enabled(w, e)
    ensures var d' := After(w.dir, e).0;
      forall c, d :: c in d'.ledger && d in d'.ledger && c.serial == d.serial ==> c.name == d.name
  {
    IssueStages(w.dir, e.left, e.name, e.serial, e.now);
    var d' := After(w.dir, e).0;
    assert forall c :: c in d'.ledger ==> c in w.dir.ledger || c == Issued(e.name, e.serial);
    assert forall c :: c in w.dir.ledger ==> c.serial != e.serial;
  }

  lemma IssueKeeps(w: World, e: Event)
    requires Inv(w) && e.Issue? && Enabled(w, e)
    ensures Inv(Step(w, e))
  {
    if ValidName(e.name) {
      var w', minted := Step(w, e), Issued(e.name, e.serial);
      IssueStages(w.dir, e.left, e.name, e.serial, e.now);
      IssueLedger(w, e);
      forall c | c in w'.written ensures c in w.written || (c == minted && Current(w'.dir, c)) {}
      forall c | c in w.written ensures Current(w'.dir, c) || Denied(w'.dir.revoked, c.serial) {
        IssueDenies(w, e, c);
      }
    }
  }

  lemma RevokeKeeps(w: World, e: Event)
    requires Inv(w) && e.Revoke? && Enabled(w, e)
    ensures Inv(Step(w, e))
  {
    var found := ClientSerials(w.dir, e.name);
    if PlainName(e.name) && found.Serials? {
      DenyAllMeaning(w.dir.revoked, e.left, found.list, e.name, e.now);
    }
  }

  lemma UnrevokeKeeps(w: World, e: Event)
    requires Inv(w) && e.Unrevoke? && Enabled(w, e)
    ensures Inv(Step(w, e))
  {
    if e.name in w.dir.certs {
      RemoveSerialMeaning(w.dir.revoked, e.left, w.dir.certs[e.name]);
    }
  }

  lemma StepKeeps(w: World, e: Event)
    requires Inv(w) && Enabled(w, e)
    ensures Inv(Step(w, e))
  {
    match e
    case Issue(_, _, _, _) => IssueKeeps(w, e);
    case Revoke(_, _, _) => RevokeKeeps(w, e);
    case Unrevoke(_, _) => UnrevokeKeeps(w, e);
  }

  lemma {:induction false} RunKeeps(w: World, es: seq<Event>)
    requires Inv(w) && Runs(w, es)
    ensures Inv(Run(w, es))
    decreases |es|
  {
    if es != [] {
      StepKeeps(w, es[0]);
      RunKeeps(Step(w, es[0]), es[1..]);
    }
  }

  /** Over any sequence of issues, revocations and un-revocations, each of which
      may stop before any of its writes: every certificate ever written has its
      serial in the ledger, and every one that is not its name's current
      certificate is on the deny-list, so that a name has at most one live
      certificate at any time. */
  lemma OneLiveCertificatePerName(es: seq<Event>)
    requires Runs(EMPTY, es)
    ensures var w := Run(EMPTY, es);
      && (forall c :: c in w.written ==> c in w.dir.ledger)
      && (forall c :: c in w.written && !Current(w.dir, c) ==> Denied(w.dir.revoked, c.serial))
      && (forall c, d ::
            (c in w.written && d in w.written && c.name == d.name
             && !Denied(w.dir.revoked, c.serial) && !Denied(w.dir.revoked, d.serial)) ==> c == d)
  {
    RunKeeps(EMPTY, es);
  }

  /** A revoke-by-name that runs to completion leaves no certificate of that name
      off the deny-list, superseded ones included. */
  lemma RevokeReachesAll(es: seq<Event>, name: string, now: int, left: nat)
    requires Runs(EMPTY, es)
    requires RevokeName(Run(EMPTY, es).dir, left, name, now).2
    ensures var w := Step(Run(EMPTY, es), Revoke(name, now, left));
      forall c :: c in w.written && c.name == name ==> Denied(w.dir.revoked, c.serial)
  {
    RunKeeps(EMPTY, es);
    var w := Run(EMPTY, es);
    SerialsInMeaning(w.dir.ledger, name);
    DenyAllMeaning(w.dir.revoked, left, ClientSerials(w.dir, name).list, name, now);
    forall c | c in w.written && c.name == name ensures c.serial in SerialsIn(w.dir.ledger, name) {
      assert Issued(name, c.serial) == c;
    }
  }

  /** An un-revoke restores the current certificate and nothing superseded. */
  lemma UnrevokeOnlyCurrent(w: World, name: string, serial: Serial, n: nat)
    requires Inv(w) && Current(w.dir, Issued(name, serial))
    ensures var w' := Step(w, Unrevoke(name, n));
      forall c :: c in w'.written && c.name == name && c.serial != serial ==> Denied(w'.dir.revoked, c.serial)
  {
    UnrevokeKeeps(w, Unrevoke(name, n));
  }

  lemma IssueCompletes(w: World, name: string, serial: Serial, now: int, left: nat)
    requires Inv(w) && Enabled(w, Issue(name, serial, now, left)) && IssueClient(w.dir, left, name, serial, now).2
    ensures var w' := Step(w, Issue(name, serial, now, left));
      Inv(w') && Current(w'.dir, Issued(name, serial)) && !Denied(w'.dir.revoked, serial)
  {
    IssueKeeps(w, Issue(name, serial, now, left));
    IssueStages(w.dir, left, name, serial, now);
    SupersedeMeaning(w.dir, left, name, now);
    assert forall s :: Issued(name, s) in w.dir.ledger ==> s != serial;
    assert name in w.dir.certs ==> Issued(name, w.dir.certs[name]) in w.written;
  }

  /** A completed issue makes its certificate the name's only live one; an
      un-revoke restores exactly the current certificate and nothing superseded. */
  lemma IssueThenUnrevoke(es: seq<Event>, name: string, serial: Serial, now: int, left: nat)
    requires Runs(EMPTY, es) && Enabled(Run(EMPTY, es), Issue(name, serial, now, left))
    requires IssueClient(Run(EMPTY, es).dir, left, name, serial, now).2
    ensures var w := Step(Run(EMPTY, es), Issue(name, serial, now, left));
      && Issued(name, serial) in w.written && Current(w.dir, Issued(name, serial))
      && !Denied(w.dir.revoked, serial)
      && (forall c :: c in w.written && c.name == name && c.serial != serial ==> Denied(w.dir.revoked, c.serial))
      && forall n: nat ::
           var w2 := Step(w, Unrevoke(name, n));
           forall c :: c in w2.written && c.name == name && c.serial != serial ==> Denied(w2.dir.revoked, c.serial)
  {
    RunKeeps(EMPTY, es);
    IssueCompletes(Run(EMPTY, es), name, serial, now, left);
    var w := Step(Run(EMPTY, es), Issue(name, serial, now, left));
    assert Issued(name, w.dir.certs[name]) in w.written;
    forall n: nat ensures
      var w2 := Step(w, Unrevoke(name, n));
      forall c :: c in w2.written && c.name == name && c.serial != serial ==> Denied(w2.dir.revoked, c.serial)
    {
      UnrevokeOnlyCurrent(w, name, serial, n);
    }
  }

  /** A completed issue gives a certificate that is live exactly if its serial was
      not on the deny-list and not one of the name's own: what drawing serials
      fresh is for. */
  lemma LiveExactlyIfSerialUnused(es: seq<Event>, name: string, serial: Serial, now: int, left: nat)
    requires Runs(EMPTY, es) && IssueClient(Run(EMPTY, es).dir, left, name, serial, now).2
    ensures var d := Run(EMPTY, es).dir;
      Denied(IssueClient(d, left, name, serial, now).0.revoked, serial) <==>
        Denied(d.revoked, serial) || Issued(name, serial) in d.ledger
  {
    RunKeeps(EMPTY, es);
    var d := Run(EMPTY, es).dir;
    IssueStages(d, left, name, serial, now);
    SupersedeMeaning(d, left, name, now);
  }

  /** A superseded certificate's serial, drawn again for another name, is denied
      from the start; and un-revoking that name brings the superseded one back. */
  lemma ReusedSerialRevives(es: seq<Event>, c: Issued, name: string, now: int, left: nat, n: nat)
    requires Runs(EMPTY, es) && c in Run(EMPTY, es).written && !Current(Run(EMPTY, es).dir, c) && name != c.name
    requires IssueClient(Run(EMPTY, es).dir, left, name, c.serial, now).2
    requires UnrevokeName(Step(Run(EMPTY, es), Issue(name, c.serial, now, left)).dir, n, name).2
    ensures var w1 := Step(Run(EMPTY, es), Issue(name, c.serial, now, left));
      var w2 := Step(w1, Unrevoke(name, n));
      && Current(w1.dir, Issued(name, c.serial)) && Denied(w1.dir.revoked, c.serial)
      && c in w2.written && !Current(w2.dir, c) && !Denied(w2.dir.revoked, c.serial)
  {
    RunKeeps(EMPTY, es);
    var d := Run(EMPTY, es).dir;
    LiveExactlyIfSerialUnused(es, name, c.serial, now, left);
    IssueStages(d, left, name, c.serial, now);
    var w1 := Step(Run(EMPTY, es), Issue(name, c.serial, now, left));
    RemoveSerialMeaning(w1.dir.revoked, n, c.serial);
  }

  lemma {:induction false} EnoughWrites(list: seq<Entry>, left: nat, serials: seq<Serial>, name: string, now: int)
    requires left >= |serials|
    ensures DenyAll(list, left, serials, name, now).2
    ensures DenyAll(list, left, serials, name, now).1 >= left - |serials|
    decreases |serials|
  {
    if serials != [] {
      var (list', left', _) := Added(list, left, serials[0], name, now);
      EnoughWrites(list', left', serials[1..], name, now);
    }
  }

  lemma {:induction false} NotListed(ledger: seq<Issued>, name: string)
    requires forall s :: Issued(name, s) !in ledger
    ensures SerialsIn(ledger, name) == []
  {
    if ledger != [] {
      var last := ledger[|ledger| - 1];
      NotListed(ledger[..|ledger| - 1], name);
      assert Issued(last.name, last.serial) == last;
    }
  }

  /** A certificate older than the ledger is not forgotten: revoking its name, or
      issuing for it again, denies the one on disk. */
  lemma OldCertificateIsDenied(d: Dir, left: nat, name: string, serial: Serial, now: int)
    requires name in d.certs && forall s :: Issued(name, s) !in d.ledger
    ensures RevokeName(d, left, name, now).2 ==> Denied(RevokeName(d, left, name, now).0.revoked, d.certs[name])
    ensures var (d', _, ok) := IssueClient(d, left, name, serial, now); ok ==> Denied(d'.revoked, d.certs[name])
  {
    NotListed(d.ledger, name);
    DenyAllMeaning(d.revoked, left, [d.certs[name]], name, now);
    assert d.certs[name] in [d.certs[name]];
    if ValidName(name) {
      IssueStages(d, left, name, serial, now);
    }
  }

  ghost predicate Revocable(d: Dir, name: string, now: int) {
    exists left :: RevokeName(d, left, name, now).2
  }

  /** What can be revoked by name at all: a name ever issued, if it is plain. One
      with a slash or a backslash that IssueClient accepts cannot be. */
  lemma RevocableExactlyIfPlain(es: seq<Event>, name: string, now: int)
    requires Runs(EMPTY, es)
    ensures var d := Run(EMPTY, es).dir;
      Revocable(d, name, now) <==>
        && name !in {"", ".", ".."} && '/' !in name && '\\' !in name
        && exists s :: Issued(name, s) in d.ledger
  {
    RunKeeps(EMPTY, es);
    var w := Run(EMPTY, es);
    SerialsInMeaning(w.dir.ledger, name);
    var list := SerialsIn(w.dir.ledger, name);
    if list != [] {
      assert list[0] in list;
      EnoughWrites(w.dir.revoked, |list|, list, name, now);
      assert PlainName(name) ==> RevokeName(w.dir, |list|, name, now).2;
    }
  }

  ghost predicate Issuable(d: Dir, name: string, serial: Serial, now: int) {
    exists left :: IssueClient(d, left, name, serial, now).2
  }

  /** An issue that is not cut short completes for every name that is a single path
      element, the lone slash included, and for no other. */
  lemma IssuableExactlyIf(d: Dir, name: string, serial: Serial, now: int)
    ensures Issuable(d, name, serial, now) <==> name !in {"", ".", ".."} && ('/' !in name || name == "/")
  {
    var found := ClientSerials(d, name);
    var n := if found.Serials? then |found.list| else 0;
    if found.Serials? {
      EnoughWrites(d.revoked, n + 3, found.list, name, now);
    }
    assert ValidName(name) ==> IssueClient(d, n + 3, name, serial, now).2;
  }

  /** An un-revoke with a write left lifts the serial of the certificate on disk,
      whatever was denied before, and nothing else changes. */
  lemma UnrevokeMakesLive(d: Dir, left: nat, name: string)
    requires left > 0 && name in d.certs
    requires name !in {"", ".", ".."} && '/' !in name && '\\' !in name
    ensures var (d', _, ok) := UnrevokeName(d, left, name);
      && ok && d' == d.(revoked := d'.revoked)
      && forall s :: Denied(d'.revoked, s) <==> Denied(d.revoked, s) && s != d.certs[name]
  {
    RemoveSerialMeaning(d.revoked, left, d.certs[name]);
  }

  // --------------------------------------------------- keys and certificates

  lemma {:induction false} RunSnoc(w: World, es: seq<Event>, e: Event)
    ensures Run(w, es + [e]) == Step(Run(w, es), e)
    ensures Runs(w, es + [e]) <==> Runs(w, es) && Enabled(Run(w, es), e)
    decreases |es|
  {
    if es == [] {
      assert (es + [e])[1..] == [];
    } else {
      assert (es + [e])[1..] == es[1..] + [e];
      RunSnoc(Step(w, es[0]), es[1..], e);
    }
  }

  /** The event gets as far as writing the key of `name`. */
  predicate WritesKey(d: Dir, e: Event, name: string) {
    && e.Issue? && e.name == name && ValidName(name)
    && RevokeSuperseded(d, e.left, name, e.now).2 && RevokeSuperseded(d, e.left, name, e.now).1 >= 2
  }

  /** The last issue that wrote the key of `name` wrote its certificate as well. */
  predicate LastKeyHasCert(es: seq<Event>, name: string) {
    if es == [] then true
    else
      var d, e := Run(EMPTY, es[..|es| - 1]).dir, es[|es| - 1];
      if WritesKey(d, e, name) then After(d, e).2 else LastKeyHasCert(es[..|es| - 1], name)
  }

  lemma KeyStage(d: Dir, e: Event, name: string)
    ensures var (d', _, ok) := After(d, e);
      if WritesKey(d, e, name) then
        && name in d'.keys && d'.keys[name] == e.serial
        && (if ok then name in d'.certs && d'.certs[name] == e.serial
            else name in d'.certs <==> name in d.certs)
        && (!ok && name in d.certs ==> d'.certs[name] == d.certs[name])
      else
        && (name in d'.keys <==> name in d.keys) && (name in d.keys ==> d'.keys[name] == d.keys[name])
        && (name in d'.certs <==> name in d.certs) && (name in d.certs ==> d'.certs[name] == d.certs[name])
  {
  }

  /** Over all runs, a certificate on disk has a key beside it; and the key is its
      own exactly if the last issue that wrote the key completed. A re-issue that
      stops between the two leaves the old certificate with the new key. */
  lemma {:induction false} KeyMatchesExactlyIfCompleted(es: seq<Event>, name: string)
    requires Runs(EMPTY, es)
    ensures var d := Run(EMPTY, es).dir;
      name in d.certs ==> name in d.keys && (d.keys[name] == d.certs[name] <==> LastKeyHasCert(es, name))
    decreases |es|
  {
    if es != [] {
      var before, e := es[..|es| - 1], es[|es| - 1];
      assert es == before + [e];
      RunSnoc(EMPTY, before, e);
      KeyMatchesExactlyIfCompleted(before, name);
      RunKeeps(EMPTY, before);
      var w := Run(EMPTY, before);
      KeyStage(w.dir, e, name);
      if name in w.dir.certs {
        assert Issued(name, w.dir.certs[name]) in w.written;
      }
    }
  }

  lemma FirstIssue()
    ensures After(EMPTY_DIR, Issue("a", 1, 0, 10)).0 == Dir([Issued("a", 1)], [], map["a" := 1], map["a" := 1])
  {
    assert SerialsIn([], "a") == [];
  }

  lemma SecondIssueStops()
    ensures After(Dir([Issued("a", 1)], [], map["a" := 1], map["a" := 1]), Issue("a", 2, 0, 3)).0
      == Dir([Issued("a", 1), Issued("a", 2)], [Entry(1, "a", 0)], map["a" := 2], map["a" := 1])
  {
    assert [Issued("a", 1)][..0] == [] && SerialsIn([Issued("a", 1)], "a") == [1];
    var denied := [Entry(1, "a", 0)];
    assert [] + denied == denied && Added([], 3, 1, "a", 0) == (denied, 2, true);
    assert [1][1..] == [] && DenyAll(denied, 2, [], "a", 0) == (denied, 2, true);
    assert DenyAll([], 3, [1], "a", 0) == (denied, 2, true);
    assert map["a" := 1]["a" := 2] == map["a" := 2];
  }

  /** For instance: the "orphan key" of the comment is harmless only at a first
      issue. */
  lemma ReissueOrphansCertificate()
    ensures var es := [Issue("a", 1, 0, 10), Issue("a", 2, 0, 3)];
      var d := Run(EMPTY, es).dir;
      Runs(EMPTY, es) && d.certs == map["a" := 1] && d.keys == map["a" := 2]
  {
    var first, second := Issue("a", 1, 0, 10), Issue("a", 2, 0, 3);
    FirstIssue();
    SecondIssueStops();
    var w1 := Step(EMPTY, first);
    assert [first, second][1..] == [second] && [second][1..] == [];
    assert Runs(w1, [second]) && Run(w1, [second]) == Step(w1, second);
  }
}
