/** internal/dns/dns_linux.go, file mode: rewriting resolv.conf, with a backup
    beside it that outlives a crash. Every rewrite is a rename, so it happens
    whole or not at all. */
module DnsLinux {
  import opened Base

  datatype Conf = Absent | Link(target: string) | File(data: string)

  /** The backup on disk and the runner's memory have the same three parts. */
  datatype Snapshot = Snapshot(existed: bool, link: string, data: string)

  const BLANK := Snapshot(false, "", "")

  /** A symbolic link cannot have an empty target. */
  predicate Real(c: Conf) { c.Link? ==> c.target != "" }

  /** What a snapshot stands for. */
  function Meant(b: Snapshot): Conf {
    if !b.existed then Absent else if b.link != "" then Link(b.link) else File(b.data)
  }

  /** Memory after looking at `c`: the parts that do not apply keep what they held. */
  function Seen(memory: Snapshot, c: Conf): Snapshot {
    match c
    case Absent => memory.(existed := false)
    case Link(target) => memory.(existed := true, link := target)
    case File(data) => memory.(existed := true, data := data)
  }

  /** A snapshot stands for the file it was taken of exactly if no older link was
      left in memory when that file was a regular one: a runner's second Apply
      brings back the link its first one saw. */
  lemma SnapshotIsFaithful(memory: Snapshot, c: Conf)
    requires Real(c)
    ensures Meant(Seen(memory, c)) == c <==> (c.File? ==> memory.link == "")
  {
  }

  /** Memory after one look after another. */
  function SeenAll(memory: Snapshot, looks: seq<Conf>): Snapshot {
    if looks == [] then memory else Seen(SeenAll(memory, looks[..|looks| - 1]), looks[|looks| - 1])
  }

  /** The last link among the looks. */
  function LastLink(looks: seq<Conf>): string {
    if looks == [] then ""
    else
      var last := looks[|looks| - 1];
      if last.Link? then last.target else LastLink(looks[..|looks| - 1])
  }

  lemma {:induction false} LinkIsKept(looks: seq<Conf>)
    ensures SeenAll(BLANK, looks).link == LastLink(looks)
  {
    if looks != [] {
      LinkIsKept(looks[..|looks| - 1]);
    }
  }

  /** What a regular file is brought back as by a runner that has looked before:
      the last link it ever saw, even if the file was gone or regular since, and
      itself only if it never saw one. */
  lemma LastLinkWins(looks: seq<Conf>, data: string)
    ensures Meant(SeenAll(BLANK, looks + [File(data)])) ==
      if LastLink(looks) != "" then Link(LastLink(looks)) else File(data)
  {
    assert (looks + [File(data)])[..|looks|] == looks;
    LinkIsKept(looks);
  }

  function Lines(servers: seq<string>): string {
    if servers == [] then "" else "nameserver " + servers[0] + "\n" + Lines(servers[1..])
  }

  function Rendered(servers: seq<string>): string {
    "# Managed by vpn.io while the tunnel is up\n" + Lines(servers)
  }

  lemma {:induction false} LinesNext(servers: seq<string>, server: string)
    ensures Lines(servers + [server]) == Lines(servers) + "nameserver " + server + "\n"
  {
    if servers == [] {
      assert ([] + [server])[1..] == [];
    } else {
      assert (servers + [server])[1..] == servers[1..] + [server];
      LinesNext(servers[1..], server);
    }
  }

  /** One more resolver is one more line at the end, and nothing else moves. */
  lemma {:induction false} RenderedNext(servers: seq<string>, server: string)
    ensures Rendered(servers + [server]) == Rendered(servers) + "nameserver " + server + "\n"
  {
    LinesNext(servers, server);
  }

  /** `Live` is mode "file" with something to restore; `Returned` is Restore between
      its write and its deferred removal of the backup; `Rewound` is Reconcile
      between the same two. */
  datatype Phase = Idle | Taken | Backed | Live | Returned(ok: bool) | Rewound

  /** The file and its backup, and the runner's memory. */
  datatype State = State(conf: Conf, backup: Option<Snapshot>, memory: Snapshot, phase: Phase)

  /** One disk operation, or a crash. `HostEdits` is the owner changing the file
      between sessions. */
  datatype Event =
    | Take
    | WriteBackup(ok: bool)
    | WriteConf(servers: seq<string>, ok: bool)
    | PutBack(ok: bool)
    | DropBackup(ok: bool)
    | Rewind
    | DropRewound(ok: bool)
    | Crash
    | HostEdits(conf: Conf)

  predicate Enabled(s: State, e: Event) {
    match e
    case Take => s.phase.Idle?
    case WriteBackup(_) => s.phase.Taken?
    case WriteConf(_, _) => s.phase.Backed?
    case PutBack(_) => s.phase.Live?
    case DropBackup(_) => s.phase.Returned?
    case Rewind => s.phase.Idle? && s.backup.Some?
    case DropRewound(_) => s.phase.Rewound?
    case Crash => true
    case HostEdits(c) => s.phase.Idle? && Real(c)
  }

  function Step(s: State, e: Event): State
    requires Enabled(s, e)
  {
    match e
    case Take => s.(memory := Seen(s.memory, s.conf), phase := Taken)
    case WriteBackup(ok) => s.(backup := if ok then Some(s.memory) else s.backup, phase := Backed)
    case WriteConf(servers, ok) =>
      if ok then s.(conf := File(Rendered(servers)), phase := Live) else s.(phase := Idle)
    case PutBack(ok) => s.(conf := if ok then Meant(s.memory) else s.conf, phase := Returned(ok))
    case DropBackup(ok) => s.(backup := if ok then None else s.backup, phase := if s.phase.ok then Idle else Live)
    case Rewind => s.(conf := Meant(s.backup.value), phase := Rewound)
    case DropRewound(ok) => s.(backup := if ok then None else s.backup, phase := Idle)
    case Crash => s.(memory := BLANK, phase := Idle)
    case HostEdits(c) => s.(conf := c)
  }

  datatype History = Start(first: State) | Then(past: History, e: Event)

  predicate Lawful(h: History)
    decreases h, 0
  {
    h.Then? ==> Lawful(h.past) && Enabled(Now(h.past), h.e)
  }

  function Now(h: History): State
    requires Lawful(h)
    decreases h, 1
  {
    match h
    case Start(s) => s
    case Then(past, e) => Step(Now(past), e)
  }

  lemma NowThen(h: History, e: Event)
    requires Lawful(h) && Enabled(Now(h), e)
    ensures Lawful(Then(h, e)) && Now(Then(h, e)) == Step(Now(h), e)
  {
  }

  // ------------------------------------------------------------ the runner

  class Runner {
    var conf: Conf
    var backup: Option<Snapshot>
    var hadFile: bool
    var savedLink: string
    var savedData: string
    ghost var phase: Phase
    ghost var history: History

    ghost function Abstract(): State
      reads this
    {
      State(conf, backup, Snapshot(hadFile, savedLink, savedData), phase)
    }

    ghost predicate Valid()
      reads this
    {
      Lawful(history) && Now(history) == Abstract()
    }

    constructor (conf: Conf, backup: Option<Snapshot>)
      ensures Valid() && Abstract() == State(conf, backup, BLANK, Idle) && history == Start(Abstract())
    {
      this.conf, this.backup, hadFile, savedLink, savedData, phase := conf, backup, false, "", "", Idle;
      history := Start(State(conf, backup, BLANK, Idle));
    }

    /** An original that cannot be read stops it before anything is touched. */
    method ApplyResolvConf(servers: seq<string>, readable: bool, backupOk: bool, confOk: bool) returns (ok: bool)
      requires Valid() && phase.Idle?
      modifies this
      ensures Valid() && ok == (readable && confOk) && phase == (if ok then Live else Idle)
      ensures !readable ==> Abstract() == old(Abstract())
      ensures conf == if ok then File(Rendered(servers)) else old(conf)
      ensures readable ==> backup == if backupOk then Some(Seen(old(Abstract()).memory, old(conf))) else old(backup)
      ensures readable ==> Abstract().memory == Seen(old(Abstract()).memory, old(conf))
    {
      if !readable {
        return false;
      }
      match conf {
        case Link(target) => savedLink, hadFile := target, true;
        case File(data) => savedData, hadFile := data, true;
        case Absent => hadFile := false;
      }
      history, phase := Then(history, Take), Taken;
      assert Valid();
      if backupOk {
        backup := Some(Snapshot(hadFile, savedLink, savedData));
      }
      history, phase := Then(history, WriteBackup(backupOk)), Backed;
      assert Valid();
      history := Then(history, WriteConf(servers, confOk));
      if !confOk {
        phase := Idle;
        return false;
      }
      conf, phase := File(Rendered(servers)), Live;
      return true;
    }

    method RestoreResolvConf(confOk: bool, dropOk: bool) returns (ok: bool)
      requires Valid() && phase.Live?
      modifies this
      ensures Valid() && ok == confOk && phase == (if ok then Idle else Live)
      ensures conf == if ok then Meant(old(Abstract()).memory) else old(conf)
      ensures backup == if dropOk then None else old(backup)
    {
      ok := confOk;
      if ok {
        conf := if !hadFile then Absent else if savedLink != "" then Link(savedLink) else File(savedData);
      }
      history, phase := Then(history, PutBack(ok)), Returned(ok);
      assert Valid();
      if dropOk {
        backup := None;
      }
      history, phase := Then(history, DropBackup(dropOk)), if ok then Idle else Live;
    }

    /** `readable` says whether a backup that is there could be read and parsed. */
    method RestoreResolvBackup(readable: bool, confOk: bool, dropOk: bool) returns (restored: bool, ok: bool)
      requires Valid() && phase.Idle?
      modifies this
      ensures Valid() && phase.Idle?
      ensures restored <==> old(backup).Some? && readable && confOk
      ensures ok <==> old(backup).None? || (readable && confOk && dropOk)
      ensures conf == if restored then Meant(old(backup).value) else old(conf)
      ensures backup == if restored && dropOk then None else old(backup)
    {
      if backup.None? {
        return false, true;
      }
      if !readable || !confOk {
        return false, false;
      }
      var b := backup.value;
      conf := if !b.existed then Absent else if b.link != "" then Link(b.link) else File(b.data);
      history, phase := Then(history, Rewind), Rewound;
      assert Valid();
      if dropOk {
        backup := None;
      }
      history, phase := Then(history, DropRewound(dropOk)), Idle;
      return true, dropOk;
    }
  }

  // ------------------------------------------------------ crash safety

  /** What a fully successful Reconcile makes of the file. */
  function Recovered(s: State): Conf {
    if s.backup.None? then s.conf else Meant(s.backup.value)
  }

  /** The file as its owner last left it. */
  function Original(h: History): Conf {
    match h
    case Start(s) => s.conf
    case Then(past, e) => if e.HostEdits? then e.conf else Original(past)
  }

  predicate FromClean(h: History) {
    if h.Start? then h.first == State(h.first.conf, None, BLANK, Idle) && Real(h.first.conf) else FromClean(h.past)
  }

  /** What even a session without a crash needs: it starts, and its owner edits,
      with no backup pending, and the runner holds no link from an earlier session
      on a regular file. */
  predicate Gentle(s: State, e: Event) {
    && (e.Take? ==> s.backup.None? && (s.conf.File? ==> s.memory.link == ""))
    && (e.HostEdits? ==> s.backup.None?)
  }

  /** What crash safety needs besides: the backup is written, and Restore's own
      write succeeds. */
  predicate Careful(s: State, e: Event) {
    && Gentle(s, e)
    && (e.WriteBackup? ==> e.ok)
    && (e.PutBack? ==> e.ok)
  }

  predicate GentleHistory(h: History)
    requires Lawful(h)
  {
    h.Then? ==> !h.e.Crash? && Gentle(Now(h.past), h.e) && GentleHistory(h.past)
  }

  predicate CarefulHistory(h: History)
    requires Lawful(h)
  {
    h.Then? ==> Careful(Now(h.past), h.e) && CarefulHistory(h.past)
  }

  predicate CrashSafe(s: State, orig: Conf) {
    && Real(orig) && Recovered(s) == orig
    && (s.phase.Taken? ==> Meant(s.memory) == orig && s.conf == orig && s.backup.None?)
    && (s.phase.Backed? ==> s.conf == orig)
    && (s.phase.Backed? || s.phase.Live? ==> Meant(s.memory) == orig && s.backup == Some(s.memory))
    && (s.phase.Returned? ==> s.phase.ok && s.conf == orig)
    && (s.phase.Rewound? ==> s.conf == orig)
    && (s.phase.Idle? && s.backup.None? ==> s.conf == orig)
  }

  lemma {:induction false} HistoryIsSafe(h: History)
    requires Lawful(h) && FromClean(h) && CarefulHistory(h)
    ensures CrashSafe(Now(h), Original(h))
  {
    if h.Then? {
      HistoryIsSafe(h.past);
      if h.e.Take? {
        SnapshotIsFaithful(Now(h.past).memory, Now(h.past).conf);
      }
    }
  }

  /** A crash after any step of any history, then a fully successful Reconcile,
      gives back the owner's file: its content, its link, or its absence. */
  lemma CrashIsRecoverable(h: History)
    requires Lawful(h) && FromClean(h) && CarefulHistory(h)
    ensures Recovered(Step(Now(h), Crash)) == Original(h)
  {
    HistoryIsSafe(h);
  }

  predicate Restorable(s: State, orig: Conf) {
    && Real(orig)
    && (s.backup.Some? ==> Meant(s.backup.value) == orig)
    && (s.phase.Idle? || s.phase.Taken? || s.phase.Backed? || s.phase.Rewound? ==> s.conf == orig)
    && (s.phase.Taken? || s.phase.Backed? || s.phase.Live? || s.phase.Returned? ==> Meant(s.memory) == orig)
    && (s.phase.Returned? && s.phase.ok ==> s.conf == orig)
  }

  lemma {:induction false} HistoryIsRestorable(h: History)
    requires Lawful(h) && FromClean(h) && GentleHistory(h)
    ensures Restorable(Now(h), Original(h))
  {
    if h.Then? {
      HistoryIsRestorable(h.past);
      if h.e.Take? {
        SnapshotIsFaithful(Now(h.past).memory, Now(h.past).conf);
      }
    }
  }

  /** A backup that could not be written costs crash recovery and nothing else:
      without a crash, whichever writes failed, the owner's file is in place
      whenever no session is up, and a Restore that goes through puts it there. */
  lemma LostBackupCostsOnlyRecovery(h: History)
    requires Lawful(h) && FromClean(h) && GentleHistory(h)
    ensures Now(h).phase.Idle? ==> Now(h).conf == Original(h)
    ensures Now(h).phase.Live? ==> Step(Now(h), PutBack(true)).conf == Original(h)
  {
    HistoryIsRestorable(h);
  }

  // ------------------------------------- each of the three conditions is needed

  /** Restore drops the backup even when its own write failed. A crash before it
      is retried loses the original, unless what we wrote is the same file. */
  lemma FailedRestoreThenCrash(s: State, orig: Conf)
    requires CrashSafe(s, orig) && s.phase.Live?
    ensures var h := Then(Then(Start(s), PutBack(false)), DropBackup(true));
      Lawful(h) && (Recovered(Step(Now(h), Crash)) == orig <==> s.conf == orig)
  {
    NowThen(Start(s), PutBack(false));
    NowThen(Then(Start(s), PutBack(false)), DropBackup(true));
  }

  /** With no backup on disk, a crash after the rewrite loses the original, unless
      the rewrite changed nothing. */
  lemma UnbackedApplyThenCrash(orig: Conf, servers: seq<string>)
    requires Real(orig)
    ensures var begun := Start(State(orig, None, BLANK, Idle));
      var h := Then(Then(Then(begun, Take), WriteBackup(false)), WriteConf(servers, true));
      Lawful(h) && (Recovered(Step(Now(h), Crash)) == orig <==> orig == File(Rendered(servers)))
  {
    var s := State(orig, None, BLANK, Idle);
    var h1 := Then(Start(s), Take);
    var h2 := Then(h1, WriteBackup(false));
    NowThen(Start(s), Take);
    NowThen(h1, WriteBackup(false));
    NowThen(h2, WriteConf(servers, true));
  }

  /** A session started over a pending backup records the tunnel's own file as the
      original. */
  lemma ApplyOverPendingBackup(s: State, orig: Conf)
    requires Recovered(s) == orig && Real(s.conf) && s.phase.Idle? && s.backup.Some? && s.memory == BLANK
    ensures var h := Then(Then(Start(s), Take), WriteBackup(true));
      Lawful(h) && (Recovered(Step(Now(h), Crash)) == orig <==> s.conf == orig)
  {
    NowThen(Start(s), Take);
    NowThen(Then(Start(s), Take), WriteBackup(true));
    SnapshotIsFaithful(BLANK, s.conf);
  }
}
