/** internal/watchdog/watchdog.go: turning polls of a health endpoint into
    messages for the operator. */
module Watchdog {
  import opened Base

  datatype Report = Report(ready: bool, notReady: seq<string>, warnings: seq<string>, sessions: int)

  /** The outcome of one poll: a report, or the reason there is none. */
  datatype Observation = Failed(err: string) | Answered(report: Report)

  datatype Poll = Poll(obs: Observation, now: int)

  datatype Message = Down(reason: string, checks: nat) | Back(sessions: int) | Attention(text: string)

  datatype Config = Config(threshold: nat, repeat: int)

  predicate Valid(c: Config) { c.threshold >= 1 && c.repeat > 0 }

  /** `lastWarningAt` is None until a warning is sent: the zero time, further in
      the past than any `repeat`. */
  datatype State = State(failures: nat, alerted: bool, lastWarning: string, lastWarningAt: Option<int>)

  const INITIAL := State(0, false, "", None)

  function Joined(lines: seq<string>): string {
    if lines == [] then "" else if |lines| == 1 then lines[0] else lines[0] + "\n" + Joined(lines[1..])
  }

  /** Every line is in the text, in order, one to a line. */
  lemma {:induction false} JoinedConcat(a: seq<string>, b: seq<string>)
    requires a != [] && b != []
    ensures Joined(a + b) == Joined(a) + "\n" + Joined(b)
  {
    if |a| == 1 {
      assert (a + b)[1..] == b;
    } else {
      assert (a + b)[1..] == a[1..] + b;
      JoinedConcat(a[1..], b);
    }
  }

  lemma JoinedOne(line: string)
    ensures Joined([line]) == line
  {
  }

  predicate Bad(p: Poll) {
    p.obs.Failed? || !p.obs.report.ready
  }

  function Reason(p: Poll): string
    requires Bad(p)
  {
    match p.obs
    case Failed(err) => "The node did not answer its health check: " + err
    case Answered(r) =>
      if r.notReady != [] then Joined(r.notReady)
      else "The node reports it is not ready, without saying why."
  }

  /** The reason ends in the error of a poll without an answer, and holds every line
      of a report that says what is not ready. */
  lemma ReasonNamesCause(p: Poll)
    requires Bad(p)
    ensures p.obs.Failed? ==>
      var r, err := Reason(p), p.obs.err; |err| <= |r| && r[|r| - |err|..] == err
    ensures p.obs.Answered? && p.obs.report.notReady != [] ==> Reason(p) == Joined(p.obs.report.notReady)
  {
  }

  /** A good poll with nothing to warn about. */
  predicate Clear(p: Poll) { !Bad(p) && p.obs.report.warnings == [] }

  predicate Warns(p: Poll) { !Bad(p) && p.obs.report.warnings != [] }

  function Text(p: Poll): string
    requires Warns(p)
  {
    Joined(p.obs.report.warnings)
  }

  predicate Due(s: State, c: Config, p: Poll)
    requires Warns(p)
  {
    Text(p) != s.lastWarning || s.lastWarningAt.None? || p.now - s.lastWarningAt.value >= c.repeat
  }

  /** The state after one poll, and the messages it sends. */
  function Observed(s: State, c: Config, p: Poll): (State, seq<Message>) {
    if Bad(p) then
      var raise := !s.alerted && s.failures + 1 >= c.threshold;
      (s.(failures := s.failures + 1, alerted := s.alerted || raise),
       if raise then [Down(Reason(p), s.failures + 1)] else [])
    else
      var back := if s.alerted then [Back(p.obs.report.sessions)] else [];
      var s' := s.(failures := 0, alerted := false);
      if Clear(p) then (s'.(lastWarning := ""), back)
      else if Due(s, c, p) then
        (s'.(lastWarning := Text(p), lastWarningAt := Some(p.now)), back + [Attention(Text(p))])
      else (s', back)
  }

  class Watcher {
    const cfg: Config
    var failures: nat
    var alerted: bool
    var lastWarning: string
    var lastWarningAt: Option<int>
    /** What has been handed to Notify so far. */
    var sent: seq<Message>

    function Abstract(): State
      reads this
    {
      State(failures, alerted, lastWarning, lastWarningAt)
    }

    constructor (cfg: Config)
      ensures this.cfg == cfg && Abstract() == INITIAL && sent == []
    {
      this.cfg := cfg;
      failures, alerted, lastWarning, lastWarningAt, sent := 0, false, "", None, [];
    }

    method Observe(p: Poll)
      modifies this
      ensures Abstract() == Observed(old(Abstract()), cfg, p).0
      ensures sent == old(sent) + Observed(old(Abstract()), cfg, p).1
    {
      if p.obs.Failed? || !p.obs.report.ready {
        failures := failures + 1;
        if !alerted && failures >= cfg.threshold {
          alerted := true;
          sent := sent + [Down(Reason(p), failures)];
        }
        return;
      }
      if alerted {
        alerted := false;
        sent := sent + [Back(p.obs.report.sessions)];
      }
      failures := 0;
      MaybeWarn(p);
    }

    method MaybeWarn(p: Poll)
      requires !Bad(p)
      modifies this`lastWarning, this`lastWarningAt, this`sent
      ensures Clear(p) ==> lastWarning == "" && lastWarningAt == old(lastWarningAt) && sent == old(sent)
      ensures Warns(p) && old(Due(Abstract(), cfg, p)) ==>
        lastWarning == Text(p) && lastWarningAt == Some(p.now) && sent == old(sent) + [Attention(Text(p))]
      ensures Warns(p) && !old(Due(Abstract(), cfg, p)) ==>
        lastWarning == old(lastWarning) && lastWarningAt == old(lastWarningAt) && sent == old(sent)
    {
      if |p.obs.report.warnings| == 0 {
        lastWarning := "";
        return;
      }
      var text := Joined(p.obs.report.warnings);
      if text == lastWarning && lastWarningAt.Some? && p.now - lastWarningAt.value < cfg.repeat {
        return;
      }
      lastWarning, lastWarningAt := text, Some(p.now);
      sent := sent + [Attention(text)];
    }
  }

  // ------------------------------------------------------------------ runs

  /** The state after a whole sequence of polls. */
  function After(c: Config, ps: seq<Poll>): State {
    if ps == [] then INITIAL
    else Observed(After(c, ps[..|ps| - 1]), c, ps[|ps| - 1]).0
  }

  /** What poll `i` sends. */
  function SentAt(c: Config, ps: seq<Poll>, i: nat): seq<Message>
    requires i < |ps|
  {
    Observed(After(c, ps[..i]), c, ps[i]).1
  }

  /** Everything sent, in order. */
  function Log(c: Config, ps: seq<Poll>): seq<Message> {
    if ps == [] then [] else Log(c, ps[..|ps| - 1]) + SentAt(c, ps, |ps| - 1)
  }

  /** How many polls at the end of `ps` are bad in a row. */
  function BadRun(ps: seq<Poll>): nat {
    if ps == [] || !Bad(ps[|ps| - 1]) then 0 else 1 + BadRun(ps[..|ps| - 1])
  }

  lemma {:induction false} StateMeaning(c: Config, ps: seq<Poll>)
    requires Valid(c)
    ensures After(c, ps).failures == BadRun(ps)
    ensures After(c, ps).alerted <==> BadRun(ps) >= c.threshold
  {
    if ps != [] {
      StateMeaning(c, ps[..|ps| - 1]);
    }
  }

  lemma {:induction false} BadRunMeaning(ps: seq<Poll>)
    ensures var n := BadRun(ps);
      && n <= |ps|
      && (forall k :: |ps| - n <= k < |ps| ==> Bad(ps[k]))
      && (n < |ps| ==> !Bad(ps[|ps| - n - 1]))
  {
    if ps != [] && Bad(ps[|ps| - 1]) {
      BadRunMeaning(ps[..|ps| - 1]);
    }
  }

  /** An outage begins at `a`: a maximal run of bad polls, at least `n` long. */
  predicate OutageAt(ps: seq<Poll>, n: nat, a: int) {
    && 0 <= a <= |ps| - n
    && (a > 0 ==> !Bad(ps[a - 1]))
    && forall k :: a <= k < a + n ==> Bad(ps[k])
  }

  lemma RunIsOutage(ps: seq<Poll>, n: nat)
    requires n >= 1
    ensures OutageAt(ps, n, |ps| - n) <==> BadRun(ps) == n
  {
    BadRunMeaning(ps);
    var r := BadRun(ps);
    if r < n <= |ps| {
      assert !Bad(ps[|ps| - r - 1]);
    } else if r > n {
      assert Bad(ps[|ps| - n - 1]);
    }
  }

  /** A down alert goes out at poll `i` exactly when `i` is the poll that makes an
      outage `threshold` long, and it carries that poll's reason. */
  lemma DownExactlyAtThreshold(c: Config, ps: seq<Poll>, i: nat)
    requires Valid(c) && i < |ps|
    ensures OutageAt(ps, c.threshold, i + 1 - c.threshold) ==>
              Bad(ps[i]) && SentAt(c, ps, i) == [Down(Reason(ps[i]), c.threshold)]
    ensures !OutageAt(ps, c.threshold, i + 1 - c.threshold) ==> forall m :: m in SentAt(c, ps, i) ==> !m.Down?
  {
    var n := c.threshold;
    StateMeaning(c, ps[..i]);
    var upTo := ps[..i + 1];
    assert upTo[..i] == ps[..i];
    RunIsOutage(upTo, n);
    assert OutageAt(upTo, n, i + 1 - n) <==> OutageAt(ps, n, i + 1 - n) by {
      assert forall k :: 0 <= k <= i ==> upTo[k] == ps[k];
    }
  }

  /** A recovery message goes out exactly at the first good poll after an alerted
      outage. */
  lemma BackExactlyAfterOutage(c: Config, ps: seq<Poll>, i: nat)
    requires Valid(c) && i < |ps|
    ensures (exists m :: m in SentAt(c, ps, i) && m.Back?) <==> (!Bad(ps[i]) && BadRun(ps[..i]) >= c.threshold)
  {
    StateMeaning(c, ps[..i]);
    if !Bad(ps[i]) && BadRun(ps[..i]) >= c.threshold {
      var m := SentAt(c, ps, i)[0];
      assert m in SentAt(c, ps, i) && m.Back?;
    }
  }

  function Downs(log: seq<Message>): nat {
    if log == [] then 0 else (if log[0].Down? then 1 else 0) + Downs(log[1..])
  }

  /** Only the down and recovery messages. */
  function Alerts(log: seq<Message>): seq<Message> {
    if log == [] then [] else (if log[0].Attention? then [] else [log[0]]) + Alerts(log[1..])
  }

  lemma {:induction false} DownsConcat(a: seq<Message>, b: seq<Message>)
    ensures Downs(a + b) == Downs(a) + Downs(b)
  {
    if a == [] {
      assert a + b == b;
    } else {
      assert (a + b)[1..] == a[1..] + b;
      DownsConcat(a[1..], b);
    }
  }

  lemma {:induction false} AlertsConcat(a: seq<Message>, b: seq<Message>)
    ensures Alerts(a + b) == Alerts(a) + Alerts(b)
  {
    if a == [] {
      assert a + b == b;
    } else {
      var ab := a + b;
      assert ab[0] == a[0] && ab[1..] == a[1..] + b;
      AlertsConcat(a[1..], b);
      var first := if a[0].Attention? then [] else [a[0]];
      assert Alerts(ab) == first + Alerts(ab[1..]);
      Assoc(first, Alerts(a[1..]), Alerts(b));
    }
  }

  /** The polls at which outages begin. */
  function Outages(ps: seq<Poll>, n: nat): set<int> {
    set a | 0 <= a <= |ps| && OutageAt(ps, n, a)
  }

  lemma OutagesGrow(ps: seq<Poll>, n: nat)
    requires n >= 1 && ps != []
    ensures var was := ps[..|ps| - 1];
      var a := |ps| - n;
      && a !in Outages(was, n)
      && Outages(ps, n) == if OutageAt(ps, n, a) then Outages(was, n) + {a} else Outages(was, n)
  {
    var was := ps[..|ps| - 1];
    assert forall a :: OutageAt(was, n, a) <==> OutageAt(ps, n, a) && a + n <= |was|;
  }

  lemma OneDown(log: seq<Message>)
    requires |log| == 1 && log[0].Down?
    ensures Downs(log) == 1
  {
  }

  lemma {:induction false} NoDowns(log: seq<Message>)
    requires forall m :: m in log ==> !m.Down?
    ensures Downs(log) == 0
  {
    if log != [] {
      NoDowns(log[1..]);
    }
  }

  lemma DownsAdded(c: Config, ps: seq<Poll>)
    requires Valid(c) && ps != []
    ensures Downs(SentAt(c, ps, |ps| - 1)) == if OutageAt(ps, c.threshold, |ps| - c.threshold) then 1 else 0
  {
    DownExactlyAtThreshold(c, ps, |ps| - 1);
    if OutageAt(ps, c.threshold, |ps| - c.threshold) {
      OneDown(SentAt(c, ps, |ps| - 1));
    } else {
      NoDowns(SentAt(c, ps, |ps| - 1));
    }
  }

  lemma OneMoreOutage(ps: seq<Poll>, n: nat)
    requires n >= 1 && ps != []
    ensures |Outages(ps, n)| == |Outages(ps[..|ps| - 1], n)| + if OutageAt(ps, n, |ps| - n) then 1 else 0
  {
    OutagesGrow(ps, n);
  }

  lemma DownsOfLog(c: Config, ps: seq<Poll>)
    requires Valid(c) && ps != []
    ensures Downs(Log(c, ps)) ==
      Downs(Log(c, ps[..|ps| - 1])) + if OutageAt(ps, c.threshold, |ps| - c.threshold) then 1 else 0
  {
    var was, sent := Log(c, ps[..|ps| - 1]), SentAt(c, ps, |ps| - 1);
    assert Log(c, ps) == was + sent;
    DownsConcat(was, sent);
    DownsAdded(c, ps);
  }

  /** As many down alerts as outages that lasted `threshold` polls. */
  lemma {:induction false} OneAlertPerOutage(c: Config, ps: seq<Poll>)
    requires Valid(c)
    ensures Downs(Log(c, ps)) == |Outages(ps, c.threshold)|
  {
    if ps == [] {
      assert Outages(ps, c.threshold) == {};
    } else {
      var was := ps[..|ps| - 1];
      OneAlertPerOutage(c, was);
      OneMoreOutage(ps, c.threshold);
      DownsOfLog(c, ps);
    }
  }

  /** Down, recovery, down, recovery, ... */
  ghost predicate Alternating(alerts: seq<Message>) {
    forall k :: 0 <= k < |alerts| ==> if k % 2 == 0 then alerts[k].Down? else alerts[k].Back?
  }

  lemma AlternatingAppend(alerts: seq<Message>, m: Message)
    requires Alternating(alerts) && if |alerts| % 2 == 0 then m.Down? else m.Back?
    ensures Alternating(alerts + [m]) && |alerts + [m]| % 2 != |alerts| % 2
  {
  }

  lemma AlertsOfPoll(s: State, c: Config, p: Poll)
    ensures var sent := Observed(s, c, p).1;
      Alerts(sent) == if Bad(p) then sent else if s.alerted then [Back(p.obs.report.sessions)] else []
  {
    var sent := Observed(s, c, p).1;
    if |sent| == 2 {
      assert sent[1..] == [sent[1]] && sent[1..][1..] == [];
      assert Alerts(sent[1..]) == [];
    } else if |sent| == 1 {
      assert sent[1..] == [];
    }
  }

  /** Down and recovery messages strictly alternate, starting with down; the last
      word is "down" exactly while an alerted outage lasts. */
  lemma {:induction false} AlertsAlternate(c: Config, ps: seq<Poll>)
    requires Valid(c)
    ensures Alternating(Alerts(Log(c, ps)))
    ensures |Alerts(Log(c, ps))| % 2 == 1 <==> BadRun(ps) >= c.threshold
  {
    if ps != [] {
      var was := ps[..|ps| - 1];
      AlertsAlternate(c, was);
      StateMeaning(c, was);
      StateMeaning(c, ps);
      var sent := SentAt(c, ps, |ps| - 1);
      AlertsConcat(Log(c, was), sent);
      AlertsOfPoll(After(c, was), c, ps[|ps| - 1]);
      var before, added := Alerts(Log(c, was)), Alerts(sent);
      assert Alerts(Log(c, ps)) == before + added;
      if added != [] {
        assert added == [added[0]];
        AlternatingAppend(before, added[0]);
      } else {
        assert before + added == before;
      }
    }
  }

  // -------------------------------------------------------------- warnings

  predicate WarnedAt(c: Config, ps: seq<Poll>, i: nat)
    requires i < |ps|
  {
    Warns(ps[i]) && Attention(Text(ps[i])) in SentAt(c, ps, i)
  }

  /** Since poll `i`, neither a warning nor a warning-free good poll. */
  predicate QuietSince(c: Config, ps: seq<Poll>, i: nat, j: nat)
    requires j <= |ps|
  {
    forall k :: i < k < j ==> !WarnedAt(c, ps, k) && !Clear(ps[k])
  }

  lemma WarnedIffDue(c: Config, ps: seq<Poll>, i: nat)
    requires i < |ps| && Warns(ps[i])
    ensures WarnedAt(c, ps, i) <==> Due(After(c, ps[..i]), c, ps[i])
  {
    var s := After(c, ps[..i]);
    var sent := SentAt(c, ps, i);
    if Due(s, c, ps[i]) {
      assert sent[|sent| - 1] == Attention(Text(ps[i]));
    } else {
      assert Attention(Text(ps[i])) !in sent;
    }
  }

  lemma {:induction false} QuietKeepsWarning(c: Config, ps: seq<Poll>, i: nat, j: nat)
    requires i < j <= |ps| && WarnedAt(c, ps, i) && QuietSince(c, ps, i, j)
    ensures var s := After(c, ps[..j]);
      s.lastWarning == Text(ps[i]) && s.lastWarningAt == Some(ps[i].now)
    decreases j
  {
    assert ps[..j][..j - 1] == ps[..j - 1];
    if j == i + 1 {
      WarnedIffDue(c, ps, i);
    } else {
      QuietKeepsWarning(c, ps, i, j - 1);
      if Warns(ps[j - 1]) {
        WarnedIffDue(c, ps, j - 1);
      }
    }
  }

  /** With no warning-free good poll and no other warning since the last one sent,
      a poll that warns is reported exactly when its text is new or `repeat` has
      passed, whatever the clock did in between. */
  lemma RepeatsAreSpaced(c: Config, ps: seq<Poll>, i: nat, j: nat)
    requires i < j < |ps| && WarnedAt(c, ps, i) && QuietSince(c, ps, i, j) && Warns(ps[j])
    ensures WarnedAt(c, ps, j) <==> (Text(ps[j]) != Text(ps[i]) || ps[j].now - ps[i].now >= c.repeat)
  {
    QuietKeepsWarning(c, ps, i, j);
    WarnedIffDue(c, ps, j);
  }

  /** Nothing was reported since the last warning-free good poll, or since the
      start. */
  predicate NothingStanding(c: Config, ps: seq<Poll>, j: nat)
    requires j <= |ps|
  {
    forall i :: 0 <= i < j && WarnedAt(c, ps, i) ==> exists k :: i < k < j && Clear(ps[k])
  }

  lemma {:induction false} NothingStandingState(c: Config, ps: seq<Poll>, j: nat)
    requires j <= |ps| && NothingStanding(c, ps, j)
    ensures After(c, ps[..j]).lastWarning == ""
    decreases j
  {
    if j > 0 {
      assert ps[..j][..j - 1] == ps[..j - 1];
      if !Clear(ps[j - 1]) {
        assert !WarnedAt(c, ps, j - 1);
        if Warns(ps[j - 1]) {
          WarnedIffDue(c, ps, j - 1);
        }
        NothingStandingState(c, ps, j - 1);
      }
    }
  }

  /** Poll `i` sent the last warning before poll `j`. */
  predicate LastWarned(c: Config, ps: seq<Poll>, i: nat, j: nat)
    requires j <= |ps|
  {
    i < j && WarnedAt(c, ps, i) && forall k :: i < k < j ==> !WarnedAt(c, ps, k)
  }

  lemma AfterNext(c: Config, ps: seq<Poll>, j: nat)
    requires 0 < j <= |ps|
    ensures After(c, ps[..j]) == Observed(After(c, ps[..j - 1]), c, ps[j - 1]).0
  {
    assert ps[..j][..j - 1] == ps[..j - 1];
  }

  /** The time of the last warning moves exactly at a poll that warns. */
  lemma WarnedTimeNext(c: Config, ps: seq<Poll>, j: nat)
    requires 0 < j <= |ps|
    ensures After(c, ps[..j]).lastWarningAt ==
      if WarnedAt(c, ps, j - 1) then Some(ps[j - 1].now) else After(c, ps[..j - 1]).lastWarningAt
  {
    AfterNext(c, ps, j);
    if Warns(ps[j - 1]) {
      WarnedIffDue(c, ps, j - 1);
    }
  }

  /** Before poll `j` no warning was sent; or the last one was sent at `at`. */
  ghost predicate WarnedLast(c: Config, ps: seq<Poll>, j: nat, at: Option<int>)
    requires j <= |ps|
  {
    match at
    case None => forall i :: 0 <= i < j ==> !WarnedAt(c, ps, i)
    case Some(t) => exists i: nat :: LastWarned(c, ps, i, j) && t == ps[i].now
  }

  lemma WarnedLastNext(c: Config, ps: seq<Poll>, j: nat, at: Option<int>)
    requires 0 < j <= |ps| && WarnedLast(c, ps, j - 1, at)
    ensures WarnedLast(c, ps, j, if WarnedAt(c, ps, j - 1) then Some(ps[j - 1].now) else at)
  {
    if WarnedAt(c, ps, j - 1) {
      assert LastWarned(c, ps, j - 1, j);
    } else if at.Some? {
      var i: nat :| LastWarned(c, ps, i, j - 1) && at.value == ps[i].now;
      assert LastWarned(c, ps, i, j);
    }
  }

  lemma {:induction false} LastWarnedTime(c: Config, ps: seq<Poll>, j: nat)
    requires j <= |ps|
    ensures WarnedLast(c, ps, j, After(c, ps[..j]).lastWarningAt)
    decreases j
  {
    if j == 0 {
      assert ps[..0] == [];
    } else {
      LastWarnedTime(c, ps, j - 1);
      WarnedTimeNext(c, ps, j);
      WarnedLastNext(c, ps, j, After(c, ps[..j - 1]).lastWarningAt);
    }
  }

  /** A warning that appears when none is standing is reported at once, with one
      exception: one whose text is empty is taken for the cleared text, and waits
      until the last warning sent is `repeat` old. */
  lemma NewWarningIsReported(c: Config, ps: seq<Poll>, j: nat)
    requires j < |ps| && NothingStanding(c, ps, j) && Warns(ps[j])
    ensures WarnedAt(c, ps, j) <==>
      (Text(ps[j]) != "" || forall i: nat :: LastWarned(c, ps, i, j) ==> ps[j].now - ps[i].now >= c.repeat)
  {
    NothingStandingState(c, ps, j);
    WarnedIffDue(c, ps, j);
    LastWarnedTime(c, ps, j);
    var s := After(c, ps[..j]);
    if s.lastWarningAt.Some? {
      var i: nat :| LastWarned(c, ps, i, j) && s.lastWarningAt.value == ps[i].now;
      forall k: nat | LastWarned(c, ps, k, j) ensures k == i {
        assert k >= i && i >= k;
      }
    }
  }

  // -------------------------------------------------- where the comments differ

  /** One poll can send two messages, a recovery and a warning: exactly a good poll
      right after an alerted outage whose report carries a warning that is due. */
  lemma TwoMessagesAtOnce(c: Config, ps: seq<Poll>, i: nat)
    requires Valid(c) && i < |ps|
    ensures |SentAt(c, ps, i)| <= 2
    ensures |SentAt(c, ps, i)| == 2 <==>
      BadRun(ps[..i]) >= c.threshold && Warns(ps[i]) && Due(After(c, ps[..i]), c, ps[i])
  {
    StateMeaning(c, ps[..i]);
  }

  /** For instance after one failed poll with a threshold of one. */
  lemma RecoveryAndWarning(err: string, now: int, repeat: int)
    requires repeat > 0
    ensures var c := Config(1, repeat);
      var ps := [Poll(Failed(err), now), Poll(Answered(Report(true, [], ["certificate expires soon"], 3)), now)];
      SentAt(c, ps, 1) == [Back(3), Attention("certificate expires soon")]
  {
    var c := Config(1, repeat);
    var ps := [Poll(Failed(err), now), Poll(Answered(Report(true, [], ["certificate expires soon"], 3)), now)];
    assert ps[..1] == [ps[0]] && ps[..1][..0] == [];
    assert After(c, ps[..1]) == Observed(INITIAL, c, ps[0]).0;
  }

  /** A warning whose text is empty is mistaken for "no warning standing": it is
      held back although the previous one was cleared. */
  lemma EmptyTextIsHeldBack(c: Config, now: int)
    requires Valid(c)
    ensures var blank := Poll(Answered(Report(true, [], [""], 0)), now);
      var clear := Poll(Answered(Report(true, [], [], 0)), now);
      && WarnedAt(c, [blank, clear, blank], 0)
      && NothingStanding(c, [blank, clear, blank], 2)
      && !WarnedAt(c, [blank, clear, blank], 2)
  {
    var blank := Poll(Answered(Report(true, [], [""], 0)), now);
    var clear := Poll(Answered(Report(true, [], [], 0)), now);
    var ps := [blank, clear, blank];
    WarnedIffDue(c, ps, 0);
    WarnedIffDue(c, ps, 2);
    assert ps[..2][..1] == ps[..1] && ps[..1][..0] == [] && ps[..2][1] == clear && ps[..1][0] == blank;
    assert Clear(ps[1]);
  }
}
