/** internal/revoke/revoke.go: the deny-list of revoked serials, as the CA tool
    edits it (Store) and as the server enforces it (Checker). */
module Revoke {
  import opened Base

  type Serial = nat

  datatype Entry = Entry(serial: Serial, name: string, revokedAt: int)

  /** Durable storage: each file write is atomic, and the environment decides how
      many more writes succeed before a failure or a crash. */
  class Disk {
    var left: nat

    constructor (left: nat)
      ensures this.left == left
    {
      this.left := left;
    }

    method Commit() returns (ok: bool)
      modifies this
      ensures ok == (old(left) > 0)
      ensures left == if ok then old(left) - 1 else old(left)
    {
      ok := left > 0;
      if ok {
        left := left - 1;
      }
    }
  }

  ghost predicate Denied(list: seq<Entry>, serial: Serial) {
    exists e :: e in list && e.serial == serial
  }

  /** The list after Add, how many writes are left, and whether the call
      succeeded. An entry already there is left as it was and costs no write. */
  function Added(list: seq<Entry>, left: nat, serial: Serial, name: string, now: int): (seq<Entry>, nat, bool) {
    if exists i :: 0 <= i < |list| && list[i].serial == serial then (list, left, true)
    else if left == 0 then (list, 0, false)
    else (list + [Entry(serial, name, now)], left - 1, true)
  }

  function WithoutSerial(list: seq<Entry>, serial: Serial): seq<Entry> {
    if list == [] then []
    else (if list[0].serial != serial then [list[0]] else []) + WithoutSerial(list[1..], serial)
  }

  function WithoutName(list: seq<Entry>, name: string): seq<Entry> {
    if list == [] then []
    else (if list[0].name != name then [list[0]] else []) + WithoutName(list[1..], name)
  }

  function RemovedSerial(list: seq<Entry>, left: nat, serial: Serial): (seq<Entry>, nat, bool) {
    if |WithoutSerial(list, serial)| == |list| then (list, left, true)
    else if left == 0 then (list, 0, false)
    else (WithoutSerial(list, serial), left - 1, true)
  }

  function RemovedName(list: seq<Entry>, left: nat, name: string): (seq<Entry>, nat, bool) {
    if |WithoutName(list, name)| == |list| then (list, left, true)
    else if left == 0 then (list, 0, false)
    else (WithoutName(list, name), left - 1, true)
  }

  lemma WithoutSerialNext(kept: seq<Entry>, list: seq<Entry>, i: nat, serial: Serial)
    requires i < |list|
    ensures kept + WithoutSerial(list[i..], serial) ==
      (if list[i].serial != serial then kept + [list[i]] else kept) + WithoutSerial(list[i + 1..], serial)
  {
    var tail := WithoutSerial(list[i + 1..], serial);
    assert list[i..][1..] == list[i + 1..] && [] + tail == tail;
    Assoc(kept, [list[i]], tail);
  }

  lemma WithoutNameNext(kept: seq<Entry>, list: seq<Entry>, i: nat, name: string)
    requires i < |list|
    ensures kept + WithoutName(list[i..], name) ==
      (if list[i].name != name then kept + [list[i]] else kept) + WithoutName(list[i + 1..], name)
  {
    var tail := WithoutName(list[i + 1..], name);
    assert list[i..][1..] == list[i + 1..] && [] + tail == tail;
    Assoc(kept, [list[i]], tail);
  }

  class Store {
    const disk: Disk
    var list: seq<Entry>

    constructor (disk: Disk)
      ensures this.disk == disk && list == []
    {
      this.disk, list := disk, [];
    }

    method Add(serial: Serial, name: string, now: int) returns (added: bool, ok: bool)
      modifies this, disk
      ensures (list, disk.left, ok) == Added(old(list), old(disk.left), serial, name, now)
      ensures added <==> list != old(list)
    {
      for i := 0 to |list|
        invariant forall j :: 0 <= j < i ==> list[j].serial != serial
      {
        if list[i].serial == serial {
          return false, true;
        }
      }
      ok := disk.Commit();
      added := ok;
      if ok {
        list := list + [Entry(serial, name, now)];
      }
    }

    method RemoveSerial(serial: Serial) returns (removed: bool, ok: bool)
      modifies this, disk
      ensures (list, disk.left, ok) == RemovedSerial(old(list), old(disk.left), serial)
      ensures removed <==> list != old(list)
    {
      var kept: seq<Entry> := [];
      for i := 0 to |list|
        invariant list == old(list) && disk.left == old(disk.left)
        invariant WithoutSerial(list, serial) == kept + WithoutSerial(list[i..], serial)
      {
        WithoutSerialNext(kept, list, i, serial);
        if list[i].serial != serial {
          kept := kept + [list[i]];
        }
      }
      assert kept == WithoutSerial(list, serial);
      if |kept| == |list| {
        return false, true;
      }
      ok := disk.Commit();
      removed := ok;
      if ok {
        list := kept;
      }
    }

    method RemoveName(name: string) returns (removed: nat, ok: bool)
      modifies this, disk
      ensures (list, disk.left, ok) == RemovedName(old(list), old(disk.left), name)
      ensures removed == |old(list)| - |list|
    {
      var kept: seq<Entry> := [];
      for i := 0 to |list|
        invariant list == old(list) && disk.left == old(disk.left)
        invariant |kept| <= i && WithoutName(list, name) == kept + WithoutName(list[i..], name)
      {
        WithoutNameNext(kept, list, i, name);
        if list[i].name != name {
          kept := kept + [list[i]];
        }
      }
      assert kept == WithoutName(list, name);
      if |kept| == |list| {
        return 0, true;
      }
      ok := disk.Commit();
      removed := 0;
      if ok {
        removed := |list| - |kept|;
        list := kept;
      }
    }
  }

  /** Add puts exactly its own serial on the list (unless a write fails, which
      changes nothing) and keeps every earlier entry as it was. */
  lemma AddMeaning(list: seq<Entry>, left: nat, serial: Serial, name: string, now: int)
    ensures var (list', left', ok) := Added(list, left, serial, name, now);
      && left' <= left
      && (ok ==> forall s :: Denied(list', s) <==> Denied(list, s) || s == serial)
      && (!ok ==> list' == list)
      && list <= list'
      && (Denied(list, serial) ==> list' == list && ok)
  {
    var (list', _, ok) := Added(list, left, serial, name, now);
    if ok && list' != list {
      var entry := Entry(serial, name, now);
      forall s ensures Denied(list', s) <==> Denied(list, s) || s == serial {
        if Denied(list, s) {
          var e :| e in list && e.serial == s;
          assert e in list';
        }
        assert entry in list';
      }
    } else if Denied(list, serial) {
      var e :| e in list && e.serial == serial;
      var i :| 0 <= i < |list| && list[i] == e;
    }
  }

  lemma {:induction false} WithoutSerialMeaning(list: seq<Entry>, serial: Serial)
    ensures forall e :: e in WithoutSerial(list, serial) <==> e in list && e.serial != serial
    ensures |WithoutSerial(list, serial)| <= |list|
    ensures |WithoutSerial(list, serial)| == |list| ==> WithoutSerial(list, serial) == list
  {
    if list != [] {
      WithoutSerialMeaning(list[1..], serial);
      assert list == [list[0]] + list[1..];
    }
  }

  lemma {:induction false} WithoutNameMeaning(list: seq<Entry>, name: string)
    ensures forall e :: e in WithoutName(list, name) <==> e in list && e.name != name
    ensures |WithoutName(list, name)| <= |list|
    ensures |WithoutName(list, name)| == |list| ==> WithoutName(list, name) == list
  {
    if list != [] {
      WithoutNameMeaning(list[1..], name);
      assert list == [list[0]] + list[1..];
    }
  }

  /** Why un-revoking by name is dangerous, and RemoveSerial is
      preferred: it lifts every revocation of the name, superseded
      certificates included, and nothing else. */
  lemma RemoveNameMeaning(list: seq<Entry>, left: nat, name: string)
    ensures var (list', left', ok) := RemovedName(list, left, name);
      && (ok ==> forall e :: e in list' <==> e in list && e.name != name)
      && (!ok ==> list' == list)
  {
    WithoutNameMeaning(list, name);
  }

  /** RemoveSerial un-revokes exactly one serial. */
  lemma RemoveSerialMeaning(list: seq<Entry>, left: nat, serial: Serial)
    ensures var (list', left', ok) := RemovedSerial(list, left, serial);
      && (ok ==> forall s :: Denied(list', s) <==> Denied(list, s) && s != serial)
      && (!ok ==> list' == list)
  {
    WithoutSerialMeaning(list, serial);
    var kept := WithoutSerial(list, serial);
    forall s ensures Denied(kept, s) <==> Denied(list, s) && s != serial {
      if Denied(list, s) && s != serial {
        var e :| e in list && e.serial == s;
        assert e in kept;
      }
    }
  }

  // -------------------------------------------------------------- checker

  /** What os.Stat reports about a file's version. */
  datatype Stamp = Stamp(mtime: int, size: int)

  /** The zero stamps of a Checker that has loaded nothing. */
  const ZERO: Stamp := Stamp(0, 0)

  datatype Cache = Cache(set_: Option<set<Serial>>, stamp: Stamp)

  datatype StatResult = Missing | StatFailed | Found(stamp: Stamp)

  datatype LoadResult = Vanished | LoadFailed | Loaded(serials: set<Serial>)

  datatype Verdict = Error | Answer(revoked: bool)

  /** How long after a change the file is re-read on every check, in nanoseconds. */
  const WINDOW := 2_000_000_000

  predicate RecentlyModified(mtime: int, now: int) {
    now - mtime < WINDOW
  }

  /** Whether IsRevoked re-reads the file after this stat, with the clock at `now`. */
  predicate MustLoad(c: Cache, stamp: Stamp, now: int) {
    c.set_.None? || stamp != c.stamp || RecentlyModified(stamp.mtime, now)
  }

  function Holds(c: Cache, serial: Serial): bool {
    c.set_.Some? && serial in c.set_.value
  }

  function IsRevoked(c: Cache, stat: StatResult, now: int, load: LoadResult, serial: Serial): (Cache, Verdict) {
    match stat
    case StatFailed => (c, Error)
    case Missing =>
      var c' := c.(stamp := ZERO);
      (c', Answer(Holds(c', serial)))
    case Found(stamp) =>
      if !MustLoad(c, stamp, now) then (c, Answer(Holds(c, serial)))
      else
        match load
        case Vanished =>
          var c' := c.(stamp := ZERO);
          (c', Answer(Holds(c', serial)))
        case LoadFailed => (c, Error)
        case Loaded(serials) =>
          var c' := Cache(Some(serials), stamp);
          (c', Answer(Holds(c', serial)))
  }

  class Checker {
    const enabled: bool   // false for an empty path: no deny-list
    var cached: Option<set<Serial>>
    var stamp: Stamp

    constructor (enabled: bool)
      ensures this.enabled == enabled && State() == Cache(None, ZERO)
    {
      this.enabled := enabled;
      cached, stamp := None, ZERO;
    }

    function State(): Cache
      reads this
    {
      Cache(cached, stamp)
    }

    /** `stat` and `load` are what the two file operations would observe, `now` what
        the clock shows between them. */
    method Check(stat: StatResult, now: int, load: LoadResult, serial: Serial) returns (v: Verdict)
      modifies this
      ensures !enabled ==> v == Answer(false) && State() == old(State())
      ensures enabled ==> (State(), v) == IsRevoked(old(State()), stat, now, load, serial)
    {
      if !enabled {
        return Answer(false);
      }
      match stat {
        case Missing =>
          stamp := ZERO;
        case StatFailed =>
          return Error;
        case Found(s) =>
          if cached.None? || s != stamp || now - s.mtime < WINDOW {
            match load {
              case Vanished =>
                stamp := ZERO;
              case LoadFailed =>
                return Error;
              case Loaded(serials) =>
                cached, stamp := Some(serials), s;
            }
          }
      }
      return Answer(cached.Some? && serial in cached.value);
    }
  }

  // ----------------------------------------------------------- file history

  /** The deny-list file over time: each element is the file from `written` on. */
  datatype Version =
    | Absent(written: int)
    | Present(written: int, stamp: Stamp, serials: set<Serial>)

  /** Time goes forward, and a file that parses is not empty. */
  ghost predicate Timeline(history: seq<Version>) {
    && (forall i, j :: 0 <= i < j < |history| ==> history[i].written <= history[j].written)
    && (forall i :: 0 <= i < |history| && history[i].Present? ==> history[i].stamp.size > 0)
  }

  /** One call: its stat sees version `at`, the clock then shows `now`, and the call
      ends (with its load, if it gets that far) at the possibly later version
      `readAt`. Either file operation may fail instead. */
  datatype Call = Call(serial: Serial, at: nat, readAt: nat, now: int, statFails: bool, loadFails: bool)

  function StatOf(history: seq<Version>, c: Call): StatResult
    requires c.at < |history|
  {
    if c.statFails then StatFailed
    else if history[c.at].Absent? then Missing
    else Found(history[c.at].stamp)
  }

  function LoadOf(history: seq<Version>, c: Call): LoadResult
    requires c.readAt < |history|
  {
    if c.loadFails then LoadFailed
    else if history[c.readAt].Absent? then Vanished
    else Loaded(history[c.readAt].serials)
  }

  /** A Checker at work: its cache, the version and the clock its last call ended
      with, and (for the statements below) the version it last loaded and what the
      clock showed just before. */
  datatype Working = Working(cache: Cache, now: nat, clock: Option<int>, lastLoaded: Option<nat>, loadClock: int)

  const IDLE := Working(Cache(None, ZERO), 0, None, None, 0)

  /** The clock shows a time at which no version after `r` was written yet. */
  predicate Before(history: seq<Version>, r: nat, now: int) {
    r + 1 < |history| ==> now <= history[r + 1].written
  }

  /** Calls are serialised by the Checker's lock; the file changes around and
      during them. */
  predicate InOrder(history: seq<Version>, w: Working, c: Call) {
    && w.now <= c.at <= c.readAt < |history|
    && (w.clock.Some? ==> w.clock.value <= c.now)
    && history[c.at].written <= c.now && Before(history, c.readAt, c.now)
  }

  function Serve(history: seq<Version>, w: Working, c: Call): (Working, Verdict)
    requires InOrder(history, w, c)
  {
    var stat, load := StatOf(history, c), LoadOf(history, c);
    var (cache, v) := IsRevoked(w.cache, stat, c.now, load, c.serial);
    if stat.Found? && MustLoad(w.cache, stat.stamp, c.now) && load.Loaded? then
      (Working(cache, c.readAt, Some(c.now), Some(c.readAt), c.now), v)
    else (w.(cache := cache, now := c.readAt, clock := Some(c.now)), v)
  }

  predicate Serves(history: seq<Version>, w: Working, calls: seq<Call>)
    decreases |calls|
  {
    calls == [] ||
    (InOrder(history, w, calls[0]) && Serves(history, Serve(history, w, calls[0]).0, calls[1..]))
  }

  function ServeAll(history: seq<Version>, w: Working, calls: seq<Call>): Working
    requires Serves(history, w, calls)
    decreases |calls|
  {
    if calls == [] then w else ServeAll(history, Serve(history, w, calls[0]).0, calls[1..])
  }

  /** What the last successfully loaded version denied; nothing before any load. */
  function LastSet(history: seq<Version>, w: Working): set<Serial> {
    if w.lastLoaded.Some? && w.lastLoaded.value < |history| && history[w.lastLoaded.value].Present?
    then history[w.lastLoaded.value].serials else {}
  }

  predicate Stamped(history: seq<Version>, i: nat, stamp: Stamp) {
    i < |history| && history[i].Present? && history[i].stamp == stamp
  }

  /** The cached set is the last version loaded, and a non-zero cached stamp is
      that of a version no later than the one loaded. */
  ghost predicate CacheSound(history: seq<Version>, w: Working) {
    && (w.cache.set_.None? <==> w.lastLoaded.None?)
    && (w.lastLoaded.Some? ==>
          && w.lastLoaded.value < |history| && w.lastLoaded.value <= w.now
          && history[w.lastLoaded.value].Present?
          && w.cache.set_ == Some(history[w.lastLoaded.value].serials)
          && Before(history, w.lastLoaded.value, w.loadClock))
    && (w.cache.stamp != ZERO ==>
          && w.lastLoaded.Some?
          && exists i: nat :: i <= w.lastLoaded.value && Stamped(history, i, w.cache.stamp))
  }

  lemma ServeKeeps(history: seq<Version>, w: Working, c: Call)
    requires CacheSound(history, w) && InOrder(history, w, c)
    ensures CacheSound(history, Serve(history, w, c).0)
  {
    if history[c.at].Present? {
      assert Stamped(history, c.at, history[c.at].stamp);
    }
  }

  lemma {:induction false} ServeAllKeeps(history: seq<Version>, w: Working, calls: seq<Call>)
    requires CacheSound(history, w) && Serves(history, w, calls)
    ensures CacheSound(history, ServeAll(history, w, calls))
    decreases |calls|
  {
    if calls != [] {
      ServeKeeps(history, w, calls[0]);
      ServeAllKeeps(history, Serve(history, w, calls[0]).0, calls[1..]);
    }
  }

  /** `v` is the membership answer of a version current at some instant of the
      call. */
  ghost predicate Linearizes(history: seq<Version>, c: Call, v: Verdict)
    requires c.at <= c.readAt < |history|
  {
    exists i :: c.at <= i <= c.readAt && history[i].Present? && v == Answer(c.serial in history[i].serials)
  }

  /** What a call should answer: that of a version current during the call, or, if
      the file is missing or vanishes before it is read, of the last one loaded. */
  ghost predicate Right(history: seq<Version>, w: Working, c: Call)
    requires InOrder(history, w, c)
  {
    var v := Serve(history, w, c).1;
    var last := Answer(c.serial in LastSet(history, w));
    v.Error? ||
    (if history[c.at].Absent? then v == last
     else Linearizes(history, c, v) || (history[c.readAt].Absent? && v == last))
  }

  /** A rewrite that a Checker can miss: the stat of a load sees version `i` and its
      read version `k`; version `j` carries the stamp of `i`, and from `j` until
      `r`, when that stamp is out of the window, no version agrees with `k` about
      the serial. */
  predicate Hides(history: seq<Version>, serial: Serial, i: nat, k: nat, j: nat, r: nat) {
    && i <= k <= j <= r < |history|
    && history[i].Present? && history[k].Present? && history[j].Present? && history[r].Present?
    && history[i].stamp == history[j].stamp
    && Before(history, r, history[j].stamp.mtime + WINDOW)
    && forall v :: j <= v <= r && history[v].Present? ==>
         (serial in history[v].serials) != (serial in history[k].serials)
  }

  ghost predicate NothingHidden(history: seq<Version>, serial: Serial) {
    forall i, k, j, r :: !Hides(history, serial, i, k, j, r)
  }

  /** An answer from the cache was loaded after a stat that saw the stamp now seen;
      it is wrong only if a rewrite under that stamp is hidden. */
  lemma CachedAnswerIsRight(history: seq<Version>, w: Working, c: Call)
    requires Timeline(history) && CacheSound(history, w) && InOrder(history, w, c) && !c.statFails
    requires history[c.at].Present? && !MustLoad(w.cache, history[c.at].stamp, c.now)
    requires NothingHidden(history, c.serial)
    ensures Right(history, w, c)
  {
    var k := w.lastLoaded.value;
    var i: nat :| i <= k && Stamped(history, i, w.cache.stamp);
    if history[c.readAt].Present? {
      assert !Hides(history, c.serial, i, k, c.at, c.readAt);
      var u :| c.at <= u <= c.readAt && history[u].Present? &&
               (c.serial in history[u].serials) == (c.serial in history[k].serials);
      assert Linearizes(history, c, Serve(history, w, c).1);
    }
  }

  /** After any sequence of calls, over any file history, with a rename allowed
      between stat and load: a call that finds the file and does not fail answers
      for a version that was current during the call, or, if the file vanishes
      before it is read, for the last version loaded; while the file is missing the
      answer is that of the last loaded version; and a failing stat or load leaves
      the cache unchanged. */
  lemma VerdictsLinearize(history: seq<Version>, calls: seq<Call>, c: Call)
    requires Timeline(history) && Serves(history, IDLE, calls)
    requires InOrder(history, ServeAll(history, IDLE, calls), c)
    requires NothingHidden(history, c.serial)
    ensures var w := ServeAll(history, IDLE, calls);
      && Right(history, w, c)
      && (Serve(history, w, c).1.Error? ==> Serve(history, w, c).0.cache == w.cache && (c.statFails || c.loadFails))
  {
    ServeAllKeeps(history, IDLE, calls);
    var w := ServeAll(history, IDLE, calls);
    var v := Serve(history, w, c).1;
    if !v.Error? && history[c.at].Present? {
      if MustLoad(w.cache, history[c.at].stamp, c.now) {
        if history[c.readAt].Present? {
          assert v == Answer(c.serial in history[c.readAt].serials);
        }
      } else {
        CachedAnswerIsRight(history, w, c);
      }
    }
  }

  /** Every call of every run, about one serial, is right. */
  ghost predicate AlwaysRight(history: seq<Version>, serial: Serial) {
    forall calls, c ::
      (Serves(history, IDLE, calls) && InOrder(history, ServeAll(history, IDLE, calls), c) && c.serial == serial) ==>
        Right(history, ServeAll(history, IDLE, calls), c)
  }

  predicate Written(history: seq<Version>, i: nat, j: nat) {
    i <= j < |history| && history[i].written <= history[j].written
  }

  /** A hidden rewrite is missed by two calls: one that loads `k` under the stamp
      of `i`, and one that finds that stamp again, out of its window. */
  lemma HiddenIsMissed(history: seq<Version>, serial: Serial, i: nat, k: nat, j: nat, r: nat)
    requires Timeline(history) && Hides(history, serial, i, k, j, r)
    ensures !AlwaysRight(history, serial)
  {
    var settled := history[j].stamp.mtime + WINDOW;
    var first := Call(serial, i, k, history[k].written, false, false);
    var at := if settled >= history[r].written then settled else history[r].written;
    var second := Call(serial, j, r, at, false, false);
    assert Written(history, i, k) && Written(history, k, r) && Written(history, j, r);
    assert InOrder(history, IDLE, first);
    var w := Serve(history, IDLE, first).0;
    assert [first][1..] == [];
    assert Serves(history, w, []) && Serves(history, IDLE, [first]) && ServeAll(history, IDLE, [first]) == w;
    assert InOrder(history, w, second) && !Right(history, w, second);
  }

  /** The exact condition: the cache never misleads about a serial if and only if
      the file history hides no rewrite about it. */
  lemma RightExactlyIfNothingHidden(history: seq<Version>, serial: Serial)
    requires Timeline(history)
    ensures AlwaysRight(history, serial) <==> NothingHidden(history, serial)
  {
    if NothingHidden(history, serial) {
      forall calls, c | && Serves(history, IDLE, calls) && InOrder(history, ServeAll(history, IDLE, calls), c)
                        && c.serial == serial
        ensures Right(history, ServeAll(history, IDLE, calls), c)
      {
        VerdictsLinearize(history, calls, c);
      }
    } else {
      var i, k, j, r :| Hides(history, serial, i, k, j, r);
      HiddenIsMissed(history, serial, i, k, j, r);
    }
  }

  /** Whatever the clock shows, stamps that tell contents apart are enough: between
      two versions of one stamp nothing differs from the second. Stamps never used
      twice are the simplest case. */
  lemma TellingStampsHideNothing(history: seq<Version>, serial: Serial)
    requires forall i, k, j ::
      (0 <= i <= k <= j < |history| && history[j].Present? && history[k].Present?
       && Stamped(history, i, history[j].stamp)) ==>
        history[k].serials == history[j].serials
    ensures NothingHidden(history, serial)
  {
    forall i: nat, k: nat, j: nat, r: nat
      ensures !Hides(history, serial, i, k, j, r)
    {
      if Hides(history, serial, i, k, j, r) {
        assert Stamped(history, i, history[j].stamp);
        assert false;
      }
    }
  }

  /** Every rewrite gets a stamp never used before. */
  ghost predicate FreshStamps(history: seq<Version>) {
    forall i, j :: 0 <= i < j < |history| && history[j].Present? ==> !Stamped(history, i, history[j].stamp)
  }

  /** With fresh stamps nothing is hidden, and a stamp equal to the cached one means
      that the cached set was loaded from this very version, even if a rename had
      landed between that earlier call's stat and its load. */
  lemma CachedIsCurrent(history: seq<Version>, w: Working, at: nat)
    requires Timeline(history) && FreshStamps(history) && CacheSound(history, w)
    requires w.now <= at < |history| && history[at].Present? && history[at].stamp == w.cache.stamp
    ensures w.lastLoaded == Some(at)
    ensures forall serial :: NothingHidden(history, serial)
  {
    var i: nat :| i <= w.lastLoaded.value && Stamped(history, i, w.cache.stamp);
    assert i == at;
    forall serial ensures NothingHidden(history, serial) {
      TellingStampsHideNothing(history, serial);
    }
  }

  /** When a call gives no verdict: its stat failed, or it had to read the file and
      could not. It has to if nothing was loaded yet, if the file does not carry the
      cached stamp, or if that stamp is less than two seconds old. */
  lemma ErrorExactlyIf(history: seq<Version>, calls: seq<Call>, c: Call)
    requires Timeline(history) && Serves(history, IDLE, calls)
    requires InOrder(history, ServeAll(history, IDLE, calls), c)
    ensures var w := ServeAll(history, IDLE, calls);
      Serve(history, w, c).1 == Error <==>
        || c.statFails
        || (history[c.at].Present? && c.loadFails
            && (w.lastLoaded.None? || w.cache.stamp != history[c.at].stamp
                || c.now < history[c.at].stamp.mtime + 2_000_000_000))
  {
    ServeAllKeeps(history, IDLE, calls);
  }

  /** The call found no file: at its stat, or when it came to read. */
  predicate FoundNoFile(history: seq<Version>, w: Working, c: Call)
    requires InOrder(history, w, c)
  {
    && !c.statFails
    && (history[c.at].Absent?
        || (!c.loadFails && history[c.readAt].Absent? && MustLoad(w.cache, history[c.at].stamp, c.now)))
  }

  /** After a call that found no file, the next one that finds a file reads it,
      whatever stamp it carries. */
  lemma ReappearingFileIsRead(history: seq<Version>, w: Working, c: Call, d: Call)
    requires Timeline(history) && InOrder(history, w, c) && FoundNoFile(history, w, c)
    requires InOrder(history, Serve(history, w, c).0, d) && !d.statFails && history[d.at].Present?
    ensures var v := Serve(history, Serve(history, w, c).0, d).1;
      && (d.loadFails ==> v == Error)
      && (!d.loadFails && history[d.readAt].Present? ==> v == Answer(d.serial in history[d.readAt].serials))
  {
  }

  // ------------------------------------------------- what the window achieves

  /** The file system's clock tick is shorter than the window. */
  ghost predicate FineTicks(history: seq<Version>) {
    forall i :: 0 <= i < |history| && history[i].Present? ==> history[i].written < history[i].stamp.mtime + WINDOW
  }

  /** No version after the last one loaded carries the cached stamp. */
  ghost predicate LoadedLast(history: seq<Version>, w: Working) {
    w.lastLoaded.Some? ==>
      forall j :: w.lastLoaded.value < j < |history| ==> !Stamped(history, j, w.cache.stamp)
  }

  lemma HitIsLastLoad(history: seq<Version>, w: Working, c: Call)
    requires Timeline(history) && CacheSound(history, w) && InOrder(history, w, c) && LoadedLast(history, w)
    requires history[c.at].Present? && !MustLoad(w.cache, history[c.at].stamp, c.now)
    ensures w.lastLoaded == Some(c.at)
  {
    assert Stamped(history, c.at, w.cache.stamp);
  }

  lemma LastLoadIsRight(history: seq<Version>, w: Working, c: Call)
    requires Timeline(history) && CacheSound(history, w) && InOrder(history, w, c) && LoadedLast(history, w)
    ensures Right(history, w, c)
  {
    var v := Serve(history, w, c).1;
    if !v.Error? && history[c.at].Present? {
      if MustLoad(w.cache, history[c.at].stamp, c.now) {
        if history[c.readAt].Present? {
          assert v == Answer(c.serial in history[c.readAt].serials);
        }
      } else {
        HitIsLastLoad(history, w, c);
        assert v == Answer(c.serial in history[c.at].serials);
      }
    }
  }

  /** A load after the last rewrite that carries its stamp is never outdated: no
      later call is misled, until the next load. */
  lemma LoadAfterLastRewrite(history: seq<Version>, calls: seq<Call>, c: Call)
    requires Timeline(history) && Serves(history, IDLE, calls)
    requires InOrder(history, ServeAll(history, IDLE, calls), c)
    requires LoadedLast(history, ServeAll(history, IDLE, calls))
    ensures Right(history, ServeAll(history, IDLE, calls), c)
  {
    ServeAllKeeps(history, IDLE, calls);
    LastLoadIsRight(history, ServeAll(history, IDLE, calls), c);
  }

  /** With ticks shorter than the window, a load that is itself out of the window
      is such a load: re-reading while recent and once more settles the stamp for
      good, however often it was reused. */
  lemma SettledLoadIsFinal(history: seq<Version>, calls: seq<Call>, c: Call)
    requires Timeline(history) && FineTicks(history) && Serves(history, IDLE, calls)
    requires InOrder(history, ServeAll(history, IDLE, calls), c)
    requires var w := ServeAll(history, IDLE, calls); !RecentlyModified(w.cache.stamp.mtime, w.loadClock)
    ensures Right(history, ServeAll(history, IDLE, calls), c)
  {
    ServeAllKeeps(history, IDLE, calls);
    var w := ServeAll(history, IDLE, calls);
    if w.lastLoaded.Some? {
      forall j | w.lastLoaded.value < j < |history|
        ensures !Stamped(history, j, w.cache.stamp)
      {
      }
    }
    LoadAfterLastRewrite(history, calls, c);
  }

  /** Enforcement: once a serial is in every later version of a file that stays
      present, every later call that does not fail rejects it. */
  lemma RevocationTakesEffect(history: seq<Version>, calls: seq<Call>, c: Call, since: nat)
    requires Timeline(history) && Serves(history, IDLE, calls)
    requires InOrder(history, ServeAll(history, IDLE, calls), c)
    requires NothingHidden(history, c.serial)
    requires since <= c.at
    requires forall i :: since <= i < |history| ==> history[i].Present? && c.serial in history[i].serials
    ensures var v := Serve(history, ServeAll(history, IDLE, calls), c).1; v == Error || v == Answer(true)
  {
    VerdictsLinearize(history, calls, c);
  }

  /** The window leaves a gap the comment beside it does not mention. Two lists of
      one size are written in one tick; a call in between loads the first, and the
      next call comes when the window is over: the rewrite is never seen. */
  lemma SameTickRewriteIsMissed(a: Serial, b: Serial, mtime: int, size: nat)
    requires a != b && size > 0
    ensures var stamp := Stamp(mtime, size);
      var history := [Present(mtime, stamp, {a}), Present(mtime + 1, stamp, {b})];
      var first, second := Call(b, 0, 0, mtime, false, false), Call(b, 1, 1, mtime + WINDOW, false, false);
      var w := Serve(history, IDLE, first).0;
      && Timeline(history) && FineTicks(history) && InOrder(history, IDLE, first) && InOrder(history, w, second)
      && Serve(history, w, second) == (w.(now := 1, clock := Some(mtime + WINDOW)), Answer(false))
      && !NothingHidden(history, b)
  {
    var stamp := Stamp(mtime, size);
    var history := [Present(mtime, stamp, {a}), Present(mtime + 1, stamp, {b})];
    assert Hides(history, b, 0, 0, 1, 1);
  }
}
