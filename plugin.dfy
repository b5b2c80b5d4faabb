/**
 * The plugin object: the per-second `OnTimer` callback, the update check
 * `DoCheck` it triggers, the one-time welcome notice, and the session timer with
 * its break reminder.
 *
 * The host is not modelled. What the callbacks read from it arrives as
 * parameters: the loaded sector file name ("" when none is loaded), the
 * connection type (0 offline), and the bodies of the two HTTP fetches ("" when
 * the fetch fails, since `HttpGet` reports success exactly when the body is not
 * empty). What they show the user comes back as results.
 */
module Plugin {
  import opened Wrappers
  import opened Versions
  import opened LocalLabel
  import opened Manifest

  /** What one update check concluded. */
  datatype Outcome =
    | NoSector            // no sector file name yet
    | LabelUnparsed       // the name does not contain a version label
    | FetchFailed         // the manifest could not be fetched
    | FieldsMissing       // the manifest lacks `airac_cycle` or `airac_version`
    | UpdateAvailable(local: ParsedLocal, remote: RemoteLatest)
    | UpToDate(local: ParsedLocal, remote: RemoteLatest)
  {
    /** Both versions were read, so the comparison took place. */
    predicate Compared() {
      UpdateAvailable? || UpToDate?
    }
  }

  /** How a check shows itself: not at all, as a chat message, or as the update alert (chat message and modal box). */
  datatype Notice = Silent | Chat | Alert

  /** The local triple the update decision compares. */
  function Installed(l: ParsedLocal): Version {
    Version(l.cycle, l.version, l.package)
  }

  /** The conclusion of a check, given the sector file name and the manifest body. */
  function CheckOutcome(sector: seq<char>, manifestBody: seq<char>): Outcome {
    if sector == [] then NoSector
    else match ParseLocal(sector)
      case None => LabelUnparsed
      case Some(local) =>
        if manifestBody == [] then FetchFailed
        else match ParseRemote(manifestBody)
          case None => FieldsMissing
          case Some(remote) =>
            if Newer(remote.Triple(), Installed(local)) then UpdateAvailable(local, remote) else UpToDate(local, remote)
  }

  /** An available update always alerts; every other outcome is reported only when the check is verbose. */
  function NoticeFor(outcome: Outcome, verbose: bool): Notice {
    if outcome.UpdateAvailable? then Alert else if verbose then Chat else Silent
  }

  /** A check reports an update exactly when both versions are read and the remote one is newer. */
  lemma UpdateAvailableIff(sector: seq<char>, manifestBody: seq<char>)
    ensures CheckOutcome(sector, manifestBody).UpdateAvailable? <==>
      && sector != [] && ParseLocal(sector).Some?
      && manifestBody != [] && ParseRemote(manifestBody).Some?
      && Newer(ParseRemote(manifestBody).value.Triple(), Installed(ParseLocal(sector).value))
  {
  }

  /** A manifest without the cycle field is reported as missing fields, and no comparison is made. */
  lemma MissingCycleNotCompared(sector: seq<char>, manifestBody: seq<char>)
    requires sector != [] && ParseLocal(sector).Some? && manifestBody != []
    requires !HasField(manifestBody, "airac_cycle", Number)
    ensures CheckOutcome(sector, manifestBody) == FieldsMissing
  {
    ParseRemoteFailsIff(manifestBody);
  }

  /** When the manifest announces exactly the installed version, the check reports up to date. */
  lemma SameVersionUpToDate(sector: seq<char>, manifestBody: seq<char>)
    requires sector != [] && ParseLocal(sector).Some?
    requires manifestBody != [] && ParseRemote(manifestBody).Some?
    requires ParseRemote(manifestBody).value.Triple() == Installed(ParseLocal(sector).value)
    ensures CheckOutcome(sector, manifestBody).UpToDate?
  {
    NewerIrreflexive(Installed(ParseLocal(sector).value));
  }

  /** A quiet check shows nothing unless an update is available, and an update alerts whether or not the check is verbose. */
  lemma QuietUnlessUpdate(outcome: Outcome)
    ensures NoticeFor(outcome, false) != Silent <==> outcome.UpdateAvailable?
    ensures outcome.UpdateAvailable? ==> NoticeFor(outcome, true) == Alert && NoticeFor(outcome, false) == Alert
  {
  }

  /** The welcome notice for a fetched `welcome.json` body: nothing when the fetch failed or both fields are empty. */
  function WelcomeNotice(body: seq<char>): Option<seq<char>> {
    if body == [] then None
    else
      var title := RegGet(body, "title", Quoted);
      var msg := RegGet(body, "message", Quoted);
      if title == [] && msg == [] then None
      else Some((if title == [] then "BGvACC" else title) + " " + (if msg == [] then "Welcome!" else msg))
  }

  /** Without a `title` or `message` field the welcome body shows nothing; with a non-empty title the notice starts with it. */
  lemma WelcomeNoticeFields(body: seq<char>)
    ensures !HasField(body, "title", Quoted) && !HasField(body, "message", Quoted) ==> WelcomeNotice(body).None?
    ensures body != [] && RegGet(body, "title", Quoted) != [] ==>
      && WelcomeNotice(body).Some?
      && WelcomeNotice(body).value[..|RegGet(body, "title", Quoted)|] == RegGet(body, "title", Quoted)
  {
    if !HasField(body, "title", Quoted) && !HasField(body, "message", Quoted) {
      RegGetAbsent(body, "title", Quoted);
      RegGetAbsent(body, "message", Quoted);
    }
  }

  /** A missing title or message is replaced by its default, `BGvACC` or `Welcome!`. */
  lemma WelcomeNoticeDefaults(body: seq<char>)
    requires body != []
    ensures var title, msg := RegGet(body, "title", Quoted), RegGet(body, "message", Quoted);
      && (title == [] && msg != [] ==> WelcomeNotice(body) == Some("BGvACC " + msg))
      && (title != [] && msg == [] ==> WelcomeNotice(body) == Some(title + " Welcome!"))
  {
    assert "BGvACC" + " " == "BGvACC ";
    var title := RegGet(body, "title", Quoted);
    assert title + " " + "Welcome!" == title + " Welcome!";
  }

  /** The reminder period in seconds: the configured minutes, but never less than a minute. */
  function ReminderInterval(minutes: int): (r: int)
    ensures r >= 60 && r >= minutes * 60
    ensures minutes >= 1 ==> r == minutes * 60
  {
    if minutes * 60 < 60 then 60 else minutes * 60
  }

  /** The session fields: the last connection type, the seconds online and the last reminder bucket. */
  datatype Session = Session(lastConnType: int, onlineSeconds: int, lastBucket: int)

  /** The latch agrees with the timer: the bucket is the number of whole intervals spent online. */
  ghost predicate Latched(s: Session, interval: int)
    requires interval > 0
  {
    s.onlineSeconds >= 0 && s.lastBucket == s.onlineSeconds / interval
  }

  /** The previous tick was offline, or there was none: a connected tick now starts a new session. */
  predicate WentOnline(lastConnType: int, ct: int) {
    (lastConnType == 0 || lastConnType == -1) && ct != 0
  }

  /** One tick of the session timer: the new session fields and whether the break reminder fires. */
  function SessionTick(s: Session, ct: int, minutes: int): (r: (Session, bool))
    ensures r.0.lastConnType == ct
    ensures ct == 0 ==> r.0.onlineSeconds == 0 && r.0.lastBucket == 0 && !r.1
    ensures ct != 0 ==> r.0.onlineSeconds == (if WentOnline(s.lastConnType, ct) then 1 else s.onlineSeconds + 1)
  {
    TickEvery(s, ct, ReminderInterval(minutes))
  }

  /** The tick of `SessionTick`, once the reminder period is `interval` seconds. */
  function TickEvery(s: Session, ct: int, interval: int): (Session, bool)
    requires interval > 0
  {
    var base := if WentOnline(s.lastConnType, ct) then Session(s.lastConnType, 0, 0) else s;
    if ct != 0 then
      var online := base.onlineSeconds + 1;
      var bucket := online / interval;
      if bucket > base.lastBucket then (Session(ct, online, bucket), true)
      else (Session(ct, online, base.lastBucket), false)
    else (Session(ct, 0, 0), false)
  }

  /** Division facts: `n / d` and `n % d` are the quotient and remainder of any such decomposition. */
  lemma DivModUnique(n: int, d: int, q: int, r: int)
    requires d > 0 && 0 <= r < d && n == q * d + r
    ensures n / d == q && n % d == r
  {
    var q0, r0 := n / d, n % d;
    assert (q - q0) * d == r0 - r;
    MulBound(q - q0, d);
  }

  /** A non-zero multiple of a positive `d` is at least `d` away from zero. */
  lemma MulBound(k: int, d: int)
    requires d > 0
    ensures k >= 1 ==> k * d >= d
    ensures k <= -1 ==> k * d <= -d
  {
  }

  /** One more second moves into the next bucket exactly when it completes an interval. */
  lemma NextBucket(n: int, d: int)
    requires n >= 0 && d > 0
    ensures (n + 1) / d == (if (n + 1) % d == 0 then n / d + 1 else n / d)
  {
    var q, r := n / d, n % d;
    if r + 1 < d {
      DivModUnique(n + 1, d, q, r + 1);
    } else {
      assert n + 1 == (q + 1) * d + 0;
      DivModUnique(n + 1, d, q + 1, 0);
    }
  }

  /** `TickEvery` keeps the latch in step with the timer, and fires exactly when a connected tick completes an interval. */
  lemma TickEveryLatched(s: Session, ct: int, d: int)
    requires d > 0 && Latched(s, d)
    ensures Latched(TickEvery(s, ct, d).0, d)
    ensures TickEvery(s, ct, d).1 <==> ct != 0 && TickEvery(s, ct, d).0.onlineSeconds % d == 0
  {
    if ct != 0 {
      var n := if WentOnline(s.lastConnType, ct) then 0 else s.onlineSeconds;
      assert n / d == (if WentOnline(s.lastConnType, ct) then 0 else s.lastBucket);
      NextBucket(n, d);
    }
  }

  /** A tick keeps the latch in step with the timer, and fires exactly when a connected tick completes an interval. */
  lemma SessionTickLatched(s: Session, ct: int, minutes: int)
    requires Latched(s, ReminderInterval(minutes))
    ensures Latched(SessionTick(s, ct, minutes).0, ReminderInterval(minutes))
    ensures SessionTick(s, ct, minutes).1 <==> ct != 0 && SessionTick(s, ct, minutes).0.onlineSeconds % ReminderInterval(minutes) == 0
  {
    TickEveryLatched(s, ct, ReminderInterval(minutes));
  }

  /** A reminder moves the latch to a later bucket, so no bucket fires twice. */
  lemma SessionTickAdvances(s: Session, ct: int, minutes: int)
    requires SessionTick(s, ct, minutes).1
    ensures SessionTick(s, ct, minutes).0.lastBucket > (if WentOnline(s.lastConnType, ct) then 0 else s.lastBucket)
  {
  }

  /** Runs the ticks with connection types `cts` in turn: the final session fields and the number of reminders. */
  function SessionRun(s: Session, cts: seq<int>, minutes: int): (Session, nat)
    decreases |cts|
  {
    if cts == [] then (s, 0)
    else
      var (s1, fired) := SessionTick(s, cts[0], minutes);
      var (s2, count) := SessionRun(s1, cts[1..], minutes);
      (s2, count + (if fired then 1 else 0))
  }

  /**
   * Over an unbroken connection, the timer counts every tick and the reminder
   * fires once per interval boundary crossed.
   */
  lemma {:induction false} ConnectedRun(s: Session, cts: seq<int>, minutes: int)
    requires Latched(s, ReminderInterval(minutes)) && s.lastConnType > 0
    requires forall i :: 0 <= i < |cts| ==> cts[i] > 0
    ensures var d := ReminderInterval(minutes);
      && SessionRun(s, cts, minutes).0.onlineSeconds == s.onlineSeconds + |cts|
      && SessionRun(s, cts, minutes).1 == (s.onlineSeconds + |cts|) / d - s.onlineSeconds / d
    decreases |cts|
  {
    if cts != [] {
      var d := ReminderInterval(minutes);
      var t := SessionTick(s, cts[0], minutes);
      SessionTickLatched(s, cts[0], minutes);
      NextBucket(s.onlineSeconds, d);
      assert t.0.onlineSeconds == s.onlineSeconds + 1 && t.0.lastConnType == cts[0];
      ConnectedRun(t.0, cts[1..], minutes);
    }
  }

  /**
   * A session that starts from offline fires `k / interval` reminders in its
   * first `k` connected seconds: one at each whole interval.
   */
  lemma {:induction false} SessionFromOffline(s: Session, cts: seq<int>, minutes: int)
    requires s.lastConnType == 0 || s.lastConnType == -1
    requires |cts| > 0 && forall i :: 0 <= i < |cts| ==> cts[i] > 0
    ensures SessionRun(s, cts, minutes).0.onlineSeconds == |cts|
    ensures SessionRun(s, cts, minutes).1 == |cts| / ReminderInterval(minutes)
  {
    var d := ReminderInterval(minutes);
    var t := SessionTick(s, cts[0], minutes);
    DivModUnique(1, d, 0, 1);
    assert t == (Session(cts[0], 1, 0), false);
    ConnectedRun(t.0, cts[1..], minutes);
  }

  /** With a one-minute interval: the 60th second fires, the 61st does not, the 120th fires again. */
  lemma ReminderExample()
    ensures SessionTick(Session(1, 59, 0), 1, 1) == (Session(1, 60, 1), true)
    ensures SessionTick(Session(1, 60, 1), 1, 1) == (Session(1, 61, 1), false)
    ensures SessionTick(Session(1, 119, 1), 1, 1) == (Session(1, 120, 2), true)
  {
  }

  /** A disconnected tick clears the timer and the latch, and reconnecting starts again from the first second. */
  lemma ReconnectResets(s: Session, minutes: int, ct: int)
    requires ct != 0
    ensures var off := SessionTick(s, 0, minutes).0;
      && off == Session(0, 0, 0)
      && SessionTick(off, ct, minutes) == (Session(ct, 1, 0), false)
  {
    DivModUnique(1, ReminderInterval(minutes), 0, 1);
  }

  /** The result of one check run inside a tick. */
  datatype CheckReport = CheckReport(outcome: Outcome, notice: Notice)

  /** What one tick showed the user. */
  datatype TickEffects = TickEffects(
    welcome: Option<seq<char>>,      // the welcome notice, on the first tick
    firstCheck: Option<CheckReport>, // the verbose check of the first tick
    hint: bool,                      // the hint naming the manual check command, on the first tick
    autoCheck: Option<CheckReport>,  // the periodic quiet check
    reminder: bool)                  // the break reminder

  /** The plugin instance and the fields its callbacks update. */
  class Monitor {
    var lastCheckCounter: int
    const intervalSec: int := 5
    var autoChecksStopped: bool
    var lastDownloadUrl: seq<char>
    var lastConnType: int
    var onlineSeconds: int
    const reminderMinutes: int := 120
    var lastReminderBucket: int
    var welcomeShown: bool
    var firstTick: bool

    /** The session fields as a value. */
    function SessionOf(): Session
      reads this
    {
      Session(lastConnType, onlineSeconds, lastReminderBucket)
    }

    /** The reminder latch agrees with the session timer. */
    ghost predicate Valid()
      reads this
    {
      Latched(SessionOf(), ReminderInterval(reminderMinutes))
    }

    /** The state after loading: no check yet, offline, nothing shown. */
    constructor ()
      ensures Valid() && firstTick
      ensures lastCheckCounter == 0 && !autoChecksStopped && lastDownloadUrl == []
      ensures SessionOf() == Session(-1, 0, 0) && !welcomeShown
    {
      lastCheckCounter := 0;
      autoChecksStopped := false;
      lastDownloadUrl := [];
      welcomeShown := false;
      lastConnType := -1;
      onlineSeconds := 0;
      lastReminderBucket := 0;
      firstTick := true;
    }

    /**
     * One update check. A non-empty sector name stops the periodic checks for
     * good, whether or not it parses; the download link is replaced only when
     * the manifest parses.
     */
    method DoCheck(verbose: bool, sector: seq<char>, manifestBody: seq<char>) returns (outcome: Outcome, notice: Notice)
      modifies this`autoChecksStopped, this`lastDownloadUrl
      ensures outcome == CheckOutcome(sector, manifestBody) && notice == NoticeFor(outcome, verbose)
      ensures autoChecksStopped == (old(autoChecksStopped) || sector != [])
      ensures lastDownloadUrl == (if outcome.Compared() then outcome.remote.downloadUrl else old(lastDownloadUrl))
    {
      if sector == [] {
        outcome := NoSector;
        notice := if verbose then Chat else Silent;
        return;
      }
      autoChecksStopped := true;
      var local := ParseLocal(sector);
      if local.None? {
        outcome := LabelUnparsed;
        notice := if verbose then Chat else Silent;
        return;
      }
      if manifestBody == [] {
        outcome := FetchFailed;
        notice := if verbose then Chat else Silent;
        return;
      }
      var remote := ParseRemote(manifestBody);
      if remote.None? {
        outcome := FieldsMissing;
        notice := if verbose then Chat else Silent;
        return;
      }
      lastDownloadUrl := remote.value.downloadUrl;
      if Newer(remote.value.Triple(), Installed(local.value)) {
        outcome := UpdateAvailable(local.value, remote.value);
        notice := Alert;
      } else {
        outcome := UpToDate(local.value, remote.value);
        notice := if verbose then Chat else Silent;
      }
    }

    /** Shows the welcome notice once per session, and only when there is something to show. */
    method ShowWelcomeIfAvailable(body: seq<char>) returns (shown: Option<seq<char>>)
      modifies this`welcomeShown
      ensures shown == (if old(welcomeShown) then None else WelcomeNotice(body))
      ensures welcomeShown == (old(welcomeShown) || shown.Some?)
    {
      if welcomeShown {
        return None;
      }
      if body == [] {
        return None;
      }
      var title := RegGet(body, "title", Quoted);
      var msg := RegGet(body, "message", Quoted);
      if title == [] && msg == [] {
        return None;
      }
      var text := (if title == [] then "BGvACC" else title) + " " + (if msg == [] then "Welcome!" else msg);
      shown := Some(text);
      welcomeShown := true;
    }

    /** The periodic check: due when `intervalSec` seconds have passed since the last one, and only until a sector is seen. */
    method AutoCheck(counter: int, sector: seq<char>, manifestBody: seq<char>) returns (report: Option<CheckReport>)
      modifies this`lastCheckCounter, this`autoChecksStopped, this`lastDownloadUrl
      ensures var due := !old(autoChecksStopped) && counter - old(lastCheckCounter) >= intervalSec;
        && report == (if due then Some(CheckReport(CheckOutcome(sector, manifestBody), NoticeFor(CheckOutcome(sector, manifestBody), false))) else None)
        && lastCheckCounter == (if due then counter else old(lastCheckCounter))
        && autoChecksStopped == (old(autoChecksStopped) || (due && sector != []))
        && lastDownloadUrl == (if due && CheckOutcome(sector, manifestBody).Compared() then CheckOutcome(sector, manifestBody).remote.downloadUrl else old(lastDownloadUrl))
    {
      report := None;
      if !autoChecksStopped {
        if counter - lastCheckCounter >= intervalSec {
          var outcome, notice := DoCheck(false, sector, manifestBody);
          report := Some(CheckReport(outcome, notice));
          lastCheckCounter := counter;
        }
      }
    }

    /** The session timer and the break reminder, for a tick with connection type `ct`. */
    method TrackSession(ct: int) returns (reminder: bool)
      modifies this`lastConnType, this`onlineSeconds, this`lastReminderBucket
      ensures (SessionOf(), reminder) == SessionTick(old(SessionOf()), ct, reminderMinutes)
    {
      var wentOnline := (lastConnType == 0 || lastConnType == -1) && ct != 0;
      if wentOnline {
        onlineSeconds := 0;
        lastReminderBucket := 0;
      }
      reminder := false;
      if ct != 0 {
        onlineSeconds := onlineSeconds + 1;
        var interval := reminderMinutes * 60;
        if interval < 60 {
          interval := 60;
        }
        var bucket := onlineSeconds / interval;
        if bucket > lastReminderBucket {
          lastReminderBucket := bucket;
          reminder := true;
        }
      } else {
        onlineSeconds := 0;
        lastReminderBucket := 0;
      }
      lastConnType := ct;
    }

    /**
     * The per-second callback: on the first tick the welcome notice, a verbose
     * check and the hint; then the periodic check when due; then the session
     * timer. The reminder latch stays in step with the timer.
     */
    method OnTimer(counter: int, sector: seq<char>, ct: int, welcomeBody: seq<char>, manifestBody: seq<char>)
      returns (effects: TickEffects)
      requires Valid()
      modifies this
      ensures Valid() && !firstTick
      ensures effects.hint == old(firstTick)
      ensures effects.welcome == (if old(firstTick) && !old(welcomeShown) then WelcomeNotice(welcomeBody) else None)
      ensures welcomeShown == (old(welcomeShown) || effects.welcome.Some?)
      ensures var outcome := CheckOutcome(sector, manifestBody);
        && effects.firstCheck == (if old(firstTick) then Some(CheckReport(outcome, NoticeFor(outcome, true))) else None)
        && var due := !(old(autoChecksStopped) || (old(firstTick) && sector != [])) && counter - old(lastCheckCounter) >= intervalSec;
        && effects.autoCheck == (if due then Some(CheckReport(outcome, NoticeFor(outcome, false))) else None)
        && lastCheckCounter == (if due then counter else old(lastCheckCounter))
        && autoChecksStopped == (old(autoChecksStopped) || ((old(firstTick) || due) && sector != []))
        && lastDownloadUrl == (if (old(firstTick) || due) && outcome.Compared() then outcome.remote.downloadUrl else old(lastDownloadUrl))
      ensures (SessionOf(), effects.reminder) == SessionTick(old(SessionOf()), ct, reminderMinutes)
    {
      var welcome: Option<seq<char>> := None;
      var first: Option<CheckReport> := None;
      var hint := false;
      if firstTick {
        firstTick := false;
        welcome := ShowWelcomeIfAvailable(welcomeBody);
        var outcome, notice := DoCheck(true, sector, manifestBody);
        first := Some(CheckReport(outcome, notice));
        hint := true;
      }
      var auto := AutoCheck(counter, sector, manifestBody);
      var reminder := TrackSession(ct);
      SessionTickLatched(old(SessionOf()), ct, reminderMinutes);
      effects := TickEffects(welcome, first, hint, auto, reminder);
    }
  }
}
