/** The daily digest: when it is due, what a run of it marks, and how often it is sent on one local day. */
module Digest {
  import opened Wrappers

  const DAY := 86_400
  const WINDOW_MINUTES := 10

  /** Times are seconds; the offset from UTC is fixed. */
  function LocalDay(t: int, offset: int): int {
    (t + offset) / DAY
  }

  function MinuteOfDay(t: int, offset: int): int {
    (t + offset) % DAY / 60
  }

  // ---------- The send time ----------

  predicate IsDigit(c: char) {
    '0' <= c <= '9'
  }

  function Number(tens: char, ones: char): int
    requires IsDigit(tens) && IsDigit(ones)
  {
    10 * (tens as int - '0' as int) + (ones as int - '0' as int)
  }

  predicate MatchesPattern(s: string) {
    |s| == 5 && IsDigit(s[0]) && IsDigit(s[1]) && s[2] == ':' && IsDigit(s[3]) && IsDigit(s[4])
  }

  /** `String(n).padStart(2, '0')`. */
  function TwoDigits(n: int): string
    requires 0 <= n < 100
  {
    ['0' + (n / 10) as char, '0' + (n % 10) as char]
  }

  function NormalizeSendTime(s: string): string {
    if !MatchesPattern(s) then "08:00"
    else
      var h, m := Number(s[0], s[1]), Number(s[3], s[4]);
      if h < 0 || h > 23 || m < 0 || m > 59 then "08:00" else TwoDigits(h) + ":" + TwoDigits(m)
  }

  /** A time of day. */
  predicate IsTime(s: string) {
    MatchesPattern(s) && Number(s[0], s[1]) <= 23 && Number(s[3], s[4]) <= 59
  }

  lemma DigitsAgain(tens: char, ones: char)
    requires IsDigit(tens) && IsDigit(ones)
    ensures TwoDigits(Number(tens, ones)) == [tens, ones]
  {
    var n := Number(tens, ones);
    assert n / 10 == tens as int - '0' as int && n % 10 == ones as int - '0' as int;
  }

  /** What is stored is a time of day: the one asked for when it is one, and eight o'clock otherwise. */
  lemma NormalizedIsTime(s: string)
    ensures IsTime(NormalizeSendTime(s)) && NormalizeSendTime(s) == if IsTime(s) then s else "08:00"
    ensures NormalizeSendTime(NormalizeSendTime(s)) == NormalizeSendTime(s)
  {
    assert IsTime("08:00");
    DigitsAgain('0', '8');
    DigitsAgain('0', '0');
    assert NormalizeSendTime("08:00") == "08:00";
    if IsTime(s) {
      DigitsAgain(s[0], s[1]);
      DigitsAgain(s[3], s[4]);
      assert s == [s[0], s[1]] + ":" + [s[3], s[4]];
    }
  }

  /** A time of day is two digits up to 23, a colon and two digits up to 59. */
  lemma TimeIff(s: string)
    ensures IsTime(s) <==>
              && |s| == 5 && s[2] == ':'
              && (s[0] in {'0', '1'} || (s[0] == '2' && s[1] in {'0', '1', '2', '3'}))
              && s[1] in {'0', '1', '2', '3', '4', '5', '6', '7', '8', '9'}
              && s[3] in {'0', '1', '2', '3', '4', '5'}
              && s[4] in {'0', '1', '2', '3', '4', '5', '6', '7', '8', '9'}
  {
    var digits := {'0', '1', '2', '3', '4', '5', '6', '7', '8', '9'};
    forall c: char ensures IsDigit(c) <==> c in digits {
      if IsDigit(c) { assert c as int - '0' as int in {0, 1, 2, 3, 4, 5, 6, 7, 8, 9}; }
    }
  }

  function Target(sendTime: string): int
    requires IsTime(sendTime)
  {
    Number(sendTime[0], sendTime[1]) * 60 + Number(sendTime[3], sendTime[4])
  }

  // ---------- One tick ----------

  datatype Config = Config(enabled: bool, sendTime: string, lastSentAt: Option<int>)

  predicate Valid(c: Config) {
    IsTime(c.sendTime)
  }

  predicate SentOn(c: Config, day: int, offset: int) {
    c.lastSentAt.Some? && LocalDay(c.lastSentAt.value, offset) == day
  }

  predicate InWindow(c: Config, now: int, offset: int)
    requires Valid(c)
  {
    Target(c.sendTime) <= MinuteOfDay(now, offset) < Target(c.sendTime) + WINDOW_MINUTES
  }

  predicate Due(c: Config, now: int, offset: int)
    requires Valid(c)
  {
    c.enabled && InWindow(c, now, offset) && !SentOn(c, LocalDay(now, offset), offset)
  }

  /** What a due run meets: something to say, somebody to say it to, a send that works, and a mark that works
      and is written at `markedAt`. */
  datatype Conditions = Conditions(hasContent: bool, hasRecipient: bool, sends: bool, marks: bool, markedAt: int)

  /** `buildAndSend`: an empty digest is marked and not sent, one without recipient is neither. */
  predicate Sends(x: Conditions) {
    x.hasContent && x.hasRecipient && x.sends
  }

  predicate Marks(x: Conditions) {
    x.marks && (!x.hasContent || (x.hasRecipient && x.sends))
  }

  datatype Event = Tick(now: int, conditions: Conditions) | Save(enabled: bool, sendTime: string)

  function Step(c: Config, e: Event, offset: int): (r: Config)
    requires Valid(c)
    ensures Valid(r)
  {
    match e
    case Save(enabled, sendTime) =>
      NormalizedIsTime(sendTime);
      c.(enabled := enabled, sendTime := NormalizeSendTime(sendTime))
    case Tick(now, x) =>
      if Due(c, now, offset) && Marks(x) then c.(lastSentAt := Some(x.markedAt)) else c
  }

  predicate SendsAt(c: Config, e: Event, offset: int)
    requires Valid(c)
  {
    e.Tick? && Due(c, e.now, offset) && Sends(e.conditions)
  }

  /** `DigestConfigService` with the stored values of one application, and `DigestService` on top of it. */
  class DigestConfigService {
    var enabled: bool
    var sendTime: Option<string>
    var lastSentAt: Option<int>

    function Stored(): Config
      reads this
    {
      Config(enabled, if sendTime.Some? then sendTime.value else "08:00", lastSentAt)
    }

    /** `saveConfig`. */
    method SaveConfig(enabled: bool, sendTime: string)
      requires Valid(Stored())
      modifies this
      ensures Stored() == Step(old(Stored()), Save(enabled, sendTime), 0)
      ensures this.enabled == enabled && lastSentAt == old(lastSentAt)
      ensures this.sendTime == Some(if IsTime(sendTime) then sendTime else "08:00")
    {
      this.enabled := enabled;
      this.sendTime := Some(NormalizeSendTime(sendTime));
      NormalizedIsTime(sendTime);
    }

    method MarkSent(now: int)
      modifies this`lastSentAt
      ensures Stored() == old(Stored()).(lastSentAt := Some(now))
    {
      lastSentAt := Some(now);
    }

    /** `isDueToSend`. */
    method IsDueToSend(now: int, offset: int) returns (due: bool)
      requires Valid(Stored())
      ensures due == Due(Stored(), now, offset)
      ensures var t := if sendTime.Some? then sendTime.value else "08:00";
              var target := 600 * (t[0] as int - 48) + 60 * (t[1] as int - 48) + 10 * (t[3] as int - 48) + (t[4] as int - 48);
              due <==>
                && enabled && target <= (now + offset) % 86_400 / 60 < target + 10
                && (lastSentAt.Some? ==> (lastSentAt.value + offset) / 86_400 != (now + offset) / 86_400)
    {
      var config := Stored();
      if !config.enabled { return false; }
      var currentMinutes := MinuteOfDay(now, offset);
      var targetMinutes := Target(config.sendTime);
      var inWindow := currentMinutes >= targetMinutes && currentMinutes < targetMinutes + WINDOW_MINUTES;
      if !inWindow { return false; }
      if config.lastSentAt.Some? {
        if LocalDay(config.lastSentAt.value, offset) == LocalDay(now, offset) { return false; }
      }
      return true;
    }

    /** `buildAndSend`. */
    method BuildAndSend(x: Conditions) returns (sent: bool)
      modifies this
      ensures sent == Sends(x)
      ensures sent <==> x.hasContent && x.hasRecipient && x.sends
      ensures Stored() == if Marks(x) then old(Stored()).(lastSentAt := Some(x.markedAt)) else old(Stored())
      ensures enabled == old(enabled) && sendTime == old(sendTime)
      ensures lastSentAt == if x.marks && (sent || !x.hasContent) then Some(x.markedAt) else old(lastSentAt)
    {
      if !x.hasContent {
        if x.marks { MarkSent(x.markedAt); }
        return false;
      }
      if !x.hasRecipient { return false; }
      if !x.sends { return false; }
      if x.marks { MarkSent(x.markedAt); }
      return true;
    }

    /** The scheduled task for this application. */
    method HandleTick(now: int, x: Conditions, offset: int) returns (sent: bool)
      requires Valid(Stored())
      modifies this
      ensures Stored() == Step(old(Stored()), Tick(now, x), offset)
      ensures sent == SendsAt(old(Stored()), Tick(now, x), offset)
    {
      var due := IsDueToSend(now, offset);
      if !due { return false; }
      sent := BuildAndSend(x);
    }
  }

  // ---------- Runs ----------

  /** How many digests a run sends on a local day. */
  function CountOn(c: Config, events: seq<Event>, offset: int, day: int): nat
    requires Valid(c)
    decreases |events|
  {
    if events == [] then 0
    else
      (if SendsAt(c, events[0], offset) && LocalDay(events[0].now, offset) == day then 1 else 0)
      + CountOn(Step(c, events[0], offset), events[1..], offset, day)
  }

  /** Ticks come in order. */
  predicate InOrder(events: seq<Event>) {
    forall i, j :: 0 <= i < j < |events| && events[i].Tick? && events[j].Tick? ==> events[i].now <= events[j].now
  }

  /** A digest that is sent is marked, on the local day on which its run started. */
  predicate MarkedSameDay(events: seq<Event>, offset: int) {
    forall e :: e in events && e.Tick? && Sends(e.conditions) ==>
      e.conditions.marks && LocalDay(e.conditions.markedAt, offset) == LocalDay(e.now, offset)
  }

  predicate NotBefore(events: seq<Event>, offset: int, day: int) {
    forall e :: e in events && e.Tick? ==> LocalDay(e.now, offset) >= day
  }

  lemma LaterDays(t: int, u: int, offset: int)
    requires t <= u
    ensures LocalDay(t, offset) <= LocalDay(u, offset)
  {
  }

  lemma RestInOrder(events: seq<Event>, offset: int)
    requires InOrder(events) && events != []
    ensures InOrder(events[1..])
    ensures events[0].Tick? ==> NotBefore(events[1..], offset, LocalDay(events[0].now, offset))
  {
    var rest := events[1..];
    forall i, j | 0 <= i < j < |rest| && rest[i].Tick? && rest[j].Tick? ensures rest[i].now <= rest[j].now {
      assert events[i + 1].now <= events[j + 1].now;
    }
    if events[0].Tick? {
      forall e | e in rest && e.Tick? ensures LocalDay(e.now, offset) >= LocalDay(events[0].now, offset) {
        var j :| 0 <= j < |rest| && rest[j] == e;
        assert events[j + 1] == e;
        LaterDays(events[0].now, e.now, offset);
      }
    }
  }

  lemma {:induction false} NoneAfterDay(c: Config, events: seq<Event>, offset: int, day: int)
    requires Valid(c) && NotBefore(events, offset, day + 1)
    ensures CountOn(c, events, offset, day) == 0
    decreases |events|
  {
    if events != [] {
      assert events[0] in events;
      NoneAfterDay(Step(c, events[0], offset), events[1..], offset, day);
    }
  }

  /** Once a day is marked, nothing more is sent on it. */
  lemma {:induction false} NoneOnceMarked(c: Config, events: seq<Event>, offset: int, day: int)
    requires Valid(c) && SentOn(c, day, offset) && InOrder(events) && NotBefore(events, offset, day)
    ensures CountOn(c, events, offset, day) == 0
    decreases |events|
  {
    if events != [] {
      var e, rest := events[0], events[1..];
      assert e in events;
      RestInOrder(events, offset);
      if e.Tick? && LocalDay(e.now, offset) > day {
        NoneAfterDay(Step(c, e, offset), rest, offset, day);
      } else {
        NoneOnceMarked(Step(c, e, offset), rest, offset, day);
      }
    }
  }

  /** At most one digest is sent on a local day, whatever the ticks, failures and changes of the settings
      are, as long as a sent digest is marked on the day its run started. */
  lemma {:induction false} AtMostOnce(c: Config, events: seq<Event>, offset: int, day: int)
    requires Valid(c) && InOrder(events) && MarkedSameDay(events, offset)
    ensures CountOn(c, events, offset, day) <= 1
    decreases |events|
  {
    if events != [] {
      var e, rest := events[0], events[1..];
      assert e in events;
      RestInOrder(events, offset);
      if SendsAt(c, e, offset) && LocalDay(e.now, offset) == day {
        NoneOnceMarked(Step(c, e, offset), rest, offset, day);
      } else {
        AtMostOnce(Step(c, e, offset), rest, offset, day);
      }
    }
  }

  /** A digest that is switched off is never sent, until the setting is saved again. */
  lemma {:induction false} SwitchedOffSendsNone(c: Config, ticks: seq<Event>, offset: int, day: int)
    requires Valid(c) && !c.enabled && forall e :: e in ticks ==> e.Tick?
    ensures CountOn(c, ticks, offset, day) == 0
    decreases |ticks|
  {
    if ticks != [] {
      assert ticks[0] in ticks;
      SwitchedOffSendsNone(Step(c, ticks[0], offset), ticks[1..], offset, day);
    }
  }

  /** After a digest was sent, no run that follows sends another on the same local day if and only if it was marked,
      and on that day. */
  lemma SentOnceIff(c: Config, e: Event, offset: int)
    requires Valid(c) && SendsAt(c, e, offset)
    ensures (forall events :: InOrder([e] + events)
                              ==> CountOn(Step(c, e, offset), events, offset, LocalDay(e.now, offset)) == 0)
            <==> e.conditions.marks && LocalDay(e.conditions.markedAt, offset) == LocalDay(e.now, offset)
  {
    var day, c' := LocalDay(e.now, offset), Step(c, e, offset);
    if e.conditions.marks && LocalDay(e.conditions.markedAt, offset) == day {
      forall events | InOrder([e] + events) ensures CountOn(c', events, offset, day) == 0 {
        RestInOrder([e] + events, offset);
        assert ([e] + events)[1..] == events;
        NoneOnceMarked(c', events, offset, day);
      }
    } else {
      assert InOrder([e] + [e]) && SendsAt(c', e, offset) && [e][1..] == [];
      assert CountOn(c', [e], offset, day) == 1;
    }
  }

  /** Without the mark the next tick in the window sends again. */
  lemma LostMarkSendsTwice()
    ensures var c := Config(true, "08:00", None);
            var sent := Conditions(true, true, true, false, 0);
            CountOn(c, [Tick(28_800, sent), Tick(28_860, sent)], 0, 0) == 2
  {
    var c := Config(true, "08:00", None);
    var sent := Conditions(true, true, true, false, 0);
    var events := [Tick(28_800, sent), Tick(28_860, sent)];
    assert Target("08:00") == 480;
    assert Due(c, 28_800, 0) && Due(c, 28_860, 0);
    assert events[1..] == [Tick(28_860, sent)] && events[1..][1..] == [];
    assert CountOn(c, events[1..], 0, 0) == 1;
  }

  // ---------- Once a day ----------

  /** Ticks only, at most ten minutes apart, every due one sending and marking on its own local day. */
  predicate Steady(ticks: seq<Event>, offset: int) {
    && (forall i :: 0 <= i < |ticks| ==>
          && ticks[i].Tick? && Sends(ticks[i].conditions) && ticks[i].conditions.marks
          && LocalDay(ticks[i].conditions.markedAt, offset) == LocalDay(ticks[i].now, offset))
    && (forall i {:trigger ticks[i]} :: 1 <= i < |ticks| ==> ticks[i - 1].now <= ticks[i].now <= ticks[i - 1].now + 600)
  }

  /** The first second of the window on a local day. */
  function WindowStart(sendTime: string, day: int, offset: int): int
    requires IsTime(sendTime)
  {
    day * DAY + Target(sendTime) * 60 - offset
  }

  /** The run starts no later than the window of the day and goes on until it has begun. */
  predicate Covers(ticks: seq<Event>, sendTime: string, day: int, offset: int)
    requires IsTime(sendTime) && Steady(ticks, offset)
  {
    && ticks != [] && ticks[0].now <= WindowStart(sendTime, day, offset)
    && WindowStart(sendTime, day, offset) <= ticks[|ticks| - 1].now
  }

  lemma TargetInDay(sendTime: string)
    requires IsTime(sendTime)
    ensures 0 <= Target(sendTime) < 1440
  {
  }

  /** A tick in the first ten minutes from the start of the window is in it, if the day is not over. */
  lemma WindowIsTenMinutes(c: Config, now: int, day: int, offset: int)
    requires Valid(c) && Target(c.sendTime) <= 1430
    ensures WindowStart(c.sendTime, day, offset) <= now < WindowStart(c.sendTime, day, offset) + 600
            <==> LocalDay(now, offset) == day && InWindow(c, now, offset)
  {
    TargetInDay(c.sendTime);
    var local := now + offset;
    var second := local % DAY;
    assert local == LocalDay(now, offset) * DAY + second;
    var t := Target(c.sendTime) * 60;
    assert InWindow(c, now, offset) <==> t <= second < t + 600;
    if t <= local - day * DAY < t + 600 {
      assert LocalDay(now, offset) == day;
    }
  }

  lemma SteadyRest(ticks: seq<Event>, offset: int)
    requires Steady(ticks, offset) && ticks != []
    ensures Steady(ticks[1..], offset)
  {
    var rest := ticks[1..];
    assert forall i :: 0 <= i < |rest| ==> rest[i] == ticks[i + 1];
    forall i {:trigger rest[i]} | 1 <= i < |rest| ensures rest[i - 1].now <= rest[i].now <= rest[i - 1].now + 600 {
      assert rest[i] == ticks[i + 1] && rest[i - 1] == ticks[i];
    }
  }

  lemma {:induction false} FiresInWindow(c: Config, ticks: seq<Event>, offset: int, day: int)
    requires Valid(c) && c.enabled && Target(c.sendTime) <= 1430 && !SentOn(c, day, offset) && Steady(ticks, offset)
    requires ticks != [] && ticks[0].now < WindowStart(c.sendTime, day, offset) + 600
    requires WindowStart(c.sendTime, day, offset) <= ticks[|ticks| - 1].now
    ensures CountOn(c, ticks, offset, day) >= 1
    decreases |ticks|
  {
    var e, rest := ticks[0], ticks[1..];
    WindowIsTenMinutes(c, e.now, day, offset);
    if e.now < WindowStart(c.sendTime, day, offset) {
      SteadyRest(ticks, offset);
      assert ticks[1].now <= ticks[0].now + 600;
      FiresInWindow(Step(c, e, offset), rest, offset, day);
    }
  }

  lemma {:induction false} SteadyInOrder(ticks: seq<Event>, offset: int, i: nat, j: nat)
    requires Steady(ticks, offset) && i <= j < |ticks|
    ensures ticks[i].now <= ticks[j].now
    decreases j - i
  {
    if i < j {
      SteadyInOrder(ticks, offset, i, j - 1);
      assert ticks[j - 1].now <= ticks[j].now;
    }
  }

  lemma ExactlyOnce(c: Config, ticks: seq<Event>, offset: int, day: int)
    requires Valid(c) && c.enabled && Target(c.sendTime) <= 1430 && !SentOn(c, day, offset)
    requires Steady(ticks, offset) && Covers(ticks, c.sendTime, day, offset)
    ensures CountOn(c, ticks, offset, day) == 1
  {
    FiresInWindow(c, ticks, offset, day);
    forall i, j | 0 <= i < j < |ticks| && ticks[i].Tick? && ticks[j].Tick? ensures ticks[i].now <= ticks[j].now {
      SteadyInOrder(ticks, offset, i, j);
    }
    forall e | e in ticks && e.Tick? && Sends(e.conditions)
      ensures e.conditions.marks && LocalDay(e.conditions.markedAt, offset) == LocalDay(e.now, offset)
    {
      var i :| 0 <= i < |ticks| && ticks[i] == e;
    }
    AtMostOnce(c, ticks, offset, day);
  }

  /** With steady ticks the digest is sent exactly once on every local day the run covers. */
  ghost predicate OnceADay(sendTime: string)
    requires IsTime(sendTime)
  {
    forall last, ticks, offset, day ::
      var c := Config(true, sendTime, last);
      Steady(ticks, offset) && Covers(ticks, sendTime, day, offset) && !SentOn(c, day, offset)
      ==> CountOn(c, ticks, offset, day) == 1
  }

  /** A run over the end of day 0 that steps over a window cut off by midnight. */
  function MissingTicks(sendTime: string): seq<Event>
    requires IsTime(sendTime)
  {
    var before := Target(sendTime) * 60 - 1;
    [Tick(before, Conditions(true, true, true, true, before)),
     Tick(before + 600, Conditions(true, true, true, true, before + 600))]
  }

  lemma LateWindowIsMissed(sendTime: string)
    requires IsTime(sendTime) && Target(sendTime) > 1430
    ensures Steady(MissingTicks(sendTime), 0) && Covers(MissingTicks(sendTime), sendTime, 0, 0)
    ensures CountOn(Config(true, sendTime, None), MissingTicks(sendTime), 0, 0) == 0
  {
    TargetInDay(sendTime);
    var c := Config(true, sendTime, None);
    var ticks := MissingTicks(sendTime);
    var before := Target(sendTime) * 60 - 1;
    assert MinuteOfDay(before, 0) == Target(sendTime) - 1;
    assert LocalDay(before + 600, 0) == 1;
    assert ticks[1..] == [ticks[1]] && ticks[1..][1..] == [];
    assert !SendsAt(c, ticks[0], 0) && Step(c, ticks[0], 0) == c;
    assert CountOn(c, ticks[1..], 0, 0) == 0;
  }

  /** The digest is sent exactly once a day if and only if its send time is 23:50 or earlier: a later window
      is cut off by midnight and ten minutes between ticks can step over it. */
  lemma OnceADayIffBeforeTenToMidnight(sendTime: string)
    requires IsTime(sendTime)
    ensures OnceADay(sendTime) <==> Target(sendTime) <= 1430
  {
    if Target(sendTime) <= 1430 {
      forall last, ticks, offset, day |
        Steady(ticks, offset) && Covers(ticks, sendTime, day, offset)
        && !SentOn(Config(true, sendTime, last), day, offset)
        ensures CountOn(Config(true, sendTime, last), ticks, offset, day) == 1
      {
        ExactlyOnce(Config(true, sendTime, last), ticks, offset, day);
      }
    } else {
      LateWindowIsMissed(sendTime);
      assert !SentOn(Config(true, sendTime, None), 0, 0);
    }
  }

  // ---------- Marks written after midnight ----------

  /** Ticks only, at most ten minutes apart; every one that is due sends, and its mark is written at some time
      between it and the next. */
  predicate Regular(ticks: seq<Event>) {
    && (forall i :: 0 <= i < |ticks| ==>
          && ticks[i].Tick? && Sends(ticks[i].conditions) && ticks[i].conditions.marks
          && ticks[i].now <= ticks[i].conditions.markedAt)
    && (forall i {:trigger ticks[i]} :: 1 <= i < |ticks| ==>
          ticks[i - 1].conditions.markedAt <= ticks[i].now <= ticks[i - 1].now + 600)
  }

  /** Some digest of an earlier local day is marked on this one. */
  predicate MarksAhead(c: Config, ticks: seq<Event>, offset: int, day: int)
    requires Valid(c)
    decreases |ticks|
  {
    ticks != []
    && (|| (SendsAt(c, ticks[0], offset) && LocalDay(ticks[0].now, offset) < day && ticks[0].conditions.marks
            && LocalDay(ticks[0].conditions.markedAt, offset) == day)
        || MarksAhead(Step(c, ticks[0], offset), ticks[1..], offset, day))
  }

  lemma RegularRest(ticks: seq<Event>, offset: int)
    requires Regular(ticks) && ticks != []
    ensures Regular(ticks[1..]) && (|ticks| > 1 ==> ticks[0].conditions.markedAt <= ticks[1].now <= ticks[0].now + 600)
  {
    var rest := ticks[1..];
    assert forall i :: 0 <= i < |rest| ==> rest[i] == ticks[i + 1];
    forall i {:trigger rest[i]} | 1 <= i < |rest|
      ensures rest[i - 1].conditions.markedAt <= rest[i].now <= rest[i - 1].now + 600
    {
      assert rest[i] == ticks[i + 1] && rest[i - 1] == ticks[i];
    }
  }

  lemma {:induction false} RegularInOrder(ticks: seq<Event>, i: nat, j: nat)
    requires Regular(ticks) && i <= j < |ticks|
    ensures ticks[i].now <= ticks[j].now && (i < j ==> ticks[i].conditions.markedAt <= ticks[j].now)
    decreases j - i
  {
    if i < j {
      RegularInOrder(ticks, i, j - 1);
      assert ticks[j - 1].conditions.markedAt <= ticks[j].now;
    }
  }

  lemma RestComesInOrder(ticks: seq<Event>)
    requires Regular(ticks) && ticks != []
    ensures InOrder(ticks[1..])
  {
    hide Regular;
    var rest := ticks[1..];
    forall i, j | 0 <= i < j < |rest| && rest[i].Tick? && rest[j].Tick? ensures rest[i].now <= rest[j].now {
      RegularInOrder(ticks, i + 1, j + 1);
      assert rest[i] == ticks[i + 1] && rest[j] == ticks[j + 1];
    }
  }

  lemma RestAfterMark(ticks: seq<Event>, offset: int, e: Event)
    requires Regular(ticks) && ticks != [] && e in ticks[1..]
    ensures e.Tick? && LocalDay(e.now, offset) >= LocalDay(ticks[0].conditions.markedAt, offset)
  {
    hide LocalDay;
    var rest := ticks[1..];
    var j :| 0 <= j < |rest| && rest[j] == e;
    assert ticks[j + 1] == e;
    RegularInOrder(ticks, 0, j + 1);
    LaterDays(ticks[0].conditions.markedAt, e.now, offset);
  }

  /** What follows a tick comes in order and not before its mark. */
  lemma RestFollowsMark(ticks: seq<Event>, offset: int)
    requires Regular(ticks) && ticks != []
    ensures ticks[0].Tick?
    ensures InOrder(ticks[1..]) && NotBefore(ticks[1..], offset, LocalDay(ticks[0].conditions.markedAt, offset))
  {
    hide LocalDay;
    hide InOrder;
    RestComesInOrder(ticks);
    forall e | e in ticks[1..] && e.Tick? ensures LocalDay(e.now, offset) >= LocalDay(ticks[0].conditions.markedAt, offset) {
      RestAfterMark(ticks, offset, e);
    }
  }

  lemma {:induction false} NoneAheadFrom(c: Config, ticks: seq<Event>, offset: int, day: int)
    requires Valid(c) && NotBefore(ticks, offset, day)
    ensures !MarksAhead(c, ticks, offset, day)
    decreases |ticks|
  {
    if ticks != [] {
      assert ticks[0] in ticks;
      NoneAheadFrom(Step(c, ticks[0], offset), ticks[1..], offset, day);
    }
  }

  /** A tick in the window sends the digest of the day, and nothing after it does. */
  lemma SentNow(c: Config, ticks: seq<Event>, offset: int, day: int)
    requires Valid(c) && c.enabled && !SentOn(c, day, offset) && Regular(ticks) && ticks != []
    requires LocalDay(ticks[0].now, offset) == day && InWindow(c, ticks[0].now, offset)
    ensures CountOn(c, ticks, offset, day) == 1 && !MarksAhead(c, ticks, offset, day)
  {
    var e, rest := ticks[0], ticks[1..];
    RestFollowsMark(ticks, offset);
    LaterDays(e.now, e.conditions.markedAt, offset);
    var c' := Step(c, e, offset);
    if LocalDay(e.conditions.markedAt, offset) == day {
      NoneOnceMarked(c', rest, offset, day);
    } else {
      NoneAfterDay(c', rest, offset, day);
    }
    NoneAheadFrom(c', rest, offset, day);
  }

  /** A digest of an earlier day, marked on this one, leaves none for it. */
  lemma MarkedAhead(c: Config, ticks: seq<Event>, offset: int, day: int)
    requires Valid(c) && Regular(ticks) && ticks != []
    requires SendsAt(c, ticks[0], offset) && LocalDay(ticks[0].now, offset) < day
    requires LocalDay(ticks[0].conditions.markedAt, offset) == day
    ensures CountOn(c, ticks, offset, day) == 0 && MarksAhead(c, ticks, offset, day)
  {
    RestFollowsMark(ticks, offset);
    NoneOnceMarked(Step(c, ticks[0], offset), ticks[1..], offset, day);
  }

  /** With a send time of 23:50 or earlier and regular ticks, a local day that the run covers and that was not marked
      before gets exactly one digest, or none, and none if and only if the digest of an earlier day is marked on
      it. */
  lemma {:induction false} SkippedIffMarkedAhead(c: Config, ticks: seq<Event>, offset: int, day: int)
    requires Valid(c) && c.enabled && Target(c.sendTime) <= 1430 && !SentOn(c, day, offset) && Regular(ticks)
    requires ticks != [] && ticks[0].now < WindowStart(c.sendTime, day, offset) + 600
    requires WindowStart(c.sendTime, day, offset) <= ticks[|ticks| - 1].now
    ensures CountOn(c, ticks, offset, day) == if MarksAhead(c, ticks, offset, day) then 0 else 1
    decreases |ticks|
  {
    var e, rest := ticks[0], ticks[1..];
    WindowIsTenMinutes(c, e.now, day, offset);
    if e.now >= WindowStart(c.sendTime, day, offset) {
      SentNow(c, ticks, offset, day);
    } else {
      RegularRest(ticks, offset);
      BeforeWindow(c, e.now, day, offset);
      if SendsAt(c, e, offset) && LocalDay(e.conditions.markedAt, offset) == day {
        MarkedAhead(c, ticks, offset, day);
      } else {
        SkippedIffMarkedAhead(Step(c, e, offset), rest, offset, day);
      }
    }
  }

  /** Before the window begins, a tick on its day is not due. */
  lemma BeforeWindow(c: Config, now: int, day: int, offset: int)
    requires Valid(c) && Target(c.sendTime) <= 1430 && now < WindowStart(c.sendTime, day, offset)
    ensures LocalDay(now, offset) <= day && (LocalDay(now, offset) == day ==> !InWindow(c, now, offset))
  {
    WindowIsTenMinutes(c, now, day, offset);
    TargetInDay(c.sendTime);
  }

  /** A mark written after midnight counts for the new day: the digest of that day is not sent, although a
      tick falls into its window. */
  lemma MarkAfterMidnightSkipsADay()
    ensures var c := Config(true, "23:50", None);
            var first := Tick(86_340, Conditions(true, true, true, true, 86_401));
            var second := Tick(86_400 + 85_800, Conditions(true, true, true, true, 86_400 + 85_801));
            && CountOn(c, [first, second], 0, 0) == 1
            && InWindow(c, second.now, 0) && CountOn(c, [first, second], 0, 1) == 0
  {
    var c := Config(true, "23:50", None);
    var first := Tick(86_340, Conditions(true, true, true, true, 86_401));
    var second := Tick(86_400 + 85_800, Conditions(true, true, true, true, 86_400 + 85_801));
    assert Target("23:50") == 1430;
    assert SendsAt(c, first, 0) && !SendsAt(Step(c, first, 0), second, 0);
    assert [first, second][1..] == [second] && [second][1..] == [];
    assert CountOn(Step(c, first, 0), [second], 0, 0) == 0 && CountOn(Step(c, first, 0), [second], 0, 1) == 0;
  }
}
