/**
 * The scheduler (scheduler.c): it is polled every few seconds and walks its
 * entries when the minute of the hour is not the one of the last walk.
 */
module Scheduler {
  import opened Cron
  import opened Split

  datatype HourMinute = HourMinute(hour: int, min: int)

  /** The outcome of the astronomical calculation. */
  datatype Sun = Sun(ddValid: bool, dawn: HourMinute, dusk: HourMinute,
                     ssValid: bool, sunrise: HourMinute, sunset: HourMinute)

  datatype Entry = Entry(entryName: string, typeParam: string, cronSubstrs: seq<string>, execParam: string)

  function NewEntry(name: string, cronExp: string, param: string): Entry {
    Entry(name, cronExp, Pieces(cronExp, BLANKS), param)
  }

  predicate IsAtCommand(e: Entry) {
    e.typeParam != "" && e.typeParam[0] == '@'
  }

  // ----- one walk -----

  predicate Now(at: HourMinute, t: Time) {
    t.hour == at.hour && t.min == at.min
  }

  /** Whether an entry runs in a walk at a time. */
  ghost predicate Due(e: Entry, t: Time, sun: Sun, startupRan: bool) {
    if IsAtCommand(e) then
      || (e.typeParam == "@startup" && !startupRan)
      || (e.typeParam == "@sunrise" && sun.ssValid && Now(sun.sunrise, t))
      || (e.typeParam == "@sunset" && sun.ssValid && Now(sun.sunset, t))
      || (e.typeParam == "@dawn" && sun.ddValid && Now(sun.dawn, t))
      || (e.typeParam == "@dusk" && sun.ddValid && Now(sun.dusk, t))
    else CronDue(e.cronSubstrs, t)
  }

  /** The state that walks change: what was called, and whether startup entries have run. */
  datatype Progress = Progress(called: seq<Entry>, startupRan: bool)

  ghost function Visit(p: Progress, e: Entry, t: Time, sun: Sun): Progress {
    if Due(e, t, sun, p.startupRan)
    then Progress(p.called + [e], p.startupRan || e.typeParam == "@startup")
    else p
  }

  ghost function Walk(p: Progress, entries: seq<Entry>, t: Time, sun: Sun): Progress
    decreases entries
  {
    if entries == [] then p else Walk(Visit(p, entries[0], t, sun), entries[1..], t, sun)
  }

  ghost function DueEntries(entries: seq<Entry>, t: Time, sun: Sun): seq<Entry> {
    if entries == [] then []
    else (if Due(entries[0], t, sun, true) then [entries[0]] else []) + DueEntries(entries[1..], t, sun)
  }

  /** The entries with a given expression. */
  function OfKind(entries: seq<Entry>, text: string): seq<Entry> {
    if entries == [] then []
    else (if entries[0].typeParam == text then [entries[0]] else []) + OfKind(entries[1..], text)
  }

  lemma {:induction false} OfKindAppend(called: seq<Entry>, e: Entry, text: string)
    ensures OfKind(called + [e], text) == OfKind(called, text) + if e.typeParam == text then [e] else []
  {
    if called != [] {
      OfKindAppend(called[1..], e, text);
      assert (called + [e])[1..] == called[1..] + [e];
    } else {
      assert called + [e] == [e];
    }
  }

  /** A walk runs a startup entry only if none has run before, and then the first one. */
  lemma {:induction false} WalkStartups(p: Progress, entries: seq<Entry>, t: Time, sun: Sun)
    ensures
      var p' := Walk(p, entries, t, sun);
      var startups := OfKind(entries, "@startup");
      && OfKind(p'.called, "@startup")
         == OfKind(p.called, "@startup") + (if p.startupRan || startups == [] then [] else [startups[0]])
      && (p'.startupRan <==> p.startupRan || startups != [])
    decreases entries
  {
    if entries != [] {
      OfKindAppend(p.called, entries[0], "@startup");
      WalkStartups(Visit(p, entries[0], t, sun), entries[1..], t, sun);
    }
  }

  /** The entries of one kind are all called in a walk, in list order, or none of them is. */
  lemma {:induction false} WalkKind(p: Progress, entries: seq<Entry>, text: string, t: Time, sun: Sun, fires: bool)
    requires text != "" && text[0] == '@' && text != "@startup"
    requires fires <==> Due(Entry("", text, [], ""), t, sun, true)
    ensures OfKind(Walk(p, entries, t, sun).called, text)
         == OfKind(p.called, text) + if fires then OfKind(entries, text) else []
    decreases entries
  {
    if entries != [] {
      OfKindAppend(p.called, entries[0], text);
      WalkKind(Visit(p, entries[0], t, sun), entries[1..], text, t, sun, fires);
    }
  }

  /** In the minute of dawn a walk calls the dawn entries, and in no other. */
  lemma DawnWalk(p: Progress, entries: seq<Entry>, t: Time, sun: Sun)
    ensures OfKind(Walk(p, entries, t, sun).called, "@dawn") == OfKind(p.called, "@dawn")
         + if sun.ddValid && t.hour == sun.dawn.hour && t.min == sun.dawn.min then OfKind(entries, "@dawn") else []
  {
    WalkKind(p, entries, "@dawn", t, sun, sun.ddValid && t.hour == sun.dawn.hour && t.min == sun.dawn.min);
  }

  lemma DuskWalk(p: Progress, entries: seq<Entry>, t: Time, sun: Sun)
    ensures OfKind(Walk(p, entries, t, sun).called, "@dusk") == OfKind(p.called, "@dusk")
         + if sun.ddValid && t.hour == sun.dusk.hour && t.min == sun.dusk.min then OfKind(entries, "@dusk") else []
  {
    WalkKind(p, entries, "@dusk", t, sun, sun.ddValid && t.hour == sun.dusk.hour && t.min == sun.dusk.min);
  }

  lemma SunriseWalk(p: Progress, entries: seq<Entry>, t: Time, sun: Sun)
    ensures OfKind(Walk(p, entries, t, sun).called, "@sunrise") == OfKind(p.called, "@sunrise")
         + if sun.ssValid && t.hour == sun.sunrise.hour && t.min == sun.sunrise.min
           then OfKind(entries, "@sunrise") else []
  {
    WalkKind(p, entries, "@sunrise", t, sun,
             sun.ssValid && t.hour == sun.sunrise.hour && t.min == sun.sunrise.min);
  }

  lemma SunsetWalk(p: Progress, entries: seq<Entry>, t: Time, sun: Sun)
    ensures OfKind(Walk(p, entries, t, sun).called, "@sunset") == OfKind(p.called, "@sunset")
         + if sun.ssValid && t.hour == sun.sunset.hour && t.min == sun.sunset.min
           then OfKind(entries, "@sunset") else []
  {
    WalkKind(p, entries, "@sunset", t, sun, sun.ssValid && t.hour == sun.sunset.hour && t.min == sun.sunset.min);
  }

  /** An entry behind an '@' with no known name is never called. */
  lemma UnknownAtNeverRuns(p: Progress, entries: seq<Entry>, text: string, t: Time, sun: Sun)
    requires text != "" && text[0] == '@'
    requires text !in {"@startup", "@sunrise", "@sunset", "@dawn", "@dusk"}
    ensures OfKind(Walk(p, entries, t, sun).called, text) == OfKind(p.called, text)
  {
    WalkKind(p, entries, text, t, sun, false);
  }

  /** Without startup entries a walk calls the entries that are due, in list order. */
  lemma {:induction false} WalkCalls(p: Progress, entries: seq<Entry>, t: Time, sun: Sun)
    requires forall e :: e in entries ==> e.typeParam != "@startup"
    ensures Walk(p, entries, t, sun) == Progress(p.called + DueEntries(entries, t, sun), p.startupRan)
    decreases entries
  {
    if entries == [] {
      assert p.called + [] == p.called;
    } else {
      var e := entries[0];
      assert Due(e, t, sun, p.startupRan) == Due(e, t, sun, true);
      var p1 := Visit(p, e, t, sun);
      WalkCalls(p1, entries[1..], t, sun);
      assert DueEntries(entries, t, sun)
          == (if Due(e, t, sun, true) then [e] else []) + DueEntries(entries[1..], t, sun);
      assert p1.called + DueEntries(entries[1..], t, sun) == p.called + DueEntries(entries, t, sun);
    }
  }

  // ----- the gate -----

  /** The minutes at which a sequence of polls walks. A minute is a count of minutes; its tm_min is the rest by 60. */
  function Walked(prevMin: int, polls: seq<nat>): seq<nat>
    decreases polls
  {
    if polls == [] then []
    else if polls[0] % 60 == prevMin then Walked(prevMin, polls[1..])
    else [polls[0]] + Walked(polls[0] % 60, polls[1..])
  }

  /** The polls that are in another minute than the poll before. */
  function Changes(prev: nat, polls: seq<nat>): seq<nat>
    decreases polls
  {
    if polls == [] then []
    else (if polls[0] == prev then [] else [polls[0]]) + Changes(polls[0], polls[1..])
  }

  /** No step from a poll to the next is a nonzero number of full hours. */
  predicate NoHourStep(prev: nat, polls: seq<nat>)
    decreases polls
  {
    polls == [] || ((polls[0] != prev ==> polls[0] % 60 != prev % 60) && NoHourStep(polls[0], polls[1..]))
  }

  lemma {:induction false} WalkedFewer(prev: nat, polls: seq<nat>)
    ensures |Walked(prev % 60, polls)| <= |Changes(prev, polls)|
    ensures !NoHourStep(prev, polls) ==> |Walked(prev % 60, polls)| < |Changes(prev, polls)|
    ensures NoHourStep(prev, polls) ==> Walked(prev % 60, polls) == Changes(prev, polls)
    decreases polls
  {
    if polls != [] {
      WalkedFewer(polls[0], polls[1..]);
    }
  }

  /**
   * Comparing only the minute of the hour is the same as comparing the minutes
   * exactly when no two consecutive polls are some full hours apart.
   */
  lemma GateExact(prev: nat, polls: seq<nat>)
    ensures Walked(prev % 60, polls) == Changes(prev, polls) <==> NoHourStep(prev, polls)
  {
    WalkedFewer(prev, polls);
  }

  /** Each poll is no earlier than the last and less than gap minutes later. */
  predicate Paced(prev: nat, polls: seq<nat>, gap: nat)
    decreases polls
  {
    polls == [] || (prev <= polls[0] < prev + gap && Paced(polls[0], polls[1..], gap))
  }

  lemma {:induction false} PacedNoHourStep(prev: nat, polls: seq<nat>)
    requires Paced(prev, polls, 60)
    ensures NoHourStep(prev, polls)
    decreases polls
  {
    if polls != [] {
      PacedNoHourStep(polls[0], polls[1..]);
    }
  }

  /** Time that runs forward in steps below an hour: a walk at each change of the minute. */
  lemma GateOnMinuteChange(prev: nat, polls: seq<nat>)
    requires Paced(prev, polls, 60)
    ensures Walked(prev % 60, polls) == Changes(prev, polls)
  {
    PacedNoHourStep(prev, polls);
    GateExact(prev, polls);
  }

  function From(first: nat, last: nat): seq<nat>
    decreases last - first
  {
    if last < first then [] else [first] + From(first + 1, last)
  }

  function Last(prev: nat, polls: seq<nat>): nat {
    if polls == [] then prev else polls[|polls| - 1]
  }

  /** With polls at most a minute apart every minute is walked exactly once. */
  lemma {:induction false} EveryMinuteOnce(prev: nat, polls: seq<nat>)
    requires Paced(prev, polls, 2)
    ensures Last(prev, polls) >= prev
    ensures Walked(prev % 60, polls) == From(prev + 1, Last(prev, polls))
    decreases polls
  {
    if polls != [] {
      EveryMinuteOnce(polls[0], polls[1..]);
      assert Last(polls[0], polls[1..]) == Last(prev, polls);
    }
  }

  /** At the start no walk has been made, and a first poll in minute 0 of an hour does not make one. */
  lemma FirstMinute(first: nat, polls: seq<nat>)
    requires Paced(first, polls, 2)
    ensures
      var later := From(first + 1, Last(first, polls));
      Walked(0, [first] + polls) == if first % 60 == 0 then later else [first] + later
  {
    EveryMinuteOnce(first, polls);
    assert ([first] + polls)[1..] == polls;
  }

  // ----- polls and walks -----

  /** The state of the scheduler between polls. */
  datatype State = State(prevMin: int, sun: Sun, progress: Progress)

  ghost function WalkAt(s: State, entries: seq<Entry>, now: Time, calculated: Sun): State {
    var sun := if now.hour == 0 && now.min == 0 then calculated else s.sun;
    State(now.min, sun, Walk(s.progress, entries, now, sun))
  }

  ghost function Poll(s: State, entries: seq<Entry>, now: Time, calculated: Sun): State {
    if now.min == s.prevMin then s else WalkAt(s, entries, now, calculated)
  }

  /** The local time in each minute, and what the sun calculation would give then. */
  datatype Clock = Clock(time: seq<Time>, sun: seq<Sun>)

  predicate Covers(c: Clock, minutes: seq<nat>) {
    minutes == [] || (Shows(c, minutes[0]) && Covers(c, minutes[1..]))
  }

  predicate Shows(c: Clock, m: nat) {
    m < |c.time| && m < |c.sun| && c.time[m].min == m % 60
  }

  ghost function PollAll(s: State, entries: seq<Entry>, c: Clock, polls: seq<nat>): State
    requires Covers(c, polls)
    decreases polls
  {
    if polls == [] then s
    else PollAll(Poll(s, entries, c.time[polls[0]], c.sun[polls[0]]), entries, c, polls[1..])
  }

  /** One unconditional walk for each minute of a list. */
  ghost function WalkEach(s: State, entries: seq<Entry>, c: Clock, minutes: seq<nat>): State
    requires Covers(c, minutes)
    decreases minutes
  {
    if minutes == [] then s
    else WalkEach(WalkAt(s, entries, c.time[minutes[0]], c.sun[minutes[0]]), entries, c, minutes[1..])
  }

  lemma {:induction false} PollsAreWalks(s: State, entries: seq<Entry>, c: Clock, polls: seq<nat>)
    requires Covers(c, polls)
    ensures Covers(c, Walked(s.prevMin, polls))
    ensures PollAll(s, entries, c, polls) == WalkEach(s, entries, c, Walked(s.prevMin, polls))
    decreases polls
  {
    if polls != [] {
      var m := polls[0];
      PollsAreWalks(Poll(s, entries, c.time[m], c.sun[m]), entries, c, polls[1..]);
      assert m % 60 != s.prevMin ==> Walked(s.prevMin, polls)[1..] == Walked(m % 60, polls[1..]);
    }
  }

  /** However often it is polled, the scheduler does what one walk in each minute does. */
  lemma OncePerMinute(s: State, entries: seq<Entry>, c: Clock, prev: nat, polls: seq<nat>)
    requires s.prevMin == prev % 60 && Paced(prev, polls, 2) && Covers(c, polls)
    ensures Covers(c, From(prev + 1, Last(prev, polls)))
    ensures PollAll(s, entries, c, polls) == WalkEach(s, entries, c, From(prev + 1, Last(prev, polls)))
  {
    EveryMinuteOnce(prev, polls);
    PollsAreWalks(s, entries, c, polls);
  }

  ghost predicate OnlyCron(entries: seq<Entry>) {
    forall e :: e in entries ==> !IsAtCommand(e)
  }

  ghost function CronDueEntries(entries: seq<Entry>, t: Time): seq<Entry> {
    if entries == [] then []
    else (if CronDue(entries[0].cronSubstrs, t) then [entries[0]] else []) + CronDueEntries(entries[1..], t)
  }

  lemma {:induction false} OnlyCronDue(entries: seq<Entry>, t: Time, sun: Sun)
    requires OnlyCron(entries)
    ensures DueEntries(entries, t, sun) == CronDueEntries(entries, t)
  {
    if entries != [] {
      OnlyCronDue(entries[1..], t, sun);
      assert entries[0] in entries;
    }
  }

  /** For each minute in turn, the entries due then. */
  ghost function CronCalls(entries: seq<Entry>, c: Clock, minutes: seq<nat>): seq<Entry>
    requires Covers(c, minutes)
  {
    if minutes == [] then []
    else CronDueEntries(entries, c.time[minutes[0]]) + CronCalls(entries, c, minutes[1..])
  }

  lemma {:induction false} WalksCall(s: State, entries: seq<Entry>, c: Clock, minutes: seq<nat>)
    requires OnlyCron(entries) && Covers(c, minutes)
    ensures WalkEach(s, entries, c, minutes).progress.called == s.progress.called + CronCalls(entries, c, minutes)
    decreases minutes
  {
    if minutes == [] {
      assert s.progress.called + [] == s.progress.called;
    } else {
      var t := c.time[minutes[0]];
      var s1 := WalkAt(s, entries, t, c.sun[minutes[0]]);
      WalkCalls(s.progress, entries, t, s1.sun);
      OnlyCronDue(entries, t, s1.sun);
      WalksCall(s1, entries, c, minutes[1..]);
      assert s1.progress.called + CronCalls(entries, c, minutes[1..])
          == s.progress.called + CronCalls(entries, c, minutes);
    }
  }

  /** The calls made while polling: for every minute reached, the entries due in it, each once. */
  lemma CronRuns(s: State, entries: seq<Entry>, c: Clock, prev: nat, polls: seq<nat>)
    requires OnlyCron(entries)
    requires s.prevMin == prev % 60 && Paced(prev, polls, 2) && Covers(c, polls)
    ensures Covers(c, From(prev + 1, Last(prev, polls)))
    ensures PollAll(s, entries, c, polls).progress.called
         == s.progress.called + CronCalls(entries, c, From(prev + 1, Last(prev, polls)))
  {
    OncePerMinute(s, entries, c, prev, polls);
    WalksCall(s, entries, c, From(prev + 1, Last(prev, polls)));
  }

  // ----- a day with sun -----

  /** The clock shows the minutes of one day from its midnight on, up to the last one. */
  ghost predicate DayShown(c: Clock, midnight: nat, last: nat) {
    && midnight < |c.sun| && last < midnight + 1440
    && forall m :: midnight <= m <= last && m < |c.time| ==>
         c.time[m].hour == (m - midnight) / 60 && c.time[m].min == (m - midnight) % 60
  }

  /** The minute of the day, if there is such a minute, is one of those given. */
  predicate Reached(at: HourMinute, midnight: nat, first: nat, last: nat) {
    0 <= at.hour < 24 && 0 <= at.min < 60 && first <= midnight + 60 * at.hour + at.min <= last
  }

  /** What a kind of entry waits for. */
  predicate WaitsFor(text: string, sun: Sun, valid: bool, at: HourMinute) {
    || (text == "@sunrise" && valid == sun.ssValid && at == sun.sunrise)
    || (text == "@sunset" && valid == sun.ssValid && at == sun.sunset)
    || (text == "@dawn" && valid == sun.ddValid && at == sun.dawn)
    || (text == "@dusk" && valid == sun.ddValid && at == sun.dusk)
  }

  lemma MinuteOfDay(at: HourMinute, midnight: nat, m: nat)
    requires midnight <= m < midnight + 1440
    ensures (m - midnight) / 60 == at.hour && (m - midnight) % 60 == at.min <==> Reached(at, midnight, m, m)
  {
  }

  lemma KindInMinute(
    s: State, entries: seq<Entry>, c: Clock, midnight: nat, m: nat, text: string, valid: bool, at: HourMinute)
    requires midnight <= m && DayShown(c, midnight, m) && Shows(c, m)
    requires WaitsFor(text, if m == midnight then c.sun[midnight] else s.sun, valid, at)
    ensures
      var s' := WalkAt(s, entries, c.time[m], c.sun[m]);
      && WaitsFor(text, s'.sun, valid, at)
      && OfKind(s'.progress.called, text) == OfKind(s.progress.called, text)
         + if valid && Reached(at, midnight, m, m) then OfKind(entries, text) else []
  {
    hide Walk, OfKind;
    var t := c.time[m];
    var sun := if m == midnight then c.sun[midnight] else s.sun;
    MinuteOfDay(at, midnight, m);
    WalkKind(s.progress, entries, text, t, sun, valid && t.hour == at.hour && t.min == at.min);
  }

  lemma {:induction false} KindRuns(
    s: State, entries: seq<Entry>, c: Clock, midnight: nat, first: nat, last: nat, text: string, valid: bool,
    at: HourMinute)
    requires midnight <= first && DayShown(c, midnight, last) && Covers(c, From(first, last))
    requires WaitsFor(text, if first == midnight then c.sun[midnight] else s.sun, valid, at)
    ensures OfKind(WalkEach(s, entries, c, From(first, last)).progress.called, text)
         == OfKind(s.progress.called, text)
          + if valid && Reached(at, midnight, first, last) then OfKind(entries, text) else []
    decreases last - first
  {
    hide WalkAt, WaitsFor, OfKind;
    if first <= last {
      var s' := WalkAt(s, entries, c.time[first], c.sun[first]);
      KindInMinute(s, entries, c, midnight, first, text, valid, at);
      KindRuns(s', entries, c, midnight, first + 1, last, text, valid, at);
    }
  }

  lemma KindOncePerDay(
    s: State, entries: seq<Entry>, c: Clock, midnight: nat, polls: seq<nat>, text: string, valid: bool,
    at: HourMinute)
    requires 0 < midnight && s.prevMin == (midnight - 1) % 60 && Paced(midnight - 1, polls, 2) && Covers(c, polls)
    requires DayShown(c, midnight, Last(midnight - 1, polls))
    requires WaitsFor(text, c.sun[midnight], valid, at)
    ensures OfKind(PollAll(s, entries, c, polls).progress.called, text)
         == OfKind(s.progress.called, text)
          + if valid && Reached(at, midnight, midnight, Last(midnight - 1, polls)) then OfKind(entries, text) else []
  {
    OncePerMinute(s, entries, c, midnight - 1, polls);
    KindRuns(s, entries, c, midnight, midnight, Last(midnight - 1, polls), text, valid, at);
  }

  /**
   * From the minute before midnight on, polled at least once a minute: every
   * dawn entry has been called once as soon as the minute of the dawn that was
   * calculated at this midnight is reached, and not before.
   */
  lemma DawnOncePerDay(s: State, entries: seq<Entry>, c: Clock, midnight: nat, polls: seq<nat>)
    requires 0 < midnight && s.prevMin == (midnight - 1) % 60 && Paced(midnight - 1, polls, 2) && Covers(c, polls)
    requires DayShown(c, midnight, Last(midnight - 1, polls))
    ensures
      var sun := c.sun[midnight];
      OfKind(PollAll(s, entries, c, polls).progress.called, "@dawn") == OfKind(s.progress.called, "@dawn")
      + if sun.ddValid && 0 <= sun.dawn.hour < 24 && 0 <= sun.dawn.min < 60
           && midnight + 60 * sun.dawn.hour + sun.dawn.min <= Last(midnight - 1, polls)
        then OfKind(entries, "@dawn") else []
  {
    var sun := c.sun[midnight];
    KindOncePerDay(s, entries, c, midnight, polls, "@dawn", sun.ddValid, sun.dawn);
  }

  lemma DuskOncePerDay(s: State, entries: seq<Entry>, c: Clock, midnight: nat, polls: seq<nat>)
    requires 0 < midnight && s.prevMin == (midnight - 1) % 60 && Paced(midnight - 1, polls, 2) && Covers(c, polls)
    requires DayShown(c, midnight, Last(midnight - 1, polls))
    ensures
      var sun := c.sun[midnight];
      OfKind(PollAll(s, entries, c, polls).progress.called, "@dusk") == OfKind(s.progress.called, "@dusk")
      + if sun.ddValid && 0 <= sun.dusk.hour < 24 && 0 <= sun.dusk.min < 60
           && midnight + 60 * sun.dusk.hour + sun.dusk.min <= Last(midnight - 1, polls)
        then OfKind(entries, "@dusk") else []
  {
    var sun := c.sun[midnight];
    KindOncePerDay(s, entries, c, midnight, polls, "@dusk", sun.ddValid, sun.dusk);
  }

  lemma SunriseOncePerDay(s: State, entries: seq<Entry>, c: Clock, midnight: nat, polls: seq<nat>)
    requires 0 < midnight && s.prevMin == (midnight - 1) % 60 && Paced(midnight - 1, polls, 2) && Covers(c, polls)
    requires DayShown(c, midnight, Last(midnight - 1, polls))
    ensures
      var sun := c.sun[midnight];
      OfKind(PollAll(s, entries, c, polls).progress.called, "@sunrise") == OfKind(s.progress.called, "@sunrise")
      + if sun.ssValid && 0 <= sun.sunrise.hour < 24 && 0 <= sun.sunrise.min < 60
           && midnight + 60 * sun.sunrise.hour + sun.sunrise.min <= Last(midnight - 1, polls)
        then OfKind(entries, "@sunrise") else []
  {
    var sun := c.sun[midnight];
    KindOncePerDay(s, entries, c, midnight, polls, "@sunrise", sun.ssValid, sun.sunrise);
  }

  lemma SunsetOncePerDay(s: State, entries: seq<Entry>, c: Clock, midnight: nat, polls: seq<nat>)
    requires 0 < midnight && s.prevMin == (midnight - 1) % 60 && Paced(midnight - 1, polls, 2) && Covers(c, polls)
    requires DayShown(c, midnight, Last(midnight - 1, polls))
    ensures
      var sun := c.sun[midnight];
      OfKind(PollAll(s, entries, c, polls).progress.called, "@sunset") == OfKind(s.progress.called, "@sunset")
      + if sun.ssValid && 0 <= sun.sunset.hour < 24 && 0 <= sun.sunset.min < 60
           && midnight + 60 * sun.sunset.hour + sun.sunset.min <= Last(midnight - 1, polls)
        then OfKind(entries, "@sunset") else []
  {
    var sun := c.sun[midnight];
    KindOncePerDay(s, entries, c, midnight, polls, "@sunset", sun.ssValid, sun.sunset);
  }

  // ----- the object -----

  const AT_COMMANDS: seq<string> := ["startup", "sunrise", "sunset", "dawn", "dusk"]

  class SchedInfo {
    var enabled: bool
    var startupRan: bool
    var sun: Sun
    var entries: seq<Entry>
    var tmNow: Time
    var tmPrevNow: Time
    // The entries whose function was called, oldest first.
    var called: seq<Entry>

    ghost function Value(): State
      reads this
    {
      State(tmPrevNow.min, sun, Progress(called, startupRan))
    }

    constructor (noSun: Sun)
      ensures !enabled && entries == [] && Value() == State(0, noSun, Progress([], false))
    {
      enabled, startupRan, sun, entries, called := false, false, noSun, [], [];
      tmNow, tmPrevNow := Time(0, 0, 0, 0, 0), Time(0, 0, 0, 0, 0);
    }

    method SchedulerStart(calculated: Sun)
      modifies this`sun, this`enabled
      ensures enabled && Value() == old(Value()).(sun := calculated)
    {
      sun := calculated;
      enabled := true;
    }

    method SchedulerStop()
      modifies this`enabled
      ensures !enabled
    {
      enabled := false;
    }

    method SchedulerAdd(entryName: string, cronExp: string, execParam: string)
      modifies this`entries
      ensures entries == old(entries) + [Entry(entryName, cronExp, Pieces(cronExp, {' ', '\t'}), execParam)]
    {
      var cronSubstrs := UtilSplitWhite(cronExp);
      entries := entries + [Entry(entryName, cronExp, cronSubstrs, execParam)];
    }

    method SchedulerRemoveAllEntries()
      modifies this`entries
      ensures entries == []
    {
      entries := [];
    }

    method CronAtCommand(l: Entry)
      requires IsAtCommand(l)
      modifies this`startupRan, this`called
      ensures Progress(called, startupRan) == Visit(old(Progress(called, startupRan)), l, tmNow, sun)
    {
      var name := l.typeParam[1..];
      var i := 0;
      while i < |AT_COMMANDS| && name != AT_COMMANDS[i]
        invariant i <= |AT_COMMANDS| && forall j :: 0 <= j < i ==> name != AT_COMMANDS[j]
      {
        i := i + 1;
      }
      AtName(l.typeParam);
      AtPosition(name, i);
      ghost var due := Due(l, tmNow, sun, startupRan);
      if i < |AT_COMMANDS| {
        var exec := false;
        match i {
          case 0 =>
            if !startupRan {
              exec, startupRan := true, true;
            }
          case 1 => exec := sun.ssValid && tmNow.hour == sun.sunrise.hour && tmNow.min == sun.sunrise.min;
          case 2 => exec := sun.ssValid && tmNow.hour == sun.sunset.hour && tmNow.min == sun.sunset.min;
          case 3 => exec := sun.ddValid && tmNow.hour == sun.dawn.hour && tmNow.min == sun.dawn.min;
          case _ => exec := sun.ddValid && tmNow.hour == sun.dusk.hour && tmNow.min == sun.dusk.min;
        }
        assert exec == due;
        if exec {
          called := called + [l];
        }
      } else {
        assert !due;
      }
    }

    method SchedulerWalk()
      modifies this`startupRan, this`called
      ensures Progress(called, startupRan) == Walk(old(Progress(called, startupRan)), entries, tmNow, sun)
    {
      ghost var start := Progress(called, startupRan);
      for i := 0 to |entries|
        invariant Walk(start, entries, tmNow, sun) == Walk(Progress(called, startupRan), entries[i..], tmNow, sun)
      {
        var l := entries[i];
        assert entries[i..][0] == l && entries[i..][1..] == entries[i + 1..];
        if l.typeParam != "" && l.typeParam[0] == '@' {
          CronAtCommand(l);
        } else {
          var matchCount := CountMatches(l.cronSubstrs, tmNow);
          if matchCount == 5 {
            called := called + [l];
          }
        }
      }
    }

    method SchedulerDo(now: Time, calculated: Sun)
      modifies this
      ensures enabled == old(enabled) && entries == old(entries)
      ensures Value() == if enabled then Poll(old(Value()), entries, now, calculated) else old(Value())
    {
      if !enabled {
        return;
      }
      tmNow := now;
      if tmNow.min == tmPrevNow.min {
        return;
      }
      if tmNow.hour == 0 && tmNow.min == 0 {
        sun := calculated;
      }
      SchedulerWalk();
      tmPrevNow := tmNow;
    }

    /** The timer calls SchedulerDo again and again. */
    method PollRepeatedly(c: Clock, polls: seq<nat>)
      requires enabled && Covers(c, polls)
      modifies this
      ensures entries == old(entries)
      ensures Value() == PollAll(old(Value()), entries, c, polls)
    {
      for i := 0 to |polls|
        invariant enabled && entries == old(entries)
        invariant Covers(c, polls[i..])
        invariant PollAll(old(Value()), entries, c, polls) == PollAll(Value(), entries, c, polls[i..])
      {
        assert polls[i..][0] == polls[i] && polls[i..][1..] == polls[i + 1..];
        SchedulerDo(c.time[polls[i]], c.sun[polls[i]]);
      }
    }
  }

  /** Comparing the text behind the '@' is comparing the whole. */
  lemma AtName(text: string)
    requires text != "" && text[0] == '@'
    ensures text == "@" + text[1..]
    ensures text == "@startup" <==> text[1..] == "startup"
    ensures text == "@sunrise" <==> text[1..] == "sunrise"
    ensures text == "@sunset" <==> text[1..] == "sunset"
    ensures text == "@dawn" <==> text[1..] == "dawn"
    ensures text == "@dusk" <==> text[1..] == "dusk"
  {
    assert "@startup"[1..] == "startup" && "@sunrise"[1..] == "sunrise" && "@sunset"[1..] == "sunset";
    assert "@dawn"[1..] == "dawn" && "@dusk"[1..] == "dusk";
  }

  /** The search for a name in the command table ends at its position. */
  lemma AtPosition(name: string, i: nat)
    requires i <= |AT_COMMANDS| && forall j :: 0 <= j < i ==> name != AT_COMMANDS[j]
    requires i < |AT_COMMANDS| ==> name == AT_COMMANDS[i]
    ensures i == 0 <==> name == "startup"
    ensures i == 1 <==> name == "sunrise"
    ensures i == 2 <==> name == "sunset"
    ensures i == 3 <==> name == "dawn"
    ensures i == 4 <==> name == "dusk"
  {
    assert AT_COMMANDS[0] == "startup";
    assert AT_COMMANDS[1] == "sunrise";
    assert AT_COMMANDS[2] == "sunset";
    assert AT_COMMANDS[3] == "dawn";
    assert AT_COMMANDS[4] == "dusk";
    assert "startup"[1] == 't' && "sunrise"[1] == 'u';
    assert "dawn"[1] == 'a' && "dusk"[1] == 'u';
  }

  /** An entry added with a well-formed cron expression is due when its fields say so. */
  lemma AddedEntryDue(name: string, fields: seq<Field>, gaps: seq<string>, end: string, param: string,
                      t: Time, sun: Sun, startupRan: bool)
    requires AllOk(fields) && |gaps| == |fields| && GapsOk(gaps) && Blank(end)
    ensures
      var e := NewEntry(name, LaidOut(WrittenAll(fields), gaps) + end, param);
      Due(e, t, sun, startupRan)
      <==> (&& |fields| >= 5
            && Denotes(fields[0], t.min) && Denotes(fields[1], t.hour) && Denotes(fields[2], t.mday)
            && Denotes(fields[3], t.mon) && Denotes(fields[4], t.wday))
  {
    var text := LaidOut(WrittenAll(fields), gaps) + end;
    ExpressionMeaning(fields, gaps, end, t);
    if fields == [] {
      assert text == end;
    } else {
      WrittenStart(fields[0]);
      LaidOutStart(WrittenAll(fields), gaps, end);
    }
    assert !IsAtCommand(NewEntry(name, text, param));
  }

  lemma FirstCharacter(gap: string, text: string, rest: string, end: string)
    requires text != ""
    ensures gap + text + rest + end != ""
    ensures (gap + text + rest + end)[0] == if gap == "" then text[0] else gap[0]
  {
  }

  lemma LaidOutStart(texts: seq<string>, gaps: seq<string>, end: string)
    requires texts != [] && |gaps| == |texts| && GapsOk(gaps)
    requires texts[0] != "" && texts[0][0] != '@'
    ensures LaidOut(texts, gaps) + end != "" && (LaidOut(texts, gaps) + end)[0] != '@'
  {
    assert Blank(gaps[0]);
    FirstCharacter(gaps[0], texts[0], LaidOut(texts[1..], gaps[1..]), end);
  }

  lemma WrittenStart(f: Field)
    requires FieldOk(f)
    ensures Written(f) != "" && Written(f)[0] != '@'
  {
    if f.OneOf? {
      CommaPieces(f.numbers);
    }
  }
}
