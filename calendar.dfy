/**
 * The calendar builder: scatters sleep episodes into a map from ISO date to
 * the wake-up and bedtime recorded for that date, first write winning.
 */
module SleepCalendar {
  import opened Wrappers
  import opened Dates

  /** One diary row after parsing: `None` is a missing or unparseable (NaT) timestamp. */
  datatype Episode = Episode(outBed: Option<DateTime>, inBed: Option<DateTime>)

  datatype Field = Wakeup | InBed

  /** The per-date record; a field is `None` until some episode sets it. */
  datatype Entry = Entry(wakeup: Option<string>, inbed: Option<string>)

  type Calendar = map<string, Entry>

  /** The non-fatal diagnostic logged when a second value targets an already-set date and field. */
  datatype Warning = DuplicateWarning(date: string, field: Field)

  datatype Scattered = Scattered(calendar: Calendar, warnings: seq<Warning>)

  predicate ValidEpisode(e: Episode)
  {
    (e.outBed.Some? ==> ValidDateTime(e.outBed.value)) && (e.inBed.Some? ==> ValidDateTime(e.inBed.value))
  }

  predicate ValidEpisodes(episodes: seq<Episode>)
  {
    forall i :: 0 <= i < |episodes| ==> ValidEpisode(episodes[i])
  }

  /** The timestamp that feeds `f`: `Out_Bed` the wake-up, `In_Bed` the bedtime. */
  function Stamp(e: Episode, f: Field): Option<DateTime>
  {
    if f == Wakeup then e.outBed else e.inBed
  }

  /** The calendar date that field `f` of episode `e` is attributed to, if its timestamp is present. */
  function Target(e: Episode, f: Field, noonCutoff: int): Option<string>
    requires ValidEpisode(e)
  {
    match Stamp(e, f)
    case None => None
    case Some(t) => Some(if f == Wakeup then CalendarDateForWakeup(t) else CalendarDateForInBed(t, noonCutoff))
  }

  /** The clock time that field `f` of episode `e` records. */
  function ClockTime(e: Episode, f: Field): string
    requires ValidEpisode(e) && Stamp(e, f).Some?
  {
    FmtTime(Stamp(e, f).value.time)
  }

  function Get(entry: Entry, f: Field): Option<string>
  {
    if f == Wakeup then entry.wakeup else entry.inbed
  }

  function Put(entry: Entry, f: Field, v: string): Entry
  {
    if f == Wakeup then entry.(wakeup := Some(v)) else entry.(inbed := Some(v))
  }

  /** What the calendar holds for `date` and `f`; `None` when the date is absent or the field unset. */
  function Lookup(calendar: Calendar, date: string, f: Field): Option<string>
  {
    if date in calendar then Get(calendar[date], f) else None
  }

  /**
   * Places one field of one episode: `setdefault` the date's entry, then set the
   * field if it is unset, or keep the earlier value and record a duplicate warning.
   */
  function Place(s: Scattered, e: Episode, f: Field, noonCutoff: int): (r: Scattered)
    requires ValidEpisode(e)
  {
    match Target(e, f, noonCutoff)
    case None => s
    case Some(date) =>
      var entry := if date in s.calendar then s.calendar[date] else Entry(None, None);
      if Get(entry, f).None? then Scattered(s.calendar[date := Put(entry, f, ClockTime(e, f))], s.warnings)
      else Scattered(s.calendar, s.warnings + [DuplicateWarning(date, f)])
  }

  /**
   * Placing a field adds its target date to the keys, fills that one date and
   * field if it was unset and leaves every other date and field as it was, and
   * warns exactly when the target was already set.
   */
  lemma PlaceEffect(s: Scattered, e: Episode, f: Field, noonCutoff: int)
    requires ValidEpisode(e)
    ensures var s' := Place(s, e, f, noonCutoff);
      && s'.calendar.Keys == s.calendar.Keys + (if Target(e, f, noonCutoff).Some? then {Target(e, f, noonCutoff).value} else {})
      && (forall date, g ::
            Lookup(s'.calendar, date, g) ==
              if g == f && Target(e, f, noonCutoff) == Some(date) && Lookup(s.calendar, date, f).None?
              then Some(ClockTime(e, f))
              else Lookup(s.calendar, date, g))
      && s'.warnings == s.warnings +
           if Target(e, f, noonCutoff).Some? && Lookup(s.calendar, Target(e, f, noonCutoff).value, f).Some?
           then [DuplicateWarning(Target(e, f, noonCutoff).value, f)]
           else []
  {
  }

  /** One loop iteration of `build_calendar`: the wake-up first, then the bedtime. */
  function Step(s: Scattered, e: Episode, noonCutoff: int): (r: Scattered)
    requires ValidEpisode(e)
  {
    Place(Place(s, e, Wakeup, noonCutoff), e, InBed, noonCutoff)
  }

  /** The calendar and warnings after processing the first `n` episodes in order. */
  function ScatterPrefix(episodes: seq<Episode>, n: nat, noonCutoff: int): (r: Scattered)
    requires ValidEpisodes(episodes) && n <= |episodes|
  {
    if n == 0 then Scattered(map[], [])
    else Step(ScatterPrefix(episodes, n - 1, noonCutoff), episodes[n - 1], noonCutoff)
  }

  /** The calendar and warnings `build_calendar` returns: at most one warning per field of each episode. */
  function ScatterAll(episodes: seq<Episode>, noonCutoff: int): (r: Scattered)
    requires ValidEpisodes(episodes)
  {
    ScatterPrefix(episodes, |episodes|, noonCutoff)
  }

  /**
   * One "Place wakeup" or "Place inbed" block of `build_calendar`: `setdefault`
   * the entry of the attributed date, then set the field or log a duplicate.
   */
  method PlaceField(calendar: Calendar, warnings: seq<Warning>, e: Episode, f: Field, noonCutoff: int)
    returns (calendar': Calendar, warnings': seq<Warning>)
    requires ValidEpisode(e)
    ensures Scattered(calendar', warnings') == Place(Scattered(calendar, warnings), e, f, noonCutoff)
  {
    calendar', warnings' := calendar, warnings;
    var stamp := Stamp(e, f);
    if stamp.Some? {
      var calDate := if f == Wakeup then CalendarDateForWakeup(stamp.value) else CalendarDateForInBed(stamp.value, noonCutoff);
      // the entry is written back after the update below
      var entry := if calDate in calendar then calendar[calDate] else Entry(None, None);
      if Get(entry, f).None? {
        entry := Put(entry, f, FmtTime(stamp.value.time));
      } else {
        warnings' := warnings + [DuplicateWarning(calDate, f)];
      }
      calendar' := calendar[calDate := entry];
    }
  }

  /** `build_calendar`. */
  method BuildCalendar(episodes: seq<Episode>, noonCutoff: int) returns (calendar: Calendar, warnings: seq<Warning>)
    requires ValidEpisodes(episodes)
    ensures Scattered(calendar, warnings) == ScatterAll(episodes, noonCutoff)
  {
    calendar, warnings := map[], [];
    for i := 0 to |episodes|
      invariant Scattered(calendar, warnings) == ScatterPrefix(episodes, i, noonCutoff)
    {
      var row := episodes[i];
      calendar, warnings := PlaceField(calendar, warnings, row, Wakeup, noonCutoff);
      calendar, warnings := PlaceField(calendar, warnings, row, InBed, noonCutoff);
    }
  }

  /** The warning placing field `f` of `e` adds to `s`, if any. */
  function PlaceWarnings(s: Scattered, e: Episode, f: Field, noonCutoff: int): seq<Warning>
    requires ValidEpisode(e)
  {
    match Target(e, f, noonCutoff)
    case None => []
    case Some(date) => if Lookup(s.calendar, date, f).Some? then [DuplicateWarning(date, f)] else []
  }

  /** One episode adds the dates its present timestamps are attributed to. */
  lemma StepKeys(s: Scattered, e: Episode, noonCutoff: int)
    requires ValidEpisode(e)
    ensures forall date :: date in Step(s, e, noonCutoff).calendar <==>
      date in s.calendar || Target(e, Wakeup, noonCutoff) == Some(date) || Target(e, InBed, noonCutoff) == Some(date)
  {
    PlaceEffect(s, e, Wakeup, noonCutoff);
    PlaceEffect(Place(s, e, Wakeup, noonCutoff), e, InBed, noonCutoff);
  }

  /** One episode, seen per date and field: the two placements touch different fields. */
  lemma StepLookup(s: Scattered, e: Episode, noonCutoff: int)
    requires ValidEpisode(e)
    ensures forall date, g ::
      Lookup(Step(s, e, noonCutoff).calendar, date, g) ==
        if Target(e, g, noonCutoff) == Some(date) && Lookup(s.calendar, date, g).None?
        then Some(ClockTime(e, g))
        else Lookup(s.calendar, date, g)
  {
    PlaceEffect(s, e, Wakeup, noonCutoff);
    PlaceEffect(Place(s, e, Wakeup, noonCutoff), e, InBed, noonCutoff);
  }

  lemma StepWarnings(s: Scattered, e: Episode, noonCutoff: int)
    requires ValidEpisode(e)
    ensures Step(s, e, noonCutoff).warnings ==
      s.warnings + PlaceWarnings(s, e, Wakeup, noonCutoff) + PlaceWarnings(s, e, InBed, noonCutoff)
  {
    var m := Place(s, e, Wakeup, noonCutoff);
    PlaceEffect(s, e, Wakeup, noonCutoff);
    PlaceEffect(m, e, InBed, noonCutoff);
    assert PlaceWarnings(m, e, InBed, noonCutoff) == PlaceWarnings(s, e, InBed, noonCutoff);
  }

  /** A date and field no episode among the first `n` targets is unset. */
  lemma {:induction false} UntargetedFieldUnset(episodes: seq<Episode>, n: nat, noonCutoff: int, date: string, f: Field)
    requires ValidEpisodes(episodes) && n <= |episodes|
    requires forall j :: 0 <= j < n ==> Target(episodes[j], f, noonCutoff) != Some(date)
    ensures Lookup(ScatterPrefix(episodes, n, noonCutoff).calendar, date, f).None?
  {
    if n != 0 {
      UntargetedFieldUnset(episodes, n - 1, noonCutoff, date, f);
      StepLookup(ScatterPrefix(episodes, n - 1, noonCutoff), episodes[n - 1], noonCutoff);
    }
  }

  /** Once a date's field is set, later episodes leave it unchanged. */
  lemma {:induction false} FieldStable(episodes: seq<Episode>, m: nat, n: nat, noonCutoff: int, date: string, f: Field)
    requires ValidEpisodes(episodes) && m <= n <= |episodes|
    requires Lookup(ScatterPrefix(episodes, m, noonCutoff).calendar, date, f).Some?
    ensures Lookup(ScatterPrefix(episodes, n, noonCutoff).calendar, date, f) ==
            Lookup(ScatterPrefix(episodes, m, noonCutoff).calendar, date, f)
  {
    if m < n {
      FieldStable(episodes, m, n - 1, noonCutoff, date, f);
      StepLookup(ScatterPrefix(episodes, n - 1, noonCutoff), episodes[n - 1], noonCutoff);
    }
  }

  /** The first episode that targets a date and field sets it. */
  lemma FirstTargetSets(episodes: seq<Episode>, noonCutoff: int, date: string, f: Field, i: nat)
    requires ValidEpisodes(episodes) && i < |episodes|
    requires Target(episodes[i], f, noonCutoff) == Some(date)
    requires forall j :: 0 <= j < i ==> Target(episodes[j], f, noonCutoff) != Some(date)
    ensures Lookup(ScatterPrefix(episodes, i + 1, noonCutoff).calendar, date, f) == Some(ClockTime(episodes[i], f))
  {
    var s, e := ScatterPrefix(episodes, i, noonCutoff), episodes[i];
    UntargetedFieldUnset(episodes, i, noonCutoff, date, f);
    StepLookup(s, e, noonCutoff);
    assert ScatterPrefix(episodes, i + 1, noonCutoff) == Step(s, e, noonCutoff);
  }

  /**
   * First write wins: a date's field holds the clock time of the first episode
   * whose timestamp for that field is attributed to the date.
   */
  lemma {:induction false} FirstWriteWins(episodes: seq<Episode>, noonCutoff: int, date: string, f: Field, i: nat)
    requires ValidEpisodes(episodes) && i < |episodes|
    requires Target(episodes[i], f, noonCutoff) == Some(date)
    requires forall j :: 0 <= j < i ==> Target(episodes[j], f, noonCutoff) != Some(date)
    ensures date in ScatterAll(episodes, noonCutoff).calendar
    ensures Lookup(ScatterAll(episodes, noonCutoff).calendar, date, f) == Some(ClockTime(episodes[i], f))
  {
    FirstTargetSets(episodes, noonCutoff, date, f, i);
    FieldStable(episodes, i + 1, |episodes|, noonCutoff, date, f);
  }

  /**
   * The calendar's dates are exactly the attributed dates of the present
   * timestamps: a missing timestamp contributes no date.
   */
  lemma {:induction false} CalendarKeys(episodes: seq<Episode>, n: nat, noonCutoff: int)
    requires ValidEpisodes(episodes) && n <= |episodes|
    ensures forall j, g :: 0 <= j < n && Target(episodes[j], g, noonCutoff).Some? ==>
              Target(episodes[j], g, noonCutoff).value in ScatterPrefix(episodes, n, noonCutoff).calendar
    ensures forall date :: date in ScatterPrefix(episodes, n, noonCutoff).calendar ==>
              exists j, g :: 0 <= j < n && Target(episodes[j], g, noonCutoff) == Some(date)
  {
    if n != 0 {
      CalendarKeys(episodes, n - 1, noonCutoff);
      var e := episodes[n - 1];
      StepKeys(ScatterPrefix(episodes, n - 1, noonCutoff), e, noonCutoff);
      forall date | date in ScatterPrefix(episodes, n, noonCutoff).calendar
        ensures exists j, g :: 0 <= j < n && Target(episodes[j], g, noonCutoff) == Some(date)
      {
        if Target(e, Wakeup, noonCutoff) == Some(date) {
          assert Target(episodes[n - 1], Wakeup, noonCutoff) == Some(date);
        } else if Target(e, InBed, noonCutoff) == Some(date) {
          assert Target(episodes[n - 1], InBed, noonCutoff) == Some(date);
        }
      }
    }
  }

  /** Every entry in the calendar has at least one field set. */
  lemma {:induction false} EntriesNonEmpty(episodes: seq<Episode>, n: nat, noonCutoff: int)
    requires ValidEpisodes(episodes) && n <= |episodes|
    ensures forall date :: date in ScatterPrefix(episodes, n, noonCutoff).calendar ==>
              Lookup(ScatterPrefix(episodes, n, noonCutoff).calendar, date, Wakeup).Some? ||
              Lookup(ScatterPrefix(episodes, n, noonCutoff).calendar, date, InBed).Some?
  {
    if n != 0 {
      EntriesNonEmpty(episodes, n - 1, noonCutoff);
      StepLookup(ScatterPrefix(episodes, n - 1, noonCutoff), episodes[n - 1], noonCutoff);
    }
  }

  /** How many of the first `n` episodes attribute field `f` to `date`. */
  function Hits(episodes: seq<Episode>, n: nat, noonCutoff: int, date: string, f: Field): nat
    requires ValidEpisodes(episodes) && n <= |episodes|
  {
    if n == 0 then 0
    else Hits(episodes, n - 1, noonCutoff, date, f) + if Target(episodes[n - 1], f, noonCutoff) == Some(date) then 1 else 0
  }

  /** A date's field is set exactly when some episode has targeted it. */
  lemma {:induction false} SetIffHit(episodes: seq<Episode>, n: nat, noonCutoff: int, date: string, f: Field)
    requires ValidEpisodes(episodes) && n <= |episodes|
    ensures Lookup(ScatterPrefix(episodes, n, noonCutoff).calendar, date, f).Some? <==> Hits(episodes, n, noonCutoff, date, f) > 0
  {
    if n != 0 {
      SetIffHit(episodes, n - 1, noonCutoff, date, f);
      StepLookup(ScatterPrefix(episodes, n - 1, noonCutoff), episodes[n - 1], noonCutoff);
    }
  }

  /** One episode adds a warning for a date and field exactly when it targets them and they are already set. */
  lemma StepWarningCount(s: Scattered, e: Episode, noonCutoff: int, date: string, f: Field)
    requires ValidEpisode(e)
    ensures multiset(Step(s, e, noonCutoff).warnings)[DuplicateWarning(date, f)] ==
      multiset(s.warnings)[DuplicateWarning(date, f)] +
      if Target(e, f, noonCutoff) == Some(date) && Lookup(s.calendar, date, f).Some? then 1 else 0
  {
    StepWarnings(s, e, noonCutoff);
    var w := DuplicateWarning(date, f);
    var ww, wb := PlaceWarnings(s, e, Wakeup, noonCutoff), PlaceWarnings(s, e, InBed, noonCutoff);
    assert multiset(s.warnings + ww + wb)[w] == multiset(s.warnings)[w] + multiset(ww)[w] + multiset(wb)[w];
    if f == Wakeup {
      assert multiset(wb)[w] == 0;
    } else {
      assert multiset(ww)[w] == 0;
    }
  }

  /** Episode `n - 1` adds a warning for a date and field exactly when it targets them and an earlier episode already did. */
  lemma PrefixWarningCount(episodes: seq<Episode>, n: nat, noonCutoff: int, date: string, f: Field)
    requires ValidEpisodes(episodes) && 0 < n <= |episodes|
    ensures multiset(ScatterPrefix(episodes, n, noonCutoff).warnings)[DuplicateWarning(date, f)] ==
      multiset(ScatterPrefix(episodes, n - 1, noonCutoff).warnings)[DuplicateWarning(date, f)] +
      if Target(episodes[n - 1], f, noonCutoff) == Some(date) && Hits(episodes, n - 1, noonCutoff, date, f) > 0 then 1 else 0
  {
    var s, e := ScatterPrefix(episodes, n - 1, noonCutoff), episodes[n - 1];
    assert ScatterPrefix(episodes, n, noonCutoff) == Step(s, e, noonCutoff);
    SetIffHit(episodes, n - 1, noonCutoff, date, f);
    StepWarningCount(s, e, noonCutoff, date, f);
  }

  /** The warnings for a date and field after `n` episodes: one for each value after the first. */
  predicate WarnedOncePerRepeat(episodes: seq<Episode>, n: nat, noonCutoff: int, date: string, f: Field)
    requires ValidEpisodes(episodes) && n <= |episodes|
  {
    var hits := Hits(episodes, n, noonCutoff, date, f);
    multiset(ScatterPrefix(episodes, n, noonCutoff).warnings)[DuplicateWarning(date, f)] == if hits == 0 then 0 else hits - 1
  }

  lemma RepeatWarningStep(episodes: seq<Episode>, n: nat, noonCutoff: int, date: string, f: Field)
    requires ValidEpisodes(episodes) && 0 < n <= |episodes|
    requires WarnedOncePerRepeat(episodes, n - 1, noonCutoff, date, f)
    ensures WarnedOncePerRepeat(episodes, n, noonCutoff, date, f)
  {
    PrefixWarningCount(episodes, n, noonCutoff, date, f);
    var hit := Target(episodes[n - 1], f, noonCutoff) == Some(date);
    var h := Hits(episodes, n - 1, noonCutoff, date, f);
    assert Hits(episodes, n, noonCutoff, date, f) == h + if hit then 1 else 0;
  }

  lemma NoWarningsAtStart(episodes: seq<Episode>, noonCutoff: int, date: string, f: Field)
    requires ValidEpisodes(episodes)
    ensures WarnedOncePerRepeat(episodes, 0, noonCutoff, date, f)
  {
    assert ScatterPrefix(episodes, 0, noonCutoff).warnings == [];
  }

  /** Every value after the first for a date and field produces exactly one duplicate warning; an untargeted pair gets none. */
  lemma {:induction false} RepeatsWarned(episodes: seq<Episode>, n: nat, noonCutoff: int, date: string, f: Field)
    requires ValidEpisodes(episodes) && n <= |episodes|
    ensures WarnedOncePerRepeat(episodes, n, noonCutoff, date, f)
  {
    if n == 0 {
      NoWarningsAtStart(episodes, noonCutoff, date, f);
    } else {
      RepeatsWarned(episodes, n - 1, noonCutoff, date, f);
      RepeatWarningStep(episodes, n, noonCutoff, date, f);
    }
  }

  /**
   * Two bedtimes attributed to 2025-01-01 (22:00 that evening, and 01:30 the
   * next morning): the first one processed is kept and one warning is recorded.
   */
  lemma DuplicateExample()
    ensures var evening := Episode(None, Some(DateTime(Date(2025, 1, 1), Time(22, 0, 0))));
      var night := Episode(None, Some(DateTime(Date(2025, 1, 2), Time(1, 30, 0))));
      var s := ScatterAll([evening, night], DefaultNoonCutoff);
      && Lookup(s.calendar, "2025-01-01", InBed) == Some("22:00:00")
      && s.warnings == [DuplicateWarning("2025-01-01", InBed)]
  {
    var evening := Episode(None, Some(DateTime(Date(2025, 1, 1), Time(22, 0, 0))));
    var night := Episode(None, Some(DateTime(Date(2025, 1, 2), Time(1, 30, 0))));
    var episodes := [evening, night];
    IsoExamples();
    MidnightCrossingExamples();
    assert Target(evening, InBed, DefaultNoonCutoff) == Some("2025-01-01");
    assert Target(night, InBed, DefaultNoonCutoff) == Some("2025-01-01");
    FmtTimeExample();
    var first := Place(Scattered(map[], []), evening, Wakeup, DefaultNoonCutoff);
    assert first == Scattered(map[], []);
    var second := Place(first, evening, InBed, DefaultNoonCutoff);
    PlaceEffect(first, evening, InBed, DefaultNoonCutoff);
    assert ScatterPrefix(episodes, 1, DefaultNoonCutoff) == second;
    var third := Place(second, night, Wakeup, DefaultNoonCutoff);
    assert third == second;
    PlaceEffect(third, night, InBed, DefaultNoonCutoff);
  }
}
