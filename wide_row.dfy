/**
 * The segment row builder: one wide row of the advanced sleep log, `ID`
 * followed by a (date, wake-up, bedtime) triple for each calendar date in the
 * segment's inclusive range, in ascending date order.
 */
module WideRow {
  import opened Wrappers
  import opened Text
  import opened Ordering
  import opened SleepCalendar

  /** Python truthiness of an optional bound: `None` and `""` impose no bound. */
  predicate Bounded(b: Option<string>)
  {
    b.Some? && b.value != ""
  }

  /** `start_date <= d <= end_date` as strings, each side only when that bound is given. */
  predicate InRange(d: string, startDate: Option<string>, endDate: Option<string>)
  {
    (Bounded(startDate) ==> !StrLess(d, startDate.value)) && (Bounded(endDate) ==> !StrLess(endDate.value, d))
  }

  function Selected(calendar: Calendar, startDate: Option<string>, endDate: Option<string>): set<string>
  {
    set d | d in calendar && InRange(d, startDate, endDate)
  }

  /** The dates a segment keeps, in ascending order. */
  ghost function KeptDates(calendar: Calendar, startDate: Option<string>, endDate: Option<string>): (dates: seq<string>)
    ensures StrictlyIncreasing(dates)
    ensures forall d :: d in dates <==> d in calendar && InRange(d, startDate, endDate)
  {
    var dates := SortedSeq(Selected(calendar, startDate, endDate));
    assert forall d :: d in dates <==> d in Elems(dates);
    dates
  }

  /** A column label `D{i}{suffix}`. */
  function Label(i: nat, suffix: string): string
  {
    "D" + Decimal(i) + suffix
  }

  function LabelTriple(i: nat): seq<string>
  {
    [Label(i, "_date"), Label(i, "_wakeup"), Label(i, "_inbed")]
  }

  /** The header of a row with `n` dates. */
  function WideHeader(n: nat): (h: seq<string>)
    ensures |h| == 1 + 3 * n && h[0] == "ID"
  {
    if n == 0 then ["ID"] else WideHeader(n - 1) + LabelTriple(n)
  }

  /** The three cells for one date: the date, then its wake-up and bedtime or `""` when unset. */
  function DateCells(date: string, entry: Entry): seq<string>
  {
    [date, entry.wakeup.GetOr(""), entry.inbed.GetOr("")]
  }

  /** The values of a row for segment `segmentId` listing `dates`. */
  function WideValues(segmentId: string, calendar: Calendar, dates: seq<string>): (v: seq<string>)
    requires forall d :: d in dates ==> d in calendar
    ensures |v| == 1 + 3 * |dates| && v[0] == segmentId
  {
    if |dates| == 0 then [segmentId]
    else
      var last := dates[|dates| - 1];
      WideValues(segmentId, calendar, dates[..|dates| - 1]) + DateCells(last, calendar[last])
  }

  /** Listing one more date appends its three cells. */
  lemma WideValuesSnoc(segmentId: string, calendar: Calendar, dates: seq<string>, i: nat)
    requires forall d :: d in dates ==> d in calendar
    requires i < |dates|
    ensures WideValues(segmentId, calendar, dates[..i + 1]) ==
      WideValues(segmentId, calendar, dates[..i]) + DateCells(dates[i], calendar[dates[i]])
  {
    assert dates[..i + 1][..i] == dates[..i];
  }

  /** The opening of `build_wide_row`: sort the calendar's dates, then cut at each bound that is given. */
  method DatesInRange(calendar: Calendar, startDate: Option<string>, endDate: Option<string>) returns (sortedDates: seq<string>)
    ensures sortedDates == KeptDates(calendar, startDate, endDate)
  {
    sortedDates := SortKeys(calendar.Keys);
    if Bounded(startDate) {
      sortedDates := KeepFrom(sortedDates, startDate.value);
    }
    if Bounded(endDate) {
      sortedDates := KeepUpTo(sortedDates, endDate.value);
    }
    assert Elems(sortedDates) == Selected(calendar, startDate, endDate);
    SortedUnique(sortedDates, KeptDates(calendar, startDate, endDate));
  }

  /** `build_wide_row`: returns the header and the values of one segment's row. */
  method BuildWideRow(segmentId: string, calendar: Calendar, startDate: Option<string>, endDate: Option<string>)
    returns (header: seq<string>, values: seq<string>)
    ensures header == WideHeader(|KeptDates(calendar, startDate, endDate)|)
    ensures values == WideValues(segmentId, calendar, KeptDates(calendar, startDate, endDate))
  {
    var sortedDates := DatesInRange(calendar, startDate, endDate);
    header := ["ID"];
    values := [segmentId];
    for i := 0 to |sortedDates|
      invariant header == WideHeader(i)
      invariant values == WideValues(segmentId, calendar, sortedDates[..i])
    {
      var calDate := sortedDates[i];
      var entry := calendar[calDate];
      header := header + [Label(i + 1, "_date"), Label(i + 1, "_wakeup"), Label(i + 1, "_inbed")];
      values := values + [calDate, entry.wakeup.GetOr(""), entry.inbed.GetOr("")];
      WideValuesSnoc(segmentId, calendar, sortedDates, i);
    }
    assert sortedDates[..|sortedDates|] == sortedDates;
  }

  /** The `k`-th triple of the header is labelled with the 1-based index `k + 1`. */
  lemma {:induction false} WideHeaderAt(n: nat, k: nat)
    requires k < n
    ensures WideHeader(n)[1 + 3 * k] == Label(k + 1, "_date")
    ensures WideHeader(n)[2 + 3 * k] == Label(k + 1, "_wakeup")
    ensures WideHeader(n)[3 + 3 * k] == Label(k + 1, "_inbed")
  {
    if k < n - 1 {
      WideHeaderAt(n - 1, k);
    }
  }

  /** The suffix of the `r`-th column of a date's triple. */
  function Suffix(r: nat): string
    requires r < 3
  {
    if r == 0 then "_date" else if r == 1 then "_wakeup" else "_inbed"
  }

  /** Column `1 + 3 * k + r` of the header is labelled by the 1-based index `k + 1` and the `r`-th suffix. */
  lemma HeaderAt(n: nat, k: nat, r: nat)
    requires k < n && r < 3
    ensures 1 + 3 * k + r < |WideHeader(n)|
    ensures WideHeader(n)[1 + 3 * k + r] == Label(k + 1, Suffix(r))
  {
    WideHeaderAt(n, k);
  }

  /** A label determines its index and its suffix: the index is written without leading zeros and the suffix starts with `_`. */
  lemma LabelInjective(i: nat, j: nat, r: nat, q: nat)
    requires r < 3 && q < 3
    ensures Label(i, Suffix(r)) == Label(j, Suffix(q)) ==> i == j && r == q
  {
    var di, dj := Decimal(i), Decimal(j);
    var l, m := Label(i, Suffix(r)), Label(j, Suffix(q));
    if l == m {
      assert forall k :: 1 <= k < 1 + |di| ==> IsDigit(l[k]) by {
        forall k | 1 <= k < 1 + |di| ensures IsDigit(l[k]) {
          assert l[k] == di[k - 1];
        }
      }
      assert forall k :: 1 <= k < 1 + |dj| ==> IsDigit(m[k]) by {
        forall k | 1 <= k < 1 + |dj| ensures IsDigit(m[k]) {
          assert m[k] == dj[k - 1];
        }
      }
      assert l[1 + |di|] == '_' && m[1 + |dj|] == '_';
      assert |di| == |dj|;
      assert di == l[1..1 + |di|] == dj;
      DecimalRoundTrip(i);
      DecimalRoundTrip(j);
      assert Suffix(r) == l[1 + |di|..] == Suffix(q);
    }
  }

  /** Two different columns of a header have different names. */
  lemma ColumnsDiffer(n: nat, a: nat, b: nat)
    requires a < b < |WideHeader(n)|
    ensures WideHeader(n)[a] != WideHeader(n)[b]
  {
    var h := WideHeader(n);
    var kb, rb := (b - 1) / 3, (b - 1) % 3;
    assert b == 1 + 3 * kb + rb;
    HeaderAt(n, kb, rb);
    if a == 0 {
      assert h[b][0] == 'D' && h[a][0] == 'I';
    } else {
      var ka, ra := (a - 1) / 3, (a - 1) % 3;
      assert a == 1 + 3 * ka + ra;
      HeaderAt(n, ka, ra);
      LabelInjective(ka + 1, kb + 1, ra, rb);
    }
  }

  /** The header's column names are pairwise distinct, so every column of the table has a name of its own. */
  lemma HeaderColumnsDistinct(n: nat)
    ensures forall a, b :: 0 <= a < b < |WideHeader(n)| ==> WideHeader(n)[a] != WideHeader(n)[b]
  {
    forall a, b | 0 <= a < b < |WideHeader(n)|
      ensures WideHeader(n)[a] != WideHeader(n)[b]
    {
      ColumnsDiffer(n, a, b);
    }
  }

  /** The `k`-th triple of the values is the `k`-th date with its wake-up and bedtime, `""` when unset. */
  lemma {:induction false} WideValuesAt(segmentId: string, calendar: Calendar, dates: seq<string>)
    requires forall d :: d in dates ==> d in calendar
    ensures forall k :: 0 <= k < |dates| ==>
      && WideValues(segmentId, calendar, dates)[1 + 3 * k] == dates[k]
      && WideValues(segmentId, calendar, dates)[2 + 3 * k] == calendar[dates[k]].wakeup.GetOr("")
      && WideValues(segmentId, calendar, dates)[3 + 3 * k] == calendar[dates[k]].inbed.GetOr("")
  {
    if |dates| != 0 {
      var init := dates[..|dates| - 1];
      WideValuesAt(segmentId, calendar, init);
      assert forall k :: 0 <= k < |init| ==> init[k] == dates[k];
    }
  }

  /**
   * The dates a row lists are exactly the calendar dates inside the inclusive
   * bounds, strictly ascending, each followed by its own wake-up and bedtime.
   */
  lemma EmittedDates(segmentId: string, calendar: Calendar, startDate: Option<string>, endDate: Option<string>)
    ensures var dates := KeptDates(calendar, startDate, endDate);
      && StrictlyIncreasing(dates)
      && (forall d :: d in dates <==> d in calendar && InRange(d, startDate, endDate))
      && var values := WideValues(segmentId, calendar, dates);
      && |values| == 1 + 3 * |dates|
      && values[0] == segmentId
      && forall k :: 0 <= k < |dates| ==>
           && values[1 + 3 * k] == dates[k]
           && values[2 + 3 * k] == calendar[dates[k]].wakeup.GetOr("")
           && values[3 + 3 * k] == calendar[dates[k]].inbed.GetOr("")
  {
    WideValuesAt(segmentId, calendar, KeptDates(calendar, startDate, endDate));
  }

  /** A segment whose range holds no calendar date yields the bare row `[ID]` / `[segmentId]`. */
  lemma EmptyRange(segmentId: string, calendar: Calendar, startDate: Option<string>, endDate: Option<string>)
    requires forall d :: d in calendar ==> !InRange(d, startDate, endDate)
    ensures WideHeader(|KeptDates(calendar, startDate, endDate)|) == ["ID"]
    ensures WideValues(segmentId, calendar, KeptDates(calendar, startDate, endDate)) == [segmentId]
  {
    var dates := KeptDates(calendar, startDate, endDate);
    assert forall d :: d !in dates;
  }

  /** When exactly one calendar date lies in range, the row lists that date alone. */
  lemma SingleDateInRange(calendar: Calendar, startDate: Option<string>, endDate: Option<string>, date: string)
    requires date in calendar && InRange(date, startDate, endDate)
    requires forall d :: d in calendar && d != date ==> !InRange(d, startDate, endDate)
    ensures KeptDates(calendar, startDate, endDate) == [date]
  {
    var dates := KeptDates(calendar, startDate, endDate);
    assert date in dates;
    if |dates| > 1 {
      assert dates[0] in dates && dates[1] in dates;
      StrLessIrreflexive(date);
      assert false;
    }
  }

  lemma LowerBoundExample()
    ensures StrLess("2025-01-01", "2025-01-02") && !StrLess("2025-01-02", "2025-01-02")
  {
    StrLessIrreflexive("2025-01-02");
  }

  lemma UpperBoundExample()
    ensures StrLess("2025-01-04", "2025-01-05") && !StrLess("2025-01-04", "2025-01-02")
  {
    assert StrLess("2025-01-02", "2025-01-04");
    StrLessAsymmetric("2025-01-02", "2025-01-04");
  }

  /** Of 2025-01-01, 2025-01-02 and 2025-01-05, only 2025-01-02 lies in [2025-01-02, 2025-01-04]. */
  lemma ExampleBounds()
    ensures InRange("2025-01-02", Some("2025-01-02"), Some("2025-01-04"))
    ensures !InRange("2025-01-01", Some("2025-01-02"), Some("2025-01-04"))
    ensures !InRange("2025-01-05", Some("2025-01-02"), Some("2025-01-04"))
  {
    LowerBoundExample();
    UpperBoundExample();
  }

  lemma OneOfThreeInRange(calendar: Calendar, startDate: Option<string>, endDate: Option<string>, a: string, b: string, c: string)
    requires calendar.Keys == {a, b, c}
    requires !InRange(a, startDate, endDate) && InRange(b, startDate, endDate) && !InRange(c, startDate, endDate)
    ensures KeptDates(calendar, startDate, endDate) == [b]
  {
    SingleDateInRange(calendar, startDate, endDate, b);
  }

  /** Range filtering on a calendar of three dates keeps the single date inside the bounds. */
  lemma RangeExample(calendar: Calendar)
    requires calendar.Keys == {"2025-01-01", "2025-01-02", "2025-01-05"}
    ensures KeptDates(calendar, Some("2025-01-02"), Some("2025-01-04")) == ["2025-01-02"]
  {
    ExampleBounds();
    OneOfThreeInRange(calendar, Some("2025-01-02"), Some("2025-01-04"), "2025-01-01", "2025-01-02", "2025-01-05");
  }
}
