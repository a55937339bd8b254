/**
 * The in-memory conversion: reject a diary with no usable row, build the
 * calendar, build one wide row per segment, pad every row to the widest one
 * and take the header of the first widest row.
 */
module Conversion {
  import opened Wrappers
  import opened Dates
  import opened SleepCalendar
  import opened WideRow

  /** A raw CSV cell: empty (NaN), or text together with what parsing it gave (`None` for NaT). */
  datatype Cell = Missing | Given(parsed: Option<DateTime>)

  /** One diary row: the `Out_Bed` and `In_Bed` cells. */
  datatype SourceRow = SourceRow(outBed: Cell, inBed: Cell)

  /** A segment: the row's ID and optional inclusive date bounds (`None` for a JSON null or a missing key). */
  datatype Segment = Segment(id: string, startDate: Option<string>, endDate: Option<string>)

  datatype Table = Table(header: seq<string>, rows: seq<seq<string>>)

  datatype ConversionError =
    | NoUsableRows  // "No usable rows in the uploaded CSV."
    | NoSegments(warnings: seq<Warning>)  // `max()` over no headers, after the calendar's warnings were logged

  datatype Converted = Converted(table: Table, warnings: seq<Warning>)

  predicate Usable(r: SourceRow)
  {
    r.outBed.Given? || r.inBed.Given?
  }

  /** `df.dropna(subset=["Out_Bed", "In_Bed"], how="all")`: keeps, in order, the rows with some cell given. */
  function DropUnusable(rows: seq<SourceRow>): (kept: seq<SourceRow>)
    ensures forall r :: r in kept <==> r in rows && Usable(r)
    ensures |kept| <= |rows|
  {
    if |rows| == 0 then []
    else
      assert forall r :: r in rows <==> r == rows[0] || r in rows[1..];
      (if Usable(rows[0]) then [rows[0]] else []) + DropUnusable(rows[1..])
  }

  /** Filtering a concatenation filters each part: the kept rows stay in their original order, duplicates included. */
  lemma {:induction false} DropUnusableConcat(x: seq<SourceRow>, y: seq<SourceRow>)
    ensures DropUnusable(x + y) == DropUnusable(x) + DropUnusable(y)
  {
    if |x| == 0 {
      assert x + y == y;
    } else {
      var head := if Usable(x[0]) then [x[0]] else [];
      assert (x + y)[0] == x[0] && (x + y)[1..] == x[1..] + y;
      DropUnusableConcat(x[1..], y);
      assert DropUnusable(x + y) == head + (DropUnusable(x[1..]) + DropUnusable(y));
    }
  }

  /** A single row is kept exactly when it has a cell given. */
  lemma DropUnusableSingle(r: SourceRow)
    ensures DropUnusable([r]) == if Usable(r) then [r] else []
  {
    assert [r][1..] == [];
  }

  /** A diary whose rows are all usable passes through unchanged, repeated rows included. */
  lemma {:induction false} DropUnusableKeepsAll(rows: seq<SourceRow>)
    requires forall r :: r in rows ==> Usable(r)
    ensures DropUnusable(rows) == rows
  {
    if |rows| != 0 {
      assert forall r :: r in rows[1..] ==> r in rows;
      DropUnusableKeepsAll(rows[1..]);
    }
  }

  function Parsed(c: Cell): Option<DateTime>
  {
    if c.Given? then c.parsed else None
  }

  function ToEpisode(r: SourceRow): Episode
  {
    Episode(Parsed(r.outBed), Parsed(r.inBed))
  }

  function ToEpisodes(rows: seq<SourceRow>): seq<Episode>
  {
    seq(|rows|, i requires 0 <= i < |rows| => ToEpisode(rows[i]))
  }

  /** Every parsed timestamp is one a pandas Timestamp can hold. */
  predicate ValidRows(rows: seq<SourceRow>)
  {
    forall r :: r in rows ==> ValidEpisode(ToEpisode(r))
  }

  /** The row extended with `""` cells up to `width`; a row already that wide is unchanged. */
  function PadTo(row: seq<string>, width: nat): (padded: seq<string>)
    ensures |padded| == if |row| < width then width else |row|
    ensures padded[..|row|] == row
    ensures forall k :: |row| <= k < |padded| ==> padded[k] == ""
    decreases width - |row|
  {
    if |row| < width then
      var longer := PadTo(row + [""], width);
      assert longer[..|row|] == longer[..|row| + 1][..|row|];
      longer
    else row
  }

  function PadAll(rows: seq<seq<string>>, width: nat): (padded: seq<seq<string>>)
  {
    seq(|rows|, i requires 0 <= i < |rows| => PadTo(rows[i], width))
  }

  function Max(a: nat, b: nat): nat
  {
    if a < b then b else a
  }

  /** The length of the longest row, 0 for no rows. */
  function MaxWidth(rows: seq<seq<string>>): (w: nat)
    ensures forall i :: 0 <= i < |rows| ==> |rows[i]| <= w
    ensures |rows| != 0 ==> exists i :: 0 <= i < |rows| && |rows[i]| == w
    ensures |rows| == 0 ==> w == 0
  {
    if |rows| == 0 then 0
    else
      var init := rows[..|rows| - 1];
      assert forall i :: 0 <= i < |init| ==> init[i] == rows[i];
      Max(MaxWidth(init), |rows[|rows| - 1]|)
  }

  lemma MaxWidthSnoc(rows: seq<seq<string>>, row: seq<string>)
    ensures MaxWidth(rows + [row]) == Max(MaxWidth(rows), |row|)
  {
    assert (rows + [row])[..|rows|] == rows;
  }

  /** Extending the candidates by one: the new element is picked only if it is strictly longer than the current pick. */
  lemma FirstLongestSnoc(rows: seq<seq<string>>, i: nat)
    requires 0 < i < |rows|
    ensures FirstLongest(rows[..i + 1]) ==
      if |rows[i]| > |rows[FirstLongest(rows[..i])]| then i else FirstLongest(rows[..i])
  {
    assert rows[..i + 1][..i] == rows[..i];
  }

  lemma ExtendPrefix(rows: seq<seq<string>>, row: seq<string>, all: seq<seq<string>>)
    requires |rows| < |all| && row == all[|rows|]
    requires forall j :: 0 <= j < |rows| ==> rows[j] == all[j]
    ensures forall j :: 0 <= j <= |rows| ==> (rows + [row])[j] == all[j]
  {
  }

  /** The index Python's `max(rows, key=len)` picks: the first of the longest rows. */
  function FirstLongest(rows: seq<seq<string>>): (i: nat)
    requires |rows| != 0
    ensures i < |rows|
    ensures forall j :: 0 <= j < |rows| ==> |rows[j]| <= |rows[i]|
    ensures forall j :: 0 <= j < i ==> |rows[j]| < |rows[i]|
  {
    if |rows| == 1 then 0
    else
      var init := rows[..|rows| - 1];
      assert forall j :: 0 <= j < |init| ==> init[j] == rows[j];
      var best := FirstLongest(init);
      if |rows[|rows| - 1]| > |rows[best]| then |rows| - 1 else best
  }

  ghost function SegmentHeader(calendar: Calendar, s: Segment): seq<string>
  {
    WideHeader(|KeptDates(calendar, s.startDate, s.endDate)|)
  }

  ghost function SegmentValues(calendar: Calendar, s: Segment): seq<string>
  {
    WideValues(s.id, calendar, KeptDates(calendar, s.startDate, s.endDate))
  }

  ghost function AllHeaders(calendar: Calendar, segments: seq<Segment>): seq<seq<string>>
  {
    seq(|segments|, i requires 0 <= i < |segments| => SegmentHeader(calendar, segments[i]))
  }

  ghost function AllValues(calendar: Calendar, segments: seq<Segment>): seq<seq<string>>
  {
    seq(|segments|, i requires 0 <= i < |segments| => SegmentValues(calendar, segments[i]))
  }

  /** The output table: each segment's row padded to the widest row, under the first longest header, padded alike. */
  ghost function Assembled(calendar: Calendar, segments: seq<Segment>): (t: Table)
    requires |segments| != 0
    ensures |t.rows| == |segments|
    ensures forall i :: 0 <= i < |t.rows| ==> |t.rows[i]| == MaxWidth(AllValues(calendar, segments))
  {
    var headers := AllHeaders(calendar, segments);
    var width := MaxWidth(AllValues(calendar, segments));
    Table(PadTo(headers[FirstLongest(headers)], width), PadAll(AllValues(calendar, segments), width))
  }

  /** A segment's header and its value row have the same length, `1 + 3 * len(dates)`. */
  lemma HeaderMatchesValues(calendar: Calendar, s: Segment)
    ensures |SegmentHeader(calendar, s)| == |SegmentValues(calendar, s)|
  {
  }

  /** Which row `max(..., key=len)` picks depends only on the rows' lengths. */
  lemma {:induction false} FirstLongestByLength(a: seq<seq<string>>, b: seq<seq<string>>)
    requires |a| == |b| != 0
    requires forall i :: 0 <= i < |a| ==> |a[i]| == |b[i]|
    ensures FirstLongest(a) == FirstLongest(b)
  {
    if |a| > 1 {
      FirstLongestByLength(a[..|a| - 1], b[..|b| - 1]);
    }
  }

  /**
   * The header is the full header of the first segment whose row is widest,
   * and it is already as wide as the table: padding it adds nothing.
   */
  lemma HeaderOfWidestRow(calendar: Calendar, segments: seq<Segment>)
    requires |segments| != 0
    ensures var values := AllValues(calendar, segments);
      var i := FirstLongest(values);
      Assembled(calendar, segments).header == SegmentHeader(calendar, segments[i]) &&
      |Assembled(calendar, segments).header| == MaxWidth(values)
  {
    var headers, values := AllHeaders(calendar, segments), AllValues(calendar, segments);
    forall i | 0 <= i < |segments|
      ensures |headers[i]| == |values[i]|
    {
      HeaderMatchesValues(calendar, segments[i]);
    }
    FirstLongestByLength(headers, values);
  }

  /**
   * The table is rectangular: one row per segment, in order, each starting with
   * the segment's ID, holding the segment's cells and then only `""`, as wide as the header.
   */
  lemma Rectangular(calendar: Calendar, segments: seq<Segment>)
    requires |segments| != 0
    ensures var t := Assembled(calendar, segments);
      |t.rows| == |segments| &&
      forall i :: 0 <= i < |segments| ==>
        var values := SegmentValues(calendar, segments[i]);
        |t.rows[i]| == |t.header| &&
        t.rows[i][0] == segments[i].id &&
        t.rows[i][..|values|] == values &&
        forall k :: |values| <= k < |t.rows[i]| ==> t.rows[i][k] == ""
  {
    HeaderOfWidestRow(calendar, segments);
  }

  /** Padding twice to the same width is padding once. */
  lemma PadAllIdempotent(rows: seq<seq<string>>, width: nat)
    ensures PadAll(PadAll(rows, width), width) == PadAll(rows, width)
  {
  }

  /** Once the rows are padded to the widest of them, the widest width is unchanged and padding again does nothing. */
  lemma PaddingSettles(rows: seq<seq<string>>)
    ensures var padded := PadAll(rows, MaxWidth(rows));
      MaxWidth(padded) == MaxWidth(rows) && PadAll(padded, MaxWidth(padded)) == padded
  {
  }

  /**
   * Rows of lengths 4, 7 and 4: all are padded to 7, the width-7 row supplies
   * the header, and padding the padded rows again changes nothing.
   */
  lemma PaddingExample(a: seq<string>, b: seq<string>, c: seq<string>)
    requires |a| == 4 && |b| == 7 && |c| == 4
    ensures MaxWidth([a, b, c]) == 7 && FirstLongest([a, b, c]) == 1
    ensures PadAll([a, b, c], 7) == [PadTo(a, 7), b, PadTo(c, 7)]
    ensures forall i :: 0 <= i < 3 ==> |PadAll([a, b, c], 7)[i]| == 7
    ensures PadAll(PadAll([a, b, c], 7), 7) == PadAll([a, b, c], 7)
  {
    assert [a, b, c][..2] == [a, b];
    assert [a, b][..1] == [a];
  }

  /** `for row in rows: while len(row) < max_cols: row.append("")`, for one row. */
  method PadRow(row: seq<string>, maxCols: nat) returns (padded: seq<string>)
    ensures padded == PadTo(row, maxCols)
  {
    padded := row;
    while |padded| < maxCols
      invariant PadTo(padded, maxCols) == PadTo(row, maxCols)
      decreases maxCols - |padded|
    {
      padded := padded + [""];
    }
  }

  /** The padding loop over all rows. */
  method PadRows(rows: seq<seq<string>>, maxCols: nat) returns (padded: seq<seq<string>>)
    ensures padded == PadAll(rows, maxCols)
  {
    padded := rows;
    for i := 0 to |padded|
      invariant |padded| == |rows|
      invariant forall j :: 0 <= j < i ==> padded[j] == PadTo(rows[j], maxCols)
      invariant forall j :: i <= j < |rows| ==> padded[j] == rows[j]
    {
      var row := PadRow(padded[i], maxCols);
      padded := padded[i := row];
    }
  }

  /** The first pass over the segments: one value row each, and the widest length seen. */
  method BuildRows(calendar: Calendar, segments: seq<Segment>) returns (rows: seq<seq<string>>, maxCols: nat)
    ensures rows == AllValues(calendar, segments)
    ensures maxCols == MaxWidth(rows)
  {
    ghost var all := AllValues(calendar, segments);
    rows, maxCols := [], 0;
    for i := 0 to |segments|
      invariant |rows| == i
      invariant forall j :: 0 <= j < i ==> rows[j] == all[j]
      invariant maxCols == MaxWidth(rows)
    {
      var seg := segments[i];
      var header, values := BuildWideRow(seg.id, calendar, seg.startDate, seg.endDate);
      assert values == all[i];
      MaxWidthSnoc(rows, values);
      ExtendPrefix(rows, values, all);
      rows := rows + [values];
      maxCols := Max(maxCols, |values|);
    }
  }

  /** The second pass: `max((build_wide_row(...)[0] for s in segments), key=len)`. */
  method LongestHeader(calendar: Calendar, segments: seq<Segment>) returns (longest: seq<string>)
    requires |segments| != 0
    ensures longest == AllHeaders(calendar, segments)[FirstLongest(AllHeaders(calendar, segments))]
  {
    ghost var headers := AllHeaders(calendar, segments);
    ghost var best := 0;
    var firstValues;
    longest, firstValues := BuildWideRow(segments[0].id, calendar, segments[0].startDate, segments[0].endDate);
    for i := 1 to |segments|
      invariant best == FirstLongest(headers[..i]) && longest == headers[best]
    {
      var header, values := BuildWideRow(segments[i].id, calendar, segments[i].startDate, segments[i].endDate);
      assert header == headers[i];
      FirstLongestSnoc(headers, i);
      if |header| > |longest| {
        longest, best := header, i;
      }
    }
    assert headers[..|segments|] == headers;
  }

  /** `convert_sleeplog_in_memory`, from the parsed cells to the table and the warnings logged on the way. */
  method Convert(rows: seq<SourceRow>, segments: seq<Segment>, noonCutoff: int) returns (result: Result<Converted, ConversionError>)
    requires ValidRows(rows)
    ensures DropUnusable(rows) == [] ==> result == Failure(NoUsableRows)
    ensures DropUnusable(rows) != [] ==>
      var episodes := ToEpisodes(DropUnusable(rows));
      ValidEpisodes(episodes) &&
      var scattered := ScatterAll(episodes, noonCutoff);
      result == if segments == [] then Failure(NoSegments(scattered.warnings))
        else Success(Converted(Assembled(scattered.calendar, segments), scattered.warnings))
  {
    var usable := DropUnusable(rows);
    if |usable| == 0 {
      return Failure(NoUsableRows);
    }
    var episodes := ToEpisodes(usable);
    assert ValidEpisodes(episodes) by {
      forall i | 0 <= i < |episodes|
        ensures ValidEpisode(episodes[i])
      {
        assert usable[i] in usable;
      }
    }
    var calendar, warnings := BuildCalendar(episodes, noonCutoff);
    var valueRows, maxCols := BuildRows(calendar, segments);
    valueRows := PadRows(valueRows, maxCols);
    if |segments| == 0 {
      return Failure(NoSegments(warnings));
    }
    var longestHeader := LongestHeader(calendar, segments);
    longestHeader := PadRow(longestHeader, maxCols);
    return Success(Converted(Table(longestHeader, valueRows), warnings));
  }
}
