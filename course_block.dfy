/**
 * One running block of a workout: its series/reps/distance inputs and the
 * grid of times, one row per series and one cell per repetition. Changing
 * the counts resizes the grid row by row and cell by cell, keeping the
 * times already typed; editing a cell replaces that one time.
 */
module CourseBlockForm {
  import opened Wrappers
  import opened Text

  /** A time in seconds, or null while the cell is empty. */
  type Chrono = Option<real>

  /** `chronos`: one row per series, one cell per repetition. */
  type Grid = seq<seq<Chrono>>

  /** The value handed to `onChange`. */
  datatype CourseBlockData = CourseBlockData(
    id: string,
    series: nat,
    reps: nat,
    distance: int,
    restBetweenReps: string,
    restBetweenSeries: string,
    chronos: Grid)

  /** `Array(n).fill(null)`. */
  function Nulls(n: nat): (row: seq<Chrono>)
    ensures |row| == n
    ensures forall j :: 0 <= j < n ==> row[j] == None
  {
    seq(n, _ => None)
  }

  /** A row cut or padded with nulls to `reps` cells. */
  function FitRow(row: seq<Chrono>, reps: nat): (r: seq<Chrono>)
    ensures |r| == reps
    ensures forall j :: 0 <= j < reps && j < |row| ==> r[j] == row[j]
    ensures forall j :: |row| <= j < reps ==> r[j] == None
  {
    if |row| >= reps then row[..reps] else row + Nulls(reps - |row|)
  }

  /**
   * The grid the resize effect leaves: `series` rows of `reps` cells, where
   * every cell that existed before keeps its time and every new cell is null.
   */
  function Resized(g: Grid, series: nat, reps: nat): (r: Grid)
    ensures |r| == series
    ensures forall i :: 0 <= i < series ==> |r[i]| == reps
    ensures forall i, j :: 0 <= i < series && i < |g| && 0 <= j < reps && j < |g[i]| ==> r[i][j] == g[i][j]
    ensures forall i, j :: 0 <= i < series && 0 <= j < reps && (i >= |g| || j >= |g[i]|) ==> r[i][j] == None
  {
    var r := seq(series, i requires 0 <= i < series => FitRow(if i < |g| then g[i] else [], reps));
    assert forall i :: 0 <= i < series ==> r[i] == FitRow(if i < |g| then g[i] else [], reps);
    r
  }

  /** Every row has `reps` cells and there are `series` rows. */
  predicate HasShape(g: Grid, series: nat, reps: nat) {
    |g| == series && forall i :: 0 <= i < |g| ==> |g[i]| == reps
  }

  /** A grid that already has the shape is left as it is. */
  lemma ResizeShaped(g: Grid, series: nat, reps: nat)
    requires HasShape(g, series, reps)
    ensures Resized(g, series, reps) == g
  {
    var r := Resized(g, series, reps);
    forall i | 0 <= i < series
      ensures r[i] == g[i]
    {
      assert |r[i]| == |g[i]|;
      assert forall j :: 0 <= j < reps ==> r[i][j] == g[i][j];
    }
  }

  /** Resizing twice to the same counts gives the grid of resizing once. */
  lemma ResizeIdempotent(g: Grid, series: nat, reps: nat)
    ensures Resized(Resized(g, series, reps), series, reps) == Resized(g, series, reps)
  {
    ResizeShaped(Resized(g, series, reps), series, reps);
  }

  /**
   * The resize effect: push rows of nulls while there are too few series,
   * pop rows while there are too many, then do the same with the cells of
   * every row.
   */
  method ResizeGrid(grid: Grid, series: nat, reps: nat) returns (draft: Grid)
    ensures draft == Resized(grid, series, reps)
  {
    draft := grid;
    while |draft| < series
      invariant |grid| <= |draft| && (|draft| == |grid| || |draft| <= series)
      invariant forall i :: 0 <= i < |draft| ==> draft[i] == (if i < |grid| then grid[i] else Nulls(reps))
    {
      draft := draft + [Nulls(reps)];
    }
    while |draft| > series
      invariant series <= |draft|
      invariant forall i :: 0 <= i < |draft| ==> draft[i] == (if i < |grid| then grid[i] else Nulls(reps))
    {
      draft := draft[..|draft| - 1];
    }
    ghost var rows := draft;
    var index := 0;
    while index < |draft|
      invariant |draft| == |rows| == series && 0 <= index <= series
      invariant forall i :: 0 <= i < index ==> draft[i] == FitRow(rows[i], reps)
      invariant forall i :: index <= i < series ==> draft[i] == rows[i]
    {
      var row := draft[index];
      ghost var original := row;
      while |row| < reps
        invariant |original| <= |row| && (|row| == |original| || |row| <= reps)
        invariant forall j :: 0 <= j < |row| ==> row[j] == (if j < |original| then original[j] else None)
      {
        row := row + [None];
      }
      while |row| > reps
        invariant reps <= |row|
        invariant forall j :: 0 <= j < |row| ==> row[j] == (if j < |original| then original[j] else None)
      {
        row := row[..|row| - 1];
      }
      assert row == FitRow(original, reps);
      draft := draft[index := row];
      index := index + 1;
    }
    forall i | 0 <= i < series
      ensures draft[i] == Resized(grid, series, reps)[i]
    {
      if i >= |grid| {
        assert FitRow(Nulls(reps), reps) == Nulls(reps) == FitRow([], reps);
      }
    }
  }

  /** `value ? parseFloat(value) : null` on the text of a number input. */
  function ChronoOfText(value: string): (c: Chrono)
    requires value == "" || IsDecimalText(value)
    ensures c.None? <==> value == ""
    ensures c.Some? ==> c.value == ParseFloat(value)
  {
    if value == "" then None else Some(ParseFloat(value))
  }

  /** The grid with cell (i, j) replaced by `c` and nothing else changed. */
  function SetCell(g: Grid, i: nat, j: nat, c: Chrono): (r: Grid)
    requires i < |g| && j < |g[i]|
    ensures |r| == |g| && forall k :: 0 <= k < |g| ==> |r[k]| == |g[k]|
    ensures r[i][j] == c
    ensures forall k, l :: 0 <= k < |g| && 0 <= l < |g[k]| && (k != i || l != j) ==> r[k][l] == g[k][l]
  {
    g[i := g[i][j := c]]
  }

  /** Editing a cell keeps the grid's shape, so the resize effect leaves the edit in place. */
  lemma EditSurvivesResize(g: Grid, series: nat, reps: nat, i: nat, j: nat, c: Chrono)
    requires HasShape(g, series, reps) && i < series && j < reps
    ensures HasShape(SetCell(g, i, j, c), series, reps)
    ensures Resized(SetCell(g, i, j, c), series, reps) == SetCell(g, i, j, c)
  {
    ResizeShaped(SetCell(g, i, j, c), series, reps);
  }

  /** `Math.max(1, parseInt(text) || 1)`: NaN and 0 are falsy and give 1. */
  function CountFromText(text: string): (n: int)
    ensures n >= 1
    ensures ParseInt(text).Some? && ParseInt(text).value >= 1 ==> n == ParseInt(text).value
    ensures ParseInt(text).None? || ParseInt(text).value < 1 ==> n == 1
  {
    var parsed := ParseInt(text);
    var orOne := if parsed.Some? && parsed.value != 0 then parsed.value else 1;
    if 1 < orOne then orOne else 1
  }

  /** `parseInt(text) || 0`: only NaN is replaced, since 0 is already 0. */
  function DistanceFromText(text: string): (d: int)
    ensures ParseInt(text).Some? ==> d == ParseInt(text).value
    ensures ParseInt(text).None? ==> d == 0
  {
    var parsed := ParseInt(text);
    if parsed.Some? && parsed.value != 0 then parsed.value else 0
  }

  /** The text the series or reps input shows for a count of at least 1 reads back as that count. */
  lemma CountTextRoundTrip(n: int)
    requires n >= 1
    ensures CountFromText(IntToString(n)) == n
  {
    ParseIntOfToString(n);
  }

  /** The text the distance input shows for any whole distance reads back as that distance. */
  lemma DistanceTextRoundTrip(n: int)
    ensures DistanceFromText(IntToString(n)) == n
  {
    ParseIntOfToString(n);
  }

  /** The component's state. */
  class CourseBlock {
    const id: string
    var series: nat
    var reps: nat
    var distance: int
    var restBetweenReps: string
    var restBetweenSeries: string
    var chronos: Grid

    /** The block as handed to the parent through `onChange`. */
    function Data(): CourseBlockData
      reads this
    {
      CourseBlockData(id, series, reps, distance, restBetweenReps, restBetweenSeries, chronos)
    }

    /** The state starts from the block's fields, then the resize effect runs once on mount. */
    constructor (block: CourseBlockData)
      ensures Data() == block.(chronos := Resized(block.chronos, block.series, block.reps))
      ensures HasShape(chronos, series, reps)
    {
      id := block.id;
      series := block.series;
      reps := block.reps;
      distance := block.distance;
      restBetweenReps := block.restBetweenReps;
      restBetweenSeries := block.restBetweenSeries;
      var resized := ResizeGrid(block.chronos, block.series, block.reps);
      chronos := resized;
    }

    /** The series input, followed by the resize effect it triggers. */
    method ChangeSeries(text: string)
      modifies this
      ensures Data() == old(Data()).(series := CountFromText(text),
                                     chronos := Resized(old(chronos), CountFromText(text), reps))
      ensures HasShape(chronos, series, reps)
    {
      series := CountFromText(text);
      chronos := ResizeGrid(chronos, series, reps);
    }

    /** The repetitions input, followed by the resize effect it triggers. */
    method ChangeReps(text: string)
      modifies this
      ensures Data() == old(Data()).(reps := CountFromText(text),
                                     chronos := Resized(old(chronos), series, CountFromText(text)))
      ensures HasShape(chronos, series, reps)
    {
      reps := CountFromText(text);
      chronos := ResizeGrid(chronos, series, reps);
    }

    /** The distance input. */
    method ChangeDistance(text: string)
      modifies this
      ensures Data() == old(Data()).(distance := DistanceFromText(text))
    {
      distance := DistanceFromText(text);
    }

    /** The rest-between-repetitions text input, stored as typed. */
    method ChangeRestBetweenReps(text: string)
      modifies this
      ensures Data() == old(Data()).(restBetweenReps := text)
    {
      restBetweenReps := text;
    }

    /** The rest-between-series text input, stored as typed. */
    method ChangeRestBetweenSeries(text: string)
      modifies this
      ensures Data() == old(Data()).(restBetweenSeries := text)
    {
      restBetweenSeries := text;
    }

    /** `handleChronoChange`: the one cell takes the typed time, or null when the input is cleared. */
    method HandleChronoChange(serieIndex: nat, repIndex: nat, value: string)
      requires serieIndex < |chronos| && repIndex < |chronos[serieIndex]|
      requires value == "" || IsDecimalText(value)
      modifies this
      ensures Data() == old(Data()).(chronos := SetCell(old(chronos), serieIndex, repIndex, ChronoOfText(value)))
    {
      var row := chronos[serieIndex];
      row := row[repIndex := ChronoOfText(value)];
      chronos := chronos[serieIndex := row];
    }
  }
}
