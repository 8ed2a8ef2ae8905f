/** Cell normalisation and the layout of one output sheet (app.py:84-103).
    A sheet is a grid of strings; the binary `.xls` encoding is not part of
    this model. */
module Sheets {
  import opened Wrappers
  import opened Text
  import opened Labels

  type Grid = seq<seq<string>>

  /** Every cell becomes its string form, except a missing value or one whose
      string form lower-cases to `"nan"`, which becomes the empty string. */
  function Normalize(v: Cell): (s: string)
    ensures !IsNanText(s)
    ensures s == "" <==> v.None? || IsNanText(v.value) || v.value == ""
    ensures s != "" ==> v == Some(s)
  {
    match v
    case None => ""
    case Some(t) => if IsNanText(t) then "" else t
  }

  /** Normalising an already normalised cell changes nothing. */
  lemma NormalizeIdempotent(v: Cell)
    ensures Normalize(Some(Normalize(v))) == Normalize(v)
  {
  }

  /** The guard applied again when a cell is written: keep the value unless it
      is empty or lower-cases to `"nan"`. */
  function WriteGuard(s: string): string {
    if s != "" && !IsNanText(s) then s else ""
  }

  /** On a normalised cell the write guard is the identity. */
  lemma WriteGuardNormalized(v: Cell)
    ensures WriteGuard(Normalize(v)) == Normalize(v)
  {
  }

  /** The data line written for one row. */
  function Line(l: Label): (r: seq<string>)
    ensures |r| == |FinalColumns|
    ensures forall c :: 0 <= c < |r| ==> r[c] == Normalize(Cells(l)[c])
  {
    seq(|FinalColumns|, c requires 0 <= c < |FinalColumns| => Normalize(Cells(l)[c]))
  }

  /** The sheet of one group: the column names, then one line per row. */
  function Layout(rows: seq<Label>): (g: Grid)
    ensures |g| == |rows| + 1
    ensures g[0] == FinalColumns
    ensures forall k :: 0 <= k < |rows| ==> g[k + 1] == Line(rows[k])
  {
    [FinalColumns] + seq(|rows|, k requires 0 <= k < |rows| => Line(rows[k]))
  }

  /** No cell of a sheet, header included, reads as `nan` in any letter case,
      and every line has exactly the fourteen columns. */
  lemma LayoutHasNoNan(rows: seq<Label>)
    ensures forall k :: 0 <= k < |Layout(rows)| ==> |Layout(rows)[k]| == |FinalColumns|
    ensures forall k, c :: 0 <= k < |Layout(rows)| && 0 <= c < |Layout(rows)[k]| ==>
      !IsNanText(Layout(rows)[k][c])
  {
    var g := Layout(rows);
    forall c | 0 <= c < |FinalColumns|
      ensures !IsNanText(FinalColumns[c])
    {
      NanSpellings(FinalColumns[c]);
    }
    forall k, c | 0 <= k < |g| && 0 <= c < |g[k]|
      ensures !IsNanText(g[k][c])
    {
      if k > 0 {
        assert g[k] == Line(rows[k - 1]);
      }
    }
  }

  /** A present value that is neither empty nor a NaN spelling is written
      exactly as its string form. */
  lemma LayoutKeepsValues(rows: seq<Label>, k: nat, c: nat)
    requires k < |rows| && c < |FinalColumns|
    requires Cells(rows[k])[c].Some? && !IsNanText(Cells(rows[k])[c].value)
    ensures Layout(rows)[k + 1][c] == Cells(rows[k])[c].value
  {
  }

  /** The sheet written cell by cell, as the source does: the header row, then
      for every row and column the normalised value passed through the write
      guard. */
  method WriteSheet(rows: seq<Label>) returns (g: Grid)
    ensures |g| == |rows| + 1
    ensures g[0] == FinalColumns
    ensures forall k, c :: 0 <= k < |rows| && 0 <= c < |FinalColumns| ==>
      |g[k + 1]| == |FinalColumns| && g[k + 1][c] == Normalize(Cells(rows[k])[c])
    ensures g == Layout(rows)
  {
    var header: seq<string> := [];
    var c := 0;
    while c < |FinalColumns|
      invariant 0 <= c <= |FinalColumns|
      invariant header == FinalColumns[..c]
    {
      header := header + [FinalColumns[c]];
      c := c + 1;
    }
    g := [header];
    var k := 0;
    while k < |rows|
      invariant 0 <= k <= |rows|
      invariant |g| == k + 1 && g[0] == FinalColumns
      invariant forall k' :: 0 <= k' < k ==> g[k' + 1] == Line(rows[k'])
    {
      var cells := Cells(rows[k]);
      var line: seq<string> := [];
      c := 0;
      while c < |cells|
        invariant 0 <= c <= |cells|
        invariant |line| == c
        invariant forall c' :: 0 <= c' < c ==> line[c'] == Normalize(cells[c'])
      {
        WriteGuardNormalized(cells[c]);
        line := line + [WriteGuard(Normalize(cells[c]))];
        c := c + 1;
      }
      g := g + [line];
      k := k + 1;
    }
    assert g == Layout(rows);
    forall k', c' | 0 <= k' < |rows| && 0 <= c' < |FinalColumns|
      ensures |g[k' + 1]| == |FinalColumns| && g[k' + 1][c'] == Normalize(Cells(rows[k'])[c'])
    {
      assert g[k' + 1] == Line(rows[k']);
    }
  }
}
