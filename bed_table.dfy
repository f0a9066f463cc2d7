/** A loaded BED file (`BEDChromosomeModifier.data`) and the rewrite of its
    chromosome column (`modify_chromosomes`).

    The frame pandas reads is a rectangle of cells; each row is a sequence of
    cell texts, column 0 holding the chromosome. */
module BedTable {
  import opened ChromosomeRename

  type Row = seq<string>

  /** A column label of the frame: a name, or the integer position pandas keeps. */
  datatype Label = Name(name: string) | Position(index: nat)

  /** The labels assigned to a frame of `width` columns:
      `["chromosome", "start", "end"] + list(range(3, width))`. Assigning three
      names to a frame with fewer than three columns raises a length mismatch,
      which is `None` here. */
  function ColumnLabels(width: nat): (r: Option<seq<Label>>)
    ensures r.Some? <==> width >= 3
    ensures r.Some? ==> |r.value| == width
    ensures r.Some? ==> r.value[0] == Name("chromosome") && r.value[1] == Name("start") && r.value[2] == Name("end")
    ensures r.Some? ==> forall i :: 3 <= i < width ==> r.value[i] == Position(i)
    ensures r.Some? ==> forall i :: 0 <= i < width && r.value[i] == Name("chromosome") ==> i == 0
  {
    if width < 3 then None
    else Some([Name("chromosome"), Name("start"), Name("end")] + seq(width - 3, i requires 0 <= i => Position(i + 3)))
  }

  /** Every chromosome token of `rows` can be handed to `modify`. */
  predicate TokensWellFormed(rows: seq<Row>)
  {
    forall i :: 0 <= i < |rows| ==> |rows[i]| > 0 && ProbeIsLiteral(rows[i][0])
  }

  /** The outcome of `data["chromosome"].apply(modify)` followed by the
      assignment back to the column: the rewritten rows, or the position of
      the first row whose token raised (the column is then not assigned). */
  datatype Rewrite = Rewritten(rows: seq<Row>) | Raised(row: nat)

  /** The rewrite of the chromosome column of `rows`, as a value. Rows are
      visited in order and the first unassigned token stops the whole apply. */
  function RenameRows(rows: seq<Row>, valid: seq<string>): (r: Rewrite)
    requires TokensWellFormed(rows)
    ensures r.Rewritten? <==> forall i :: 0 <= i < |rows| ==> Normalize(rows[i][0], valid).Ok?
    ensures r.Rewritten? ==> |r.rows| == |rows|
    ensures r.Rewritten? ==> forall i :: 0 <= i < |rows| ==>
              |r.rows[i]| == |rows[i]| && r.rows[i][1..] == rows[i][1..] &&
              Normalize(rows[i][0], valid) == Ok(r.rows[i][0])
    ensures r.Raised? ==> r.row < |rows| && Normalize(rows[r.row][0], valid).Unassigned?
    ensures r.Raised? ==> forall i :: 0 <= i < r.row ==> Normalize(rows[i][0], valid).Ok?
  {
    if rows == [] then Rewritten([])
    else match Normalize(rows[0][0], valid)
      case Unassigned => Raised(0)
      case Ok(name) =>
        match RenameRows(rows[1..], valid)
        case Raised(k) => Raised(k + 1)
        case Rewritten(rest) => Rewritten([[name] + rows[0][1..]] + rest)
  }

  /** The rewritten rows are fully determined by the catalog: each is the old
      row with its first cell replaced by the renamed token. */
  lemma RenamedRow(rows: seq<Row>, valid: seq<string>, i: int)
    requires TokensWellFormed(rows) && RenameRows(rows, valid).Rewritten?
    requires 0 <= i < |rows|
    ensures RenameRows(rows, valid).rows[i] == [Normalize(rows[i][0], valid).name] + rows[i][1..]
  {
    var out := RenameRows(rows, valid).rows;
    assert |out[i]| == |rows[i]| && out[i][1..] == rows[i][1..] && Normalize(rows[i][0], valid) == Ok(out[i][0]);
    HeadAndTail(out[i]);
  }

  /** A non-empty row is its first cell followed by the rest. */
  lemma HeadAndTail(r: Row)
    requires |r| > 0
    ensures r == [r[0]] + r[1..]
  {
  }

  /** One unassignable token anywhere in the frame makes the whole rewrite
      raise, at that row or at an earlier one: no row is rewritten then. */
  lemma UnmatchedRowFailsFrame(rows: seq<Row>, valid: seq<string>, k: int)
    requires TokensWellFormed(rows) && 0 <= k < |rows|
    requires Normalize(rows[k][0], valid).Unassigned?
    ensures RenameRows(rows, valid).Raised? && RenameRows(rows, valid).row <= k
  {
  }

  /** A BED frame whose `chromosome` column `modify_chromosomes` rewrites in place. */
  class Table {
    var rows: array<Row>
    const width: nat

    ghost predicate Valid()
      reads this, rows
    {
      ColumnLabels(width).Some? &&
      forall i :: 0 <= i < rows.Length ==> |rows[i]| == width
    }

    /** The frame after `read_csv` and the column naming: `frame` has `width`
        cells per row and `width` admits the labels. */
    constructor (frame: seq<Row>, width: nat)
      requires ColumnLabels(width).Some?
      requires forall i :: 0 <= i < |frame| ==> |frame[i]| == width
      ensures Valid() && fresh(rows)
      ensures rows[..] == frame && this.width == width
    {
      this.width := width;
      rows := new Row[|frame|](i requires 0 <= i < |frame| => frame[i]);
    }

    /** `data["chromosome"].apply(modify)`: the new column, computed row by
        row. The first unassigned token raises, and `failed` names its row. */
    method ApplyModify(valid: seq<string>) returns (column: seq<string>, failed: Option<nat>)
      requires Valid() && TokensWellFormed(rows[..])
      ensures failed.None? <==> RenameRows(rows[..], valid).Rewritten?
      ensures failed.Some? ==> failed.value == RenameRows(rows[..], valid).row
      ensures failed.None? ==> |column| == rows.Length
      ensures failed.None? ==> forall k :: 0 <= k < rows.Length ==> Normalize(rows[k][0], valid) == Ok(column[k])
    {
      column := [];
      var i := 0;
      while i < rows.Length
        invariant 0 <= i <= rows.Length && |column| == i
        invariant forall k :: 0 <= k < i ==> Normalize(rows[k][0], valid) == Ok(column[k])
      {
        var r := Modify(rows[i][0], valid);
        if r.Unassigned? {
          assert forall k :: 0 <= k < i ==> Normalize(rows[..][k][0], valid).Ok?;
          assert Normalize(rows[..][i][0], valid).Unassigned?;
          return column, Some(i);
        }
        column := column + [r.name];
        i := i + 1;
      }
      assert forall k :: 0 <= k < rows.Length ==> Normalize(rows[..][k][0], valid).Ok?;
      return column, None;
    }

    /** The assignment `data["chromosome"] = column`: field 0 of every row is
        replaced in place, every other cell and the row order stay. */
    method AssignChromosomes(column: seq<string>)
      requires Valid() && |column| == rows.Length
      modifies rows
      ensures Valid()
      ensures forall k :: 0 <= k < rows.Length ==> rows[k] == [column[k]] + old(rows[k])[1..]
    {
      for j := 0 to rows.Length
        invariant forall k :: 0 <= k < j ==> rows[k] == [column[k]] + old(rows[k])[1..]
        invariant forall k :: j <= k < rows.Length ==> rows[k] == old(rows[k])
      {
        rows[j] := [column[j]] + rows[j][1..];
      }
    }

    /** `modify_chromosomes(valid)`: apply `modify` to every chromosome token,
        in row order, and assign the new column. When a token is unassigned the
        apply raises and the frame keeps its old column; `failed` is then the
        row at which it raised. */
    method ModifyChromosomes(valid: seq<string>) returns (failed: Option<nat>)
      requires Valid() && TokensWellFormed(rows[..])
      modifies rows
      ensures Valid()
      ensures RenameRows(old(rows[..]), valid).Raised? ==>
                failed == Some(RenameRows(old(rows[..]), valid).row) && rows[..] == old(rows[..])
      ensures RenameRows(old(rows[..]), valid).Rewritten? ==>
                failed == None && rows[..] == RenameRows(old(rows[..]), valid).rows
    {
      var column;
      column, failed := ApplyModify(valid);
      if failed.Some? {
        return;
      }
      ghost var before := rows[..];
      ghost var after := RenameRows(before, valid).rows;
      forall k | 0 <= k < rows.Length ensures after[k] == [column[k]] + before[k][1..] {
        RenamedRow(before, valid, k);
      }
      AssignChromosomes(column);
      assert rows[..] == after;
    }
  }
}
