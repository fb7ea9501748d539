/** Cleaning a wide price panel: drop the symbols with too little history,
    then carry the last known price forward over gaps. */
module Preprocess {
  import opened Wrappers
  import opened Panels
  import Stats

  /** Number of non-missing cells (`DataFrame.count`). */
  function Count(col: seq<Cell>): (n: nat)
    ensures n <= |col|
    ensures n == |col| <==> AllPresent(col)
  {
    if col == [] then 0
    else
      var m := |col| - 1;
      assert AllPresent(col) <==> AllPresent(col[..m]) && col[m].Some?;
      Count(col[..m]) + (if col[m].Some? then 1 else 0)
  }

  /** The count is the number of rows whose cell is present. */
  lemma {:induction false} CountPresentRows(col: seq<Cell>)
    ensures Count(col) == |set i | 0 <= i < |col| && col[i].Some?|
  {
    if col != [] {
      var m := |col| - 1;
      CountPresentRows(col[..m]);
      var before := set i | 0 <= i < m && col[..m][i].Some?;
      var last: set<int> := if col[m].Some? then {m} else {};
      assert (set i | 0 <= i < |col| && col[i].Some?) == before + last;
      assert before * last == {};
    }
  }

  /** The count is the number of present values `DataFrame.mean` and `std`
      aggregate over. */
  lemma {:induction false} CountIsPresentLength(col: seq<Cell>)
    ensures Count(col) == |Stats.Present(col)|
  {
    if col != [] {
      CountIsPresentLength(col[..|col| - 1]);
    }
  }

  /** `int(0.9 * len(data))`. The double nearest 0.9 lies slightly above 0.9, so
      for every row count a panel can have the product truncates to (9 * n) / 10. */
  function Threshold(n: nat): (t: nat)
    ensures t <= n && 10 * t <= 9 * n < 10 * (t + 1)
  {
    (9 * n) / 10
  }

  /** Positions of the columns `dropna(axis=1, thresh=Threshold(rows))` keeps. */
  function KeptColumns(p: Panel): (ix: seq<nat>)
    requires Valid(p)
    ensures IncreasingIndices(ix)
    ensures forall j: nat :: j in ix <==> j < |p.labels| && Count(Column(p, j)) >= Threshold(|p.rows|)
    ensures forall k :: 0 <= k < |ix| ==> ix[k] < |p.labels|
  {
    Where(|p.labels|, (j: nat) => j < |p.labels| && Count(Column(p, j)) >= Threshold(|p.rows|))
  }

  /** Drops every column with fewer non-missing cells than the threshold; the
      survivors keep their order, their cells and the full row span. */
  function DropSparse(p: Panel): (r: Panel)
    requires Valid(p)
    ensures Valid(r) && r.dates == p.dates && |r.rows| == |p.rows|
    ensures |r.labels| == |KeptColumns(p)|
    ensures forall k :: 0 <= k < |r.labels| ==>
      r.labels[k] == p.labels[KeptColumns(p)[k]] && Column(r, k) == Column(p, KeptColumns(p)[k])
  {
    var r := SelectColumns(p, KeptColumns(p));
    assert forall k :: 0 <= k < |r.labels| ==> Column(r, k) == Column(p, KeptColumns(p)[k]);
    r
  }

  predicate DistinctLabels(p: Panel)
  {
    forall a, b :: 0 <= a < b < |p.labels| ==> p.labels[a] != p.labels[b]
  }

  /** A symbol survives exactly when its column has at least Threshold(rows)
      observations, and then it carries its original column. */
  lemma DropSparseKeepsExactly(p: Panel, j: nat)
    requires Valid(p) && DistinctLabels(p) && j < |p.labels|
    ensures p.labels[j] in DropSparse(p).labels <==> Count(Column(p, j)) >= Threshold(|p.rows|)
    ensures p.labels[j] in DropSparse(p).labels ==>
      exists k :: 0 <= k < |DropSparse(p).labels| && DropSparse(p).labels[k] == p.labels[j]
        && Column(DropSparse(p), k) == Column(p, j)
  {
    var r := DropSparse(p);
    var ix := KeptColumns(p);
    if p.labels[j] in r.labels {
      var k :| 0 <= k < |r.labels| && r.labels[k] == p.labels[j];
      assert p.labels[ix[k]] == p.labels[j];
      assert ix[k] == j;
      assert j in ix;
    }
    if Count(Column(p, j)) >= Threshold(|p.rows|) {
      assert j in ix;
      var k :| 0 <= k < |ix| && ix[k] == j;
      assert r.labels[k] == p.labels[j];
    }
  }

  /** In a panel without gaps every column reaches the threshold. */
  lemma KeptColumnsOfComplete(p: Panel)
    requires Valid(p) && Complete(p)
    ensures KeptColumns(p) == seq(|p.labels|, k => k)
  {
    forall j: nat | j < |p.labels| ensures Count(Column(p, j)) >= Threshold(|p.rows|) {
      assert AllPresent(Column(p, j));
    }
    WhereAll(|p.labels|, (j: nat) => j < |p.labels| && Count(Column(p, j)) >= Threshold(|p.rows|));
  }

  /** A panel without gaps loses no column. */
  lemma DropSparseOfComplete(p: Panel)
    requires Valid(p) && Complete(p)
    ensures DropSparse(p) == p
  {
    KeptColumnsOfComplete(p);
    var ix := KeptColumns(p);
    var r := DropSparse(p);
    assert r.labels == p.labels;
    forall i | 0 <= i < |p.rows| ensures r.rows[i] == p.rows[i] {
      forall j | 0 <= j < |p.labels| ensures r.rows[i][j] == p.rows[i][j] {
        assert ix[j] == j;
        assert Column(r, j)[i] == Column(p, ix[j])[i];
      }
    }
  }

  /** The most recent present cell of s, or d when s has none. */
  function LastOr(s: seq<Cell>, d: Cell): Cell
  {
    if s == [] then d
    else if s[|s| - 1].Some? then s[|s| - 1]
    else LastOr(s[..|s| - 1], d)
  }

  /** Forward-filling a sequence after a prefix: the prefix's last present value
      is the default of the rest. */
  lemma {:induction false} LastOrConcat(a: seq<Cell>, b: seq<Cell>, d: Cell)
    ensures LastOr(a + b, d) == LastOr(b, LastOr(a, d))
  {
    if b != [] {
      assert (a + b)[..|a + b| - 1] == a + b[..|b| - 1];
      LastOrConcat(a, b[..|b| - 1], d);
    } else {
      assert a + b == a;
    }
  }

  /** LastOr(s, None) is missing exactly when every cell of s is missing, and
      otherwise it is one of the cells of s. */
  lemma {:induction false} LastOrNone(s: seq<Cell>)
    ensures LastOr(s, None).None? <==> forall k :: 0 <= k < |s| ==> s[k].None?
    ensures LastOr(s, None).Some? ==> exists k :: 0 <= k < |s| && s[k] == LastOr(s, None)
  {
    if s != [] && s[|s| - 1].None? {
      LastOrNone(s[..|s| - 1]);
      var t := s[..|s| - 1];
      if LastOr(t, None).Some? {
        var k :| 0 <= k < |t| && t[k] == LastOr(t, None);
        assert s[k] == t[k];
      }
    }
  }

  /** A present cell, merged with the carried row: the cell if present, else the carry. */
  function Merge(row: seq<Cell>, carry: seq<Cell>): (r: seq<Cell>)
    requires |row| == |carry|
    ensures |r| == |row|
  {
    seq(|row|, j requires 0 <= j < |row| => if row[j].Some? then row[j] else carry[j])
  }

  function FillRows(rows: seq<seq<Cell>>, carry: seq<Cell>): (r: seq<seq<Cell>>)
    requires forall i :: 0 <= i < |rows| ==> |rows[i]| == |carry|
    ensures |r| == |rows|
    ensures forall i :: 0 <= i < |r| ==> |r[i]| == |carry|
  {
    if rows == [] then []
    else
      var row := Merge(rows[0], carry);
      [row] + FillRows(rows[1..], row)
  }

  /** Column j of the first n rows. This is a prefix of `Column`, stated on the
      bare rows that `FillRows` recurses over; `ForwardFillAt` relates the two. */
  function ColumnOf(rows: seq<seq<Cell>>, j: nat, n: nat): (c: seq<Cell>)
    requires n <= |rows| && forall i :: 0 <= i < |rows| ==> j < |rows[i]|
    ensures |c| == n && forall i :: 0 <= i < n ==> c[i] == rows[i][j]
  {
    seq(n, i requires 0 <= i < n => rows[i][j])
  }

  lemma {:induction false} FillRowsAt(rows: seq<seq<Cell>>, carry: seq<Cell>, i: nat, j: nat)
    requires forall k :: 0 <= k < |rows| ==> |rows[k]| == |carry|
    requires i < |rows| && j < |carry|
    ensures FillRows(rows, carry)[i][j] == LastOr(ColumnOf(rows, j, i + 1), carry[j])
  {
    var row := Merge(rows[0], carry);
    if i == 0 {
      assert ColumnOf(rows, j, 1) == [] + [rows[0][j]];
    } else {
      FillRowsAt(rows[1..], row, i - 1, j);
      var head := ColumnOf(rows, j, 1);
      var tail := ColumnOf(rows[1..], j, i);
      assert ColumnOf(rows, j, i + 1) == head + tail;
      LastOrConcat(head, tail, carry[j]);
      assert head[..0] == [];
      assert LastOr(head, carry[j]) == row[j];
      assert FillRows(rows, carry)[i] == FillRows(rows[1..], row)[i - 1];
    }
  }

  /** `DataFrame.ffill()`: every missing cell takes the most recent present
      value above it in its column. */
  function ForwardFill(p: Panel): (r: Panel)
    requires Valid(p)
    ensures Valid(r) && r.dates == p.dates && r.labels == p.labels
  {
    p.(rows := FillRows(p.rows, seq(|p.labels|, _ => None)))
  }

  /** The filled cell (i, j) is the last present cell among rows 0..i of column j. */
  lemma ForwardFillAt(p: Panel, i: nat, j: nat)
    requires Valid(p) && i < |p.rows| && j < |p.labels|
    ensures ForwardFill(p).rows[i][j] == LastOr(Column(p, j)[..i + 1], None)
  {
    FillRowsAt(p.rows, seq(|p.labels|, _ => None), i, j);
    assert ColumnOf(p.rows, j, i + 1) == Column(p, j)[..i + 1];
  }

  /** What forward filling promises, cell by cell: present cells are unchanged;
      a cell with nothing present above it stays missing, any other cell is filled;
      and every filled value comes from the same column at or above the cell,
      never from below. */
  lemma ForwardFillCells(p: Panel, i: nat, j: nat)
    requires Valid(p) && i < |p.rows| && j < |p.labels|
    ensures p.rows[i][j].Some? ==> ForwardFill(p).rows[i][j] == p.rows[i][j]
    ensures (forall k :: 0 <= k <= i ==> p.rows[k][j].None?) <==> ForwardFill(p).rows[i][j].None?
    ensures ForwardFill(p).rows[i][j].Some? ==> exists k :: 0 <= k <= i && p.rows[k][j] == ForwardFill(p).rows[i][j]
  {
    ForwardFillAt(p, i, j);
    var c := Column(p, j)[..i + 1];
    LastOrNone(c);
    if ForwardFill(p).rows[i][j].Some? {
      var k :| 0 <= k < |c| && c[k] == LastOr(c, None);
      assert p.rows[k][j] == c[k];
    }
  }

  /** A missing cell takes the value of the nearest present cell above it. */
  lemma ForwardFillTakesNearest(p: Panel, i: nat, j: nat, k: nat)
    requires Valid(p) && i < |p.rows| && j < |p.labels| && k < i
    requires p.rows[k][j].Some?
    requires forall m :: k < m <= i ==> p.rows[m][j].None?
    ensures ForwardFill(p).rows[i][j] == p.rows[k][j]
  {
    ForwardFillAt(p, i, j);
    var c := Column(p, j)[..i + 1];
    assert c[k] == p.rows[k][j];
    LastOrAfter(c, k);
  }

  /** The last present cell of s is at k when nothing after k is present. */
  lemma {:induction false} LastOrAfter(s: seq<Cell>, k: nat)
    requires k < |s| && s[k].Some?
    requires forall m :: k < m < |s| ==> s[m].None?
    ensures LastOr(s, None) == s[k]
  {
    var n := |s| - 1;
    if n > k {
      LastOrAfter(s[..n], k);
    }
  }

  /** Filling a filled panel changes nothing. */
  lemma ForwardFillIdempotent(p: Panel)
    requires Valid(p)
    ensures ForwardFill(ForwardFill(p)) == ForwardFill(p)
  {
    var f := ForwardFill(p);
    var g := ForwardFill(f);
    forall i | 0 <= i < |p.rows| ensures g.rows[i] == f.rows[i] {
      forall j | 0 <= j < |p.labels| ensures g.rows[i][j] == f.rows[i][j] {
        ForwardFillCells(p, i, j);
        ForwardFillCells(f, i, j);
        if f.rows[i][j].None? {
          forall k | 0 <= k <= i ensures f.rows[k][j].None? {
            ForwardFillCells(p, k, j);
          }
        }
      }
    }
  }

  /** On a panel without gaps filling is the identity, so guarding it with
      `isna().any().any()` does not change the result. */
  lemma ForwardFillOfComplete(p: Panel)
    requires Valid(p) && Complete(p)
    ensures ForwardFill(p) == p
  {
    var f := ForwardFill(p);
    forall i | 0 <= i < |p.rows| ensures f.rows[i] == p.rows[i] {
      forall j | 0 <= j < |p.labels| ensures f.rows[i][j] == p.rows[i][j] {
        ForwardFillCells(p, i, j);
      }
    }
  }

  /** `preprocess` after loading: drop sparse symbols, then fill if any gap is left. */
  function Clean(p: Panel): (r: Panel)
    requires Valid(p)
    ensures Valid(r) && r.dates == p.dates
  {
    var d := DropSparse(p);
    if !Complete(d) then ForwardFill(d) else d
  }

  /** Whatever the guard decides, cleaning is dropping and then filling. */
  lemma CleanIsFilledDrop(p: Panel)
    requires Valid(p)
    ensures Clean(p) == ForwardFill(DropSparse(p))
  {
    if Complete(DropSparse(p)) {
      ForwardFillOfComplete(DropSparse(p));
    }
  }
}
