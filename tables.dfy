/** The slice of a pandas DataFrame the fetchers work on: an ordered list of
    column names and a list of rows, each row mapping column names to the
    cell's text. A row may lack a column (pd.concat of frames with different
    columns leaves NaN there); `Cell` then gives the text `astype(str)`
    gives NaN. */
module Tables {
  import opened Seqs
  import opened Text

  type Row = map<string, string>

  datatype Table = Table(columns: seq<string>, rows: seq<Row>)

  /** `str(float("nan"))`. */
  const Missing: string := "nan"

  function Cell(r: Row, c: string): string
  {
    if c in r then r[c] else Missing
  }

  /** Assigning to `df[name]` appends the column unless it is already there. */
  function AddName(cols: seq<string>, name: string): (r: seq<string>)
    ensures name in r
    ensures forall c :: c in r <==> c in cols || c == name
    ensures cols <= r
  {
    if name in cols then cols else cols + [name]
  }

  /** One row of `df[name] = df[src].astype(str)`. */
  function CopyRow(name: string, src: string): Row -> Row
  {
    (r: Row) => r[name := Cell(r, src)]
  }

  /** `df[name] = df[src].astype(str)`. */
  function CopyColumn(t: Table, name: string, src: string): (u: Table)
    ensures u.columns == AddName(t.columns, name) && |u.rows| == |t.rows|
    ensures forall i :: 0 <= i < |t.rows| ==> Cell(u.rows[i], name) == Cell(t.rows[i], src)
    ensures forall i, c :: 0 <= i < |t.rows| && c != name ==> Cell(u.rows[i], c) == Cell(t.rows[i], c)
  {
    Table(AddName(t.columns, name), Map(t.rows, CopyRow(name, src)))
  }

  /** `df[name] = value`: the same text in every row. */
  function SetConstant(t: Table, name: string, value: string): (u: Table)
    ensures u.columns == AddName(t.columns, name) && |u.rows| == |t.rows|
    ensures forall i :: 0 <= i < |t.rows| ==> Cell(u.rows[i], name) == value
    ensures forall i, c :: 0 <= i < |t.rows| && c != name ==> Cell(u.rows[i], c) == Cell(t.rows[i], c)
  {
    Table(AddName(t.columns, name), Map(t.rows, (r: Row) => r[name := value]))
  }

  /** One row of `df[cols]`. */
  function ProjectRow(cols: seq<string>): Row -> Row
  {
    (r: Row) => map c | c in cols :: Cell(r, c)
  }

  /** `df[cols]`: the listed columns, in the listed order, of every row. */
  function Project(t: Table, cols: seq<string>): (u: Table)
    ensures u.columns == cols && |u.rows| == |t.rows|
    ensures forall i, c :: 0 <= i < |t.rows| && c in cols ==> Cell(u.rows[i], c) == Cell(t.rows[i], c)
    ensures forall i :: 0 <= i < |t.rows| ==> forall c :: c in u.rows[i] ==> c in cols
  {
    Table(cols, Map(t.rows, ProjectRow(cols)))
  }

  function NotIn(cols: seq<string>): string -> bool
  {
    c => c !in cols
  }

  /** The column order of `pd.concat`: those of the first frame, then each
      new name in the order it first appears. */
  function MergeColumns(a: seq<string>, b: seq<string>): (r: seq<string>)
    ensures a <= r
    ensures forall c :: c in r <==> c in a || c in b
  {
    FilterMembers(b, NotIn(a));
    a + Filter(b, NotIn(a))
  }

  /** Every frame's rows, frame after frame, each frame's rows in order. */
  function Flatten(ts: seq<Table>): seq<Row>
    decreases |ts|
  {
    if |ts| == 0 then [] else ts[0].rows + Flatten(ts[1..])
  }

  /** Flattening takes the last frame's rows last. */
  lemma {:induction false} FlattenSnoc(ts: seq<Table>)
    requires |ts| > 0
    ensures Flatten(ts) == Flatten(ts[..|ts| - 1]) + ts[|ts| - 1].rows
    decreases |ts|
  {
    if |ts| == 1 {
      assert ts[1..] == [];
      assert ts[..0] == [];
    } else {
      var front := ts[..|ts| - 1];
      FlattenSnoc(ts[1..]);
      assert ts[1..][..|ts| - 2] == front[1..];
      assert front[0] == ts[0];
    }
  }

  /** Some frame has the column. */
  ghost predicate SomeFrameHas(ts: seq<Table>, c: string)
  {
    exists k :: 0 <= k < |ts| && c in ts[k].columns
  }

  /** A column of the merged header comes from some frame, and back. */
  lemma MergeFrames(ts: seq<Table>, init: seq<string>)
    requires |ts| > 0
    requires forall c :: c in init <==> SomeFrameHas(ts[..|ts| - 1], c)
    ensures forall c :: c in MergeColumns(init, ts[|ts| - 1].columns) <==> SomeFrameHas(ts, c)
  {
    var n := |ts|;
    var front := ts[..n - 1];
    forall c
      ensures c in MergeColumns(init, ts[n - 1].columns) <==> SomeFrameHas(ts, c)
    {
      if c in init {
        var k :| 0 <= k < |front| && c in front[k].columns;
        assert front[k] == ts[k];
      }
      if SomeFrameHas(ts, c) {
        var k :| 0 <= k < n && c in ts[k].columns;
        if k < n - 1 {
          assert front[k] == ts[k];
        }
      }
    }
  }

  /** `pd.concat(frames, ignore_index=True)`: all rows, frame after frame;
      the columns of the first frame, then each new one as it first appears,
      and no column that no frame has. */
  function Concat(ts: seq<Table>): (u: Table)
    ensures forall c :: c in u.columns <==> SomeFrameHas(ts, c)
    ensures |ts| > 0 ==> ts[0].columns <= u.columns
    ensures u.rows == Flatten(ts)
    decreases |ts|
  {
    if |ts| == 0 then Table([], [])
    else
      var init := Concat(ts[..|ts| - 1]);
      var last := ts[|ts| - 1];
      MergeFrames(ts, init.columns);
      FlattenSnoc(ts);
      assert |ts| > 1 ==> ts[..|ts| - 1][0] == ts[0];
      assert |ts| == 1 ==> init.columns == [] && Filter(last.columns, NotIn([])) == last.columns by {
        if |ts| == 1 {
          FilterAll(last.columns, NotIn([]));
        }
      }
      Table(MergeColumns(init.columns, last.columns), init.rows + last.rows)
  }

  /** The concatenation holds as many rows as the frames together. */
  lemma {:induction false} ConcatRowCount(ts: seq<Table>)
    ensures |Concat(ts).rows| == RowCount(ts)
    decreases |ts|
  {
    if |ts| > 0 {
      ConcatRowCount(ts[1..]);
      assert |Flatten(ts)| == |ts[0].rows| + |Flatten(ts[1..])|;
    }
  }

  function RowCount(ts: seq<Table>): nat
    decreases |ts|
  {
    if |ts| == 0 then 0 else |ts[0].rows| + RowCount(ts[1..])
  }

  /** The long-format row `df.melt(id_vars=[id])` makes of row `r` and the
      value column `v`. */
  function MeltRow(r: Row, id: string, v: string): Row
  {
    map[id := Cell(r, id), "metric_or_date" := v, "value" := Cell(r, v)]
  }

  function MeltRows(rows: seq<Row>, id: string, vars: seq<string>): (m: seq<Row>)
    ensures |m| == |vars| * |rows|
    decreases |vars|
  {
    if |vars| == 0 then []
    else
      var rest := MeltRows(rows, id, vars[1..]);
      assert |vars| * |rows| == |rows| + (|vars| - 1) * |rows|;
      Map(rows, (r: Row) => MeltRow(r, id, vars[0])) + rest
  }

  function IsNot(id: string): string -> bool
  {
    c => c != id
  }

  /** `df.melt(id_vars=[id], var_name="metric_or_date", value_name="value")`:
      every other column becomes, column after column, one long row per
      input row. */
  function Melt(t: Table, id: string): (u: Table)
    ensures u.columns == [id, "metric_or_date", "value"]
    ensures |u.rows| == |Filter(t.columns, IsNot(id))| * |t.rows|
  {
    Table([id, "metric_or_date", "value"], MeltRows(t.rows, id, Filter(t.columns, IsNot(id))))
  }

  /** The long row for value column `vars[j]` and input row `rows[i]` sits at
      position j * |rows| + i. */
  lemma {:induction false} MeltRowAt(rows: seq<Row>, id: string, vars: seq<string>, j: nat, i: nat)
    requires j < |vars| && i < |rows|
    ensures j * |rows| + i < |MeltRows(rows, id, vars)|
    ensures MeltRows(rows, id, vars)[j * |rows| + i] == MeltRow(rows[i], id, vars[j])
    decreases j
  {
    var n := |rows|;
    var m := MeltRows(rows, id, vars);
    if j > 0 {
      MeltRowAt(rows, id, vars[1..], j - 1, i);
      assert j * n + i == n + ((j - 1) * n + i);
      assert m[j * n + i] == MeltRows(rows, id, vars[1..])[(j - 1) * n + i];
    }
  }

  /** Some keyword occurs in the lower-cased column name. */
  predicate MentionsAny(c: string, keywords: seq<string>)
  {
    exists k :: 0 <= k < |keywords| && Contains(Lower(c), keywords[k])
  }

  function Mentions(keywords: seq<string>): string -> bool
  {
    c => MentionsAny(c, keywords)
  }

  /** `[c for c in cols if any(k in c.lower() for k in keywords)]`: exactly
      the columns that mention a keyword, in their original order. */
  function KeywordSelect(cols: seq<string>, keywords: seq<string>): (r: seq<string>)
    ensures forall c :: c in r <==> c in cols && MentionsAny(c, keywords)
    ensures IsSubsequence(r, cols)
  {
    FilterMembers(cols, Mentions(keywords));
    FilterIsSubsequence(cols, Mentions(keywords));
    Filter(cols, Mentions(keywords))
  }
}
