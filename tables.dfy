/**
 * The measurement table that every stage of the pipeline consumes and produces:
 * an ordered sequence of rows, each row mapping every column of the table to a cell,
 * a number or NaN (a null).  A column missing from the table is a name missing from
 * `columns`, and reading it raises a KeyError.  Rows are addressed by position, i.e.
 * the frame's index is taken to be 0..n-1.
 */
module Tables {
  import opened Wrappers
  import opened Numerics

  /** The column names the pipeline reads or writes; `Avg(k)` is the column "<k>_avg". */
  datatype Column =
    | T | P | Um | Vm | Wm | MD | Yaw | Vx | Vy | Vz | CH4 | C2H6 | S | Seconds
    | Rho | RhoErr | Ur | Vr | Wr | U | V | W | Sc | WD | UErr | VErr
    | Nx | Ny | CrossWind | CrossWindErr
    | Avg(of: Column)
    | Other(name: string)

  type Row = map<Column, Num>

  datatype Table = Table(columns: set<Column>, rows: seq<Row>)

  /** What a stage raises instead of returning: a KeyError, or a call on `None`. */
  datatype Failure = MissingColumn(column: Column) | NotATable

  /** Every row has exactly one cell per column of the table. */
  predicate WellFormed(t: Table) {
    forall i :: 0 <= i < |t.rows| ==> t.rows[i].Keys == t.columns
  }

  /** The cell of `r` in column `c`; NaN where the row has none. */
  function Get(r: Row, c: Column): Num {
    if c in r then r[c] else NaN
  }

  function Put(r: Row, c: Column, v: Num): Row {
    r[c := v]
  }

  /** Two rows with the same columns that agree on every cell are the same row. */
  lemma RowExt(a: Row, b: Row)
    requires a.Keys == b.Keys
    requires forall c :: Get(a, c) == Get(b, c)
    ensures a == b
  {
    forall c | c in a ensures a[c] == b[c] {
      assert Get(a, c) == Get(b, c);
    }
  }

  /** The column `c` of `t`, top to bottom. */
  function Values(t: Table, c: Column): (col: seq<Num>)
    ensures |col| == |t.rows|
    ensures forall i :: 0 <= i < |t.rows| ==> col[i] == Get(t.rows[i], c)
  {
    seq(|t.rows|, i requires 0 <= i < |t.rows| => Get(t.rows[i], c))
  }

  /** The first of `cs` (in reading order) that is not a column of `t`: the KeyError raised. */
  function FirstMissing(t: Table, cs: seq<Column>): (r: Option<Column>)
    ensures r.None? <==> forall c :: c in cs ==> c in t.columns
    ensures r.Some? ==> r.value in cs && r.value !in t.columns
  {
    if cs == [] then None
    else if cs[0] !in t.columns then Some(cs[0])
    else FirstMissing(t, cs[1..])
  }

  /** When the first `k` names are present and the next is not, that one is raised. */
  lemma {:induction false} FirstMissingAt(t: Table, cs: seq<Column>, k: nat)
    requires k < |cs| && cs[k] !in t.columns
    requires forall j :: 0 <= j < k ==> cs[j] in t.columns
    ensures FirstMissing(t, cs) == Some(cs[k])
  {
    if k > 0 {
      assert cs[0] in t.columns;
      FirstMissingAt(t, cs[1..], k - 1);
    }
  }

  /** Reading `a` and then `b` raises the first KeyError of `a`, else that of `b`. */
  lemma {:induction false} FirstMissingAppend(t: Table, a: seq<Column>, b: seq<Column>)
    ensures FirstMissing(t, a + b) == if FirstMissing(t, a).Some? then FirstMissing(t, a) else FirstMissing(t, b)
  {
    if a != [] {
      assert (a + b)[0] == a[0] && (a + b)[1..] == a[1..] + b;
      FirstMissingAppend(t, a[1..], b);
    } else {
      assert a + b == b;
    }
  }

  /** The first KeyError depends only on which of the names read are columns. */
  lemma {:induction false} FirstMissingSameColumns(t: Table, u: Table, cs: seq<Column>)
    requires forall j :: 0 <= j < |cs| ==> (cs[j] in t.columns <==> cs[j] in u.columns)
    ensures FirstMissing(t, cs) == FirstMissing(u, cs)
  {
    if cs != [] {
      FirstMissingSameColumns(t, u, cs[1..]);
    }
  }

  /** When every name is present, none is raised. */
  lemma FirstMissingNone(t: Table, cs: seq<Column>)
    requires forall j :: 0 <= j < |cs| ==> cs[j] in t.columns
    ensures FirstMissing(t, cs) == None
  {
    assert forall c :: c in cs ==> c in t.columns;
  }
}
