/** A data table as the scripts see it: named columns and rows of cells, any of
    which may be missing. */
module Frames {
  import opened Sequences

  /** One cell: pandas' NaN, a text value or a number. */
  datatype Cell = Missing | Text(text: string) | Num(value: real)

  /** A row maps each column (of key type `K`) to its cell. */
  type Row<K> = map<K, Cell>

  /** A table: its columns in order and its rows in order (the index is the position
      in `rows`, so `reset_index(drop=True)` has nothing left to do). */
  datatype Frame<K> = Frame(columns: seq<K>, rows: seq<Row<K>>)

  /** The row has a cell, and not a missing one, in every column of the table. A column
      the row has no entry for reads as missing, as the table would show it. */
  predicate Complete<K>(columns: seq<K>, row: Row<K>) {
    forall c :: c in columns ==> c in row && row[c] != Missing
  }

  /** `Complete` for a fixed list of columns, as a row test. */
  function CompleteIn<K>(columns: seq<K>): Row<K> -> bool {
    row => Complete(columns, row)
  }

  /** `dropna()`: the rows with no missing cell, in order, columns unchanged. */
  function DropNa<K>(f: Frame<K>): (r: Frame<K>)
    ensures r.columns == f.columns
    ensures forall i :: 0 <= i < |r.rows| ==> Complete(f.columns, r.rows[i]) && r.rows[i] in f.rows
    ensures forall i :: 0 <= i < |f.rows| && Complete(f.columns, f.rows[i]) ==> f.rows[i] in r.rows
    ensures |r.rows| <= |f.rows|
  {
    var kept := Filter(f.rows, CompleteIn(f.columns));
    assert forall i :: 0 <= i < |kept| ==> kept[i] in kept;
    Frame(f.columns, kept)
  }

  /** Dropping missing rows keeps the complete ones in their original order. */
  lemma DropNaSelection<K>(f: Frame<K>)
    ensures SelectedAt(DropNa(f).rows, f.rows, Kept(f.rows, CompleteIn(f.columns)))
  {
    FilterSelection(f.rows, CompleteIn(f.columns));
  }

  /** A table with nothing missing is left as it is. */
  lemma DropNaKeepsComplete<K>(f: Frame<K>)
    requires forall i :: 0 <= i < |f.rows| ==> Complete(f.columns, f.rows[i])
    ensures DropNa(f) == f
  {
    FilterKeepsAll(f.rows, CompleteIn(f.columns));
  }

  /** A row with no entry for one of the table's columns counts as incomplete. */
  lemma DropNaAbsentCell()
    ensures DropNa(Frame(["ROIC", "PB"], [map["ROIC" := Num(1.0)]])).rows == []
  {
    var row: Row<string> := map["ROIC" := Num(1.0)];
    assert !Complete(["ROIC", "PB"], row) by {
      assert "PB" in ["ROIC", "PB"] && "PB" !in row;
    }
    assert Filter([row], CompleteIn(["ROIC", "PB"])) == [];
  }
}
