/** `apply_to_table` (app/js/UI.js): the "select all" and "reset all" buttons
    of a kana tab set the checkbox of every column of the tab's first table
    that is not hidden. A table is reduced to its display value and the
    states of its columns' checkboxes, in column order. */
module TableSelect {
  import opened Common

  datatype Table = Table(display: string, checks: seq<bool>)

  predicate Visible(t: Table)
  {
    Shown(t.display)
  }

  /** The tables after `apply_to_table` with `value`. */
  function Applied(tables: seq<Table>, value: bool): (r: seq<Table>)
    ensures |r| == |tables|
  {
    match FirstIndex(tables, Visible)
    case None => tables
    case Some(i) => tables[i := Table(tables[i].display, seq(|tables[i].checks|, _ => value))]
  }

  /** `i` is the first table that is not hidden. */
  ghost predicate FirstVisible(tables: seq<Table>, i: int)
  {
    0 <= i < |tables| && Visible(tables[i]) && forall j :: 0 <= j < i ==> !Visible(tables[j])
  }

  /** Every checkbox of the first visible table becomes `value`, its display
      and column count stay, and every other table is left as it was. */
  lemma AppliedSetsFirstVisible(tables: seq<Table>, value: bool, k: int)
    requires 0 <= k < |tables|
    ensures FirstVisible(tables, k) ==>
      Applied(tables, value)[k].display == tables[k].display &&
      |Applied(tables, value)[k].checks| == |tables[k].checks| &&
      forall c :: 0 <= c < |tables[k].checks| ==> Applied(tables, value)[k].checks[c] == value
    ensures !FirstVisible(tables, k) ==> Applied(tables, value)[k] == tables[k]
  {
  }

  /** The first visible table is the same before and after: the displays do not change. */
  lemma AppliedKeepsDisplays(tables: seq<Table>, value: bool)
    ensures forall k :: 0 <= k < |tables| ==> Applied(tables, value)[k].display == tables[k].display
  {
  }

  /** Applying twice with different values leaves the second one: "reset all"
      after "select all" is "reset all", and applying the same value twice is
      applying it once. */
  lemma AppliedLastWins(tables: seq<Table>, first: bool, second: bool)
    ensures Applied(Applied(tables, first), second) == Applied(tables, second)
  {
    var once := Applied(tables, first);
    assert forall k :: 0 <= k < |tables| ==> Visible(once[k]) == Visible(tables[k]);
    match FirstIndex(tables, Visible)
    case None =>
    case Some(i) =>
      assert FirstIndex(once, Visible) == Some(i);
  }

  lemma AppliedIdempotent(tables: seq<Table>, value: bool)
    ensures Applied(Applied(tables, value), value) == Applied(tables, value)
  {
    AppliedLastWins(tables, value, value);
  }

  /** `apply_to_table(tables, value)` run on a tab's tables. */
  method ApplyToTable(tables: array<Table>, value: bool)
    modifies tables
    ensures tables[..] == Applied(old(tables[..]), value)
  {
    var tablesLen := tables.Length;
    for idx := 0 to tablesLen
      invariant tables[..] == old(tables[..])
      invariant forall k :: 0 <= k < idx ==> !Visible(tables[k])
    {
      var table := tables[idx];
      if Visible(table) {
        assert FirstIndex(tables[..], Visible) == Some(idx);
        var columns := table.checks;
        for columnIdx := 0 to |columns|
          invariant |columns| == |table.checks|
          invariant forall c :: 0 <= c < columnIdx ==> columns[c] == value
        {
          columns := columns[columnIdx := value];
        }
        assert columns == seq(|table.checks|, _ => value);
        tables[idx] := Table(table.display, columns);
        return;
      }
    }
  }
}
