/** Quiz items and how the kana tables select them (`add_column_if` and
    `init_kanas` in app/js/UI.js), stated as functions over plain values. */
module Items {

  /** One question: the glyph shown (a cell's markup) and its romaji (the cell's title). */
  datatype QuizItem = QuizItem(kana: string, romaji: string)

  /** A child of a table column: its markup and its `title` attribute. */
  datatype Cell = Cell(html: string, title: string)

  /** A table column: the state of the checkbox held by its child 0, and the
      cells of its children 1, 2, ... in order. */
  datatype Column = Column(checked: bool, cells: seq<Cell>)

  /** The column lists of the five kana tables, in the order `init_kanas` reads them. */
  datatype KanaTables = KanaTables(
    hiraganaSimple: seq<Column>,
    katakanaSimple: seq<Column>,
    hiraganaDouble: seq<Column>,
    katakanaDouble: seq<Column>,
    katakanaExtra: seq<Column>)

  /** `init_kanas` indexes each katakana list by the positions of the matching
      hiragana list, so the katakana list must be at least as long. */
  predicate WellFormed(t: KanaTables)
  {
    |t.hiraganaSimple| <= |t.katakanaSimple| && |t.hiraganaDouble| <= |t.katakanaDouble|
  }

  /** A character of the regular-expression class `\w`. */
  predicate IsWordChar(c: char)
  {
    'a' <= c <= 'z' || 'A' <= c <= 'Z' || '0' <= c <= '9' || c == '_'
  }

  /** The test `/\w+/.test(title)`, scanning the title from the left: it succeeds
      exactly when some character of the title is a word character. */
  function HasWordChar(s: string): (r: bool)
    ensures r <==> exists i :: 0 <= i < |s| && IsWordChar(s[i])
  {
    s != [] && (IsWordChar(s[0]) || HasWordChar(s[1..]))
  }

  /** A cell is a real kana (not a blank placeholder) when its title has a word character. */
  predicate IsKana(c: Cell)
  {
    HasWordChar(c.title)
  }

  /** Every item's romaji passes the `/\w+/` test, so no blank placeholder is asked. */
  predicate AllKana(items: seq<QuizItem>)
  {
    forall k :: 0 <= k < |items| ==> HasWordChar(items[k].romaji)
  }

  function ItemOf(c: Cell): QuizItem
  {
    QuizItem(c.html, c.title)
  }

  /** The items contributed by `cells`, in order, skipping blank placeholders. */
  function Kept(cells: seq<Cell>): (r: seq<QuizItem>)
    ensures |r| <= |cells|
  {
    if cells == [] then []
    else
      var last := cells[|cells| - 1];
      Kept(cells[..|cells| - 1]) + (if IsKana(last) then [ItemOf(last)] else [])
  }

  /** What `add_column_if` appends for one column: nothing unless its checkbox is
      ticked, otherwise the kana among its cells. */
  function ColumnItems(col: Column): (r: seq<QuizItem>)
    ensures !col.checked ==> r == []
    ensures |r| <= |col.cells|
  {
    if col.checked then Kept(col.cells) else []
  }

  /** The number of cells in a list of columns. */
  function CellCount(cs: seq<Column>): nat
  {
    if cs == [] then 0 else CellCount(cs[..|cs| - 1]) + |cs[|cs| - 1].cells|
  }

  /** The leading columns of a list hold no more cells than the whole list. */
  lemma {:induction false} CellCountPrefix(cs: seq<Column>, n: nat)
    requires n <= |cs|
    ensures CellCount(cs[..n]) <= CellCount(cs)
  {
    if n < |cs| {
      var m := |cs| - 1;
      assert cs[..m][..n] == cs[..n];
      CellCountPrefix(cs[..m], n);
    } else {
      assert cs[..n] == cs;
    }
  }

  /** The hiragana/katakana pairs of one table kind: hiragana column i, then katakana column i. */
  function Paired(hs: seq<Column>, ks: seq<Column>): (r: seq<QuizItem>)
    requires |hs| <= |ks|
    ensures |r| <= CellCount(hs) + CellCount(ks[..|hs|])
  {
    if hs == [] then []
    else
      var i := |hs| - 1;
      assert ks[..|hs|][..i] == ks[..i];
      Paired(hs[..i], ks) + ColumnItems(hs[i]) + ColumnItems(ks[i])
  }

  /** The columns of one list, one after the other. */
  function Concat(cs: seq<Column>): (r: seq<QuizItem>)
    ensures |r| <= CellCount(cs)
  {
    if cs == [] then [] else Concat(cs[..|cs| - 1]) + ColumnItems(cs[|cs| - 1])
  }

  /** Everything `init_kanas` appends to the pool: simple pairs, double pairs, extra katakana. */
  function Selected(t: KanaTables): (r: seq<QuizItem>)
    requires WellFormed(t)
    ensures |r| <= CellCount(t.hiraganaSimple) + CellCount(t.katakanaSimple)
      + CellCount(t.hiraganaDouble) + CellCount(t.katakanaDouble) + CellCount(t.katakanaExtra)
  {
    CellCountPrefix(t.katakanaSimple, |t.hiraganaSimple|);
    CellCountPrefix(t.katakanaDouble, |t.hiraganaDouble|);
    Paired(t.hiraganaSimple, t.katakanaSimple)
      + Paired(t.hiraganaDouble, t.katakanaDouble)
      + Concat(t.katakanaExtra)
  }

  /** One more pair of columns extends the paired items at the end. */
  lemma PairedStep(hs: seq<Column>, ks: seq<Column>, i: nat)
    requires i < |hs| <= |ks|
    ensures Paired(hs[..i + 1], ks) == Paired(hs[..i], ks) + ColumnItems(hs[i]) + ColumnItems(ks[i])
  {
    assert hs[..i + 1][..i] == hs[..i];
  }

  /** One more column extends the concatenated items at the end. */
  lemma ConcatStep(cs: seq<Column>, i: nat)
    requires i < |cs|
    ensures Concat(cs[..i + 1]) == Concat(cs[..i]) + ColumnItems(cs[i])
  {
    assert cs[..i + 1][..i] == cs[..i];
  }

  // ----- Properties of the selection -----

  /** Filtering distributes over concatenation: the kept items keep the cells' order. */
  lemma {:induction false} KeptAppend(a: seq<Cell>, b: seq<Cell>)
    ensures Kept(a + b) == Kept(a) + Kept(b)
  {
    if b == [] {
      assert a + b == a;
    } else {
      var b' := b[..|b| - 1];
      assert (a + b)[..|a + b| - 1] == a + b';
      KeptAppend(a, b');
    }
  }

  /** An item is kept exactly when it comes from a cell whose title has a word character. */
  lemma {:induction false} KeptMembership(cells: seq<Cell>, x: QuizItem)
    ensures x in Kept(cells) <==> exists j :: 0 <= j < |cells| && IsKana(cells[j]) && ItemOf(cells[j]) == x
  {
    if cells != [] {
      var n := |cells| - 1;
      KeptMembership(cells[..n], x);
      forall j | 0 <= j < n
        ensures cells[..n][j] == cells[j]
      {
      }
    }
  }

  /** Every kept item's romaji contains a word character. */
  lemma {:induction false} KeptAreKana(cells: seq<Cell>)
    ensures AllKana(Kept(cells))
  {
    if cells != [] {
      KeptAreKana(cells[..|cells| - 1]);
    }
  }

  /** Every item a column contributes passes the `/\w+/` test. */
  lemma ColumnAreKana(col: Column)
    ensures AllKana(ColumnItems(col))
  {
    KeptAreKana(col.cells);
  }

  lemma {:induction false} PairedAreKana(hs: seq<Column>, ks: seq<Column>)
    requires |hs| <= |ks|
    ensures AllKana(Paired(hs, ks))
  {
    if hs != [] {
      var i := |hs| - 1;
      PairedAreKana(hs[..i], ks);
      ColumnAreKana(hs[i]);
      ColumnAreKana(ks[i]);
    }
  }

  lemma {:induction false} ConcatAreKana(cs: seq<Column>)
    ensures AllKana(Concat(cs))
  {
    if cs != [] {
      ConcatAreKana(cs[..|cs| - 1]);
      ColumnAreKana(cs[|cs| - 1]);
    }
  }

  /** No blank placeholder ever enters the pool: every selected item passes the `/\w+/` test. */
  lemma SelectedAreKana(t: KanaTables)
    requires WellFormed(t)
    ensures AllKana(Selected(t))
  {
    PairedAreKana(t.hiraganaSimple, t.katakanaSimple);
    PairedAreKana(t.hiraganaDouble, t.katakanaDouble);
    ConcatAreKana(t.katakanaExtra);
  }

  /** A column contributes exactly the kana among its cells, and only when checked. */
  lemma ColumnMembership(col: Column, x: QuizItem)
    ensures x in ColumnItems(col) <==>
      col.checked && exists j :: 0 <= j < |col.cells| && IsKana(col.cells[j]) && ItemOf(col.cells[j]) == x
  {
    KeptMembership(col.cells, x);
  }

  /** An item comes from some column of `cs`. */
  ghost predicate FromSome(cs: seq<Column>, x: QuizItem)
  {
    exists i :: 0 <= i < |cs| && x in ColumnItems(cs[i])
  }

  /** Splitting off the last column of a list. */
  lemma FromSomeLast(cs: seq<Column>, x: QuizItem)
    requires cs != []
    ensures FromSome(cs, x) <==> FromSome(cs[..|cs| - 1], x) || x in ColumnItems(cs[|cs| - 1])
  {
    var n := |cs| - 1;
    var front := cs[..n];
    assert forall j :: 0 <= j < n ==> front[j] == cs[j];
  }

  /** The paired order draws on hiragana columns and on the katakana columns at the same positions. */
  lemma {:induction false} PairedMembership(hs: seq<Column>, ks: seq<Column>, x: QuizItem)
    requires |hs| <= |ks|
    ensures x in Paired(hs, ks) <==> FromSome(hs, x) || FromSome(ks[..|hs|], x)
  {
    if hs != [] {
      var i := |hs| - 1;
      var front := ks[..|hs|];
      assert front[..i] == ks[..i] && front[i] == ks[i];
      assert Paired(hs, ks) == Paired(hs[..i], ks) + ColumnItems(hs[i]) + ColumnItems(ks[i]);
      PairedMembership(hs[..i], ks, x);
      FromSomeLast(hs, x);
      FromSomeLast(front, x);
    }
  }

  /** The extra table's columns contribute in list order. */
  lemma {:induction false} ConcatMembership(cs: seq<Column>, x: QuizItem)
    ensures x in Concat(cs) <==> FromSome(cs, x)
  {
    if cs != [] {
      ConcatMembership(cs[..|cs| - 1], x);
      FromSomeLast(cs, x);
    }
  }

  /** So an item is selected exactly when some column feeding the selection contributes it. */
  lemma SelectedMembership(t: KanaTables, x: QuizItem)
    requires WellFormed(t)
    ensures x in Selected(t) <==>
      FromSome(t.hiraganaSimple, x) || FromSome(t.katakanaSimple[..|t.hiraganaSimple|], x) ||
      FromSome(t.hiraganaDouble, x) || FromSome(t.katakanaDouble[..|t.hiraganaDouble|], x) ||
      FromSome(t.katakanaExtra, x)
  {
    PairedMembership(t.hiraganaSimple, t.katakanaSimple, x);
    PairedMembership(t.hiraganaDouble, t.katakanaDouble, x);
    ConcatMembership(t.katakanaExtra, x);
  }

  predicate NoneChecked(cs: seq<Column>)
  {
    forall i :: 0 <= i < |cs| ==> !cs[i].checked
  }

  lemma {:induction false} PairedUnchecked(hs: seq<Column>, ks: seq<Column>)
    requires |hs| <= |ks| && NoneChecked(hs) && NoneChecked(ks)
    ensures Paired(hs, ks) == []
  {
    if hs != [] {
      PairedUnchecked(hs[..|hs| - 1], ks);
    }
  }

  lemma {:induction false} ConcatUnchecked(cs: seq<Column>)
    requires NoneChecked(cs)
    ensures Concat(cs) == []
  {
    if cs != [] {
      ConcatUnchecked(cs[..|cs| - 1]);
    }
  }

  /** With no column checked anywhere, nothing is selected. */
  lemma NothingCheckedSelectsNothing(t: KanaTables)
    requires WellFormed(t)
    requires NoneChecked(t.hiraganaSimple) && NoneChecked(t.katakanaSimple)
    requires NoneChecked(t.hiraganaDouble) && NoneChecked(t.katakanaDouble)
    requires NoneChecked(t.katakanaExtra)
    ensures Selected(t) == []
  {
    PairedUnchecked(t.hiraganaSimple, t.katakanaSimple);
    PairedUnchecked(t.hiraganaDouble, t.katakanaDouble);
    ConcatUnchecked(t.katakanaExtra);
  }
}
