/** The quiz page built by `init_start` (app/js/UI.js): the closure's pool and
    backup, and the parts of the page its handlers write, reduced to plain
    fields. The random index of each draw is an argument. */
module StartPage {
  import opened Common
  import opened Items
  import opened Answer
  import opened Pool

  /** The ideographic space the page shows in place of a question or answer. */
  const Blank: string := "\U{3000}"

  /** The hash of the quiz page. */
  const StartHash: string := "#Start"

  class Session {
    var pool: seq<QuizItem>      // items not yet asked in this cycle
    var backup: seq<QuizItem>    // the full selection the pool is refilled from
    var shown: QuizItem          // the kana shown, and the romaji held by the answer element
    var answerVisible: bool      // whether the answer element is visible
    var inputText: string        // the text of the answer input
    var inputEnabled: bool       // whether the answer input accepts typing
    var wrong: bool              // whether the input is marked wrong
    var listening: bool          // whether the input and hover handlers are attached

    /** The pool only ever holds items of the backup; while the handlers are
        attached the input is enabled and the question shown comes from the backup. */
    ghost predicate Valid()
      reads this
    {
      Within(pool, backup) &&
      (listening ==> inputEnabled) &&
      (listening && backup != [] ==> shown in backup)
    }

    /** `init_start`: both lists start empty; the page elements keep what they hold. */
    constructor (shown: QuizItem, inputText: string, inputEnabled: bool, answerVisible: bool, wrong: bool)
      ensures Valid()
      ensures pool == [] && backup == [] && !listening && this.shown == shown
      ensures this.inputText == inputText && this.inputEnabled == inputEnabled
      ensures this.answerVisible == answerVisible && this.wrong == wrong
    {
      pool, backup := [], [];
      this.shown := shown;
      this.inputText, this.inputEnabled := inputText, inputEnabled;
      this.answerVisible, this.wrong := answerVisible, wrong;
      listening := false;
    }

    /** `add_column_if`: appends the kana of a checked column to the pool. */
    method AddColumnIf(col: Column)
      modifies this`pool
      ensures pool == old(pool) + ColumnItems(col)
    {
      if !col.checked {
        return;
      }
      var idx := 0;
      while idx < |col.cells|
        invariant 0 <= idx <= |col.cells|
        invariant pool == old(pool) + Kept(col.cells[..idx])
      {
        var element := col.cells[idx];
        assert col.cells[..idx + 1][..idx] == col.cells[..idx];
        if HasWordChar(element.title) {
          pool := pool + [QuizItem(element.html, element.title)];
        }
        idx := idx + 1;
      }
      assert col.cells[..idx] == col.cells;
    }

    /** One of the paired loops of `init_kanas`: hiragana column i, then katakana column i. */
    method AddPairedColumns(hiragana: seq<Column>, katakana: seq<Column>)
      requires |hiragana| <= |katakana|
      modifies this`pool
      ensures pool == old(pool) + Paired(hiragana, katakana)
    {
      var idx := 0;
      while idx < |hiragana|
        invariant 0 <= idx <= |hiragana|
        invariant pool == old(pool) + Paired(hiragana[..idx], katakana)
      {
        PairedStep(hiragana, katakana, idx);
        AddColumnIf(hiragana[idx]);
        AddColumnIf(katakana[idx]);
        AppendAssoc(old(pool), Paired(hiragana[..idx], katakana), ColumnItems(hiragana[idx]), ColumnItems(katakana[idx]));
        idx := idx + 1;
      }
      assert hiragana[..idx] == hiragana;
    }

    /** The last loop of `init_kanas`: the extra katakana columns in order. */
    method AddColumns(columns: seq<Column>)
      modifies this`pool
      ensures pool == old(pool) + Concat(columns)
    {
      var idx := 0;
      while idx < |columns|
        invariant 0 <= idx <= |columns|
        invariant pool == old(pool) + Concat(columns[..idx])
      {
        ConcatStep(columns, idx);
        AddColumnIf(columns[idx]);
        idx := idx + 1;
      }
      assert columns[..idx] == columns;
    }

    /** `init_kanas`: appends the selection to the pool, in table order, and
        makes the backup a copy of the resulting pool. */
    method InitKanas(t: KanaTables)
      requires WellFormed(t)
      modifies this`pool, this`backup
      ensures pool == old(pool) + Selected(t)
      ensures backup == pool
    {
      AddPairedColumns(t.hiraganaSimple, t.katakanaSimple);
      AddPairedColumns(t.hiraganaDouble, t.katakanaDouble);
      AddColumns(t.katakanaExtra);
      AppendAssoc(old(pool), Paired(t.hiraganaSimple, t.katakanaSimple),
                  Paired(t.hiraganaDouble, t.katakanaDouble), Concat(t.katakanaExtra));
      backup := pool;
    }

    /** `random_kana`: refills an empty pool from the backup, then removes and
        returns the item at `idx`; with both empty it returns nothing. */
    method RandomKana(idx: nat) returns (r: Option<QuizItem>)
      requires ValidIndex(pool, backup, idx)
      modifies this`pool
      ensures DrawResult(r, pool) == Draw(old(pool), backup, idx)
    {
      if |pool| == 0 {
        if |backup| == 0 {
          return None;
        } else {
          pool := backup;
        }
      }
      r := Some(pool[idx]);
      pool := pool[..idx] + pool[idx + 1..];
    }

    /** `next_kana`: draws the next question and shows it with its answer hidden;
        reports whether there was one. */
    method NextKana(idx: nat) returns (ok: bool)
      requires ValidIndex(pool, backup, idx)
      requires Within(pool, backup)
      modifies this`pool, this`shown, this`answerVisible
      ensures var d := Draw(old(pool), backup, idx);
        pool == d.pool && ok == d.item.Some? &&
        if ok then shown == d.item.value && !answerVisible
        else shown == old(shown) && answerVisible == old(answerVisible)
      ensures Within(pool, backup)
      ensures ok ==> shown in backup
    {
      DrawStaysInBackup(pool, backup, idx);
      var next := RandomKana(idx);
      if next.None? {
        return false;
      }
      answerVisible := false;
      shown := next.value;
      return true;
    }

    /** `input_on_change`: the input now holds `value`; a complete answer clears
        the input and its wrong mark and asks the next kana, a wrong one of full
        length marks the input wrong, and a shorter one clears the mark. */
    method InputOnChange(value: string, idx: nat)
      requires Valid() && ValidIndex(pool, backup, idx)
      modifies this`pool, this`shown, this`answerVisible, this`inputText, this`wrong
      ensures Valid()
      ensures match Classify(value, old(shown.romaji))
        case Complete =>
          var d := Draw(old(pool), backup, idx);
          inputText == "" && !wrong && pool == d.pool &&
          (d.item.Some? ==> shown == d.item.value && !answerVisible) &&
          (d.item.None? ==> shown == old(shown) && answerVisible == old(answerVisible))
        case Invalid =>
          inputText == value && wrong &&
          pool == old(pool) && shown == old(shown) && answerVisible == old(answerVisible)
        case Pending =>
          inputText == value && !wrong &&
          pool == old(pool) && shown == old(shown) && answerVisible == old(answerVisible)
    {
      inputText := value;
      var verdict := Classify(inputText, shown.romaji);
      if verdict == Complete {
        inputText := "";
        wrong := false;
        var _ := NextKana(idx);
      } else if verdict == Invalid {
        if !wrong {
          wrong := true;
        }
      } else {
        wrong := false;
      }
    }

    /** `question_hover`: shows the answer. */
    method QuestionHover()
      requires Valid()
      modifies this`answerVisible
      ensures answerVisible && Valid()
    {
      answerVisible := true;
    }

    /** The rest of the `#Start` branch, once the backup is a copy of the pool:
        asks the first kana and, only if there is one, enables the input and
        attaches the handlers. The kana still shown need not be in the new
        backup, so only part of `Valid` is required; all of it holds afterwards. */
    method StartAsking(idx: nat)
      requires pool == backup && (listening ==> inputEnabled) && ValidIndex(pool, backup, idx)
      modifies this`pool, this`shown, this`answerVisible, this`inputEnabled, this`listening
      ensures Valid()
      ensures var d := Draw(old(pool), old(pool), idx);
        pool == d.pool &&
        (d.item.None? ==>
           inputEnabled == old(inputEnabled) && listening == old(listening) &&
           shown == old(shown) && answerVisible == old(answerVisible)) &&
        (d.item.Some? ==> inputEnabled && listening && !answerVisible && shown == d.item.value)
    {
      var ok := NextKana(idx);
      if !ok {
        return;
      }
      inputEnabled := true;
      listening := true;
    }

    /** The `#Start` branch of the closure `init_start` returns: builds the pool
        and asks the first kana, enabling the input only if there is one. */
    method EnterQuiz(t: KanaTables, idx: nat)
      requires Valid() && WellFormed(t)
      requires ValidIndex(pool + Selected(t), pool + Selected(t), idx)
      modifies this`pool, this`backup, this`shown, this`answerVisible, this`inputEnabled, this`listening
      ensures Valid()
      ensures var all := old(pool) + Selected(t);
        var d := Draw(all, all, idx);
        backup == all && pool == d.pool &&
        (d.item.None? ==>
           inputEnabled == old(inputEnabled) && listening == old(listening) &&
           shown == old(shown) && answerVisible == old(answerVisible)) &&
        (d.item.Some? ==> inputEnabled && listening && !answerVisible && shown == d.item.value)
    {
      InitKanas(t);
      StartAsking(idx);
    }

    /** The other branch: empties both lists, disables the input, blanks and
        hides the question and answer, and clears the wrong mark. */
    method LeaveQuiz()
      modifies this
      ensures Valid()
      ensures pool == [] && backup == [] && !inputEnabled && !listening
      ensures shown == QuizItem(Blank, Blank) && !answerVisible && !wrong
      ensures inputText == old(inputText)
    {
      pool := [];
      backup := [];
      inputEnabled := false;
      shown := QuizItem(Blank, Blank);
      answerVisible := false;
      wrong := false;
      listening := false;
    }

    /** The closure `init_start` returns, run on every hash change: the quiz
        page is entered on `#Start` and left on any other hash. */
    method OnHashChange(hash: string, t: KanaTables, idx: nat)
      requires Valid() && WellFormed(t)
      requires hash == StartHash ==> ValidIndex(pool + Selected(t), pool + Selected(t), idx)
      modifies this
      ensures Valid()
      ensures inputText == old(inputText)
      ensures hash == StartHash ==>
        var all := old(pool) + Selected(t);
        var d := Draw(all, all, idx);
        backup == all && pool == d.pool && wrong == old(wrong) &&
        (d.item.None? ==> inputEnabled == old(inputEnabled) && listening == old(listening)) &&
        (d.item.None? ==> shown == old(shown) && answerVisible == old(answerVisible)) &&
        (d.item.Some? ==> inputEnabled && listening && !answerVisible && shown == d.item.value)
      ensures hash != StartHash ==>
        pool == [] && backup == [] && !inputEnabled && !listening &&
        shown == QuizItem(Blank, Blank) && !answerVisible && !wrong
    {
      if hash == StartHash {
        EnterQuiz(t, idx);
      } else {
        LeaveQuiz();
      }
    }
  }
}
