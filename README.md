# learn-kana quiz core in Dafny

This project models the logic of `app/js/UI.js` in the learn-kana flashcard
trainer, with the DOM taken out. The trainer shows kana tables whose columns
the user ticks. On the `#Start` page it asks one kana at a time and checks
the romaji the user types. The modelled parts are:

- **Pool construction** (`add_column_if`, `init_kanas`). Each ticked column
  contributes its cells whose title holds a word character. The order is
  hiragana column i then katakana column i for the simple tables, the same
  for the double tables, then the extra katakana columns. The result is
  appended to the pool, and the backup becomes a copy of the pool
  (module `Items` for the specification, class `StartPage.Session` for the
  loops).
- **Drawing with refill** (`random_kana`). A draw removes the item at a given
  index. An empty pool is refilled from the backup first. With both empty
  there is nothing to draw (module `Pool`, method `Session.RandomKana`).
- **Answer check and session control** (`next_kana`, `input_on_change`,
  `question_hover`, the closure returned by `init_start`). Each keystroke is
  `Complete`, `Invalid` or `Pending` (module `Answer`). The session's fields
  are the closure's two lists plus the page state its handlers write
  (class `StartPage.Session`).
- **Sequence helpers**: `switch_left`/`switch_right` (module `Carousel`),
  `apply_to_table` (module `TableSelect`) and `hash_change` (module `Nav`).
  Each is an array method proved equal to a specification function, with
  lemmas about that function.

`Common` holds `Option` and `FirstIndex`, the "first element passing a test"
search that several of these loops perform.

The random index of each draw is a parameter. `Math.random` is not modelled.
`InitKanas` runs its two paired loops through one helper method,
`AddPairedColumns`, and its last loop through `AddColumns`. The `#Start` and
other branches of the hash-change closure are the methods `EnterQuiz` and
`LeaveQuiz`; `OnHashChange` chooses between them. `EnterQuiz` hands the part after
`init_kanas` (asking the first kana and enabling the input) to `StartAsking`.

Three behaviours of the code worth noting:
- Building the pool appends to what the pool already holds; it does not replace it.
- Checking an answer with no active question raises no error. After leaving
  `#Start` the input is disabled and the handler is detached. If the handler
  did run, it would compare against the blank shown in the answer element.
- Leaving `#Start` keeps the input's text. It clears only the wrong mark.

## Model

| member | source | states |
|---|---|---|
| `Common.FirstIndex` | app/js/UI.js:188-195 | the index found is the first whose element passes the test; no result means no element passes |
| `Items.HasWordChar` | app/js/UI.js:29 | the left-to-right scan of `/\w+/` succeeds exactly when some character of the title is a word character |
| `Items.Kept` | app/js/UI.js:26-35 | a column never yields more items than it has cells |
| `Items.KeptAppend` | app/js/UI.js:26-35 | filtering the cells keeps their order: the items of `a + b` are those of `a` followed by those of `b` |
| `Items.KeptMembership` | app/js/UI.js:26-35 | an item is kept exactly when some cell has a title with a word character and yields that item |
| `Items.KeptAreKana` | app/js/UI.js:29-33 | every kept item's romaji contains a character of `\w` |
| `Items.ColumnItems` | app/js/UI.js:23-36 | an unchecked column contributes nothing; a checked one contributes at most one item per cell |
| `Items.Paired` | app/js/UI.js:44-59 | the paired loops append at most one item per cell of the hiragana columns and of the katakana columns they index |
| `Items.Concat` | app/js/UI.js:61-64 | the extra-katakana loop appends at most one item per cell of its columns |
| `Items.Selected` | app/js/UI.js:42-64 | `init_kanas` appends at most as many items as the five column lists have cells |
| `Items.SelectedAreKana` | app/js/UI.js:29-33 | every item `init_kanas` appends has a romaji passing the `/\w+/` test, so no blank placeholder is ever asked |
| `Items.ColumnMembership` | app/js/UI.js:23-36 | a column contributes exactly the kana among its cells after the checkbox, and nothing when unchecked |
| `Items.PairedMembership` | app/js/UI.js:44-59 | the paired loops take items from the hiragana columns and from the katakana columns at the same positions, and from nowhere else |
| `Items.ConcatMembership` | app/js/UI.js:61-64 | the extra-katakana loop takes items from exactly those columns |
| `Items.SelectedMembership` | app/js/UI.js:42-64 | an item is selected exactly when one of the columns read by `init_kanas` contributes it |
| `Items.NothingCheckedSelectsNothing` | app/js/UI.js:24 | with no column checked in any table, the selection is empty |
| `Answer.LowerChar` | app/js/UI.js:121-122 | upper-case ASCII letters map to lower case; other characters are unchanged |
| `Answer.Lower` | app/js/UI.js:121-122 | lower-casing keeps the length and leaves no upper-case letter |
| `Answer.LowerAt` | app/js/UI.js:121-122 | lower-casing works character by character |
| `Answer.LowerIdempotent` | app/js/UI.js:121-122 | lower-casing twice equals lower-casing once |
| `Answer.Classify` | app/js/UI.js:120-137 | `Complete` exactly when the lower-cased texts are equal; `Invalid` exactly when they differ and the input is at least as long as the answer; `Pending` exactly when they differ and the input is shorter |
| `Answer.ClassifyIgnoresCase` | app/js/UI.js:121-124 | lower-casing either side first does not change the verdict |
| `Answer.TypingTheAnswer` | app/js/UI.js:129-136 | every proper prefix of the answer is `Pending`, so typing it is never marked wrong before it completes |
| `Answer.InvalidStaysInvalid` | app/js/UI.js:129-133 | once the input is `Invalid`, typing more keeps it `Invalid` |
| `Answer.CompleteSameLength` | app/js/UI.js:124 | a complete answer has the expected length |
| `Pool.RemoveAt` | app/js/UI.js:83 | removing one element shortens the sequence by one |
| `Pool.RemoveAtMultiset` | app/js/UI.js:83 | removal takes out exactly one copy of the removed element |
| `Pool.Source` | app/js/UI.js:77-80 | the list drawn from is empty exactly when pool and backup both are, and the refill never leaves fewer items than the pool held |
| `Pool.Draw` | app/js/UI.js:75-84 | nothing is drawn exactly when pool and backup are both empty, and then the pool is unchanged; otherwise the drawn item is element `idx` of the pool, or of the backup when the pool was empty, and the new pool is one shorter |
| `Pool.DrawRemovesOne` | app/js/UI.js:79-83 | a draw takes exactly the drawn item out of the pool it drew from |
| `Pool.DrawStaysInBackup` | app/js/UI.js:77-83 | if the pool holds only items of the backup, the drawn item is in the backup and the new pool still holds only items of the backup |
| `Pool.DrainPool` | app/js/UI.js:77-83 | as many draws as a pool holds return exactly its items (as a multiset) and leave it empty |
| `Pool.CycleIsPermutation` | app/js/UI.js:66-84 | from a pool equal to the backup, or an empty one, `|backup|` draws return a permutation of the backup and leave the pool empty, so the next draw refills it |
| `Pool.NoRepeatWithinCycle` | app/js/UI.js:70-84 | with distinct items in the backup, no item repeats within one cycle |
| `StartPage.Session.constructor` | app/js/UI.js:10-12 | both lists start empty and no handler is attached |
| `StartPage.Session.AddColumnIf` | app/js/UI.js:23-36 | appends exactly the column's contribution to the pool |
| `StartPage.Session.AddPairedColumns` | app/js/UI.js:44-59 | appends the paired items of one table kind to the pool |
| `StartPage.Session.AddColumns` | app/js/UI.js:61-64 | appends the extra columns' items in order |
| `StartPage.Session.InitKanas` | app/js/UI.js:42-67 | the pool becomes the old pool followed by the selection, and the backup equals the new pool |
| `StartPage.Session.RandomKana` | app/js/UI.js:75-84 | the returned item and the new pool are those of `Draw`; the backup is untouched |
| `StartPage.Session.NextKana` | app/js/UI.js:92-107 | reports whether an item was drawn; if so it is shown with the answer hidden, otherwise the page is unchanged; the pool stays within the backup |
| `StartPage.Session.InputOnChange` | app/js/UI.js:120-137 | `Complete` clears the input and the wrong mark and draws the next kana; `Invalid` sets the wrong mark; `Pending` clears it; the session invariant holds afterwards |
| `StartPage.Session.QuestionHover` | app/js/UI.js:143-145 | only makes the answer visible, keeping the session invariant |
| `StartPage.Session.StartAsking` | app/js/UI.js:150-156 | draws the first kana from the freshly copied pool; the input is enabled and the handlers attached exactly when one was drawn; the session invariant holds afterwards |
| `StartPage.Session.EnterQuiz` | app/js/UI.js:148-157 | the backup becomes the old pool plus the selection, and one item is drawn from it; if nothing could be drawn, the input and handlers stay as they were; otherwise the input is enabled and the handlers attached |
| `StartPage.Session.LeaveQuiz` | app/js/UI.js:158-170 | empties pool and backup, disables the input, detaches the handlers, blanks and hides the question and answer, and clears the wrong mark |
| `StartPage.Session.OnHashChange` | app/js/UI.js:147-171 | enters the quiz on `#Start` and leaves it on any other hash, keeping the session invariant |
| `Carousel.SwitchedRight` | app/js/UI.js:261-283 | the number of children is unchanged, and with no child shown nothing changes |
| `Carousel.SwitchedLeft` | app/js/UI.js:228-250 | the number of children is unchanged, and with no child shown nothing changes |
| `Carousel.HiddenAtStart` | app/js/UI.js:321-327 | keeps the first table's display and hides the others, so a tab whose simple table is shown starts with exactly that child shown |
| `Carousel.SwitchRightMovesOne` | app/js/UI.js:261-283 | with only child `i` of `n` shown, afterwards only child `(i+1) mod n` is shown, with the old display value |
| `Carousel.SwitchLeftMovesOne` | app/js/UI.js:228-250 | with only child `i` of `n` shown, afterwards only child `(i-1+n) mod n` is shown, with the old display value |
| `Carousel.SwitchRoundTrips` | app/js/UI.js:228-283 | with one child shown, left then right and right then left both restore the original displays |
| `Carousel.SwitchRight` | app/js/UI.js:261-283 | the children's displays become `SwitchedRight` of the old ones |
| `Carousel.SwitchLeft` | app/js/UI.js:228-250 | the children's displays become `SwitchedLeft` of the old ones |
| `TableSelect.Applied` | app/js/UI.js:291-310 | the number of tables is unchanged |
| `TableSelect.AppliedSetsFirstVisible` | app/js/UI.js:295-307 | every checkbox of the first table not hidden becomes the value, keeping its display and column count; every other table is unchanged |
| `TableSelect.AppliedKeepsDisplays` | app/js/UI.js:298 | no table's display changes |
| `TableSelect.AppliedLastWins` | app/js/UI.js:291-310 | applying one value and then another equals applying only the second |
| `TableSelect.AppliedIdempotent` | app/js/UI.js:291-310 | applying the same value twice equals applying it once |
| `TableSelect.ApplyToTable` | app/js/UI.js:291-310 | the tables become `Applied` of the old tables |
| `Nav.Pattern` | app/js/UI.js:180 | the suffix looked for is never empty |
| `Nav.EndsWith` | app/js/UI.js:180-191 | a link's `href` matches exactly when its last characters equal the pattern's, one by one; every string matches itself |
| `Nav.Cleared` | app/js/UI.js:184-186 | clearing keeps the number of links |
| `Nav.Marked` | app/js/UI.js:184-195 | marking keeps the number of links |
| `Nav.MarkedSelectsFirstMatch` | app/js/UI.js:184-195 | a link ends up marked exactly when its `href` ends with the hash (or `#`) and no earlier link's does; every `href` is kept |
| `Nav.MarkedAtMostOne` | app/js/UI.js:188-195 | at most one link is marked afterwards |
| `Nav.HashChange` | app/js/UI.js:178-197 | the links become `Marked` of the old links |

## Left out

- `Math.random` and `Math.floor` (app/js/UI.js:82): floating point. Each draw takes its index as an argument, in `[0, n)`, where `n` is the pool's size after a possible refill.
- Event-listener registration (`addEventListener`/`removeEventListener`) is reduced to the `listening` flag. `init_kana_tables` (app/js/UI.js:317-339) wires listeners and also hides each tab's double and extra tables at start. The listener wiring is not modelled. The hiding is `Carousel.HiddenAtStart`, which yields exactly one shown child when the simple table is shown. The model does not link that start-up call to the carousel lemmas, so `Carousel.SwitchRightMovesOne`, `Carousel.SwitchLeftMovesOne` and `Carousel.SwitchRoundTrips` take the one-shown state as a precondition.
- `table_click` (app/js/UI.js:209-217) and `app/js/utils.js`: they walk the DOM with dynamically built regular expressions. app/init.js and brunch-config.js are not part of this model either.
- The fade-in animation (app/js/UI.js:100-104) is not modelled.
- `style.visibility` is the boolean `answerVisible`.
- Class names are booleans: `wrong` on the input, `selected` on a link. The string edits (`replace` removes one occurrence, `+=` appends) are not modelled.
- `StartPage.Session.InputOnChange`: the wrong mark is a boolean, so "` wrong` is never appended twice" holds trivially. The `/wrong/` test on the whole class name is not modelled.
- `toLowerCase` lowers only ASCII letters here. Unicode case mapping, which can change a string's length, is not modelled. JavaScript string lengths count UTF-16 code units; here they count characters.
- `\w` is the ASCII class `[A-Za-z0-9_]`.
- `hash_change` builds a regular expression from the unescaped hash. Here it is a literal suffix match, so a hash containing regular-expression metacharacters is not matched as the browser would match it.
- The question and answer elements are the single field `shown` (kana, romaji). The model assumes the answer element's `textContent` equals the romaji written into its `innerHTML`. That holds when titles contain no markup.
- A column's checkbox (child 0) is its `checked` flag. A column without children, where the code would throw, is not modelled. `StartPage.Session.InitKanas` requires each katakana column list to be at least as long as the matching hiragana list. Otherwise `add_column_if` would be called on `undefined` and throw.
- `apply_to_table` updates the tables as values in an array. Aliasing between checkbox objects and tables is not modelled. The tables are taken in the order of `Object.keys`: simple, double, extra.
- The kana tables are read and written through three separate views. `Items.Column.checked` holds the checkboxes `init_kanas` reads. `TableSelect.Table.checks` holds the checkboxes `apply_to_table` writes. `TableSelect.Table.display` and the displays that `Carousel` rotates are both views of the tables' `style.display`. The model keeps these views independent, so it does not follow one DOM state through the carousel, the select/reset buttons and the quiz.
- `StartPage.Session.OnHashChange` accepts any sequence of hashes. The browser fires `hashchange` only when the hash actually changes.
- `StartPage.Session.Valid` states that the pool holds only items of the backup (membership). The multiset statements of the draws are proved on `Pool.Draw` (`Pool.DrawRemovesOne`, `Pool.DrainPool`, `Pool.CycleIsPermutation`), not carried in the class invariant.
