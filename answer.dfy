/** The keystroke check of `input_on_change` (app/js/UI.js): the typed text
    and the expected romaji are lower-cased and compared, and each keystroke
    falls into exactly one of three cases. */
module Answer {

  /** ASCII lower-casing of one character. */
  function LowerChar(c: char): (r: char)
    ensures !('A' <= r <= 'Z')
    ensures 'A' <= c <= 'Z' ==> r as int == c as int + 32
    ensures !('A' <= c <= 'Z') ==> r == c
  {
    if 'A' <= c <= 'Z' then (c as int + 32) as char else c
  }

  /** `toLowerCase`, restricted to ASCII letters: it keeps the length and
      leaves no upper-case letter. */
  function Lower(s: string): (r: string)
    ensures |r| == |s|
    ensures forall i :: 0 <= i < |r| ==> !('A' <= r[i] <= 'Z')
  {
    if s == [] then [] else [LowerChar(s[0])] + Lower(s[1..])
  }

  /** Lower-casing changes each character on its own. */
  lemma {:induction false} LowerAt(s: string, i: nat)
    requires i < |s|
    ensures Lower(s)[i] == LowerChar(s[i])
  {
    if i > 0 {
      LowerAt(s[1..], i - 1);
    }
  }

  /** Lower-casing twice is lower-casing once. */
  lemma {:induction false} LowerIdempotent(s: string)
    ensures Lower(Lower(s)) == Lower(s)
  {
    if s != [] {
      LowerIdempotent(s[1..]);
      assert Lower(s)[1..] == Lower(s[1..]);
    }
  }

  /** The outcome of one keystroke. */
  datatype Verdict =
    | Complete   // the answer matches: clear the input and ask the next kana
    | Invalid    // as long as the answer, or longer, and different: mark the input wrong
    | Pending    // shorter and different: still typing, no error shown

  /** Classifies the typed `input` against the `expected` romaji. */
  function Classify(input: string, expected: string): (v: Verdict)
    ensures v == Complete <==> Lower(input) == Lower(expected)
    ensures v == Invalid <==> Lower(input) != Lower(expected) && |input| >= |expected|
    ensures v == Pending <==> Lower(input) != Lower(expected) && |input| < |expected|
  {
    var value := Lower(input);
    var expectedText := Lower(expected);
    if value == expectedText then Complete
    else if |value| >= |expectedText| then Invalid
    else Pending
  }

  /** Case never matters: lower-casing either side first gives the same verdict. */
  lemma ClassifyIgnoresCase(input: string, expected: string)
    ensures Classify(Lower(input), expected) == Classify(input, expected)
    ensures Classify(input, Lower(expected)) == Classify(input, expected)
  {
    LowerIdempotent(input);
    LowerIdempotent(expected);
  }

  /** Typing the answer letter by letter never marks the input wrong before it completes. */
  lemma TypingTheAnswer(expected: string, k: nat)
    requires k < |expected|
    ensures Classify(expected[..k], expected) == Pending
    ensures Classify(expected, expected) == Complete
  {
    assert |Lower(expected[..k])| < |Lower(expected)|;
  }

  /** Once a keystroke is judged wrong, typing more keeps it wrong. */
  lemma InvalidStaysInvalid(input: string, more: string, expected: string)
    requires Classify(input, expected) == Invalid && more != []
    ensures Classify(input + more, expected) == Invalid
  {
    assert |Lower(input + more)| > |Lower(expected)|;
  }

  /** A complete answer has the expected length, since lower-casing keeps lengths. */
  lemma CompleteSameLength(input: string, expected: string)
    requires Classify(input, expected) == Complete
    ensures |input| == |expected|
  {
    assert |Lower(input)| == |Lower(expected)|;
  }
}
