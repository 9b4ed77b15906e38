/** `switch_left` and `switch_right` (app/js/UI.js): a container shows one of
    its children at a time; the arrows hide the first shown child and give
    its display value to the neighbour on that side, wrapping around. A
    child's inline `style.display` is a string and "none" hides it. */
module Carousel {
  import opened Common

  /** The displays after `switch_right`: the first shown child hides and the
      next one, or the first when it was the last, takes its display value. */
  function SwitchedRight(s: seq<string>): (r: seq<string>)
    ensures |r| == |s|
    ensures FirstIndex(s, Shown).None? ==> r == s
  {
    match FirstIndex(s, Shown)
    case None => s
    case Some(i) =>
      var next := if i + 1 < |s| then i + 1 else 0;
      s[i := Hidden][next := s[i]]
  }

  /** The displays after `switch_left`: the first shown child hides and the
      previous one, or the last when it was the first, takes its display value. */
  function SwitchedLeft(s: seq<string>): (r: seq<string>)
    ensures |r| == |s|
    ensures FirstIndex(s, Shown).None? ==> r == s
  {
    match FirstIndex(s, Shown)
    case None => s
    case Some(i) =>
      var previous := if i > 0 then i - 1 else |s| - 1;
      s[i := Hidden][previous := s[i]]
  }

  /** Exactly the child at `i` is shown. */
  predicate OnlyShown(s: seq<string>, i: int)
  {
    0 <= i < |s| && Shown(s[i]) && forall k :: 0 <= k < |s| && k != i ==> !Shown(s[k])
  }

  /** The start-up step of `init_kana_tables`: a tab's first table keeps its
      display and every later one (double, extra) is hidden, so a tab whose
      first table is shown starts with exactly one child shown. */
  function HiddenAtStart(s: seq<string>): (r: seq<string>)
    requires s != []
    ensures |r| == |s| && r[0] == s[0]
    ensures Shown(s[0]) ==> OnlyShown(r, 0)
  {
    [s[0]] + seq(|s| - 1, _ => Hidden)
  }

  lemma FirstIndexOfOnly(s: seq<string>, i: int)
    requires OnlyShown(s, i)
    ensures FirstIndex(s, Shown) == Some(i)
  {
  }

  lemma NextWraps(i: int, n: int)
    requires 0 <= i < n
    ensures (i + 1) % n == if i + 1 < n then i + 1 else 0
    ensures (i - 1 + n) % n == if i > 0 then i - 1 else n - 1
  {
    if i + 1 == n {
      assert (i + 1) % n == 0;
    }
    if i == 0 {
      assert (i - 1 + n) % n == n - 1;
    }
  }

  /** With exactly one child shown, `switch_right` shows exactly the next one,
      modulo the number of children, with the old child's display value. */
  lemma SwitchRightMovesOne(s: seq<string>, i: int)
    requires OnlyShown(s, i)
    ensures OnlyShown(SwitchedRight(s), (i + 1) % |s|)
    ensures SwitchedRight(s)[(i + 1) % |s|] == s[i]
  {
    FirstIndexOfOnly(s, i);
    var next := if i + 1 < |s| then i + 1 else 0;
    NextWraps(i, |s|);
    var r := SwitchedRight(s);
    assert r == s[i := Hidden][next := s[i]];
    forall k | 0 <= k < |r| && k != next
      ensures !Shown(r[k])
    {
      if k != i {
        assert r[k] == s[k];
      }
    }
  }

  /** With exactly one child shown, `switch_left` shows exactly the previous one,
      modulo the number of children, with the old child's display value. */
  lemma SwitchLeftMovesOne(s: seq<string>, i: int)
    requires OnlyShown(s, i)
    ensures OnlyShown(SwitchedLeft(s), (i - 1 + |s|) % |s|)
    ensures SwitchedLeft(s)[(i - 1 + |s|) % |s|] == s[i]
  {
    FirstIndexOfOnly(s, i);
    var previous := if i > 0 then i - 1 else |s| - 1;
    NextWraps(i, |s|);
    var r := SwitchedLeft(s);
    assert r == s[i := Hidden][previous := s[i]];
    forall k | 0 <= k < |r| && k != previous
      ensures !Shown(r[k])
    {
      if k != i {
        assert r[k] == s[k];
      }
    }
  }

  /** Two containers showing only the same child with the same display value agree. */
  lemma OnlyShownSame(a: seq<string>, b: seq<string>, i: int)
    requires |a| == |b| && OnlyShown(a, i) && OnlyShown(b, i) && a[i] == b[i]
    ensures a == b
  {
    assert forall k :: 0 <= k < |a| ==> a[k] == b[k];
  }

  /** Left then right, or right then left, restores a single shown child. */
  lemma SwitchRoundTrips(s: seq<string>, i: int)
    requires OnlyShown(s, i)
    ensures SwitchedRight(SwitchedLeft(s)) == s
    ensures SwitchedLeft(SwitchedRight(s)) == s
  {
    var n := |s|;
    var previous, next := (i - 1 + n) % n, (i + 1) % n;
    NextWraps(i, n);
    SwitchLeftMovesOne(s, i);
    NextWraps(previous, n);
    SwitchRightMovesOne(SwitchedLeft(s), previous);
    OnlyShownSame(SwitchedRight(SwitchedLeft(s)), s, i);
    SwitchRightMovesOne(s, i);
    NextWraps(next, n);
    SwitchLeftMovesOne(SwitchedRight(s), next);
    OnlyShownSame(SwitchedLeft(SwitchedRight(s)), s, i);
  }

  /** `switch_right` on the displays of a container's children. */
  method SwitchRight(children: array<string>)
    modifies children
    ensures children[..] == SwitchedRight(old(children[..]))
  {
    var childrenLen := children.Length;
    for idx := 0 to childrenLen
      invariant children[..] == old(children[..])
      invariant forall k :: 0 <= k < idx ==> !Shown(children[k])
    {
      if Shown(children[idx]) {
        var elementDisplay := children[idx];
        assert FirstIndex(children[..], Shown) == Some(idx);
        if idx + 1 < childrenLen {
          children[idx] := Hidden;
          children[idx + 1] := elementDisplay;
        } else {
          children[idx] := Hidden;
          children[0] := elementDisplay;
        }
        return;
      }
    }
  }

  /** `switch_left` on the displays of a container's children. */
  method SwitchLeft(children: array<string>)
    modifies children
    ensures children[..] == SwitchedLeft(old(children[..]))
  {
    var childrenLen := children.Length;
    for idx := 0 to childrenLen
      invariant children[..] == old(children[..])
      invariant forall k :: 0 <= k < idx ==> !Shown(children[k])
    {
      if Shown(children[idx]) {
        var elementDisplay := children[idx];
        assert FirstIndex(children[..], Shown) == Some(idx);
        if idx > 0 {
          children[idx] := Hidden;
          children[idx - 1] := elementDisplay;
        } else {
          children[idx] := Hidden;
          children[childrenLen - 1] := elementDisplay;
        }
        return;
      }
    }
  }
}
