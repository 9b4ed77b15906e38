/** The quiz pool of `random_kana` (app/js/UI.js) as a function of its state:
    a working pool and the backup it is refilled from. The random index is an
    argument instead of `Math.random`. */
module Pool {
  import opened Common
  import opened Items

  /** The pool a draw picks from: the working pool, or a fresh copy of the backup once it is empty. */
  function Source(pool: seq<QuizItem>, backup: seq<QuizItem>): (r: seq<QuizItem>)
    ensures r == [] <==> pool == [] && backup == []
    ensures |pool| <= |r|
  {
    if pool == [] then backup else pool
  }

  /** The random index lies in `[0, |Source|)`; with nothing to draw from it is not used. */
  predicate ValidIndex(pool: seq<QuizItem>, backup: seq<QuizItem>, idx: nat)
  {
    Source(pool, backup) == [] || idx < |Source(pool, backup)|
  }

  /** `s` with the element at `i` cut out (`splice(i, 1)`). */
  function RemoveAt(s: seq<QuizItem>, i: nat): (r: seq<QuizItem>)
    requires i < |s|
    ensures |r| == |s| - 1
  {
    s[..i] + s[i + 1..]
  }

  /** Removing one element takes exactly one copy of it out of the multiset. */
  lemma RemoveAtMultiset(s: seq<QuizItem>, i: nat)
    requires i < |s|
    ensures multiset(RemoveAt(s, i)) + multiset{s[i]} == multiset(s)
  {
    assert s == s[..i] + [s[i]] + s[i + 1..];
  }

  /** What a draw returns, and the working pool it leaves. */
  datatype DrawResult = DrawResult(item: Option<QuizItem>, pool: seq<QuizItem>)

  /** One call of `random_kana` with random index `idx`. */
  function Draw(pool: seq<QuizItem>, backup: seq<QuizItem>, idx: nat): (r: DrawResult)
    requires ValidIndex(pool, backup, idx)
    ensures r.item.None? <==> pool == [] && backup == []
    ensures r.item.None? ==> r.pool == pool
    ensures r.item.Some? ==> r.item.value == Source(pool, backup)[idx]
    ensures r.item.Some? ==> |r.pool| == |Source(pool, backup)| - 1
  {
    var src := Source(pool, backup);
    if src == [] then DrawResult(None, pool)
    else DrawResult(Some(src[idx]), RemoveAt(src, idx))
  }

  /** A successful draw moves exactly one copy of the drawn item out of the pool it drew from. */
  lemma DrawRemovesOne(pool: seq<QuizItem>, backup: seq<QuizItem>, idx: nat)
    requires ValidIndex(pool, backup, idx)
    requires pool != [] || backup != []
    ensures Draw(pool, backup, idx).item.Some?
    ensures multiset(Draw(pool, backup, idx).pool) + multiset{Draw(pool, backup, idx).item.value}
            == multiset(Source(pool, backup))
  {
    RemoveAtMultiset(Source(pool, backup), idx);
  }

  /** Every item of `pool` is also in `backup`. */
  predicate Within(pool: seq<QuizItem>, backup: seq<QuizItem>)
  {
    forall x :: x in pool ==> x in backup
  }

  /** A draw keeps the pool within the backup: it returns an item of the
      backup and leaves a pool that still holds only items of the backup. */
  lemma DrawStaysInBackup(pool: seq<QuizItem>, backup: seq<QuizItem>, idx: nat)
    requires ValidIndex(pool, backup, idx)
    requires Within(pool, backup)
    ensures Draw(pool, backup, idx).item.Some? ==> Draw(pool, backup, idx).item.value in backup
    ensures Within(Draw(pool, backup, idx).pool, backup)
  {
    var src := Source(pool, backup);
    var d := Draw(pool, backup, idx);
    if d.item.Some? {
      RemoveAtMultiset(src, idx);
      forall x | x in d.pool
        ensures x in backup
      {
        assert x in multiset(d.pool);
        assert x in src;
      }
    }
  }

  /** Indices good for a run of consecutive draws from the given state. */
  predicate ValidIndices(pool: seq<QuizItem>, backup: seq<QuizItem>, idxs: seq<nat>)
    decreases |idxs|
  {
    idxs == [] ||
    (ValidIndex(pool, backup, idxs[0]) &&
     ValidIndices(Draw(pool, backup, idxs[0]).pool, backup, idxs[1..]))
  }

  /** The items a run of draws returns, and the pool left afterwards. */
  datatype Run = Run(drawn: seq<QuizItem>, pool: seq<QuizItem>)

  /** Consecutive draws with the given indices; the backup is the same throughout. */
  function Draws(pool: seq<QuizItem>, backup: seq<QuizItem>, idxs: seq<nat>): (r: Run)
    requires ValidIndices(pool, backup, idxs)
    decreases |idxs|
  {
    if idxs == [] then Run([], pool)
    else
      var d := Draw(pool, backup, idxs[0]);
      var rest := Draws(d.pool, backup, idxs[1..]);
      match d.item
      case None => rest
      case Some(x) => Run([x] + rest.drawn, rest.pool)
  }

  /** Draining a non-empty pool: as many draws as it holds return exactly its
      items, each once, and leave it empty, without touching the backup. */
  lemma {:induction false} DrainPool(pool: seq<QuizItem>, backup: seq<QuizItem>, idxs: seq<nat>)
    requires |idxs| == |pool| && ValidIndices(pool, backup, idxs)
    ensures multiset(Draws(pool, backup, idxs).drawn) == multiset(pool)
    ensures Draws(pool, backup, idxs).pool == []
  {
    if idxs != [] {
      var d := Draw(pool, backup, idxs[0]);
      DrawRemovesOne(pool, backup, idxs[0]);
      DrainPool(d.pool, backup, idxs[1..]);
    }
  }

  /** A full cycle: starting from a pool equal to the backup, or from an empty
      pool, `|backup|` draws return a permutation of the backup and leave the
      pool empty, so the next draw refills it. */
  lemma {:induction false} CycleIsPermutation(pool: seq<QuizItem>, backup: seq<QuizItem>, idxs: seq<nat>)
    requires pool == backup || pool == []
    requires |idxs| == |backup| && ValidIndices(pool, backup, idxs)
    ensures multiset(Draws(pool, backup, idxs).drawn) == multiset(backup)
    ensures Draws(pool, backup, idxs).pool == []
  {
    if backup == [] {
    } else if pool == backup {
      DrainPool(pool, backup, idxs);
    } else {
      var d := Draw(pool, backup, idxs[0]);
      DrawRemovesOne(pool, backup, idxs[0]);
      DrainPool(d.pool, backup, idxs[1..]);
    }
  }

  /** No element repeats in `s`. */
  predicate Distinct(s: seq<QuizItem>)
  {
    forall i, j :: 0 <= i < j < |s| ==> s[i] != s[j]
  }

  lemma {:induction false} DistinctCounts(s: seq<QuizItem>, x: QuizItem)
    requires Distinct(s)
    ensures multiset(s)[x] <= 1
  {
    if s != [] {
      assert s == [s[0]] + s[1..];
      DistinctCounts(s[1..], x);
      if s[0] == x {
        assert x !in s[1..];
      }
    }
  }

  lemma RepeatCounts(s: seq<QuizItem>, i: nat, j: nat)
    requires i < j < |s| && s[i] == s[j]
    ensures multiset(s)[s[i]] >= 2
  {
    assert s == s[..j] + [s[j]] + s[j + 1..];
    assert s[i] in s[..j];
  }

  /** With distinct items in the backup, nothing repeats within a cycle. */
  lemma NoRepeatWithinCycle(pool: seq<QuizItem>, backup: seq<QuizItem>, idxs: seq<nat>)
    requires pool == backup || pool == []
    requires |idxs| == |backup| && ValidIndices(pool, backup, idxs)
    requires Distinct(backup)
    ensures Distinct(Draws(pool, backup, idxs).drawn)
  {
    var drawn := Draws(pool, backup, idxs).drawn;
    CycleIsPermutation(pool, backup, idxs);
    forall i, j | 0 <= i < j < |drawn|
      ensures drawn[i] != drawn[j]
    {
      if drawn[i] == drawn[j] {
        RepeatCounts(drawn, i, j);
        DistinctCounts(backup, drawn[i]);
      }
    }
  }
}
