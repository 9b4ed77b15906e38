/** `hash_change` (app/js/UI.js): on every hash change the site navigation
    clears the mark of every link and then marks the first link whose `href`
    ends with the location's hash, or with "#" when there is none. The class
    name of a link is reduced to its "selected" mark. */
module Nav {
  import opened Common

  datatype Link = Link(href: string, selected: bool)

  /** The suffix looked for: the hash, or "#" when the location has none. */
  function Pattern(hash: string): (p: string)
    ensures p != []
  {
    if hash == "" then "#" else hash
  }

  /** The test of the anchored pattern `${hash}$`, with the hash read literally:
      the last characters of `s` are those of `suffix`, one by one. */
  function EndsWith(s: string, suffix: string): (r: bool)
    ensures r <==> (|suffix| <= |s| &&
      forall k :: 0 <= k < |suffix| ==> s[|s| - |suffix| + k] == suffix[k])
    ensures suffix == s ==> r
  {
    |suffix| <= |s| && s[|s| - |suffix|..] == suffix
  }

  /** The test applied to each link. */
  function Matcher(hash: string): Link -> bool
  {
    (link: Link) => EndsWith(link.href, Pattern(hash))
  }

  /** Every link with its mark cleared. */
  function Cleared(links: seq<Link>): (r: seq<Link>)
    ensures |r| == |links|
  {
    seq(|links|, k requires 0 <= k < |links| => Link(links[k].href, false))
  }

  /** The links after `hash_change`: all marks cleared, then the first matching link marked. */
  function Marked(links: seq<Link>, hash: string): (r: seq<Link>)
    ensures |r| == |links|
  {
    match FirstIndex(links, Matcher(hash))
    case None => Cleared(links)
    case Some(i) => Cleared(links)[i := Link(links[i].href, true)]
  }

  /** A link ends up marked exactly when it matches and no earlier link does;
      every link keeps its `href`. */
  lemma MarkedSelectsFirstMatch(links: seq<Link>, hash: string, k: int)
    requires 0 <= k < |links|
    ensures Marked(links, hash)[k].href == links[k].href
    ensures Marked(links, hash)[k].selected <==>
      EndsWith(links[k].href, Pattern(hash)) &&
      forall j :: 0 <= j < k ==> !EndsWith(links[j].href, Pattern(hash))
  {
    var m := Matcher(hash);
    assert forall j :: 0 <= j < |links| ==> m(links[j]) == EndsWith(links[j].href, Pattern(hash));
    var r := FirstIndex(links, m);
    if r.Some? && r.value != k {
      assert r.value < k ==> m(links[r.value]);
    }
  }

  /** At most one link is marked afterwards. */
  lemma MarkedAtMostOne(links: seq<Link>, hash: string, i: int, j: int)
    requires 0 <= i < |links| && 0 <= j < |links|
    requires Marked(links, hash)[i].selected && Marked(links, hash)[j].selected
    ensures i == j
  {
    MarkedSelectsFirstMatch(links, hash, i);
    MarkedSelectsFirstMatch(links, hash, j);
  }

  /** `hash_change` run on the navigation's links with the location's hash. */
  method HashChange(links: array<Link>, hash: string)
    modifies links
    ensures links[..] == Marked(old(links[..]), hash)
  {
    ghost var before := links[..];
    var pattern := Pattern(hash);
    var navLen := links.Length;
    for idx := 0 to navLen
      invariant forall k :: 0 <= k < idx ==> links[k] == Link(before[k].href, false)
      invariant forall k :: idx <= k < navLen ==> links[k] == before[k]
    {
      links[idx] := Link(links[idx].href, false);
    }
    assert links[..] == Cleared(before);
    for idx := 0 to navLen
      invariant links[..] == Cleared(before)
      invariant forall k :: 0 <= k < idx ==> !Matcher(hash)(before[k])
    {
      var link := links[idx];
      if EndsWith(link.href, pattern) {
        assert Matcher(hash)(before[idx]);
        assert FirstIndex(before, Matcher(hash)) == Some(idx);
        links[idx] := Link(link.href, true);
        return;
      }
    }
  }
}
