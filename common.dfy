/** Small shared vocabulary: an optional value, and the "first element that
    satisfies a test" search that several handlers in UI.js perform with an
    index loop and an early `break` or `return`. */
module Common {

  datatype Option<T> = None | Some(value: T)

  /** The inline `style.display` value that hides an element. */
  const Hidden: string := "none"

  /** An element whose display is anything but "none" is shown. */
  predicate Shown(display: string)
  {
    display != Hidden
  }

  /** The index of the first element of `s` that satisfies `p`, if any. */
  function FirstIndex<T>(s: seq<T>, p: T -> bool): (r: Option<nat>)
    ensures r.Some? ==> r.value < |s| && p(s[r.value])
    ensures r.Some? ==> forall k :: 0 <= k < r.value ==> !p(s[k])
    ensures r.None? ==> forall k :: 0 <= k < |s| ==> !p(s[k])
  {
    if s == [] then None
    else if p(s[0]) then Some(0)
    else match FirstIndex(s[1..], p)
      case None => None
      case Some(i) => Some(i + 1)
  }

  /** Regrouping a concatenation of four sequences. */
  lemma AppendAssoc<T>(a: seq<T>, b: seq<T>, c: seq<T>, d: seq<T>)
    ensures a + b + c + d == a + (b + c + d)
  {
  }
}
