/** The linear search the extension performs with `findIndex` and `find`. */
module Search {
  import opened Wrappers

  /** `s.findIndex(p)`, with -1 as None: the index of the first element `p` holds of. */
  function FirstIndex<T>(s: seq<T>, p: T -> bool): (r: Option<nat>)
    ensures r.Some? ==> (r.value < |s| && p(s[r.value]) &&
      forall j {:trigger p(s[j])} :: 0 <= j < r.value ==> !p(s[j]))
    ensures r.None? ==> forall j {:trigger p(s[j])} :: 0 <= j < |s| ==> !p(s[j])
  {
    if |s| == 0 then None
    else if p(s[0]) then Some(0)
    else match FirstIndex(s[1..], p)
      case None => None
      case Some(i) => Some(i + 1)
  }

  /** An element `p` holds of, with none before it, is the one the search finds. */
  lemma {:induction false} FirstIndexIsFirst<T>(s: seq<T>, p: T -> bool, k: nat)
    requires k < |s| && p(s[k])
    requires forall j {:trigger p(s[j])} :: 0 <= j < k ==> !p(s[j])
    ensures FirstIndex(s, p) == Some(k)
  {
    if k > 0 {
      var rest := s[1..];
      assert !p(s[0]);
      forall j | 0 <= j < k - 1 ensures !p(rest[j]) {
        assert rest[j] == s[j + 1];
      }
      FirstIndexIsFirst(rest, p, k - 1);
    }
  }
}
