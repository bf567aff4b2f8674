/** Substring search: the "Not So Naive" search and the search by first character. */
module Search {
  import opened Options

  predicate OccursAt<T(==)>(needle: seq<T>, haystack: seq<T>, j: nat) {
    j + |needle| <= |haystack| && haystack[j..j + |needle|] == needle
  }

  /** The first place where the needle occurs, or none when it occurs nowhere. */
  ghost predicate IsFirst<T>(needle: seq<T>, haystack: seq<T>, place: Option<nat>) {
    match place
    case Some(at) => OccursAt(needle, haystack, at) && forall j: nat :: j < at ==> !OccursAt(needle, haystack, j)
    case None => forall j: nat :: !OccursAt(needle, haystack, j)
  }

  /** The first place is unique, so two searches that find it agree. */
  lemma FirstIsUnique<T>(needle: seq<T>, haystack: seq<T>, p: Option<nat>, q: Option<nat>)
    requires IsFirst(needle, haystack, p) && IsFirst(needle, haystack, q)
    ensures p == q
  {
  }

  /** What `memchr` finds in the first `n` elements. */
  function FirstIndex<T(==)>(s: seq<T>, c: T, n: nat): (r: Option<nat>)
    requires n <= |s|
    ensures match r
            case Some(i) => i < n && s[i] == c && forall j :: 0 <= j < i ==> s[j] != c
            case None => forall j :: 0 <= j < n ==> s[j] != c
    decreases n
  {
    if n == 0 then None
    else
      var earlier := FirstIndex(s, c, n - 1);
      if earlier.Some? then earlier else if s[n - 1] == c then Some(n - 1) else None
  }

  /** An occurrence agrees with the needle everywhere. */
  lemma Agrees<T>(needle: seq<T>, haystack: seq<T>, j: nat, k: nat)
    requires k < |needle| && j + k < |haystack|
    ensures OccursAt(needle, haystack, j) ==> needle[k] == haystack[j + k]
  {
    if OccursAt(needle, haystack, j) {
      assert haystack[j..j + |needle|][k] == haystack[j + k];
    }
  }

  /** An occurrence is one of the first `m` elements and of the others. */
  lemma Halves<T>(needle: seq<T>, haystack: seq<T>, j: nat, m: nat)
    requires m <= |needle| && j + |needle| <= |haystack|
    ensures OccursAt(needle, haystack, j) <==>
            needle[..m] == haystack[j..j + m] && needle[m..] == haystack[j + m..j + |needle|]
  {
    var found := haystack[j..j + |needle|];
    assert needle == needle[..m] + needle[m..] && found == found[..m] + found[m..];
    assert found[..m] == haystack[j..j + m] && found[m..] == haystack[j + m..j + |needle|];
  }

  /** After a mismatch of the second element, or of another one, the next place cannot match when it is skipped. */
  method Memmem<T(==)>(haystack: seq<T>, needle: seq<T>) returns (place: Option<nat>)
    ensures needle != [] ==> IsFirst(needle, haystack, place)
    ensures needle == [] ==> place == None
  {
    if |needle| > |haystack| || |needle| == 0 || |haystack| == 0 {
      return None;
    }
    if |needle| > 1 {
      var j: nat, k: nat, ell: nat := 0, 1, 2;
      if needle[0] == needle[1] {
        k, ell := 2, 1;
      }
      while j <= |haystack| - |needle|
        invariant forall i: nat :: i < j ==> !OccursAt(needle, haystack, i)
      {
        if needle[1] != haystack[j + 1] {
          Agrees(needle, haystack, j, 1);
          if k == 2 && j + 1 <= |haystack| - |needle| {
            Agrees(needle, haystack, j + 1, 0);
          }
          j := j + k;
        } else {
          Halves(needle, haystack, j, 2);
          assert needle[..2] == [needle[0], needle[1]] && haystack[j..j + 2] == [haystack[j], haystack[j + 1]];
          if needle[2..] == haystack[j + 2..j + |needle|] && needle[0] == haystack[j] {
            return Some(j);
          }
          if ell == 2 && j + 1 <= |haystack| - |needle| {
            Agrees(needle, haystack, j + 1, 0);
          }
          j := j + ell;
        }
      }
      return None;
    }
    place := FirstIndex(haystack, needle[0], |haystack|);
    SingleElement(needle, haystack, place);
  }

  lemma SingleElement<T>(needle: seq<T>, haystack: seq<T>, place: Option<nat>)
    requires |needle| == 1 && place == FirstIndex(haystack, needle[0], |haystack|)
    ensures IsFirst(needle, haystack, place)
  {
    forall j: nat | j < |haystack| && haystack[j] != needle[0] ensures !OccursAt(needle, haystack, j) {
      Agrees(needle, haystack, j, 0);
    }
    if place.Some? {
      assert haystack[place.value..place.value + 1] == [haystack[place.value]];
    }
  }

  /** Looks for the first character, then compares the rest; `s1` is where the next round starts. */
  method MemFind<T(==)>(haystack: seq<T>, needle: seq<T>) returns (place: Option<nat>)
    ensures IsFirst(needle, haystack, place)
  {
    if |needle| == 0 {
      assert OccursAt(needle, haystack, 0);
      return Some(0);
    } else if |needle| > |haystack| {
      return None;
    }
    var l2 := |needle| - 1;
    var l1: nat := |haystack| - l2;
    var s1: nat := 0;
    while l1 > 0
      invariant s1 + l1 + l2 == |haystack|
      invariant forall i: nat :: i < s1 ==> !OccursAt(needle, haystack, i)
      decreases l1
    {
      var first := FirstIndex(haystack[s1..], needle[0], l1);
      forall i: nat | s1 <= i < s1 + (if first.Some? then first.value else l1) ensures !OccursAt(needle, haystack, i) {
        assert haystack[s1..][i - s1] == haystack[i];
        Agrees(needle, haystack, i, 0);
      }
      if first.None? {
        return None;
      }
      var init := s1 + first.value + 1;
      Halves(needle, haystack, init - 1, 1);
      assert needle[..1] == [needle[0]] && haystack[init - 1..init] == [haystack[init - 1]];
      if haystack[init..init + l2] == needle[1..] {
        return Some(init - 1);
      }
      l1 := l1 - (init - s1);
      s1 := init;
    }
    return None;
  }
}
