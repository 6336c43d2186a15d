/** Filtering sequences. */
module Filters {

  function Filter<T>(s: seq<T>, keep: T -> bool): seq<T> {
    if s == [] then []
    else if keep(s[0]) then [s[0]] + Filter(s[1..], keep)
    else Filter(s[1..], keep)
  }

  lemma {:induction false} FilterConcat<T>(a: seq<T>, b: seq<T>, keep: T -> bool)
    ensures Filter(a + b, keep) == Filter(a, keep) + Filter(b, keep)
  {
    if a == [] {
      assert a + b == b;
    } else {
      FilterConcat(a[1..], b, keep);
      assert (a + b)[1..] == a[1..] + b;
    }
  }

  /** Where each kept element stood, in order. */
  ghost function Places<T>(s: seq<T>, keep: T -> bool): (places: seq<nat>)
  {
    if s == [] then []
    else
      var rest := Places(s[1..], keep);
      var shifted := seq(|rest|, i requires 0 <= i < |rest| => rest[i] + 1);
      if keep(s[0]) then [0] + shifted else shifted
  }

  /** A filter keeps exactly the elements it should, each once for each time it was there, in order. */
  lemma {:induction false} FilterOrder<T>(s: seq<T>, keep: T -> bool)
    ensures var kept, places := Filter(s, keep), Places(s, keep);
      && |kept| == |places| && |kept| <= |s|
      && (forall i :: 0 <= i < |kept| ==> places[i] < |s| && kept[i] == s[places[i]])
      && (forall i, j :: 0 <= i < j < |kept| ==> places[i] < places[j])
      && (forall x :: x in kept <==> x in s && keep(x))
  {
    if s != [] {
      FilterOrder(s[1..], keep);
      assert s == [s[0]] + s[1..];
    }
  }

  method Retain<T>(s: seq<T>, keep: T -> bool) returns (kept: seq<T>)
    ensures kept == Filter(s, keep)
  {
    kept := [];
    var i := 0;
    assert s[0..] == s;
    while i < |s|
      invariant i <= |s|
      invariant kept + Filter(s[i..], keep) == Filter(s, keep)
    {
      if keep(s[i]) { kept := kept + [s[i]]; }
      i := i + 1;
    }
  }
}
