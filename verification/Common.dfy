/** Small types and facts shared by the models. */
module Common {

  /** A value that may be absent: `null` and `undefined` in the page, `Option` in the core. */
  datatype Option<+T> = None | Some(value: T)

  /** The newest of a non-empty set of revisions. */
  ghost function Newest(revisions: set<nat>): (newest: nat)
    requires revisions != {}
    ensures newest in revisions
    ensures forall revision :: revision in revisions ==> revision <= newest
  {
    var r :| r in revisions;
    var others := revisions - {r};
    assert revisions == others + {r};
    if others == {} then r
    else
      var rest := Newest(others);
      if r > rest then r else rest
  }

  lemma {:induction false} SubsetSize<T>(a: set<T>, b: set<T>)
    requires a <= b
    ensures |a| <= |b|
  {
    if a != {} {
      var x :| x in a;
      SubsetSize(a - {x}, b - {x});
    }
  }

  lemma Regrouped<T>(a: seq<T>, b: seq<T>, c: seq<T>)
    ensures a + (b + c) == (a + b) + c
  {
  }
}
