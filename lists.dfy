/** Generic sequence folds: keeping the present values of a list of options, and concatenating a list of lists. */
module Lists {
  import opened Wrappers

  /** The values that are not None, in order. */
  function Somes<T>(os: seq<Option<T>>): seq<T> {
    if os == [] then []
    else Somes(os[..|os| - 1]) + (if os[|os| - 1].Some? then [os[|os| - 1].value] else [])
  }

  lemma {:induction false} SomesAppend<T>(a: seq<Option<T>>, b: seq<Option<T>>)
    ensures Somes(a + b) == Somes(a) + Somes(b)
    decreases |b|
  {
    if b == [] {
      assert a + b == a;
    } else {
      assert (a + b)[..|a + b| - 1] == a + b[..|b| - 1];
      SomesAppend(a, b[..|b| - 1]);
    }
  }

  /** A value is kept exactly when it is present. */
  lemma {:induction false} SomesMembers<T>(os: seq<Option<T>>, x: T)
    ensures x in Somes(os) <==> Some(x) in os
  {
    if os != [] {
      var n := |os| - 1;
      SomesMembers(os[..n], x);
      assert os == os[..n] + [os[n]];
    }
  }

  /** Nothing is dropped when every entry is present. */
  lemma {:induction false} SomesAll<T>(os: seq<Option<T>>)
    requires forall k :: 0 <= k < |os| ==> os[k].Some?
    ensures |Somes(os)| == |os|
    ensures forall k :: 0 <= k < |os| ==> Somes(os)[k] == os[k].value
  {
    if os != [] {
      var n := |os| - 1;
      SomesAll(os[..n]);
    }
  }

  /** Nothing is kept when every entry is None. */
  lemma {:induction false} SomesNone<T>(os: seq<Option<T>>)
    ensures Somes(os) == [] <==> forall k :: 0 <= k < |os| ==> os[k].None?
  {
    if os != [] {
      var n := |os| - 1;
      SomesNone(os[..n]);
      assert forall k :: 0 <= k < n ==> os[..n][k] == os[k];
    }
  }

  /** The lists of `ss` one after the other. */
  function Flatten<T>(ss: seq<seq<T>>): seq<T> {
    if ss == [] then [] else Flatten(ss[..|ss| - 1]) + ss[|ss| - 1]
  }

  lemma FlattenSnoc<T>(ss: seq<seq<T>>, s: seq<T>)
    ensures Flatten(ss + [s]) == Flatten(ss) + s
  {
    assert (ss + [s])[..|ss|] == ss;
  }

  /** An element of the concatenation is an element of one of the lists. */
  lemma {:induction false} FlattenMembers<T>(ss: seq<seq<T>>, x: T)
    ensures x in Flatten(ss) <==> exists i :: 0 <= i < |ss| && x in ss[i]
  {
    if ss != [] {
      var n := |ss| - 1;
      FlattenMembers(ss[..n], x);
      assert forall i :: 0 <= i < n ==> ss[..n][i] == ss[i];
    }
  }
}
