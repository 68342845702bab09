/**
 * Python dictionaries as insertion-ordered association lists. Iteration
 * follows insertion order, and assigning to a key that is already present
 * replaces its value where it stands; both matter for the "first match
 * wins" and "last row wins" behaviour of the pipeline.
 */
module OrderedDict {
  import opened Wrappers
  import opened Lists

  /** Every dictionary of the pipeline is keyed by strings. */
  type Assoc<V> = seq<(string, V)>

  function Keys<V>(m: Assoc<V>): (ks: seq<string>)
    ensures |ks| == |m|
    ensures forall i :: 0 <= i < |m| ==> ks[i] == m[i].0
  {
    seq(|m|, i requires 0 <= i < |m| => m[i].0)
  }

  /** No key is stored twice, as in every Python dict. */
  predicate DistinctKeys<V>(m: Assoc<V>) {
    forall i, j :: 0 <= i < j < |m| ==> m[i].0 != m[j].0
  }

  /** Position of the first entry with key `k`. */
  function IndexOf<V>(m: Assoc<V>, k: string): (r: Option<nat>)
    ensures r.Some? ==> r.value < |m| && m[r.value].0 == k
  {
    if m == [] then None
    else if m[0].0 == k then Some(0)
    else match IndexOf(m[1..], k)
      case Some(i) => Some(i + 1)
      case None => None
  }

  /** No entry before the position found has key `k`; when none is found, no entry has it. */
  lemma {:induction false} IndexOfFirst<V>(m: Assoc<V>, k: string)
    ensures match IndexOf(m, k)
            case Some(i) => forall j :: 0 <= j < i ==> m[j].0 != k
            case None => forall j :: 0 <= j < |m| ==> m[j].0 != k
  {
    if m != [] && m[0].0 != k {
      IndexOfFirst(m[1..], k);
      assert forall j :: 1 <= j < |m| ==> m[j] == m[1..][j - 1];
    }
  }

  /** The first position with key `k` is the one `IndexOf` finds. */
  lemma IndexOfAt<V>(m: Assoc<V>, k: string, i: nat)
    requires i <= |m| && (i < |m| ==> m[i].0 == k)
    requires forall j :: 0 <= j < i ==> m[j].0 != k
    ensures IndexOf(m, k) == if i < |m| then Some(i) else None
  {
    IndexOfFirst(m, k);
  }

  /** The position found is the first with key `k`, and there is none exactly when `k` is not a key. */
  lemma IndexOfSpec<V>(m: Assoc<V>, k: string)
    ensures IndexOf(m, k).Some? ==> forall j :: 0 <= j < IndexOf(m, k).value ==> m[j].0 != k
    ensures IndexOf(m, k).None? <==> k !in Keys(m)
  {
    IndexOfFirst(m, k);
    var ks := Keys(m);
    if k in ks {
      var j :| 0 <= j < |ks| && ks[j] == k;
      assert m[j].0 == k;
    }
  }

  /** `m.get(k)`. */
  function Lookup<V>(m: Assoc<V>, k: string): Option<V> {
    match IndexOf(m, k)
    case Some(i) => Some(m[i].1)
    case None => None
  }

  /** `m.get(k)` finds a value exactly when `k` is a key, and the value is the one stored with `k`. */
  lemma LookupSpec<V>(m: Assoc<V>, k: string)
    ensures Lookup(m, k).Some? <==> k in Keys(m)
    ensures Lookup(m, k).Some? ==> exists i :: 0 <= i < |m| && m[i] == (k, Lookup(m, k).value)
  {
    IndexOfSpec(m, k);
  }

  /** `m[k] = v`: overwrite in place when `k` is present, append otherwise. */
  function Put<V>(m: Assoc<V>, k: string, v: V): (r: Assoc<V>)
    ensures r != []
  {
    match IndexOf(m, k)
    case Some(i) => m[i := (k, v)]
    case None => m + [(k, v)]
  }

  /** After `m[k] = v`, `k` holds `v` and every other key holds what it held before. */
  lemma PutLookup<V>(m: Assoc<V>, k: string, v: V, k': string)
    ensures Lookup(Put(m, k, v), k') == if k' == k then Some(v) else Lookup(m, k')
  {
    var r := Put(m, k, v);
    IndexOfFirst(m, k);
    if k' != k {
      OtherKeyIndex(m, r, k, k');
    } else {
      match IndexOf(m, k)
      case Some(i) => IndexOfAt(r, k, i);
      case None => IndexOfAt(r, k, |m|);
    }
  }

  /** `m[k] = v` keeps the keys and their order, and adds `k` at the end when it is new. */
  lemma PutKeys<V>(m: Assoc<V>, k: string, v: V)
    ensures Keys(Put(m, k, v)) == if k in Keys(m) then Keys(m) else Keys(m) + [k]
    ensures DistinctKeys(m) ==> DistinctKeys(Put(m, k, v))
  {
    var r := Put(m, k, v);
    IndexOfSpec(m, k);
    IndexOfFirst(m, k);
    if k in Keys(m) {
      assert Keys(r) == Keys(m);
    } else {
      assert Keys(r) == Keys(m) + [k];
    }
  }

  /**
   * When `r` agrees with `m` on every entry whose key is not `k`, has key `k`
   * where `m` has it and after the end of `m`, other keys sit at the same places.
   */
  lemma OtherKeyIndex<V>(m: Assoc<V>, r: Assoc<V>, k: string, k': string)
    requires k' != k && |m| <= |r|
    requires forall i :: 0 <= i < |m| && m[i].0 != k ==> r[i] == m[i]
    requires forall i :: 0 <= i < |r| ==> (r[i].0 == k) == (i >= |m| || m[i].0 == k)
    ensures IndexOf(r, k') == IndexOf(m, k')
  {
    IndexOfFirst(m, k');
    match IndexOf(m, k')
    case Some(i) =>
      assert r[i] == m[i];
      forall j | 0 <= j < i ensures r[j].0 != k' {
        if m[j].0 != k { assert r[j] == m[j]; }
      }
      IndexOfAt(r, k', i);
    case None =>
      forall j | 0 <= j < |r| ensures r[j].0 != k' {
        if j < |m| && m[j].0 != k { assert r[j] == m[j]; }
      }
      IndexOfAt(r, k', |r|);
  }

  /** Assigning the value a key already has changes nothing. */
  lemma PutTwice<V>(m: Assoc<V>, k: string, v: V)
    ensures Put(Put(m, k, v), k, v) == Put(m, k, v)
  {
    var once := Put(m, k, v);
    PutLookup(m, k, v, k);
    var i := IndexOf(once, k).value;
    assert once[i] == (k, v);
    assert once[i := (k, v)] == once;
  }

  /** Assigning `es` in order, starting from `m`. */
  function PutAll<V>(m: Assoc<V>, es: seq<(string, V)>): (r: Assoc<V>)
    ensures es != [] ==> r != []
  {
    if es == [] then m
    else
      var last := es[|es| - 1];
      Put(PutAll(m, es[..|es| - 1]), last.0, last.1)
  }

  /** Assigning one more entry is one more `Put`. */
  lemma PutAllSnoc<V>(m: Assoc<V>, es: seq<(string, V)>, k: string, v: V)
    ensures PutAll(m, es + [(k, v)]) == Put(PutAll(m, es), k, v)
  {
    assert (es + [(k, v)])[..|es|] == es;
  }

  /** The assignment `o` describes, if any. */
  function PutOpt<V>(m: Assoc<V>, o: Option<(string, V)>): Assoc<V> {
    match o
    case Some(e) => Put(m, e.0, e.1)
    case None => m
  }

  /** Making the assignments that are present, one more at the end. */
  lemma PutAllSomesSnoc<V>(m: Assoc<V>, os: seq<Option<(string, V)>>, o: Option<(string, V)>)
    ensures PutAll(m, Somes(os + [o])) == PutOpt(PutAll(m, Somes(os)), o)
  {
    assert (os + [o])[..|os|] == os;
    if o.Some? {
      assert Somes(os + [o]) == Somes(os) + [o.value];
      PutAllSnoc(m, Somes(os), o.value.0, o.value.1);
    } else {
      assert Somes(os + [o]) == Somes(os) + [];
      assert Somes(os) + [] == Somes(os);
    }
  }

  /** Position of the last entry of `es` with key `k`. */
  function LastWith<V>(es: seq<(string, V)>, k: string): (r: Option<nat>)
    ensures r.Some? ==> r.value < |es| && es[r.value].0 == k && forall j :: r.value < j < |es| ==> es[j].0 != k
    ensures r.None? ==> forall j :: 0 <= j < |es| ==> es[j].0 != k
  {
    if es == [] then None
    else if es[|es| - 1].0 == k then Some(|es| - 1)
    else LastWith(es[..|es| - 1], k)
  }

  /** After a sequence of assignments a key holds the value assigned last. */
  lemma {:induction false} PutAllLookup<V>(m: Assoc<V>, es: seq<(string, V)>, k: string)
    ensures Lookup(PutAll(m, es), k) == match LastWith(es, k)
                                        case Some(j) => Some(es[j].1)
                                        case None => Lookup(m, k)
  {
    if es != [] {
      var n := |es| - 1;
      PutAllLookup(m, es[..n], k);
      PutLookup(PutAll(m, es[..n]), es[n].0, es[n].1, k);
    }
  }

  /** A dict built by assignments keeps its keys distinct. */
  lemma {:induction false} PutAllDistinct<V>(m: Assoc<V>, es: seq<(string, V)>)
    requires DistinctKeys(m)
    ensures DistinctKeys(PutAll(m, es))
  {
    if es != [] {
      var n := |es| - 1;
      PutAllDistinct(m, es[..n]);
      PutKeys(PutAll(m, es[..n]), es[n].0, es[n].1);
    }
  }

  /** The keys after a sequence of assignments are the old ones and the assigned ones. */
  lemma PutAllKeys<V>(m: Assoc<V>, es: seq<(string, V)>, k: string)
    ensures k in Keys(PutAll(m, es)) <==> k in Keys(m) || exists j :: 0 <= j < |es| && es[j].0 == k
  {
    PutAllLookup(m, es, k);
    LookupSpec(PutAll(m, es), k);
    LookupSpec(m, k);
  }

  lemma {:induction false} PutAllAppend<V>(m: Assoc<V>, a: seq<(string, V)>, b: seq<(string, V)>)
    ensures PutAll(m, a + b) == PutAll(PutAll(m, a), b)
  {
    if b == [] {
      assert a + b == a;
    } else {
      assert (a + b)[..|a + b| - 1] == a + b[..|b| - 1];
      PutAllAppend(m, a, b[..|b| - 1]);
    }
  }

  /** Assignments `es` made on top of `m` override `m` exactly on the keys they assign. */
  lemma PutAllOverride<V>(m: Assoc<V>, es: seq<(string, V)>, k: string)
    ensures Lookup(PutAll(m, es), k) == if k in Keys(PutAll([], es)) then Lookup(PutAll([], es), k) else Lookup(m, k)
  {
    PutAllLookup(m, es, k);
    PutAllLookup([], es, k);
    LookupSpec(PutAll([], es), k);
    LookupSpec<V>([], k);
  }

  /** Assigning a key that is not present appends it. */
  lemma PutFresh<V>(m: Assoc<V>, k: string, v: V)
    requires k !in Keys(m)
    ensures Put(m, k, v) == m + [(k, v)]
  {
    IndexOfSpec(m, k);
  }
}
