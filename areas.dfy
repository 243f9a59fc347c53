/** The `venues` listing (app.py:143-169): the distinct (city, state) pairs of
    all venues, ordered by state and then city, each with the id and name of
    every venue located there. Strings are ordered by character code. */
module Areas {
  import opened Records

  datatype AreaKey = AreaKey(city: string, state: string)

  datatype VenueRef = VenueRef(id: int, name: string)

  datatype AreaGroup = AreaGroup(city: string, state: string, venues: seq<VenueRef>)

  function KeyOf(v: Venue): AreaKey { AreaKey(v.city, v.state) }

  function RefOf(v: Venue): VenueRef { VenueRef(v.id, v.name) }

  /** Lexicographic order on strings. */
  predicate StrLess(a: string, b: string) {
    if a == [] then b != []
    else if b == [] then false
    else if a[0] != b[0] then a[0] < b[0]
    else StrLess(a[1..], b[1..])
  }

  lemma {:induction false} StrLessIrreflexive(a: string)
    ensures !StrLess(a, a)
  {
    if a != [] { StrLessIrreflexive(a[1..]); }
  }

  lemma {:induction false} StrLessTransitive(a: string, b: string, c: string)
    requires StrLess(a, b) && StrLess(b, c)
    ensures StrLess(a, c)
  {
    if a != [] && b != [] && c != [] && a[0] == b[0] == c[0] {
      StrLessTransitive(a[1..], b[1..], c[1..]);
    }
  }

  lemma {:induction false} StrLessTotal(a: string, b: string)
    requires a != b
    ensures StrLess(a, b) || StrLess(b, a)
  {
    if a != [] && b != [] && a[0] == b[0] {
      assert a == [a[0]] + a[1..] && b == [b[0]] + b[1..];
      StrLessTotal(a[1..], b[1..]);
    }
  }

  /** `order_by(Venue.state, Venue.city)`. */
  predicate KeyLess(x: AreaKey, y: AreaKey) {
    StrLess(x.state, y.state) || (x.state == y.state && StrLess(x.city, y.city))
  }

  lemma KeyLessIsStrictTotalOrder(x: AreaKey, y: AreaKey, z: AreaKey)
    ensures !KeyLess(x, x)
    ensures KeyLess(x, y) && KeyLess(y, z) ==> KeyLess(x, z)
    ensures x != y ==> KeyLess(x, y) || KeyLess(y, x)
  {
    StrLessIrreflexive(x.state);
    StrLessIrreflexive(x.city);
    if KeyLess(x, y) && KeyLess(y, z) {
      if StrLess(x.state, y.state) && StrLess(y.state, z.state) {
        StrLessTransitive(x.state, y.state, z.state);
      } else if x.state == y.state == z.state {
        StrLessTransitive(x.city, y.city, z.city);
      }
    }
    if x != y {
      if x.state != y.state {
        StrLessTotal(x.state, y.state);
      } else {
        StrLessTotal(x.city, y.city);
      }
    }
  }

  /** Strictly increasing, hence free of duplicates. */
  predicate Sorted(keys: seq<AreaKey>) {
    forall i, j :: 0 <= i < j < |keys| ==> KeyLess(keys[i], keys[j])
  }

  /** Adds `k` to an ordered list of distinct keys unless it is already there. */
  function Insert(keys: seq<AreaKey>, k: AreaKey): (r: seq<AreaKey>)
    ensures forall x :: x in r <==> x == k || x in keys
  {
    if keys == [] then [k]
    else if k == keys[0] then keys
    else if KeyLess(k, keys[0]) then [k] + keys
    else
      var rest := Insert(keys[1..], k);
      assert forall x :: x in keys <==> x == keys[0] || x in keys[1..] by {
        assert keys == [keys[0]] + keys[1..];
      }
      [keys[0]] + rest
  }

  lemma {:induction false} InsertKeepsSorted(keys: seq<AreaKey>, k: AreaKey)
    requires Sorted(keys)
    ensures Sorted(Insert(keys, k))
  {
    if keys == [] || k == keys[0] {
    } else if KeyLess(k, keys[0]) {
      forall j | 0 <= j < |keys| ensures KeyLess(k, keys[j]) {
        if j > 0 { KeyLessIsStrictTotalOrder(k, keys[0], keys[j]); }
      }
    } else {
      InsertKeepsSorted(keys[1..], k);
      KeyLessIsStrictTotalOrder(keys[0], k, k);
      var r := Insert(keys, k);
      forall j | 1 <= j < |r| ensures KeyLess(r[0], r[j]) {
        assert r[j] in Insert(keys[1..], k);
        if r[j] != k {
          var m :| 0 <= m < |keys[1..]| && keys[1..][m] == r[j];
          assert keys[m + 1] == r[j];
        }
      }
    }
  }

  /** The distinct (city, state) pairs the listing query returns, in order. */
  function AreaKeys(vs: seq<Venue>): (keys: seq<AreaKey>)
    ensures forall x :: x in keys <==> exists i :: 0 <= i < |vs| && KeyOf(vs[i]) == x
  {
    if vs == [] then []
    else
      var init := vs[..|vs| - 1];
      var keys := Insert(AreaKeys(init), KeyOf(vs[|vs| - 1]));
      assert forall i :: 0 <= i < |init| ==> vs[i] == init[i];
      keys
  }

  lemma {:induction false} AreaKeysSorted(vs: seq<Venue>)
    ensures Sorted(AreaKeys(vs))
  {
    if vs != [] {
      AreaKeysSorted(vs[..|vs| - 1]);
      InsertKeepsSorted(AreaKeys(vs[..|vs| - 1]), KeyOf(vs[|vs| - 1]));
    }
  }

  /** The id and name of every venue with key `k`, in table order. */
  function Members(vs: seq<Venue>, k: AreaKey): (refs: seq<VenueRef>)
    ensures forall r :: r in refs <==> exists i :: 0 <= i < |vs| && KeyOf(vs[i]) == k && RefOf(vs[i]) == r
  {
    if vs == [] then []
    else
      var init := vs[..|vs| - 1];
      var last := vs[|vs| - 1];
      assert forall i :: 0 <= i < |init| ==> vs[i] == init[i];
      Members(init, k) + (if KeyOf(last) == k then [RefOf(last)] else [])
  }

  /** The nested loops of the listing handler: one group per area key, each
      collecting the venues that match it. */
  method ListAreas(vs: seq<Venue>) returns (areas: seq<AreaGroup>)
    ensures |areas| == |AreaKeys(vs)|
    ensures forall i :: 0 <= i < |areas| ==>
              areas[i] == AreaGroup(AreaKeys(vs)[i].city, AreaKeys(vs)[i].state, Members(vs, AreaKeys(vs)[i]))
  {
    var keys := AreaKeys(vs);
    areas := [];
    for i := 0 to |keys|
      invariant |areas| == i
      invariant forall m :: 0 <= m < i ==> areas[m] == AreaGroup(keys[m].city, keys[m].state, Members(vs, keys[m]))
    {
      var k := keys[i];
      var members: seq<VenueRef> := [];
      for j := 0 to |vs|
        invariant members == Members(vs[..j], k)
      {
        assert vs[..j + 1][..j] == vs[..j];
        if vs[j].city == k.city && vs[j].state == k.state {
          members := members + [RefOf(vs[j])];
        }
      }
      assert vs[..|vs|] == vs;
      areas := areas + [AreaGroup(k.city, k.state, members)];
    }
  }

  /** The groups come in strictly increasing (state, city) order, so no
      (city, state) pair is listed twice. */
  lemma AreasOrderedAndDistinct(vs: seq<Venue>)
    ensures forall i, j :: 0 <= i < j < |AreaKeys(vs)| ==>
              KeyLess(AreaKeys(vs)[i], AreaKeys(vs)[j]) && AreaKeys(vs)[i] != AreaKeys(vs)[j]
  {
    var keys := AreaKeys(vs);
    AreaKeysSorted(vs);
    forall i, j | 0 <= i < j < |keys| ensures keys[i] != keys[j] {
      KeyLessIsStrictTotalOrder(keys[i], keys[j], keys[j]);
    }
  }

  /** With distinct venue ids, every venue is listed in exactly one group: the
      one for its own city and state. */
  lemma EveryVenueInExactlyOneArea(vs: seq<Venue>, n: int)
    requires VenueIdsIncreasing(vs)
    requires 0 <= n < |vs|
    ensures exists i :: 0 <= i < |AreaKeys(vs)| && AreaKeys(vs)[i] == KeyOf(vs[n])
    ensures forall i :: 0 <= i < |AreaKeys(vs)| ==>
              (RefOf(vs[n]) in Members(vs, AreaKeys(vs)[i]) <==> AreaKeys(vs)[i] == KeyOf(vs[n]))
    ensures forall i, j ::
              (0 <= i < |AreaKeys(vs)| && 0 <= j < |AreaKeys(vs)| &&
               RefOf(vs[n]) in Members(vs, AreaKeys(vs)[i]) && RefOf(vs[n]) in Members(vs, AreaKeys(vs)[j])) ==> i == j
  {
    var keys := AreaKeys(vs);
    assert KeyOf(vs[n]) in keys;
    forall i | 0 <= i < |keys| ensures RefOf(vs[n]) in Members(vs, keys[i]) <==> keys[i] == KeyOf(vs[n]) {
      if RefOf(vs[n]) in Members(vs, keys[i]) {
        var m :| 0 <= m < |vs| && KeyOf(vs[m]) == keys[i] && RefOf(vs[m]) == RefOf(vs[n]);
        assert m == n;
      } else {
        assert KeyOf(vs[n]) != keys[i];
      }
    }
    AreasOrderedAndDistinct(vs);
  }
}
