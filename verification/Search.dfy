/** Substring search over attribute trees (pkg/tools/state/search_attributes.go). */
module Search {
  import opened JsonTree
  import opened Strings

  /** The lower-cased query, with lower-casing and `%v` printing as given functions. */
  datatype Query = Query(text: string, lower: string -> string, fmt: Json -> string)
  {
    predicate Hit(v: Json) {
      Contains(lower(if v.Str? then v.s else fmt(v)), text)
    }
  }

  /** What matches in `v`; Null stands for Go's nil, "no match". */
  function Matching(v: Json, q: Query): Json
    decreases v, 1
  {
    match v
    case Obj(m) => var sub := MatchingFields(m, q); if sub != map[] then Obj(sub) else Null
    case Arr(a) => var hits := MatchingElems(a, q); if hits != [] then Arr(hits) else Null
    case _ => if q.Hit(v) then v else Null
  }

  function MatchingFields(m: map<string, Json>, q: Query): map<string, Json>
    decreases Obj(m), 0
  {
    map k | k in m && Matching(m[k], q) != Null :: Matching(m[k], q)
  }

  function MatchingElems(a: seq<Json>, q: Query): seq<Json>
    decreases a, 0
  {
    if a == [] then []
    else
      var hits, x := MatchingElems(a[..|a| - 1], q), Matching(a[|a| - 1], q);
      if x != Null then hits + [x] else hits
  }

  // ---------- the loops ----------

  method SearchAttrs(attrs: map<string, Json>, q: Query) returns (matches: map<string, Json>)
    ensures matches == MatchingFields(attrs, q)
    decreases Obj(attrs), 0
  {
    matches := map[];
    var keys := attrs.Keys;
    while keys != {}
      invariant keys <= attrs.Keys
      invariant matches == map k | k in attrs && k !in keys && Matching(attrs[k], q) != Null :: Matching(attrs[k], q)
    {
      var k :| k in keys;
      var m := SearchValue(attrs[k], q);
      if m != Null {
        matches := matches[k := m];
      }
      keys := keys - {k};
    }
  }

  method SearchValue(v: Json, q: Query) returns (r: Json)
    ensures r == Matching(v, q)
    ensures v.Str? ==> r == if Within(q.text, q.lower(v.s)) then v else Null
    ensures v.Num? || v.Bool? ==> r == if Within(q.text, q.lower(q.fmt(v))) then v else Null
    decreases v, 1
  {
    if v.Str? || v.Num? || v.Bool? {
      FoundIgnoringCase(v, q);
    }
    if v.Obj? {
      var sub := SearchAttrs(v.fields, q);
      if |sub| > 0 {
        return Obj(sub);
      }
    } else if v.Arr? {
      var hits := [];
      for i := 0 to |v.elems|
        invariant hits == MatchingElems(v.elems[..i], q)
      {
        var m := SearchValue(v.elems[i], q);
        assert v.elems[..i + 1][..i] == v.elems[..i];
        if m != Null {
          hits := hits + [m];
        }
      }
      assert v.elems[..|v.elems|] == v.elems;
      if |hits| > 0 {
        return Arr(hits);
      }
    } else if q.Hit(v) {
      return v;
    }
    r := Null;
  }

  // ---------- what a search means ----------

  /** A route from the root to leaves: map keys, and array levels without the index. */
  datatype Hop = Field(key: string) | Element

  /** The non-null leaves reached along a route, in order. */
  function LeavesAt(v: Json, route: seq<Hop>): seq<Json>
    decreases v, 1
  {
    match v
    case Obj(m) =>
      if route != [] && route[0].Field? && route[0].key in m then LeavesAt(m[route[0].key], route[1..]) else []
    case Arr(a) => if route != [] && route[0].Element? then LeavesIn(a, route[1..]) else []
    case _ => if route == [] && v != Null then [v] else []
  }

  function LeavesIn(a: seq<Json>, route: seq<Hop>): seq<Json>
    decreases a, 0
  {
    if a == [] then [] else LeavesIn(a[..|a| - 1], route) + LeavesAt(a[|a| - 1], route)
  }

  function Hits(leaves: seq<Json>, q: Query): seq<Json> {
    if leaves == [] then []
    else
      var hits, x := Hits(leaves[..|leaves| - 1], q), leaves[|leaves| - 1];
      if q.Hit(x) then hits + [x] else hits
  }

  lemma {:induction false} HitsConcat(x: seq<Json>, y: seq<Json>, q: Query)
    ensures Hits(x + y, q) == Hits(x, q) + Hits(y, q)
  {
    if y == [] {
      assert x + y == x;
    } else {
      HitsConcat(x, y[..|y| - 1], q);
      assert (x + y)[..|x + y| - 1] == x + y[..|y| - 1];
    }
  }

  /** Along every route the search keeps exactly the leaves that match, in order. */
  lemma {:induction false} SearchIsLeafFilter(v: Json, q: Query, route: seq<Hop>)
    ensures LeavesAt(Matching(v, q), route) == Hits(LeavesAt(v, route), q)
    decreases v, 1
  {
    match v {
      case Obj(m) =>
        if route != [] && route[0].Field? && route[0].key in m {
          SearchIsLeafFilter(m[route[0].key], q, route[1..]);
          var k, sub := route[0].key, MatchingFields(m, q);
          assert k in sub <==> Matching(m[k], q) != Null;
          assert k in sub ==> LeavesAt(Obj(sub), route) == LeavesAt(sub[k], route[1..]);
          assert LeavesAt(Null, route) == [] && LeavesAt(Null, route[1..]) == [];
        }
      case Arr(a) =>
        if route != [] {
          ElementsLeafFilter(a, q, route[1..]);
        }
      case _ =>
        assert [v][..0] == [];
    }
  }

  lemma {:induction false} ElementsLeafFilter(a: seq<Json>, q: Query, route: seq<Hop>)
    ensures LeavesIn(MatchingElems(a, q), route) == Hits(LeavesIn(a, route), q)
    decreases a, 0
  {
    if a != [] {
      var init, x := a[..|a| - 1], a[|a| - 1];
      var hits := MatchingElems(init, q);
      ElementsLeafFilter(init, q, route);
      SearchIsLeafFilter(x, q, route);
      HitsConcat(LeavesIn(init, route), LeavesAt(x, route), q);
      assert LeavesAt(Null, route) == [];
      var y := Matching(x, q);
      assert MatchingElems(a, q) == if y != Null then hits + [y] else hits;
      assert (hits + [y])[..|hits|] == hits;
      assert LeavesIn(hits + [y], route) == LeavesIn(hits, route) + LeavesAt(y, route);
    }
  }

  /** No nulls and no empty containers anywhere. */
  predicate Pruned(v: Json)
    decreases v
  {
    match v
    case Obj(m) => m != map[] && forall k | k in m :: Pruned(m[k])
    case Arr(a) => a != [] && forall i | 0 <= i < |a| :: Pruned(a[i])
    case _ => v != Null
  }

  lemma {:induction false} MatchingIsPruned(v: Json, q: Query)
    ensures Matching(v, q) == Null || Pruned(Matching(v, q))
    decreases v, 1
  {
    match v {
      case Obj(m) =>
        forall k | k in m ensures Matching(m[k], q) == Null || Pruned(Matching(m[k], q)) {
          MatchingIsPruned(m[k], q);
        }
      case Arr(a) =>
        ElementsArePruned(a, q);
      case _ =>
    }
  }

  lemma {:induction false} ElementsArePruned(a: seq<Json>, q: Query)
    ensures forall i | 0 <= i < |MatchingElems(a, q)| :: Pruned(MatchingElems(a, q)[i])
    decreases a, 0
  {
    if a != [] {
      ElementsArePruned(a[..|a| - 1], q);
      MatchingIsPruned(a[|a| - 1], q);
    }
  }

  lemma {:induction false} PrunedHasLeaf(v: Json) returns (route: seq<Hop>)
    requires Pruned(v)
    ensures LeavesAt(v, route) != []
    decreases v
  {
    match v {
      case Obj(m) =>
        var k :| k in m;
        var rest := PrunedHasLeaf(m[k]);
        route := [Field(k)] + rest;
      case Arr(a) =>
        var rest := PrunedHasLeaf(a[|a| - 1]);
        route := [Element] + rest;
      case _ =>
        route := [];
    }
  }

  /** The search answers "no match" exactly when no leaf on any route matches. */
  lemma NoMatchIffNoHit(v: Json, q: Query)
    ensures Matching(v, q) == Null <==> forall route :: Hits(LeavesAt(v, route), q) == []
  {
    forall route ensures LeavesAt(Matching(v, q), route) == Hits(LeavesAt(v, route), q) {
      SearchIsLeafFilter(v, q, route);
    }
    if Matching(v, q) == Null {
      assert forall route :: LeavesAt(Null, route) == [];
    } else {
      MatchingIsPruned(v, q);
      var route := PrunedHasLeaf(Matching(v, q));
      assert Hits(LeavesAt(v, route), q) != [];
    }
  }

  /** Searching a result again returns it unchanged. */
  lemma {:induction false} SearchIdempotent(v: Json, q: Query)
    requires Matching(v, q) != Null
    ensures Matching(Matching(v, q), q) == Matching(v, q)
    decreases v, 1
  {
    match v {
      case Obj(m) =>
        var sub := MatchingFields(m, q);
        forall k | k in sub ensures Matching(sub[k], q) == sub[k] {
          SearchIdempotent(m[k], q);
        }
        assert MatchingFields(sub, q) == sub;
      case Arr(a) =>
        ElementsIdempotent(a, q);
      case _ =>
    }
  }

  lemma {:induction false} ElementsIdempotent(a: seq<Json>, q: Query)
    ensures MatchingElems(MatchingElems(a, q), q) == MatchingElems(a, q)
    decreases a, 0
  {
    if a != [] {
      var init, x := a[..|a| - 1], Matching(a[|a| - 1], q);
      ElementsIdempotent(init, q);
      if x != Null {
        SearchIdempotent(a[|a| - 1], q);
        assert MatchingElems(a, q) == MatchingElems(init, q) + [x];
        var hits := MatchingElems(init, q);
        assert (hits + [x])[..|hits|] == hits;
        assert MatchingElems(hits + [x], q) == MatchingElems(hits, q) + [Matching(x, q)];
      }
    }
  }

  // ---------- single values ----------

  /** A text is found iff its lower-cased form holds the query, a number or a truth value iff the
      lower-cased form of its printed one does; it is returned as it was. */
  lemma FoundIgnoringCase(v: Json, q: Query)
    requires v.Str? || v.Num? || v.Bool?
    ensures Matching(v, q)
      == if Within(q.text, q.lower(if v.Str? then v.s else q.fmt(v))) then v else Null
  {
    ContainsIffWithin(q.lower(if v.Str? then v.s else q.fmt(v)), q.text);
  }
}
