/** Decoded JSON values, and the steps and paths that address positions inside them.
    Maps and slices are handled uniformly: a container `Has` a child at some steps. */
module JsonTree {

  datatype Option<+T> = None | Some(value: T)

  datatype Result<+T> = Ok(value: T) | Err

  /** `int(v)` on a decoded JSON number: truncation toward zero. */
  function Truncate(n: real): (r: int)
    ensures n >= 0.0 ==> 0 <= r && r as real <= n < (r + 1) as real
    ensures n < 0.0 ==> r <= 0 && (r - 1) as real < n <= r as real
  {
    if n >= 0.0 then n.Floor else -((-n).Floor)
  }

  lemma TruncateInt(n: int)
    ensures Truncate(n as real) == n
  {
    assert (-(n as real)) == (-n) as real;
  }

  /** One step of a path: a map key or a list index. */
  datatype Step = Key(key: string) | Index(index: int)

  type Path = seq<Step>

  datatype Json =
    | Null
    | Bool(b: bool)
    | Num(n: real)
    | Str(s: string)
    | Arr(elems: seq<Json>)
    | Obj(fields: map<string, Json>)
  {
    predicate IsScalar() {
      !Arr? && !Obj?
    }

    /** There is a child at step `s`. */
    predicate Has(s: Step) {
      match this
      case Obj(m) => s.Key? && s.key in m
      case Arr(a) => s.Index? && 0 <= s.index < |a|
      case _ => false
    }

    function At(s: Step): Json
      requires Has(s)
    {
      if Obj? then fields[s.key] else elems[s.index]
    }

    /** This container with the child at `s` replaced, or added to a map. */
    function With(s: Step, v: Json): (r: Json)
      requires Has(s) || (Obj? && s.Key?)
      ensures forall t :: r.Has(t) <==> Has(t) || t == s
      ensures forall t :: r.Has(t) ==> r.At(t) == if t == s then v else At(t)
    {
      if Obj? then Obj(fields[s.key := v]) else Arr(elems[s.index := v])
    }

    /** The value found by following `q` from here, if every step exists. */
    function Lookup(q: Path): Option<Json>
      decreases |q|
    {
      if q == [] then Some(this)
      else if Has(q[0]) then At(q[0]).Lookup(q[1..])
      else None
    }
  }

  /** Following a path one step: into a map by key, into a list by an index within it, into nothing else. */
  lemma LookupStep(j: Json, s: Step, q: Path)
    ensures j.Lookup([s] + q) ==
      if j.Obj? && s.Key? && s.key in j.fields then j.fields[s.key].Lookup(q)
      else if j.Arr? && s.Index? && 0 <= s.index < |j.elems| then j.elems[s.index].Lookup(q)
      else None
  {
    assert ([s] + q)[1..] == q;
  }

  /** Same constructor, same scalar value, or the same steps to children. */
  ghost predicate SameShape(a: Json, b: Json) {
    if a.IsScalar() then a == b
    else (a.Obj? <==> b.Obj?) && !b.IsScalar() && forall s :: a.Has(s) <==> b.Has(s)
  }

  /** A container is determined by its shape and its children. */
  lemma Extensional(a: Json, b: Json)
    requires SameShape(a, b)
    requires forall s :: a.Has(s) ==> a.At(s) == b.At(s)
    ensures a == b
  {
    match a {
      case Obj(m) =>
        assert forall k :: k in m <==> a.Has(Key(k));
        assert forall k :: k in b.fields <==> b.Has(Key(k));
        forall k | k in m ensures m[k] == b.fields[k] {
          assert a.At(Key(k)) == m[k];
        }
        assert m == b.fields;
      case Arr(x) =>
        SameLength(x, b.elems);
        forall i | 0 <= i < |x| ensures x[i] == b.elems[i] {
          assert a.Has(Index(i)) && a.At(Index(i)) == x[i];
        }
        assert x == b.elems;
      case _ =>
    }
  }

  lemma SameLength(x: seq<Json>, y: seq<Json>)
    requires forall s :: Arr(x).Has(s) <==> Arr(y).Has(s)
    ensures |x| == |y|
  {
    var n := if |x| < |y| then |x| else |y|;
    assert Arr(x).Has(Index(n)) <==> Arr(y).Has(Index(n));
  }
}
