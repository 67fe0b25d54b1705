/** Attribute trees as the program holds them: maps and slices are objects that are shared by
    reference and overwritten in place (pkg/tools/state/redact.go). */
module RedactionHeap {
  import opened JsonTree
  import opened Redaction

  datatype Value = VNull | VBool(b: bool) | VNum(n: real) | VStr(s: string) | VRef(node: Node)

  datatype Content = MapC(fields: map<string, Value>) | SliceC(elems: seq<Value>)
  {
    predicate Has(s: Step) {
      match this
      case MapC(m) => s.Key? && s.key in m
      case SliceC(a) => s.Index? && 0 <= s.index < |a|
    }

    function At(s: Step): Value
      requires Has(s)
    {
      if MapC? then fields[s.key] else elems[s.index]
    }

    function With(s: Step, v: Value): (r: Content)
      requires Has(s) || (MapC? && s.Key?)
      ensures forall t :: r.Has(t) <==> Has(t) || t == s
      ensures forall t :: r.Has(t) ==> r.At(t) == if t == s then v else At(t)
    {
      if MapC? then MapC(fields[s.key := v]) else SliceC(elems[s.index := v])
    }
  }

  /** The JSON value a heap value stands for. */
  ghost function ModelOf(v: Value): Json
    reads if v.VRef? then {v.node} else {}
  {
    match v
    case VNull => Null
    case VBool(b) => Bool(b)
    case VNum(n) => Num(n)
    case VStr(s) => Str(s)
    case VRef(node) => node.model
  }

  /** The containers a value may reach. */
  ghost function Footprint(v: Value): set<Node>
    reads if v.VRef? then {v.node} else {}
  {
    if v.VRef? then v.node.repr else {}
  }

  ghost predicate ValidValue(v: Value)
    reads if v.VRef? then {v.node} + v.node.repr else {}
  {
    v.VRef? ==> v.node.Valid()
  }

  /** One map or slice. A valid node is the root of a tree: no two of its children share a container. */
  class Node {
    var content: Content
    ghost var repr: set<Node>
    ghost var model: Json

    ghost predicate Valid()
      reads this, repr
      decreases repr, 1
    {
      && this in repr
      && (content.MapC? ==> model.Obj?) && (content.SliceC? ==> model.Arr?)
      && (forall s :: content.Has(s) <==> model.Has(s))
      && (forall s | content.Has(s) :: Owns(content.At(s)) && ModelOf(content.At(s)) == model.At(s))
      && (forall s, t | content.Has(s) && content.Has(t) && s != t ::
            Apart(content.At(s), content.At(t)))
    }

    ghost predicate Owns(v: Value)
      requires this in repr
      reads this, repr
      decreases repr, 0
    {
      v.VRef? ==> v.node in repr && v.node.repr <= repr - {this} && v.node.Valid()
    }

    ghost predicate Apart(v: Value, w: Value)
      reads if v.VRef? then {v.node} else {}
      reads if w.VRef? then {w.node} else {}
    {
      Footprint(v) !! Footprint(w)
    }

    /** Everything valid needs, except that the model may be out of date at step `s`. */
    ghost predicate StaleAt(s: Step)
      reads this, repr
    {
      && this in repr && content.Has(s)
      && (content.MapC? ==> model.Obj?) && (content.SliceC? ==> model.Arr?)
      && (forall t :: content.Has(t) <==> model.Has(t))
      && (forall t | content.Has(t) :: Owns(content.At(t)) && (t != s ==> ModelOf(content.At(t)) == model.At(t)))
      && (forall t, u | content.Has(t) && content.Has(u) && t != u ::
            Apart(content.At(t), content.At(u)))
    }

    /** Brings the model up to date after the child at `s` was changed in place. */
    ghost method Refresh(s: Step)
      requires StaleAt(s)
      modifies this`model
      ensures Valid()
      ensures model == old(model).With(s, ModelOf(content.At(s)))
    {
      model := model.With(s, ModelOf(content.At(s)));
      forall t | content.Has(t) ensures Owns(content.At(t)) && ModelOf(content.At(t)) == model.At(t) {
        assert old(Owns(content.At(t)));
      }
    }

    constructor Map()
      ensures Valid() && fresh(repr)
      ensures content == MapC(map[]) && model == Obj(map[])
    {
      content, model, repr := MapC(map[]), Obj(map[]), {this};
    }

    constructor Slice(n: nat)
      ensures Valid() && fresh(repr)
      ensures content == SliceC(seq(n, _ => VNull)) && model == Arr(seq(n, _ => Null))
    {
      content, model, repr := SliceC(seq(n, _ => VNull)), Arr(seq(n, _ => Null)), {this};
      new;
      forall s | content.Has(s) ensures Owns(content.At(s)) && ModelOf(content.At(s)) == model.At(s) {
        assert content.At(s) == VNull && model.At(s) == Null;
      }
    }

    /** `c[key] = v` or `c[idx] = v`. */
    method Store(s: Step, v: Value)
      requires Valid() && (content.Has(s) || (content.MapC? && s.Key?))
      requires ValidValue(v) && Footprint(v) !! repr
      modifies this
      ensures Valid() && repr == old(repr) + old(Footprint(v))
      ensures content == old(content).With(s, v)
      ensures model == old(model).With(s, old(ModelOf(v)))
    {
      content, model, repr := content.With(s, v), model.With(s, ModelOf(v)), repr + Footprint(v);
      forall t | content.Has(t) ensures Owns(content.At(t)) && ModelOf(content.At(t)) == model.At(t) {
        assert t != s ==> old(Owns(content.At(t)));
      }
      forall t, u | content.Has(t) && content.Has(u) && t != u ensures Apart(content.At(t), content.At(u)) {
        assert t != s ==> old(Owns(content.At(t)));
        assert u != s ==> old(Owns(content.At(u)));
        if t != s && u != s {
          assert old(Apart(content.At(t), content.At(u)));
        }
      }
    }
  }

  lemma Child(c: Node, s: Step)
    requires c.Valid() && c.content.Has(s)
    ensures c.model.Has(s) && c.Owns(c.content.At(s))
    ensures ValidValue(c.content.At(s)) && ModelOf(c.content.At(s)) == c.model.At(s)
    ensures Footprint(c.content.At(s)) <= c.repr - {c}
  {
  }

  /** The in-place write: exactly the named position of the tree changes, and nothing outside it. */
  method SetAtPath(obj: Value, steps: Path)
    requires ValidValue(obj)
    modifies Footprint(obj)
    ensures ValidValue(obj) && Footprint(obj) == old(Footprint(obj))
    ensures ModelOf(obj) == SetAt(old(ModelOf(obj)), steps)
    decreases |steps|, 1
  {
    if |steps| == 0 || !obj.VRef? {
      return;
    }
    var last := |steps| == 1;
    var c := obj.node;
    match c.content {
      case MapC(m) =>
        if !steps[0].Key? {
          return;
        }
        var key := steps[0].key;
        if key !in m {
          return;
        }
        if last {
          c.Store(Key(key), VStr(REDACTED_SENSITIVE));
          return;
        }
        SetBelow(c, Key(key), steps[1..]);
      case SliceC(a) =>
        if !steps[0].Index? || steps[0].index < 0 || steps[0].index >= |a| {
          return;
        }
        var idx := steps[0].index;
        if last {
          c.Store(Index(idx), VStr(REDACTED_SENSITIVE));
          return;
        }
        SetBelow(c, Index(idx), steps[1..]);
    }
  }

  /** The descent of `SetAtPath` into one existing child. */
  method SetBelow(c: Node, s: Step, rest: Path)
    requires c.Valid() && c.content.Has(s)
    modifies c.repr
    ensures c.Valid() && c.repr == old(c.repr)
    ensures c.model == old(c.model).With(s, SetAt(old(c.model.At(s)), rest))
    decreases |rest|, 2
  {
    var child := c.content.At(s);
    Child(c, s);
    SetAtPath(child, rest);
    forall t | c.content.Has(t)
      ensures c.Owns(c.content.At(t)) && Footprint(c.content.At(t)) == old(Footprint(c.content.At(t)))
      ensures t != s ==> ModelOf(c.content.At(t)) == c.model.At(t)
    {
      var w := c.content.At(t);
      assert old(c.Owns(w));
      if t != s && w.VRef? {
        assert old(c.Apart(w, child));
        assert old(w.node.Valid());
      }
    }
    forall t, u | c.content.Has(t) && c.content.Has(u) && t != u
      ensures c.Apart(c.content.At(t), c.content.At(u))
    {
      assert old(c.Apart(c.content.At(t), c.content.At(u)));
    }
    c.Refresh(s);
  }

  /** `deepCopyMap` below the root: a structural copy that shares no container with its source. */
  method DeepCopyValue(v: Value) returns (r: Value)
    requires ValidValue(v)
    ensures ValidValue(r) && fresh(Footprint(r))
    ensures ModelOf(r) == ModelOf(v)
    decreases ModelOf(v), 1
  {
    if !v.VRef? {
      return v;
    }
    var out;
    if v.node.content.MapC? {
      out := CopyFields(v.node);
    } else {
      out := CopyElems(v.node);
    }
    r := VRef(out);
  }

  method CopyFields(node: Node) returns (out: Node)
    requires node.Valid() && node.content.MapC?
    ensures out.Valid() && fresh(out.repr) && out.model == node.model
    decreases node.model, 0
  {
    ghost var source := node.model;
    var m := node.content.fields;
    out := new Node.Map();
    var keys := m.Keys;
    while keys != {}
      invariant keys <= m.Keys
      invariant out.Valid() && fresh(out.repr) && out.content.MapC?
      invariant forall s :: out.model.Has(s) <==> source.Has(s) && s.key !in keys
      invariant forall s :: out.model.Has(s) ==> out.model.At(s) == source.At(s)
    {
      var k :| k in keys;
      Child(node, Key(k));
      var e := DeepCopyValue(m[k]);
      out.Store(Key(k), e);
      keys := keys - {k};
    }
    Extensional(out.model, source);
  }

  method CopyElems(node: Node) returns (out: Node)
    requires node.Valid() && node.content.SliceC?
    ensures out.Valid() && fresh(out.repr) && out.model == node.model
    decreases node.model, 0
  {
    ghost var source := node.model;
    var a := node.content.elems;
    out := new Node.Slice(|a|);
    for i := 0 to |a|
      invariant out.Valid() && fresh(out.repr) && out.content.SliceC?
      invariant forall s :: out.model.Has(s) <==> source.Has(s)
      invariant forall s :: out.model.Has(s) && s.index < i ==> out.model.At(s) == source.At(s)
    {
      Child(node, Index(i));
      var e := DeepCopyValue(a[i]);
      out.Store(Index(i), e);
    }
    Extensional(out.model, source);
  }

  /** A nil map stays nil; otherwise the copy succeeds or fails as a whole. */
  method DeepCopyMap(m: Node?, marshals: bool) returns (r: Result<Node?>)
    requires m != null ==> m.Valid() && m.model.Obj?
    ensures r.Ok? <==> m == null || marshals
    ensures r.Ok? ==> (r.value == null <==> m == null)
    ensures r.Ok? && m != null ==> r.value.Valid() && fresh(r.value.repr) && r.value.model == m.model
  {
    if m == null {
      return Ok(null);
    }
    if !marshals {
      return Err;
    }
    var copy := DeepCopyValue(VRef(m));
    r := Ok(copy.node);
  }

  /** A fresh copy of the attributes with every listed position overwritten. The source is only read. */
  method RedactSensitiveAttrs(attrs: Node?, sensitive: seq<Json>, fmt: Json -> string, marshals: bool)
    returns (r: Result<Node?>)
    requires attrs != null ==> attrs.Valid() && attrs.model.Obj?
    ensures r.Ok? <==> attrs == null || marshals
    ensures r.Ok? ==> (r.value == null <==> attrs == null)
    ensures r.Ok? && attrs != null ==>
      && r.value.Valid() && fresh(r.value.repr)
      && r.value.model == RedactManifest(attrs.model, SensitivePaths(sensitive, fmt))
  {
    r := DeepCopyMap(attrs, marshals);
    if r.Err? || r.value == null {
      return;
    }
    var result := r.value;
    ghost var paths := SensitivePaths(sensitive, fmt);
    if |sensitive| == 0 || result.content == MapC(map[]) {
      assert forall s :: !Obj(map[]).Has(s);
      if |sensitive| != 0 {
        assert forall s :: result.content.Has(s) <==> result.model.Has(s);
        Extensional(result.model, Obj(map[]));
      }
      ManifestKeepsShape(result.model, paths);
      return;
    }
    for i := 0 to |sensitive|
      invariant result.Valid() && fresh(result.repr)
      invariant result.model == RedactManifest(attrs.model, paths[..i])
    {
      assert paths[..i + 1][..i] == paths[..i];
      var steps := PathSteps(sensitive[i], fmt);
      if |steps| > 0 {
        SetAtPath(VRef(result), steps);
      }
    }
    assert paths[..|sensitive|] == paths;
  }

  /** A rebuilt map: the input may be nil, the output never is. */
  method ApplyPatternRedaction(attrs: Node?, pat: string -> bool) returns (out: Node)
    requires attrs != null ==> attrs.Valid() && attrs.model.Obj?
    ensures out.Valid() && fresh(out.repr)
    ensures out.model == RedactPattern(if attrs == null then Obj(map[]) else attrs.model, pat)
    decreases if attrs == null then Null else attrs.model, 0
  {
    out := new Node.Map();
    if attrs == null {
      return;
    }
    ghost var source, target := attrs.model, RedactPattern(attrs.model, pat);
    PatternChildren(source, pat);
    assert attrs.content.MapC?;
    var m := attrs.content.fields;
    var keys := m.Keys;
    while keys != {}
      invariant keys <= m.Keys
      invariant out.Valid() && fresh(out.repr) && out.content.MapC?
      invariant forall s :: out.model.Has(s) <==> source.Has(s) && s.key !in keys
      invariant forall s :: out.model.Has(s) ==> out.model.At(s) == target.At(s)
    {
      var k :| k in keys;
      Child(attrs, Key(k));
      var v := RedactField(k, m[k], pat);
      out.Store(Key(k), v);
      keys := keys - {k};
    }
    Extensional(out.model, target);
  }

  /** The entry under key `k`: a manifest marker keeps its label, a matching key is masked. */
  method RedactField(k: string, v: Value, pat: string -> bool) returns (r: Value)
    requires ValidValue(v)
    ensures ValidValue(r) && fresh(Footprint(r))
    ensures ModelOf(r) == RedactEntry(k, ModelOf(v), pat)
    decreases ModelOf(v), 2
  {
    if v == VStr(REDACTED_SENSITIVE) {
      r := v;
    } else if pat(k) {
      r := VStr(REDACTED_PATTERN);
    } else {
      r := RedactValue(v, pat);
    }
  }

  method RedactValue(v: Value, pat: string -> bool) returns (r: Value)
    requires ValidValue(v)
    ensures ValidValue(r) && fresh(Footprint(r))
    ensures ModelOf(r) == RedactPattern(ModelOf(v), pat)
    decreases ModelOf(v), 1
  {
    if !v.VRef? {
      return v;
    }
    if v.node.content.MapC? {
      var out := ApplyPatternRedaction(v.node, pat);
      return VRef(out);
    }
    ghost var source, target := v.node.model, RedactPattern(v.node.model, pat);
    PatternChildren(source, pat);
    var a := v.node.content.elems;
    var arr := new Node.Slice(|a|);
    for i := 0 to |a|
      invariant arr.Valid() && fresh(arr.repr) && arr.content.SliceC?
      invariant forall s :: arr.model.Has(s) <==> source.Has(s)
      invariant forall s :: arr.model.Has(s) && s.index < i ==> arr.model.At(s) == target.At(s)
    {
      Child(v.node, Index(i));
      var e := RedactValue(a[i], pat);
      arr.Store(Index(i), e);
    }
    Extensional(arr.model, target);
    r := VRef(arr);
  }
}
