/** Flattening a state into redacted resources (pkg/tools/state/resources.go, ExtractResources). */
module Resources {
  import opened JsonTree
  import opened Sequences
  import opened Redaction
  import opened RedactionHeap
  import opened Address

  /** Attributes are heap maps in the program and JSON values in the specification. */
  datatype StateInstance<+A> = StateInstance(
    indexKey: Json, attributes: A, sensitiveAttributes: seq<Json>, dependencies: seq<string>)

  datatype StateResource<+A> = StateResource(
    mode: string, typ: string, name: string, mod: string, provider: string, instances: seq<StateInstance<A>>)

  datatype ExtractedResource<+A> = ExtractedResource(
    address: string, typ: string, name: string, mod: string, mode: string, provider: string,
    attributes: A, sensitiveAttributes: seq<Json>, dependencies: seq<string>)

  /** The operator's pattern (if any), `%v` printing, and which instances can be copied through JSON. */
  datatype Config = Config(pattern: Option<string -> bool>, fmt: Json -> string, marshals: (nat, nat) -> bool)
  {
    function Pattern(): string -> bool {
      if pattern.Some? then pattern.value else (_ => false)
    }
  }

  const PLACEHOLDER := Obj(map["_redaction_error" := Str("[REDACTED - could not safely process attributes]")])

  // ---------- specification ----------

  function RedactAttributes(attrs: Option<Json>, sensitive: seq<Json>, cfg: Config, marshals: bool): Option<Json> {
    if attrs.Some? && !marshals then Some(PLACEHOLDER)
    else
      var copy := if attrs.None? then None else Some(RedactManifest(attrs.value, SensitivePaths(sensitive, cfg.fmt)));
      if cfg.pattern.None? then copy
      else Some(RedactPattern(if copy.None? then Obj(map[]) else copy.value, cfg.pattern.value))
  }

  function ExtractInstance<A, B>(res: StateResource<A>, inst: StateInstance<A>, attrs: B, fmt: Json -> string)
    : ExtractedResource<B>
  {
    ExtractedResource(
      BuildAddress(res.mod, res.mode, res.typ, res.name, inst.indexKey, fmt),
      res.typ, res.name, if res.mod == "" then "(root)" else res.mod, res.mode, res.provider,
      attrs, inst.sensitiveAttributes, inst.dependencies)
  }

  function ExtractOne(res: StateResource<Option<Json>>, i: nat, j: nat, cfg: Config): ExtractedResource<Option<Json>>
    requires j < |res.instances|
  {
    var inst := res.instances[j];
    var attrs := RedactAttributes(inst.attributes, inst.sensitiveAttributes, cfg, cfg.marshals(i, j));
    ExtractInstance(res, inst, attrs, cfg.fmt)
  }

  function ExtractUpTo(res: StateResource<Option<Json>>, i: nat, n: nat, cfg: Config)
    : (r: seq<ExtractedResource<Option<Json>>>)
    requires n <= |res.instances|
    ensures |r| == n
  {
    seq(n, j requires 0 <= j < n => ExtractOne(res, i, j, cfg))
  }

  /** The resources extracted from block `i`. */
  function Block(rs: seq<StateResource<Option<Json>>>, i: nat, cfg: Config): (r: seq<ExtractedResource<Option<Json>>>)
    requires i < |rs|
    ensures |r| == |rs[i].instances|
  {
    ExtractUpTo(rs[i], i, |rs[i].instances|, cfg)
  }

  function Blocks(rs: seq<StateResource<Option<Json>>>, n: nat, cfg: Config)
    : (r: seq<seq<ExtractedResource<Option<Json>>>>)
    requires n <= |rs|
    ensures |r| == n
  {
    seq(n, i requires 0 <= i < n => Block(rs, i, cfg))
  }

  /** All instances of all resources, in state order. */
  function Extract(rs: seq<StateResource<Option<Json>>>, cfg: Config): seq<ExtractedResource<Option<Json>>> {
    Flatten(Blocks(rs, |rs|, cfg))
  }

  /** One resource per instance, in state order: metadata as in the state, the root module spelled
      out, and the attributes of that very instance redacted by its own paths. */
  lemma ExtractedInStateOrder(rs: seq<StateResource<Option<Json>>>, i: nat, j: nat, cfg: Config)
    requires i < |rs| && j < |rs[i].instances|
    ensures |Flatten(Blocks(rs, i, cfg))| + j < |Extract(rs, cfg)|
    ensures var e, r, inst := Extract(rs, cfg)[|Flatten(Blocks(rs, i, cfg))| + j], rs[i], rs[i].instances[j];
      && e.typ == r.typ && e.name == r.name && e.mode == r.mode && e.provider == r.provider
      && (if r.mod == "" then e.mod == "(root)" else e.mod == r.mod)
      && e.address == BuildAddress(r.mod, r.mode, r.typ, r.name, inst.indexKey, cfg.fmt)
      && e.sensitiveAttributes == inst.sensitiveAttributes && e.dependencies == inst.dependencies
      && e.attributes == RedactAttributes(inst.attributes, inst.sensitiveAttributes, cfg, cfg.marshals(i, j))
  {
    FlattenAt(Blocks(rs, |rs|, cfg), i, j);
    assert Blocks(rs, |rs|, cfg)[..i] == Blocks(rs, i, cfg);
    assert Block(rs, i, cfg)[j] == ExtractOne(rs[i], i, j, cfg);
  }

  // ---------- noninterference ----------

  /** Both nil, both masked by a failed copy, or alike; with a pattern, nil counts as the empty map. */
  ghost predicate AttributesAlike(x: Option<Json>, y: Option<Json>, sensitive: seq<Json>, cfg: Config, marshals: bool) {
    if x.Some? && y.Some? then
      !marshals || Alike(x.value, y.value, PathSet(SensitivePaths(sensitive, cfg.fmt)), cfg.Pattern())
    else if x.None? && y.None? then true
    else marshals && cfg.pattern.Some? && (if x.Some? then x else y) == Some(Obj(map[]))
  }

  lemma RedactAttributesIsRedact(x: Json, sensitive: seq<Json>, cfg: Config)
    ensures RedactAttributes(Some(x), sensitive, cfg, true)
      == Some(Redact(x, PathSet(SensitivePaths(sensitive, cfg.fmt)), cfg.Pattern()))
  {
    ManifestIsRedactAll(x, SensitivePaths(sensitive, cfg.fmt));
    if cfg.pattern.None? {
      PatternMatchingNothing(RedactAll(x, PathSet(SensitivePaths(sensitive, cfg.fmt))), cfg.Pattern());
    }
  }

  lemma NilAttributes(x: Json, sensitive: seq<Json>, cfg: Config)
    requires cfg.pattern.Some?
    ensures RedactAttributes(Some(x), sensitive, cfg, true) == RedactAttributes(None, sensitive, cfg, true)
      <==> x == Obj(map[])
  {
    var paths := SensitivePaths(sensitive, cfg.fmt);
    var copy := RedactManifest(x, paths);
    ManifestKeepsShape(x, paths);
    PatternChildren(copy, cfg.pattern.value);
    PatternChildren(Obj(map[]), cfg.pattern.value);
    var out := RedactPattern(copy, cfg.pattern.value);
    assert forall s :: !Obj(map[]).Has(s);
    Extensional(RedactPattern(Obj(map[]), cfg.pattern.value), Obj(map[]));
    if out == Obj(map[]) {
      assert forall s :: x.Has(s) <==> out.Has(s);
      Extensional(x, Obj(map[]));
    }
  }

  lemma AttributesNoninterference(x: Option<Json>, y: Option<Json>, sensitive: seq<Json>, cfg: Config, marshals: bool)
    ensures AttributesAlike(x, y, sensitive, cfg, marshals) <==>
      RedactAttributes(x, sensitive, cfg, marshals) == RedactAttributes(y, sensitive, cfg, marshals)
  {
    if marshals && x.Some? {
      RedactAttributesIsRedact(x.value, sensitive, cfg);
    }
    if marshals && y.Some? {
      RedactAttributesIsRedact(y.value, sensitive, cfg);
    }
    if x.Some? && y.Some? {
      Noninterference(x.value, y.value, PathSet(SensitivePaths(sensitive, cfg.fmt)), cfg.Pattern());
    } else if marshals && cfg.pattern.Some? && x != y {
      NilAttributes(if x.Some? then x.value else y.value, sensitive, cfg);
    }
    PlaceholderIsNotEmpty(sensitive, cfg);
  }

  lemma PlaceholderIsNotEmpty(sensitive: seq<Json>, cfg: Config)
    ensures RedactAttributes(None, sensitive, cfg, false) != Some(PLACEHOLDER)
  {
    if cfg.pattern.Some? {
      PatternChildren(Obj(map[]), cfg.pattern.value);
      assert PLACEHOLDER.Has(Key("_redaction_error")) && !Obj(map[]).Has(Key("_redaction_error"));
    }
  }

  /** Two states with the same resources, metadata and sensitive paths, attributes aside. */
  ghost predicate SameSkeleton(a: StateResource<Option<Json>>, b: StateResource<Option<Json>>) {
    && a.(instances := []) == b.(instances := []) && |a.instances| == |b.instances|
    && forall j | 0 <= j < |a.instances| :: a.instances[j].(attributes := None) == b.instances[j].(attributes := None)
  }

  ghost predicate BlockAlike(a: StateResource<Option<Json>>, b: StateResource<Option<Json>>, i: nat, cfg: Config)
    requires SameSkeleton(a, b)
  {
    forall j | 0 <= j < |a.instances| ::
      AttributesAlike(a.instances[j].attributes, b.instances[j].attributes,
        a.instances[j].sensitiveAttributes, cfg, cfg.marshals(i, j))
  }

  lemma BlockNoninterference(a: StateResource<Option<Json>>, b: StateResource<Option<Json>>, i: nat, cfg: Config)
    requires SameSkeleton(a, b)
    ensures BlockAlike(a, b, i, cfg) <==>
      ExtractUpTo(a, i, |a.instances|, cfg) == ExtractUpTo(b, i, |b.instances|, cfg)
  {
    var x, y := ExtractUpTo(a, i, |a.instances|, cfg), ExtractUpTo(b, i, |b.instances|, cfg);
    forall j | 0 <= j < |a.instances|
      ensures a.instances[j].(attributes := None) == b.instances[j].(attributes := None)
      ensures x[j] == y[j] <==> AttributesAlike(a.instances[j].attributes, b.instances[j].attributes,
        a.instances[j].sensitiveAttributes, cfg, cfg.marshals(i, j))
    {
      AttributesNoninterference(a.instances[j].attributes, b.instances[j].attributes,
        a.instances[j].sensitiveAttributes, cfg, cfg.marshals(i, j));
      assert a.instances[j].(attributes := None) == b.instances[j].(attributes := None);
    }
    assert x == y <==> forall j | 0 <= j < |a.instances| :: x[j] == y[j];
  }

  /** What a client can be told about two such states is the same exactly when they are alike at
      every instance. Search, diff and lookup results are computed from this list alone. */
  lemma StateNoninterference(rs: seq<StateResource<Option<Json>>>, ss: seq<StateResource<Option<Json>>>, cfg: Config)
    requires |rs| == |ss| && forall i | 0 <= i < |rs| :: SameSkeleton(rs[i], ss[i])
    ensures Extract(rs, cfg) == Extract(ss, cfg) <==> forall i | 0 <= i < |rs| :: BlockAlike(rs[i], ss[i], i, cfg)
  {
    var xs, ys := Blocks(rs, |rs|, cfg), Blocks(ss, |ss|, cfg);
    forall i | 0 <= i < |rs| ensures |xs[i]| == |ys[i]| && (xs[i] == ys[i] <==> BlockAlike(rs[i], ss[i], i, cfg)) {
      BlockNoninterference(rs[i], ss[i], i, cfg);
    }
    FlattenEqual(xs, ys);
    assert xs == ys <==> forall i | 0 <= i < |rs| :: xs[i] == ys[i];
  }

  // ---------- the program's representation ----------

  ghost function AttributesModel(n: Node?): Option<Json>
    reads n
  {
    if n == null then None else Some(n.model)
  }

  ghost function InstanceModel(inst: StateInstance<Node?>): StateInstance<Option<Json>>
    reads inst.attributes
  {
    StateInstance(inst.indexKey, AttributesModel(inst.attributes), inst.sensitiveAttributes, inst.dependencies)
  }

  ghost function ResourceModel(res: StateResource<Node?>): StateResource<Option<Json>>
    reads *
  {
    StateResource(res.mode, res.typ, res.name, res.mod, res.provider,
      seq(|res.instances|, j requires 0 <= j < |res.instances| reads * => InstanceModel(res.instances[j])))
  }

  ghost function StateModel(rs: seq<StateResource<Node?>>): (r: seq<StateResource<Option<Json>>>)
    reads *
    ensures |r| == |rs|
  {
    seq(|rs|, i requires 0 <= i < |rs| reads * => ResourceModel(rs[i]))
  }

  ghost function ExtractedModel(e: ExtractedResource<Node?>): ExtractedResource<Option<Json>>
    reads e.attributes
  {
    ExtractedResource(e.address, e.typ, e.name, e.mod, e.mode, e.provider,
      AttributesModel(e.attributes), e.sensitiveAttributes, e.dependencies)
  }

  ghost predicate ValidAttributes(n: Node?)
    reads n, if n != null then n.repr else {}
  {
    n != null ==> n.Valid() && n.model.Obj?
  }

  ghost predicate ValidResource(res: StateResource<Node?>)
    reads *
  {
    forall j | 0 <= j < |res.instances| :: ValidAttributes(res.instances[j].attributes)
  }

  /** The redacted attributes of one instance, as fresh containers. */
  method RedactedAttributes(inst: StateInstance<Node?>, cfg: Config, marshals: bool) returns (attrs: Node?)
    requires ValidAttributes(inst.attributes)
    ensures ValidAttributes(attrs) && (attrs != null ==> fresh(attrs.repr))
    ensures AttributesModel(attrs)
      == RedactAttributes(AttributesModel(inst.attributes), inst.sensitiveAttributes, cfg, marshals)
  {
    var r := RedactSensitiveAttrs(inst.attributes, inst.sensitiveAttributes, cfg.fmt, marshals);
    if r.Err? {
      attrs := new Node.Map();
      attrs.Store(Key("_redaction_error"), VStr("[REDACTED - could not safely process attributes]"));
      return;
    }
    attrs := r.value;
    if attrs != null {
      ManifestKeepsShape(inst.attributes.model, SensitivePaths(inst.sensitiveAttributes, cfg.fmt));
    }
    if cfg.pattern.Some? {
      PatternChildren(if attrs == null then Obj(map[]) else attrs.model, cfg.pattern.value);
      attrs := ApplyPatternRedaction(attrs, cfg.pattern.value);
    }
  }

  /** Extracted resources stand for `spec`, element by element. */
  ghost predicate Represents(out: seq<ExtractedResource<Node?>>, spec: seq<ExtractedResource<Option<Json>>>)
    reads *
  {
    && |out| == |spec|
    && forall h | 0 <= h < |out| :: ValidAttributes(out[h].attributes) && ExtractedModel(out[h]) == spec[h]
  }

  lemma RepresentsNext(
      out: seq<ExtractedResource<Node?>>, spec: seq<ExtractedResource<Option<Json>>>,
      e: ExtractedResource<Node?>, x: ExtractedResource<Option<Json>>)
    requires Represents(out, spec) && ValidAttributes(e.attributes) && ExtractedModel(e) == x
    ensures Represents(out + [e], spec + [x])
  {
  }

  twostate lemma ResourceStays(res: StateResource<Node?>)
    requires old(ValidResource(res))
    requires forall j | 0 <= j < |res.instances| && res.instances[j].attributes != null ::
      unchanged(res.instances[j].attributes) && forall n | n in old(res.instances[j].attributes.repr) :: unchanged(n)
    ensures ValidResource(res) && ResourceModel(res) == old(ResourceModel(res))
  {
    forall j | 0 <= j < |res.instances| ensures ValidAttributes(res.instances[j].attributes) {
      assert old(ValidAttributes(res.instances[j].attributes));
    }
    assert ResourceModel(res).instances == old(ResourceModel(res)).instances;
  }

  method ExtractNext(res: StateResource<Node?>, i: nat, j: nat, cfg: Config) returns (e: ExtractedResource<Node?>)
    requires ValidResource(res) && j < |res.instances|
    ensures ValidAttributes(e.attributes) && (e.attributes != null ==> fresh(e.attributes.repr))
    ensures ExtractedModel(e) == ExtractOne(ResourceModel(res), i, j, cfg)
  {
    var inst := res.instances[j];
    var attrs := RedactedAttributes(inst, cfg, cfg.marshals(i, j));
    e := ExtractInstance(res, inst, attrs, cfg.fmt);
  }

  /** Appends the instances of one resource block. */
  method ExtractBlock(
      prefix: seq<ExtractedResource<Node?>>, ghost spec: seq<ExtractedResource<Option<Json>>>,
      res: StateResource<Node?>, i: nat, cfg: Config)
    returns (out: seq<ExtractedResource<Node?>>)
    requires Represents(prefix, spec) && ValidResource(res)
    ensures Represents(out, spec + ExtractUpTo(old(ResourceModel(res)), i, |res.instances|, cfg))
    ensures prefix <= out
    ensures forall h | |prefix| <= h < |out| && out[h].attributes != null :: fresh(out[h].attributes.repr)
  {
    out := prefix;
    ghost var model := ResourceModel(res);
    for j := 0 to |res.instances|
      invariant Represents(out, spec + ExtractUpTo(model, i, j, cfg))
      invariant prefix <= out
      invariant forall h | |prefix| <= h < |out| && out[h].attributes != null :: fresh(out[h].attributes.repr)
    {
      ResourceStays(res);
      var e := ExtractNext(res, i, j, cfg);
      ghost var before := spec + ExtractUpTo(model, i, j, cfg);
      RepresentsNext(out, before, e, ExtractOne(model, i, j, cfg));
      assert spec + ExtractUpTo(model, i, j + 1, cfg) == before + [ExtractOne(model, i, j, cfg)];
      out := out + [e];
    }
  }

  /** Nothing that existed before the call is changed, and every returned map and slice is new. */
  method ExtractResources(rs: seq<StateResource<Node?>>, cfg: Config) returns (out: seq<ExtractedResource<Node?>>)
    requires forall i | 0 <= i < |rs| :: ValidResource(rs[i])
    ensures Represents(out, Extract(old(StateModel(rs)), cfg))
    ensures forall h | 0 <= h < |out| && out[h].attributes != null :: fresh(out[h].attributes.repr)
    ensures forall i | 0 <= i < |rs| :: ValidResource(rs[i]) && ResourceModel(rs[i]) == old(ResourceModel(rs[i]))
  {
    out := [];
    ghost var model := StateModel(rs);
    for i := 0 to |rs|
      invariant Represents(out, Flatten(Blocks(model, i, cfg)))
      invariant forall h | 0 <= h < |out| && out[h].attributes != null :: fresh(out[h].attributes.repr)
    {
      ResourceStays(rs[i]);
      out := ExtractBlock(out, Flatten(Blocks(model, i, cfg)), rs[i], i, cfg);
      assert Blocks(model, i + 1, cfg) == Blocks(model, i, cfg) + [Block(model, i, cfg)];
    }
    forall i | 0 <= i < |rs| ensures ValidResource(rs[i]) && ResourceModel(rs[i]) == old(ResourceModel(rs[i])) {
      ResourceStays(rs[i]);
    }
  }
}
