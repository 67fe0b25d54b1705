/** Manifest and pattern redaction of attribute trees (pkg/tools/state/redact.go). */
module Redaction {
  import opened JsonTree

  const REDACTED_SENSITIVE := "[REDACTED - sensitive]"
  const REDACTED_PATTERN := "[REDACTED - pattern match]"

  // ---------- paths of the manifest ----------

  const UNMATCHED := "\U{0000}unmatched:"

  /** One step of a cty path. A shape that is not understood becomes a key no attribute should have. */
  function NormalizeStep(seg: Json, fmt: Json -> string): Step {
    match seg
    case Str(s) => Key(s)
    case Num(n) => Index(Truncate(n))
    case Obj(m) =>
      if "value" in m && m["value"].Str? then Key(m["value"].s)
      else if "value" in m && m["value"].Num? then Index(Truncate(m["value"].n))
      else Key(UNMATCHED + fmt(seg))
    case _ => Key(UNMATCHED + fmt(seg))
  }

  /** One entry of sensitive_attributes: a legacy flat key, or a list of steps. */
  function PathSteps(raw: Json, fmt: Json -> string): Path {
    match raw
    case Str(s) => if s == "" then [] else [Key(s)]
    case Arr(segs) => seq(|segs|, i requires 0 <= i < |segs| => NormalizeStep(segs[i], fmt))
    case _ => []
  }

  function SensitivePaths(raws: seq<Json>, fmt: Json -> string): (r: seq<Path>)
    ensures |r| == |raws|
  {
    seq(|raws|, i requires 0 <= i < |raws| => PathSteps(raws[i], fmt))
  }

  /** A path in the form described at `redactSensitiveAttrs`: each step an object with the bare key or index. */
  function EncodePath(p: Path): Json {
    Arr(seq(|p|, i requires 0 <= i < |p| => EncodeStep(p[i])))
  }

  function EncodeStep(s: Step): Json {
    match s
    case Key(k) => Obj(map["type" := Str("get_attr"), "value" := Str(k)])
    case Index(n) => Obj(map["type" := Str("index"), "value" := Num(n as real)])
  }

  /** Every path of that form is read back as written, and a legacy flat key as the path of that one key. */
  lemma PathRoundTrip(p: Path, fmt: Json -> string)
    ensures PathSteps(EncodePath(p), fmt) == p
    ensures forall k | k != "" :: PathSteps(Str(k), fmt) == PathSteps(EncodePath([Key(k)]), fmt)
  {
    forall i | 0 <= i < |p| ensures NormalizeStep(EncodeStep(p[i]), fmt) == p[i] {
      if p[i].Index? {
        TruncateInt(p[i].index);
      }
    }
  }

  // ---------- manifest redaction ----------

  /** The value-level effect of one in-place write along `p`. */
  function SetAt(j: Json, p: Path): Json
    decreases |p|
  {
    if p == [] || !j.Has(p[0]) then j
    else if |p| == 1 then j.With(p[0], Str(REDACTED_SENSITIVE))
    else j.With(p[0], SetAt(j.At(p[0]), p[1..]))
  }

  /** All writes, in list order. */
  function RedactManifest(j: Json, paths: seq<Path>): Json {
    if paths == [] then j
    else SetAt(RedactManifest(j, paths[..|paths| - 1]), paths[|paths| - 1])
  }

  lemma {:induction false} ManifestKeepsShape(j: Json, paths: seq<Path>)
    ensures SameShape(j, RedactManifest(j, paths))
    ensures j == Obj(map[]) ==> RedactManifest(j, paths) == j
  {
    if paths != [] {
      ManifestKeepsShape(j, paths[..|paths| - 1]);
    }
  }

  /** What is left of the paths in `P` below step `s`. */
  function Tails(P: set<Path>, s: Step): set<Path> {
    set p | p in P && p != [] && p[0] == s :: p[1..]
  }

  /** A write shows exactly when the path leads to a value that is not already the marker. */
  lemma {:induction false} SetAtEffect(j: Json, p: Path)
    requires p != []
    ensures SetAt(j, p) == j <==> j.Lookup(p).None? || j.Lookup(p).value == Str(REDACTED_SENSITIVE)
    decreases |p|
  {
    if j.Has(p[0]) {
      assert p[1..] == [] <==> |p| == 1;
      assert j.With(p[0], j.At(p[0])) == j by {
        Extensional(j.With(p[0], j.At(p[0])), j);
      }
      assert SetAt(j, p).At(p[0]) == if |p| == 1 then Str(REDACTED_SENSITIVE) else SetAt(j.At(p[0]), p[1..]);
      if |p| > 1 {
        SetAtEffect(j.At(p[0]), p[1..]);
      }
    }
  }

  /** A step of none of the understood shapes. */
  predicate Unparsable(seg: Json) {
    && !seg.Str? && !seg.Num?
    && !(seg.Obj? && "value" in seg.fields && (seg.fields["value"].Str? || seg.fields["value"].Num?))
  }

  /** A path with an unparsable step redacts nothing, unless the tree really has the sentinel key there. */
  lemma UnparsedStepRedactsNothing(j: Json, segs: seq<Json>, i: nat, fmt: Json -> string)
    requires i < |segs| && Unparsable(segs[i])
    ensures var p := PathSteps(Arr(segs), fmt);
      SetAt(j, p) != j ==> j.Lookup(p[..i]).Some? && j.Lookup(p[..i]).value.Has(Key(UNMATCHED + fmt(segs[i])))
  {
    var p := PathSteps(Arr(segs), fmt);
    SetAtEffect(j, p);
    if j.Lookup(p).Some? {
      LookupPrefix(j, p, i);
    }
  }

  /** A step whose value is itself an object holding the key or index and its type. */
  function WrappedStep(key: Json, keyType: string): Json {
    Obj(map["type" := Str("index"), "value" := Obj(map["value" := key, "type" := Str(keyType)])])
  }

  /** Such a step is not understood: a path that would lead through it into a list redacts nothing there,
      whatever index it names. */
  lemma WrappedIndexRedactsNothing(j: Json, segs: seq<Json>, i: nat, key: Json, keyType: string, fmt: Json -> string)
    requires i < |segs| && segs[i] == WrappedStep(key, keyType)
    requires var list := j.Lookup(PathSteps(Arr(segs), fmt)[..i]); list.Some? ==> list.value.Arr?
    ensures Unparsable(segs[i]) && SetAt(j, PathSteps(Arr(segs), fmt)) == j
  {
    UnparsedStepRedactsNothing(j, segs, i, fmt);
  }

  lemma {:induction false} LookupPrefix(j: Json, p: Path, i: nat)
    requires i < |p| && j.Lookup(p).Some?
    ensures j.Lookup(p[..i]).Some? && j.Lookup(p[..i]).value.Has(p[i])
    decreases |p|
  {
    if i > 0 {
      LookupPrefix(j.At(p[0]), p[1..], i - 1);
      assert p[..i][1..] == p[1..][..i - 1];
    }
  }

  /** Declarative form: every position named by a path of the set is masked at once. */
  function RedactAll(j: Json, P: set<Path>): Json
    decreases j, 0
  {
    match j
    case Obj(m) => Obj(map k | k in m :: Mask(m[k], Tails(P, Key(k))))
    case Arr(a) => Arr(seq(|a|, i requires 0 <= i < |a| => Mask(a[i], Tails(P, Index(i)))))
    case _ => j
  }

  function Mask(c: Json, T: set<Path>): Json
    decreases c, 1
  {
    if [] in T then Str(REDACTED_SENSITIVE) else RedactAll(c, T)
  }

  lemma RedactAllChildren(j: Json, P: set<Path>)
    ensures SameShape(j, RedactAll(j, P))
    ensures forall s :: j.Has(s) ==> RedactAll(j, P).At(s) == Mask(j.At(s), Tails(P, s))
  {
  }

  lemma TailsAdd(P: set<Path>, p: Path, s: Step)
    ensures Tails(P + {p}, s) == if p != [] && p[0] == s then Tails(P, s) + {p[1..]} else Tails(P, s)
  {
  }

  /** One more write is one more path in the set, whatever was written before. */
  lemma {:induction false} SetAtAddsPath(j: Json, P: set<Path>, p: Path)
    ensures SetAt(RedactAll(j, P), p) == RedactAll(j, P + {p})
    decreases |p|
  {
    var before, after := RedactAll(j, P), RedactAll(j, P + {p});
    RedactAllChildren(j, P);
    RedactAllChildren(j, P + {p});
    forall s | j.Has(s) ensures SetAt(before, p).Has(s) && SetAt(before, p).At(s) == after.At(s) {
      TailsAdd(P, p, s);
      if p != [] && p[0] == s {
        SetAtAddsPath(j.At(s), Tails(P, s), p[1..]);
      }
    }
    Extensional(SetAt(before, p), after);
  }

  ghost function PathSet(paths: seq<Path>): set<Path> {
    set i | 0 <= i < |paths| :: paths[i]
  }

  /** The sequence of in-place writes has the effect of masking the set of paths at once. */
  lemma {:induction false} ManifestIsRedactAll(j: Json, paths: seq<Path>)
    ensures RedactManifest(j, paths) == RedactAll(j, PathSet(paths))
  {
    if paths == [] {
      assert PathSet(paths) == {};
      NoPaths(j);
    } else {
      var init, p := paths[..|paths| - 1], paths[|paths| - 1];
      ManifestIsRedactAll(j, init);
      SetAtAddsPath(j, PathSet(init), p);
      PathSetAppend(init, p);
      assert init + [p] == paths;
    }
  }

  lemma PathSetAppend(init: seq<Path>, p: Path)
    ensures PathSet(init + [p]) == PathSet(init) + {p}
  {
    forall q | q in PathSet(init) + {p} ensures q in PathSet(init + [p]) {
      if q == p {
        assert (init + [p])[|init|] == p;
      } else {
        var i :| 0 <= i < |init| && init[i] == q;
        assert (init + [p])[i] == q;
      }
    }
  }

  lemma {:induction false} NoPaths(j: Json)
    ensures RedactAll(j, {}) == j
  {
    RedactAllChildren(j, {});
    forall s | j.Has(s) ensures RedactAll(j, {}).At(s) == j.At(s) {
      assert Tails({}, s) == {};
      NoPaths(j.At(s));
    }
    Extensional(RedactAll(j, {}), j);
  }

  /** The order of the manifest, repeats in it and overlaps between its paths do not matter. */
  lemma ManifestOrderIndependent(j: Json, ps: seq<Path>, qs: seq<Path>)
    requires forall p :: p != [] ==> (p in ps <==> p in qs)
    ensures RedactManifest(j, ps) == RedactManifest(j, qs)
  {
    ManifestIsRedactAll(j, ps);
    ManifestIsRedactAll(j, qs);
    forall p ensures (p in PathSet(ps) <==> p in ps) && (p in PathSet(qs) <==> p in qs) {
    }
    SameNonEmptyPaths(j, PathSet(ps), PathSet(qs));
  }

  lemma SameNonEmptyPaths(j: Json, P: set<Path>, Q: set<Path>)
    requires forall p :: p != [] ==> (p in P <==> p in Q)
    ensures RedactAll(j, P) == RedactAll(j, Q)
  {
    RedactAllChildren(j, P);
    RedactAllChildren(j, Q);
    forall s ensures Tails(P, s) == Tails(Q, s) {
    }
    Extensional(RedactAll(j, P), RedactAll(j, Q));
  }

  /** Redacting a redacted tree by any further list is redacting the original by both. */
  lemma {:induction false} ManifestComposes(j: Json, ps: seq<Path>, qs: seq<Path>)
    ensures RedactManifest(RedactManifest(j, ps), qs) == RedactManifest(j, ps + qs)
  {
    if qs == [] {
      assert ps + qs == ps;
    } else {
      var init, q := qs[..|qs| - 1], qs[|qs| - 1];
      ManifestComposes(j, ps, init);
      assert (ps + qs)[..|ps + qs| - 1] == ps + init;
    }
  }

  lemma ManifestIdempotent(j: Json, ps: seq<Path>)
    ensures RedactManifest(RedactManifest(j, ps), ps) == RedactManifest(j, ps)
  {
    ManifestComposes(j, ps, ps);
    ManifestOrderIndependent(j, ps + ps, ps);
  }

  // ---------- pattern redaction ----------

  function RedactPattern(j: Json, pat: string -> bool): Json
    decreases j, 0
  {
    match j
    case Obj(m) => Obj(map k | k in m :: RedactEntry(k, m[k], pat))
    case Arr(a) => Arr(seq(|a|, i requires 0 <= i < |a| => RedactPattern(a[i], pat)))
    case _ => j
  }

  function RedactEntry(k: string, v: Json, pat: string -> bool): Json
    decreases v, 1
  {
    if v == Str(REDACTED_SENSITIVE) then v
    else if pat(k) then Str(REDACTED_PATTERN)
    else RedactPattern(v, pat)
  }

  function PatternBelow(s: Step, v: Json, pat: string -> bool): Json {
    if s.Key? then RedactEntry(s.key, v, pat) else RedactPattern(v, pat)
  }

  lemma PatternChildren(j: Json, pat: string -> bool)
    ensures SameShape(j, RedactPattern(j, pat))
    ensures forall s | j.Has(s) :: RedactPattern(j, pat).At(s) == PatternBelow(s, j.At(s), pat)
  {
  }

  lemma {:induction false} PatternIdempotent(j: Json, pat: string -> bool)
    ensures RedactPattern(RedactPattern(j, pat), pat) == RedactPattern(j, pat)
  {
    var once := RedactPattern(j, pat);
    var twice := RedactPattern(once, pat);
    PatternChildren(j, pat);
    PatternChildren(once, pat);
    forall s | j.Has(s) ensures twice.At(s) == once.At(s) {
      PatternIdempotent(j.At(s), pat);
    }
    Extensional(twice, once);
  }

  /** A pattern that matches no key changes nothing, so "no pattern" needs no case of its own. */
  lemma {:induction false} PatternMatchingNothing(j: Json, pat: string -> bool)
    requires forall k :: !pat(k)
    ensures RedactPattern(j, pat) == j
  {
    PatternChildren(j, pat);
    forall s | j.Has(s) ensures RedactPattern(j, pat).At(s) == j.At(s) {
      PatternMatchingNothing(j.At(s), pat);
    }
    Extensional(RedactPattern(j, pat), j);
  }

  // ---------- both layers ----------

  function Redact(j: Json, P: set<Path>, pat: string -> bool): Json {
    RedactPattern(RedactAll(j, P), pat)
  }

  /** A step is masked when a listed path ends there or its key matches the pattern. */
  predicate MaskedStep(s: Step, T: set<Path>, pat: string -> bool) {
    [] in T || (s.Key? && pat(s.key))
  }

  function Label(c: Json, T: set<Path>): Json {
    Str(if [] in T || c == Str(REDACTED_SENSITIVE) then REDACTED_SENSITIVE else REDACTED_PATTERN)
  }

  function RedactBelow(s: Step, c: Json, T: set<Path>, pat: string -> bool): Json {
    if MaskedStep(s, T, pat) then Label(c, T) else Redact(c, T, pat)
  }

  lemma RedactChildren(j: Json, P: set<Path>, pat: string -> bool)
    ensures SameShape(j, Redact(j, P, pat))
    ensures forall s | j.Has(s) :: Redact(j, P, pat).At(s) == RedactBelow(s, j.At(s), Tails(P, s), pat)
  {
    RedactAllChildren(j, P);
    PatternChildren(RedactAll(j, P), pat);
    forall s | j.Has(s) ensures Redact(j, P, pat).At(s) == RedactBelow(s, j.At(s), Tails(P, s), pat) {
      RedactAllChildren(j.At(s), Tails(P, s));
    }
  }

  /** Position `i` of `q` is masked: the path up to it is listed, or its key matches. */
  predicate MaskedAt(P: set<Path>, pat: string -> bool, q: Path, i: nat)
    requires i < |q|
  {
    q[..i + 1] in P || (q[i].Key? && pat(q[i].key))
  }

  lemma MaskedAtTail(P: set<Path>, pat: string -> bool, q: Path, i: nat)
    requires i + 1 < |q|
    ensures MaskedAt(P, pat, q, i + 1) <==> MaskedAt(Tails(P, q[0]), pat, q[1..], i)
  {
    var u := q[..i + 2];
    assert u[1..] == q[1..][..i + 1] && u[0] == q[0];
    if q[1..][..i + 1] in Tails(P, q[0]) {
      var p :| p in P && p != [] && p[0] == q[0] && p[1..] == q[1..][..i + 1];
      assert p == [p[0]] + p[1..] == u;
    }
  }

  /** A path that crosses no masked position looks up the same scalar or container shape as before. */
  lemma {:induction false} UnmaskedLookup(j: Json, P: set<Path>, pat: string -> bool, q: Path)
    requires forall i: nat :: i < |q| ==> !MaskedAt(P, pat, q, i)
    ensures match j.Lookup(q)
      case None => Redact(j, P, pat).Lookup(q) == None
      case Some(v) => Redact(j, P, pat).Lookup(q).Some? && SameShape(v, Redact(j, P, pat).Lookup(q).value)
    decreases |q|
  {
    RedactChildren(j, P, pat);
    if q != [] && j.Has(q[0]) {
      assert !MaskedAt(P, pat, q, 0);
      TailsOfHead(P, q[0]);
      assert q[..1] == [q[0]];
      forall i: nat | i < |q[1..]| ensures !MaskedAt(Tails(P, q[0]), pat, q[1..], i) {
        MaskedAtTail(P, pat, q, i);
      }
      UnmaskedLookup(j.At(q[0]), Tails(P, q[0]), pat, q[1..]);
    }
  }

  lemma TailsOfHead(P: set<Path>, s: Step)
    ensures [] in Tails(P, s) <==> [s] in P
  {
    if [] in Tails(P, s) {
      var p :| p in P && p != [] && p[0] == s && p[1..] == [];
      assert p == [s];
    }
    assert [s][1..] == [];
  }

  /** The first masked position on a path holds one of the two markers, with nothing below it. */
  lemma {:induction false} MaskedLookup(j: Json, P: set<Path>, pat: string -> bool, q: Path, i: nat)
    requires i < |q| && MaskedAt(P, pat, q, i)
    requires forall h: nat :: h < i ==> !MaskedAt(P, pat, q, h)
    ensures Redact(j, P, pat).Lookup(q) ==
      if i + 1 < |q| || j.Lookup(q).None? then None
      else if q in P || j.Lookup(q).value == Str(REDACTED_SENSITIVE) then Some(Str(REDACTED_SENSITIVE))
      else Some(Str(REDACTED_PATTERN))
    decreases |q|
  {
    RedactChildren(j, P, pat);
    TailsOfHead(P, q[0]);
    assert q[..1] == [q[0]];
    assert q[..|q|] == q;
    if j.Has(q[0]) {
      if i == 0 {
        assert MaskedStep(q[0], Tails(P, q[0]), pat);
        if |q| == 1 {
          assert q[1..] == [];
        }
      } else {
        assert !MaskedAt(P, pat, q, 0);
        MaskedAtTail(P, pat, q, i - 1);
        forall h: nat | h < i - 1 ensures !MaskedAt(Tails(P, q[0]), pat, q[1..], h) {
          MaskedAtTail(P, pat, q, h);
        }
        MaskedLookup(j.At(q[0]), Tails(P, q[0]), pat, q[1..], i - 1);
        if |q| == i + 1 {
          ListedTail(P, q);
        }
      }
    }
  }

  lemma ListedTail(P: set<Path>, q: Path)
    requires q != []
    ensures q in P <==> q[1..] in Tails(P, q[0])
  {
    if q[1..] in Tails(P, q[0]) {
      var p :| p in P && p != [] && p[0] == q[0] && p[1..] == q[1..];
      assert p == [p[0]] + p[1..] == [q[0]] + q[1..] == q;
    }
  }

  // ---------- what a listed path hides ----------

  predicate SpellsBare(v: Json, s: Step) {
    || (v.Str? && s == Key(v.s))
    || (v.Num? && s.Index? &&
        if v.n >= 0.0 then s.index >= 0 && s.index as real <= v.n < s.index as real + 1.0
        else s.index <= 0 && s.index as real - 1.0 < v.n <= s.index as real)
  }

  /** The step as a bare key or number, or as an object whose "value" is one, whatever else the object says. */
  predicate Spells(seg: Json, s: Step) {
    SpellsBare(seg, s) || (seg.Obj? && "value" in seg.fields && SpellsBare(seg.fields["value"], s))
  }

  lemma SpelledSteps(segs: seq<Json>, p: Path, fmt: Json -> string)
    requires |segs| == |p| && forall i | 0 <= i < |p| :: Spells(segs[i], p[i])
    ensures PathSteps(Arr(segs), fmt) == p
  {
    forall i | 0 <= i < |p| ensures NormalizeStep(segs[i], fmt) == p[i] {
      assert Spells(segs[i], p[i]);
    }
  }

  lemma {:induction false} SetAtLookup(j: Json, p: Path)
    requires p != [] && j.Lookup(p).Some?
    ensures SetAt(j, p).Lookup(p) == Some(Str(REDACTED_SENSITIVE))
    decreases |p|
  {
    if |p| > 1 {
      SetAtLookup(j.At(p[0]), p[1..]);
    } else {
      assert p[1..] == [];
    }
  }

  lemma OneWrite(j: Json, raw: Json, fmt: Json -> string)
    ensures RedactManifest(j, SensitivePaths([raw], fmt)) == SetAt(j, PathSteps(raw, fmt))
  {
    var paths := SensitivePaths([raw], fmt);
    assert paths[..0] == [] && paths[0] == PathSteps(raw, fmt);
  }

  /** A value listed in any of these spellings is masked, and so is a top-level value listed by its key. */
  lemma ListedIsMasked(j: Json, segs: seq<Json>, p: Path, fmt: Json -> string)
    requires p != [] && |segs| == |p| && forall i | 0 <= i < |p| :: Spells(segs[i], p[i])
    requires j.Lookup(p).Some?
    ensures RedactManifest(j, SensitivePaths([Arr(segs)], fmt)).Lookup(p) == Some(Str("[REDACTED - sensitive]"))
    ensures |p| == 1 && p[0].Key? && p[0].key != "" ==>
      RedactManifest(j, SensitivePaths([Str(p[0].key)], fmt)) == RedactManifest(j, SensitivePaths([Arr(segs)], fmt))
  {
    SpelledSteps(segs, p, fmt);
    OneWrite(j, Arr(segs), fmt);
    SetAtLookup(j, p);
    if p[0].Key? {
      OneWrite(j, Str(p[0].key), fmt);
      assert |p| == 1 ==> p == [Key(p[0].key)];
    }
  }

  /** An entry that names no step masks nothing: an empty key, an empty list, or neither text nor list. */
  lemma NoStepsMaskNothing(j: Json, raw: Json, fmt: Json -> string)
    requires if raw.Str? then raw.s == "" else raw.Arr? ==> raw.elems == []
    ensures RedactManifest(j, SensitivePaths([raw], fmt)) == j
  {
    OneWrite(j, raw, fmt);
  }

  lemma MaskedOnPrefix(P: set<Path>, pat: string -> bool, q: Path, n: nat, i: nat)
    requires i < n <= |q|
    ensures MaskedAt(P, pat, q[..n], i) <==> MaskedAt(P, pat, q, i)
  {
    assert q[..n][..i + 1] == q[..i + 1];
  }

  lemma FirstMasked(P: set<Path>, pat: string -> bool, q: Path, last: nat) returns (i: nat)
    requires last < |q| && MaskedAt(P, pat, q, last)
    ensures i <= last && MaskedAt(P, pat, q, i) && forall h: nat :: h < i ==> !MaskedAt(P, pat, q, h)
  {
    i := 0;
    while !MaskedAt(P, pat, q, i)
      invariant i <= last && forall h: nat :: h < i ==> !MaskedAt(P, pat, q, h)
      decreases last - i
    {
      i := i + 1;
    }
  }

  /** Among any other listed paths and under any pattern, nothing of a listed value is left: on the way to
      it, or at it, stands one of the two markers. */
  lemma ListedIsHidden(j: Json, raws: seq<Json>, h: nat, p: Path, fmt: Json -> string, pat: string -> bool)
    returns (n: nat)
    requires h < |raws| && raws[h].Arr? && |raws[h].elems| == |p| && p != []
    requires forall i | 0 <= i < |p| :: Spells(raws[h].elems[i], p[i])
    requires j.Lookup(p).Some?
    ensures 0 < n <= |p|
    ensures Redact(j, PathSet(SensitivePaths(raws, fmt)), pat).Lookup(p[..n])
      in {Some(Str("[REDACTED - sensitive]")), Some(Str("[REDACTED - pattern match]"))}
  {
    var P := PathSet(SensitivePaths(raws, fmt));
    SpelledSteps(raws[h].elems, p, fmt);
    assert SensitivePaths(raws, fmt)[h] == p && p[..|p|] == p;
    var i := FirstMasked(P, pat, p, |p| - 1);
    n := i + 1;
    if n < |p| {
      LookupPrefix(j, p, n);
    }
    forall g: nat | g <= i ensures MaskedAt(P, pat, p[..n], g) <==> MaskedAt(P, pat, p, g) {
      MaskedOnPrefix(P, pat, p, n, g);
    }
    MaskedLookup(j, P, pat, p[..n], i);
  }

  // ---------- noninterference ----------

  /** The trees differ only in values at listed paths or under matching keys, where a literal
      manifest marker corresponds only to itself. */
  ghost predicate Alike(a: Json, b: Json, P: set<Path>, pat: string -> bool)
    decreases a, 0
  {
    SameShape(a, b) && forall s | a.Has(s) :: AlikeBelow(s, a.At(s), b.At(s), Tails(P, s), pat)
  }

  ghost predicate AlikeBelow(s: Step, x: Json, y: Json, T: set<Path>, pat: string -> bool)
    decreases x, 1
  {
    if [] in T then true
    else if s.Key? && pat(s.key) then x == Str(REDACTED_SENSITIVE) <==> y == Str(REDACTED_SENSITIVE)
    else Alike(x, y, T, pat)
  }

  /** Two trees are redacted to the same tree exactly when they are alike: nothing about a hidden
      value shows, and everything about a visible one does. */
  lemma {:induction false} Noninterference(a: Json, b: Json, P: set<Path>, pat: string -> bool)
    ensures Alike(a, b, P, pat) <==> Redact(a, P, pat) == Redact(b, P, pat)
    decreases a, 0
  {
    RedactChildren(a, P, pat);
    RedactChildren(b, P, pat);
    if SameShape(a, b) {
      forall s | a.Has(s)
        ensures AlikeBelow(s, a.At(s), b.At(s), Tails(P, s), pat) <==>
          RedactBelow(s, a.At(s), Tails(P, s), pat) == RedactBelow(s, b.At(s), Tails(P, s), pat)
      {
        NoninterferenceBelow(s, a.At(s), b.At(s), Tails(P, s), pat);
      }
      if Alike(a, b, P, pat) {
        Extensional(Redact(a, P, pat), Redact(b, P, pat));
      }
    }
  }

  lemma {:induction false} NoninterferenceBelow(s: Step, x: Json, y: Json, T: set<Path>, pat: string -> bool)
    ensures AlikeBelow(s, x, y, T, pat) <==> RedactBelow(s, x, T, pat) == RedactBelow(s, y, T, pat)
    decreases x, 1
  {
    if !MaskedStep(s, T, pat) {
      Noninterference(x, y, T, pat);
    }
  }
}
