/** From the toolset flags to the question whether a tool is enabled (pkg/toolsets/toolsets.go and
    pkg/toolsets/mapping.go). */
module Toolsets {
  import opened Strings

  const ALL := "all"
  const DEFAULT := "default"
  const REGISTRY := "registry"
  const INDIVIDUAL_TOOLS_MARKER := "__individual_tools__"
  const DEFAULT_TOOLSETS := [REGISTRY]
  const VALID_NAMES := {REGISTRY, "registry-private", "terraform", "state-inspection", ALL, DEFAULT}

  /** The table from tool names to toolsets: names are not special words, toolsets are real ones. */
  predicate ValidCatalog(catalog: map<string, string>) {
    forall tool | tool in catalog ::
      && tool !in {"", ALL, DEFAULT, INDIVIDUAL_TOOLS_MARKER, REGISTRY} && Trim(tool) == tool
      && catalog[tool] in VALID_NAMES - {ALL, DEFAULT}
  }

  /** The distinct non-blank entries, trimmed, in order of first appearance. */
  function Cleaned(xs: seq<string>): seq<string> {
    if xs == [] then []
    else
      var r, t := Cleaned(xs[..|xs| - 1]), Trim(xs[|xs| - 1]);
      if t == "" || t in r then r else r + [t]
  }

  function Select(xs: seq<string>, wanted: set<string>): seq<string> {
    if xs == [] then []
    else
      var r, x := Select(xs[..|xs| - 1], wanted), xs[|xs| - 1];
      if x in wanted then r + [x] else r
  }

  function Reject(xs: seq<string>, unwanted: set<string>): seq<string> {
    if xs == [] then []
    else
      var r, x := Reject(xs[..|xs| - 1], unwanted), xs[|xs| - 1];
      if x in unwanted then r else r + [x]
  }

  method CleanToolsets(enabled: seq<string>) returns (result: seq<string>, invalid: seq<string>)
    ensures result == Cleaned(enabled)
    ensures invalid == Reject(result, VALID_NAMES)
  {
    var seen: set<string> := {};
    result, invalid := [], [];
    for i := 0 to |enabled|
      invariant result == Cleaned(enabled[..i])
      invariant invalid == Reject(result, VALID_NAMES)
      invariant forall x :: x in seen <==> x in result
    {
      assert enabled[..i + 1][..i] == enabled[..i];
      var trimmed := Trim(enabled[i]);
      if trimmed != "" && trimmed !in seen {
        seen := seen + {trimmed};
        assert (result + [trimmed])[..|result|] == result;
        result := result + [trimmed];
        if trimmed !in VALID_NAMES {
          invalid := invalid + [trimmed];
        }
      }
    }
    assert enabled[..|enabled|] == enabled;
  }

  function Expanded(ts: seq<string>): seq<string> {
    if DEFAULT !in ts then ts
    else Reject(ts, {DEFAULT}) + if REGISTRY in ts then [] else [REGISTRY]
  }

  method ExpandDefaultToolset(ts: seq<string>) returns (result: seq<string>)
    ensures result == Expanded(ts)
  {
    var hasDefault := false;
    var seen: set<string> := {};
    for i := 0 to |ts|
      invariant forall x :: x in seen <==> x in ts[..i]
      invariant hasDefault <==> DEFAULT in ts[..i]
    {
      seen := seen + {ts[i]};
      if ts[i] == DEFAULT {
        hasDefault := true;
      }
    }
    assert ts[..|ts|] == ts;
    if !hasDefault {
      return ts;
    }
    result := [];
    for i := 0 to |ts|
      invariant result == Reject(ts[..i], {DEFAULT})
    {
      assert ts[..i + 1][..i] == ts[..i];
      if ts[i] != DEFAULT {
        result := result + [ts[i]];
      }
    }
    ghost var kept := result;
    for i := 0 to |DEFAULT_TOOLSETS|
      invariant result == kept + if i == 1 && REGISTRY !in ts then [REGISTRY] else []
    {
      if DEFAULT_TOOLSETS[i] !in seen {
        result := result + [DEFAULT_TOOLSETS[i]];
      }
    }
  }

  method ContainsToolset(ts: seq<string>, toCheck: string) returns (found: bool)
    ensures found <==> toCheck in ts
  {
    for i := 0 to |ts|
      invariant toCheck !in ts[..i]
    {
      if ts[i] == toCheck {
        return true;
      }
    }
    assert ts[..|ts|] == ts;
    return false;
  }

  method ParseIndividualTools(names: seq<string>, catalog: map<string, string>)
    returns (valid: seq<string>, invalid: seq<string>)
    ensures valid == Select(Cleaned(names), catalog.Keys)
    ensures invalid == Reject(Cleaned(names), catalog.Keys)
  {
    var seen: set<string> := {};
    valid, invalid := [], [];
    for i := 0 to |names|
      invariant valid == Select(Cleaned(names[..i]), catalog.Keys)
      invariant invalid == Reject(Cleaned(names[..i]), catalog.Keys)
      invariant forall x :: x in seen <==> x in Cleaned(names[..i])
    {
      assert names[..i + 1][..i] == names[..i];
      ghost var before := Cleaned(names[..i]);
      var trimmed := Trim(names[i]);
      if trimmed != "" && trimmed !in seen {
        seen := seen + {trimmed};
        assert (before + [trimmed])[..|before|] == before;
        if trimmed in catalog {
          valid := valid + [trimmed];
        } else {
          invalid := invalid + [trimmed];
        }
      }
    }
    assert names[..|names|] == names;
  }

  function EnableIndividualTools(tools: seq<string>): seq<string> {
    [INDIVIDUAL_TOOLS_MARKER] + tools
  }

  predicate IsToolEnabled(tool: string, enabled: seq<string>, catalog: map<string, string>) {
    if ALL in enabled then true
    else if INDIVIDUAL_TOOLS_MARKER in enabled then tool in enabled
    else tool in catalog && catalog[tool] in enabled
  }

  // ---------- the pipeline ----------

  function Pipeline(flags: seq<string>): seq<string> {
    Expanded(Cleaned(flags))
  }

  predicate NoDuplicates(xs: seq<string>) {
    forall i, j | 0 <= i < j < |xs| :: xs[i] != xs[j]
  }

  /** The flag names `x`, give or take surrounding white space. */
  predicate Named(flags: seq<string>, x: string) {
    exists i | 0 <= i < |flags| :: Trim(flags[i]) == x
  }

  lemma {:induction false} CleanedDistinct(xs: seq<string>)
    ensures NoDuplicates(Cleaned(xs))
  {
    if xs != [] {
      CleanedDistinct(xs[..|xs| - 1]);
    }
  }

  lemma NamedSnoc(init: seq<string>, last: string, x: string)
    ensures Named(init + [last], x) <==> Named(init, x) || Trim(last) == x
  {
    var xs := init + [last];
    if Named(init, x) {
      var i :| 0 <= i < |init| && Trim(init[i]) == x;
      assert xs[i] == init[i];
    }
    assert xs[|init|] == last;
    if Named(xs, x) {
      var i :| 0 <= i < |xs| && Trim(xs[i]) == x;
      assert i < |init| ==> init[i] == xs[i];
    }
  }

  lemma {:induction false} CleanedContents(xs: seq<string>, x: string)
    ensures x in Cleaned(xs) <==> x != "" && Named(xs, x)
  {
    if xs != [] {
      var init, last := xs[..|xs| - 1], xs[|xs| - 1];
      CleanedContents(init, x);
      assert init + [last] == xs;
      NamedSnoc(init, last, x);
    }
  }

  lemma {:induction false} RejectContents(xs: seq<string>, unwanted: set<string>)
    ensures forall x :: x in Reject(xs, unwanted) <==> x in xs && x !in unwanted
    ensures NoDuplicates(xs) ==> NoDuplicates(Reject(xs, unwanted))
  {
    if xs != [] {
      var init := xs[..|xs| - 1];
      RejectContents(init, unwanted);
      assert xs == init + [xs[|xs| - 1]];
    }
  }

  lemma {:induction false} SelectContents(xs: seq<string>, wanted: set<string>)
    ensures forall x :: x in Select(xs, wanted) <==> x in xs && x in wanted
  {
    if xs != [] {
      var init := xs[..|xs| - 1];
      SelectContents(init, wanted);
      assert xs == init + [xs[|xs| - 1]];
    }
  }

  /** Exactly the named entries come out, each once, with "default" replaced by what it stands for. */
  lemma PipelineContents(flags: seq<string>, x: string)
    ensures NoDuplicates(Pipeline(flags)) && DEFAULT !in Pipeline(flags)
    ensures x in Pipeline(flags) <==>
      (x != "" && x != DEFAULT && Named(flags, x)) || (x == REGISTRY && Named(flags, DEFAULT))
  {
    CleanedDistinct(flags);
    CleanedContents(flags, x);
    CleanedContents(flags, DEFAULT);
    CleanedContents(flags, REGISTRY);
    RejectContents(Cleaned(flags), {DEFAULT});
  }

  predicate IsEntry(x: string) {
    x != "" && Trim(x) == x
  }

  /** A list of distinct, trimmed, non-blank entries is already clean. */
  lemma {:induction false} CleanStays(xs: seq<string>)
    requires NoDuplicates(xs) && forall i | 0 <= i < |xs| :: IsEntry(xs[i])
    ensures Cleaned(xs) == xs
  {
    if xs != [] {
      var init, last := xs[..|xs| - 1], xs[|xs| - 1];
      CleanStays(init);
      assert init + [last] == xs;
      assert IsEntry(last);
    }
  }

  lemma PipelineEntry(flags: seq<string>, x: string)
    requires x in Pipeline(flags)
    ensures IsEntry(x)
  {
    PipelineContents(flags, x);
    if x == REGISTRY {
      TrimIdempotent(x);
    } else {
      var k :| 0 <= k < |flags| && Trim(flags[k]) == x;
      TrimIdempotent(flags[k]);
    }
  }

  lemma PipelineIdempotent(flags: seq<string>)
    ensures Pipeline(Pipeline(flags)) == Pipeline(flags)
  {
    var p := Pipeline(flags);
    PipelineContents(flags, DEFAULT);
    forall i | 0 <= i < |p| ensures IsEntry(p[i]) {
      PipelineEntry(flags, p[i]);
    }
    CleanStays(p);
  }

  /** A known tool is enabled by toolset flags exactly when "all" or its toolset is named, directly or
      through "default"; or, when the internal marker itself was passed as a flag, when its name was. */
  lemma EnabledByToolsets(flags: seq<string>, tool: string, catalog: map<string, string>)
    requires ValidCatalog(catalog) && tool in catalog
    ensures IsToolEnabled(tool, Pipeline(flags), catalog) <==>
      || Named(flags, "all")
      || (if Named(flags, "__individual_tools__") then Named(flags, tool)
          else Named(flags, catalog[tool]) || (catalog[tool] == "registry" && Named(flags, "default")))
  {
    PipelineContents(flags, ALL);
    PipelineContents(flags, INDIVIDUAL_TOOLS_MARKER);
    PipelineContents(flags, tool);
    PipelineContents(flags, catalog[tool]);
  }

  /** What the tools flag turns into: individual mode, or the default toolsets when no name is valid. */
  function FromToolsFlag(names: seq<string>, catalog: map<string, string>): seq<string> {
    var valid := Select(Cleaned(names), catalog.Keys);
    if valid == [] then Pipeline([DEFAULT]) else EnableIndividualTools(valid)
  }

  predicate NamesSomeTool(names: seq<string>, catalog: map<string, string>) {
    exists tool | tool in catalog :: Named(names, tool)
  }

  /** In individual mode a known tool is enabled exactly when it appears, trimmed, in the list; a list
      without any known tool enables the tools of the default toolset. */
  lemma EnabledIndividually(names: seq<string>, tool: string, catalog: map<string, string>)
    requires ValidCatalog(catalog) && tool in catalog
    ensures IsToolEnabled(tool, FromToolsFlag(names, catalog), catalog) <==>
      if NamesSomeTool(names, catalog) then Named(names, tool) else catalog[tool] == REGISTRY
  {
    var valid := Select(Cleaned(names), catalog.Keys);
    SelectedTool(names, tool, catalog);
    if valid == [] {
      forall other | other in catalog ensures !Named(names, other) {
        SelectedTool(names, other, catalog);
      }
      DefaultFlag(tool, catalog);
    } else {
      SelectedIsNamed(names, catalog);
      SelectContents(Cleaned(names), catalog.Keys);
    }
  }

  lemma SelectedTool(names: seq<string>, tool: string, catalog: map<string, string>)
    requires ValidCatalog(catalog) && tool in catalog
    ensures tool in Select(Cleaned(names), catalog.Keys) <==> Named(names, tool)
  {
    SelectContents(Cleaned(names), catalog.Keys);
    CleanedContents(names, tool);
  }

  lemma SelectedIsNamed(names: seq<string>, catalog: map<string, string>)
    requires Select(Cleaned(names), catalog.Keys) != []
    ensures NamesSomeTool(names, catalog)
  {
    var valid := Select(Cleaned(names), catalog.Keys);
    SelectContents(Cleaned(names), catalog.Keys);
    assert valid[0] in valid;
    CleanedContents(names, valid[0]);
  }

  lemma DefaultFlag(tool: string, catalog: map<string, string>)
    requires ValidCatalog(catalog) && tool in catalog
    ensures IsToolEnabled(tool, Pipeline([DEFAULT]), catalog) <==> catalog[tool] == REGISTRY
  {
    var flags := [DEFAULT];
    TrimIdempotent(flags[0]);
    assert Trim(flags[0]) == DEFAULT;
    EnabledByToolsets(flags, tool, catalog);
  }

  // ---------- order ----------

  /** The first entry that trims to `x` comes before any that trims to `y`. */
  predicate NamedBefore(xs: seq<string>, x: string, y: string) {
    exists h | 0 <= h < |xs| :: Trim(xs[h]) == x && forall l | 0 <= l <= h :: Trim(xs[l]) != y
  }

  lemma NamedBeforeSnoc(init: seq<string>, last: string, x: string, y: string)
    requires NamedBefore(init, x, y)
    ensures NamedBefore(init + [last], x, y)
  {
    var xs := init + [last];
    var h :| 0 <= h < |init| && Trim(init[h]) == x && forall l | 0 <= l <= h :: Trim(init[l]) != y;
    assert xs[h] == init[h] && forall l | 0 <= l <= h :: xs[l] == init[l];
  }

  /** Cleaned entries come in the order in which they are first named. */
  lemma {:induction false} CleanedInOrder(xs: seq<string>, i: nat, j: nat)
    requires i < j < |Cleaned(xs)|
    ensures NamedBefore(xs, Cleaned(xs)[i], Cleaned(xs)[j])
  {
    var init, last := xs[..|xs| - 1], xs[|xs| - 1];
    var r := Cleaned(init);
    assert xs == init + [last];
    if j < |r| {
      CleanedInOrder(init, i, j);
    } else {
      CleanedContents(init, r[i]);
      CleanedContents(init, Trim(last));
    }
    NamedBeforeSnoc(init, last, Cleaned(xs)[i], Cleaned(xs)[j]);
  }

  lemma SelectOne(x: string, wanted: set<string>)
    ensures Select([x], wanted) == (if x in wanted then [x] else [])
    ensures Reject([x], wanted) == (if x in wanted then [] else [x])
  {
    assert [x][..0] == [];
  }

  /** Selecting and rejecting go entry by entry and keep the order. */
  lemma {:induction false} SelectEach(xs: seq<string>, ys: seq<string>, wanted: set<string>)
    ensures Select(xs + ys, wanted) == Select(xs, wanted) + Select(ys, wanted)
    ensures Reject(xs + ys, wanted) == Reject(xs, wanted) + Reject(ys, wanted)
    decreases |ys|
  {
    if ys == [] {
      assert xs + ys == xs;
    } else {
      SelectEach(xs, ys[..|ys| - 1], wanted);
      assert (xs + ys)[..|xs + ys| - 1] == xs + ys[..|ys| - 1];
    }
  }

  lemma NothingRejected(xs: seq<string>, unwanted: set<string>)
    requires forall x | x in xs :: x !in unwanted
    ensures Reject(xs, unwanted) == xs
  {
    if xs != [] {
      NothingRejected(xs[..|xs| - 1], unwanted);
    }
  }

  /** "default" is taken out where it stands, and what it stands for comes last, if it is not there yet. */
  lemma ExpandedForm(xs: seq<string>, ys: seq<string>)
    requires "default" !in xs && "default" !in ys
    ensures Expanded(xs) == xs
    ensures Expanded(xs + ["default"] + ys) == xs + ys + if "registry" in xs + ys then [] else ["registry"]
  {
    var ts := xs + ["default"] + ys;
    assert ts[|xs|] == "default";
    SelectEach(xs + ["default"], ys, {DEFAULT});
    SelectEach(xs, ["default"], {DEFAULT});
    SelectOne("default", {DEFAULT});
    NothingRejected(xs, {DEFAULT});
    NothingRejected(ys, {DEFAULT});
    assert forall x :: x in ts <==> x in xs || x == "default" || x in ys;
  }
}
