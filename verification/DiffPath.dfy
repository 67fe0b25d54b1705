/** Lexical containment of the comparison path (pkg/tools/state/diff_state.go, safeDiffPath), for
    Unix paths. `Clean`, `Join`, `Abs` and `Rel` stand in for path/filepath. */
module DiffPath {
  import opened JsonTree
  import opened Strings

  // ---------- cleaning ----------

  /** A segment that stays as it is. */
  predicate Ordinary(s: string) {
    s != "" && s != "." && s != ".." && Free(s, {'/'})
  }

  predicate CleanPath(p: seq<string>) {
    forall i | 0 <= i < |p| :: Ordinary(p[i])
  }

  function Enter(p: seq<string>, s: string): seq<string> {
    if s == "" || s == "." then p
    else if s == ".." then if p == [] then [] else p[..|p| - 1]
    else p + [s]
  }

  /** Following segments from a clean absolute directory. */
  function Follow(p: seq<string>, segs: seq<string>): seq<string>
    decreases |segs|
  {
    if segs == [] then p else Follow(Enter(p, segs[0]), segs[1..])
  }

  function Render(p: seq<string>): string {
    "/" + Join(p, '/')
  }

  /** `filepath.Clean` of a path that starts with '/', as segments. */
  function Clean(path: string): seq<string> {
    Follow([], Split(path, '/'))
  }

  lemma {:induction false} FollowConcat(p: seq<string>, xs: seq<string>, ys: seq<string>)
    ensures Follow(p, xs + ys) == Follow(Follow(p, xs), ys)
    decreases |xs|
  {
    if xs == [] {
      assert xs + ys == ys;
    } else {
      assert (xs + ys)[1..] == xs[1..] + ys;
      FollowConcat(Enter(p, xs[0]), xs[1..], ys);
    }
  }

  lemma {:induction false} FollowKeepsClean(p: seq<string>, segs: seq<string>)
    requires CleanPath(p) && forall i | 0 <= i < |segs| :: Free(segs[i], {'/'})
    ensures CleanPath(Follow(p, segs))
    decreases |segs|
  {
    if segs != [] {
      FollowKeepsClean(Enter(p, segs[0]), segs[1..]);
    }
  }

  lemma {:induction false} FollowOrdinary(p: seq<string>, segs: seq<string>)
    requires CleanPath(segs)
    ensures Follow(p, segs) == p + segs
    decreases |segs|
  {
    if segs != [] {
      FollowOrdinary(Enter(p, segs[0]), segs[1..]);
      assert p + [segs[0]] + segs[1..] == p + segs;
    }
  }

  lemma CleanIsClean(path: string)
    ensures CleanPath(Clean(path))
  {
    SplitIsFree(path, '/');
    FollowKeepsClean([], Split(path, '/'));
  }

  lemma SplitRender(p: seq<string>)
    requires CleanPath(p)
    ensures Split(Render(p), '/') == [""] + (if p == [] then [""] else p)
  {
    SplitConcat("", '/', Join(p, '/'));
    assert "" + ['/'] + Join(p, '/') == Render(p);
    if p != [] {
      SplitJoin(p, '/');
    }
  }

  /** Cleaning changes nothing that is clean, and a joined path is followed from its directory. */
  lemma CleanJoined(p: seq<string>, tail: string)
    requires CleanPath(p)
    ensures Clean(Render(p)) == p
    ensures Clean(Render(p) + "/" + tail) == Follow(p, Split(tail, '/'))
  {
    SplitRender(p);
    SplitConcat(Render(p), '/', tail);
    FollowConcat([], [""], if p == [] then [""] else p);
    FollowOrdinary([], p);
    assert Follow([], [""]) == [];
    FollowConcat([], Split(Render(p), '/'), Split(tail, '/'));
  }

  // ---------- the relative path ----------

  function CommonPrefix(b: seq<string>, t: seq<string>): (n: nat)
    ensures n <= |b| && n <= |t| && b[..n] == t[..n]
    ensures n < |b| && n < |t| ==> b[n] != t[n]
  {
    if b == [] || t == [] || b[0] != t[0] then 0 else 1 + CommonPrefix(b[1..], t[1..])
  }

  /** `filepath.Rel` between clean absolute paths. */
  function Rel(b: seq<string>, t: seq<string>): string {
    if b == t then "."
    else
      var n := CommonPrefix(b, t);
      Join(seq(|b| - n, _ => "..") + t[n..], '/')
  }

  /** What Go's filepath.Ext returns: from the last dot of the last element on. */
  function Ext(path: string): string {
    if path == "" || path[|path| - 1] == '/' then ""
    else if path[|path| - 1] == '.' then "."
    else
      var e := Ext(path[..|path| - 1]);
      if e == "" then "" else e + [path[|path| - 1]]
  }

  // ---------- safeDiffPath ----------

  datatype Safe = Safe(rel: string, absBase: string)

  predicate IsAbs(path: string) {
    path != "" && path[0] == '/'
  }

  /** `filepath.Abs` below the working directory `cwd`. */
  function AbsBase(cwd: seq<string>, baseDir: string): seq<string> {
    if IsAbs(baseDir) then Clean(baseDir) else Clean(Render(cwd) + "/" + baseDir)
  }

  function Target(base: seq<string>, rawPath: string): seq<string> {
    if IsAbs(rawPath) then Clean(rawPath) else Clean(Render(base) + "/" + rawPath)
  }

  function SafeDiffPath(rawPath: string, baseDir: string, cwd: seq<string>, equalFold: (string, string) -> bool)
    : Result<Safe>
  {
    var base := AbsBase(cwd, baseDir);
    var cleaned := Target(base, rawPath);
    if !equalFold(Ext(Render(cleaned)), ".tfstate") then Err
    else
      var rel := Rel(base, cleaned);
      if rel == ".." || "../" <= rel then Err
      else Ok(Safe(rel, Render(base)))
  }

  /** A relative path that climbs starts with ".." as its whole first segment. */
  lemma RelClimbs(b: seq<string>, t: seq<string>)
    requires CleanPath(b) && CleanPath(t)
    ensures Rel(b, t) == ".." || "../" <= Rel(b, t) <==> !(b <= t)
  {
    var n := CommonPrefix(b, t);
    var parts := seq(|b| - n, _ => "..") + t[n..];
    if b <= t {
      assert n == |b|;
      assert parts == t[n..];
      if b != t {
        SplitJoin(parts, '/');
        FirstSegment(parts);
      }
    } else {
      assert n < |b| && parts[0] == "..";
      if |parts| > 1 {
        assert Join(parts, '/') == "../" + Join(parts[1..], '/');
      }
    }
  }

  lemma FirstSegment(parts: seq<string>)
    requires parts != [] && CleanPath(parts)
    ensures Join(parts, '/') != ".." && !("../" <= Join(parts, '/'))
  {
    var s := Join(parts, '/');
    var tail := if "../" <= s then s[3..] else "";
    SplitJoin(parts, '/');
    SplitOne("..", '/');
    SplitConcat("..", '/', tail);
    assert "../" <= s ==> s == ".." + ['/'] + tail;
    assert Ordinary(parts[0]);
  }

  /** Accepted are exactly the state files whose cleaned path lies at or below the base directory. */
  lemma AcceptsExactlyContained(rawPath: string, baseDir: string, cwd: seq<string>, equalFold: (string, string) -> bool)
    requires CleanPath(cwd)
    ensures var base := AbsBase(cwd, baseDir);
      var cleaned := Target(base, rawPath);
      SafeDiffPath(rawPath, baseDir, cwd, equalFold).Ok? <==>
        equalFold(Ext(Render(cleaned)), ".tfstate") && base <= cleaned
  {
    var base := AbsBase(cwd, baseDir);
    CleanIsClean(baseDir);
    CleanIsClean(Render(cwd) + "/" + baseDir);
    CleanIsClean(rawPath);
    CleanIsClean(Render(base) + "/" + rawPath);
    RelClimbs(base, Target(base, rawPath));
  }

  /** Joining the returned pieces leads back to the cleaned path, and the relative piece never climbs. */
  lemma ReturnedPathLeadsBack(rawPath: string, baseDir: string, cwd: seq<string>, equalFold: (string, string) -> bool)
    requires CleanPath(cwd)
    requires SafeDiffPath(rawPath, baseDir, cwd, equalFold).Ok?
    ensures var r := SafeDiffPath(rawPath, baseDir, cwd, equalFold).value;
      && Clean(r.absBase + "/" + r.rel) == Target(AbsBase(cwd, baseDir), rawPath)
      && Clean(r.absBase) == AbsBase(cwd, baseDir)
      && r.absBase == "/" + Join(AbsBase(cwd, baseDir), '/')
      && r.rel == (if Target(AbsBase(cwd, baseDir), rawPath) == AbsBase(cwd, baseDir) then "."
                   else Join(Target(AbsBase(cwd, baseDir), rawPath)[|AbsBase(cwd, baseDir)|..], '/'))
      && ".." !in Split(r.rel, '/') && !IsAbs(r.rel)
  {
    AcceptsExactlyContained(rawPath, baseDir, cwd, equalFold);
    var base := AbsBase(cwd, baseDir);
    var cleaned := Target(base, rawPath);
    CleanIsClean(baseDir);
    CleanIsClean(Render(cwd) + "/" + baseDir);
    CleanIsClean(rawPath);
    CleanIsClean(Render(base) + "/" + rawPath);
    CleanJoined(base, Rel(base, cleaned));
    RelLeadsBack(base, cleaned);
    if base != cleaned {
      RelOfContained(base, cleaned);
    }
  }

  lemma RelOfContained(b: seq<string>, t: seq<string>)
    requires b <= t && b != t
    ensures Rel(b, t) == Join(t[|b|..], '/')
  {
    var n := CommonPrefix(b, t);
    assert n == |b|;
    assert seq(0, _ => "..") + t[n..] == t[n..];
  }

  lemma RelLeadsBack(b: seq<string>, t: seq<string>)
    requires CleanPath(b) && CleanPath(t) && b <= t
    ensures Follow(b, Split(Rel(b, t), '/')) == t
    ensures ".." !in Split(Rel(b, t), '/') && !IsAbs(Rel(b, t))
  {
    if b == t {
      SplitOne(".", '/');
      assert Follow(b, ["."]) == Follow(b, []) == b;
    } else {
      var tail := t[|b|..];
      RelOfContained(b, t);
      SplitJoin(tail, '/');
      FollowOrdinary(b, tail);
      assert b + tail == t;
    }
  }

  /** A plain file name is never taken for an escape, not even one that starts with two dots. */
  lemma PlainNamesAreInside(name: string, baseDir: string, cwd: seq<string>, equalFold: (string, string) -> bool)
    requires CleanPath(cwd) && Ordinary(name)
    ensures var base := AbsBase(cwd, baseDir);
      && Target(base, name) == base + [name]
      && (SafeDiffPath(name, baseDir, cwd, equalFold).Ok? <==> equalFold(Ext(Render(base + [name])), ".tfstate"))
  {
    var base := AbsBase(cwd, baseDir);
    CleanIsClean(baseDir);
    CleanIsClean(Render(cwd) + "/" + baseDir);
    CleanJoined(base, name);
    SplitOne(name, '/');
    assert Follow(base, [name]) == base + [name];
    AcceptsExactlyContained(name, baseDir, cwd, equalFold);
  }

  // ---------- what cleaning and the extension are ----------

  predicate Segments(xs: seq<string>) {
    forall i | 0 <= i < |xs| :: Free(xs[i], {'/'})
  }

  lemma CleanOfParts(parts: seq<string>)
    requires Segments(parts)
    ensures Clean("/" + Join(parts, '/')) == Follow([], parts)
  {
    SplitConcat("", '/', Join(parts, '/'));
    assert "" + ['/'] + Join(parts, '/') == "/" + Join(parts, '/');
    assert Follow([], [""]) == [] && Follow([], ["", ""]) == Follow([], [""] + [""]);
    FollowConcat([], [""], [""]);
    if parts != [] {
      SplitJoin(parts, '/');
      FollowConcat([], [""], parts);
    }
  }

  /** Segments that lead nowhere from where they are met can be left out. */
  lemma CleanWithout(xs: seq<string>, mid: seq<string>, ys: seq<string>)
    requires Segments(xs) && Segments(mid) && Segments(ys)
    requires Follow(Follow([], xs), mid) == Follow([], xs)
    ensures Clean("/" + Join(xs + mid + ys, '/')) == Clean("/" + Join(xs + ys, '/'))
  {
    CleanOfParts(xs + mid + ys);
    CleanOfParts(xs + ys);
    FollowConcat([], xs + mid, ys);
    FollowConcat([], xs, mid);
    FollowConcat([], xs, ys);
  }

  lemma LeadsNowhere(p: seq<string>, s: string)
    ensures Follow(p, [""]) == p && Follow(p, ["."]) == p && Follow([], [".."]) == []
    ensures Ordinary(s) ==> Follow(p, [s, ".."]) == p
  {
    assert [s, ".."][1..] == [".."] && (p + [s])[..|p|] == p;
  }

  /** Cleaning by rewriting: empty segments and "." disappear, and a name cancels with the ".." after it. */
  lemma CleanRules(xs: seq<string>, s: string, ys: seq<string>)
    requires Segments(xs) && Segments(ys)
    ensures Clean("/" + Join(xs + [""] + ys, '/')) == Clean("/" + Join(xs + ys, '/'))
    ensures Clean("/" + Join(xs + ["."] + ys, '/')) == Clean("/" + Join(xs + ys, '/'))
    ensures Ordinary(s) ==> Clean("/" + Join(xs + [s, ".."] + ys, '/')) == Clean("/" + Join(xs + ys, '/'))
  {
    LeadsNowhere(Follow([], xs), s);
    CleanWithout(xs, [""], ys);
    CleanWithout(xs, ["."], ys);
    if Ordinary(s) {
      CleanWithout(xs, [s, ".."], ys);
    }
  }

  /** ".." disappears at the root as well, and what no rule applies to is clean. */
  lemma CleanAtRoot(xs: seq<string>)
    requires Segments(xs)
    ensures Clean("/" + Join([".."] + xs, '/')) == Clean("/" + Join(xs, '/'))
    ensures CleanPath(xs) ==> Clean("/" + Join(xs, '/')) == xs
  {
    LeadsNowhere([], "");
    CleanWithout([], [".."], xs);
    assert [] + [".."] + xs == [".."] + xs && [] + xs == xs;
    if CleanPath(xs) {
      CleanOfParts(xs);
      FollowOrdinary([], xs);
    }
  }

  function Ups(n: nat): (r: seq<string>)
    ensures |r| == n && forall i | 0 <= i < n :: r[i] == ".."
  {
    seq(n, _ => "..")
  }

  lemma {:induction false} FollowUps(b: seq<string>, n: nat)
    ensures Follow(b, Ups(n)) == b[..if n < |b| then |b| - n else 0]
    decreases n
  {
    if n > 0 {
      assert Ups(n)[1..] == Ups(n - 1);
      FollowUps(Enter(b, ".."), n - 1);
    }
  }

  /** A path of ".." and then names drops that many segments of the directory it is relative to, as far as
      there are any, and adds the names. */
  lemma UpsAndNames(b: seq<string>, n: nat, ns: seq<string>)
    requires CleanPath(b) && CleanPath(ns)
    ensures Target(b, Join(Ups(n) + ns, '/')) == b[..if n < |b| then |b| - n else 0] + ns
    ensures AbsBase(b, Join(Ups(n) + ns, '/')) == Target(b, Join(Ups(n) + ns, '/'))
  {
    var parts := Ups(n) + ns;
    RelativeParts(b, parts);
    FollowConcat(b, Ups(n), ns);
    FollowUps(b, n);
    FollowOrdinary(b[..if n < |b| then |b| - n else 0], ns);
  }

  lemma RelativeParts(b: seq<string>, parts: seq<string>)
    requires CleanPath(b) && forall i | 0 <= i < |parts| :: parts[i] == ".." || Ordinary(parts[i])
    ensures !IsAbs(Join(parts, '/')) && Target(b, Join(parts, '/')) == Follow(b, parts)
  {
    CleanJoined(b, Join(parts, '/'));
    if parts != [] {
      assert parts[0] == ".." || Ordinary(parts[0]);
      SplitJoin(parts, '/');
      assert Join(parts, '/')[0] == parts[0][0];
    } else {
      assert Follow(b, [""]) == Follow(b, []);
    }
  }

  /** It is accepted exactly when the names lead back into the base directory and the extension fits. */
  lemma ClimbsAreChecked(n: nat, ns: seq<string>, baseDir: string, cwd: seq<string>,
                         equalFold: (string, string) -> bool)
    requires CleanPath(cwd) && CleanPath(ns)
    ensures var base := AbsBase(cwd, baseDir);
      var left := if n < |base| then |base| - n else 0;
      SafeDiffPath(Join(Ups(n) + ns, '/'), baseDir, cwd, equalFold).Ok? <==>
        base[left..] <= ns && equalFold(Ext(Render(base[..left] + ns)), ".tfstate")
  {
    var base := AbsBase(cwd, baseDir);
    var left := if n < |base| then |base| - n else 0;
    CleanIsClean(baseDir);
    CleanIsClean(Render(cwd) + "/" + baseDir);
    UpsAndNames(base, n, ns);
    AcceptsExactlyContained(Join(Ups(n) + ns, '/'), baseDir, cwd, equalFold);
    BackInto(base, left, ns);
  }

  lemma BackInto(base: seq<string>, left: nat, ns: seq<string>)
    requires left <= |base|
    ensures base <= base[..left] + ns <==> base[left..] <= ns
  {
    assert base == base[..left] + base[left..];
    if base[left..] <= ns {
      assert base[..left] + ns == base + ns[|base| - left..];
    }
    if base <= base[..left] + ns {
      assert base[left..] == (base[..left] + ns)[left..|base|];
    }
  }

  /** An absolute path is taken as it is, wherever the base directory is. */
  lemma AbsoluteIsItself(b: seq<string>, rest: string)
    ensures Target(b, "/" + rest) == Clean("/" + rest) && AbsBase(b, "/" + rest) == Clean("/" + rest)
  {
  }

  lemma {:induction false} ExtAfterDot(x: string, y: string)
    requires Free(y, {'.', '/'})
    ensures Ext(x + "." + y) == "." + y
    decreases |y|
  {
    var path := x + "." + y;
    if y != "" {
      var init := y[..|y| - 1];
      assert path[..|path| - 1] == x + "." + init && path[|path| - 1] == y[|y| - 1];
      ExtAfterDot(x, init);
      assert y == init + [y[|y| - 1]];
    }
  }

  lemma {:induction false} NoExtAfterSlash(x: string, s: string)
    requires Free(s, {'.', '/'})
    ensures Ext(x + "/" + s) == ""
    decreases |s|
  {
    var path := x + "/" + s;
    if s != "" {
      assert path[..|path| - 1] == x + "/" + s[..|s| - 1] && path[|path| - 1] == s[|s| - 1];
      NoExtAfterSlash(x, s[..|s| - 1]);
    }
  }

  /** The extension is the text from the last '.' of the last segment on, if it has one. */
  lemma ExtOfLast(p: seq<string>, s: string, x: string, y: string)
    requires CleanPath(p) && Ordinary(s)
    ensures Ext(Render([])) == ""
    ensures '.' !in s ==> Ext(Render(p + [s])) == ""
    ensures s == x + "." + y && '.' !in y ==> Ext(Render(p + [s])) == "." + y
  {
    if '.' !in s {
      LastSegment(p, s);
      NoExtAfterSlash(if p == [] then "" else Render(p), s);
    }
    if s == x + "." + y && '.' !in y {
      ExtOfDotted(p, s, x, y);
    }
  }

  lemma LastSegment(p: seq<string>, s: string)
    ensures Render(p + [s]) == (if p == [] then "" else Render(p)) + "/" + s
  {
    if p != [] {
      JoinSnoc(p, s, '/');
    }
  }

  lemma ExtOfDotted(p: seq<string>, s: string, x: string, y: string)
    requires Free(s, {'/'}) && s == x + "." + y && '.' !in y
    ensures Ext(Render(p + [s])) == "." + y
  {
    var dir := if p == [] then "" else Render(p);
    LastSegment(p, s);
    assert forall i | 0 <= i < |y| :: y[i] == s[|x| + 1 + i];
    assert dir + "/" + s == dir + "/" + x + "." + y;
    ExtAfterDot(dir + "/" + x, y);
  }
}
