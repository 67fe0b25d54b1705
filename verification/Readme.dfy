/** README line filters (pkg/tools/tfe/get_private_module_details.go, removeReadmeSections, and
    pkg/utils/utils.go, ExtractReadme). */
module Readme {
  import opened Strings

  // ---------- removeReadmeSections ----------

  predicate IsHeader(line: string, lower: string -> string) {
    "##" <= lower(Trim(line))
  }

  predicate IsRemovable(line: string, lower: string -> string) {
    var l := lower(Trim(line));
    IsHeader(line, lower) &&
    (Contains(l, "inputs") || Contains(l, "outputs") || Contains(l, "dependencies") ||
     Contains(l, "provider dependencies") || Contains(l, "resources"))
  }

  datatype Kind = Text | OtherHeader | RemovableHeader

  function KindOf(line: string, lower: string -> string): Kind {
    if IsRemovable(line, lower) then RemovableHeader else if IsHeader(line, lower) then OtherHeader else Text
  }

  function Kinds(lines: seq<string>, lower: string -> string): (r: seq<Kind>)
    ensures |r| == |lines|
  {
    seq(|lines|, i requires 0 <= i < |lines| => KindOf(lines[i], lower))
  }

  /** Line `i` lies in a removed section: the last header at or before it is a removable one. */
  predicate Skipped(kinds: seq<Kind>, i: nat)
    requires i < |kinds|
  {
    exists h: nat | h <= i :: kinds[h].RemovableHeader? && forall l | h < l <= i :: kinds[l].Text?
  }

  /** The first `n` lines without those of removed sections. */
  function Kept(lines: seq<string>, n: nat, kinds: seq<Kind>): seq<string>
    requires n <= |lines| == |kinds|
  {
    if n == 0 then []
    else
      var r := Kept(lines, n - 1, kinds);
      if Skipped(kinds, n - 1) then r else r + [lines[n - 1]]
  }

  lemma SkippedNext(kinds: seq<Kind>, i: nat)
    requires i < |kinds|
    ensures Skipped(kinds, i) <==> kinds[i].RemovableHeader? || (kinds[i].Text? && i > 0 && Skipped(kinds, i - 1))
  {
    if i > 0 && Skipped(kinds, i - 1) && kinds[i].Text? {
      var h: nat :| h <= i - 1 && kinds[h].RemovableHeader? && forall l | h < l <= i - 1 :: kinds[l].Text?;
      assert forall l | h < l <= i :: kinds[l].Text?;
    }
  }

  /** Replacing every run of three or more newlines by two. */
  function Collapse(s: string): string {
    if s == "" then ""
    else if "\n\n\n" <= s then Collapse(s[1..])
    else [s[0]] + Collapse(s[1..])
  }

  function RemovedSections(readme: string, lower: string -> string): string {
    var lines := Split(readme, '\n');
    Trim(Collapse(Join(Kept(lines, |lines|, Kinds(lines, lower)), '\n')))
  }

  method RemoveReadmeSections(readme: string, lower: string -> string) returns (r: string)
    ensures r == RemovedSections(readme, lower)
  {
    var lines := Split(readme, '\n');
    var result: seq<string> := [];
    var skipSection := false;
    ghost var kinds := Kinds(lines, lower);
    for i := 0 to |lines|
      invariant result == Kept(lines, i, kinds)
      invariant skipSection <==> i > 0 && Skipped(kinds, i - 1)
    {
      SkippedNext(kinds, i);
      var line := lines[i];
      var lowerLine := lower(Trim(line));
      if "##" <= lowerLine || "###" <= lowerLine || "####" <= lowerLine {
        if Contains(lowerLine, "inputs") || Contains(lowerLine, "outputs") || Contains(lowerLine, "dependencies") ||
           Contains(lowerLine, "provider dependencies") || Contains(lowerLine, "resources")
        {
          skipSection := true;
          continue;
        } else {
          skipSection := false;
        }
      }
      if !skipSection {
        result := result + [line];
      }
    }
    r := Trim(Collapse(Join(result, '\n')));
  }

  // ---------- removing sections twice ----------

  /** No line of the text starts a removed section. */
  predicate Settled(s: string, lower: string -> string) {
    forall i | 0 <= i < |Split(s, '\n')| :: !IsRemovable(Split(s, '\n')[i], lower)
  }

  predicate SameTrimmed(x: string, y: string) {
    Trim(x) == Trim(y)
  }

  predicate IsLineOf(x: string, b: seq<string>) {
    exists j | 0 <= j < |b| :: SameTrimmed(x, b[j])
  }

  /** Every line of `a`, up to surrounding white space, is a line of `b`. */
  predicate LinesFrom(a: seq<string>, b: seq<string>) {
    forall i | 0 <= i < |a| :: IsLineOf(a[i], b)
  }

  lemma {:induction false} KeptLines(lines: seq<string>, n: nat, kinds: seq<Kind>)
    requires n <= |lines| == |kinds|
    ensures forall x | x in Kept(lines, n, kinds) ::
      exists i | 0 <= i < n :: lines[i] == x && !kinds[i].RemovableHeader?
  {
    if n > 0 {
      KeptLines(lines, n - 1, kinds);
      SkippedNext(kinds, n - 1);
      assert lines[n - 1] == lines[n - 1];
    }
  }

  lemma {:induction false} NothingSkipped(lines: seq<string>, n: nat, kinds: seq<Kind>)
    requires n <= |lines| == |kinds| && forall k | k in kinds :: !k.RemovableHeader?
    ensures Kept(lines, n, kinds) == lines[..n]
  {
    if n > 0 {
      NothingSkipped(lines, n - 1, kinds);
    }
  }

  lemma JoinedIsSettled(lines: seq<string>, lower: string -> string)
    requires forall i | 0 <= i < |lines| :: Free(lines[i], {'\n'}) && !IsRemovable(lines[i], lower)
    requires lower("") == ""
    ensures Settled(Join(lines, '\n'), lower)
  {
    if lines != [] {
      SplitJoin(lines, '\n');
    }
  }

  predicate NoTriple(s: string) {
    forall i | 0 <= i < |s| - 2 :: !(s[i] == s[i + 1] == s[i + 2] == '\n')
  }

  lemma {:induction false} CollapseStart(s: string)
    ensures "\n" <= Collapse(s) <==> "\n" <= s
    ensures "\n\n" <= Collapse(s) <==> "\n\n" <= s
    ensures Collapse(s) == "" <==> s == ""
  {
    if s != "" {
      CollapseStart(s[1..]);
      if "\n\n\n" <= s {
        assert "\n\n" <= s[1..];
      }
    }
  }

  lemma {:induction false} CollapseLeavesNoTriple(s: string)
    ensures NoTriple(Collapse(s))
  {
    if s != "" {
      CollapseLeavesNoTriple(s[1..]);
      CollapseStart(s[1..]);
      var t := Collapse(s[1..]);
      if !("\n\n\n" <= s) {
        forall i | 0 <= i < |[s[0]] + t| - 2
          ensures !(([s[0]] + t)[i] == ([s[0]] + t)[i + 1] == ([s[0]] + t)[i + 2] == '\n')
        {
          if i == 0 {
            assert s[0] == '\n' && "\n\n" <= t ==> "\n\n\n" <= s;
          } else {
            assert ([s[0]] + t)[i] == t[i - 1];
          }
        }
      }
    }
  }

  lemma NoTripleInTail(s: string)
    requires NoTriple(s) && s != ""
    ensures NoTriple(s[1..]) && !("\n\n\n" <= s)
  {
    assert forall i | 0 <= i < |s[1..]| :: s[1..][i] == s[i + 1];
    assert |s| >= 3 ==> !(s[0] == s[1] == s[2] == '\n');
  }

  lemma {:induction false} NoTripleIsCollapsed(s: string)
    requires NoTriple(s)
    ensures Collapse(s) == s
  {
    if s != "" {
      NoTripleInTail(s);
      NoTripleIsCollapsed(s[1..]);
      assert [s[0]] + s[1..] == s;
    }
  }

  lemma {:induction false} CollapseKeepsLines(s: string)
    ensures Split(Collapse(s), '\n')[0] == Split(s, '\n')[0]
    ensures forall l | l in Split(Collapse(s), '\n')[1..] :: l in Split(s, '\n')[1..]
  {
    if s != "" {
      CollapseKeepsLines(s[1..]);
      CollapseStart(s[1..]);
      var t := Collapse(s[1..]);
      var r, rest := Split(t, '\n'), Split(s[1..], '\n');
      assert ([s[0]] + t)[1..] == t;
      assert forall l | l in r[1..] :: l in rest;
      assert r == [r[0]] + r[1..];
      if s[0] == '\n' {
        assert Split(s, '\n')[1..] == rest;
        assert Split([s[0]] + t, '\n')[1..] == r;
      } else {
        assert Split(s, '\n')[1..] == rest[1..];
        assert Split([s[0]] + t, '\n')[1..] == r[1..];
      }
    }
  }

  lemma LineAt(x: string, b: seq<string>, k: nat)
    requires k < |b| && SameTrimmed(x, b[k])
    ensures IsLineOf(x, b)
  {
  }

  /** A line after the first character is, up to white space, a line with it. */
  lemma FirstCharLines(s: string, j: nat)
    requires s != "" && IsSpace(s[0]) && j < |Split(s[1..], '\n')|
    ensures IsLineOf(Split(s[1..], '\n')[j], Split(s, '\n'))
  {
    assert [s[0]] + s[1..] == s;
    CharBeforeLines(s[0], Split(s[1..], '\n'), Split(s, '\n'), j);
  }

  lemma CharBeforeLines(x: char, b: seq<string>, c: seq<string>, j: nat)
    requires IsSpace(x) && j < |b|
    requires c == CharBefore(x, b)
    ensures IsLineOf(b[j], c)
  {
    if x != '\n' && j == 0 {
      LineAt(b[0], c, 0);
    } else {
      LineAt(b[j], c, if x == '\n' then j + 1 else j);
    }
  }

  lemma {:induction false} TrimLeftKeepsLines(s: string)
    ensures LinesFrom(Split(TrimLeft(s), '\n'), Split(s, '\n'))
  {
    if s != "" && IsSpace(s[0]) {
      TrimLeftKeepsLines(s[1..]);
      var a, b, c := Split(TrimLeft(s), '\n'), Split(s[1..], '\n'), Split(s, '\n');
      forall i | 0 <= i < |a| ensures IsLineOf(a[i], c) {
        assert IsLineOf(a[i], b);
        var j :| 0 <= j < |b| && SameTrimmed(a[i], b[j]);
        FirstCharLines(s, j);
      }
    }
  }

  lemma {:induction false} SplitSnoc(s: string, c: char)
    requires c != '\n'
    ensures Split(s + [c], '\n') == CharAfter(Split(s, '\n'), c)
  {
    if s == "" {
      assert s + [c] == [c] + "" == [c];
    } else {
      var t, rest := s[1..], Split(s[1..], '\n');
      SplitSnoc(t, c);
      assert s + [c] == [s[0]] + (t + [c]) && [s[0]] + t == s;
      SnocAfterFirst(s[0], rest, c);
    }
  }

  function CharBefore(x: char, b: seq<string>): seq<string>
    requires b != []
  {
    if x == '\n' then [""] + b else [[x] + b[0]] + b[1..]
  }

  function CharAfter(b: seq<string>, c: char): seq<string>
    requires b != []
  {
    b[..|b| - 1] + [b[|b| - 1] + [c]]
  }

  lemma SnocAfterFirst(x: char, b: seq<string>, c: char)
    requires b != []
    ensures CharBefore(x, CharAfter(b, c)) == CharAfter(CharBefore(x, b), c)
  {
    assert |b| == 1 ==> [x] + (b[0] + [c]) == [x] + b[0] + [c];
  }

  /** A line before the last character is, up to white space, a line with it. */
  lemma LastCharLines(s: string, x: char, j: nat)
    requires IsSpace(x) && j < |Split(s, '\n')|
    ensures IsLineOf(Split(s, '\n')[j], Split(s + [x], '\n'))
  {
    var b, c := Split(s, '\n'), Split(s + [x], '\n');
    if x == '\n' {
      SplitConcat(s, '\n', "");
      assert s + ['\n'] + "" == s + [x];
      assert c[j] == b[j];
    } else {
      SplitSnoc(s, x);
      TrimSpaceAfter(b[|b| - 1], x);
      assert j < |b| - 1 ==> c[j] == b[j];
    }
    assert SameTrimmed(b[j], c[j]);
  }

  lemma {:induction false} TrimRightKeepsLines(s: string)
    ensures LinesFrom(Split(TrimRight(s), '\n'), Split(s, '\n'))
  {
    if s != "" && IsSpace(s[|s| - 1]) {
      var init, x := s[..|s| - 1], s[|s| - 1];
      TrimRightKeepsLines(init);
      assert init + [x] == s;
      var a, b, c := Split(TrimRight(s), '\n'), Split(init, '\n'), Split(s, '\n');
      forall i | 0 <= i < |a| ensures IsLineOf(a[i], c) {
        assert IsLineOf(a[i], b);
        var j :| 0 <= j < |b| && SameTrimmed(a[i], b[j]);
        LastCharLines(init, x, j);
      }
    }
  }

  lemma TrimSettled(s: string, lower: string -> string)
    requires Settled(s, lower)
    ensures Settled(Trim(s), lower)
  {
    TrimLeftKeepsLines(s);
    TrimRightKeepsLines(TrimLeft(s));
  }

  lemma CollapseSettled(s: string, lower: string -> string)
    requires Settled(s, lower)
    ensures Settled(Collapse(s), lower)
  {
    CollapseKeepsLines(s);
    var a, b := Split(Collapse(s), '\n'), Split(s, '\n');
    forall i | 0 <= i < |a| ensures !IsRemovable(a[i], lower) {
      if i > 0 {
        assert a[i] in a[1..] && a[i] in b[1..];
        var j :| 1 <= j < |b| && b[j] == a[i];
      }
    }
  }

  lemma TrimNoTriple(s: string)
    requires NoTriple(s)
    ensures NoTriple(Trim(s))
  {
    var i, j := TrimResult(s);
    assert forall h | 0 <= h < j - i :: s[i..j][h] == s[i + h];
  }

  /** A settled, collapsed and trimmed text passes unchanged. */
  lemma SettledStays(y: string, lower: string -> string)
    requires Settled(y, lower) && NoTriple(y) && Trimmed(y)
    ensures RemovedSections(y, lower) == y
  {
    var lines := Split(y, '\n');
    NothingSkipped(lines, |lines|, Kinds(lines, lower));
    assert lines[..|lines|] == lines;
    JoinSplit(y, '\n');
    NoTripleIsCollapsed(y);
    TrimIdempotent(y);
  }

  /** Removing the sections of a text that has none left changes nothing. */
  lemma SectionsRemovedOnce(readme: string, lower: string -> string)
    requires lower("") == ""
    ensures RemovedSections(RemovedSections(readme, lower), lower) == RemovedSections(readme, lower)
    ensures Settled(RemovedSections(readme, lower), lower)
  {
    var lines := Split(readme, '\n');
    var kept := Kept(lines, |lines|, Kinds(lines, lower));
    var joined := Join(kept, '\n');
    KeptLines(lines, |lines|, Kinds(lines, lower));
    SplitIsFree(readme, '\n');
    forall i | 0 <= i < |kept| ensures Free(kept[i], {'\n'}) && !IsRemovable(kept[i], lower) {
      assert kept[i] in kept;
    }
    JoinedIsSettled(kept, lower);
    CollapseSettled(joined, lower);
    TrimSettled(Collapse(joined), lower);
    CollapseLeavesNoTriple(joined);
    TrimNoTriple(Collapse(joined));
    TrimIsTrimmed(Collapse(joined));
    SettledStays(RemovedSections(readme, lower), lower);
  }

  // ---------- ExtractReadme ----------

  /** `^#+\s?` at the start of a line. */
  predicate StartsHeader(line: string) {
    line != "" && line[0] == '#'
  }

  function Headers(lines: seq<string>): nat {
    if lines == [] then 0 else Headers(lines[..|lines| - 1]) + if StartsHeader(lines[|lines| - 1]) then 1 else 0
  }

  function WithNewlines(lines: seq<string>): string {
    if lines == [] then "" else WithNewlines(lines[..|lines| - 1]) + lines[|lines| - 1] + "\n"
  }

  /** `n` lines is the longest prefix with at most one header. */
  predicate LongestPrefix(lines: seq<string>, n: nat) {
    n <= |lines| && Headers(lines[..n]) <= 1 && (n < |lines| ==> Headers(lines[..n + 1]) > 1)
  }

  /** `r` is the longest line-prefix of the text with at most one header; it has at least one line. */
  ghost predicate Extracted(readme: string, r: string) {
    exists n: nat :: n > 0 && LongestPrefix(Split(readme, '\n'), n) && r == Join(Split(readme, '\n')[..n], '\n')
  }

  lemma HeadersNext(lines: seq<string>, i: nat)
    requires i < |lines|
    ensures Headers(lines[..i + 1]) == Headers(lines[..i]) + if StartsHeader(lines[i]) then 1 else 0
    ensures WithNewlines(lines[..i + 1]) == WithNewlines(lines[..i]) + lines[i] + "\n"
  {
    assert lines[..i + 1][..i] == lines[..i];
  }

  method ExtractReadme(readme: string) returns (r: string)
    ensures Extracted(readme, r)
  {
    if readme == "" {
      HeadersNext([""], 0);
      assert LongestPrefix(Split(readme, '\n'), 1) && Join(Split(readme, '\n')[..1], '\n') == "";
      return "";
    }
    var builder := "";
    var headerFound := false;
    var strArr := Split(readme, '\n');
    var i := 0;
    while i < |strArr|
      invariant 0 <= i <= |strArr|
      invariant builder == WithNewlines(strArr[..i])
      invariant Headers(strArr[..i]) == if headerFound then 1 else 0
    {
      HeadersNext(strArr, i);
      if StartsHeader(strArr[i]) {
        if headerFound {
          break;
        }
        headerFound := true;
      }
      builder := builder + strArr[i] + "\n";
      i := i + 1;
    }
    JoinWithNewlines(strArr[..i]);
    r := builder[..|builder| - 1];
    assert LongestPrefix(strArr, i);
  }

  lemma {:induction false} JoinWithNewlines(lines: seq<string>)
    requires lines != []
    ensures WithNewlines(lines) == Join(lines, '\n') + "\n"
  {
    var init, x := lines[..|lines| - 1], lines[|lines| - 1];
    assert init + [x] == lines;
    if init == [] {
      assert WithNewlines(init) == "";
    } else {
      JoinWithNewlines(init);
      JoinSnoc(init, x, '\n');
    }
  }

  lemma PrefixOfPrefix(lines: seq<string>, m: nat)
    requires Headers(lines) <= 1 && LongestPrefix(lines, m)
    ensures m == |lines|
  {
    if m < |lines| {
      HeadersGrow(lines, m + 1);
    }
  }

  /** The extracted text is its own longest prefix, so extracting again changes nothing. */
  lemma ExtractedOnce(readme: string, r: string, again: string)
    requires Extracted(readme, r) && Extracted(r, again)
    ensures again == r
  {
    var lines := Split(readme, '\n');
    var n: nat :| n > 0 && LongestPrefix(lines, n) && r == Join(lines[..n], '\n');
    SplitIsFree(readme, '\n');
    SplitJoin(lines[..n], '\n');
    var m: nat :| m > 0 && LongestPrefix(lines[..n], m) && again == Join(lines[..n][..m], '\n');
    PrefixOfPrefix(lines[..n], m);
    assert lines[..n][..m] == lines[..n];
  }

  lemma {:induction false} HeadersGrow(lines: seq<string>, m: nat)
    requires m <= |lines|
    ensures Headers(lines[..m]) <= Headers(lines)
    decreases |lines|
  {
    if m < |lines| {
      HeadersGrow(lines[..|lines| - 1], m);
      assert lines[..|lines| - 1][..m] == lines[..m];
    } else {
      assert lines[..m] == lines;
    }
  }
}
