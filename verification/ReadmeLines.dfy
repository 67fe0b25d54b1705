/** What becomes of the lines of a README (pkg/tools/tfe/get_private_module_details.go, removeReadmeSections, and
    pkg/utils/utils.go, ExtractReadme). */
module ReadmeLines {
  import opened Strings
  import opened Readme

  // ---------- which lines are headers ----------

  lemma HeaderMeans(line: string, lower: string -> string)
    ensures IsHeader(line, lower) <==> exists rest :: lower(Trim(line)) == "##" + rest
  {
    var l := lower(Trim(line));
    if "##" <= l {
      assert l == "##" + l[2..];
    }
  }

  /** A header starts a removed section iff one of four words occurs in it. */
  lemma RemovableMeans(line: string, lower: string -> string)
    ensures IsRemovable(line, lower) <==>
      var l := lower(Trim(line));
      && (exists rest :: l == "##" + rest)
      && (Within("inputs", l) || Within("outputs", l) || Within("dependencies", l) || Within("resources", l))
  {
    var l := lower(Trim(line));
    HeaderMeans(line, lower);
    ContainsIffWithin(l, "inputs");
    ContainsIffWithin(l, "outputs");
    ContainsIffWithin(l, "dependencies");
    ContainsIffWithin(l, "provider dependencies");
    ContainsIffWithin(l, "resources");
    WithinTail("provider ", "dependencies", l);
    assert "provider " + "dependencies" == "provider dependencies";
  }

  lemma WithinTail(a: string, b: string, text: string)
    ensures Within(a + b, text) ==> Within(b, text)
  {
    if Within(a + b, text) {
      var x, y :| text == x + (a + b) + y;
      assert text == (x + a) + b + y;
    }
  }

  /** Between the line and any removable header before it stands a header that is none. */
  predicate Outside(kinds: seq<Kind>, i: nat)
    requires i < |kinds|
  {
    forall h: nat | h <= i && kinds[h].RemovableHeader? :: exists l: nat | h < l <= i :: kinds[l].OtherHeader?
  }

  lemma OutsideNext(kinds: seq<Kind>, i: nat)
    requires i < |kinds|
    ensures Outside(kinds, i) <==>
      kinds[i].OtherHeader? || (kinds[i].Text? && (i > 0 ==> Outside(kinds, i - 1)))
  {
    if Outside(kinds, i) && kinds[i].Text? && i > 0 {
      forall h: nat | h <= i - 1 && kinds[h].RemovableHeader?
        ensures exists l: nat | h < l <= i - 1 :: kinds[l].OtherHeader?
      {
        var l: nat :| h < l <= i && kinds[l].OtherHeader?;
        assert l <= i - 1;
      }
    }
    if kinds[i].Text? && i > 0 && Outside(kinds, i - 1) {
      forall h: nat | h <= i && kinds[h].RemovableHeader?
        ensures exists l: nat | h < l <= i :: kinds[l].OtherHeader?
      {
        var l: nat :| h < l <= i - 1 && kinds[l].OtherHeader?;
        assert l <= i;
      }
    }
  }

  lemma {:induction false} OutsideIffNotSkipped(kinds: seq<Kind>, i: nat)
    requires i < |kinds|
    ensures Outside(kinds, i) <==> !Skipped(kinds, i)
  {
    OutsideNext(kinds, i);
    SkippedNext(kinds, i);
    if i > 0 {
      OutsideIffNotSkipped(kinds, i - 1);
    }
  }

  // ---------- which lines are kept ----------

  lemma {:induction false} KeptGrows(lines: seq<string>, i: nat, n: nat, kinds: seq<Kind>)
    requires i <= n <= |lines| == |kinds|
    ensures Kept(lines, i, kinds) <= Kept(lines, n, kinds)
    decreases n
  {
    if i < n {
      KeptGrows(lines, i, n - 1, kinds);
    }
  }

  /** A line outside removed sections is kept, after exactly those kept before it; and nothing else is. */
  lemma KeptIffOutside(lines: seq<string>, i: nat, kinds: seq<Kind>)
    requires i < |lines| == |kinds|
    ensures var before, all := Kept(lines, i, kinds), Kept(lines, |lines|, kinds);
      && before <= Kept(lines, i + 1, kinds) <= all
      && Kept(lines, i + 1, kinds)[|before|..] == if Outside(kinds, i) then [lines[i]] else []
    ensures Kept(lines, 0, kinds) == []
  {
    OutsideIffNotSkipped(kinds, i);
    KeptGrows(lines, i + 1, |lines|, kinds);
  }

  // ---------- newlines and white space ----------

  function Newlines(k: nat): (r: string)
    ensures |r| == k && forall i | 0 <= i < k :: r[i] == '\n'
  {
    seq(k, _ => '\n')
  }

  lemma NewlinesFirst(k: nat, s: string)
    requires k > 0 && (s == "" || s[0] != '\n')
    ensures var t := Newlines(k) + s;
      && t[0] == '\n' && t[1..] == Newlines(k - 1) + s
      && ("\n\n\n" <= t <==> k >= 3)
    ensures forall u :: ['\n'] + (Newlines(k - 1) + u) == Newlines(k) + u
  {
    var t := Newlines(k) + s;
    assert |t| > k ==> t[k] == s[0];
    assert k >= 3 ==> t[1] == '\n' && t[2] == '\n';
    assert ['\n'] + Newlines(k - 1) == Newlines(k);
    forall u ensures ['\n'] + (Newlines(k - 1) + u) == Newlines(k) + u {
      assert ['\n'] + (Newlines(k - 1) + u) == (['\n'] + Newlines(k - 1)) + u;
    }
  }

  /** Runs of newlines are cut to two, and everything else stays. */
  lemma {:induction false} CollapseRun(k: nat, s: string)
    requires s == "" || s[0] != '\n'
    ensures Collapse(Newlines(k) + s) == Newlines(if k < 2 then k else 2) + Collapse(s)
    ensures s != "" ==> Collapse(s) == [s[0]] + Collapse(s[1..])
  {
    if k == 0 {
      assert Newlines(0) + s == s && Newlines(0) + Collapse(s) == Collapse(s);
    } else {
      NewlinesFirst(k, s);
      CollapseRun(k - 1, s);
    }
  }

  lemma {:induction false} CollapseKeepsText(s: string)
    ensures Split(Collapse(s), '\n')[0] == Split(s, '\n')[0]
    ensures forall l | l in Split(s, '\n')[1..] && l != "" :: l in Split(Collapse(s), '\n')[1..]
  {
    CollapseKeepsLines(s);
    if s != "" {
      var t := Collapse(s[1..]);
      CollapseKeepsText(s[1..]);
      var r, rest := Split(t, '\n'), Split(s[1..], '\n');
      assert ([s[0]] + t)[1..] == t;
      if s[0] == '\n' {
        assert rest == [rest[0]] + rest[1..] && r == [r[0]] + r[1..];
        assert Split(s, '\n')[1..] == rest;
        assert "\n\n\n" <= s ==> rest[0] == "";
      } else {
        assert Split(s, '\n')[1..] == rest[1..];
      }
    }
  }

  predicate NonBlank(line: string) {
    Trim(line) != ""
  }

  /** Every line of `a` that is not blank is, up to white space, a line of `b`. */
  predicate TextIn(a: seq<string>, b: seq<string>) {
    forall i | 0 <= i < |a| && NonBlank(a[i]) :: IsLineOf(a[i], b)
  }

  lemma TextInVia(a: seq<string>, b: seq<string>, c: seq<string>)
    requires TextIn(a, b) && TextIn(b, c)
    ensures TextIn(a, c)
  {
    forall i | 0 <= i < |a| && NonBlank(a[i]) ensures IsLineOf(a[i], c) {
      var j :| 0 <= j < |b| && SameTrimmed(a[i], b[j]);
      assert IsLineOf(b[j], c);
      var k :| 0 <= k < |c| && SameTrimmed(b[j], c[k]);
      assert SameTrimmed(a[i], c[k]);
    }
  }

  lemma TextInSelf(a: seq<string>)
    ensures TextIn(a, a)
  {
    forall i | 0 <= i < |a| ensures IsLineOf(a[i], a) {
      assert SameTrimmed(a[i], a[i]);
    }
  }

  lemma WithoutFirstChar(x: char, b: seq<string>)
    requires IsSpace(x) && b != []
    ensures TextIn(CharBefore(x, b), b)
  {
    var a := CharBefore(x, b);
    forall i | 0 <= i < |a| && NonBlank(a[i]) ensures IsLineOf(a[i], b) {
      if x == '\n' {
        assert a[0] == "";
        assert a[i] == b[i - 1] && SameTrimmed(a[i], b[i - 1]);
      } else if i == 0 {
        assert ([x] + b[0])[1..] == b[0];
        assert SameTrimmed(a[0], b[0]);
      } else {
        assert SameTrimmed(a[i], b[i]);
      }
    }
  }

  lemma WithoutLastChar(b: seq<string>, x: char)
    requires IsSpace(x) && b != []
    ensures TextIn(CharAfter(b, x), b)
  {
    var a := CharAfter(b, x);
    TrimSpaceAfter(b[|b| - 1], x);
    forall i | 0 <= i < |a| ensures IsLineOf(a[i], b) {
      LineAt(a[i], b, i);
    }
  }

  lemma WithoutLastLine(b: seq<string>)
    ensures TextIn(b + [""], b)
  {
    forall i | 0 <= i < |b + [""]| && NonBlank((b + [""])[i]) ensures IsLineOf((b + [""])[i], b) {
      if i < |b| {
        LineAt(b[i], b, i);
      }
    }
  }

  lemma {:induction false} TrimLeftKeepsText(s: string)
    ensures TextIn(Split(s, '\n'), Split(TrimLeft(s), '\n'))
  {
    if s != "" && IsSpace(s[0]) {
      TrimLeftKeepsText(s[1..]);
      WithoutFirstChar(s[0], Split(s[1..], '\n'));
      TextInVia(Split(s, '\n'), Split(s[1..], '\n'), Split(TrimLeft(s), '\n'));
    } else {
      TextInSelf(Split(s, '\n'));
    }
  }

  lemma {:induction false} TrimRightKeepsText(s: string)
    ensures TextIn(Split(s, '\n'), Split(TrimRight(s), '\n'))
  {
    if s != "" && IsSpace(s[|s| - 1]) {
      var init, x := s[..|s| - 1], s[|s| - 1];
      TrimRightKeepsText(init);
      assert s == init + [x];
      if x == '\n' {
        WithoutLastLine(Split(init, '\n'));
        SplitConcat(init, '\n', "");
        assert init + ['\n'] + "" == s;
      } else {
        WithoutLastChar(Split(init, '\n'), x);
        SplitSnoc(init, x);
      }
      TextInVia(Split(s, '\n'), Split(init, '\n'), Split(TrimRight(s), '\n'));
    } else {
      TextInSelf(Split(s, '\n'));
    }
  }

  lemma TrimKeepsText(s: string)
    ensures TextIn(Split(s, '\n'), Split(Trim(s), '\n'))
  {
    TrimLeftKeepsText(s);
    TrimRightKeepsText(TrimLeft(s));
    TextInVia(Split(s, '\n'), Split(TrimLeft(s), '\n'), Split(Trim(s), '\n'));
  }

  /** Every line outside removed sections that is not blank is, up to white space, a line of the result. */
  lemma OtherLinesRemain(readme: string, i: nat, lower: string -> string)
    requires i < |Split(readme, '\n')| && NonBlank(Split(readme, '\n')[i])
    requires Outside(Kinds(Split(readme, '\n'), lower), i)
    ensures IsLineOf(Split(readme, '\n')[i], Split(RemovedSections(readme, lower), '\n'))
  {
    var lines := Split(readme, '\n');
    var kinds := Kinds(lines, lower);
    var kept := Kept(lines, |lines|, kinds);
    var joined := Join(kept, '\n');
    KeptIffOutside(lines, i, kinds);
    assert kept[|Kept(lines, i, kinds)|] == Kept(lines, i + 1, kinds)[|Kept(lines, i, kinds)|] == lines[i];
    KeptLines(lines, |lines|, kinds);
    SplitIsFree(readme, '\n');
    forall h | 0 <= h < |kept| ensures Free(kept[h], {'\n'}) {
      assert kept[h] in kept;
    }
    SplitJoin(kept, '\n');
    CollapseKeepsText(joined);
    assert kept == [kept[0]] + kept[1..];
    assert lines[i] in kept && lines[i] in Split(Collapse(joined), '\n');
    TrimKeepsText(Collapse(joined));
  }

  // ---------- ExtractReadme ----------

  /** At most one of the lines taken starts with '#'; and if a line is left out, the first of those
      starts with '#' and so does one of the lines taken. */
  lemma ExtractedMeans(readme: string, r: string) returns (n: nat)
    requires Extracted(readme, r)
    ensures var lines := Split(readme, '\n');
      && 0 < n <= |lines| && r == Join(lines[..n], '\n')
      && (forall i, j | 0 <= i < j < n :: !("#" <= lines[i] && "#" <= lines[j]))
      && (n < |lines| ==> "#" <= lines[n] && exists i | 0 <= i < n :: "#" <= lines[i])
  {
    var lines := Split(readme, '\n');
    n :| n > 0 && LongestPrefix(lines, n) && r == Join(lines[..n], '\n');
    AtMostOne(lines[..n]);
    if n < |lines| {
      HeadersNext(lines, n);
      SomeHeader(lines[..n]);
    }
    forall i, j | 0 <= i < j < n ensures !("#" <= lines[i] && "#" <= lines[j]) {
      assert lines[..n][i] == lines[i] && lines[..n][j] == lines[j];
    }
  }

  lemma {:induction false} SomeHeader(lines: seq<string>)
    ensures Headers(lines) > 0 <==> exists i | 0 <= i < |lines| :: "#" <= lines[i]
  {
    if lines != [] {
      var init := lines[..|lines| - 1];
      SomeHeader(init);
      assert forall i | 0 <= i < |init| :: init[i] == lines[i];
    }
  }

  lemma {:induction false} AtMostOne(lines: seq<string>)
    ensures Headers(lines) <= 1 <==> forall i, j | 0 <= i < j < |lines| :: !("#" <= lines[i] && "#" <= lines[j])
  {
    if lines != [] {
      var init := lines[..|lines| - 1];
      AtMostOne(init);
      SomeHeader(init);
      assert forall i | 0 <= i < |init| :: init[i] == lines[i];
    }
  }
}
