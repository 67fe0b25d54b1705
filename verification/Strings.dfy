/** Small facts about strings that printers and splitters rely on. */
module Strings {

  predicate Free(s: string, D: set<char>) {
    forall i | 0 <= i < |s| :: s[i] !in D
  }

  predicate Contains(s: string, sub: string) {
    exists i | 0 <= i <= |s| - |sub| :: OccursAt(s, sub, i)
  }

  predicate OccursAt(s: string, sub: string, i: int)
    requires 0 <= i <= |s| - |sub|
  {
    s[i..i + |sub|] == sub
  }

  /** The text holds `sub`, between whatever comes before and after. */
  ghost predicate Within(sub: string, text: string) {
    exists x, y :: text == x + sub + y
  }

  lemma ContainsIffWithin(text: string, sub: string)
    ensures Contains(text, sub) <==> Within(sub, text)
  {
    if Contains(text, sub) {
      var i :| 0 <= i <= |text| - |sub| && OccursAt(text, sub, i);
      assert text == text[..i] + sub + text[i + |sub|..];
    }
    if Within(sub, text) {
      var x, y :| text == x + sub + y;
      assert OccursAt(text, sub, |x|);
    }
  }

  predicate StopsAt(s: string, D: set<char>) {
    s == "" || s[0] in D
  }

  /** Text free of delimiters, followed by a delimiter or the end, can be read back. */
  lemma Cancel(a: string, x: string, b: string, y: string, D: set<char>)
    requires Free(a, D) && Free(b, D) && StopsAt(x, D) && StopsAt(y, D)
    requires a + x == b + y
    ensures a == b && x == y
  {
    NotShorter(a, x, b, y, D);
    NotShorter(b, y, a, x, D);
    CancelSame(a, x, b, y);
  }

  lemma CancelSame(a: string, x: string, b: string, y: string)
    requires |a| == |b| && a + x == b + y
    ensures a == b && x == y
  {
    assert a == (a + x)[..|a|] == (b + y)[..|b|] == b;
    assert x == (a + x)[|a|..] == (b + y)[|b|..] == y;
  }

  lemma NotShorter(a: string, x: string, b: string, y: string, D: set<char>)
    requires Free(b, D) && StopsAt(x, D)
    requires a + x == b + y
    ensures |a| >= |b|
  {
    assert |a + x| == |b + y|;
    assert forall i | 0 <= i < |b| :: (b + y)[i] == b[i];
    assert forall i | 0 <= i < |x| :: (a + x)[|a| + i] == x[i];
    assert x == "" || (a + x)[|a|] in D;
  }

  // ---------- decimal numbers ----------

  function Digit(d: nat): char
    requires d < 10
  {
    "0123456789"[d]
  }

  function NatText(n: nat): (r: string)
    ensures r != ""
  {
    if n < 10 then [Digit(n)] else NatText(n / 10) + [Digit(n % 10)]
  }

  function IntText(n: int): string {
    if n < 0 then "-" + NatText(-n) else NatText(n)
  }

  lemma {:induction false} NatTextInjective(m: nat, n: nat)
    requires NatText(m) == NatText(n)
    ensures m == n
  {
    var s, t := NatText(m), NatText(n);
    if m >= 10 && n >= 10 {
      assert s[..|s| - 1] == NatText(m / 10) && t[..|t| - 1] == NatText(n / 10);
      NatTextInjective(m / 10, n / 10);
    }
    assert s[|s| - 1] == Digit(m % 10) && t[|t| - 1] == Digit(n % 10);
  }

  lemma {:induction false} NatTextChars(n: nat)
    ensures forall c | c in NatText(n) :: '0' <= c <= '9'
  {
    if n >= 10 {
      NatTextChars(n / 10);
    }
  }

  lemma IntTextChars(n: int)
    ensures forall c | c in IntText(n) :: '0' <= c <= '9' || c == '-'
  {
    NatTextChars(if n < 0 then -n else n);
  }

  lemma IntTextSign(n: int)
    ensures IntText(n) != "" && (IntText(n)[0] == '-' <==> n < 0) && IntText(n)[0] != '"'
  {
    if n >= 0 {
      NatTextChars(n);
      assert NatText(n)[0] in NatText(n);
    }
  }

  lemma IntTextInjective(m: int, n: int)
    requires IntText(m) == IntText(n)
    ensures m == n
  {
    IntTextSign(m);
    IntTextSign(n);
    if m < 0 {
      assert NatText(-m) == IntText(m)[1..] && NatText(-n) == IntText(n)[1..];
      NatTextInjective(-m, -n);
    } else {
      NatTextInjective(m, n);
    }
  }

  /** The value of a decimal numeral, by the codes of its digits. */
  function ReadNat(s: string): int {
    if s == "" then 0 else 10 * ReadNat(s[..|s| - 1]) + (s[|s| - 1] as int - '0' as int)
  }

  function ReadInt(s: string): int {
    if s != "" && s[0] == '-' then -ReadNat(s[1..]) else ReadNat(s)
  }

  lemma {:induction false} NatTextReads(n: nat)
    ensures ReadNat(NatText(n)) == n
  {
    if n >= 10 {
      NatTextReads(n / 10);
      assert NatText(n)[..|NatText(n)| - 1] == NatText(n / 10);
    } else {
      assert NatText(n)[..0] == "";
    }
  }

  /** A number is printed as its decimal numeral, without superfluous zeros. */
  lemma IntTextReads(n: int)
    ensures ReadInt(IntText(n)) == n
    ensures n != 0 ==> IntText(n)[if n < 0 then 1 else 0] != '0'
    ensures IntText(0) == "0"
  {
    IntTextSign(n);
    NatTextReads(if n < 0 then -n else n);
    if n != 0 {
      NoLeadingZero(if n < 0 then -n else n);
    }
  }

  lemma {:induction false} NoLeadingZero(n: nat)
    requires n > 0
    ensures NatText(n)[0] != '0'
  {
    if n >= 10 {
      NoLeadingZero(n / 10);
    }
  }

  // ---------- splitting and joining ----------

  function Split(s: string, c: char): (r: seq<string>)
    ensures r != []
  {
    if s == "" then [""]
    else
      var rest := Split(s[1..], c);
      if s[0] == c then [""] + rest else [[s[0]] + rest[0]] + rest[1..]
  }

  function Join(parts: seq<string>, c: char): string {
    if parts == [] then "" else if |parts| == 1 then parts[0] else parts[0] + [c] + Join(parts[1..], c)
  }

  lemma SplitCons(x: char, s: string, c: char)
    ensures Split([x] + s, c) == if x == c then [""] + Split(s, c) else [[x] + Split(s, c)[0]] + Split(s, c)[1..]
  {
    assert ([x] + s)[1..] == s;
  }

  lemma {:induction false} SplitConcat(a: string, c: char, b: string)
    ensures Split(a + [c] + b, c) == Split(a, c) + Split(b, c)
  {
    if a == "" {
      assert a + [c] + b == [c] + b;
      SplitCons(c, b, c);
    } else {
      var t := a[1..] + [c] + b;
      assert a + [c] + b == [a[0]] + t && [a[0]] + a[1..] == a;
      SplitConcat(a[1..], c, b);
      SplitCons(a[0], t, c);
      SplitCons(a[0], a[1..], c);
    }
  }

  lemma {:induction false} SplitOne(a: string, c: char)
    requires Free(a, {c})
    ensures Split(a, c) == [a]
  {
    if a != "" {
      SplitOne(a[1..], c);
      assert [a[0]] + a[1..] == a;
    }
  }

  lemma {:induction false} SplitJoin(parts: seq<string>, c: char)
    requires parts != [] && forall i | 0 <= i < |parts| :: Free(parts[i], {c})
    ensures Split(Join(parts, c), c) == parts
  {
    SplitOne(parts[0], c);
    if |parts| > 1 {
      SplitJoin(parts[1..], c);
      SplitConcat(parts[0], c, Join(parts[1..], c));
    }
  }

  lemma {:induction false} JoinSnoc(parts: seq<string>, x: string, c: char)
    requires parts != []
    ensures Join(parts + [x], c) == Join(parts, c) + [c] + x
  {
    if |parts| > 1 {
      JoinSnoc(parts[1..], x, c);
      assert (parts + [x])[1..] == parts[1..] + [x];
    } else {
      assert (parts + [x])[1..] == [x];
    }
  }

  lemma {:induction false} SplitIsFree(s: string, c: char)
    ensures forall i | 0 <= i < |Split(s, c)| :: Free(Split(s, c)[i], {c})
  {
    if s != "" {
      SplitIsFree(s[1..], c);
    }
  }

  lemma {:induction false} JoinSplit(s: string, c: char)
    ensures Join(Split(s, c), c) == s
  {
    if s != "" {
      JoinSplit(s[1..], c);
      var rest := Split(s[1..], c);
      if s[0] != c {
        assert Split(s, c)[1..] == rest[1..];
      }
    }
  }

  // ---------- trimming ----------

  /** Unicode white space, as Go's unicode.IsSpace decides it. */
  predicate IsSpace(c: char) {
    || c == ' ' || '\t' <= c <= '\r' || c == '\U{0085}' || c == '\U{00A0}' || c == '\U{1680}'
    || '\U{2000}' <= c <= '\U{200A}' || c == '\U{2028}' || c == '\U{2029}' || c == '\U{202F}'
    || c == '\U{205F}' || c == '\U{3000}'
  }

  function TrimLeft(s: string): string {
    if s != "" && IsSpace(s[0]) then TrimLeft(s[1..]) else s
  }

  function TrimRight(s: string): string {
    if s != "" && IsSpace(s[|s| - 1]) then TrimRight(s[..|s| - 1]) else s
  }

  /** strings.TrimSpace. */
  function Trim(s: string): string {
    TrimRight(TrimLeft(s))
  }

  predicate Trimmed(s: string) {
    s != "" ==> !IsSpace(s[0]) && !IsSpace(s[|s| - 1])
  }

  lemma {:induction false} TrimLeftResult(s: string)
    ensures TrimLeft(s) != "" ==> !IsSpace(TrimLeft(s)[0])
    ensures |TrimLeft(s)| <= |s| && TrimLeft(s) == s[|s| - |TrimLeft(s)|..]
  {
    if s != "" && IsSpace(s[0]) {
      TrimLeftResult(s[1..]);
    }
  }

  lemma {:induction false} TrimRightResult(s: string)
    ensures TrimRight(s) <= s
    ensures TrimRight(s) != "" ==> !IsSpace(TrimRight(s)[|TrimRight(s)| - 1])
  {
    if s != "" && IsSpace(s[|s| - 1]) {
      TrimRightResult(s[..|s| - 1]);
    }
  }

  /** What trimming leaves is trimmed. */
  lemma TrimIsTrimmed(s: string)
    ensures Trimmed(Trim(s))
  {
    TrimLeftResult(s);
    TrimRightResult(TrimLeft(s));
  }

  /** What trimming leaves is a stretch of the text. */
  lemma TrimResult(s: string) returns (i: nat, j: nat)
    ensures i <= j <= |s| && Trim(s) == s[i..j]
  {
    TrimLeftResult(s);
    TrimRightResult(TrimLeft(s));
    i := |s| - |TrimLeft(s)|;
    j := i + |Trim(s)|;
  }

  /** The characters that unicode.IsSpace accepts, by their codes. */
  lemma SpaceCodes(c: char)
    ensures IsSpace(c) <==>
      || c as int == 0x20 || 9 <= c as int <= 13 || c as int == 0x85 || c as int == 0xA0 || c as int == 0x1680
      || 0x2000 <= c as int <= 0x200A || c as int == 0x2028 || c as int == 0x2029 || c as int == 0x202F
      || c as int == 0x205F || c as int == 0x3000
  {
  }

  lemma {:induction false} TrimLeftExact(x: string, m: string)
    requires (forall i | 0 <= i < |x| :: IsSpace(x[i])) && (m != "" ==> !IsSpace(m[0]))
    ensures TrimLeft(x + m) == m
  {
    if x != "" {
      assert (x + m)[1..] == x[1..] + m;
      TrimLeftExact(x[1..], m);
    } else {
      assert x + m == m;
    }
  }

  lemma {:induction false} TrimRightExact(m: string, y: string)
    requires (forall i | 0 <= i < |y| :: IsSpace(y[i])) && (m != "" ==> !IsSpace(m[|m| - 1]))
    ensures TrimRight(m + y) == m
    decreases |y|
  {
    if y != "" {
      assert (m + y)[..|m + y| - 1] == m + y[..|y| - 1];
      TrimRightExact(m, y[..|y| - 1]);
    } else {
      assert m + y == m;
    }
  }

  /** Trimming takes away the white space around a text, all of it and nothing else. */
  lemma TrimExact(x: string, m: string, y: string)
    requires (forall i | 0 <= i < |x| :: IsSpace(x[i])) && (forall i | 0 <= i < |y| :: IsSpace(y[i])) && Trimmed(m)
    ensures Trim(x + m + y) == m
  {
    if m == "" {
      TrimLeftExact(x + y, "");
      assert x + m + y == x + y + "" && x + y + "" == x + y;
    } else {
      TrimLeftExact(x, m + y);
      TrimRightExact(m, y);
      assert x + m + y == x + (m + y);
    }
  }

  lemma TrimIdempotent(s: string)
    ensures Trim(Trim(s)) == Trim(s)
    ensures Trimmed(s) ==> Trim(s) == s
  {
    TrimIsTrimmed(s);
  }

  /** White space after the text does not change what trimming leaves. */
  lemma {:induction false} TrimSpaceAfter(s: string, c: char)
    requires IsSpace(c)
    ensures Trim(s + [c]) == Trim(s)
    decreases |s|
  {
    if s == "" {
      assert s + [c] == [c] && [c][1..] == "";
    } else if IsSpace(s[0]) {
      assert (s + [c])[1..] == s[1..] + [c];
      TrimSpaceAfter(s[1..], c);
    } else {
      assert (s + [c])[..|s|] == s;
    }
  }
}
