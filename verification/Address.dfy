/** Resource addresses (pkg/tools/state/resources.go, buildAddress). */
module Address {
  import opened JsonTree
  import opened Strings

  const IDENT_STOPS := {'.', '['}

  function IndexText(indexKey: Json, fmt: Json -> string): string {
    match indexKey
    case Null => ""
    case Str(s) => "[\"" + s + "\"]"
    case Num(n) => "[" + IntText(Truncate(n)) + "]"
    case _ => "[" + fmt(indexKey) + "]"
  }

  function BuildAddress(mod: string, mode: string, typ: string, name: string, indexKey: Json, fmt: Json -> string)
    : string
  {
    (if mod != "" then mod + "." else "") + (if mode == "data" then "data." else "") +
    typ + "." + name + IndexText(indexKey, fmt)
  }

  /** The index comes last. */
  lemma IndexAtEnd(mode: string, typ: string, name: string, key: Json, fmt: Json -> string)
    ensures BuildAddress("", mode, typ, name, key, fmt)
      == BuildAddress("", mode, typ, name, Null, fmt) + IndexText(key, fmt)
  {
    NothingBehind("" + (if mode == "data" then "data." else "") + typ + "." + name);
  }

  lemma NothingBehind(s: string)
    ensures s + "" == s
  {
  }

  /** The parts of an address, as they are read in a Terraform configuration. */
  lemma AddressReads(mode: string, typ: string, name: string, s: string, fmt: Json -> string)
    ensures BuildAddress("", "managed", typ, name, Null, fmt) == typ + "." + name
    ensures BuildAddress("", "data", typ, name, Null, fmt) == "data." + typ + "." + name
    ensures BuildAddress("", mode, typ, name, Str(s), fmt)
      == BuildAddress("", mode, typ, name, Null, fmt) + ("[\"" + s + "\"]")
  {
    IndexAtEnd(mode, typ, name, Str(s), fmt);
  }

  /** The module path, if there is one, comes first. */
  lemma ModuleInFront(mod: string, mode: string, typ: string, name: string, key: Json, fmt: Json -> string)
    requires mod != ""
    ensures BuildAddress(mod, mode, typ, name, key, fmt) == mod + "." + BuildAddress("", mode, typ, name, key, fmt)
  {
    var data := if mode == "data" then "data." else "";
    BuildParts(mod, mode, typ, name, key, fmt, mod + ".", data);
    BuildParts("", mode, typ, name, key, fmt, "", data);
    NothingInFront(data + typ + "." + name + IndexText(key, fmt));
  }

  lemma NothingInFront(s: string)
    ensures "" + s == s
  {
  }

  /** A whole-number index is printed as its decimal numeral. */
  lemma IndexReads(mode: string, typ: string, name: string, n: int, fmt: Json -> string) returns (digits: string)
    ensures BuildAddress("", mode, typ, name, Num(n as real), fmt)
      == BuildAddress("", mode, typ, name, Null, fmt) + ("[" + digits + "]")
    ensures ReadInt(digits) == n && (n != 0 ==> digits[if n < 0 then 1 else 0] != '0')
  {
    digits := IntText(n);
    TruncateInt(n);
    IndexAtEnd(mode, typ, name, Num(n as real), fmt);
    IntTextReads(n);
  }

  // ---------- instances as Terraform names them ----------

  datatype InstanceKey = NoKey | IntKey(n: int) | StrKey(s: string)

  datatype ModuleStep = ModuleStep(name: string, key: InstanceKey)

  datatype Instance = Instance(modules: seq<ModuleStep>, data: bool, typ: string, name: string, key: InstanceKey)
  {
    function Address(fmt: Json -> string): string {
      BuildAddress(ModulePath(modules), if data then "data" else "managed", typ, name, KeyJson(key), fmt)
    }

    /** Identifiers hold neither '.' nor '['. A managed type spelled "module" with a string key is
        the one shape whose text can also be read as a module call. */
    predicate WellFormed() {
      && Free(typ, IDENT_STOPS) && Free(name, IDENT_STOPS)
      && (forall i | 0 <= i < |modules| :: Free(modules[i].name, IDENT_STOPS))
      && !(typ == "module" && !data && key.StrKey?)
    }
  }

  function KeyJson(k: InstanceKey): Json {
    match k
    case NoKey => Null
    case IntKey(n) => Num(n as real)
    case StrKey(s) => Str(s)
  }

  function EscapedChar(c: char): (r: string)
    ensures r != "" && r[0] != '"' && (|r| == 2 <==> r[0] == '\\') && |r| <= 2 && r[|r| - 1] == c
  {
    if c == '"' || c == '\\' then ['\\', c] else [c]
  }

  /** Module keys reach the state file quoted, with '"' and '\' escaped. */
  function Escape(s: string): string {
    if s == "" then ""
    else EscapedChar(s[0]) + Escape(s[1..])
  }

  function ModuleKeyText(k: InstanceKey): string {
    match k
    case NoKey => ""
    case IntKey(n) => "[" + IntText(n) + "]"
    case StrKey(s) => "[\"" + Escape(s) + "\"]"
  }

  function ModuleStepText(m: ModuleStep): string {
    "module." + m.name + ModuleKeyText(m.key)
  }

  function ModulePath(ms: seq<ModuleStep>): string {
    if ms == [] then ""
    else if |ms| == 1 then ModuleStepText(ms[0])
    else ModuleStepText(ms[0]) + "." + ModulePath(ms[1..])
  }

  // ---------- reading an address back ----------

  function ModulePrefix(ms: seq<ModuleStep>): string {
    if ms == [] then "" else ModuleStepText(ms[0]) + "." + ModulePrefix(ms[1..])
  }

  lemma {:induction false} ModulePathPrefix(ms: seq<ModuleStep>)
    ensures ModulePrefix(ms) == if ModulePath(ms) != "" then ModulePath(ms) + "." else ""
    ensures ms != [] ==> ModulePath(ms) != ""
  {
    if |ms| > 1 {
      ModulePathPrefix(ms[1..]);
    }
  }

  function KeyText(k: InstanceKey): string {
    match k
    case NoKey => ""
    case IntKey(n) => "[" + IntText(n) + "]"
    case StrKey(s) => "[\"" + s + "\"]"
  }

  function OwnText(i: Instance): string {
    (if i.data then "data." else "") + i.typ + "." + i.name + KeyText(i.key)
  }

  lemma BuildParts(mod: string, mode: string, typ: string, name: string, indexKey: Json, fmt: Json -> string,
                   prefix: string, data: string)
    requires prefix == if mod != "" then mod + "." else ""
    requires data == if mode == "data" then "data." else ""
    ensures BuildAddress(mod, mode, typ, name, indexKey, fmt)
      == prefix + (data + typ + "." + name + IndexText(indexKey, fmt))
  {
  }

  lemma KeyJsonText(k: InstanceKey, fmt: Json -> string)
    ensures IndexText(KeyJson(k), fmt) == KeyText(k)
  {
    if k.IntKey? {
      TruncateInt(k.n);
    }
  }

  lemma AddressParts(i: Instance, fmt: Json -> string)
    ensures i.Address(fmt) == ModulePrefix(i.modules) + OwnText(i)
  {
    ModulePathPrefix(i.modules);
    BuildParts(ModulePath(i.modules), if i.data then "data" else "managed", i.typ, i.name, KeyJson(i.key), fmt,
      ModulePrefix(i.modules), if i.data then "data." else "");
    KeyJsonText(i.key, fmt);
  }

  lemma EscapeHead(s: string, x: string)
    ensures s == "" ==> Escape(s) + "\"" + x == "\"" + x
    ensures s != "" ==> Escape(s) + "\"" + x == EscapedChar(s[0]) + (Escape(s[1..]) + "\"" + x)
  {
  }

  lemma {:induction false} EscapeCancel(s: string, x: string, t: string, y: string)
    requires Escape(s) + "\"" + x == Escape(t) + "\"" + y
    ensures s == t && x == y
  {
    EscapeHead(s, x);
    EscapeHead(t, y);
    assert (Escape(s) + "\"" + x)[0] == (Escape(t) + "\"" + y)[0];
    if s != "" && t != "" {
      HeadsCancel(s[0], Escape(s[1..]) + "\"" + x, t[0], Escape(t[1..]) + "\"" + y);
      EscapeCancel(s[1..], x, t[1..], y);
      assert s == [s[0]] + s[1..] && t == [t[0]] + t[1..];
    } else if s == "" && t == "" {
      CancelSame("\"", x, "\"", y);
    }
  }

  lemma HeadsCancel(c: char, x: string, d: char, y: string)
    requires EscapedChar(c) + x == EscapedChar(d) + y
    ensures c == d && x == y
  {
    assert (EscapedChar(c) + x)[0] == EscapedChar(c)[0] && (EscapedChar(d) + y)[0] == EscapedChar(d)[0];
    CancelSame(EscapedChar(c), x, EscapedChar(d), y);
  }

  lemma IntKeyCancel(m: int, x: string, n: int, y: string)
    requires IntText(m) + ("]" + x) == IntText(n) + ("]" + y)
    ensures m == n && x == y
  {
    IntTextChars(m);
    IntTextChars(n);
    assert Free(IntText(m), {']'}) by {
      forall i | 0 <= i < |IntText(m)| ensures IntText(m)[i] != ']' { assert IntText(m)[i] in IntText(m); }
    }
    assert Free(IntText(n), {']'}) by {
      forall i | 0 <= i < |IntText(n)| ensures IntText(n)[i] != ']' { assert IntText(n)[i] in IntText(n); }
    }
    Cancel(IntText(m), "]" + x, IntText(n), "]" + y, {']'});
    IntTextInjective(m, n);
    assert ("]" + x)[1..] == x && ("]" + y)[1..] == y;
  }

  /** The first two characters tell the three kinds of key apart. */
  lemma KeyHead(k: InstanceKey, x: string)
    ensures var u := ModuleKeyText(k) + ("." + x);
      (u[0] == '.' <==> k.NoKey?) && (k.NoKey? || (|u| > 1 && u[0] == '[' && (u[1] == '"' <==> k.StrKey?)))
  {
    if k.IntKey? {
      IntTextSign(k.n);
      assert ModuleKeyText(k)[1] == IntText(k.n)[0];
    }
  }

  lemma IntKeyForm(n: int, x: string)
    ensures ModuleKeyText(IntKey(n)) + x == "[" + (IntText(n) + ("]" + x))
  {
  }

  lemma StrKeyForm(s: string, x: string)
    ensures ModuleKeyText(StrKey(s)) + x == "[\"" + (Escape(s) + "\"" + ("]" + x))
  {
  }

  lemma ModuleKeyCancel(k: InstanceKey, x: string, l: InstanceKey, y: string)
    requires ModuleKeyText(k) + ("." + x) == ModuleKeyText(l) + ("." + y)
    ensures k == l && x == y
  {
    KeyHead(k, x);
    KeyHead(l, y);
    if k.IntKey? {
      IntKeyForm(k.n, "." + x);
      IntKeyForm(l.n, "." + y);
      CancelSame("[", IntText(k.n) + ("]" + ("." + x)), "[", IntText(l.n) + ("]" + ("." + y)));
      IntKeyCancel(k.n, "." + x, l.n, "." + y);
    } else if k.StrKey? {
      StrKeyForm(k.s, "." + x);
      StrKeyForm(l.s, "." + y);
      CancelSame("[\"", Escape(k.s) + "\"" + ("]" + ("." + x)), "[\"", Escape(l.s) + "\"" + ("]" + ("." + y)));
      EscapeCancel(k.s, "]" + ("." + x), l.s, "]" + ("." + y));
      CancelSame("]", "." + x, "]", "." + y);
    } else {
      assert ModuleKeyText(k) + ("." + x) == "." + x && ModuleKeyText(l) + ("." + y) == "." + y;
    }
    CancelSame(".", x, ".", y);
  }

  /** A printed key is empty, or opens with '[' and a second character that tells its kind. */
  lemma KeyTextHead(k: InstanceKey)
    ensures KeyText(k) == "" <==> k.NoKey?
    ensures StopsAt(KeyText(k), {'['})
    ensures !k.NoKey? ==> |KeyText(k)| > 1 && KeyText(k)[0] == '[' && (KeyText(k)[1] == '"' <==> k.StrKey?)
  {
    if k.IntKey? {
      IntTextSign(k.n);
      assert KeyText(k)[1] == IntText(k.n)[0];
    }
  }

  lemma KeyTextInjective(k: InstanceKey, l: InstanceKey)
    requires KeyText(k) == KeyText(l)
    ensures k == l
  {
    KeyTextHead(k);
    KeyTextHead(l);
    var u, w := KeyText(k), KeyText(l);
    if k.IntKey? {
      assert u[1..] == IntText(k.n) + ("]" + "") && w[1..] == IntText(l.n) + ("]" + "");
      IntKeyCancel(k.n, "", l.n, "");
    } else if k.StrKey? {
      assert u[2..|u| - 2] == k.s && w[2..|w| - 2] == l.s;
    }
  }

  /** What follows the identifier of a type: '.', the name and the key. */
  function NameText(i: Instance): string {
    i.name + KeyText(i.key)
  }

  lemma OwnTextForm(i: Instance)
    ensures OwnText(i) == (if i.data then "data." else "") + (i.typ + ("." + NameText(i)))
    ensures i.data ==> OwnText(i) == "data" + ("." + (i.typ + ("." + NameText(i))))
  {
  }

  lemma ModuleStepForm(m: ModuleStep, rest: string)
    ensures ModuleStepText(m) + "." + rest == "module" + ("." + (m.name + (ModuleKeyText(m.key) + ("." + rest))))
  {
  }

  /** A printed key that ends the text is not a module key, which a '.' follows, unless it is quoted. */
  lemma KeyIsNotModuleKey(k: InstanceKey, l: InstanceKey, rest: string)
    requires !k.StrKey?
    ensures KeyText(k) != ModuleKeyText(l) + ("." + rest)
  {
    KeyTextHead(k);
    KeyHead(l, rest);
    if k.IntKey? && KeyText(k) == ModuleKeyText(l) + ("." + rest) {
      IntKeyForm(k.n, "");
      IntKeyForm(l.n, "." + rest);
      assert KeyText(k) == ModuleKeyText(k) + "";
      CancelSame("[", IntText(k.n) + ("]" + ""), "[", IntText(l.n) + ("]" + ("." + rest)));
      IntKeyCancel(k.n, "", l.n, "." + rest);
    }
  }

  /** An instance's own part of the address cannot be read as a module call. */
  lemma OwnTextIsNoModule(i: Instance, m: ModuleStep, rest: string)
    requires i.WellFormed() && Free(m.name, IDENT_STOPS)
    ensures OwnText(i) != ModuleStepText(m) + "." + rest
  {
    OwnTextForm(i);
    ModuleStepForm(m, rest);
    if i.data {
      assert OwnText(i)[0] == 'd' && (ModuleStepText(m) + "." + rest)[0] == 'm';
    } else if OwnText(i) == ModuleStepText(m) + "." + rest {
      var y := m.name + (ModuleKeyText(m.key) + ("." + rest));
      Cancel(i.typ, "." + NameText(i), "module", "." + y, IDENT_STOPS);
      CancelSame(".", NameText(i), ".", y);
      KeyTextHead(i.key);
      KeyHead(m.key, rest);
      Cancel(i.name, KeyText(i.key), m.name, ModuleKeyText(m.key) + ("." + rest), IDENT_STOPS);
      KeyIsNotModuleKey(i.key, m.key, rest);
    }
  }

  lemma ModuleStepCancel(m: ModuleStep, x: string, n: ModuleStep, y: string)
    requires Free(m.name, IDENT_STOPS) && Free(n.name, IDENT_STOPS)
    requires ModuleStepText(m) + "." + x == ModuleStepText(n) + "." + y
    ensures m == n && x == y
  {
    ModuleStepForm(m, x);
    ModuleStepForm(n, y);
    var k, l := ModuleKeyText(m.key) + ("." + x), ModuleKeyText(n.key) + ("." + y);
    CancelSame("module", "." + (m.name + k), "module", "." + (n.name + l));
    CancelSame(".", m.name + k, ".", n.name + l);
    KeyHead(m.key, x);
    KeyHead(n.key, y);
    Cancel(m.name, k, n.name, l, IDENT_STOPS);
    ModuleKeyCancel(m.key, x, n.key, y);
  }

  lemma ModulePrefixHead(ms: seq<ModuleStep>, own: string)
    ensures ms == [] ==> ModulePrefix(ms) + own == own
    ensures ms != [] ==> ModulePrefix(ms) + own == ModuleStepText(ms[0]) + "." + (ModulePrefix(ms[1..]) + own)
  {
  }

  lemma {:induction false} ModulesCancel(ms: seq<ModuleStep>, i: Instance, ns: seq<ModuleStep>, j: Instance)
    requires i.WellFormed() && j.WellFormed()
    requires forall h | 0 <= h < |ms| :: Free(ms[h].name, IDENT_STOPS)
    requires forall h | 0 <= h < |ns| :: Free(ns[h].name, IDENT_STOPS)
    requires ModulePrefix(ms) + OwnText(i) == ModulePrefix(ns) + OwnText(j)
    ensures ms == ns && OwnText(i) == OwnText(j)
  {
    ModulePrefixHead(ms, OwnText(i));
    ModulePrefixHead(ns, OwnText(j));
    if ms == [] && ns != [] {
      OwnTextIsNoModule(i, ns[0], ModulePrefix(ns[1..]) + OwnText(j));
    } else if ms != [] && ns == [] {
      OwnTextIsNoModule(j, ms[0], ModulePrefix(ms[1..]) + OwnText(i));
    } else if ms != [] {
      ModuleStepCancel(ms[0], ModulePrefix(ms[1..]) + OwnText(i), ns[0], ModulePrefix(ns[1..]) + OwnText(j));
      ModulesCancel(ms[1..], i, ns[1..], j);
      assert ms == [ms[0]] + ms[1..] && ns == [ns[0]] + ns[1..];
    }
  }

  /** A data instance is never printed like a managed one, not even like one of type "data". */
  lemma DataIsNotManaged(i: Instance, j: Instance)
    requires i.WellFormed() && j.WellFormed() && i.data && !j.data
    ensures OwnText(i) != OwnText(j)
  {
    OwnTextForm(i);
    OwnTextForm(j);
    if OwnText(i) == OwnText(j) {
      var x := i.typ + ("." + NameText(i));
      Cancel("data", "." + x, j.typ, "." + NameText(j), IDENT_STOPS);
      CancelSame(".", x, ".", NameText(j));
      KeyTextHead(j.key);
      Cancel(i.typ, "." + NameText(i), j.name, KeyText(j.key), IDENT_STOPS);
    }
  }

  lemma OwnTextInjective(i: Instance, j: Instance)
    requires i.WellFormed() && j.WellFormed() && OwnText(i) == OwnText(j)
    ensures i.data == j.data && i.typ == j.typ && i.name == j.name && i.key == j.key
  {
    if i.data != j.data {
      DataIsNotManaged(if i.data then i else j, if i.data then j else i);
    }
    OwnTextForm(i);
    OwnTextForm(j);
    var d := if i.data then "data." else "";
    CancelSame(d, i.typ + ("." + NameText(i)), d, j.typ + ("." + NameText(j)));
    Cancel(i.typ, "." + NameText(i), j.typ, "." + NameText(j), IDENT_STOPS);
    CancelSame(".", NameText(i), ".", NameText(j));
    KeyTextHead(i.key);
    KeyTextHead(j.key);
    Cancel(i.name, KeyText(i.key), j.name, KeyText(j.key), IDENT_STOPS);
    KeyTextInjective(i.key, j.key);
  }

  /** Different instances are printed as different addresses. */
  lemma AddressInjective(i: Instance, j: Instance, fmt: Json -> string)
    requires i.WellFormed() && j.WellFormed()
    ensures i.Address(fmt) == j.Address(fmt) <==> i == j
  {
    AddressParts(i, fmt);
    AddressParts(j, fmt);
    if i.Address(fmt) == j.Address(fmt) {
      ModulesCancel(i.modules, i, j.modules, j);
      OwnTextInjective(i, j);
    }
  }

  lemma SpelledKey(e: string, own: string)
    ensures "[\"" + (e + "\"]." + own) + "\"]" == "[\"" + e + "\"]" + ("." + (own + "\"]"))
  {
  }

  lemma EndsInKey(rest: seq<ModuleStep>, j: Instance) returns (own: string)
    requires j.key.StrKey?
    ensures ModulePrefix(rest) + OwnText(j) == own + "\"]"
  {
    var text := (if j.data then "data." else "") + j.typ + "." + j.name + "[\"" + j.key.s;
    assert OwnText(j) == text + "\"]";
    own := ModulePrefix(rest) + text;
  }

  /** The excluded shape does collide: string keys are printed unescaped, so a managed resource of
      type "module" can spell out any instance, at any depth, inside a module call with a string key. */
  lemma ModuleTypeCollides(m: ModuleStep, rest: seq<ModuleStep>, j: Instance, fmt: Json -> string)
    requires j.modules == [m] + rest && m.key.StrKey? && j.key.StrKey?
    ensures exists s ::
      Instance([], false, "module", m.name, StrKey(s)).Address(fmt) == j.Address(fmt)
  {
    var own := EndsInKey(rest, j);
    var s := Escape(m.key.s) + "\"]." + own;
    var i := Instance([], false, "module", m.name, StrKey(s));
    SpelledKey(Escape(m.key.s), own);
    OneModuleCall(m, own + "\"]", i);
    AddressParts(i, fmt);
    AddressParts(j, fmt);
    ModulePrefixHead(j.modules, OwnText(j));
    assert j.modules[0] == m && j.modules[1..] == rest;
  }

  lemma OneModuleCall(m: ModuleStep, inner: string, i: Instance)
    requires i.typ == "module" && !i.data && i.name == m.name
    requires KeyText(i.key) == ModuleKeyText(m.key) + ("." + inner)
    ensures ModuleStepText(m) + "." + inner == OwnText(i)
  {
    ModuleStepForm(m, inner);
    OwnTextForm(i);
  }
}
