/** Comparing two extracted states (pkg/tools/state/diff_state.go) and looking one resource up
    (pkg/tools/state/get_resource.go). */
module Diff {
  import opened JsonTree
  import opened Resources
  import opened Sequences
  import Address

  type Resource = ExtractedResource<Option<Json>>
  type Attributes = map<string, Json>

  // ---------- attribute changes ----------

  datatype Change = Change(before: Json, after: Json)

  /** Reading a Go map: an absent key reads as nil. */
  function Get(m: Attributes, k: string): Json {
    if k in m then m[k] else Null
  }

  function Changes(before: Attributes, after: Attributes): map<string, Change> {
    map k | k in before.Keys + after.Keys && Get(before, k) != Get(after, k) :: Change(Get(before, k), Get(after, k))
  }

  method DiffAttrs(before: Attributes, after: Attributes) returns (changes: map<string, Change>)
    ensures changes == Changes(before, after)
  {
    changes := map[];
    var allKeys: set<string> := {};
    var keys := before.Keys;
    while keys != {}
      invariant keys <= before.Keys && allKeys == before.Keys - keys
    {
      var k :| k in keys;
      allKeys, keys := allKeys + {k}, keys - {k};
    }
    keys := after.Keys;
    while keys != {}
      invariant keys <= after.Keys && allKeys == before.Keys + (after.Keys - keys)
    {
      var k :| k in keys;
      allKeys, keys := allKeys + {k}, keys - {k};
    }
    keys := allKeys;
    while keys != {}
      invariant keys <= allKeys
      invariant changes
        == map k | k in allKeys && k !in keys && Get(before, k) != Get(after, k) ::
             Change(Get(before, k), Get(after, k))
    {
      var k :| k in keys;
      var bVal, aVal := Get(before, k), Get(after, k);
      if bVal != aVal {
        changes := changes[k := Change(bVal, aVal)];
      }
      keys := keys - {k};
    }
  }

  function Apply(m: Attributes, changes: map<string, Change>): Attributes {
    m + map k | k in changes :: changes[k].after
  }

  function Reverse(changes: map<string, Change>): map<string, Change> {
    map k | k in changes :: Change(changes[k].after, changes[k].before)
  }

  /** The reported changes are a patch from `before` to `after`, and no smaller map of changes is:
      every key that reads differently is reported, with both values as they were. */
  lemma ChangesArePatch(before: Attributes, after: Attributes, k: string)
    ensures Get(Apply(before, Changes(before, after)), k) == Get(after, k)
    ensures Get(Apply(after, Reverse(Changes(before, after))), k) == Get(before, k)
    ensures k in Changes(before, after) <==> Get(before, k) != Get(after, k)
  {
    assert k in before || k in after || (Get(before, k) == Null && Get(after, k) == Null);
  }

  lemma SwapReverses(before: Attributes, after: Attributes)
    ensures Changes(after, before) == Reverse(Changes(before, after))
  {
  }

  // ---------- indexes and lookup by address ----------

  /** Later entries overwrite earlier ones. */
  function IndexOf(rs: seq<Resource>): map<string, Resource> {
    if rs == [] then map[] else IndexOf(rs[..|rs| - 1])[rs[|rs| - 1].address := rs[|rs| - 1]]
  }

  method ResourceIndex(rs: seq<Resource>) returns (idx: map<string, Resource>)
    ensures idx == IndexOf(rs)
  {
    idx := map[];
    for i := 0 to |rs|
      invariant idx == IndexOf(rs[..i])
    {
      assert rs[..i + 1][..i] == rs[..i];
      idx := idx[rs[i].address := rs[i]];
    }
    assert rs[..|rs|] == rs;
  }

  /** The first resource with the address, as tf_get_resource scans for it. */
  method FindResource(rs: seq<Resource>, address: string) returns (found: Option<Resource>, at: nat)
    ensures found.Some? ==> at < |rs| && found.value == rs[at] && rs[at].address == address
    ensures forall i | 0 <= i < |rs| && rs[i].address == address :: found.Some? && at <= i
  {
    for i := 0 to |rs|
      invariant forall h | 0 <= h < i :: rs[h].address != address
    {
      if rs[i].address == address {
        return Some(rs[i]), i;
      }
    }
    return None, 0;
  }

  /** The index holds the last resource with each address. */
  lemma {:induction false} IndexHoldsLast(rs: seq<Resource>, i: nat)
    requires i < |rs|
    requires forall h | i < h < |rs| :: rs[h].address != rs[i].address
    ensures rs[i].address in IndexOf(rs) && IndexOf(rs)[rs[i].address] == rs[i]
  {
    if i < |rs| - 1 {
      IndexHoldsLast(rs[..|rs| - 1], i);
    }
  }

  lemma {:induction false} IndexHoldsOnly(rs: seq<Resource>, address: string)
    requires address in IndexOf(rs)
    ensures exists i | 0 <= i < |rs| :: rs[i].address == address
  {
    if rs[|rs| - 1].address != address {
      IndexHoldsOnly(rs[..|rs| - 1], address);
      var i :| 0 <= i < |rs| - 1 && rs[..|rs| - 1][i].address == address;
      assert rs[i].address == address;
    }
  }

  predicate DistinctAddresses(rs: seq<Resource>) {
    forall h, i | 0 <= h < i < |rs| :: rs[h].address != rs[i].address
  }

  /** Scan (first wins) and index (last wins) agree when no address repeats. */
  lemma ScanAgreesWithIndex(rs: seq<Resource>, address: string)
    requires DistinctAddresses(rs)
    ensures address in IndexOf(rs) <==> exists i | 0 <= i < |rs| :: rs[i].address == address
    ensures forall i | 0 <= i < |rs| && rs[i].address == address ::
      address in IndexOf(rs) && IndexOf(rs)[address] == rs[i]
  {
    if address in IndexOf(rs) {
      IndexHoldsOnly(rs, address);
    }
    forall i | 0 <= i < |rs| && rs[i].address == address
      ensures address in IndexOf(rs) && IndexOf(rs)[address] == rs[i]
    {
      IndexHoldsLast(rs, i);
    }
  }

  /** With repeats they agree on an address only if its first and last resources are the same. */
  lemma RepeatsDisagree(rs: seq<Resource>, first: nat, last: nat)
    requires first <= last < |rs| && rs[first].address == rs[last].address
    requires forall h | last < h < |rs| :: rs[h].address != rs[last].address
    ensures rs[first].address in IndexOf(rs)
    ensures IndexOf(rs)[rs[first].address] == rs[first] <==> rs[first] == rs[last]
  {
    IndexHoldsLast(rs, last);
  }

  // ---------- addresses of a whole state ----------

  /** The instances of a state, named as Terraform names them. */
  ghost predicate Names(rs: seq<StateResource<Option<Json>>>, names: seq<seq<Address.Instance>>) {
    && |rs| == |names|
    && forall i | 0 <= i < |rs| :: NamesBlock(rs[i], names[i])
  }

  ghost predicate NamesBlock(res: StateResource<Option<Json>>, names: seq<Address.Instance>) {
    && |res.instances| == |names|
    && forall j | 0 <= j < |names| ::
      && res.mod == Address.ModulePath(names[j].modules)
      && res.mode == (if names[j].data then "data" else "managed")
      && res.typ == names[j].typ && res.name == names[j].name
      && res.instances[j].indexKey == Address.KeyJson(names[j].key)
      && names[j].WellFormed()
  }

  predicate HasAddress(x: Resource, name: Address.Instance, fmt: Json -> string) {
    name.WellFormed() && x.address == name.Address(fmt)
  }

  function AddressRelation(fmt: Json -> string): (Resource, Address.Instance) -> bool {
    (x, name) => HasAddress(x, name, fmt)
  }

  predicate Addressed(xs: seq<Resource>, names: seq<Address.Instance>, fmt: Json -> string) {
    Pairwise(xs, names, AddressRelation(fmt))
  }

  lemma BlockAddresses(res: StateResource<Option<Json>>, names: seq<Address.Instance>, i: nat, cfg: Config)
    requires NamesBlock(res, names)
    ensures Addressed(ExtractUpTo(res, i, |res.instances|, cfg), names, cfg.fmt)
  {
    var xs := ExtractUpTo(res, i, |res.instances|, cfg);
    forall j | 0 <= j < |xs| ensures HasAddress(xs[j], names[j], cfg.fmt) {
      assert xs[j] == ExtractOne(res, i, j, cfg);
      assert xs[j].address
        == Address.BuildAddress(res.mod, res.mode, res.typ, res.name, res.instances[j].indexKey, cfg.fmt);
    }
  }

  lemma ExtractedAddresses(rs: seq<StateResource<Option<Json>>>, names: seq<seq<Address.Instance>>, cfg: Config)
    requires Names(rs, names)
    ensures Addressed(Extract(rs, cfg), Flatten(names), cfg.fmt)
  {
    var blocks := Blocks(rs, |rs|, cfg);
    forall i | 0 <= i < |rs| ensures Pairwise(blocks[i], names[i], AddressRelation(cfg.fmt)) {
      assert NamesBlock(rs[i], names[i]);
      BlockAddresses(rs[i], names[i], i, cfg);
    }
    FlattenPairwise(blocks, names, AddressRelation(cfg.fmt));
  }

  /** A state whose instances are well named and pairwise different has no repeated address, so the
      lookup by scan and the index used by the diff see the same resources. */
  lemma WellNamedStatesHaveDistinctAddresses(rs: seq<StateResource<Option<Json>>>,
                                             names: seq<seq<Address.Instance>>, cfg: Config)
    requires Names(rs, names)
    requires forall h, i | 0 <= h < i < |Flatten(names)| :: Flatten(names)[h] != Flatten(names)[i]
    ensures DistinctAddresses(Extract(rs, cfg))
  {
    ExtractedAddresses(rs, names, cfg);
    var xs, all := Extract(rs, cfg), Flatten(names);
    forall h, i | 0 <= h < i < |xs| ensures xs[h].address != xs[i].address {
      assert HasAddress(xs[h], all[h], cfg.fmt) && HasAddress(xs[i], all[i], cfg.fmt);
      Address.AddressInjective(all[h], all[i], cfg.fmt);
    }
  }

  // ---------- the diff of two states ----------

  type Index = map<string, Resource>

  function Fields(r: Resource): Attributes {
    match r.attributes
    case Some(Obj(m)) => m
    case _ => map[]
  }

  /** `s` lists exactly the members of `S`, each once. */
  predicate Lists<T(==)>(s: seq<T>, S: set<T>) {
    && (forall x | x in S :: x in s) && (forall i | 0 <= i < |s| :: s[i] in S)
    && (forall h, i | 0 <= h < i < |s| :: s[h] != s[i])
  }

  lemma ListsAppend<T>(s: seq<T>, S: set<T>, x: T)
    requires Lists(s, S) && x !in S
    ensures Lists(s + [x], S + {x})
  {
    assert x == (s + [x])[|s|];
    forall y | y in S ensures y in s + [x] {
      assert y in s;
    }
  }

  /** Addresses of one index that the other lacks, in map order. */
  method Missing(here: Index, there: Index) returns (addrs: seq<string>)
    ensures Lists(addrs, here.Keys - there.Keys)
  {
    addrs := [];
    var keys := here.Keys;
    while keys != {}
      invariant keys <= here.Keys
      invariant Lists(addrs, here.Keys - keys - there.Keys)
    {
      var addr :| addr in keys;
      if addr !in there {
        ListsAppend(addrs, here.Keys - keys - there.Keys, addr);
        addrs := addrs + [addr];
        assert here.Keys - keys - there.Keys + {addr} == here.Keys - (keys - {addr}) - there.Keys;
      } else {
        assert here.Keys - keys - there.Keys == here.Keys - (keys - {addr}) - there.Keys;
      }
      keys := keys - {addr};
    }
    assert here.Keys - {} - there.Keys == here.Keys - there.Keys;
  }

  predicate Differs(current: Index, other: Index, addr: string) {
    addr in current && addr in other && Changes(Fields(current[addr]), Fields(other[addr])) != map[]
  }

  function ChangedAddresses(current: Index, other: Index): set<string> {
    set addr | addr in current && Differs(current, other, addr)
  }

  datatype ChangedResource = ChangedResource(address: string, diff: map<string, Change>)

  function AddressesOf(changed: seq<ChangedResource>): (r: seq<string>)
    ensures |r| == |changed|
  {
    seq(|changed|, i requires 0 <= i < |changed| => changed[i].address)
  }

  /** Each reported resource is in both states, with its attribute changes. */
  predicate ReportsChanges(changed: seq<ChangedResource>, current: Index, other: Index) {
    forall i | 0 <= i < |changed| ::
      && changed[i].address in current && changed[i].address in other
      && changed[i].diff == Changes(Fields(current[changed[i].address]), Fields(other[changed[i].address]))
  }

  method DiffStates(current: Index, other: Index)
    returns (added: seq<string>, removed: seq<string>, changed: seq<ChangedResource>)
    ensures Lists(added, other.Keys - current.Keys)
    ensures Lists(removed, current.Keys - other.Keys)
    ensures Lists(AddressesOf(changed), ChangedAddresses(current, other))
    ensures ReportsChanges(changed, current, other)
  {
    added := Missing(other, current);
    removed := Missing(current, other);
    changed := [];
    var keys := current.Keys;
    ghost var done: set<string> := {};
    while keys != {}
      invariant keys <= current.Keys
      invariant done == set addr | addr in current.Keys - keys && Differs(current, other, addr)
      invariant Lists(AddressesOf(changed), done)
      invariant ReportsChanges(changed, current, other)
    {
      var addr :| addr in keys;
      keys := keys - {addr};
      if addr in other {
        var diff := DiffAttrs(Fields(current[addr]), Fields(other[addr]));
        if |diff| > 0 {
          ListsAppend(AddressesOf(changed), done, addr);
          assert AddressesOf(changed) + [addr] == AddressesOf(changed + [ChangedResource(addr, diff)]);
          changed := changed + [ChangedResource(addr, diff)];
          done := done + {addr};
        }
      }
    }
    assert done == ChangedAddresses(current, other);
  }

  lemma {:induction false} ListsCount<T>(s: seq<T>, S: set<T>)
    requires Lists(s, S)
    ensures |s| == |S|
  {
    if s != [] {
      var init, x := s[..|s| - 1], s[|s| - 1];
      forall y | y in S - {x} ensures y in init {
        var i :| 0 <= i < |s| && s[i] == y;
        assert init[i] == y;
      }
      ListsCount(init, S - {x});
    } else {
      assert S == {};
    }
  }

  /** The counts of the summary balance. */
  lemma DiffCounts(current: Index, other: Index, added: seq<string>, removed: seq<string>)
    requires Lists(added, other.Keys - current.Keys) && Lists(removed, current.Keys - other.Keys)
    ensures |other| == |current| - |removed| + |added|
  {
    ListsCount(added, other.Keys - current.Keys);
    ListsCount(removed, current.Keys - other.Keys);
    SplitCount(current.Keys, other.Keys);
    SplitCount(other.Keys, current.Keys);
    assert current.Keys * other.Keys == other.Keys * current.Keys;
  }

  lemma SplitCount<T>(A: set<T>, B: set<T>)
    ensures |A| == |A - B| + |A * B|
  {
    assert A == (A - B) + (A * B);
  }

  /** The three lists and the unreported addresses split the addresses of both states. */
  lemma DiffPartitions(current: Index, other: Index, added: seq<string>, removed: seq<string>, changed: seq<string>,
                       addr: string)
    requires Lists(added, other.Keys - current.Keys) && Lists(removed, current.Keys - other.Keys)
    requires Lists(changed, ChangedAddresses(current, other))
    ensures addr in added <==> addr in other && addr !in current
    ensures addr in removed <==> addr in current && addr !in other
    ensures addr in changed <==>
      addr in current && addr in other && ReadDifferently(Fields(current[addr]), Fields(other[addr]))
  {
    assert addr in changed <==> addr in ChangedAddresses(current, other);
    if addr in current && addr in other {
      SomeChange(Fields(current[addr]), Fields(other[addr]));
    }
  }

  ghost predicate ReadDifferently(x: Attributes, y: Attributes) {
    exists k :: Get(x, k) != Get(y, k)
  }

  lemma SomeChange(x: Attributes, y: Attributes)
    ensures Changes(x, y) != map[] <==> ReadDifferently(x, y)
  {
    if ReadDifferently(x, y) {
      var k :| Get(x, k) != Get(y, k);
      ChangesArePatch(x, y, k);
    } else if Changes(x, y) != map[] {
      var k :| k in Changes(x, y);
      ChangesArePatch(x, y, k);
    }
  }

  // ---------- the report in terms of attributes ----------

  /** The attributes of a resource; without any it counts as having the empty map. */
  predicate HasAttributes(r: Resource, m: Attributes) {
    r.attributes == Some(Obj(m)) || (r.attributes.None? && m == map[])
  }

  /** A resource of both states is reported iff some attribute, of any kind, reads differently, absent as
      null; and then with exactly the attributes that do, as they read in the two states. */
  lemma ReportedIffAttributesDiffer(current: Index, other: Index, changed: seq<ChangedResource>, addr: string,
                                    m: Attributes, n: Attributes)
    requires Lists(AddressesOf(changed), ChangedAddresses(current, other)) && ReportsChanges(changed, current, other)
    requires addr in current && addr in other && HasAttributes(current[addr], m) && HasAttributes(other[addr], n)
    ensures (exists i | 0 <= i < |changed| :: changed[i].address == addr) <==>
      exists k :: (if k in m then m[k] else Null) != (if k in n then n[k] else Null)
    ensures forall i, k | 0 <= i < |changed| && changed[i].address == addr ::
      var before, after := if k in m then m[k] else Null, if k in n then n[k] else Null;
      && (k in changed[i].diff <==> before != after)
      && (k in changed[i].diff ==> changed[i].diff[k] == Change(before, after))
  {
    assert Fields(current[addr]) == m && Fields(other[addr]) == n;
    SomeChange(m, n);
    if i :| 0 <= i < |changed| && changed[i].address == addr {
      assert AddressesOf(changed)[i] == addr;
    }
    if addr in ChangedAddresses(current, other) {
      var i :| 0 <= i < |changed| && AddressesOf(changed)[i] == addr;
      assert changed[i].address == addr;
    }
    forall k ensures Get(m, k) == (if k in m then m[k] else Null) && Get(n, k) == (if k in n then n[k] else Null) {
    }
    forall i, k | 0 <= i < |changed| && changed[i].address == addr
      ensures k in changed[i].diff <==> Get(m, k) != Get(n, k)
    {
      ChangesArePatch(m, n, k);
    }
  }
}
