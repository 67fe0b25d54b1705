/** Loading state through the cache (pkg/tools/state/loader.go, StateLoader). */
module Loader {
  import opened JsonTree
  import opened Strings
  import opened Cache

  /** Whose view of which workspace a cache entry of the tfc backend belongs to. */
  datatype Scope = Scope(identity: string, org: string, workspace: string)
  {
    /** The separators cannot be mistaken for part of an earlier component. */
    predicate WellFormed() {
      Free(identity, {':'}) && Free(org, {'/'})
    }
  }

  function CacheKey(backend: string, s: Scope): string {
    if backend == "tfc" then "tfc:" + s.identity + ":" + s.org + "/" + s.workspace
    else backend + ":default"
  }

  lemma CacheKeyIsNeverEmpty(backend: string, s: Scope)
    ensures CacheKey(backend, s) != ""
  {
  }

  lemma KeyForm(s: Scope)
    ensures CacheKey("tfc", s) == "tfc:" + (s.identity + (":" + (s.org + ("/" + s.workspace))))
  {
  }

  /** Well-formed scopes never share an entry. */
  lemma KeyInjective(s: Scope, t: Scope)
    requires s.WellFormed() && t.WellFormed()
    ensures CacheKey("tfc", s) == CacheKey("tfc", t) <==> s == t
  {
    KeyNamesIdentity(s, t);
    if CacheKey("tfc", s) == CacheKey("tfc", t) {
      NamesApart(s, t);
    }
  }

  lemma NamesApart(s: Scope, t: Scope)
    requires Free(s.org, {'/'}) && Free(t.org, {'/'}) && s.org + "/" + s.workspace == t.org + "/" + t.workspace
    ensures s.org == t.org && s.workspace == t.workspace
  {
    var x, y := "/" + s.workspace, "/" + t.workspace;
    assert s.org + x == s.org + "/" + s.workspace && t.org + y == t.org + "/" + t.workspace;
    Cancel(s.org, x, t.org, y, {'/'});
    CancelSame("/", s.workspace, "/", t.workspace);
  }

  /** Identities without ':' never share an entry, whatever the organizations and workspaces are. */
  lemma KeyNamesIdentity(s: Scope, t: Scope)
    requires Free(s.identity, {':'}) && Free(t.identity, {':'})
    ensures CacheKey("tfc", s) == CacheKey("tfc", t) <==>
      s.identity == t.identity && s.org + "/" + s.workspace == t.org + "/" + t.workspace
  {
    KeyForm(s);
    KeyForm(t);
    var x, y := s.org + ("/" + s.workspace), t.org + ("/" + t.workspace);
    assert x == s.org + "/" + s.workspace && y == t.org + "/" + t.workspace;
    if CacheKey("tfc", s) == CacheKey("tfc", t) {
      CancelSame("tfc:", s.identity + (":" + x), "tfc:", t.identity + (":" + y));
      Cancel(s.identity, ":" + x, t.identity, ":" + y, {':'});
      CancelSame(":", x, ":", y);
    }
  }

  lemma {:induction false} SplitAtFirst(x: string, c: char) returns (a: string, b: string)
    requires c in x
    ensures x == a + ([c] + b) && Free(a, {c})
  {
    if x[0] == c {
      a, b := "", x[1..];
    } else {
      a, b := SplitAtFirst(x[1..], c);
      a := [x[0]] + a;
      assert x == [x[0]] + x[1..];
    }
  }

  /** Every scope shares its key with exactly one well-formed scope; being well-formed is being that one. */
  lemma WellFormedIffKeyUnshared(s: Scope)
    ensures s.WellFormed() <==>
      !exists t: Scope :: t.WellFormed() && t != s && CacheKey("tfc", t) == CacheKey("tfc", s)
  {
    if s.WellFormed() {
      forall t: Scope | t.WellFormed() && CacheKey("tfc", t) == CacheKey("tfc", s) ensures t == s {
        KeyInjective(s, t);
      }
    } else {
      var t := WellFormedTwin(s);
    }
  }

  lemma WellFormedTwin(s: Scope) returns (t: Scope)
    ensures t.WellFormed() && CacheKey("tfc", t) == CacheKey("tfc", s)
  {
    KeyForm(s);
    var text := s.identity + (":" + (s.org + ("/" + s.workspace)));
    assert text[|s.identity|] == ':';
    var identity, rest := SplitAtFirst(text, ':');
    SlashRemains(s, identity, rest);
    var org, workspace := SplitAtFirst(rest, '/');
    t := Scope(identity, org, workspace);
    assert rest == org + ("/" + workspace);
    KeyForm(t);
  }

  /** An identity keeps its entries to itself among identities without ':' exactly when it has none either. */
  lemma IdentityUnsharedIff(s: Scope)
    ensures Free(s.identity, {':'}) <==>
      !exists t: Scope ::
        Free(t.identity, {':'}) && t.identity != s.identity && CacheKey("tfc", t) == CacheKey("tfc", s)
  {
    if Free(s.identity, {':'}) {
      forall t: Scope | Free(t.identity, {':'}) && CacheKey("tfc", t) == CacheKey("tfc", s)
        ensures t.identity == s.identity
      {
        KeyNamesIdentity(s, t);
      }
    } else {
      var t := WellFormedTwin(s);
    }
  }

  lemma SlashRemains(s: Scope, identity: string, rest: string)
    requires s.identity + (":" + (s.org + ("/" + s.workspace))) == identity + (":" + rest) && Free(identity, {':'})
    ensures '/' in rest
  {
    var text := s.identity + (":" + (s.org + ("/" + s.workspace)));
    NotShorter(s.identity, ":" + (s.org + ("/" + s.workspace)), identity, ":" + rest, {':'});
    var at := |s.identity| + 1 + |s.org|;
    assert text[at] == '/';
    assert (identity + (":" + rest))[at] == rest[at - |identity| - 1];
  }

  // ---------- resolving a request ----------

  datatype Environment = Environment(cloudOrg: string, tfeOrg: string)

  /** The organization given, else TF_CLOUD_ORG, else TFE_ORG. */
  function ResolveOrg(org: string, env: Environment): (r: string)
    ensures org != "" ==> r == org
    ensures org == "" && env.cloudOrg != "" ==> r == env.cloudOrg
    ensures r == "" <==> org == "" && env.cloudOrg == "" && env.tfeOrg == ""
  {
    if org != "" then org else if env.cloudOrg != "" then env.cloudOrg else env.tfeOrg
  }

  /** Moments of one load: the freshness check, and the two readings of the clock inside the put. */
  datatype Moments = Moments(check: int, judge: int, store: int)

  /** The arguments of a load; `sessionID` is "" without a session. */
  datatype Request = Request(sessionID: string, organization: string, workspace: string, force: bool)

  /** The outcome of a load. Rejected outright; or served from a fresh entry of the caller's own key, which
      needs a session and no forced refresh; or fetched, stored under that key and returned. `org` is the
      organization after defaults. */
  ghost predicate LoadResult<S>(backend: string, maxSize: int, ttl: int, q: Request, org: string,
      fetched: Result<S>, at: Moments, before: map<string, Entry<S>>, r: Result<S>, after: map<string, Entry<S>>)
  {
    if backend == "tfc" && (org == "" || q.workspace == "") then r == Err && after == before
    else
      var scope :=
        if backend == "tfc" then Scope(q.sessionID, org, q.workspace) else Scope("", q.organization, q.workspace);
      var key := CacheKey(backend, scope);
      var useCache := !q.force && !(backend == "tfc" && q.sessionID == "");
      if useCache && key in before && Fresh(before[key], at.check, ttl) then
        r == Ok(before[key].state) && after == before
      else
        var kept := if useCache then before - {key} else before;
        if fetched.Err? then r == Err && after == kept
        else r == fetched && PutResult(kept, key, Entry(fetched.value, at.store), maxSize, at.judge, ttl, after)
  }

  ghost predicate Holds<S>(m: map<string, Entry<S>>, key: string, state: S) {
    key in m && m[key].state == state
  }

  class StateLoader<S> {
    const backend: string
    const cache: StateCache<S>

    constructor (backend: string, cache: StateCache<S>)
      ensures this.backend == backend && this.cache == cache
    {
      this.backend, this.cache := backend, cache;
    }

    /** `fetched` is what the backend would answer now. */
    method Load(q: Request, env: Environment, fetched: Result<S>, at: Moments) returns (r: Result<S>)
      modifies cache`entries
      ensures LoadResult(backend, cache.maxSize, cache.ttl, q, ResolveOrg(q.organization, env), fetched, at,
        old(cache.entries), r, cache.entries)
      // Nothing but a missing organization or workspace is rejected, and that only for tfc.
      ensures fetched.Ok? ==>
        r.Err? == (backend == "tfc" &&
          (q.workspace == "" || (q.organization == "" && env.cloudOrg == "" && env.tfeOrg == "")))
      // Whatever is answered is then stored under the key of the organization given, or the first set default.
      ensures r.Ok? && backend == "tfc" && q.organization != "" ==>
        Holds(cache.entries, CacheKey("tfc", Scope(q.sessionID, q.organization, q.workspace)), r.value)
      ensures r.Ok? && backend == "tfc" && q.organization == "" && env.cloudOrg != "" ==>
        Holds(cache.entries, CacheKey("tfc", Scope(q.sessionID, env.cloudOrg, q.workspace)), r.value)
      ensures r.Ok? && backend == "tfc" && q.organization == "" && env.cloudOrg == "" ==>
        Holds(cache.entries, CacheKey("tfc", Scope(q.sessionID, env.tfeOrg, q.workspace)), r.value)
      ensures r.Ok? && backend != "tfc" ==> Holds(cache.entries, backend + ":default", r.value)
      // A forced load, and one without a session, answers with what was fetched.
      ensures r.Ok? && (q.force || (backend == "tfc" && q.sessionID == "")) ==> r == fetched
    {
      var org := q.organization;
      if backend == "tfc" {
        if org == "" {
          org := env.cloudOrg;
        }
        if org == "" {
          org := env.tfeOrg;
        }
        if org == "" {
          return Err;
        }
        if q.workspace == "" {
          return Err;
        }
      }
      var identity, forceRefresh := "", q.force;
      if backend == "tfc" {
        identity := q.sessionID;
        if identity == "" {
          forceRefresh := true;
        }
      }
      var key := CacheKey(backend, Scope(identity, org, q.workspace));
      if !forceRefresh {
        var cached := cache.Get(key, at.check);
        if cached.Some? {
          return Ok(cached.value);
        }
      }
      if fetched.Err? {
        return Err;
      }
      cache.Put(key, fetched.value, at.judge, at.store);
      r := fetched;
    }

    /** tf_refresh_cache: unlike `Load` it trims its arguments and does not fill in a default organization. */
    method RefreshCache(sessionID: string, organization: string, workspace: string)
      modifies cache`entries
      ensures cache.entries == old(cache.entries) - {RefreshKey(backend, sessionID, organization, workspace)}
      ensures cache.entries == old(cache.entries) -
        {if backend == "tfc" then "tfc:" + sessionID + ":" + Trim(organization) + "/" + Trim(workspace)
         else backend + ":default"}
    {
      var org, ws := Trim(organization), Trim(workspace);
      var identity := "";
      if backend == "tfc" {
        identity := sessionID;
      }
      cache.Invalidate(CacheKey(backend, Scope(identity, org, ws)));
    }
  }

  function RefreshKey(backend: string, sessionID: string, org: string, workspace: string): string {
    CacheKey(backend, Scope(if backend == "tfc" then sessionID else "", Trim(org), Trim(workspace)))
  }

  /** A refresh clears the entry that the same arguments load exactly when they need no trimming and
      name the organization themselves. */
  lemma RefreshReachesLoad(sessionID: string, org: string, workspace: string, env: Environment)
    ensures RefreshKey("tfc", sessionID, org, workspace)
        == CacheKey("tfc", Scope(sessionID, ResolveOrg(org, env), workspace))
      <==> Trim(org) == ResolveOrg(org, env) && Trim(workspace) == workspace
  {
    var s, t := Scope(sessionID, Trim(org), Trim(workspace)), Scope(sessionID, ResolveOrg(org, env), workspace);
    KeyForm(s);
    KeyForm(t);
    var i, j := TrimResult(org);
    var k, l := TrimResult(workspace);
    if CacheKey("tfc", s) == CacheKey("tfc", t) {
      var x, y := s.org + ("/" + s.workspace), t.org + ("/" + t.workspace);
      CancelSame("tfc:", sessionID + (":" + x), "tfc:", sessionID + (":" + y));
      CancelSame(sessionID, ":" + x, sessionID, ":" + y);
      CancelSame(":", x, ":", y);
      assert |s.org| <= |t.org| && |s.workspace| <= |t.workspace| && |x| == |y|;
      CancelSame(s.org, "/" + s.workspace, t.org, "/" + t.workspace);
      CancelSame("/", s.workspace, "/", t.workspace);
    }
  }
}
