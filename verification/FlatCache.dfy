/** Flat mode's ETag-validated content cache against writers nobody controls. */
module FlatCache {
  import opened Types

  /** What a path holds at some instant: nothing, or bytes with the tag the server gives them, if any. */
  datatype Version = Absent | Present(data: Bytes, etag: Option<string>)

  datatype CachedContent = CachedContent(data: Bytes, etag: string)

  datatype OpError = NotFound | PermissionDenied | ConditionNotMatch | Unexpected

  /** Errors of a request that are no verdict on its condition. */
  type RequestError = e: OpError | e != ConditionNotMatch witness NotFound

  /** A request that goes wrong; a PUT may have landed all the same. */
  datatype Fault = Fault(error: RequestError, lands: bool)

  type History = seq<Version>

  /** The path holds bytes under this tag. */
  predicate Tagged(v: Version, etag: string) {
    v.Present? && v.etag == Some(etag)
  }

  /** Equal entity tags mean equal bytes, over the whole life of a path
      (sections 8.8.3, 13.1.1 and 13.1.2 of RFC 9110). */
  ghost predicate StrongTags(h: History) {
    forall i, j | 0 <= i < |h| && 0 <= j < |h| && h[i].Present? && h[j].Present? ::
      h[i].etag.Some? && h[i].etag == h[j].etag ==> h[i].data == h[j].data
  }

  /** The entry pairs a tag with the bytes that had it at some time. */
  ghost predicate Truthful(h: History, c: CachedContent) {
    exists i :: 0 <= i < |h| && Tagged(h[i], c.etag) && h[i].data == c.data
  }

  /** `bytes` was the path's content at some instant from `from` on. */
  ghost predicate HeldSince(h: History, from: nat, bytes: Bytes) {
    exists i :: from <= i < |h| && h[i].Present? && h[i].data == bytes
  }

  /** The path held nothing at some instant from `from` on. */
  ghost predicate AbsentSince(h: History, from: nat) {
    exists i :: from <= i < |h| && h[i].Absent?
  }

  // ---- what the store answers while the path holds `v` ----

  /** HEAD: the tag, if the object exists and the store gives tags. */
  function Head(v: Version): Result<Option<string>, OpError> {
    if v.Present? then Ok(v.etag) else Err(NotFound)
  }

  /** HEAD with If-None-Match: the condition fails only on the current tag. */
  function HeadIfNoneMatch(v: Version, etag: string): Result<(), OpError> {
    if v.Absent? then Err(NotFound) else if v.etag == Some(etag) then Err(ConditionNotMatch) else Ok(())
  }

  /** GET with If-Match: bytes only under the current tag. */
  function GetIfMatch(v: Version, etag: string): Result<Bytes, OpError> {
    if v.Absent? then Err(NotFound) else if v.etag == Some(etag) then Ok(v.data) else Err(ConditionNotMatch)
  }

  function Get(v: Version): Result<Bytes, OpError> {
    if v.Present? then Ok(v.data) else Err(NotFound)
  }

  function Respond<T>(fault: Option<Fault>, honest: Result<T, OpError>): Result<T, OpError> {
    if fault.Some? then Err(fault.value.error) else honest
  }

  /** The arm of `read` that serves cached bytes unvalidated: the conditional HEAD got an error which is
      neither its verdict nor a missing or forbidden object. */
  predicate Transient(check: Option<Result<(), OpError>>) {
    && check.Some? && check.value.Err?
    && check.value.error != ConditionNotMatch && check.value.error != NotFound && check.value.error != PermissionDenied
  }

  /** A tag that still matches vouches for the cached bytes, however old the entry is. */
  lemma MatchingTagIsCurrent(h: History, c: CachedContent, now: nat)
    requires StrongTags(h) && Truthful(h, c) && now < |h| && Tagged(h[now], c.etag)
    ensures h[now].data == c.data
  {
  }

  lemma TruthfulLater(h: History, g: History, c: CachedContent)
    requires h <= g && Truthful(h, c)
    ensures Truthful(g, c)
  {
    var i :| 0 <= i < |h| && Tagged(h[i], c.etag) && h[i].data == c.data;
    assert g[i] == h[i];
  }

  /** Whether the server may give `v` its tag. */
  predicate MayFollow(h: History, v: Version) {
    v.Present? && v.etag.Some? ==>
      forall i | 0 <= i < |h| && h[i].Present? && h[i].etag == v.etag :: h[i].data == v.data
  }

  lemma FollowKeepsTags(h: History, v: Version)
    requires StrongTags(h) && MayFollow(h, v)
    ensures StrongTags(h + [v])
  {
  }

  /** `trim_end_matches('/')`. */
  function TrimSlashes(path: string): (r: string)
    ensures r <= path && forall i | |r| <= i < |path| :: path[i] == '/'
    ensures r == [] || r[|r| - 1] != '/'
  {
    if path != [] && path[|path| - 1] == '/' then TrimSlashes(path[..|path| - 1]) else path
  }

  /** `rfind('/')`. */
  function LastSlash(path: string): (r: Option<nat>)
    ensures r.Some? ==> r.value < |path| && path[r.value] == '/' && '/' !in path[r.value + 1..]
    ensures r.None? ==> '/' !in path
  {
    if path == [] then None
    else if path[|path| - 1] == '/' then Some(|path| - 1)
    else
      var r := LastSlash(path[..|path| - 1]);
      assert path == path[..|path| - 1] + [path[|path| - 1]];
      assert r.Some? ==> path[r.value + 1..] == path[..|path| - 1][r.value + 1..] + [path[|path| - 1]];
      r
  }

  /** Everything before the last slash; the root for a bare name, nothing for the root. */
  function Parent(path: string): Option<string> {
    if path == [] then None
    else match LastSlash(path)
      case Some(at) => Some(path[..at])
      case None => Some([])
  }

  /** The history of a path, absent at first. */
  function Past(remote: map<string, History>, path: string): (h: History)
  {
    if path in remote then remote[path] else [Absent]
  }

  /** Histories only get longer. */
  ghost predicate Grows(r: map<string, History>, s: map<string, History>) {
    forall p | p in r || p in s :: Past(r, p) <= Past(s, p)
  }

  lemma GrowsTwice(r: map<string, History>, s: map<string, History>, t: map<string, History>)
    requires Grows(r, s) && Grows(s, t)
    ensures Grows(r, t)
  {
    forall p | p in r || p in t ensures Past(r, p) <= Past(t, p) {
      assert Past(r, p) <= Past(s, p);
      assert Past(s, p) <= Past(t, p);
    }
  }

  ghost predicate Sound(remote: map<string, History>) {
    forall p | p in remote :: remote[p] != [] && StrongTags(remote[p])
  }

  ghost predicate AllTruthful(remote: map<string, History>, cache: map<string, CachedContent>) {
    forall p | p in cache :: Truthful(Past(remote, p), cache[p])
  }

  lemma StillTruthful(r: map<string, History>, s: map<string, History>, cache: map<string, CachedContent>)
    requires AllTruthful(r, cache) && Grows(r, s)
    ensures AllTruthful(s, cache)
  {
    forall p | p in cache ensures Truthful(Past(s, p), cache[p]) {
      assert Past(r, p) <= Past(s, p);
      TruthfulLater(Past(r, p), Past(s, p), cache[p]);
    }
  }

  lemma Published(remote: map<string, History>, path: string, v: Version)
    requires Sound(remote) && MayFollow(Past(remote, path), v)
    ensures var r := remote[path := Past(remote, path) + [v]]; Sound(r) && Grows(remote, r)
  {
    FollowKeepsTags(Past(remote, path), v);
  }

  // ---- the shared caches, and what other callers do to them ----

  datatype Kind = OfContent | OfStat | OfDir

  datatype Foreign = Filled(kind: Kind, path: string) | Dropped(kind: Kind, path: string)

  /** The keys present in each cache, and the log of what others did. */
  datatype Caches = Caches(content: set<string>, stat: set<string>, dir: set<string>, others: seq<Foreign>)

  predicate Has(c: Caches, kind: Kind, path: string) {
    match kind
    case OfContent => path in c.content
    case OfStat => path in c.stat
    case OfDir => path in c.dir
  }

  /** From `a` to `b` the keys `gone` went: what is there of them, and what else came, others filled in
      the meantime; what else went, others dropped. */
  ghost predicate Left(a: Caches, b: Caches, gone: set<(Kind, string)>) {
    && a.others <= b.others
    && (forall kind, p | Has(b, kind, p) && ((kind, p) in gone || !Has(a, kind, p)) ::
          Filled(kind, p) in b.others[|a.others|..])
    && (forall kind, p | Has(a, kind, p) && !Has(b, kind, p) ::
          (kind, p) in gone || Dropped(kind, p) in b.others[|a.others|..])
  }

  lemma ThenLeft(a: Caches, b: Caches, c: Caches, gone: set<(Kind, string)>, more: set<(Kind, string)>)
    requires Left(a, b, gone) && Left(b, c, more)
    ensures Left(a, c, gone + more)
    ensures (more == {} ==> Left(a, c, gone)) && (gone == {} ==> Left(a, c, more))
  {
    hide Has;
    assert c.others[|a.others|..] == b.others[|a.others|..] + c.others[|b.others|..];
  }

  /** The caches but for the content of one path. */
  function Besides(c: Caches, path: string): Caches { c.(content := c.content + {path}) }

  lemma BesidesLeft(a: Caches, b: Caches, path: string)
    requires Left(a, b, {})
    ensures Left(Besides(a, path), Besides(b, path), {})
  {
  }

  lemma NoneLeft(a: Caches)
    ensures Left(a, a, {})
  {
  }

  /** What `invalidate_path` removes: both spellings of the path and the parent's listing. */
  function Affected(path: string): set<(Kind, string)> {
    var n := TrimSlashes(path);
    {(OfStat, n), (OfStat, n + "/"), (OfContent, n), (OfContent, n + "/")}
    + if Parent(n).Some? then {(OfDir, Parent(n).value)} else {}
  }

  function Slashes(k: nat): (r: string)
    ensures |r| == k && forall i | 0 <= i < k :: r[i] == '/'
  {
    seq(k, _ => '/')
  }

  /** The entry `name` of the directory `dir`, perhaps written with trailing slashes. */
  predicate IsEntry(path: string, dir: string, name: string, k: nat) {
    name != [] && '/' !in name && path == dir + "/" + name + Slashes(k)
  }

  predicate IsBareName(path: string, name: string, k: nat) {
    name != [] && '/' !in name && path == name + Slashes(k)
  }

  predicate IsRoot(path: string, k: nat) { path == Slashes(k) }

  /** From `a` to `b` the stat and content entries of both spellings of `p` went, and these listings: what is
      there of them others filled in the meantime. Nothing else went but by others. */
  ghost predicate Cleared(a: Caches, b: Caches, p: string, listings: set<string>) {
    Left(a, b, {(OfStat, p), (OfStat, p + "/"), (OfContent, p), (OfContent, p + "/")} +
               set d | d in listings :: (OfDir, d))
  }

  /** What a mutation of `path` has to clear: for the entry of a directory the listing of that directory, for
      a bare name that of the root, for the root itself none. */
  ghost predicate Invalidated(path: string, a: Caches, b: Caches) {
    && (forall dir, name, k | IsEntry(path, dir, name, k) :: Cleared(a, b, dir + "/" + name, {dir}))
    && (forall name, k | IsBareName(path, name, k) :: Cleared(a, b, name, {""}))
    && (forall k | IsRoot(path, k) :: Cleared(a, b, "", {}))
  }

  /** Every path is one of the three. */
  lemma PathForms(path: string)
    ensures || (exists dir, name, k :: IsEntry(path, dir, name, k))
            || (exists name, k :: IsBareName(path, name, k))
            || (exists k :: IsRoot(path, k))
  {
    var t := TrimSlashes(path);
    var k := |path| - |t|;
    assert path == t + Slashes(k);
    if t == [] {
      assert IsRoot(path, k);
    } else {
      match LastSlash(t) {
        case None => assert IsBareName(path, t, k);
        case Some(at) =>
          assert t == t[..at] + "/" + t[at + 1..];
          assert IsEntry(path, t[..at], t[at + 1..], k);
      }
    }
  }

  lemma {:induction false} TrimsAll(t: string, k: nat)
    requires t == [] || t[|t| - 1] != '/'
    ensures TrimSlashes(t + Slashes(k)) == t
    decreases k
  {
    var path := t + Slashes(k);
    if k == 0 {
      assert path == t;
    } else {
      assert path[..|path| - 1] == t + Slashes(k - 1);
      TrimsAll(t, k - 1);
    }
  }

  lemma {:induction false} LastSlashAt(path: string, at: nat)
    requires at < |path| && path[at] == '/' && '/' !in path[at + 1..]
    ensures LastSlash(path) == Some(at)
    decreases |path|
  {
    var front := path[..|path| - 1];
    assert at + 1 < |path| ==> path[at + 1..][|path| - at - 2] == path[|path| - 1];
    if path[|path| - 1] == '/' {
    } else {
      assert path[at + 1..] == front[at + 1..] + [path[|path| - 1]];
      LastSlashAt(front, at);
    }
  }

  lemma ParentOfEntry(dir: string, name: string)
    requires name != [] && '/' !in name
    ensures Parent(dir + "/" + name) == Some(dir)
  {
    var path := dir + "/" + name;
    assert path[|dir|] == '/' && path[|dir| + 1..] == name;
    LastSlashAt(path, |dir|);
    assert path[..|dir|] == dir;
  }

  lemma ParentOfName(name: string)
    requires name != [] && '/' !in name
    ensures Parent(name) == Some("")
  {
  }

  /** The five removals are the right ones, for every path. */
  lemma AffectedIsRight(path: string, a: Caches, b: Caches)
    requires Left(a, b, Affected(path))
    ensures Invalidated(path, a, b)
  {
    hide Left, TrimSlashes, Parent;
    forall dir, name, k | IsEntry(path, dir, name, k) ensures Cleared(a, b, dir + "/" + name, {dir}) {
      TrimsAll(dir + "/" + name, k);
      ParentOfEntry(dir, name);
      SameKeys(a, b, path, dir + "/" + name, {dir});
    }
    forall name, k | IsBareName(path, name, k) ensures Cleared(a, b, name, {""}) {
      TrimsAll(name, k);
      ParentOfName(name);
      SameKeys(a, b, path, name, {""});
    }
    forall k | IsRoot(path, k) ensures Cleared(a, b, "", {}) {
      TrimsAll("", k);
      assert "" + Slashes(k) == path;
      RootHasNoParent();
      SameKeys(a, b, path, "", {});
    }
  }

  lemma RootHasNoParent()
    ensures Parent("") == None
  {
  }

  lemma SameKeys(a: Caches, b: Caches, path: string, p: string, listings: set<string>)
    requires Left(a, b, Affected(path)) && TrimSlashes(path) == p
    requires listings == match Parent(p) case None => {} case Some(d) => {d}
    ensures Cleared(a, b, p, listings)
  {
    hide Left;
    assert Affected(path) == {(OfStat, p), (OfStat, p + "/"), (OfContent, p), (OfContent, p + "/")} +
                             set d | d in listings :: (OfDir, d);
  }

  class CachedOperator {
    /** The store's history of every path, its last version being what a request sees now. */
    var remote: map<string, History>
    var contentCache: map<string, CachedContent>
    var statCache: set<string>
    var dirCache: set<string>
    /** This caller's requests are numbered; `faults(n)` tells whether the one of number `n` goes wrong. */
    var requests: nat
    const faults: nat -> Option<Fault>
    const writeback: bool
    ghost var others: seq<Foreign>

    ghost predicate Valid()
      reads this`remote, this`contentCache
    {
      Sound(remote) && AllTruthful(remote, contentCache)
    }

    ghost function Keys(): Caches
      reads this`contentCache, this`statCache, this`dirCache, this`others
    {
      Caches(contentCache.Keys, statCache, dirCache, others)
    }

    constructor (writeback: bool, faults: nat -> Option<Fault>)
      ensures Valid() && this.writeback == writeback && this.faults == faults && contentCache == map[]
    {
      remote, contentCache, statCache, dirCache := map[], map[], {}, {};
      this.writeback, this.faults, requests := writeback, faults, 0;
      others := [];
    }

    /** One write or delete of any path, by anyone, under any tag the server may give. */
    method Publish(path: string, v: Version)
      requires Valid() && MayFollow(Past(remote, path), v)
      modifies this`remote
      ensures Valid() && remote == old(remote)[path := Past(old(remote), path) + [v]]
      ensures Grows(old(remote), remote)
    {
      hide AllTruthful, Sound, Grows, MayFollow, Past;
      Published(remote, path, v);
      StillTruthful(remote, remote[path := Past(remote, path) + [v]], contentCache);
      remote := remote[path := Past(remote, path) + [v]];
    }

    /** Another reader stores some version it was served, under that version's tag. */
    method FillFrom(path: string, at: nat)
      requires Valid()
      modifies this`contentCache, this`others
      ensures Valid() && Left(old(Keys()), Keys(), {})
      ensures Spared(old(contentCache), contentCache, old(others), others)
    {
      var h := Past(remote, path);
      if at < |h| && h[at].Present? && h[at].etag.Some? {
        assert Tagged(h[at], h[at].etag.value);
        contentCache := contentCache[path := CachedContent(h[at].data, h[at].etag.value)];
        others := others + [Filled(OfContent, path)];
      }
    }

    /** Another caller fills the stat or listing cache, or an entry of any cache goes. */
    method Churn(kind: Kind, path: string, fills: bool)
      requires Valid()
      modifies this`contentCache, this`statCache, this`dirCache, this`others
      ensures Valid() && Left(old(Keys()), Keys(), {})
      ensures Spared(old(contentCache), contentCache, old(others), others)
    {
      if fills && kind != OfContent {
        others := others + [Filled(kind, path)];
        if kind == OfStat {
          statCache := statCache + {path};
        } else {
          dirCache := dirCache + {path};
        }
      } else if !fills {
        others := others + [Dropped(kind, path)];
        match kind
        case OfContent => contentCache := contentCache - {path};
        case OfStat => statCache := statCache - {path};
        case OfDir => dirCache := dirCache - {path};
      }
    }

    /** What happens between two steps of a call: other clients write, other callers fill and evict. */
    method Interfere()
      requires Valid()
      modifies this`remote, this`contentCache, this`statCache, this`dirCache, this`others
      ensures Valid() && Grows(old(remote), remote) && Left(old(Keys()), Keys(), {})
      ensures Spared(old(contentCache), contentCache, old(others), others)
    {
      hide Sound, AllTruthful, Grows, Left, MayFollow, Spared;
      ghost var start, from, entries, log := remote, Keys(), contentCache, others;
      NoneTouched(entries, log);
      SameGrows(start);
      NoneLeft(from);
      var rounds: int := *;
      var n := 0;
      while n < rounds
        invariant Valid() && Grows(start, remote) && Left(from, Keys(), {})
        invariant Spared(entries, contentCache, log, others)
      {
        n := n + 1;
        ghost var before := remote;
        var path: string := *;
        var v: Version := *;
        if MayFollow(Past(remote, path), v) {
          Publish(path, v);
        } else {
          SameGrows(remote);
        }
        GrowsTwice(start, before, remote);
        ghost var c1, entries1, log1 := Keys(), contentCache, others;
        var at: nat := *;
        FillFrom(path, at);
        ghost var c2, entries2, log2 := Keys(), contentCache, others;
        ThenLeft(from, c1, c2, {}, {});
        SparedTwice(entries, entries1, entries2, log, log1, log2);
        var kind: Kind := *;
        var other: string := *;
        var fills: bool := *;
        Churn(kind, other, fills);
        ThenLeft(from, c2, Keys(), {}, {});
        SparedTwice(entries, entries2, contentCache, log, log2, others);
      }
    }

    /** The version a request that arrives now is answered from. */
    function Now(path: string): Version
      requires Valid()
      reads this`remote, this`contentCache
    {
      var h := Past(remote, path);
      h[|h| - 1]
    }

    method Stat(path: string) returns (r: Result<Option<string>, OpError>)
      requires Valid()
      modifies this`requests
      ensures requests == old(requests) + 1 && r == Respond(faults(old(requests)), Head(Now(path)))
    {
      var n := requests;
      requests := n + 1;
      return Respond(faults(n), Head(Now(path)));
    }

    method StatIfNoneMatch(path: string, etag: string) returns (r: Result<(), OpError>)
      requires Valid()
      modifies this`requests
      ensures requests == old(requests) + 1 && r == Respond(faults(old(requests)), HeadIfNoneMatch(Now(path), etag))
    {
      var n := requests;
      requests := n + 1;
      return Respond(faults(n), HeadIfNoneMatch(Now(path), etag));
    }

    method ReadIfMatch(path: string, etag: string) returns (r: Result<Bytes, OpError>)
      requires Valid()
      modifies this`requests
      ensures requests == old(requests) + 1 && r == Respond(faults(old(requests)), GetIfMatch(Now(path), etag))
    {
      var n := requests;
      requests := n + 1;
      return Respond(faults(n), GetIfMatch(Now(path), etag));
    }

    method ReadPlain(path: string) returns (r: Result<Bytes, OpError>)
      requires Valid()
      modifies this`requests
      ensures requests == old(requests) + 1 && r == Respond(faults(old(requests)), Get(Now(path)))
    {
      var n := requests;
      requests := n + 1;
      return Respond(faults(n), Get(Now(path)));
    }

    /** The error was the fault of one of this caller's requests from number `from` on, or the path was
        empty at some instant from `since` on. */
    ghost predicate Accounts(error: OpError, from: nat, path: string, since: nat)
      reads this`remote, this`requests
    {
      || (exists n :: from <= n < requests && faults(n).Some? && faults(n).value.error == error)
      || (error == NotFound && AbsentSince(Past(remote, path), since))
    }

    /** No request of this caller from number `from` on went wrong. */
    ghost predicate WentWell(from: nat)
      reads this`requests
    {
      forall n | from <= n < requests :: faults(n).None?
    }

    /** The content cache has what the path holds now, under its tag. */
    ghost predicate CachedNow(path: string)
      requires Valid() && HasTag(Now(path))
      reads this`remote, this`contentCache
    {
      path in contentCache && contentCache[path] == CachedContent(Now(path).data, Now(path).etag.value)
    }

    /** Linearizable: with anything happening between any two backend calls, bytes returned were the
        path's content at some instant during this call. Only if the call's first request was a
        conditional HEAD that went wrong (`Transient`) may they be an older content, and those too are
        never invented. `check` is the answer of that HEAD, if there was one: there is if the path was cached
        and nobody dropped it, and if the tag still matches it is the only request. Otherwise, if the store
        gives tags and nobody writes the path meanwhile, the call leaves what it read in the cache. */
    method Read(path: string) returns (r: Result<Bytes, OpError>, ghost check: Option<Result<(), OpError>>)
      requires Valid()
      modifies this`remote, this`contentCache, this`statCache, this`dirCache, this`others, this`requests
      ensures Valid() && Grows(old(remote), remote) && old(requests) < requests
      ensures r.Ok? && !Transient(check) ==>
                HeldSince(Past(remote, path), old(|Past(remote, path)|) - 1, r.value)
      ensures Transient(check) ==>
                && r.Ok? && HeldSince(Past(remote, path), 0, r.value)
                && requests == old(requests) + 1
                && faults(old(requests)).Some? && check.value == Err(faults(old(requests)).value.error)
      ensures writeback ==> check == None && requests == old(requests) + 1
      ensures Left(Besides(old(Keys()), path), Besides(Keys(), path), {})
      ensures r.Err? ==> Accounts(r.error, old(requests), path, old(|Past(remote, path)|) - 1)
      ensures check == Some(Err(ConditionNotMatch)) ==> r.Ok? && requests == old(requests) + 1
      ensures !writeback && path in old(contentCache) && Dropped(OfContent, path) !in Since(old(others), others) ==>
                check.Some?
      ensures !writeback && path in old(contentCache) && !Touched(old(others), others, path) &&
              Unwritten(old(remote), remote, path) && WentWell(old(requests)) &&
              Tagged(Now(path), old(contentCache)[path].etag) ==>
                check == Some(Err(ConditionNotMatch)) && r == Ok(old(contentCache)[path].data)
      ensures !writeback && Unwritten(old(remote), remote, path) && WentWell(old(requests)) && HasTag(Now(path)) ==>
                || check == Some(Err(ConditionNotMatch))
                || (CachedNow(path) && r == Ok(Now(path).data)
                    && requests == old(requests) + if check.Some? then 3 else 2)
    {
      hide StrongTags, Truthful, Left, Sound, AllTruthful, Grows, HeldSince, AbsentSince, Past, Spared, Touched;
      check := None;
      ghost var start, first, c0, entries := remote, requests, Keys(), contentCache;
      SameGrows(start);
      if writeback {
        r := Fresh(path, start, first);
        BesidesLeft(c0, Keys(), path);
        return;
      }
      Pause(start);
      ghost var c1, entries1 := Keys(), contentCache;
      BesidesLeft(c0, c1, path);
      SparedEntry(entries, entries1, c0.others, c1.others, path);
      if path in contentCache {
        var cached := contentCache[path];
        ghost var seen := remote;
        EntryTruthful(remote, contentCache, path);
        Pause(start);
        SparedTwice(entries, entries1, contentCache, c0.others, c1.others, others);
        ThenLeft(c0, c1, Keys(), {}, {});
        c1 := Keys();
        BesidesLeft(c0, c1, path);
        var answer := StatIfNoneMatch(path, cached.etag);
        check := Some(answer);
        CachedIsTruthful(start, seen, remote, path, cached);
        if answer == Err(ConditionNotMatch) {
          return Ok(cached.data), check;
        }
        if answer.Err? && answer.error != NotFound && answer.error != PermissionDenied {
          return Ok(cached.data), check;
        }
      }
      if path in c0.content && check.None? {
        DroppedSince(c0, c1, path);
      }
      ghost var between := remote;
      r := Refetch(path, start, first);
      ThenLeft(Besides(c0, path), Besides(c1, path), Besides(Keys(), path), {}, {});
      LaterToo(c0, c1, Keys(), path);
      TouchedLater(c0, c1, Keys(), path);
      if Unwritten(start, remote, path) {
        UnwrittenBetween(start, between, remote, path);
      }
    }

    /** An unconditional read, of whatever is there when the request arrives. */
    method Fresh(path: string, ghost start: map<string, History>, ghost first: nat)
      returns (r: Result<Bytes, OpError>)
      requires Valid() && Sound(start) && Grows(start, remote) && first <= requests
      modifies this`remote, this`contentCache, this`statCache, this`dirCache, this`others, this`requests
      ensures Valid() && Grows(start, remote) && Grows(old(remote), remote) && requests == old(requests) + 1
      ensures Left(old(Keys()), Keys(), {})
      ensures r.Ok? ==> HeldSince(Past(remote, path), |Past(start, path)| - 1, r.value)
      ensures r.Err? ==> Accounts(r.error, first, path, |Past(start, path)| - 1)
    {
      hide StrongTags, Truthful, Left, Sound, AllTruthful, Grows, HeldSince, AbsentSince, Past;
      Pause(start);
      r := ReadPlain(path);
      AnsweredNow(start, remote, path);
    }

    /** The way without a usable entry: a tag, the bytes under that tag, or else whatever is there. */
    method Refetch(path: string, ghost start: map<string, History>, ghost first: nat)
      returns (r: Result<Bytes, OpError>)
      requires Valid() && Sound(start) && Grows(start, remote) && first <= requests
      modifies this`remote, this`contentCache, this`statCache, this`dirCache, this`others, this`requests
      ensures Valid() && Grows(start, remote) && Grows(old(remote), remote) && old(requests) < requests
      ensures Left(Besides(old(Keys()), path), Besides(Keys(), path), {})
      ensures r.Ok? ==> HeldSince(Past(remote, path), |Past(start, path)| - 1, r.value)
      ensures r.Err? ==> Accounts(r.error, first, path, |Past(start, path)| - 1)
      ensures Unwritten(old(remote), remote, path) && WentWell(old(requests)) && HasTag(Now(path)) ==>
                CachedNow(path) && r == Ok(Now(path).data) && requests == old(requests) + 2
    {
      hide StrongTags, Truthful, Left, Sound, AllTruthful, Grows, HeldSince, AbsentSince, Past;
      ghost var before, c0 := remote, Keys();
      Pause(start);
      ghost var c1 := Keys();
      BesidesLeft(c0, c1, path);
      ghost var asked := remote;
      var head := Stat(path);
      if head.Ok? && head.value.Some? {
        ghost var between := remote;
        var got := Conditional(path, head.value.value, start, first);
        GrowsTwice(before, between, remote);
        ThenLeft(Besides(c0, path), Besides(c1, path), Besides(Keys(), path), {}, {});
        c1 := Keys();
        if Unwritten(before, remote, path) {
          UnwrittenBetween(before, asked, remote, path);
        }
        if got.Ok? || got.error != ConditionNotMatch {
          return got;
        }
      }
      ghost var between := remote;
      r := Fresh(path, start, first);
      GrowsTwice(before, between, remote);
      BesidesLeft(c1, Keys(), path);
      ThenLeft(Besides(c0, path), Besides(c1, path), Besides(Keys(), path), {}, {});
      if Unwritten(before, remote, path) {
        GrowsTwice(before, asked, between);
        UnwrittenBetween(before, between, remote, path);
        UnwrittenBetween(before, asked, between, path);
      }
    }

    /** The bytes under the given tag; what it gets it stores, by then perhaps no longer current. */
    method Conditional(path: string, etag: string, ghost start: map<string, History>, ghost first: nat)
      returns (r: Result<Bytes, OpError>)
      requires Valid() && Sound(start) && Grows(start, remote) && first <= requests
      modifies this`remote, this`contentCache, this`statCache, this`dirCache, this`others, this`requests
      ensures Valid() && Grows(start, remote) && Grows(old(remote), remote) && requests == old(requests) + 1
      ensures Left(Besides(old(Keys()), path), Besides(Keys(), path), {})
      ensures r.Ok? ==> HeldSince(Past(remote, path), |Past(start, path)| - 1, r.value)
      ensures r.Ok? ==> path in contentCache && contentCache[path] == CachedContent(r.value, etag)
      ensures Unwritten(old(remote), remote, path) && WentWell(old(requests)) && Tagged(Now(path), etag) ==>
                r == Ok(Now(path).data)
      ensures r.Err? && r.error != ConditionNotMatch ==> Accounts(r.error, first, path, |Past(start, path)| - 1)
    {
      hide StrongTags, Truthful, Left, Sound, AllTruthful, Grows, HeldSince, AbsentSince, Past;
      ghost var before, c0 := remote, Keys();
      Pause(start);
      ghost var c1 := Keys();
      BesidesLeft(c0, c1, path);
      ghost var asked := remote;
      r := ReadIfMatch(path, etag);
      AnsweredNow(start, remote, path);
      if r.Ok? {
        GotIsTruthful(remote, path, r.value, etag);
        ghost var between := remote;
        Pause(start);
        GrowsTwice(before, between, remote);
        StillTruthfulEntry(between, remote, path, CachedContent(r.value, etag));
        HeldStays(start, between, remote, path, r.value);
        ThenLeft(c0, c1, Keys(), {}, {});
        c1 := Keys();
        BesidesLeft(c0, c1, path);
        StoreEntry(path, r.value, etag);
        assert Besides(Keys(), path) == Besides(c1, path);
      }
      if Unwritten(before, remote, path) {
        UnwrittenBetween(before, asked, remote, path);
      }
    }

    /** The world moves on, from some earlier state `start`. */
    method Pause(ghost start: map<string, History>)
      requires Valid() && Grows(start, remote)
      modifies this`remote, this`contentCache, this`statCache, this`dirCache, this`others
      ensures Valid() && Grows(start, remote) && Grows(old(remote), remote)
      ensures Left(old(Keys()), Keys(), {}) && Spared(old(contentCache), contentCache, old(others), others)
    {
      hide Sound, AllTruthful, Grows, Left, Spared;
      ghost var before := remote;
      Interfere();
      GrowsTwice(start, before, remote);
    }

    method StoreEntry(path: string, data: Bytes, etag: string)
      requires Valid() && Truthful(Past(remote, path), CachedContent(data, etag))
      modifies this`contentCache
      ensures Valid() && contentCache == old(contentCache)[path := CachedContent(data, etag)]
    {
      contentCache := contentCache[path := CachedContent(data, etag)];
    }

    /** A PUT as the store sees it: under a tag of the store's choice, and perhaps landing although it fails. */
    method Put(path: string, data: Bytes) returns (r: Result<(), OpError>, ghost tag: Option<string>)
      requires Valid()
      modifies this`remote, this`requests
      ensures Valid() && Grows(old(remote), remote) && requests == old(requests) + 1
      ensures var fault := faults(old(requests));
              && r == Respond(fault, Ok(()))
              && (if fault.Some? && !fault.value.lands then remote == old(remote)
                  else remote == old(remote)[path := Past(old(remote), path) + [Present(data, tag)]])
    {
      hide Sound, AllTruthful, Grows;
      var n := requests;
      requests := n + 1;
      SameGrows(remote);
      var given: Option<string> := *;
      if !MayFollow(Past(remote, path), Present(data, given)) {
        given := None;
      }
      if faults(n).None? || faults(n).value.lands {
        Publish(path, Present(data, given));
      }
      return Respond(faults(n), Ok(())), given;
    }

    /** A successful write is part of the history from within the call, and of what it affects nothing
        that was cached before is left: what is there, other callers put there in the meantime. A failed
        one leaves the caches alone. */
    method Write(path: string, data: Bytes) returns (r: Result<(), OpError>)
      requires Valid()
      modifies this`remote, this`contentCache, this`statCache, this`dirCache, this`others, this`requests
      ensures Valid() && Grows(old(remote), remote)
      ensures requests == old(requests) + 1 && r == Respond(faults(old(requests)), Ok(()))
      ensures r.Ok? || faults(old(requests)).value.lands ==>
                HeldSince(Past(remote, path), old(|Past(remote, path)|), data)
      ensures if r.Ok? then Invalidated(path, old(Keys()), Keys()) else Left(old(Keys()), Keys(), {})
    {
      hide Invalidated, StrongTags, Truthful, Left, Sound, AllTruthful, Grows, Has, HeldSince, Affected, Past;
      ghost var start, c0 := remote, Keys();
      SameGrows(start);
      Pause(start);
      ghost var before := remote;
      ghost var tag;
      r, tag := Put(path, data);
      GrowsTwice(start, before, remote);
      ghost var written, c1 := remote, Keys();
      SameGrows(written);
      Pause(start);
      GrowsTwice(written, written, remote);
      ThenLeft(c0, c1, Keys(), {}, {});
      ghost var c2, later := Keys(), remote;
      if r.Ok? {
        InvalidatePath(path);
        GrowsTwice(start, later, remote);
        GrowsTwice(written, later, remote);
        ThenLeft(c0, c2, Keys(), {}, Affected(path));
        AffectedIsRight(path, c0, Keys());
      }
      if r.Ok? || faults(old(requests)).value.lands {
        WrittenStays(start, before, written, remote, path, data, tag);
      }
    }

    /** Five removals, one after the other, with other callers at work in between. */
    method InvalidatePath(path: string)
      requires Valid()
      modifies this`remote, this`contentCache, this`statCache, this`dirCache, this`others
      ensures Valid() && Grows(old(remote), remote)
      ensures Left(old(Keys()), Keys(), Affected(path)) && Invalidated(path, old(Keys()), Keys())
    {
      hide Invalidated, Left, Sound, AllTruthful, Grows, Has;
      ghost var start, c0 := remote, Keys();
      var normalized := TrimSlashes(path);
      var withSlash := normalized + "/";
      SameGrows(start);
      NoneLeft(c0);
      ghost var gone := Remove(OfStat, normalized, start, c0, {});
      gone := Remove(OfStat, withSlash, start, c0, gone);
      gone := Remove(OfContent, normalized, start, c0, gone);
      gone := Remove(OfContent, withSlash, start, c0, gone);
      var parent := Parent(normalized);
      if parent.Some? {
        gone := Remove(OfDir, parent.value, start, c0, gone);
      }
      assert gone == Affected(path);
      AffectedIsRight(path, c0, Keys());
    }

    method Remove(kind: Kind, key: string, ghost start: map<string, History>, ghost from: Caches,
                  ghost gone: set<(Kind, string)>) returns (ghost gone': set<(Kind, string)>)
      requires Valid() && Grows(start, remote) && Left(from, Keys(), gone)
      modifies this`remote, this`contentCache, this`statCache, this`dirCache, this`others
      ensures Valid() && Grows(start, remote) && gone' == gone + {(kind, key)} && Left(from, Keys(), gone')
    {
      hide Sound, Grows;
      ghost var c := Keys();
      match kind {
        case OfContent => contentCache := contentCache - {key};
        case OfStat => statCache := statCache - {key};
        case OfDir => dirCache := dirCache - {key};
      }
      assert Left(c, Keys(), {(kind, key)});
      ghost var c1 := Keys();
      hide Left, AllTruthful, Has;
      ThenLeft(from, c, c1, gone, {(kind, key)});
      Pause(start);
      gone' := gone + {(kind, key)};
      ThenLeft(from, c1, Keys(), gone', {});
    }
  }

  /** The path has a version under a tag. */
  predicate HasTag(v: Version) { v.Present? && v.etag.Some? }

  /** Nobody has written the path from `r` to `s`. */
  ghost predicate Unwritten(r: map<string, History>, s: map<string, History>, path: string) {
    Past(r, path) == Past(s, path)
  }

  lemma UnwrittenBetween(r: map<string, History>, s: map<string, History>, t: map<string, History>, path: string)
    requires Grows(r, s) && Grows(s, t) && Unwritten(r, t, path)
    ensures Unwritten(r, s, path) && Unwritten(s, t, path)
  {
    PastGrows(r, s, path);
    PastGrows(s, t, path);
  }

  /** What others did behind the first log. */
  function Since(before: seq<Foreign>, others: seq<Foreign>): seq<Foreign> {
    if |before| <= |others| then others[|before|..] else []
  }

  /** The content entries that others neither filled nor dropped are as they were. */
  ghost predicate Spared(a: map<string, CachedContent>, b: map<string, CachedContent>,
                         before: seq<Foreign>, others: seq<Foreign>) {
    && before <= others
    && forall p | p in a && !Touched(before, others, p) :: p in b && b[p] == a[p]
  }

  predicate Touched(before: seq<Foreign>, others: seq<Foreign>, path: string) {
    Filled(OfContent, path) in Since(before, others) || Dropped(OfContent, path) in Since(before, others)
  }

  lemma NoneTouched(a: map<string, CachedContent>, others: seq<Foreign>)
    ensures Spared(a, a, others, others)
  {
  }

  lemma SparedEntry(a: map<string, CachedContent>, b: map<string, CachedContent>,
                    x: seq<Foreign>, y: seq<Foreign>, path: string)
    requires Spared(a, b, x, y)
    ensures path in a && !Touched(x, y, path) ==> path in b && b[path] == a[path]
  {
  }

  lemma TouchedLater(a: Caches, b: Caches, c: Caches, path: string)
    requires forall f | f in Since(a.others, b.others) :: f in Since(a.others, c.others)
    ensures Touched(a.others, b.others, path) ==> Touched(a.others, c.others, path)
  {
  }

  lemma SparedTwice(a: map<string, CachedContent>, b: map<string, CachedContent>, c: map<string, CachedContent>,
                    x: seq<Foreign>, y: seq<Foreign>, z: seq<Foreign>)
    requires Spared(a, b, x, y) && Spared(b, c, y, z)
    ensures Spared(a, c, x, z)
    ensures forall p | Touched(x, y, p) || Touched(y, z, p) :: Touched(x, z, p)
  {
    assert Since(x, z) == Since(x, y) + Since(y, z);
  }

  lemma DroppedSince(a: Caches, b: Caches, path: string)
    requires Left(a, b, {}) && path in a.content && path !in b.content
    ensures Dropped(OfContent, path) in Since(a.others, b.others)
  {
    assert Has(a, OfContent, path) && !Has(b, OfContent, path);
  }

  lemma LaterToo(a: Caches, b: Caches, c: Caches, path: string)
    requires Left(Besides(a, path), Besides(b, path), {}) && Left(Besides(b, path), Besides(c, path), {})
    ensures forall f | f in Since(a.others, b.others) :: f in Since(a.others, c.others)
  {
    hide Has;
    assert Since(a.others, c.others) == Since(a.others, b.others) + Since(b.others, c.others);
  }

  lemma SameGrows(r: map<string, History>)
    ensures Grows(r, r)
  {
  }

  /** The version current now is an instant of any call that started before. */
  lemma AnsweredNow(start: map<string, History>, now: map<string, History>, path: string)
    requires Grows(start, now) && Sound(start) && Sound(now)
    ensures Past(now, path) != []
    ensures var h, from := Past(now, path), |Past(start, path)| - 1;
            if h[|h| - 1].Present? then HeldSince(h, from, h[|h| - 1].data) else AbsentSince(h, from)
  {
    if path in start || path in now {
      assert Past(start, path) <= Past(now, path);
    }
  }

  /** An entry taken at `seen`: some past content, and the current one if its tag still matches. */
  lemma CachedIsTruthful(start: map<string, History>, seen: map<string, History>, now: map<string, History>,
                         path: string, c: CachedContent)
    requires Sound(now) && Grows(start, now) && Grows(seen, now)
    requires Sound(start) && Truthful(Past(seen, path), c)
    ensures Past(now, path) != [] && HeldSince(Past(now, path), 0, c.data)
    ensures var h := Past(now, path);
            Tagged(h[|h| - 1], c.etag) ==> HeldSince(h, |Past(start, path)| - 1, c.data)
  {
    TagsStrong(now, path);
    TagsStrong(start, path);
    PastGrows(start, now, path);
    StillTruthfulEntry(seen, now, path, c);
    hide Grows, Sound, Past;
    var h := Past(now, path);
    TruthfulIsHeld(h, c);
    if Tagged(h[|h| - 1], c.etag) {
      MatchingTagIsCurrent(h, c, |h| - 1);
    }
  }

  lemma TruthfulIsHeld(h: History, c: CachedContent)
    requires Truthful(h, c)
    ensures HeldSince(h, 0, c.data)
  {
    var i :| 0 <= i < |h| && Tagged(h[i], c.etag) && h[i].data == c.data;
  }

  lemma PastGrows(r: map<string, History>, s: map<string, History>, path: string)
    requires Grows(r, s)
    ensures Past(r, path) <= Past(s, path)
  {
    if path in r || path in s {
    }
  }

  /** Bytes served under a tag pair with it. */
  lemma GotIsTruthful(remote: map<string, History>, path: string, data: Bytes, etag: string)
    requires Sound(remote)
    ensures var h := Past(remote, path);
            && h != []
            && (GetIfMatch(h[|h| - 1], etag) == Ok(data) ==> Truthful(h, CachedContent(data, etag)))
  {
    var h := Past(remote, path);
    if GetIfMatch(h[|h| - 1], etag) == Ok(data) {
      assert Tagged(h[|h| - 1], etag);
    }
  }

  lemma StillTruthfulEntry(r: map<string, History>, s: map<string, History>, path: string, c: CachedContent)
    requires Grows(r, s) && Truthful(Past(r, path), c)
    ensures Truthful(Past(s, path), c)
  {
    if path in r || path in s {
      assert Past(r, path) <= Past(s, path);
    }
    TruthfulLater(Past(r, path), Past(s, path), c);
  }

  lemma HeldStays(start: map<string, History>, r: map<string, History>, s: map<string, History>,
                  path: string, bytes: Bytes)
    requires Sound(start) && Grows(r, s) && HeldSince(Past(r, path), |Past(start, path)| - 1, bytes)
    ensures HeldSince(Past(s, path), |Past(start, path)| - 1, bytes)
  {
    var from := |Past(start, path)| - 1;
    if path in r || path in s {
      assert Past(r, path) <= Past(s, path);
    }
    var i :| from <= i < |Past(r, path)| && Past(r, path)[i].Present? && Past(r, path)[i].data == bytes;
    assert Past(s, path)[i] == Past(r, path)[i];
  }

  lemma EntryTruthful(remote: map<string, History>, cache: map<string, CachedContent>, path: string)
    requires AllTruthful(remote, cache) && path in cache
    ensures Truthful(Past(remote, path), cache[path])
  {
  }

  lemma TagsStrong(remote: map<string, History>, path: string)
    requires Sound(remote)
    ensures StrongTags(Past(remote, path)) && Past(remote, path) != []
  {
  }

  lemma WrittenStays(start: map<string, History>, before: map<string, History>, written: map<string, History>,
                     now: map<string, History>, path: string, data: Bytes, tag: Option<string>)
    requires Grows(start, before) && Grows(written, now)
    requires written == before[path := Past(before, path) + [Present(data, tag)]]
    ensures HeldSince(Past(now, path), |Past(start, path)|, data)
  {
    assert Past(written, path) <= Past(now, path);
    if path in start || path in before {
      assert Past(start, path) <= Past(before, path);
    }
    var at := |Past(before, path)|;
    assert Past(now, path)[at] == Past(written, path)[at] == Present(data, tag);
  }
}
