/** `Uploader.get_or_create_folder` and `Uploader.get_drive_path_id`: remote
    folders looked up by (name, parent) through a process-lifetime cache,
    created on demand, and chained along a relative path's directories. */
module Folders {
  import opened Outcomes
  import opened Paths
  import opened Drive

  /** `(folder_name, parent_id)`, the key of `folder_cache`. */
  type Key = (string, Option<Id>)

  type Cache = map<Key, Id>

  function FolderQuery(name: string, parent: Option<Id>): Query
  {
    Query(name, true, parent)
  }

  /** `id` names a live folder that a lookup for `key` could have returned. */
  predicate Names(s: Store, id: Id, key: Key, rq: RootQuery)
  {
    match EntryWithId(s.entries, id)
    case Some(e) => Matches(e, FolderQuery(key.0, key.1), rq)
    case None => false
  }

  /** Every cached id still names a folder its key could have found. */
  predicate CacheSound(cache: Cache, s: Store, rq: RootQuery)
  {
    forall k :: k in cache ==> Names(s, cache[k], k, rq)
  }

  /** The cache only ever grows: no key is dropped or re-bound. */
  predicate Extends(c1: Cache, c2: Cache)
  {
    forall k :: k in c1 ==> k in c2 && c2[k] == c1[k]
  }

  /** The store after an operation that only appended entries. */
  predicate Appended(s1: Store, s2: Store)
  {
    |s1.entries| <= |s2.entries| && s2.entries[..|s1.entries|] == s1.entries && s1.nextId <= s2.nextId
  }

  datatype Resolved = Resolved(cache: Cache, store: Store, id: Id)

  /** `get_or_create_folder(name, parent)`. */
  function GetOrCreateFolder(rq: RootQuery, cache: Cache, s: Store, name: string, parent: Option<Id>): (r: Resolved)
    ensures r.cache == cache[(name, parent) := r.id]
    ensures Extends(cache, r.cache)
    ensures (name, parent) in cache ==> r.store == s && r.id == cache[(name, parent)]
    ensures (name, parent) !in cache ==>
      match FirstMatch(s.entries, FolderQuery(name, parent), rq)
      case Some(i) => r.store == s && r.id == s.entries[i].id
      case None =>
        && |r.store.entries| == |s.entries| + 1
        && r.store.entries[|s.entries|] == Entry(r.id, name, true, false, parent, [])
    ensures Appended(s, r.store) && |r.store.entries| <= |s.entries| + 1
    ensures Valid(s) ==> Valid(r.store)
  {
    var key := (name, parent);
    if key in cache then Resolved(cache, s, cache[key])
    else
      match FirstMatch(s.entries, FolderQuery(name, parent), rq)
      case Some(i) => Resolved(cache[key := s.entries[i].id], s, s.entries[i].id)
      case None =>
        var (s', id) := Create(s, name, true, parent, []);
        assert s'.entries[..|s.entries|] == s.entries;
        Resolved(cache[key := id], s', id)
  }

  /** A sound cache stays sound when entries are appended. */
  lemma CacheSoundAppended(cache: Cache, s1: Store, s2: Store, rq: RootQuery)
    requires CacheSound(cache, s1, rq) && Appended(s1, s2)
    ensures CacheSound(cache, s2, rq)
  {
    forall k | k in cache
      ensures Names(s2, cache[k], k, rq)
    {
      NamesAppended(s1, s2, cache[k], k, rq);
    }
  }

  lemma NamesAppended(s1: Store, s2: Store, id: Id, key: Key, rq: RootQuery)
    requires Names(s1, id, key, rq) && Appended(s1, s2)
    ensures Names(s2, id, key, rq)
  {
    var extra := s2.entries[|s1.entries|..];
    assert s2.entries == s1.entries + extra;
    EntryWithIdAppend(s1.entries, extra, id);
  }

  /** A lookup never caches an id that does not name a matching folder. */
  lemma GetOrCreateFolderSound(rq: RootQuery, cache: Cache, s: Store, name: string, parent: Option<Id>)
    requires Valid(s) && CacheSound(cache, s, rq)
    ensures var r := GetOrCreateFolder(rq, cache, s, name, parent);
            CacheSound(r.cache, r.store, rq)
  {
    var r := GetOrCreateFolder(rq, cache, s, name, parent);
    var key := (name, parent);
    CacheSoundAppended(cache, s, r.store, rq);
    if key !in cache {
      match FirstMatch(s.entries, FolderQuery(name, parent), rq)
      case Some(i) =>
        EntryWithOwnId(s, i);
      case None =>
        EntryWithOwnId(r.store, |s.entries|);
    }
  }

  /** A second lookup of a key creates nothing and returns the same id. */
  lemma GetOrCreateFolderTwice(rq: RootQuery, cache: Cache, s: Store, name: string, parent: Option<Id>)
    ensures var r1 := GetOrCreateFolder(rq, cache, s, name, parent);
            GetOrCreateFolder(rq, r1.cache, r1.store, name, parent) == r1
  {
  }

  /** One `get_or_create_folder` call of `get_drive_path_id`'s loop: its
      arguments, the cache and store it saw, and the id it returned. */
  datatype FolderCall = FolderCall(name: string, parent: Option<Id>, cache: Cache, store: Store, result: Id)

  /** The call a trace entry records, made again on the state it saw. */
  function Replay(rq: RootQuery, c: FolderCall): Resolved
  {
    GetOrCreateFolder(rq, c.cache, c.store, c.name, c.parent)
  }

  datatype PathResolved = PathResolved(cache: Cache, store: Store, id: Option<Id>, calls: seq<FolderCall>)

  /** `calls` walks `parts` in order: one lookup per part, the first under
      `parent` and each later one under the folder the previous one returned. */
  predicate Chained(calls: seq<FolderCall>, parts: seq<string>, parent: Option<Id>)
  {
    && |calls| == |parts|
    && (forall i :: 0 <= i < |parts| ==> calls[i].name == parts[i])
    && (|parts| > 0 ==> calls[0].parent == parent)
    && (forall i :: 0 < i < |parts| ==> calls[i].parent == Some(calls[i - 1].result))
  }

  /** Every call's key is cached with the id the call returned. */
  predicate Recorded(cache: Cache, calls: seq<FolderCall>)
  {
    forall i :: 0 <= i < |calls| ==>
      (calls[i].name, calls[i].parent) in cache && cache[(calls[i].name, calls[i].parent)] == calls[i].result
  }

  /** The calls are `get_or_create_folder` calls made one after the other:
      the first sees `cache` and `s`, each later one sees what the previous
      one left, each returns what that call returns, and the whole run ends
      in the state the last one left. */
  predicate Threaded(rq: RootQuery, calls: seq<FolderCall>, cache: Cache, s: Store, endCache: Cache, endStore: Store)
  {
    && (|calls| == 0 ==> endCache == cache && endStore == s)
    && (|calls| > 0 ==>
          && calls[0].cache == cache && calls[0].store == s
          && endCache == Replay(rq, calls[|calls| - 1]).cache && endStore == Replay(rq, calls[|calls| - 1]).store)
    && (forall i :: 0 <= i < |calls| ==> calls[i].result == Replay(rq, calls[i]).id)
    && (forall i :: 0 < i < |calls| ==>
          calls[i].cache == Replay(rq, calls[i - 1]).cache && calls[i].store == Replay(rq, calls[i - 1]).store)
  }

  lemma ThreadedCons(rq: RootQuery, c: FolderCall, calls: seq<FolderCall>, endCache: Cache, endStore: Store)
    requires c.result == Replay(rq, c).id
    requires Threaded(rq, calls, Replay(rq, c).cache, Replay(rq, c).store, endCache, endStore)
    ensures Threaded(rq, [c] + calls, c.cache, c.store, endCache, endStore)
  {
    var all := [c] + calls;
    assert forall i :: 0 < i < |all| ==> all[i] == calls[i - 1];
  }

  /** The folder a chain ends in: the last call's result, or `parent` for no calls. */
  function Last(calls: seq<FolderCall>, parent: Option<Id>): Option<Id>
  {
    if |calls| == 0 then parent else Some(calls[|calls| - 1].result)
  }

  lemma ChainedCons(c: FolderCall, calls: seq<FolderCall>, parts: seq<string>, parent: Option<Id>)
    requires |parts| > 0 && c.name == parts[0] && c.parent == parent
    requires Chained(calls, parts[1..], Some(c.result))
    ensures Chained([c] + calls, parts, parent)
    ensures Last([c] + calls, parent) == Last(calls, Some(c.result))
  {
    var all := [c] + calls;
    assert forall i :: 0 < i < |parts| ==> all[i] == calls[i - 1];
  }

  lemma RecordedCons(cache: Cache, c: FolderCall, calls: seq<FolderCall>)
    requires Recorded(cache, calls)
    requires (c.name, c.parent) in cache && cache[(c.name, c.parent)] == c.result
    ensures Recorded(cache, [c] + calls)
  {
    var all := [c] + calls;
    assert forall i :: 0 < i < |all| ==> all[i] == calls[i - 1];
  }

  lemma ExtendsTrans(c1: Cache, c2: Cache, c3: Cache)
    requires Extends(c1, c2) && Extends(c2, c3)
    ensures Extends(c1, c3)
  {
  }

  lemma AppendedTrans(s1: Store, s2: Store, s3: Store)
    requires Appended(s1, s2) && Appended(s2, s3)
    ensures Appended(s1, s3)
  {
    assert s3.entries[..|s1.entries|] == s3.entries[..|s2.entries|][..|s1.entries|];
  }

  /** One turn of the loop: a lookup of `parts[0]` followed by the rest of the
      path keeps every promise of `ResolveParts`. */
  lemma ResolveCons(rq: RootQuery, cache: Cache, s: Store, parts: seq<string>, parent: Option<Id>, f: Resolved, rest: PathResolved)
    requires |parts| > 0 && f == GetOrCreateFolder(rq, cache, s, parts[0], parent)
    requires Chained(rest.calls, parts[1..], Some(f.id)) && rest.id == Last(rest.calls, Some(f.id))
    requires Extends(f.cache, rest.cache) && Recorded(rest.cache, rest.calls)
    requires Appended(f.store, rest.store) && |rest.store.entries| <= |f.store.entries| + |parts| - 1
    ensures var c := FolderCall(parts[0], parent, cache, s, f.id);
            var calls := [c] + rest.calls;
            && Chained(calls, parts, parent) && rest.id == Last(calls, parent)
            && Extends(cache, rest.cache) && Recorded(rest.cache, calls)
            && Appended(s, rest.store) && |rest.store.entries| <= |s.entries| + |parts|
  {
    var c := FolderCall(parts[0], parent, cache, s, f.id);
    ChainedCons(c, rest.calls, parts, parent);
    assert (c.name, c.parent) in rest.cache && rest.cache[(c.name, c.parent)] == c.result;
    RecordedCons(rest.cache, c, rest.calls);
    ExtendsTrans(cache, f.cache, rest.cache);
    AppendedTrans(s, f.store, rest.store);
  }

  /** The loop of `get_drive_path_id` from `parent` over `parts`. */
  function ResolveParts(rq: RootQuery, cache: Cache, s: Store, parts: seq<string>, parent: Option<Id>): (r: PathResolved)
    ensures Chained(r.calls, parts, parent) && r.id == Last(r.calls, parent)
    ensures Extends(cache, r.cache) && Recorded(r.cache, r.calls)
    ensures Appended(s, r.store) && |r.store.entries| <= |s.entries| + |parts|
    ensures Valid(s) ==> Valid(r.store)
    decreases |parts|
  {
    if |parts| == 0 then PathResolved(cache, s, parent, [])
    else
      var f := GetOrCreateFolder(rq, cache, s, parts[0], parent);
      var rest := ResolveParts(rq, f.cache, f.store, parts[1..], Some(f.id));
      ResolveCons(rq, cache, s, parts, parent, f, rest);
      PathResolved(rest.cache, rest.store, rest.id, [FolderCall(parts[0], parent, cache, s, f.id)] + rest.calls)
  }

  /** `get_drive_path_id(rel)`: the folder the file at `rel` belongs in, `None`
      for the root, found by one lookup per directory of `rel` starting at the root. */
  function ResolvePath(rq: RootQuery, cache: Cache, s: Store, rel: string): (r: PathResolved)
    ensures Sep !in rel ==> r == PathResolved(cache, s, None, [])
    ensures Chained(r.calls, DirParts(rel), None) && r.id == Last(r.calls, None)
    ensures Extends(cache, r.cache) && Recorded(r.cache, r.calls)
    ensures Appended(s, r.store) && |r.store.entries| <= |s.entries| + |DirParts(rel)|
    ensures Valid(s) ==> Valid(r.store)
  {
    ResolveParts(rq, cache, s, DirParts(rel), None)
  }

  /** The loop's calls really are `get_or_create_folder` calls threaded one
      into the next, starting from the given cache and store and ending in
      the state resolution returns. */
  lemma {:induction false} ResolvePartsThreaded(rq: RootQuery, cache: Cache, s: Store, parts: seq<string>, parent: Option<Id>)
    ensures var r := ResolveParts(rq, cache, s, parts, parent);
            Threaded(rq, r.calls, cache, s, r.cache, r.store)
    decreases |parts|
  {
    if |parts| > 0 {
      var f := GetOrCreateFolder(rq, cache, s, parts[0], parent);
      var rest := ResolveParts(rq, f.cache, f.store, parts[1..], Some(f.id));
      ResolvePartsThreaded(rq, f.cache, f.store, parts[1..], Some(f.id));
      ThreadedCons(rq, FolderCall(parts[0], parent, cache, s, f.id), rest.calls, rest.cache, rest.store);
    }
  }

  /** Every key along `parts` (starting under `parent`) is already cached. */
  predicate Covers(cache: Cache, parts: seq<string>, parent: Option<Id>)
    decreases |parts|
  {
    |parts| == 0 || ((parts[0], parent) in cache && Covers(cache, parts[1..], Some(cache[(parts[0], parent)])))
  }

  lemma {:induction false} CoversExtends(c1: Cache, c2: Cache, parts: seq<string>, parent: Option<Id>)
    requires Covers(c1, parts, parent) && Extends(c1, c2)
    ensures Covers(c2, parts, parent)
    decreases |parts|
  {
    if |parts| > 0 {
      CoversExtends(c1, c2, parts[1..], Some(c1[(parts[0], parent)]));
    }
  }

  /** After resolving a path, its whole chain of keys is cached. */
  lemma {:induction false} ResolvedIsCovered(rq: RootQuery, cache: Cache, s: Store, parts: seq<string>, parent: Option<Id>)
    ensures Covers(ResolveParts(rq, cache, s, parts, parent).cache, parts, parent)
    decreases |parts|
  {
    if |parts| > 0 {
      var f := GetOrCreateFolder(rq, cache, s, parts[0], parent);
      var rest := ResolveParts(rq, f.cache, f.store, parts[1..], Some(f.id));
      ResolvedIsCovered(rq, f.cache, f.store, parts[1..], Some(f.id));
      assert rest.cache[(parts[0], parent)] == f.id;
    }
  }

  /** Resolving a fully cached path touches neither the cache nor the store. */
  lemma {:induction false} CoveredIsCacheHit(rq: RootQuery, cache: Cache, s: Store, parts: seq<string>, parent: Option<Id>)
    requires Covers(cache, parts, parent)
    ensures var r := ResolveParts(rq, cache, s, parts, parent);
            r.cache == cache && r.store == s
    decreases |parts|
  {
    if |parts| > 0 {
      var f := GetOrCreateFolder(rq, cache, s, parts[0], parent);
      assert f.cache == cache;
      CoveredIsCacheHit(rq, cache, s, parts[1..], Some(f.id));
    }
  }

  /** Resolving the same path a second time creates no folder and yields the
      same folder: at most one folder per (name, parent) per process. */
  lemma ResolvePathTwice(rq: RootQuery, cache: Cache, s: Store, rel: string)
    ensures var r1 := ResolvePath(rq, cache, s, rel);
            var r2 := ResolvePath(rq, r1.cache, r1.store, rel);
            r2.store == r1.store && r2.cache == r1.cache && r2.id == r1.id
  {
    var parts := DirParts(rel);
    var r1 := ResolvePath(rq, cache, s, rel);
    ResolvedIsCovered(rq, cache, s, parts, None);
    CoveredIsCacheHit(rq, r1.cache, r1.store, parts, None);
    ResolveSameIds(rq, r1.cache, r1.store, parts, None, cache, s);
  }

  /** Resolving from a cache that extends an earlier one along an already
      resolved chain reproduces the chain's ids. */
  lemma {:induction false} ResolveSameIds(rq: RootQuery, c2: Cache, s2: Store, parts: seq<string>, parent: Option<Id>, c1: Cache, s1: Store)
    requires Extends(ResolveParts(rq, c1, s1, parts, parent).cache, c2)
    ensures ResolveParts(rq, c2, s2, parts, parent).id == ResolveParts(rq, c1, s1, parts, parent).id
    decreases |parts|
  {
    if |parts| > 0 {
      var f1 := GetOrCreateFolder(rq, c1, s1, parts[0], parent);
      var rest1 := ResolveParts(rq, f1.cache, f1.store, parts[1..], Some(f1.id));
      var f2 := GetOrCreateFolder(rq, c2, s2, parts[0], parent);
      assert rest1.cache[(parts[0], parent)] == f1.id;
      assert f2.id == f1.id;
      ResolveSameIds(rq, f2.cache, f2.store, parts[1..], Some(f1.id), f1.cache, f1.store);
    }
  }

  /** Resolution keeps the cache sound. */
  lemma {:induction false} ResolvePartsSound(rq: RootQuery, cache: Cache, s: Store, parts: seq<string>, parent: Option<Id>)
    requires Valid(s) && CacheSound(cache, s, rq)
    ensures CacheSound(ResolveParts(rq, cache, s, parts, parent).cache, ResolveParts(rq, cache, s, parts, parent).store, rq)
    decreases |parts|
  {
    if |parts| > 0 {
      var f := GetOrCreateFolder(rq, cache, s, parts[0], parent);
      GetOrCreateFolderSound(rq, cache, s, parts[0], parent);
      ResolvePartsSound(rq, f.cache, f.store, parts[1..], Some(f.id));
    }
  }

  /** Looking `parts` up in the store alone, without cache or creation: the
      first match of each part under the previous one, or `None` as soon as a
      part has no match. */
  function FindChain(rq: RootQuery, s: Store, parts: seq<string>, parent: Option<Id>): Option<Option<Id>>
    decreases |parts|
  {
    if |parts| == 0 then Some(parent)
    else
      match FirstMatch(s.entries, FolderQuery(parts[0], parent), rq)
      case None => None
      case Some(i) => FindChain(rq, s, parts[1..], Some(s.entries[i].id))
  }

  /** Every cached id is what a fresh lookup of its key in `s` would return. */
  predicate CacheAgrees(cache: Cache, s: Store, rq: RootQuery)
  {
    forall k :: k in cache ==>
      var m := FirstMatch(s.entries, FolderQuery(k.0, k.1), rq);
      m.Some? && cache[k] == s.entries[m.value].id
  }

  /** When every folder on the chain already exists remotely, resolution
      creates nothing and ends where a plain lookup in the store ends. */
  lemma {:induction false} ResolveReusesExisting(rq: RootQuery, cache: Cache, s: Store, parts: seq<string>, parent: Option<Id>)
    requires CacheAgrees(cache, s, rq) && FindChain(rq, s, parts, parent).Some?
    ensures var r := ResolveParts(rq, cache, s, parts, parent);
            r.store == s && r.id == FindChain(rq, s, parts, parent).value && CacheAgrees(r.cache, s, rq)
    decreases |parts|
  {
    if |parts| > 0 {
      var key := (parts[0], parent);
      var i := FirstMatch(s.entries, FolderQuery(parts[0], parent), rq).value;
      var f := GetOrCreateFolder(rq, cache, s, parts[0], parent);
      assert f.store == s && f.id == s.entries[i].id;
      assert CacheAgrees(f.cache, s, rq);
      ResolveReusesExisting(rq, f.cache, s, parts[1..], Some(f.id));
    }
  }

  /** After a restart (empty cache), a path whose folders all exist remotely
      is resolved to the existing folders and creates none. */
  lemma ResolvePathReusesExisting(rq: RootQuery, s: Store, rel: string)
    requires FindChain(rq, s, DirParts(rel), None).Some?
    ensures var r := ResolvePath(rq, map[], s, rel);
            r.store == s && r.id == FindChain(rq, s, DirParts(rel), None).value
  {
    ResolveReusesExisting(rq, map[], s, DirParts(rel), None);
  }

  /** `id` names a live folder called `name` directly inside `parent`. */
  predicate ChildFolder(s: Store, id: Id, name: string, parent: Option<Id>)
  {
    match EntryWithId(s.entries, id)
    case Some(e) => e.isFolder && !e.trashed && e.title == name && e.parent == parent
    case None => false
  }

  /** Under `RootOnly`, a sound cache maps each key to a child folder of that name. */
  lemma CachedIsChild(cache: Cache, s: Store, k: Key)
    requires CacheSound(cache, s, RootOnly) && k in cache
    ensures ChildFolder(s, cache[k], k.0, k.1)
  {
    assert Names(s, cache[k], k, RootOnly);
  }

  /** With root lookups restricted to the root, every folder on a resolved path
      is a live folder of that name directly inside the previous one (the root
      for the first): the remote tree mirrors the local directories. */
  lemma ResolvedFoldersAreChildren(cache: Cache, s: Store, rel: string)
    requires Valid(s) && CacheSound(cache, s, RootOnly)
    ensures var r := ResolvePath(RootOnly, cache, s, rel);
            forall i :: 0 <= i < |r.calls| ==>
              ChildFolder(r.store, r.calls[i].result, DirParts(rel)[i], r.calls[i].parent)
  {
    var r := ResolvePath(RootOnly, cache, s, rel);
    ResolvePartsSound(RootOnly, cache, s, DirParts(rel), None);
    forall i | 0 <= i < |r.calls|
      ensures ChildFolder(r.store, r.calls[i].result, DirParts(rel)[i], r.calls[i].parent)
    {
      CachedIsChild(r.cache, r.store, (r.calls[i].name, r.calls[i].parent));
    }
  }

  /** As written, a top-level directory can resolve to a nested folder: with a
      folder `d` inside folder `a`, the file `d/f` is filed under `a/d`. */
  lemma RootLookupEscapes()
    ensures var s := Store([Entry(0, "a", true, false, None, []), Entry(1, "d", true, false, Some(0), [])], 2);
            var r := ResolvePath(Unfiltered, map[], s, "d/f");
            r.id == Some(1) && r.store == s && s.entries[1].parent != None
  {
    var s := Store([Entry(0, "a", true, false, None, []), Entry(1, "d", true, false, Some(0), [])], 2);
    assert DirParts("d/f") == ["d"] by {
      assert Join(["d", "f"]) == "d/f";
      SplitJoin(["d", "f"]);
    }
    assert FirstMatch(s.entries, FolderQuery("d", None), Unfiltered) == Some(1);
  }
}
