/** `Uploader.upload_file`: resolve the file's remote folder, then update the
    first same-titled live entry found there, or create a new one. */
module Upload {
  import opened Outcomes
  import opened Content
  import opened Paths
  import opened Drive
  import opened Folders

  /** What the upload did: updated the listed entry at `index`, or created one. */
  datatype Outcome = Updated(index: nat, id: Id) | Created(id: Id)

  datatype Uploaded = Uploaded(cache: Cache, store: Store, folder: Option<Id>, outcome: Outcome)

  /** `title='<name>' and trashed=false [and '<parent>' in parents]`: note that
      folders are not excluded. */
  function FileQuery(name: string, parent: Option<Id>): Query
  {
    Query(name, false, parent)
  }

  /** The file query matches every live entry of that title in scope, folders
      included, since it carries no mimeType condition. */
  lemma FileQueryMatches(e: Entry, name: string, parent: Option<Id>, rq: RootQuery)
    ensures Matches(e, FileQuery(name, parent), rq) <==> e.title == name && !e.trashed && InScope(e, parent, rq)
  {
  }

  /** How the entries `before` become `after` when a file called `name` is
      written under `parent`: the first live entry of that title there gets the
      new content and nothing else changes, or, when there is none, exactly one
      new file entry is appended. */
  predicate Wrote(rq: RootQuery, before: seq<Entry>, name: string, parent: Option<Id>, content: Bytes,
                  after: seq<Entry>, outcome: Outcome)
  {
    var q := FileQuery(name, parent);
    && (outcome.Updated? <==> exists j :: 0 <= j < |before| && Matches(before[j], q, rq))
    && (outcome.Updated? ==>
          var i := outcome.index;
          && i < |before| && Matches(before[i], q, rq)
          && (forall j :: 0 <= j < i ==> !Matches(before[j], q, rq))
          && outcome.id == before[i].id
          && |after| == |before|
          && after[i] == before[i].(content := content)
          && (forall j :: 0 <= j < |before| && j != i ==> after[j] == before[j]))
    && (outcome.Created? ==>
          && |after| == |before| + 1
          && after[..|before|] == before
          && after[|before|] == Entry(outcome.id, name, false, false, parent, content))
  }

  datatype Written = Written(store: Store, outcome: Outcome)

  /** The create-vs-update decision of `upload_file` once the folder is known. */
  function WriteFile(rq: RootQuery, s: Store, name: string, parent: Option<Id>, content: Bytes): (w: Written)
    ensures Wrote(rq, s.entries, name, parent, content, w.store.entries, w.outcome)
    ensures w.outcome.Created? ==> w.store.nextId > s.nextId
    ensures Valid(s) ==> Valid(w.store)
    ensures Valid(s) && w.outcome.Created? ==> forall j :: 0 <= j < |s.entries| ==> s.entries[j].id != w.outcome.id
  {
    match FirstMatch(s.entries, FileQuery(name, parent), rq)
    case Some(i) =>
      Written(UpdateContent(s, i, content), Updated(i, s.entries[i].id))
    case None =>
      var (s', id) := Create(s, name, false, parent, content);
      assert s'.entries[..|s.entries|] == s.entries;
      Written(s', Created(id))
  }

  /** `upload_file(file_path, relative_path)` with the file's bytes `content`. */
  function UploadFile(rq: RootQuery, cache: Cache, s: Store, filePath: string, rel: string, content: Bytes): (r: Uploaded)
    ensures var res := ResolvePath(rq, cache, s, rel);
            && r.cache == res.cache && r.folder == res.id
            && Wrote(rq, res.store.entries, Basename(filePath), res.id, content, r.store.entries, r.outcome)
    ensures |s.entries| <= |r.store.entries| <= |s.entries| + |DirParts(rel)| + 1
    ensures forall j :: 0 <= j < |s.entries| && !(r.outcome.Updated? && r.outcome.index == j) ==>
              r.store.entries[j] == s.entries[j]
    ensures Valid(s) ==> Valid(r.store)
  {
    var res := ResolvePath(rq, cache, s, rel);
    var w := WriteFile(rq, res.store, Basename(filePath), res.id, content);
    WriteAfterAppend(rq, s, res.store, Basename(filePath), res.id, content, w.store.entries, w.outcome);
    Uploaded(res.cache, w.store, res.id, w.outcome)
  }

  /** A write into a store that only grew from `s` keeps `s`'s entries, except
      the one it updates. */
  lemma WriteAfterAppend(rq: RootQuery, s: Store, mid: Store, name: string, parent: Option<Id>, content: Bytes,
                         after: seq<Entry>, outcome: Outcome)
    requires Appended(s, mid) && Wrote(rq, mid.entries, name, parent, content, after, outcome)
    ensures |s.entries| <= |after| <= |mid.entries| + 1
    ensures forall j :: 0 <= j < |s.entries| && !(outcome.Updated? && outcome.index == j) ==> after[j] == s.entries[j]
  {
    assert forall j :: 0 <= j < |s.entries| ==> mid.entries[j] == s.entries[j] by {
      assert mid.entries[..|s.entries|] == s.entries;
    }
    if outcome.Created? {
      assert forall j :: 0 <= j < |mid.entries| ==> after[j] == mid.entries[j] by {
        assert after[..|mid.entries|] == mid.entries;
      }
    }
  }

  /** Writing a file never invalidates the folder cache. */
  lemma WriteKeepsCacheSound(rq: RootQuery, cache: Cache, s: Store, name: string, parent: Option<Id>, content: Bytes)
    requires Valid(s) && CacheSound(cache, s, rq)
    ensures CacheSound(cache, WriteFile(rq, s, name, parent, content).store, rq)
  {
    var w := WriteFile(rq, s, name, parent, content);
    match w.outcome
    case Created(_) =>
      CacheSoundAppended(cache, s, w.store, rq);
    case Updated(i, _) =>
      forall k | k in cache
        ensures Names(w.store, cache[k], k, rq)
      {
        EntryWithIdUpdated(s, w.store, i, cache[k]);
      }
  }

  /** An upload never invalidates the folder cache. */
  lemma UploadKeepsCacheSound(rq: RootQuery, cache: Cache, s: Store, filePath: string, rel: string, content: Bytes)
    requires Valid(s) && CacheSound(cache, s, rq)
    ensures var r := UploadFile(rq, cache, s, filePath, rel, content);
            CacheSound(r.cache, r.store, rq)
  {
    var res := ResolvePath(rq, cache, s, rel);
    ResolvePartsSound(rq, cache, s, DirParts(rel), None);
    WriteKeepsCacheSound(rq, res.cache, res.store, Basename(filePath), res.id, content);
  }

  /** Changing one entry's content leaves every id naming the same entry up to content. */
  lemma {:induction false} EntryWithIdUpdated(s1: Store, s2: Store, i: nat, id: Id)
    requires i < |s1.entries| == |s2.entries|
    requires s2.entries[i] == s1.entries[i].(content := s2.entries[i].content)
    requires forall j :: 0 <= j < |s1.entries| && j != i ==> s2.entries[j] == s1.entries[j]
    ensures EntryWithId(s1.entries, id).Some? == EntryWithId(s2.entries, id).Some?
    ensures EntryWithId(s1.entries, id).Some? ==>
              EntryWithId(s2.entries, id).value == EntryWithId(s1.entries, id).value.(content := EntryWithId(s2.entries, id).value.content)
    decreases |s1.entries|
  {
    if |s1.entries| > 0 && s1.entries[0].id != id && i > 0 {
      EntryWithIdUpdated(Store(s1.entries[1..], s1.nextId), Store(s2.entries[1..], s2.nextId), i - 1, id);
    } else if |s1.entries| > 0 && s1.entries[0].id != id {
      assert s2.entries[1..] == s1.entries[1..];
    }
  }

  /** Writing the same bytes again finds the entry the first write left and
      rewrites it with what it already holds. */
  lemma WriteTwice(rq: RootQuery, s: Store, name: string, parent: Option<Id>, content: Bytes)
    ensures var w1 := WriteFile(rq, s, name, parent, content);
            var w2 := WriteFile(rq, w1.store, name, parent, content);
            w2.store == w1.store && w2.outcome.Updated? && w2.outcome.id == w1.outcome.id
  {
    var w1 := WriteFile(rq, s, name, parent, content);
    var q := FileQuery(name, parent);
    var after := w1.store.entries;
    var i := match w1.outcome case Updated(i, _) => i case Created(_) => |s.entries|;
    assert Matches(after[i], q, rq);
    assert forall j :: 0 <= j < i ==> after[j] == s.entries[j];
    FirstMatchIs(after, q, rq, i);
    assert after[i].content == content;
    assert UpdateContent(w1.store, i, content).entries == after;
  }

  /** Uploading the same bytes again changes nothing remotely and creates no
      entry: the second upload is an in-place update of the first one's entry. */
  lemma UploadTwice(rq: RootQuery, cache: Cache, s: Store, filePath: string, rel: string, content: Bytes)
    ensures var r1 := UploadFile(rq, cache, s, filePath, rel, content);
            var r2 := UploadFile(rq, r1.cache, r1.store, filePath, rel, content);
            r2.store == r1.store && r2.cache == r1.cache && r2.folder == r1.folder && r2.outcome.Updated?
  {
    var parts := DirParts(rel);
    var res1 := ResolvePath(rq, cache, s, rel);
    var r1 := UploadFile(rq, cache, s, filePath, rel, content);
    ResolvedIsCovered(rq, cache, s, parts, None);
    CoveredIsCacheHit(rq, r1.cache, r1.store, parts, None);
    ResolveSameIds(rq, r1.cache, r1.store, parts, None, cache, s);
    WriteTwice(rq, res1.store, Basename(filePath), res1.id, content);
  }

  /** With root lookups restricted to the root, an update only ever rewrites an
      entry that sits directly in the file's resolved folder. */
  lemma ScopedUploadStaysInFolder(cache: Cache, s: Store, filePath: string, rel: string, content: Bytes)
    ensures var r := UploadFile(RootOnly, cache, s, filePath, rel, content);
            var before := ResolvePath(RootOnly, cache, s, rel).store.entries;
            r.outcome.Updated? ==> before[r.outcome.index].parent == r.folder
  {
  }

  /** As written, uploading a root-level file `f` while a folder `d` holds a file
      `f` overwrites `d/f` instead of creating `f` at the root, whatever the
      watch root. */
  lemma RootUploadOverwritesNested(root: string)
    ensures var s := Store([Entry(0, "d", true, false, None, []), Entry(1, "f", false, false, Some(0), [1])], 2);
            var r := UploadFile(Unfiltered, map[], s, root + [Sep] + "f", "f", [2]);
            r.outcome == Updated(1, 1) && r.folder == None
            && r.store.entries[1] == Entry(1, "f", false, false, Some(0), [2])
            && |r.store.entries| == 2
  {
    var s := Store([Entry(0, "d", true, false, None, []), Entry(1, "f", false, false, Some(0), [1])], 2);
    BasenameAfterSep(root, "f");
    BasenameOfPlain("f");
    var res := ResolvePath(Unfiltered, map[], s, "f");
    assert res == PathResolved(map[], s, None, []);
    var q := FileQuery("f", None);
    assert !Matches(s.entries[0], q, Unfiltered);
    FirstMatchIs(s.entries, q, Unfiltered, 1);
    var w := WriteFile(Unfiltered, s, "f", None, [2]);
    assert w == Written(UpdateContent(s, 1, [2]), Updated(1, 1));
  }
}
