/** The remote store as the script sees it through its Drive client: a list
    of entries, a title query with an optional parent filter, folder and file
    creation, and in-place content updates. */
module Drive {
  import opened Outcomes
  import opened Content

  /** Remote identities. The service hands out fresh ones; the model takes them
      from a counter. A `Some(id)` parent is therefore always truthy, so the
      script's `if parent_id:` tests reduce to `Some?`. */
  type Id = nat

  datatype Entry = Entry(id: Id, title: string, isFolder: bool, trashed: bool, parent: Option<Id>, content: Bytes)

  /** The entries in the order a listing returns them, and the next fresh id.
      `None` as a parent is the store's root. */
  datatype Store = Store(entries: seq<Entry>, nextId: Id)

  /** Ids are allocated below `nextId` and never shared by two entries. */
  predicate Valid(s: Store)
  {
    && (forall i :: 0 <= i < |s.entries| ==> s.entries[i].id < s.nextId)
    && (forall i, j :: 0 <= i < j < |s.entries| ==> s.entries[i].id != s.entries[j].id)
  }

  /** What a query with no parent means. The script adds `'<id>' in parents`
      only when it has a parent id, so `Unfiltered` (what it does) lets a
      root-level lookup match an entry anywhere; `RootOnly` restricts it to
      entries at the root. */
  datatype RootQuery = Unfiltered | RootOnly

  /** `title='<title>' [and mimeType=folder] and trashed=false [and '<parent>' in parents]`. */
  datatype Query = Query(title: string, foldersOnly: bool, parent: Option<Id>)

  predicate InScope(e: Entry, parent: Option<Id>, rq: RootQuery)
  {
    match parent
    case Some(p) => e.parent == Some(p)
    case None => rq == Unfiltered || e.parent == None
  }

  predicate Matches(e: Entry, q: Query, rq: RootQuery)
  {
    && e.title == q.title
    && (!q.foldersOnly || e.isFolder)
    && !e.trashed
    && InScope(e, q.parent, rq)
  }

  /** The position of the first entry of the listing `q` returns (the script
      takes element `[0]`), or `None` when the listing is empty. */
  function FirstMatch(entries: seq<Entry>, q: Query, rq: RootQuery): (r: Option<nat>)
    ensures r.Some? ==> r.value < |entries| && Matches(entries[r.value], q, rq)
    ensures r.Some? ==> forall j :: 0 <= j < r.value ==> !Matches(entries[j], q, rq)
    ensures r.None? <==> forall j :: 0 <= j < |entries| ==> !Matches(entries[j], q, rq)
  {
    if |entries| == 0 then None
    else if Matches(entries[0], q, rq) then Some(0)
    else
      match FirstMatch(entries[1..], q, rq)
      case None => None
      case Some(i) => Some(i + 1)
  }

  /** The converse of `FirstMatch`'s contract: the lowest matching position is
      the one returned. */
  lemma {:induction false} FirstMatchIs(entries: seq<Entry>, q: Query, rq: RootQuery, i: nat)
    requires i < |entries| && Matches(entries[i], q, rq)
    requires forall j :: 0 <= j < i ==> !Matches(entries[j], q, rq)
    ensures FirstMatch(entries, q, rq) == Some(i)
  {
    if i > 0 {
      FirstMatchIs(entries[1..], q, rq, i - 1);
    }
  }

  /** The two readings of a query: with a parent they agree; without one, the
      script's query matches an entry anywhere in the tree, while `RootOnly`
      keeps exactly those of its matches that sit at the root. */
  lemma RootQueryModes(e: Entry, q: Query)
    ensures q.parent.Some? ==> (Matches(e, q, RootOnly) <==> Matches(e, q, Unfiltered))
    ensures q.parent.Some? ==>
              (Matches(e, q, Unfiltered) <==> e.title == q.title && (!q.foldersOnly || e.isFolder) && !e.trashed && e.parent == q.parent)
    ensures q.parent.None? ==> (Matches(e, q, RootOnly) <==> Matches(e, q, Unfiltered) && e.parent.None?)
    ensures q.parent.None? ==>
              (Matches(e, q, Unfiltered) <==> e.title == q.title && (!q.foldersOnly || e.isFolder) && !e.trashed)
  {
  }

  /** Entries appended after the first match do not move it. */
  lemma {:induction false} FirstMatchAppend(entries: seq<Entry>, extra: seq<Entry>, q: Query, rq: RootQuery)
    requires FirstMatch(entries, q, rq).Some?
    ensures FirstMatch(entries + extra, q, rq) == FirstMatch(entries, q, rq)
  {
    if !Matches(entries[0], q, rq) {
      assert (entries + extra)[1..] == entries[1..] + extra;
      FirstMatchAppend(entries[1..], extra, q, rq);
    }
  }

  /** The entry carrying `id`, if any. */
  function EntryWithId(entries: seq<Entry>, id: Id): (r: Option<Entry>)
    ensures r.Some? ==> r.value in entries && r.value.id == id
    ensures r.None? <==> forall j :: 0 <= j < |entries| ==> entries[j].id != id
  {
    if |entries| == 0 then None
    else if entries[0].id == id then Some(entries[0])
    else EntryWithId(entries[1..], id)
  }

  /** With unique ids, an entry is found by its own id. */
  lemma {:induction false} EntryWithOwnId(s: Store, i: nat)
    requires Valid(s) && i < |s.entries|
    ensures EntryWithId(s.entries, s.entries[i].id) == Some(s.entries[i])
  {
    EntryWithIdAt(s.entries, i);
  }

  lemma {:induction false} EntryWithIdAt(entries: seq<Entry>, i: nat)
    requires i < |entries|
    requires forall j :: 0 <= j < i ==> entries[j].id != entries[i].id
    ensures EntryWithId(entries, entries[i].id) == Some(entries[i])
  {
    if i > 0 {
      EntryWithIdAt(entries[1..], i - 1);
    }
  }

  /** Appending entries does not change what an existing id names. */
  lemma {:induction false} EntryWithIdAppend(entries: seq<Entry>, extra: seq<Entry>, id: Id)
    requires EntryWithId(entries, id).Some?
    ensures EntryWithId(entries + extra, id) == EntryWithId(entries, id)
  {
    if entries[0].id != id {
      assert (entries + extra)[1..] == entries[1..] + extra;
      EntryWithIdAppend(entries[1..], extra, id);
    }
  }

  /** `CreateFile({...}).Upload()`: a new entry under `parent` with a fresh id. */
  function Create(s: Store, title: string, isFolder: bool, parent: Option<Id>, content: Bytes): (r: (Store, Id))
    ensures |r.0.entries| == |s.entries| + 1
    ensures forall j :: 0 <= j < |s.entries| ==> r.0.entries[j] == s.entries[j]
    ensures r.0.entries[|s.entries|] == Entry(r.1, title, isFolder, false, parent, content)
    ensures Valid(s) ==> Valid(r.0) && forall j :: 0 <= j < |s.entries| ==> s.entries[j].id != r.1
    ensures r.0.nextId > s.nextId
  {
    var id := s.nextId;
    (Store(s.entries + [Entry(id, title, isFolder, false, parent, content)], id + 1), id)
  }

  /** `SetContentFile(...); Upload()` on the listed entry at position `i`. */
  function UpdateContent(s: Store, i: nat, content: Bytes): (r: Store)
    requires i < |s.entries|
    ensures |r.entries| == |s.entries| && r.nextId == s.nextId
    ensures r.entries[i].content == content
    ensures r.entries[i].(content := s.entries[i].content) == s.entries[i]
    ensures forall j :: 0 <= j < |s.entries| && j != i ==> r.entries[j] == s.entries[j]
    ensures Valid(s) ==> Valid(r)
  {
    Store(s.entries[i := s.entries[i].(content := content)], s.nextId)
  }
}
