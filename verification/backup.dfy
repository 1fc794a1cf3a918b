/** `BackupHandler` and the initial pass of `BackupManager`: a hash store
    decides whether a file changed, and a changed file is versioned, uploaded
    and announced, in that order. */
module Backup {
  import opened Outcomes
  import opened Content
  import opened Paths
  import Timestamps
  import opened Versions
  import opened Drive
  import opened Folders
  import opened Upload
  import Sequences

  /** The watch root, and how the remote store treats root-level queries. */
  datatype Config = Config(root: string, rootQuery: RootQuery)

  /** The local filesystem: every regular file's path and its bytes. */
  type Files = map<string, Bytes>

  /** Full path to last seen digest. */
  type HashStore = map<string, Digest>

  datatype State = State(hashes: HashStore, versions: VersionStore, cache: Cache, drive: Store)

  /** What a processed change emits. The messages of the script's `print`
      calls are not modelled; the e-mail is `Notified`. */
  datatype Effect = VersionSaved(name: string) | FileUploaded(relPath: string, outcome: Outcome) | Notified(message: string)

  /** The exceptions `process_file` lets escape. */
  datatype Error = OutsideRoot(path: string) | Unreadable(path: string)

  datatype Step = Step(state: State, effects: seq<Effect>)

  /** The notification text for a backed-up file. */
  function Message(rel: string): string
  {
    "Backup: " + rel
  }

  /** The file at `path` is readable, below the root, and its digest is the
      stored one: processing it again is a no-op. */
  predicate Synced(cfg: Config, fs: Files, digest: Bytes -> Digest, hashes: HashStore, path: string)
  {
    RelPath(cfg.root, path).Some? && path in fs && path in hashes && hashes[path] == digest(fs[path])
  }

  /** `process_file(full_path)` at clock reading `now`. */
  function ProcessFile(cfg: Config, fs: Files, digest: Bytes -> Digest, st: State, path: string, now: Timestamps.Stamp): (r: Result<Step, Error>)
    ensures RelPath(cfg.root, path).None? ==> r == Err(OutsideRoot(path))
    ensures RelPath(cfg.root, path).Some? && path !in fs ==> r == Err(Unreadable(path))
    ensures r.Ok? <==> RelPath(cfg.root, path).Some? && path in fs
    ensures r.Ok? && Synced(cfg, fs, digest, st.hashes, path) ==> r.value == Step(st, [])
    ensures r.Ok? && !Synced(cfg, fs, digest, st.hashes, path) ==>
      var rel := RelPath(cfg.root, path).value;
      var up := UploadFile(cfg.rootQuery, st.cache, st.drive, path, rel, fs[path]);
      && r.value.state == State(st.hashes[path := digest(fs[path])],
                                SaveVersion(st.versions, path, fs[path], now), up.cache, up.store)
      && r.value.effects == [VersionSaved(VersionName(path, now)), FileUploaded(rel, up.outcome), Notified(Message(rel))]
    ensures r.Ok? ==> Synced(cfg, fs, digest, r.value.state.hashes, path)
    ensures r.Ok? ==> forall p :: p != path ==>
      (p in r.value.state.hashes <==> p in st.hashes) && (p in st.hashes ==> r.value.state.hashes[p] == st.hashes[p])
    ensures r.Ok? ==> Extends(st.cache, r.value.state.cache)
    ensures r.Ok? && Valid(st.drive) ==> Valid(r.value.state.drive)
  {
    match RelPath(cfg.root, path)
    case None => Err(OutsideRoot(path))
    case Some(rel) =>
      if path !in fs then Err(Unreadable(path))
      else
        var h := digest(fs[path]);
        if path in st.hashes && st.hashes[path] == h then Ok(Step(st, []))
        else
          var hashes := st.hashes[path := h];
          var versions := SaveVersion(st.versions, path, fs[path], now);
          var up := UploadFile(cfg.rootQuery, st.cache, st.drive, path, rel, fs[path]);
          Ok(Step(State(hashes, versions, up.cache, up.store),
                  [VersionSaved(VersionName(path, now)), FileUploaded(rel, up.outcome), Notified(Message(rel))]))
  }

  /** Processing a file a second time without a content change emits nothing
      and changes nothing. */
  lemma ProcessTwice(cfg: Config, fs: Files, digest: Bytes -> Digest, st: State, path: string, t1: Timestamps.Stamp, t2: Timestamps.Stamp)
    requires RelPath(cfg.root, path).Some? && path in fs
    ensures var s1 := ProcessFile(cfg, fs, digest, st, path, t1).value.state;
            ProcessFile(cfg, fs, digest, s1, path, t2) == Ok(Step(s1, []))
  {
  }

  /** The kinds of event a watchdog handler is dispatched. */
  datatype EventKind = CreatedEvent | ModifiedEvent | DeletedEvent | MovedEvent

  datatype FsEvent = FsEvent(kind: EventKind, path: string, isDirectory: bool)

  /** `BackupHandler` as watchdog dispatches to it: only `on_modified` is
      overridden, and it skips directories. */
  function OnEvent(cfg: Config, fs: Files, digest: Bytes -> Digest, st: State, ev: FsEvent, now: Timestamps.Stamp): (r: Result<Step, Error>)
    ensures ev.kind != ModifiedEvent || ev.isDirectory ==> r == Ok(Step(st, []))
    ensures ev.kind == ModifiedEvent && !ev.isDirectory ==> r == ProcessFile(cfg, fs, digest, st, ev.path, now)
  {
    if ev.kind == ModifiedEvent && !ev.isDirectory then ProcessFile(cfg, fs, digest, st, ev.path, now)
    else Ok(Step(st, []))
  }

  /** The outcome of the initial pass: the state reached, the effects in
      order, and the exception that ended the pass early, if any. */
  datatype Pass = Pass(state: State, effects: seq<Effect>, error: Option<Error>)

  /** `backup_existing_files`: `process_file` over the walked paths in order,
      `stamps[i]` being the clock when `paths[i]` is processed. An exception
      ends the pass, keeping what the earlier files did. */
  function BackupExisting(cfg: Config, fs: Files, digest: Bytes -> Digest, st: State, paths: seq<string>, stamps: seq<Timestamps.Stamp>): (r: Pass)
    requires |stamps| == |paths|
    ensures r.error.None? ==> forall i :: 0 <= i < |paths| ==> Synced(cfg, fs, digest, r.state.hashes, paths[i])
    ensures forall p :: p in r.state.hashes ==> p in st.hashes || p in paths
    ensures forall p :: p in st.hashes && p !in paths ==> p in r.state.hashes && r.state.hashes[p] == st.hashes[p]
    ensures |r.effects| <= 3 * |paths|
    ensures Extends(st.cache, r.state.cache)
    ensures Valid(st.drive) ==> Valid(r.state.drive)
    decreases |paths|
  {
    if |paths| == 0 then Pass(st, [], None)
    else
      match ProcessFile(cfg, fs, digest, st, paths[0], stamps[0])
      case Err(e) => Pass(st, [], Some(e))
      case Ok(step) =>
        var rest := BackupExisting(cfg, fs, digest, step.state, paths[1..], stamps[1..]);
        PassCons(cfg, fs, digest, st, step.state, rest.state, paths, rest.error.None?);
        Pass(rest.state, step.effects + rest.effects, rest.error)
  }

  /** The digest, cache and store facts of a pass, from those of its first
      step (`st` to `mid`) and of the pass over the remaining paths (`mid`
      to `end`, synced throughout when `ok`). */
  lemma PassCons(cfg: Config, fs: Files, digest: Bytes -> Digest, st: State, mid: State, end: State, paths: seq<string>, ok: bool)
    requires |paths| > 0
    requires Synced(cfg, fs, digest, mid.hashes, paths[0])
    requires forall p :: p != paths[0] ==>
      (p in mid.hashes <==> p in st.hashes) && (p in st.hashes ==> mid.hashes[p] == st.hashes[p])
    requires Extends(st.cache, mid.cache) && (Valid(st.drive) ==> Valid(mid.drive))
    requires ok ==> forall i :: 0 <= i < |paths[1..]| ==> Synced(cfg, fs, digest, end.hashes, paths[1..][i])
    requires forall p :: p in end.hashes ==> p in mid.hashes || p in paths[1..]
    requires forall p :: p in mid.hashes && p !in paths[1..] ==> p in end.hashes && end.hashes[p] == mid.hashes[p]
    requires Extends(mid.cache, end.cache) && (Valid(mid.drive) ==> Valid(end.drive))
    ensures ok ==> forall i :: 0 <= i < |paths| ==> Synced(cfg, fs, digest, end.hashes, paths[i])
    ensures forall p :: p in end.hashes ==> p in st.hashes || p in paths
    ensures forall p :: p in st.hashes && p !in paths ==> p in end.hashes && end.hashes[p] == st.hashes[p]
    ensures Extends(st.cache, end.cache)
    ensures Valid(st.drive) ==> Valid(end.drive)
  {
    ExtendsTrans(st.cache, mid.cache, end.cache);
    assert forall i :: 1 <= i < |paths| ==> paths[i] == paths[1..][i - 1];
    assert ok ==> Synced(cfg, fs, digest, end.hashes, paths[0]) by {
      if ok && paths[0] !in paths[1..] {
        assert Synced(cfg, fs, digest, mid.hashes, paths[0]);
      }
    }
  }

  /** A pass step: `process_file` on a state, a path and a clock reading. */
  type Stepper = (State, string, Timestamps.Stamp) -> Result<Step, Error>

  function Processor(cfg: Config, fs: Files, digest: Bytes -> Digest): Stepper
  {
    (s: State, p: string, t: Timestamps.Stamp) => ProcessFile(cfg, fs, digest, s, p, t)
  }

  /** The pass with any step function in place of `process_file`. */
  function Fold(f: Stepper, st: State, paths: seq<string>, stamps: seq<Timestamps.Stamp>): Pass
    requires |stamps| == |paths|
    decreases |paths|
  {
    if |paths| == 0 then Pass(st, [], None)
    else
      match f(st, paths[0], stamps[0])
      case Err(e) => Pass(st, [], Some(e))
      case Ok(step) =>
        var rest := Fold(f, step.state, paths[1..], stamps[1..]);
        Pass(rest.state, step.effects + rest.effects, rest.error)
  }

  /** One more file at the end of a pass: nothing once the pass has failed,
      otherwise the step, whose error ends the pass. */
  function FoldStep(f: Stepper, r: Pass, path: string, now: Timestamps.Stamp): Pass
  {
    if r.error.Some? then r
    else
      match f(r.state, path, now)
      case Err(e) => Pass(r.state, r.effects, Some(e))
      case Ok(step) => Pass(step.state, r.effects + step.effects, None)
  }

  lemma {:induction false} FoldSnoc(f: Stepper, st: State, paths: seq<string>, stamps: seq<Timestamps.Stamp>, p: string, t: Timestamps.Stamp)
    requires |stamps| == |paths|
    ensures Fold(f, st, paths + [p], stamps + [t]) == FoldStep(f, Fold(f, st, paths, stamps), p, t)
    decreases |paths|
  {
    if |paths| == 0 {
      assert paths + [p] == [p] && stamps + [t] == [t];
      assert [p][1..] == [] && [t][1..] == [];
      match f(st, p, t)
      case Err(_) =>
      case Ok(step) =>
        assert step.effects + [] == [] + step.effects;
    } else {
      Sequences.SnocCons(paths, p);
      Sequences.SnocCons(stamps, t);
      match f(st, paths[0], stamps[0])
      case Err(_) =>
      case Ok(step) =>
        FoldSnoc(f, step.state, paths[1..], stamps[1..], p, t);
        var rest := Fold(f, step.state, paths[1..], stamps[1..]);
        if rest.error.None? {
          match f(rest.state, p, t)
          case Err(_) =>
          case Ok(last) =>
            assert step.effects + (rest.effects + last.effects) == (step.effects + rest.effects) + last.effects;
        }
    }
  }

  lemma {:induction false} FoldStopsAtFirstError(f: Stepper, st: State, paths: seq<string>, stamps: seq<Timestamps.Stamp>)
    requires |stamps| == |paths|
    ensures var r := Fold(f, st, paths, stamps);
            r.error.Some? ==>
              exists k :: 0 <= k < |paths|
                && Fold(f, st, paths[..k], stamps[..k]) == Pass(r.state, r.effects, None)
                && f(r.state, paths[k], stamps[k]) == Err(r.error.value)
    decreases |paths|
  {
    var r := Fold(f, st, paths, stamps);
    if r.error.Some? {
      match f(st, paths[0], stamps[0])
      case Err(e) =>
        assert paths[..0] == [] && stamps[..0] == [];
        assert Fold(f, st, paths[..0], stamps[..0]) == Pass(r.state, r.effects, None);
      case Ok(step) =>
        var rest := Fold(f, step.state, paths[1..], stamps[1..]);
        FoldStopsAtFirstError(f, step.state, paths[1..], stamps[1..]);
        var j :| 0 <= j < |paths| - 1
          && Fold(f, step.state, paths[1..][..j], stamps[1..][..j]) == Pass(rest.state, rest.effects, None)
          && f(rest.state, paths[1..][j], stamps[1..][j]) == Err(rest.error.value);
        var k := j + 1;
        Sequences.PrefixCons(paths, j);
        Sequences.PrefixCons(stamps, j);
        assert Fold(f, st, paths[..k], stamps[..k]) == Pass(r.state, r.effects, None);
    }
  }

  /** `backup_existing_files` is `Fold` with `process_file` as the step. */
  lemma {:induction false} BackupExistingIsFold(cfg: Config, fs: Files, digest: Bytes -> Digest, st: State, paths: seq<string>,
                                               stamps: seq<Timestamps.Stamp>)
    requires |stamps| == |paths|
    ensures BackupExisting(cfg, fs, digest, st, paths, stamps) == Fold(Processor(cfg, fs, digest), st, paths, stamps)
    decreases |paths|
  {
    if |paths| > 0 {
      var f := Processor(cfg, fs, digest);
      assert f(st, paths[0], stamps[0]) == ProcessFile(cfg, fs, digest, st, paths[0], stamps[0]);
      match ProcessFile(cfg, fs, digest, st, paths[0], stamps[0])
      case Err(_) =>
      case Ok(step) =>
        BackupExistingIsFold(cfg, fs, digest, step.state, paths[1..], stamps[1..]);
    }
  }

  /** The initial pass is a left fold of the `process_file` step over the walked paths:
      the files are processed in walk order, each on the state the earlier
      ones left, the effects accumulate in that order, and an error ends it. */
  lemma BackupExistingSnoc(cfg: Config, fs: Files, digest: Bytes -> Digest, st: State, paths: seq<string>,
                           stamps: seq<Timestamps.Stamp>, p: string, t: Timestamps.Stamp)
    requires |stamps| == |paths|
    ensures BackupExisting(cfg, fs, digest, st, paths + [p], stamps + [t]) ==
            FoldStep(Processor(cfg, fs, digest), BackupExisting(cfg, fs, digest, st, paths, stamps), p, t)
  {
    BackupExistingIsFold(cfg, fs, digest, st, paths + [p], stamps + [t]);
    BackupExistingIsFold(cfg, fs, digest, st, paths, stamps);
    FoldSnoc(Processor(cfg, fs, digest), st, paths, stamps, p, t);
  }

  /** A pass over readable files below the root ends without error, from any
      starting state. */
  lemma {:induction false} ReadablePassSucceeds(cfg: Config, fs: Files, digest: Bytes -> Digest, st: State, paths: seq<string>,
                                                stamps: seq<Timestamps.Stamp>)
    requires |stamps| == |paths|
    requires forall i :: 0 <= i < |paths| ==> RelPath(cfg.root, paths[i]).Some? && paths[i] in fs
    ensures BackupExisting(cfg, fs, digest, st, paths, stamps).error.None?
    decreases |paths|
  {
    if |paths| > 0 {
      var step := ProcessFile(cfg, fs, digest, st, paths[0], stamps[0]).value;
      assert forall i :: 0 <= i < |paths| - 1 ==> paths[1..][i] == paths[i + 1];
      ReadablePassSucceeds(cfg, fs, digest, step.state, paths[1..], stamps[1..]);
    }
  }

  /** A pass that ends in an error ran cleanly over a prefix of the paths and
      then failed on the next one, keeping the state and effects of that
      prefix: no later file is touched. */
  lemma PassStopsAtFirstError(cfg: Config, fs: Files, digest: Bytes -> Digest, st: State, paths: seq<string>,
                              stamps: seq<Timestamps.Stamp>)
    requires |stamps| == |paths|
    ensures var r := BackupExisting(cfg, fs, digest, st, paths, stamps);
            r.error.Some? ==>
              exists k :: 0 <= k < |paths|
                && BackupExisting(cfg, fs, digest, st, paths[..k], stamps[..k]) == Pass(r.state, r.effects, None)
                && ProcessFile(cfg, fs, digest, r.state, paths[k], stamps[k]) == Err(r.error.value)
  {
    var f := Processor(cfg, fs, digest);
    var r := BackupExisting(cfg, fs, digest, st, paths, stamps);
    BackupExistingIsFold(cfg, fs, digest, st, paths, stamps);
    FoldStopsAtFirstError(f, st, paths, stamps);
    if r.error.Some? {
      var k :| 0 <= k < |paths|
        && Fold(f, st, paths[..k], stamps[..k]) == Pass(r.state, r.effects, None)
        && f(r.state, paths[k], stamps[k]) == Err(r.error.value);
      BackupExistingIsFold(cfg, fs, digest, st, paths[..k], stamps[..k]);
      assert f(r.state, paths[k], stamps[k]) == ProcessFile(cfg, fs, digest, r.state, paths[k], stamps[k]);
    }
  }

  /** A pass over files that are all synced emits nothing and changes nothing. */
  lemma {:induction false} PassOverSyncedIsNoop(cfg: Config, fs: Files, digest: Bytes -> Digest, st: State, paths: seq<string>, stamps: seq<Timestamps.Stamp>)
    requires |stamps| == |paths|
    requires forall i :: 0 <= i < |paths| ==> Synced(cfg, fs, digest, st.hashes, paths[i])
    ensures BackupExisting(cfg, fs, digest, st, paths, stamps) == Pass(st, [], None)
    decreases |paths|
  {
    if |paths| > 0 {
      assert Synced(cfg, fs, digest, st.hashes, paths[0]);
      PassOverSyncedIsNoop(cfg, fs, digest, st, paths[1..], stamps[1..]);
    }
  }

  /** Re-running the initial pass over unchanged files emits no version, no
      upload and no notification. */
  lemma PassIdempotent(cfg: Config, fs: Files, digest: Bytes -> Digest, st: State, paths: seq<string>, s1: seq<Timestamps.Stamp>, s2: seq<Timestamps.Stamp>)
    requires |s1| == |paths| && |s2| == |paths|
    requires BackupExisting(cfg, fs, digest, st, paths, s1).error.None?
    ensures var r1 := BackupExisting(cfg, fs, digest, st, paths, s1);
            BackupExisting(cfg, fs, digest, r1.state, paths, s2) == Pass(r1.state, [], None)
  {
    var r1 := BackupExisting(cfg, fs, digest, st, paths, s1);
    PassOverSyncedIsNoop(cfg, fs, digest, r1.state, paths, s2);
  }

  /** A first pass (no stored digests) over distinct readable files below the
      root backs up every one of them: each file, in order, contributes its
      version, its upload and its notification. */
  lemma FreshPassBacksUpAll(cfg: Config, fs: Files, digest: Bytes -> Digest, st: State, paths: seq<string>, stamps: seq<Timestamps.Stamp>)
    requires |stamps| == |paths|
    requires forall i :: 0 <= i < |paths| ==> RelPath(cfg.root, paths[i]).Some? && paths[i] in fs && paths[i] !in st.hashes
    requires forall i, j :: 0 <= i < j < |paths| ==> paths[i] != paths[j]
    ensures var r := BackupExisting(cfg, fs, digest, st, paths, stamps);
            r.error.None? && |r.effects| == 3 * |paths|
            && forall i :: 0 <= i < |paths| ==> Announces(cfg, paths[i], stamps[i], r.effects[3 * i..3 * i + 3])
  {
    BackupExistingIsFold(cfg, fs, digest, st, paths, stamps);
    FoldFresh(cfg, fs, digest, st, paths, stamps);
  }

  /** Processing a file never seen before backs it up and records its digest. */
  lemma FreshStep(cfg: Config, fs: Files, digest: Bytes -> Digest, st: State, path: string, now: Timestamps.Stamp)
    requires RelPath(cfg.root, path).Some? && path in fs && path !in st.hashes
    ensures var r := Processor(cfg, fs, digest)(st, path, now);
            && r.Ok? && Announces(cfg, path, now, r.value.effects)
            && forall q :: q in r.value.state.hashes <==> q in st.hashes || q == path
  {
    var rel := RelPath(cfg.root, path).value;
    AnnouncesOf(cfg, path, now, rel, UploadFile(cfg.rootQuery, st.cache, st.drive, path, rel, fs[path]).outcome);
    assert Processor(cfg, fs, digest)(st, path, now) == ProcessFile(cfg, fs, digest, st, path, now);
  }

  lemma AnnouncesOf(cfg: Config, path: string, now: Timestamps.Stamp, rel: string, outcome: Outcome)
    requires RelPath(cfg.root, path) == Some(rel)
    ensures Announces(cfg, path, now, [VersionSaved(VersionName(path, now)), FileUploaded(rel, outcome), Notified(Message(rel))])
  {
  }

  lemma {:induction false} FoldFresh(cfg: Config, fs: Files, digest: Bytes -> Digest, st: State, paths: seq<string>, stamps: seq<Timestamps.Stamp>)
    requires |stamps| == |paths|
    requires forall i :: 0 <= i < |paths| ==> RelPath(cfg.root, paths[i]).Some? && paths[i] in fs && paths[i] !in st.hashes
    requires forall i, j :: 0 <= i < j < |paths| ==> paths[i] != paths[j]
    ensures var r := Fold(Processor(cfg, fs, digest), st, paths, stamps);
            r.error.None? && |r.effects| == 3 * |paths|
            && forall i :: 0 <= i < |paths| ==> Announces(cfg, paths[i], stamps[i], r.effects[3 * i..3 * i + 3])
    decreases |paths|
  {
    if |paths| > 0 {
      var f := Processor(cfg, fs, digest);
      FreshStep(cfg, fs, digest, st, paths[0], stamps[0]);
      var step := f(st, paths[0], stamps[0]).value;
      FreshTail(cfg, fs, st.hashes, step.state.hashes, paths);
      FoldFresh(cfg, fs, digest, step.state, paths[1..], stamps[1..]);
      FoldCons(cfg, f, st, paths, stamps);
    }
  }

  /** After the first file of a fresh pass, the rest are still fresh and distinct. */
  lemma FreshTail(cfg: Config, fs: Files, before: HashStore, after: HashStore, paths: seq<string>)
    requires |paths| > 0
    requires forall i :: 0 <= i < |paths| ==> RelPath(cfg.root, paths[i]).Some? && paths[i] in fs && paths[i] !in before
    requires forall i, j :: 0 <= i < j < |paths| ==> paths[i] != paths[j]
    requires forall q :: q in after <==> q in before || q == paths[0]
    ensures forall i :: 0 <= i < |paths| - 1 ==> RelPath(cfg.root, paths[1..][i]).Some? && paths[1..][i] in fs && paths[1..][i] !in after
    ensures forall i, j :: 0 <= i < j < |paths| - 1 ==> paths[1..][i] != paths[1..][j]
  {
    assert forall i :: 0 <= i < |paths| - 1 ==> paths[1..][i] != paths[0] && paths[1..][i] == paths[i + 1];
  }

  /** The effects of a pass whose first step succeeds and whose rest announces every file. */
  lemma FoldCons(cfg: Config, f: Stepper, st: State, paths: seq<string>, stamps: seq<Timestamps.Stamp>)
    requires |stamps| == |paths| > 0
    requires f(st, paths[0], stamps[0]).Ok? && Announces(cfg, paths[0], stamps[0], f(st, paths[0], stamps[0]).value.effects)
    requires var r := Fold(f, f(st, paths[0], stamps[0]).value.state, paths[1..], stamps[1..]);
             r.error.None? && |r.effects| == 3 * (|paths| - 1)
             && forall i :: 0 <= i < |paths| - 1 ==> Announces(cfg, paths[1..][i], stamps[1..][i], r.effects[3 * i..3 * i + 3])
    ensures var r := Fold(f, st, paths, stamps);
            r.error.None? && |r.effects| == 3 * |paths|
            && forall i :: 0 <= i < |paths| ==> Announces(cfg, paths[i], stamps[i], r.effects[3 * i..3 * i + 3])
  {
    var step := f(st, paths[0], stamps[0]).value;
    var rest := Fold(f, step.state, paths[1..], stamps[1..]);
    AnnouncesCons(cfg, paths, stamps, step.effects, rest.effects);
  }

  /** Prepending one file's three effects to those of the rest of a pass. */
  lemma AnnouncesCons(cfg: Config, paths: seq<string>, stamps: seq<Timestamps.Stamp>, first: seq<Effect>, rest: seq<Effect>)
    requires |paths| == |stamps| > 0 && |rest| == 3 * (|paths| - 1)
    requires Announces(cfg, paths[0], stamps[0], first)
    requires forall i :: 0 <= i < |paths| - 1 ==> Announces(cfg, paths[1..][i], stamps[1..][i], rest[3 * i..3 * i + 3])
    ensures forall i :: 0 <= i < |paths| ==> Announces(cfg, paths[i], stamps[i], (first + rest)[3 * i..3 * i + 3])
  {
    assert (first + rest)[0..3] == first;
    forall i | 1 <= i < |paths|
      ensures Announces(cfg, paths[i], stamps[i], (first + rest)[3 * i..3 * i + 3])
    {
      Sequences.SliceOfRight(first, rest, 3 * i, 3 * i + 3);
      assert paths[1..][i - 1] == paths[i] && stamps[1..][i - 1] == stamps[i];
      assert 3 * i - 3 == 3 * (i - 1);
    }
  }

  /** The three effects a changed file emits, in order: its version under
      `VersionName`, its upload under its relative path, and the notification. */
  predicate Announces(cfg: Config, path: string, now: Timestamps.Stamp, effects: seq<Effect>)
  {
    && RelPath(cfg.root, path).Some?
    && |effects| == 3
    && effects[0] == VersionSaved(VersionName(path, now))
    && effects[1].FileUploaded? && effects[1].relPath == RelPath(cfg.root, path).value
    && effects[2] == Notified(Message(RelPath(cfg.root, path).value))
  }

  /** What the run keeps true: remote ids are unique and every cached folder id
      names a live folder its key could have found. */
  predicate Inv(cfg: Config, st: State)
  {
    Valid(st.drive) && CacheSound(st.cache, st.drive, cfg.rootQuery)
  }

  lemma ProcessFileKeepsInv(cfg: Config, fs: Files, digest: Bytes -> Digest, st: State, path: string, now: Timestamps.Stamp)
    requires Inv(cfg, st)
    ensures var r := ProcessFile(cfg, fs, digest, st, path, now);
            r.Ok? ==> Inv(cfg, r.value.state)
  {
    var r := ProcessFile(cfg, fs, digest, st, path, now);
    if r.Ok? && !Synced(cfg, fs, digest, st.hashes, path) {
      UploadKeepsCacheSound(cfg.rootQuery, st.cache, st.drive, path, RelPath(cfg.root, path).value, fs[path]);
    }
  }

  lemma {:induction false} BackupExistingKeepsInv(cfg: Config, fs: Files, digest: Bytes -> Digest, st: State, paths: seq<string>, stamps: seq<Timestamps.Stamp>)
    requires |stamps| == |paths| && Inv(cfg, st)
    ensures Inv(cfg, BackupExisting(cfg, fs, digest, st, paths, stamps).state)
    decreases |paths|
  {
    if |paths| > 0 {
      ProcessFileKeepsInv(cfg, fs, digest, st, paths[0], stamps[0]);
      var r := ProcessFile(cfg, fs, digest, st, paths[0], stamps[0]);
      if r.Ok? {
        BackupExistingKeepsInv(cfg, fs, digest, r.value.state, paths[1..], stamps[1..]);
      }
    }
  }

  /** The state before anything was seen: no digests, no versions, an empty
      cache and an empty remote store. */
  function Fresh(): State
  {
    State(map[], map[], map[], Store([], 0))
  }

  /** Resolving `dir/...` against an empty store creates `dir` at the root. */
  lemma ResolveNewDir(rq: RootQuery, dir: string, rel: string)
    requires DirParts(rel) == [dir]
    ensures ResolvePath(rq, map[], Store([], 0), rel) ==
            PathResolved(map[(dir, None) := 0], Store([Entry(0, dir, true, false, None, [])], 1), Some(0), [FolderCall(dir, None, map[], Store([], 0), 0)])
  {
    var folder := Store([Entry(0, dir, true, false, None, [])], 1);
    var cache := map[(dir, None) := 0];
    assert GetOrCreateFolder(rq, map[], Store([], 0), dir, None) == Resolved(cache, folder, 0);
    assert [dir][1..] == [];
    assert ResolveParts(rq, cache, folder, [], Some(0)) == PathResolved(cache, folder, Some(0), []);
  }

  /** Uploading `dir/name` to an empty store creates the folder, then the file in it. */
  lemma FirstUpload(rq: RootQuery, path: string, rel: string, dir: string, name: string, content: Bytes)
    requires DirParts(rel) == [dir] && Basename(path) == name
    ensures UploadFile(rq, map[], Store([], 0), path, rel, content) ==
            Uploaded(map[(dir, None) := 0],
                     Store([Entry(0, dir, true, false, None, []), Entry(1, name, false, false, Some(0), content)], 2),
                     Some(0), Created(1))
  {
    var folder := Store([Entry(0, dir, true, false, None, [])], 1);
    ResolveNewDir(rq, dir, rel);
    assert FirstMatch(folder.entries, FileQuery(name, Some(0)), rq) == None by {
      assert !Matches(folder.entries[0], FileQuery(name, Some(0)), rq);
    }
    var drive := Store([Entry(0, dir, true, false, None, []), Entry(1, name, false, false, Some(0), content)], 2);
    assert folder.entries + [Entry(1, name, false, false, Some(0), content)] == drive.entries;
    assert Create(folder, name, false, Some(0), content) == (drive, 1);
    assert WriteFile(rq, folder, name, Some(0), content) == Written(drive, Created(1));
  }

  /** A first backup of `dir/name`: one version, the folder `dir` created at the
      root, the file created inside it, one notification. */
  lemma FirstBackupOfNestedFile(cfg: Config, fs: Files, digest: Bytes -> Digest, dir: string, name: string, now: Timestamps.Stamp)
    requires Sep !in dir && Sep !in name
    requires Below(cfg.root, dir + [Sep] + name) in fs
    ensures var rel := dir + [Sep] + name;
            var path := Below(cfg.root, rel);
            var content := fs[path];
            var vname := name + "_" + Timestamps.Render(now);
            ProcessFile(cfg, fs, digest, Fresh(), path, now) ==
            Ok(Step(State(map[path := digest(content)], map[vname := content], map[(dir, None) := 0],
                          Store([Entry(0, dir, true, false, None, []), Entry(1, name, false, false, Some(0), content)], 2)),
                    [VersionSaved(vname), FileUploaded(rel, Created(1)), Notified(Message(rel))]))
  {
    var rel := dir + [Sep] + name;
    var path := Below(cfg.root, rel);
    NestedPath(cfg.root, dir, name);
    FirstUpload(cfg.rootQuery, path, rel, dir, name, fs[path]);
  }

  /** Writing `name` into folder 0 again updates the entry the first upload created. */
  lemma RewriteInFolder(rq: RootQuery, dir: string, name: string, before: Bytes, content: Bytes, next: Id)
    ensures var s := Store([Entry(0, dir, true, false, None, []), Entry(1, name, false, false, Some(0), before)], next);
            WriteFile(rq, s, name, Some(0), content) ==
            Written(Store([Entry(0, dir, true, false, None, []), Entry(1, name, false, false, Some(0), content)], next), Updated(1, 1))
  {
    var s := Store([Entry(0, dir, true, false, None, []), Entry(1, name, false, false, Some(0), before)], next);
    var q := FileQuery(name, Some(0));
    assert !Matches(s.entries[0], q, rq);
    FirstMatchIs(s.entries, q, rq, 1);
    var s' := Store([Entry(0, dir, true, false, None, []), Entry(1, name, false, false, Some(0), content)], next);
    assert s.entries[1 := s.entries[1].(content := content)] == s'.entries;
  }

  /** Uploading `dir/name` again finds the entry the first upload created. */
  lemma UpdateExisting(rq: RootQuery, path: string, rel: string, dir: string, name: string, before: Bytes, content: Bytes, next: Id)
    requires DirParts(rel) == [dir] && Basename(path) == name
    ensures var cache := map[(dir, None) := 0];
            var s := Store([Entry(0, dir, true, false, None, []), Entry(1, name, false, false, Some(0), before)], next);
            UploadFile(rq, cache, s, path, rel, content) ==
            Uploaded(cache, Store([Entry(0, dir, true, false, None, []), Entry(1, name, false, false, Some(0), content)], next),
                     Some(0), Updated(1, 1))
  {
    var cache := map[(dir, None) := 0];
    var s := Store([Entry(0, dir, true, false, None, []), Entry(1, name, false, false, Some(0), before)], next);
    assert GetOrCreateFolder(rq, cache, s, dir, None) == Resolved(cache, s, 0);
    assert [dir][1..] == [];
    assert ResolveParts(rq, cache, s, [], Some(0)) == PathResolved(cache, s, Some(0), []);
    assert ResolvePath(rq, cache, s, rel) == PathResolved(cache, s, Some(0), [FolderCall(dir, None, cache, s, 0)]);
    RewriteInFolder(rq, dir, name, before, content, next);
  }

  /** What the second backup of `dir/name` sees: the path facts and the upload. */
  lemma SecondUpload(cfg: Config, dir: string, name: string, rel: string, path: string, before: Bytes, content: Bytes)
    requires Sep !in dir && Sep !in name
    requires rel == dir + [Sep] + name && path == Below(cfg.root, rel)
    ensures RelPath(cfg.root, path) == Some(rel) && Basename(path) == name
    ensures UploadFile(cfg.rootQuery, map[(dir, None) := 0],
                       Store([Entry(0, dir, true, false, None, []), Entry(1, name, false, false, Some(0), before)], 2), path, rel, content)
            == Uploaded(map[(dir, None) := 0],
                        Store([Entry(0, dir, true, false, None, []), Entry(1, name, false, false, Some(0), content)], 2),
                        Some(0), Updated(1, 1))
  {
    NestedPath(cfg.root, dir, name);
    UpdateExisting(cfg.rootQuery, path, rel, dir, name, before, content, 2);
  }

  /** Changing the content of a backed-up `dir/name` updates its remote entry
      in place: no folder and no entry is created, and a new version is saved. */
  lemma ChangedFileIsUpdated(cfg: Config, fs: Files, digest: Bytes -> Digest, dir: string, name: string, rel: string, path: string,
                             stored: Digest, before: Bytes, versions: VersionStore, now: Timestamps.Stamp)
    requires Sep !in dir && Sep !in name
    requires rel == dir + [Sep] + name && path == Below(cfg.root, rel)
    requires path in fs && digest(fs[path]) != stored
    ensures var vname := name + "_" + Timestamps.Render(now);
            var cache := map[(dir, None) := 0];
            var st := State(map[path := stored], versions, cache,
                            Store([Entry(0, dir, true, false, None, []), Entry(1, name, false, false, Some(0), before)], 2));
            ProcessFile(cfg, fs, digest, st, path, now) ==
            Ok(Step(State(map[path := digest(fs[path])], versions[vname := fs[path]], cache,
                          Store([Entry(0, dir, true, false, None, []), Entry(1, name, false, false, Some(0), fs[path])], 2)),
                    [VersionSaved(vname), FileUploaded(rel, Updated(1, 1)), Notified(Message(rel))]))
  {
    var cache := map[(dir, None) := 0];
    var drive := Store([Entry(0, dir, true, false, None, []), Entry(1, name, false, false, Some(0), before)], 2);
    var st := State(map[path := stored], versions, cache, drive);
    SecondUpload(cfg, dir, name, rel, path, before, fs[path]);
    var up := Uploaded(cache, Store([Entry(0, dir, true, false, None, []), Entry(1, name, false, false, Some(0), fs[path])], 2),
                       Some(0), Updated(1, 1));
    ChangedStep(cfg, fs, digest, st, path, rel, now, up);
    assert VersionName(path, now) == name + "_" + Timestamps.Render(now);
    Sequences.OverwriteSingleton(path, stored, digest(fs[path]));
  }

  /** One changed file, with its relative path already known. */
  lemma ChangedStep(cfg: Config, fs: Files, digest: Bytes -> Digest, st: State, path: string, rel: string, now: Timestamps.Stamp,
                    up: Uploaded)
    requires RelPath(cfg.root, path) == Some(rel) && path in fs
    requires !Synced(cfg, fs, digest, st.hashes, path)
    requires UploadFile(cfg.rootQuery, st.cache, st.drive, path, rel, fs[path]) == up
    ensures ProcessFile(cfg, fs, digest, st, path, now) ==
            Ok(Step(State(st.hashes[path := digest(fs[path])], SaveVersion(st.versions, path, fs[path], now), up.cache, up.store),
                    [VersionSaved(VersionName(path, now)), FileUploaded(rel, up.outcome), Notified(Message(rel))]))
  {
  }
}
