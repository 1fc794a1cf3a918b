/** `VersionManager.save_version`: a copy of the changed file, named after its
    basename and the second it was saved, in a flat version directory. */
module Versions {
  import opened Outcomes
  import opened Content
  import opened Paths
  import opened Timestamps

  /** The version directory, keyed by file name within it. */
  type VersionStore = map<string, Bytes>

  /** The name a version of `path` saved at `now` gets: basename, `_`, timestamp. */
  function VersionName(path: string, now: Stamp): (name: string)
    ensures |name| == |Basename(path)| + 16
  {
    Basename(path) + "_" + Render(now)
  }

  /** A version name splits back into the basename and the clock reading. */
  lemma ParseVersionNameOf(path: string, now: Stamp)
    ensures ParseVersionName(VersionName(path, now)) == Some((Basename(path), now))
  {
    var b := Basename(path);
    var name := VersionName(path, now);
    assert name[|name| - 16] == '_';
    assert name[..|name| - 16] == b;
    assert name[|name| - 15..] == Render(now);
    ParseRender(now);
  }

  /** Splits a version file name back into the original basename and the time
      it was saved. */
  function ParseVersionName(name: string): (r: Option<(string, Stamp)>)
    ensures r.Some? ==> |name| >= 16 && name[..|name| - 16] == r.value.0
  {
    if |name| >= 16 && name[|name| - 16] == '_' then
      match Parse(name[|name| - 15..])
      case Some(t) => Some((name[..|name| - 16], t))
      case None => None
    else None
  }

  /** Every name that parses is the version name of what it parses to. */
  lemma VersionNameOfParse(name: string)
    requires ParseVersionName(name).Some?
    ensures var (b, t) := ParseVersionName(name).value;
            name == b + "_" + Render(t)
  {
    var t := ParseVersionName(name).value.1;
    RenderParse(name[|name| - 15..]);
    assert name == name[..|name| - 16] + "_" + name[|name| - 15..];
  }

  /** The name depends on the basename only, not on the directory. */
  lemma VersionNameIgnoresDirectory(dir1: string, dir2: string, file: string, now: Stamp)
    ensures VersionName(dir1 + [Sep] + file, now) == VersionName(dir2 + [Sep] + file, now)
  {
    BasenameAfterSep(dir1, file);
    BasenameAfterSep(dir2, file);
  }

  /** Two version names coincide exactly when basename and second coincide. */
  lemma VersionNameInjective(p: string, q: string, t: Stamp, u: Stamp)
    ensures VersionName(p, t) == VersionName(q, u) <==> Basename(p) == Basename(q) && t == u
  {
    ParseVersionNameOf(p, t);
    ParseVersionNameOf(q, u);
  }

  /** Versions of one file sort by the time they were saved. */
  lemma VersionNamesSortByTime(p: string, t: Stamp, u: Stamp)
    ensures Before(t, u) <==> LexLess(VersionName(p, t), VersionName(p, u))
  {
    var b := Basename(p);
    RenderOrder(t, u);
    LexLessAppend(b + "_", Render(t), b + "_", Render(u));
    assert !LexLess(b + "_", b + "_") by { LexLessIrreflexive(b + "_"); }
  }

  lemma {:induction false} LexLessIrreflexive(s: string)
    ensures !LexLess(s, s)
    decreases |s|
  {
    if |s| > 0 {
      LexLessIrreflexive(s[1..]);
    }
  }

  /** `shutil.copy(path, version_dir + name)`: records `content` under the
      version name, overwriting a version saved in the same second. */
  function SaveVersion(versions: VersionStore, path: string, content: Bytes, now: Stamp): (r: VersionStore)
    ensures r.Keys == versions.Keys + {VersionName(path, now)}
    ensures r[VersionName(path, now)] == content
    ensures forall n :: n in versions && n != VersionName(path, now) ==> r[n] == versions[n]
  {
    versions[VersionName(path, now) := content]
  }

  /** Two saves of same-named files in one second leave only the later copy. */
  lemma SameSecondOverwrites(versions: VersionStore, p: string, q: string, c1: Bytes, c2: Bytes, now: Stamp)
    requires Basename(p) == Basename(q)
    ensures SaveVersion(SaveVersion(versions, p, c1, now), q, c2, now) == SaveVersion(versions, q, c2, now)
  {
    var n := VersionName(q, now);
    assert VersionName(p, now) == n;
    assert versions[n := c1][n := c2] == versions[n := c2];
  }

  /** Saves at different seconds keep both copies: history is append-only. */
  lemma DifferentSecondsKeepBoth(versions: VersionStore, p: string, c1: Bytes, c2: Bytes, t: Stamp, u: Stamp)
    requires t != u
    ensures var r := SaveVersion(SaveVersion(versions, p, c1, t), p, c2, u);
            r[VersionName(p, t)] == c1 && r[VersionName(p, u)] == c2
  {
    VersionNameInjective(p, p, t, u);
  }
}
