/** POSIX path strings as the backup script handles them: `str.split(os.sep)`,
    `os.path.basename` and `os.path.relpath` for paths below the watch root. */
module Paths {
  import opened Outcomes

  /** `os.sep` on POSIX systems. */
  const Sep: char := '/'

  /** Python's `s.split(Sep)`: the pieces between separators, always at least one. */
  function Split(s: string): (parts: seq<string>)
    ensures |parts| >= 1
    ensures forall i :: 0 <= i < |parts| ==> Sep !in parts[i]
    ensures |parts| == Count(s) + 1
    decreases |s|
  {
    if |s| == 0 then [""]
    else
      var rest := Split(s[1..]);
      if s[0] == Sep then [""] + rest
      else [[s[0]] + rest[0]] + rest[1..]
  }

  /** Number of separators in `s`. */
  function Count(s: string): nat
  {
    if |s| == 0 then 0 else (if s[0] == Sep then 1 else 0) + Count(s[1..])
  }

  /** Python's `Sep.join(parts)`. */
  function Join(parts: seq<string>): string
  {
    if |parts| == 0 then ""
    else if |parts| == 1 then parts[0]
    else parts[0] + [Sep] + Join(parts[1..])
  }

  lemma CountZero(s: string)
    ensures Count(s) == 0 <==> Sep !in s
  {
  }

  /** Splitting and re-joining gives back the original path. */
  lemma {:induction false} JoinSplit(s: string)
    ensures Join(Split(s)) == s
    decreases |s|
  {
    if |s| > 0 {
      var rest := Split(s[1..]);
      JoinSplit(s[1..]);
      if s[0] == Sep {
        assert Split(s) == [""] + rest;
        assert s == [Sep] + s[1..];
      } else {
        var parts := Split(s);
        assert parts == [[s[0]] + rest[0]] + rest[1..];
        if |rest| == 1 {
          assert s == [s[0]] + rest[0];
        } else {
          assert Join(rest) == rest[0] + [Sep] + Join(rest[1..]);
          assert parts[1..] == rest[1..];
          assert s == [s[0]] + s[1..];
        }
      }
    }
  }

  /** Joining separator-free pieces and splitting again gives back the pieces. */
  lemma {:induction false} SplitJoin(parts: seq<string>)
    requires |parts| >= 1
    requires forall i :: 0 <= i < |parts| ==> Sep !in parts[i]
    ensures Split(Join(parts)) == parts
    decreases |parts|, |parts[0]|
  {
    var p := parts[0];
    if |p| == 0 {
      if |parts| > 1 {
        var tail := Join(parts[1..]);
        SplitJoin(parts[1..]);
        assert Join(parts) == [Sep] + tail;
        assert ([Sep] + tail)[1..] == tail;
        assert parts == [""] + parts[1..];
      }
    } else {
      var shorter := parts[0 := p[1..]];
      SplitJoin(shorter);
      assert p[0] != Sep by { assert p[0] in p; }
      if |parts| == 1 {
        assert Join(parts) == [p[0]] + Join(shorter);
      } else {
        assert shorter[1..] == parts[1..];
        assert Join(parts) == [p[0]] + Join(shorter);
      }
      assert ([p[0]] + Join(shorter))[1..] == Join(shorter);
      assert [p[0]] + p[1..] == p;
    }
  }

  /** Python's `os.path.basename`: everything after the last separator. */
  function Basename(p: string): (b: string)
    ensures Sep !in b && |b| <= |p|
  {
    if |p| == 0 || p[|p| - 1] == Sep then ""
    else Basename(p[..|p| - 1]) + [p[|p| - 1]]
  }

  /** The basename is the longest separator-free suffix: it ends the path, and
      either is the whole path or follows a separator. */
  lemma {:induction false} BasenameIsLongestPlainSuffix(p: string)
    ensures var b := Basename(p);
            b == p[|p| - |b|..] && (|b| < |p| ==> p[|p| - |b| - 1] == Sep)
    decreases |p|
  {
    if |p| > 0 && p[|p| - 1] != Sep {
      var init := p[..|p| - 1];
      BasenameIsLongestPlainSuffix(init);
      var b := Basename(init);
      assert init[|init| - |b|..] + [p[|p| - 1]] == p[|p| - |b| - 1..];
    }
  }

  /** The basename of a separator-free string is the string itself. */
  lemma {:induction false} BasenameOfPlain(y: string)
    requires Sep !in y
    ensures Basename(y) == y
    decreases |y|
  {
    if |y| > 0 {
      BasenameOfPlain(y[..|y| - 1]);
      assert y == y[..|y| - 1] + [y[|y| - 1]];
    }
  }

  /** Whatever precedes a separator does not matter to the basename. */
  lemma {:induction false} BasenameAfterSep(x: string, y: string)
    ensures Basename(x + [Sep] + y) == Basename(y)
    decreases |y|
  {
    var p := x + [Sep] + y;
    if |y| == 0 || y[|y| - 1] == Sep {
      assert p[|p| - 1] == Sep;
    } else {
      var y' := y[..|y| - 1];
      BasenameAfterSep(x, y');
      assert p[..|p| - 1] == x + [Sep] + y';
      assert p[|p| - 1] == y[|y| - 1];
    }
  }

  /** Joining peels off at the back as well as at the front. */
  lemma {:induction false} JoinLast(parts: seq<string>)
    requires |parts| >= 2
    ensures Join(parts) == Join(parts[..|parts| - 1]) + [Sep] + parts[|parts| - 1]
    decreases |parts|
  {
    if |parts| > 2 {
      JoinLast(parts[1..]);
      assert parts[1..][..|parts| - 2] == parts[..|parts| - 1][1..];
    }
  }

  /** `os.path.basename` returns the last piece of `split(os.sep)`. */
  lemma BasenameIsLastPiece(s: string)
    ensures Basename(s) == Split(s)[|Split(s)| - 1]
  {
    var parts := Split(s);
    var n := |parts|;
    var last := parts[n - 1];
    BasenameOfPlain(last);
    if n == 1 {
      assert s == last by { JoinSplit(s); }
    } else {
      var front := Join(parts[..n - 1]);
      assert s == front + [Sep] + last by {
        JoinSplit(s);
        JoinLast(parts);
      }
      BasenameAfterSep(front, last);
    }
  }

  /** The directory components of a relative path: `rel.split(os.sep)[:-1]`. */
  function DirParts(rel: string): (parts: seq<string>)
    ensures |parts| == Count(rel)
    ensures |parts| == 0 <==> Sep !in rel
    ensures forall i :: 0 <= i < |parts| ==> Sep !in parts[i]
    ensures Join(parts + [Basename(rel)]) == rel
  {
    CountZero(rel);
    var all := Split(rel);
    assert all == all[..|all| - 1] + [Basename(rel)] by {
      BasenameIsLastPiece(rel);
    }
    JoinSplit(rel);
    all[..|all| - 1]
  }

  /** `root` without its trailing separators, as `os.path.abspath` leaves it
      (`"/w/"` becomes `"/w"`, and `"/"` becomes `""`, so that the root's
      children still start with a separator). */
  function StripTrailing(root: string): (b: string)
    ensures |b| <= |root| && root[..|b|] == b
    ensures forall i :: |b| <= i < |root| ==> root[i] == Sep
    ensures |b| == 0 || b[|b| - 1] != Sep
  {
    if |root| > 0 && root[|root| - 1] == Sep then StripTrailing(root[..|root| - 1]) else root
  }

  /** The path `os.walk(root)` and `os.path.join` produce for `rel` below `root`. */
  function Below(root: string, rel: string): string
  {
    StripTrailing(root) + [Sep] + rel
  }

  /** `os.path.relpath(full, root)` for a path that lies strictly below `root`
      (trailing separators of `root` ignored); `None` for any other path. */
  function RelPath(root: string, full: string): (r: Option<string>)
    ensures var b := StripTrailing(root);
            r.Some? <==> |full| > |b| && full[..|b|] == b && full[|b|] == Sep
    ensures r.Some? ==> full == Below(root, r.value)
  {
    var b := StripTrailing(root);
    if |full| > |b| && full[..|b|] == b && full[|b|] == Sep
    then Some(full[|b| + 1..])
    else None
  }

  /** Taking the root off a path below it gives back the relative path. */
  lemma RelPathOfJoin(root: string, rel: string)
    ensures RelPath(root, Below(root, rel)) == Some(rel)
  {
    var b := StripTrailing(root);
    var full := Below(root, rel);
    assert full[..|b|] == b;
    assert full[|b| + 1..] == rel;
  }

  /** A separator at the end of the watch root changes no relative path. */
  lemma TrailingSeparatorIgnored(root: string, full: string)
    ensures RelPath(root + [Sep], full) == RelPath(root, full)
  {
    assert (root + [Sep])[..|root|] == root;
  }

  /** A file's basename can be read off its relative path as well as its full path. */
  lemma BasenameOfRelPath(root: string, full: string)
    requires RelPath(root, full).Some?
    ensures Basename(full) == Basename(RelPath(root, full).value)
  {
    BasenameAfterSep(StripTrailing(root), RelPath(root, full).value);
  }

  /** `dir/name` has the one directory `dir`. */
  lemma DirPartsOfPair(dir: string, name: string)
    requires Sep !in dir && Sep !in name
    ensures DirParts(dir + [Sep] + name) == [dir]
  {
    var parts := [dir, name];
    assert Join(parts) == dir + [Sep] + Join(parts[1..]);
    SplitJoin(parts);
  }

  /** The file `root/dir/name` lies at `dir/name` below `root` and is called `name`. */
  lemma NestedPath(root: string, dir: string, name: string)
    requires Sep !in dir && Sep !in name
    ensures var rel := dir + [Sep] + name;
            && RelPath(root, Below(root, rel)) == Some(rel)
            && DirParts(rel) == [dir]
            && Basename(Below(root, rel)) == name
  {
    var rel := dir + [Sep] + name;
    RelPathOfJoin(root, rel);
    BasenameAfterSep(StripTrailing(root), rel);
    BasenameAfterSep(dir, name);
    BasenameOfPlain(name);
    DirPartsOfPair(dir, name);
  }
}
