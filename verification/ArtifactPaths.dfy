/** What the accepted artifact paths are as text, and which files they name. */
module ArtifactPaths {
  import opened Wrappers
  import opened Text
  import opened JsonPointer
  import opened Adapter

  // ---- The pattern, on the text ----

  /** The text from `i` to `j` lies between two slashes, or a slash and an end of the path, and holds no slash. */
  ghost predicate IsSegment(path: string, i: int, j: int) {
    && 0 <= i <= j <= |path|
    && '/' !in path[i..j]
    && (i == 0 || path[i - 1] == '/')
    && (j == |path| || path[j] == '/')
  }

  ghost predicate HasSegment(path: string, s: string) {
    exists i, j :: IsSegment(path, i, j) && path[i..j] == s
  }

  lemma SplitAtSlash(a: string, rest: string)
    requires '/' !in a
    ensures Split(a) == [a]
    ensures Split(a + "/" + rest) == [a] + Split(rest)
  {
    SplitSegment(a, "");
    assert a + "" == a;
    var tail := "/" + rest;
    assert tail[1..] == rest;
    SplitSegment(a, tail);
    assert a + "/" + rest == a + tail;
    assert a + Split(tail)[0] == a;
  }

  lemma SegmentsShift(path: string, k: nat, i: int, j: int)
    requires k < |path| && path[k] == '/' && 0 <= i <= j <= |path| - k - 1
    ensures IsSegment(path, i + k + 1, j + k + 1) <==> IsSegment(path[k + 1..], i, j)
    ensures path[i + k + 1..j + k + 1] == path[k + 1..][i..j]
  {
    var rest := path[k + 1..];
    assert path[i + k + 1..j + k + 1] == rest[i..j];
    assert i > 0 ==> rest[i - 1] == path[i + k];
    assert j < |rest| ==> rest[j] == path[j + k + 1];
  }

  lemma LaterSegment(path: string, k: nat, i: int, j: int)
    requires k < |path| && path[k] == '/' && '/' !in path[..k] && IsSegment(path, i, j)
    ensures if i == 0 then j == k else i > k
  {
    assert forall n | 0 <= n < k :: path[..k][n] == path[n];
    assert forall n | i <= n < j :: path[i..j][n - i] == path[n];
  }

  /** The segments of a path are the text before the first slash and the segments of what follows it. */
  lemma SegmentsStep(path: string, k: nat, s: string)
    requires k < |path| && path[k] == '/' && '/' !in path[..k]
    ensures HasSegment(path, s) <==> s == path[..k] || HasSegment(path[k + 1..], s)
  {
    var rest := path[k + 1..];
    if s == path[..k] {
      assert path[0..k] == s;
      assert IsSegment(path, 0, k);
    }
    if i, j :| IsSegment(rest, i, j) && rest[i..j] == s {
      SegmentsShift(path, k, i, j);
    }
    if i, j :| IsSegment(path, i, j) && path[i..j] == s {
      LaterSegment(path, k, i, j);
      if i > 0 {
        SegmentsShift(path, k, i - k - 1, j - k - 1);
      } else {
        assert path[0..k] == path[..k];
      }
    }
  }

  lemma OnlySegment(path: string, s: string)
    requires '/' !in path
    ensures HasSegment(path, s) <==> s == path
  {
    assert path[0..|path|] == path;
    assert IsSegment(path, 0, |path|);
  }

  /** Splitting a path lists its segments. */
  lemma {:induction false} SplitListsSegments(path: string, s: string)
    ensures s in Split(path) <==> HasSegment(path, s)
  {
    hide Split, HasSegment;
    var k := IndexOf(path, '/');
    if k < 0 {
      SplitAtSlash(path, "");
      OnlySegment(path, s);
    } else {
      var rest := path[k + 1..];
      assert path == path[..k] + "/" + rest;
      SplitAtSlash(path[..k], rest);
      SplitListsSegments(rest, s);
      SegmentsStep(path, k, s);
    }
  }

  /** The pattern of a path that stays in the component directory: letters, digits and `_ . @ - /` only. */
  ghost predicate IsRelativePath(path: string) {
    && path != "" && path[0] != '/' && path[|path| - 1] != '/'
    && (forall i | 0 <= i < |path| - 1 :: !(path[i] == '/' && path[i + 1] == '/'))
    && !HasSegment(path, "..")
    && forall c | c in path :: 'a' <= c <= 'z' || 'A' <= c <= 'Z' || '0' <= c <= '9' || c in "_.@-/"
  }

  lemma NoEmptySegment(path: string)
    ensures HasSegment(path, "") <==>
            path == "" || path[0] == '/' || path[|path| - 1] == '/' || exists i | 0 <= i < |path| - 1 :: path[i] == '/' && path[i + 1] == '/'
  {
    if i, j :| IsSegment(path, i, j) && path[i..j] == "" {
      assert i == j;
      if 0 < i < |path| { assert path[i - 1] == '/' && path[i - 1 + 1] == '/'; }
    }
    if path == "" || path[0] == '/' { assert IsSegment(path, 0, 0) && path[0..0] == ""; }
    if path != "" && path[|path| - 1] == '/' { assert IsSegment(path, |path|, |path|) && path[|path|..|path|] == ""; }
    if i :| 0 <= i < |path| - 1 && path[i] == '/' && path[i + 1] == '/' {
      assert IsSegment(path, i + 1, i + 1) && path[i + 1..i + 1] == "";
    }
  }

  /** The first of several segments is the text before the first slash. */
  lemma FirstSegment(path: string, first: string)
    requires '/' !in first
    ensures |Split(path)| > 1 && Split(path)[0] == first <==> first + "/" <= path
  {
    var k := IndexOf(path, '/');
    if k < 0 {
      SplitAtSlash(path, "");
      assert '/' in first + "/" && forall c | c in first + "/" :: first + "/" <= path ==> c in path;
    } else {
      assert path == path[..k] + "/" + path[k + 1..];
      SplitAtSlash(path[..k], path[k + 1..]);
      if first + "/" <= path {
        var rest := path[|first| + 1..];
        assert path == first + "/" + rest;
        SplitAtSlash(first, rest);
      }
    }
  }

  /** Accepted are exactly the relative paths of the pattern that do not begin with `.foundation/`. */
  lemma SafeIsPattern(path: string)
    ensures IsSafeArtifactPath(path) <==> IsRelativePath(path) && !(".foundation/" <= path)
  {
    hide Split, HasSegment;
    SplitListsSegments(path, "");
    SplitListsSegments(path, "..");
    NoEmptySegment(path);
    FirstSegment(path, RECORDS);
    assert RECORDS + "/" == ".foundation/";
    assert forall c :: IsPathChar(c) <==> 'a' <= c <= 'z' || 'A' <= c <= 'Z' || '0' <= c <= '9' || c in "_.@-/";
  }

  // ---- The file a path names ----

  /** Where the segments lead from a directory: up is `..`, and nothing leads above the component directory. */
  function Follow(segments: seq<string>, at: seq<string>): (file: Option<seq<string>>) {
    if |segments| == 0 then Some(at) else
    if segments[0] == "" || segments[0] == "." then Follow(segments[1..], at) else
    if segments[0] != ".." then Follow(segments[1..], at + [segments[0]]) else
    if |at| > 0 then Follow(segments[1..], at[..|at| - 1]) else None
  }

  /** The place a path names below the component directory, if it does not leave it. */
  function FileOf(path: string): (file: Option<seq<string>>) {
    Follow(Split(path), [])
  }

  lemma {:induction false} FollowDown(segments: seq<string>, at: seq<string>)
    requires forall s | s in segments :: s != "" && s != ".."
    ensures Follow(segments, at).Some? && at <= Follow(segments, at).value
    ensures "." !in segments ==> Follow(segments, at) == Some(at + segments)
  {
    if |segments| > 0 {
      assert segments[0] in segments && forall s | s in segments[1..] :: s in segments;
      if segments[0] == "." {
        FollowDown(segments[1..], at);
      } else {
        FollowDown(segments[1..], at + [segments[0]]);
        assert at + [segments[0]] + segments[1..] == at + segments;
      }
    } else {
      assert at + segments == at;
    }
  }

  lemma {:induction false} SplitInjective(a: string, b: string)
    requires Split(a) == Split(b)
    ensures a == b
  {
    if |a| > 0 && |b| > 0 {
      assert a == [a[0]] + a[1..] && b == [b[0]] + b[1..];
      var x, y := Split(a[1..]), Split(b[1..]);
      if a[0] == '/' {
        assert Split(a)[1..] == x;
        assert b[0] == '/';
        assert Split(b)[1..] == y;
      } else {
        assert b[0] != '/';
        assert Split(a)[0][1..] == x[0] && Split(b)[0][1..] == y[0];
        assert Split(a)[1..] == x[1..] && Split(b)[1..] == y[1..];
        assert x == [x[0]] + x[1..] && y == [y[0]] + y[1..];
      }
      SplitInjective(a[1..], b[1..]);
    }
  }

  /**
   * An accepted path never leaves the component directory. Without `.` segments it is the
   * only such path of its file, and the file lies outside the directory of the records.
   */
  lemma PlainPathsNameFiles(a: string, b: string)
    requires IsSafeArtifactPath(a) && IsSafeArtifactPath(b)
    ensures FileOf(a).Some?
    ensures "." !in Split(a) && "." !in Split(b) ==> (FileOf(a) == FileOf(b) <==> a == b)
    ensures "." !in Split(a) ==> !([RECORDS] < FileOf(a).value)
  {
    hide Split;
    FollowDown(Split(a), []);
    FollowDown(Split(b), []);
    assert [] + Split(a) == Split(a) && [] + Split(b) == Split(b);
    if "." !in Split(a) && "." !in Split(b) && FileOf(a) == FileOf(b) {
      SplitInjective(a, b);
    }
  }

  /**
   * With `.` segments neither holds: `./` before any path of the pattern is accepted and
   * names the same file, one among the records included.
   */
  lemma DotPathNamesSameFile(path: string)
    requires IsRelativePath(path)
    ensures IsSafeArtifactPath("./" + path) && FileOf("./" + path) == FileOf(path)
    ensures IsSafeArtifactPath(path) <==> !(".foundation/" <= path)
  {
    hide Split, HasSegment;
    SafeIsPattern(path);
    SplitListsSegments(path, "");
    SplitListsSegments(path, "..");
    NoEmptySegment(path);
    SplitAtSlash(".", path);
    assert "." + "/" + path == "./" + path;
    assert Split("./" + path)[1..] == Split(path);
    assert forall c | c in path :: IsPathChar(c);
  }
}
