// jit/Common/FileUtil.cpp: the path-string helpers StripTailDirSlashes,
// GetDir and GetFilename, on a non-Windows host (DIR_SEP_CHRS is "/").
//
// A std::string is a sequence of characters; StripTailDirSlashes edits its
// argument in place without changing its length, so it works on an array.
// The Windows-only drive-letter case of StripTailDirSlashes is left out.
module FileUtil {

  /** strchr("/", c) is non-null for '/' and also for the terminating NUL. */
  predicate MatchesDirSepChrs(c: char)
  {
    c == '/' || c == '\0'
  }

  predicate IsSeparator(c: char)
  {
    c == '/' || c == '\\'
  }

  // ---------------------------------------------------------------- StripTailDirSlashes

  /**
   * Where the stripping loop stops: the last index at or below `i` whose
   * character is not matched, or 0 when every character down to index 1 is
   * matched.
   */
  function StopIndex(s: seq<char>, i: nat): (j: nat)
    requires i < |s|
    ensures j <= i
    ensures j == 0 || !MatchesDirSepChrs(s[j])
    ensures forall k :: j < k <= i ==> MatchesDirSepChrs(s[k])
  {
    if i == 0 || !MatchesDirSepChrs(s[i]) then i else StopIndex(s, i - 1)
  }

  /** `s` with every character after `j` replaced by NUL. */
  function NulsAfter(s: seq<char>, j: nat): (r: seq<char>)
    requires j < |s|
    ensures |r| == |s| && r[..j + 1] == s[..j + 1]
    ensures forall k :: j < k < |s| ==> r[k] == '\0'
  {
    s[..j + 1] + seq(|s| - j - 1, _ => '\0')
  }

  /**
   * The path with its trailing slashes overwritten by NUL: strings of length
   * at most one are unchanged, and the first character always stays.
   */
  function StrippedTail(s: seq<char>): (r: seq<char>)
    ensures |r| == |s|
  {
    if |s| <= 1 then s else NulsAfter(s, StopIndex(s, |s| - 1))
  }

  /**
   * StripTailDirSlashes with the walk kept inside the string (`i > 0`): a
   * string made only of slashes keeps its first one, so "//" becomes "/".
   */
  method StripTailDirSlashes(fname: array<char>)
    modifies fname
    ensures fname[..] == StrippedTail(old(fname[..]))
  {
    if fname.Length > 1 {
      var i := fname.Length - 1;
      while i > 0 && MatchesDirSepChrs(fname[i])
        invariant 0 <= i < fname.Length
        invariant fname[..i + 1] == old(fname[..i + 1])
        invariant forall k :: i < k < fname.Length ==> fname[k] == '\0'
        invariant StopIndex(old(fname[..]), fname.Length - 1) == StopIndex(old(fname[..]), i)
      {
        fname[i] := '\0';
        i := i - 1;
      }
      assert StopIndex(old(fname[..]), i) == i;
      assert fname[..] == fname[..i + 1] + fname[i + 1..];
    }
  }

  /** Some character at index 0 or above that the loop does not match, so that the source's walk stops in bounds. */
  predicate HasStop(s: seq<char>)
  {
    exists k :: 0 <= k < |s| && !MatchesDirSepChrs(s[k])
  }

  /**
   * StripTailDirSlashes as written: the loop has no lower bound, so it only
   * stays inside the string when a character it does not match precedes the
   * trailing slashes.
   */
  method StripTailDirSlashesAsWritten(fname: array<char>)
    requires fname.Length <= 1 || HasStop(fname[..])
    modifies fname
    ensures fname[..] == StrippedTail(old(fname[..]))
  {
    if fname.Length > 1 {
      var i := fname.Length - 1;
      while MatchesDirSepChrs(fname[i])
        invariant 0 <= i < fname.Length
        invariant fname[..i + 1] == old(fname[..i + 1])
        invariant forall k :: i < k < fname.Length ==> fname[k] == '\0'
        invariant exists k :: 0 <= k <= i && !MatchesDirSepChrs(old(fname[k]))
        invariant StopIndex(old(fname[..]), fname.Length - 1) == StopIndex(old(fname[..]), i)
        decreases i
      {
        assert fname[i] == old(fname[i]);
        fname[i] := '\0';
        i := i - 1;
      }
      assert StopIndex(old(fname[..]), i) == i;
      assert fname[..] == fname[..i + 1] + fname[i + 1..];
    }
  }

  /** If every character is matched, there is no stop. */
  lemma NoStop(s: seq<char>)
    requires |s| > 0 && MatchesDirSepChrs(s[0])
    requires forall k :: 0 < k < |s| ==> MatchesDirSepChrs(s[k])
    ensures !HasStop(s)
  {
  }

  /** "//" passes the source's length guard but has no stop: the source's loop reads index -1 (SIZE_MAX). */
  lemma AllSlashesRunPastStart()
    ensures |"//"| > 1 && !HasStop("//")
    ensures StrippedTail("//") == "/\0"
  {
    NoStop("//");
  }

  /** Stripping twice strips nothing more. */
  lemma {:induction false} StrippedTailIdempotent(s: seq<char>)
    ensures StrippedTail(StrippedTail(s)) == StrippedTail(s)
  {
    if |s| > 1 {
      var j := StopIndex(s, |s| - 1);
      var r := NulsAfter(s, j);
      StopIndexOfStripped(s, r, j, |s| - 1);
    }
  }

  lemma {:induction false} StopIndexOfStripped(s: seq<char>, r: seq<char>, j: nat, i: nat)
    requires i < |s| == |r| && j <= i
    requires j == 0 || !MatchesDirSepChrs(s[j])
    requires r[..j + 1] == s[..j + 1]
    requires forall k :: j < k < |r| ==> r[k] == '\0'
    ensures StopIndex(r, i) == j
    decreases i
  {
    if i > j {
      StopIndexOfStripped(s, r, j, i - 1);
    } else {
      assert r[j] == s[j];
    }
  }

  // ---------------------------------------------------------------- GetDir

  /** The index of the last separator below `k`, or -1. */
  function LastSeparator(path: seq<char>, k: nat): (n: int)
    requires k <= |path|
    ensures -1 <= n < k
    ensures n >= 0 ==> IsSeparator(path[n])
    ensures forall m :: n < m < k ==> !IsSeparator(path[m])
  {
    if k == 0 then -1 else if IsSeparator(path[k - 1]) then k - 1 else LastSeparator(path, k - 1)
  }

  /** Every backslash turned into a slash. */
  function Slashed(s: seq<char>): (r: seq<char>)
    ensures |r| == |s|
    ensures forall i :: 0 <= i < |s| ==> r[i] == if s[i] == '\\' then '/' else s[i]
  {
    seq(|s|, i requires 0 <= i < |s| => if s[i] == '\\' then '/' else s[i])
  }

  /**
   * The directory part of a path: the text before the last separator with
   * backslashes made slashes, "/" for the root itself, and "/" when the last
   * separator is the first character or there is none.
   */
  function DirOf(path: seq<char>): (r: seq<char>)
    ensures |r| > 0
    ensures forall i :: 0 <= i < |r| ==> r[i] != '\\'
  {
    if path == "/" then path
    else
      var n := LastSeparator(path, |path|);
      if n > 0 then Slashed(path[..n]) else "/"
  }

  method GetDir(path: seq<char>) returns (r: seq<char>)
    ensures r == DirOf(path)
  {
    if path == "/" {
      return path;
    }
    var n := |path| - 1;
    while n >= 0 && path[n] != '\\' && path[n] != '/'
      invariant -1 <= n < |path|
      invariant LastSeparator(path, |path|) == LastSeparator(path, n + 1)
    {
      n := n - 1;
    }
    var cutpath := if n > 0 then path[..n] else "";
    var i := 0;
    while i < |cutpath|
      invariant 0 <= i <= |cutpath|
      invariant n > 0 ==> |cutpath| == n
      invariant n <= 0 ==> cutpath == ""
      invariant forall k :: 0 <= k < i ==> cutpath[k] == Slashed(path[..n])[k]
      invariant forall k :: i <= k < |cutpath| ==> cutpath[k] == path[k]
    {
      if cutpath[i] == '\\' {
        cutpath := cutpath[i := '/'];
      }
      i := i + 1;
    }
    if |cutpath| == 0 {
      return "/";
    }
    r := cutpath;
  }

  /** The root is its own directory. */
  lemma DirOfRoot()
    ensures DirOf("/") == "/"
  {
  }

  /** With the last separator at index n > 0, the directory is the first n characters, slashes normalised. */
  lemma DirOfCut(path: seq<char>, n: nat)
    requires path != "/" && 0 < n < |path| && IsSeparator(path[n])
    requires forall m :: n < m < |path| ==> !IsSeparator(path[m])
    ensures DirOf(path) == Slashed(path[..n])
  {
    LastSeparatorIs(path, n, |path|);
  }

  /** Without a separator past index 0, the directory is "/". */
  lemma DirOfNoCut(path: seq<char>)
    requires forall m :: 0 < m < |path| ==> !IsSeparator(path[m])
    ensures DirOf(path) == "/"
  {
    if path != "/" {
      var n := LastSeparator(path, |path|);
      assert n <= 0;
    }
  }

  lemma {:induction false} LastSeparatorIs(path: seq<char>, n: nat, k: nat)
    requires n < k <= |path| && IsSeparator(path[n])
    requires forall m :: n < m < k ==> !IsSeparator(path[m])
    ensures LastSeparator(path, k) == n
    decreases k
  {
    if k - 1 != n {
      LastSeparatorIs(path, n, k - 1);
    }
  }

  // ---------------------------------------------------------------- GetFilename

  /** GetFilename as written: skips |GetDir(path)| + 1 characters whenever that leaves something. */
  function GetFilenameAsWritten(path: seq<char>): (r: seq<char>)
    ensures var off := |DirOf(path)| + 1; r == if off < |path| then path[off..] else path
  {
    var off := |DirOf(path)| + 1;
    if off < |path| then path[off..] else path
  }

  /**
   * GetFilename as evidently intended: the text after the last separator,
   * or the whole path when there is no separator or nothing follows it.
   */
  function GetFilename(path: seq<char>): (r: seq<char>)
    ensures forall i :: 0 <= i < |r| && r != path ==> !IsSeparator(r[i])
    ensures |r| <= |path| && path[|path| - |r|..] == r
  {
    var n := LastSeparator(path, |path|);
    if n + 1 < |path| then path[n + 1..] else path
  }

  /** When the directory part is a real prefix (last separator past index 0), both versions agree. */
  lemma GetFilenameAgrees(path: seq<char>)
    requires LastSeparator(path, |path|) > 0
    ensures GetFilenameAsWritten(path) == GetFilename(path)
  {
    var n := LastSeparator(path, |path|);
    assert path != "/";
    assert |DirOf(path)| == n;
  }

  /**
   * A bare file name loses its first two characters, and a file in the root
   * directory its first character plus the slash, because the "/" that
   * GetDir substitutes for an empty directory is counted as a prefix.
   */
  lemma GetFilenameDropsCharacters()
    ensures GetFilenameAsWritten("abc") == "c" && GetFilename("abc") == "abc"
    ensures GetFilenameAsWritten("/abc") == "bc" && GetFilename("/abc") == "abc"
  {
    DirOfNoCut("abc");
    DirOfNoCut("/abc");
    assert LastSeparator("abc", 3) == -1;
    LastSeparatorIs("/abc", 0, 4);
  }
}
