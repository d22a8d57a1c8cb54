/**
 * Windows path strings as the repository manipulates them: the `\`-split used to find a
 * package root, and simplified versions of `Path.Combine`, `Path.GetDirectoryName`,
 * `string.ToLower` and `string.EndsWith`.
 */
module Paths {

  /** The separator that `Split('\\')` and `string.Join("\\", ...)` use. */
  const Separator: char := '\\'

  /** The alternative separator that the .NET path functions accept as well. */
  const AltSeparator: char := '/'

  predicate IsDirectorySeparator(c: char) {
    c == Separator || c == AltSeparator
  }

  /** `s.Split('\\')`: the pieces between separators, in order; there is always at least one. */
  function Split(s: string): (parts: seq<string>)
    ensures |parts| >= 1
    ensures forall i :: 0 <= i < |parts| ==> Separator !in parts[i]
  {
    if s == [] then [[]]
    else
      var rest := Split(s[1..]);
      if s[0] == Separator then [[]] + rest
      else [[s[0]] + rest[0]] + rest[1..]
  }

  /** `string.Join("\\", parts)`. */
  function Join(parts: seq<string>): string {
    if |parts| == 0 then []
    else if |parts| == 1 then parts[0]
    else parts[0] + [Separator] + Join(parts[1..])
  }

  /** `Enumerable.Reverse`. */
  function Reverse<T>(s: seq<T>): seq<T> {
    seq(|s|, i requires 0 <= i < |s| => s[|s| - 1 - i])
  }

  /**
   * The directory part of a file path as Program.cs computes it:
   * `string.Join("\\", path.Split('\\').Reverse().Skip(1).Reverse())`.
   */
  function ParentPath(path: string): string {
    Join(Reverse(Reverse(Split(path))[1..]))
  }

  /** The last `\`-separated component of a path (the file name). */
  function LastComponent(path: string): string {
    var parts := Split(path);
    parts[|parts| - 1]
  }

  /** Joining the pieces of a split gives the original string back. */
  lemma {:induction false} JoinSplit(s: string)
    ensures Join(Split(s)) == s
  {
    if s != [] {
      var rest := Split(s[1..]);
      JoinSplit(s[1..]);
      if s[0] != Separator && |rest| > 1 {
        calc {
          Join(Split(s));
          ([s[0]] + rest[0]) + [Separator] + Join(rest[1..]);
          [s[0]] + (rest[0] + [Separator] + Join(rest[1..]));
          [s[0]] + Join(rest);
        }
      }
      assert s == [s[0]] + s[1..];
    }
  }

  /** A string without separators splits into itself alone. */
  lemma {:induction false} SplitWithoutSeparator(a: string)
    requires Separator !in a
    ensures Split(a) == [a]
  {
    if a != [] {
      SplitWithoutSeparator(a[1..]);
      assert [a[0]] + a[1..] == a;
    }
  }

  /** Splitting `a + "\" + b`, where `a` holds no separator, gives `a` followed by the pieces of `b`. */
  lemma {:induction false} SplitAfterSeparator(a: string, b: string)
    requires Separator !in a
    ensures Split(a + [Separator] + b) == [a] + Split(b)
  {
    if a == [] {
      assert [] + [Separator] + b == [Separator] + b;
      assert ([Separator] + b)[1..] == b;
    } else {
      var s := a + [Separator] + b;
      assert s[0] == a[0];
      assert s[1..] == a[1..] + [Separator] + b;
      SplitAfterSeparator(a[1..], b);
      assert [a[0]] + a[1..] == a;
    }
  }

  /** Splitting a join of separator-free pieces gives the pieces back. */
  lemma {:induction false} SplitJoin(parts: seq<string>)
    requires |parts| >= 1
    requires forall i :: 0 <= i < |parts| ==> Separator !in parts[i]
    ensures Split(Join(parts)) == parts
  {
    if |parts| == 1 {
      SplitWithoutSeparator(parts[0]);
    } else {
      SplitJoin(parts[1..]);
      SplitAfterSeparator(parts[0], Join(parts[1..]));
      assert [parts[0]] + parts[1..] == parts;
    }
  }

  /** Joining a sequence cut in two is joining the halves with a separator between them. */
  lemma {:induction false} JoinCut(parts: seq<string>, k: nat)
    requires 1 <= k < |parts|
    ensures Join(parts) == Join(parts[..k]) + [Separator] + Join(parts[k..])
  {
    if k > 1 {
      JoinCut(parts[1..], k - 1);
      assert parts[1..][..k - 1] == parts[..k][1..];
      assert parts[1..][k - 1..] == parts[k..];
    }
  }

  /** Reverse, drop the first, reverse again: the sequence without its last element. */
  lemma ReverseSkipReverse<T>(s: seq<T>)
    requires |s| >= 1
    ensures Reverse(Reverse(s)[1..]) == s[..|s| - 1]
  {
    var n := |s|;
    var rev := Reverse(s);
    var skipped := rev[1..];
    var r := Reverse(skipped);
    assert |skipped| == n - 1;
    forall i | 0 <= i < n - 1 ensures r[i] == s[i] {
      calc {
        r[i];
        skipped[n - 2 - i];
        rev[n - 1 - i];
        s[i];
      }
    }
  }

  /**
   * The package root of a path is everything before its LAST separator (nothing when there is
   * no separator), so it is never the path itself.
   */
  lemma ParentPathSpec(path: string)
    ensures Separator in path ==>
              path == ParentPath(path) + [Separator] + LastComponent(path) &&
              Separator !in LastComponent(path)
    ensures Separator !in path ==> ParentPath(path) == []
    ensures path != [] ==> |ParentPath(path)| < |path| && ParentPath(path) != path
  {
    var parts := Split(path);
    ReverseSkipReverse(parts);
    JoinSplit(path);
    if |parts| == 1 {
      assert ParentPath(path) == Join([]) == [];
    } else {
      JoinCut(parts, |parts| - 1);
      assert parts[|parts| - 1..] == [parts[|parts| - 1]];
      assert path == ParentPath(path) + [Separator] + LastComponent(path);
    }
  }

  /** `Path.IsPathRooted` on Windows: a leading separator or a drive letter. */
  predicate IsRooted(p: string) {
    (|p| >= 1 && IsDirectorySeparator(p[0])) || (|p| >= 2 && p[1] == ':')
  }

  /** The text `Path.Combine(a, b)` puts in front of a second part that is not rooted. */
  function CombinePrefix(a: string): string {
    if a == [] || IsDirectorySeparator(a[|a| - 1]) then a else a + [Separator]
  }

  /**
   * `Path.Combine(a, b)`: an empty part is skipped, a rooted second part replaces the first,
   * otherwise the two are joined by one separator.
   */
  function Combine(a: string, b: string): string {
    if a == [] then b
    else if b == [] then a
    else if IsRooted(b) then b
    else CombinePrefix(a) + b
  }

  /** `Path.Combine(a, b, c)`. */
  function Combine3(a: string, b: string, c: string): string {
    Combine(Combine(a, b), c)
  }

  /** Combining the same directory with two different plain names gives two different paths. */
  lemma CombineInjective(a: string, b1: string, b2: string)
    requires b1 != [] && !IsRooted(b1) && b2 != [] && !IsRooted(b2)
    ensures Combine(a, b1) == Combine(a, b2) ==> b1 == b2
    ensures Combine(a, b1)[|Combine(a, b1)| - |b1|..] == b1
  {
    var p := CombinePrefix(a);
    if Combine(a, b1) == Combine(a, b2) {
      assert (p + b1)[|p|..] == b1;
      assert (p + b2)[|p|..] == b2;
    }
    assert (p + b1)[|p + b1| - |b1|..] == b1;
  }

  /**
   * `Path.GetDirectoryName` for a relative path: everything before its last separator
   * (either kind), or the empty string when there is none.
   */
  function DirectoryName(p: string): (r: string)
    ensures |r| < |p| || (r == [] && p == [])
    ensures r <= p
    ensures (forall i :: 0 <= i < |p| ==> !IsDirectorySeparator(p[i])) ==> r == []
    ensures r != [] || (exists i :: 0 <= i < |p| && IsDirectorySeparator(p[i])) ==>
              IsDirectorySeparator(p[|r|]) &&
              forall i :: |r| < i < |p| ==> !IsDirectorySeparator(p[i])
  {
    if p == [] then []
    else if IsDirectorySeparator(p[|p| - 1]) then p[..|p| - 1]
    else DirectoryName(p[..|p| - 1])
  }

  /** `char.ToLower` on the ASCII letters. */
  function LowerChar(c: char): char {
    if 'A' <= c <= 'Z' then (c as int + 32) as char else c
  }

  /** `string.ToLower`, letter by letter. */
  function ToLower(s: string): (r: string)
    ensures |r| == |s|
  {
    seq(|s|, i requires 0 <= i < |s| => LowerChar(s[i]))
  }

  /** `s.ToLower().StartsWith(prefix.ToLower())`. */
  predicate StartsWithIgnoringCase(s: string, prefix: string) {
    ToLower(prefix) <= ToLower(s)
  }

  /** `s.EndsWith(suffix)`. */
  predicate EndsWith(s: string, suffix: string) {
    |suffix| <= |s| && s[|s| - |suffix|..] == suffix
  }
}
