/** Values shared by the models of `Functions.cs`: optional and failing
    results (null references and caught exceptions of the C# code) and the
    two string operations the code relies on, `string.Contains` and
    `path.Split('\\').Last()`. */
module Common {

  /** A value that may be absent (a C# `null`). */
  datatype Option<+T> = None | Some(value: T)

  /** The value of a call, or the exception it throws. */
  datatype Result<+T, +E> = Success(value: T) | Failure(error: E)

  /** Ordinal `s.StartsWith(p)`. */
  predicate StartsWith(s: string, p: string)
  {
    |p| <= |s| && s[..|p|] == p
  }

  /** Ordinal, case-sensitive `s.Contains(p)`: `p` occurs somewhere in `s`
      (the empty string occurs everywhere). */
  predicate Contains(s: string, p: string)
    decreases |s|
  {
    StartsWith(s, p) || (|s| > 0 && Contains(s[1..], p))
  }

  /** `p` occurs in `s` starting at position `i`. */
  predicate OccursAt(s: string, p: string, i: nat)
  {
    i + |p| <= |s| && s[i..i + |p|] == p
  }

  /** An occurrence of `p` at position `i` of `s` makes `s.Contains(p)` true. */
  lemma {:induction false} ContainsAt(s: string, p: string, i: nat)
    requires OccursAt(s, p, i)
    ensures Contains(s, p)
    decreases i
  {
    if i > 0 {
      assert s[1..][i - 1..i - 1 + |p|] == s[i..i + |p|];
      ContainsAt(s[1..], p, i - 1);
    }
  }

  /** `Contains` agrees with the positional definition of a substring. */
  lemma {:induction false} ContainsIsSubstring(s: string, p: string)
    ensures Contains(s, p) <==> exists i: nat :: OccursAt(s, p, i)
    decreases |s|
  {
    if Contains(s, p) {
      if StartsWith(s, p) {
        assert OccursAt(s, p, 0);
      } else {
        ContainsIsSubstring(s[1..], p);
        var i: nat :| OccursAt(s[1..], p, i);
        assert s[i + 1..i + 1 + |p|] == s[1..][i..i + |p|];
        assert OccursAt(s, p, i + 1);
      }
    } else {
      forall i: nat | OccursAt(s, p, i)
        ensures false
      {
        ContainsAt(s, p, i);
      }
    }
  }

  /** The last element of `path.Split('\\')`: the text after the last
      backslash, or the whole path when it has none. */
  function LastSegment(path: string): string
  {
    if |path| == 0 then ""
    else if path[|path| - 1] == '\\' then ""
    else LastSegment(path[..|path| - 1]) + [path[|path| - 1]]
  }

  /** `LastSegment` is the longest suffix of `path` without a backslash: it
      has none, it ends `path`, and it is `path` itself or preceded by a
      backslash. */
  lemma {:induction false} LastSegmentIsLongestSuffix(path: string)
    ensures var r := LastSegment(path);
            && '\\' !in r
            && |r| <= |path| && r == path[|path| - |r|..]
            && (|r| < |path| ==> path[|path| - |r| - 1] == '\\')
    decreases |path|
  {
    if |path| > 0 && path[|path| - 1] != '\\' {
      var init := path[..|path| - 1];
      LastSegmentIsLongestSuffix(init);
      var r0 := LastSegment(init);
      assert LastSegment(path) == r0 + [path[|path| - 1]];
      assert init[|init| - |r0|..] + [path[|path| - 1]] == path[|path| - |r0| - 1..];
    }
  }

  /** A file name appended to a directory with a backslash is what the split
      gives back. */
  lemma {:induction false} LastSegmentOfChild(dir: string, name: string)
    requires '\\' !in name
    ensures LastSegment(dir + "\\" + name) == name
    decreases |name|
  {
    var path := dir + "\\" + name;
    if name == [] {
      assert path[|path| - 1] == '\\';
    } else {
      var init := name[..|name| - 1];
      assert path[..|path| - 1] == dir + "\\" + init;
      assert path[|path| - 1] == name[|name| - 1];
      LastSegmentOfChild(dir, init);
      assert init + [name[|name| - 1]] == name;
    }
  }
}
