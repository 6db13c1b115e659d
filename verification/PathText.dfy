/** Path strings as the copy and delete engine sees them: ordinal
    `String.Replace`, `StartsWith`/`EndsWith`, backslash counting and the
    disk-root test used by the scanner's reserved-folder guard. */
module PathText {

  const Backslash: char := '\\'

  /** Number of occurrences of `c` in `s` (the LINQ `Count(c => c == '\\')`). */
  function CountChar(s: string, c: char): (n: nat)
    ensures n <= |s|
    ensures n == 0 <==> c !in s
  {
    if |s| == 0 then 0
    else (if s[0] == c then 1 else 0) + CountChar(s[1..], c)
  }

  predicate StartsWith(s: string, prefix: string) {
    |prefix| <= |s| && s[..|prefix|] == prefix
  }

  predicate EndsWith(s: string, suffix: string) {
    |suffix| <= |s| && s[|s| - |suffix|..] == suffix
  }

  /** `pat` occurs in `s` starting at index `i`. */
  predicate OccursAt(s: string, pat: string, i: int) {
    0 <= i && i + |pat| <= |s| && s[i..i + |pat|] == pat
  }

  /** `pat` occurs somewhere in `s`; independent of how `Replace` scans. */
  ghost predicate Occurs(s: string, pat: string) {
    exists i :: OccursAt(s, pat, i)
  }

  /** Ordinal `String.Replace(oldValue, newValue)`: every non-overlapping
      occurrence of `oldValue`, found left to right, is replaced. .NET throws
      `ArgumentException` for an empty `oldValue`, hence the precondition. */
  function Replace(s: string, oldValue: string, newValue: string): string
    requires |oldValue| > 0
    decreases |s|
  {
    if |s| < |oldValue| then s
    else if s[..|oldValue|] == oldValue then newValue + Replace(s[|oldValue|..], oldValue, newValue)
    else [s[0]] + Replace(s[1..], oldValue, newValue)
  }

  // ---------------------------------------------------------------------
  // Replace: when it is the identity, and what it does to a leading root
  // ---------------------------------------------------------------------

  /** Replacing a value by itself changes nothing. */
  lemma {:induction false} ReplaceWithSelf(s: string, value: string)
    requires |value| > 0
    ensures Replace(s, value, value) == s
    decreases |s|
  {
    if |s| < |value| {
    } else if s[..|value|] == value {
      ReplaceWithSelf(s[|value|..], value);
      assert s == s[..|value|] + s[|value|..];
    } else {
      ReplaceWithSelf(s[1..], value);
      assert s == [s[0]] + s[1..];
    }
  }

  /** Without an occurrence of `oldValue`, the string comes back unchanged. */
  lemma {:induction false} ReplaceWithoutOccurrence(s: string, oldValue: string, newValue: string)
    requires |oldValue| > 0
    requires !Occurs(s, oldValue)
    ensures Replace(s, oldValue, newValue) == s
    decreases |s|
  {
    if |s| < |oldValue| {
    } else {
      assert !OccursAt(s, oldValue, 0);
      assert s[..|oldValue|] != oldValue;
      forall i | OccursAt(s[1..], oldValue, i)
        ensures false
      {
        assert s[1..][i..i + |oldValue|] == s[i + 1..i + 1 + |oldValue|];
        assert OccursAt(s, oldValue, i + 1);
      }
      ReplaceWithoutOccurrence(s[1..], oldValue, newValue);
      assert s == [s[0]] + s[1..];
    }
  }

  lemma {:induction false} ReplaceNeverLonger(s: string, oldValue: string, newValue: string)
    requires |oldValue| > 0 && |newValue| <= |oldValue|
    ensures |Replace(s, oldValue, newValue)| <= |s|
    decreases |s|
  {
    if |s| < |oldValue| {
    } else if s[..|oldValue|] == oldValue {
      ReplaceNeverLonger(s[|oldValue|..], oldValue, newValue);
    } else {
      ReplaceNeverLonger(s[1..], oldValue, newValue);
    }
  }

  lemma {:induction false} ReplaceNeverShorter(s: string, oldValue: string, newValue: string)
    requires |oldValue| > 0 && |newValue| >= |oldValue|
    ensures |Replace(s, oldValue, newValue)| >= |s|
    decreases |s|
  {
    if |s| < |oldValue| {
    } else if s[..|oldValue|] == oldValue {
      ReplaceNeverShorter(s[|oldValue|..], oldValue, newValue);
    } else {
      ReplaceNeverShorter(s[1..], oldValue, newValue);
    }
  }

  /** An occurrence of `oldValue` with a different `newValue` always changes the string. */
  lemma {:induction false} ReplaceChangesOccurrence(s: string, oldValue: string, newValue: string)
    requires |oldValue| > 0 && newValue != oldValue
    requires Occurs(s, oldValue)
    ensures Replace(s, oldValue, newValue) != s
    decreases |s|
  {
    var i :| OccursAt(s, oldValue, i);
    var n := |oldValue|;
    if s[..n] == oldValue {
      var rest := s[n..];
      var r := Replace(rest, oldValue, newValue);
      assert Replace(s, oldValue, newValue) == newValue + r;
      if |newValue| == n {
        assert (newValue + r)[..n] == newValue != s[..n];
      } else if |newValue| < n {
        ReplaceNeverLonger(rest, oldValue, newValue);
        assert |newValue + r| < |s|;
      } else {
        ReplaceNeverShorter(rest, oldValue, newValue);
        assert |newValue + r| > |s|;
      }
    } else {
      assert i != 0;
      assert s[1..][i - 1..i - 1 + n] == s[i..i + n];
      assert OccursAt(s[1..], oldValue, i - 1);
      ReplaceChangesOccurrence(s[1..], oldValue, newValue);
      var r := Replace(s[1..], oldValue, newValue);
      assert ([s[0]] + r)[1..] == r != s[1..];
    }
  }

  /** The rewrite leaves a path unchanged exactly when the old value does not
      occur in it, or the new value equals the old one. This is the condition
      under which the copy engine skips an entry. */
  lemma ReplaceUnchangedIff(s: string, oldValue: string, newValue: string)
    requires |oldValue| > 0
    ensures Replace(s, oldValue, newValue) == s <==> newValue == oldValue || !Occurs(s, oldValue)
  {
    if newValue == oldValue {
      ReplaceWithSelf(s, oldValue);
    } else if Occurs(s, oldValue) {
      ReplaceChangesOccurrence(s, oldValue, newValue);
    } else {
      ReplaceWithoutOccurrence(s, oldValue, newValue);
    }
  }

  /** A path that starts with the old value has that leading copy replaced;
      when the old value does not occur again, the result is exactly prefix
      substitution. */
  lemma ReplaceLeadingValue(oldValue: string, newValue: string, rest: string)
    requires |oldValue| > 0
    ensures Replace(oldValue + rest, oldValue, newValue) == newValue + Replace(rest, oldValue, newValue)
    ensures !Occurs(rest, oldValue) ==> Replace(oldValue + rest, oldValue, newValue) == newValue + rest
  {
    var s := oldValue + rest;
    assert s[..|oldValue|] == oldValue;
    assert s[|oldValue|..] == rest;
    if !Occurs(rest, oldValue) {
      ReplaceWithoutOccurrence(rest, oldValue, newValue);
    }
  }

  /** Every occurrence is rewritten, not only the leading root: with source
      root `/a` and destination root `/b`, the file `/a/a` is copied to
      `/b/b`, whereas prefix substitution would give `/b/a`. */
  lemma ReplaceRewritesInnerOccurrence()
    ensures Replace("/a/a", "/a", "/b") == "/b/b"
    ensures Replace("/a/a", "/a", "/b") != "/b" + "/a"
  {
    ReplaceLeadingValue("/a", "/b", "/a");
    ReplaceLeadingValue("/a", "/b", "");
    assert "/a" + "/a" == "/a/a";
    assert "/a" + "" == "/a";
    assert ("/b" + "/a")[3] != "/b/b"[3];
  }

  // ---------------------------------------------------------------------
  // Disk roots
  // ---------------------------------------------------------------------

  /** `FileSystemName.MatchesSimpleExpression(@"?:\", path)`, read literally:
      any one character, a colon, a backslash. */
  predicate MatchesDriveRootExpression(path: string) {
    |path| == 3 && path[1] == ':' && path[2] == Backslash
  }

  /** A UNC share root `\\server\share` or a drive root `X:\`. */
  function IsPathAtDiskRoot(path: string): (r: bool)
    ensures r ==> CountChar(path, Backslash) == 1 || CountChar(path, Backslash) == 3
  {
    if StartsWith(path, "\\\\") && CountChar(path, Backslash) == 3 then true
    else if MatchesDriveRootExpression(path) && CountChar(path, Backslash) == 1 then true
    else false
  }

  /** The two shapes of a disk root, stated without counting on the first
      character of a drive root: it is not a backslash. */
  lemma DiskRootShapes(path: string)
    ensures IsPathAtDiskRoot(path) <==>
      (StartsWith(path, "\\\\") && CountChar(path, Backslash) == 3) ||
      (|path| == 3 && path[0] != Backslash && path[1] == ':' && path[2] == Backslash)
  {
    if |path| == 3 {
      CountCharOfThree(path, Backslash);
      if path[0] == Backslash && path[1] == ':' && path[2] == Backslash {
        assert !MatchesDriveRootExpression(path) || CountChar(path, Backslash) != 1;
      }
    }
  }

  lemma CountCharOfThree(s: string, c: char)
    requires |s| == 3
    ensures CountChar(s, c) == (if s[0] == c then 1 else 0) + (if s[1] == c then 1 else 0) + (if s[2] == c then 1 else 0)
  {
    assert s[1..] == [s[1], s[2]];
    assert s[1..][1..] == [s[2]];
    assert s[1..][1..][1..] == [];
  }

  /** The Windows system folders the scan never enters when they are a disk root. */
  const ReservedRootFolders: seq<string> := ["System Volume Information", "$RECYCLE.BIN", "Recovery"]

  predicate EndsWithReservedName(path: string) {
    exists i :: 0 <= i < |ReservedRootFolders| && EndsWith(path, ReservedRootFolders[i])
  }

  /** The reserved-folder guard can only fire on a UNC share root whose own
      name is reserved: a drive root is three characters long and cannot end
      with any reserved name. */
  lemma ReservedRootIsShareRoot(path: string)
    requires IsPathAtDiskRoot(path) && EndsWithReservedName(path)
    ensures StartsWith(path, "\\\\") && CountChar(path, Backslash) == 3
    ensures |path| >= 8
  {
    var i :| 0 <= i < |ReservedRootFolders| && EndsWith(path, ReservedRootFolders[i]);
    assert |ReservedRootFolders[i]| >= 8 by {
      if i == 0 {
        assert |ReservedRootFolders[0]| == 25;
      } else if i == 1 {
        assert |ReservedRootFolders[1]| == 12;
      } else {
        assert |ReservedRootFolders[2]| == 8;
      }
    }
    assert |path| >= 8;
    DiskRootShapes(path);
  }
}
