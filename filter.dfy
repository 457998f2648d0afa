/** utils.FilterFiles: dropping the files a user excluded, by a
    case-insensitive substring of the path or a glob over the base name. */
module Filter {
  import opened GoStrings
  import opened GoPaths

  /** A file handed to the filter: its path, its size in bytes and its kind
      ("file", "directory", ...). */
  datatype File = File(path: string, size: int, kind: string)

  /** One exclusion removes a file when, ignoring case, it occurs anywhere in
      the path, or when it glob-matches the path's base name. */
  predicate ExcludedBy(file: File, exclusion: string) {
    Contains(ToLower(file.path), ToLower(exclusion)) || GlobMatch(exclusion, Base(file.path))
  }

  /** Some exclusion removes the file. */
  predicate Excluded(file: File, exclusions: seq<string>) {
    exists e | e in exclusions :: ExcludedBy(file, e)
  }

  /** Some exclusion of the list removes the file, as a predicate on files. */
  function Excluder(exclusions: seq<string>): File -> bool {
    file => Excluded(file, exclusions)
  }

  /** The files `drop` does not hold for, in their original order. */
  function KeepUnless(files: seq<File>, drop: File -> bool): seq<File> {
    if files == [] then []
    else
      var last := files[|files| - 1];
      KeepUnless(files[..|files| - 1], drop) + (if drop(last) then [] else [last])
  }

  /** The files no exclusion removes, in their original order: what
      FilterFiles returns. */
  function Kept(files: seq<File>, exclusions: seq<string>): seq<File> {
    KeepUnless(files, Excluder(exclusions))
  }

  /** FilterFiles: the input itself when there are no exclusions, otherwise
      a fresh list of the files that survive every exclusion. */
  method FilterFiles(files: seq<File>, exclusions: seq<string>) returns (filtered: seq<File>)
    ensures filtered == Kept(files, exclusions)
  {
    if |exclusions| == 0 {
      NoExclusionsKeepAll(files, exclusions);
      return files;
    }
    filtered := [];
    for i := 0 to |files|
      invariant filtered == Kept(files[..i], exclusions)
    {
      var excluded := IsExcluded(files[i], exclusions);
      if !excluded {
        filtered := filtered + [files[i]];
      }
      assert files[..i + 1][..i] == files[..i];
    }
    assert files[..|files|] == files;
  }

  /** The inner loop of FilterFiles: the exclusions in order, stopping at the
      first that removes the file. */
  method IsExcluded(file: File, exclusions: seq<string>) returns (excluded: bool)
    ensures excluded == Excluded(file, exclusions)
  {
    excluded := false;
    var j := 0;
    while j < |exclusions|
      invariant 0 <= j <= |exclusions|
      invariant forall k | 0 <= k < j :: !ExcludedBy(file, exclusions[k])
    {
      var exclusion := exclusions[j];
      if Contains(ToLower(file.path), ToLower(exclusion)) {
        assert ExcludedBy(file, exclusion) && exclusion in exclusions;
        excluded := true;
        break;
      }
      var matched := GlobMatch(exclusion, Base(file.path));
      if matched {
        assert ExcludedBy(file, exclusion) && exclusion in exclusions;
        excluded := true;
        break;
      }
      j := j + 1;
    }
    if !excluded {
      forall e | e in exclusions ensures !ExcludedBy(file, e) {
        var k :| 0 <= k < |exclusions| && exclusions[k] == e;
      }
    }
  }

  /** Without exclusions every file is kept. */
  lemma NoExclusionsKeepAll(files: seq<File>, exclusions: seq<string>)
    requires exclusions == []
    ensures Kept(files, exclusions) == files
  {
    KeepNothingDropped(files, Excluder(exclusions));
  }

  /** Dropping by a test that holds for no file keeps every file. */
  lemma {:induction false} KeepNothingDropped(files: seq<File>, drop: File -> bool)
    requires forall f | f in files :: !drop(f)
    ensures KeepUnless(files, drop) == files
    decreases |files|
  {
    if files != [] {
      var init := files[..|files| - 1];
      var last := files[|files| - 1];
      assert files == init + [last];
      assert !drop(last);
      KeepNothingDropped(init, drop);
      assert KeepUnless(files, drop) == KeepUnless(init, drop) + [last];
    }
  }

  /** A file is kept exactly when it is in the input and no exclusion removes it. */
  lemma KeptMembers(files: seq<File>, exclusions: seq<string>)
    ensures forall f :: f in Kept(files, exclusions) <==> f in files && !Excluded(f, exclusions)
  {
    KeepUnlessMembers(files, Excluder(exclusions));
  }

  lemma {:induction false} KeepUnlessMembers(files: seq<File>, drop: File -> bool)
    ensures forall f :: f in KeepUnless(files, drop) <==> f in files && !drop(f)
    decreases |files|
  {
    if files != [] {
      var init := files[..|files| - 1];
      KeepUnlessMembers(init, drop);
      assert files == init + [files[|files| - 1]];
    }
  }

  /** `sub` is `s` with some elements left out and the rest in their order. */
  predicate Subsequence(sub: seq<File>, s: seq<File>)
    decreases |s|
  {
    if sub == [] then true
    else if s == [] then false
    else if sub[|sub| - 1] == s[|s| - 1] then Subsequence(sub[..|sub| - 1], s[..|s| - 1])
    else Subsequence(sub, s[..|s| - 1])
  }

  /** The output keeps the input's order and is no longer than it; the kept
      records are the input's own, unchanged. */
  lemma KeptIsSubsequence(files: seq<File>, exclusions: seq<string>)
    ensures Subsequence(Kept(files, exclusions), files)
    ensures |Kept(files, exclusions)| <= |files|
  {
    KeepUnlessSubsequence(files, Excluder(exclusions));
  }

  lemma {:induction false} KeepUnlessSubsequence(files: seq<File>, drop: File -> bool)
    ensures Subsequence(KeepUnless(files, drop), files)
    ensures |KeepUnless(files, drop)| <= |files|
    decreases |files|
  {
    if files != [] {
      var init := files[..|files| - 1];
      var last := files[|files| - 1];
      KeepUnlessSubsequence(init, drop);
      var k := KeepUnless(files, drop);
      if drop(last) {
        assert k == KeepUnless(init, drop);
        SubsequenceOfLonger(k, init, last);
        assert init + [last] == files;
      } else {
        assert k[..|k| - 1] == KeepUnless(init, drop);
      }
    }
  }

  /** A subsequence stays one when the sequence grows at its end. */
  lemma {:induction false} SubsequenceOfLonger(sub: seq<File>, s: seq<File>, x: File)
    requires Subsequence(sub, s)
    ensures Subsequence(sub, s + [x])
    decreases |s|, 1
  {
    var t := s + [x];
    assert t[..|t| - 1] == s;
    if sub != [] && sub[|sub| - 1] == x {
      SubsequenceDropLast(sub, s);
    }
  }

  /** Dropping the last element of a subsequence leaves a subsequence. */
  lemma {:induction false} SubsequenceDropLast(sub: seq<File>, s: seq<File>)
    requires sub != [] && Subsequence(sub, s)
    ensures Subsequence(sub[..|sub| - 1], s)
    decreases |s|, 0
  {
    if s != [] {
      var init := s[..|s| - 1];
      assert init + [s[|s| - 1]] == s;
      if sub[|sub| - 1] == s[|s| - 1] {
        SubsequenceOfLonger(sub[..|sub| - 1], init, s[|s| - 1]);
      } else {
        SubsequenceDropLast(sub, init);
        SubsequenceOfLonger(sub[..|sub| - 1], init, s[|s| - 1]);
      }
    }
  }

  /** Filtering twice with the same exclusions is filtering once. */
  lemma FilterIdempotent(files: seq<File>, exclusions: seq<string>)
    ensures Kept(Kept(files, exclusions), exclusions) == Kept(files, exclusions)
  {
    KeepUnlessIdempotent(files, Excluder(exclusions));
  }

  lemma {:induction false} KeepUnlessIdempotent(files: seq<File>, drop: File -> bool)
    ensures KeepUnless(KeepUnless(files, drop), drop) == KeepUnless(files, drop)
    decreases |files|
  {
    if files != [] {
      var init := files[..|files| - 1];
      var last := files[|files| - 1];
      KeepUnlessIdempotent(init, drop);
      if !drop(last) {
        var k := KeepUnless(files, drop);
        assert k[..|k| - 1] == KeepUnless(init, drop) && k[|k| - 1] == last;
        assert KeepUnless(k, drop) == KeepUnless(KeepUnless(init, drop), drop) + [last];
        assert KeepUnless(k, drop) == k;
      } else {
        assert KeepUnless(files, drop) == KeepUnless(init, drop);
      }
    }
  }

  /** Filtering by two lists of exclusions at once is filtering by the first
      and then by the second. */
  lemma FilterComposes(files: seq<File>, e1: seq<string>, e2: seq<string>)
    ensures Kept(files, e1 + e2) == Kept(Kept(files, e1), e2)
  {
    forall f ensures Excluder(e1 + e2)(f) == (Excluder(e1)(f) || Excluder(e2)(f)) {
      assert forall e :: e in e1 + e2 <==> e in e1 || e in e2;
    }
    KeepUnlessComposes(files, Excluder(e1), Excluder(e2), Excluder(e1 + e2));
  }

  lemma {:induction false} KeepUnlessComposes(files: seq<File>, p: File -> bool, q: File -> bool, either: File -> bool)
    requires forall f :: either(f) == (p(f) || q(f))
    ensures KeepUnless(files, either) == KeepUnless(KeepUnless(files, p), q)
    decreases |files|
  {
    if files != [] {
      var init := files[..|files| - 1];
      var last := files[|files| - 1];
      KeepUnlessComposes(init, p, q, either);
      if !p(last) {
        var k := KeepUnless(files, p);
        assert k[..|k| - 1] == KeepUnless(init, p) && k[|k| - 1] == last;
        assert either(last) == q(last);
        assert KeepUnless(k, q) == KeepUnless(KeepUnless(init, p), q) + (if q(last) then [] else [last]);
      } else {
        assert either(last);
        assert KeepUnless(files, p) == KeepUnless(init, p);
      }
    }
  }

  /** The exclusion "/" removes every file with an absolute path. */
  lemma {:induction false} SlashExcludesAbsolute(files: seq<File>)
    requires forall i | 0 <= i < |files| :: files[i].path != [] && files[i].path[0] == '/'
    ensures Kept(files, ["/"]) == []
    decreases |files|
  {
    if files != [] {
      var last := files[|files| - 1];
      assert ToLower("/") == "/";
      assert OccursAt(ToLower(last.path), "/", 0);
      assert ExcludedBy(last, "/");
      assert Excluder(["/"])(last);
      SlashExcludesAbsolute(files[..|files| - 1]);
    }
  }

  /** The "Case insensitive" test: the exclusion testapp.app removes
      /Applications/TestApp.app. */
  lemma ExclusionIgnoresCase()
    ensures Excluded(File("/Applications/TestApp.app", 1000, "directory"), ["testapp.app"])
  {
    var path := "/Applications/TestApp.app";
    assert ToLower("testapp.app") == "testapp.app";
    assert ToLower(path)[14..] == "testapp.app";
    assert OccursAt(ToLower(path), "testapp.app", 14);
    assert ExcludedBy(File(path, 1000, "directory"), "testapp.app");
  }

  /** The "Pattern matching" test: the exclusion *.txt removes
      /Users/test/Documents/TestApp-backup.txt by its base name. */
  lemma ExclusionByPattern()
    ensures Excluded(File("/Users/test/Documents/TestApp-backup.txt", 5, "file"), ["*.txt"])
  {
    var path := "/Users/test/Documents/TestApp-backup.txt";
    BackupBaseName();
    BackupNameMatchesTxt();
    assert ExcludedBy(File(path, 5, "file"), "*.txt");
  }

  lemma BackupBaseName()
    ensures Base("/Users/test/Documents/TestApp-backup.txt") == "TestApp-backup.txt"
  {
    assert "/Users/test/Documents/TestApp-backup.txt" == "/Users/test/Documents" + "/" + "TestApp-backup.txt";
    BaseOfEntry("/Users/test/Documents", "TestApp-backup.txt");
  }

  lemma BackupNameMatchesTxt()
    ensures GlobMatch("*.txt", "TestApp-backup.txt")
  {
    var stem, ext := "TestApp-backup", ".txt";
    assert forall i | 0 <= i < |stem| :: stem[i] != '/';
    assert forall i | 0 <= i < |ext| :: ext[i] != '*' && ext[i] != '?';
    StarThenLiteral(stem, ext);
    assert "TestApp-backup.txt" == stem + ext;
    TxtPatternIsPlainGlob();
  }

  lemma TxtPatternIsPlainGlob()
    ensures "*.txt" == "*" + ".txt"
    ensures GlobMatch("*.txt", "TestApp-backup.txt") == WildcardMatch("*" + ".txt", "TestApp-backup.txt")
  {
    var p := "*.txt";
    assert forall i | 0 <= i < |p| :: p[i] != '[' && p[i] != '\\';
  }
}
