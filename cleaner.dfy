/** pkg/cleaner: deciding whether a path may be deleted, and deleting a batch
    of paths one at a time with per-path failure isolation. The cleaner object
    of the source holds only a verbosity flag, so its operations are modelled
    as module-level members; HOME is a parameter. */
module Cleaner {
  import opened Wrappers
  import opened GoStrings
  import opened GoPaths
  import opened FileTree

  /** Path prefixes that are never deleted from. */
  const CriticalPaths: seq<string> :=
    ["/System", "/bin", "/sbin", "/usr/bin", "/usr/sbin", "/usr/local/bin", "/usr/local/sbin", "/etc", "/var"]

  /** Directories under HOME that app files may be removed from. */
  const SafeDirs: seq<string> :=
    ["Library/Application Support", "Library/Preferences", "Library/Caches",
     "Library/Logs", "Library/Containers", "Library/Saved Application State"]

  /** Personal-data directories under HOME that are never deleted from. */
  const UnsafeDirs: seq<string> := ["Documents", "Downloads", "Desktop", "Pictures", "Music", "Movies"]

  /** The path starts, character for character, with a critical prefix. */
  predicate UnderCriticalPath(path: string) {
    exists i | 0 <= i < |CriticalPaths| :: HasPrefix(path, CriticalPaths[i])
  }

  /** The path contains, anywhere, one of the three Library directories the
      classifier accepts before looking at HOME at all. */
  predicate HasLibraryMarker(path: string) {
    Contains(path, "Library/Application Support")
    || Contains(path, "Library/Preferences")
    || Contains(path, "Library/Caches")
  }

  /** The path contains HOME joined with a personal-data directory. */
  predicate InUnsafeDir(path: string, home: string) {
    exists i | 0 <= i < |UnsafeDirs| :: Contains(path, Join(home, UnsafeDirs[i]))
  }

  /** The path contains HOME joined with a safe Library directory. */
  predicate InSafeDir(path: string, home: string) {
    exists i | 0 <= i < |SafeDirs| :: Contains(path, Join(home, SafeDirs[i]))
  }

  /** The path contains `/Applications/` or HOME joined with `Applications`. */
  predicate InApplications(path: string, home: string) {
    Contains(path, "/Applications/") || Contains(path, Join(home, "Applications"))
  }

  /** The classifier's verdict, rule by rule in the order the source applies
      them: the first rule that fires decides. */
  predicate Verdict(path: string, home: string) {
    if UnderCriticalPath(path) then false
    else if HasLibraryMarker(path) then true
    else if InUnsafeDir(path, home) then false
    else InSafeDir(path, home) || InApplications(path, home)
  }

  /** The first loop of AppCleaner.IsSafeToDelete: is some critical path a
      raw prefix of `path`? */
  method ScanCriticalPaths(path: string) returns (found: bool)
    ensures found == UnderCriticalPath(path)
  {
    for i := 0 to |CriticalPaths|
      invariant forall j :: 0 <= j < i ==> !HasPrefix(path, CriticalPaths[j])
    {
      if HasPrefix(path, CriticalPaths[i]) {
        return true;
      }
    }
    return false;
  }

  /** The second loop of AppCleaner.IsSafeToDelete: does `path` contain HOME
      joined with some personal-data directory? */
  method ScanUnsafeDirs(path: string, home: string) returns (found: bool)
    ensures found == InUnsafeDir(path, home)
  {
    var i := 0;
    while i < |UnsafeDirs|
      invariant 0 <= i <= |UnsafeDirs|
      invariant forall j :: 0 <= j < i ==> !Contains(path, Join(home, UnsafeDirs[j]))
    {
      var unsafePath := Join(home, UnsafeDirs[i]);
      if Contains(path, unsafePath) {
        return true;
      }
      i := i + 1;
    }
    return false;
  }

  /** The third loop of AppCleaner.IsSafeToDelete: does `path` contain HOME
      joined with some safe Library directory? The source's flag-and-break
      is an early return here. */
  method ScanSafeDirs(path: string, home: string) returns (inSafeDir: bool)
    ensures inSafeDir == InSafeDir(path, home)
  {
    for i := 0 to |SafeDirs|
      invariant forall j :: 0 <= j < i ==> !Contains(path, Join(home, SafeDirs[j]))
    {
      var safePath := Join(home, SafeDirs[i]);
      if Contains(path, safePath) {
        return true;
      }
    }
    return false;
  }

  /** AppCleaner.IsSafeToDelete: a function of the path and HOME alone; the
      filesystem is never consulted. The checks run in the source's order and
      the first one that decides returns. */
  method IsSafeToDelete(path: string, home: string) returns (safe: bool)
    ensures safe == Verdict(path, home)
  {
    var critical := ScanCriticalPaths(path);
    if critical {
      return false;
    }

    if Contains(path, "Library/Application Support")
      || Contains(path, "Library/Preferences")
      || Contains(path, "Library/Caches")
    {
      return true;
    }

    var unsafe := ScanUnsafeDirs(path, home);
    if unsafe {
      return false;
    }

    var inSafeDir := ScanSafeDirs(path, home);
    if Contains(path, "/Applications/") || Contains(path, Join(home, "Applications")) {
      inSafeDir := true;
    }
    return inSafeDir;
  }

  /** The listed paths the classifier accepts, in list order: the paths the
      batch passes to os.RemoveAll. */
  function SafeOnly(files: seq<string>, home: string): (r: seq<string>)
    ensures |r| <= |files|
    ensures forall p :: p in r <==> p in files && Verdict(p, home)
  {
    if files == [] then []
    else SafeOnly(files[..|files| - 1], home)
         + (if Verdict(files[|files| - 1], home) then [files[|files| - 1]] else [])
  }

  /** The count and the filesystem after processing `files` in order: an
      unsafe path is skipped, a safe one is removed, and the count grows by
      one for each removal that reports no error. */
  function DeleteRun(root: Node, locked: set<seq<string>>, home: string, files: seq<string>): (r: (nat, Node))
    ensures r.0 <= |SafeOnly(files, home)| <= |files|
    decreases |files|
  {
    if files == [] then (0, root)
    else
      var before := DeleteRun(root, locked, home, files[..|files| - 1]);
      var file := files[|files| - 1];
      if !Verdict(file, home) then before
      else
        var outcome := RemoveAllOutcome(before.1, locked, file);
        (if outcome.0.None? then before.0 + 1 else before.0, outcome.1)
  }

  /** AppCleaner.DeleteFiles: re-checks every path, removes the safe ones, and
      counts the removals that reported no error; a failed removal does not
      stop the batch, and the error result is always nil. */
  method DeleteFiles(fs: FileSystem, home: string, files: seq<string>)
    returns (deleted: nat, err: Option<string>, ghost attempted: seq<string>)
    modifies fs
    ensures err == None
    ensures (deleted, fs.root) == DeleteRun(old(fs.root), fs.locked, home, files)
    ensures attempted == SafeOnly(files, home)
    ensures forall p :: p in attempted ==> Verdict(p, home)
  {
    deleted := 0;
    attempted := [];
    for i := 0 to |files|
      invariant (deleted, fs.root) == DeleteRun(old(fs.root), fs.locked, home, files[..i])
      invariant attempted == SafeOnly(files[..i], home)
    {
      var file := files[i];
      assert files[..i + 1][..i] == files[..i];
      var safe := IsSafeToDelete(file, home);
      if !safe {
        continue;
      }
      attempted := attempted + [file];
      var removeErr := fs.RemoveAll(file);
      if removeErr.None? {
        deleted := deleted + 1;
      }
    }
    assert files[..|files|] == files;
    err := None;
  }

  /** AppCleaner.DeleteSingleFile: removes whatever it is given, with no
      safety check; callers must classify the path first. */
  method DeleteSingleFile(fs: FileSystem, file: string) returns (err: Option<RemoveError>)
    modifies fs
    ensures (err, fs.root) == RemoveAllOutcome(old(fs.root), fs.locked, file)
  {
    err := fs.RemoveAll(file);
  }

  // ---------------------------------------------------------------------
  // Properties of a batch deletion

  /** os.RemoveAll(path), acting on the tree `root`, would act on the entry
      at `q` or on a directory above it. */
  predicate Reaches(root: Node, path: string, q: seq<string>) {
    Target(root, path).Some? && Target(root, path).value <= q
  }

  /** A batch only ever removes entries, never changing the kind of one it
      keeps, and an entry survives it unless some accepted path, resolved
      against the tree the batch started from, reaches it. */
  lemma {:induction false} DeleteRunOnlyRemoves(root: Node, locked: set<seq<string>>, home: string,
                                                files: seq<string>, q: seq<string>)
    ensures Shrunk(DeleteRun(root, locked, home, files).1, root)
    ensures (forall p | p in SafeOnly(files, home) :: !Reaches(root, p, q))
            ==> Lookup(DeleteRun(root, locked, home, files).1, q).Some? == Lookup(root, q).Some?
    decreases |files|
  {
    if files != [] {
      var init := files[..|files| - 1];
      var file := files[|files| - 1];
      DeleteRunOnlyRemoves(root, locked, home, init, q);
      var before := DeleteRun(root, locked, home, init);
      if Verdict(file, home) {
        RemoveAllSpec(before.1, locked, file);
        ResolveShrunk(before.1, root, file);
        ShrunkTransitive(RemoveAllOutcome(before.1, locked, file).1, before.1, root);
        assert file in SafeOnly(files, home);
      }
    }
  }

  /** os.RemoveAll(path) succeeds and leaves nothing behind when nothing is
      refused: the path does not end in a dot element, resolves without
      meeting a file, and does not resolve to the root. */
  predicate Removable(root: Node, path: string) {
    && !EndsWithDot(path)
    && !DotLast(path)
    && match Resolve(root, path)
       case NoEntry => true
       case NotDirectory => false
       case Resolved(at) => at != []
  }

  /** Removals keep a path removable. */
  lemma RemovableShrunk(after: Node, before: Node, path: string)
    requires Shrunk(after, before) && Removable(before, path)
    ensures Removable(after, path)
  {
    ResolveShrunk(after, before, path);
  }

  /** Removing a removable path with nothing refused reports success and
      leaves the path naming nothing. */
  lemma RemovableIsRemoved(root: Node, path: string)
    requires Removable(root, path)
    ensures RemoveAllOutcome(root, {}, path).0.None?
    ensures Stat(RemoveAllOutcome(root, {}, path).1, path).None?
  {
    var after := RemoveAllOutcome(root, {}, path).1;
    RemoveAllSpec(root, {}, path);
    ResolveShrunk(after, root, path);
  }

  /** When the operating system refuses nothing and every accepted path is
      removable, every accepted path is gone afterwards and is counted as
      deleted, including paths that did not exist and paths listed twice. */
  lemma {:induction false} UnlockedRunDeletesEverySafePath(root: Node, home: string, files: seq<string>)
    requires forall p | p in SafeOnly(files, home) :: Removable(root, p)
    ensures DeleteRun(root, {}, home, files).0 == |SafeOnly(files, home)|
    ensures forall p :: p in SafeOnly(files, home) ==> Stat(DeleteRun(root, {}, home, files).1, p).None?
    decreases |files|
  {
    if files != [] {
      var init := files[..|files| - 1];
      var file := files[|files| - 1];
      UnlockedRunDeletesEverySafePath(root, home, init);
      if Verdict(file, home) {
        var before := DeleteRun(root, {}, home, init);
        var after := RemoveAllOutcome(before.1, {}, file).1;
        DeleteRunOnlyRemoves(root, {}, home, init, []);
        assert file in SafeOnly(files, home);
        RemovableShrunk(before.1, root, file);
        RemovableIsRemoved(before.1, file);
        RemoveAllSpec(before.1, {}, file);
        forall p | p in SafeOnly(init, home) ensures Stat(after, p).None? {
          ResolveShrunk(after, before.1, p);
        }
      }
    }
  }

  /** os.RemoveAll(path) has nothing to do: the path does not end in "/.",
      meets no file on the way, and names no entry. */
  predicate AlreadyGone(root: Node, path: string) {
    !EndsWithDot(path) && Resolve(root, path) != NotDirectory && Stat(root, path).None?
  }

  /** A batch over accepted paths that are all already gone changes nothing,
      yet counts every one of them as deleted. */
  lemma {:induction false} RunOverMissingPaths(root: Node, locked: set<seq<string>>, home: string, files: seq<string>)
    requires forall p | p in SafeOnly(files, home) :: AlreadyGone(root, p)
    ensures DeleteRun(root, locked, home, files) == (|SafeOnly(files, home)|, root)
    decreases |files|
  {
    if files != [] {
      var init := files[..|files| - 1];
      var file := files[|files| - 1];
      RunOverMissingPaths(root, locked, home, init);
      assert DeleteRun(root, locked, home, init) == (|SafeOnly(init, home)|, root);
      if Verdict(file, home) {
        assert SafeOnly(files, home) == SafeOnly(init, home) + [file];
        GoneIsUnchanged(root, locked, file);
      } else {
        assert SafeOnly(files, home) == SafeOnly(init, home);
      }
    }
  }

  /** Removing a path that is already gone reports success and changes nothing. */
  lemma GoneIsUnchanged(root: Node, locked: set<seq<string>>, path: string)
    requires AlreadyGone(root, path)
    ensures RemoveAllOutcome(root, locked, path) == (None, root)
  {
    RemoveAllUnchanged(root, locked, path);
  }

  /** Running the same batch twice, with nothing refused and every accepted
      path removable: the second run removes nothing but reports the same
      number of deletions as the first. */
  lemma RerunReportsSameCount(root: Node, home: string, files: seq<string>)
    requires forall p | p in SafeOnly(files, home) :: Removable(root, p)
    ensures DeleteRun(DeleteRun(root, {}, home, files).1, {}, home, files) == DeleteRun(root, {}, home, files)
  {
    var first := DeleteRun(root, {}, home, files);
    UnlockedRunDeletesEverySafePath(root, home, files);
    DeleteRunOnlyRemoves(root, {}, home, files, []);
    forall p | p in SafeOnly(files, home) ensures AlreadyGone(first.1, p) {
      ResolveShrunk(first.1, root, p);
    }
    RunOverMissingPaths(first.1, {}, home, files);
  }

  // ---------------------------------------------------------------------
  // Parent elements in accepted paths

  /** The HOME of the examples below, and two accepted paths that climb
      out of `/Applications`. */
  const TestHome: string := "/Users" + "/test"
  const HomeViaApplications: string := "/Applications" + ("/.." + TestHome)  // "/Applications/../Users/test"
  const ApplicationsParent: string := "/Applications" + "/.."               // "/Applications/.."

  /** The classifier matches text and never resolves "..", so a path that
      climbs out of `/Applications` into HOME is accepted, and the batch
      removes HOME with everything in it and counts it as one deletion. */
  lemma ParentStepRemovesHome(disk: Node)
    requires Lookup(disk, ["Applications"]).Some? && Lookup(disk, ["Applications"]).value.Dir?
    requires Lookup(disk, ["Users", "test"]).Some?
    ensures Verdict(HomeViaApplications, TestHome)
    ensures Stat(disk, TestHome).Some?
    ensures DeleteRun(disk, {}, TestHome, [HomeViaApplications]).0 == 1
    ensures Stat(DeleteRun(disk, {}, TestHome, [HomeViaApplications]).1, TestHome).None?
  {
    ParentStepVerdict();
    HomeComponents();
    assert [] + ["Users", "test"] == ["Users", "test"];
    ResolveLiteral(disk, [], ["Users", "test"]);
    SingleRun(disk, {}, TestHome, HomeViaApplications);
    ParentStepOutcome(disk);
    ResolveShrunk(RemoveAllOutcome(disk, {}, HomeViaApplications).1, disk, TestHome);
  }

  /** A batch of one accepted path is one call of os.RemoveAll. */
  lemma SingleRun(root: Node, locked: set<seq<string>>, home: string, path: string)
    requires Verdict(path, home)
    ensures DeleteRun(root, locked, home, [path]) ==
      (if RemoveAllOutcome(root, locked, path).0.None? then 1 else 0, RemoveAllOutcome(root, locked, path).1)
  {
    assert [path][..0] == [];
  }

  /** os.RemoveAll(`/Applications/../Users/test`) removes HOME and reports success. */
  lemma ParentStepOutcome(disk: Node)
    requires Lookup(disk, ["Applications"]).Some? && Lookup(disk, ["Applications"]).value.Dir?
    requires Lookup(disk, ["Users", "test"]).Some?
    ensures RemoveAllOutcome(disk, {}, HomeViaApplications).0.None?
    ensures Shrunk(RemoveAllOutcome(disk, {}, HomeViaApplications).1, disk)
    ensures Lookup(RemoveAllOutcome(disk, {}, HomeViaApplications).1, ["Users", "test"]).None?
  {
    ParentStepComponents();
    ParentStepResolves(disk);
    var c := ["Applications", "..", "Users", "test"];
    assert c[|c| - 1] == "test";
    assert HomeViaApplications[|HomeViaApplications| - 1] == 't';
    RemoveAllSpec(disk, {}, HomeViaApplications);
  }

  lemma ParentStepVerdict()
    ensures Verdict(HomeViaApplications, TestHome)
  {
    var path := HomeViaApplications;
    assert !UnderCriticalPath(path) by { NoCriticalPrefix(path); }
    assert !HasLibraryMarker(path) by { NoMarkerWithoutL(path); }
    assert !InUnsafeDir(path, TestHome) by { NoUnsafeDirByLetter(path, TestHome); }
    assert Contains(path, "/Applications/") by {
      ContainsInfix("", "/Applications/", "../Users/test");
      assert path == "" + "/Applications/" + "../Users/test";
    }
  }

  lemma HomeComponents()
    ensures Components(TestHome) == ["Users", "test"]
  {
    ComponentsOfAbsolute("/test", "");
    assert "/test" + "" == "/test";
    ComponentsOfAbsolute("/Users", "/test");
  }

  lemma ParentStepComponents()
    ensures Components(HomeViaApplications) == ["Applications", "..", "Users", "test"]
  {
    HomeComponents();
    ComponentsOfAbsolute("/..", TestHome);
    ComponentsOfAbsolute("/Applications", "/.." + TestHome);
  }

  lemma ApplicationsParentComponents()
    ensures Components(ApplicationsParent) == ["Applications", ".."]
  {
    ComponentsOfAbsolute("/..", "");
    assert "/.." + "" == "/..";
    ComponentsOfAbsolute("/Applications", "/..");
  }

  /** `/Applications/../Users/test` resolves to HOME when `/Applications`
      is a directory and HOME exists. */
  lemma ParentStepResolves(disk: Node)
    requires Lookup(disk, ["Applications"]).Some? && Lookup(disk, ["Applications"]).value.Dir?
    requires Lookup(disk, ["Users", "test"]).Some?
    ensures Resolve(disk, HomeViaApplications) == Resolved(["Users", "test"])
  {
    ParentStepComponents();
    var c := ["Applications", "..", "Users", "test"];
    assert c[1..] == ["..", "Users", "test"] && c[1..][1..] == ["Users", "test"];
    assert [] + ["Applications"] == ["Applications"] && [] + ["Users"] == ["Users"];
    assert ResolveFrom(disk, [], c) == ResolveFrom(disk, ["Applications"], c[1..]);
    assert ResolveFrom(disk, ["Applications"], c[1..]) == ResolveFrom(disk, [], ["Users", "test"]);
    LookupThrough(disk, ["Users"], ["test"]);
    assert ResolveFrom(disk, [], ["Users", "test"]) == ResolveFrom(disk, ["Users"], ["test"]);
  }

  /** `/Applications/..` resolves to the root when `/Applications` is a directory. */
  lemma ApplicationsParentResolves(disk: Node)
    requires Lookup(disk, ["Applications"]).Some? && Lookup(disk, ["Applications"]).value.Dir?
    ensures Resolve(disk, ApplicationsParent) == Resolved([])
  {
    ApplicationsParentComponents();
    var c := ["Applications", ".."];
    assert c[1..] == [".."];
    assert [] + ["Applications"] == ["Applications"];
    assert ResolveFrom(disk, [], c) == ResolveFrom(disk, ["Applications"], c[1..]);
  }

  /** `/Applications/..` is accepted whatever HOME is, and resolves to the
      root: with nothing refused, the batch empties the whole disk and, as
      the root itself cannot be removed, counts nothing. */
  lemma ApplicationsParentEmptiesDisk(disk: Node, home: string)
    requires Lookup(disk, ["Applications"]).Some? && Lookup(disk, ["Applications"]).value.Dir?
    ensures Verdict(ApplicationsParent, home)
    ensures DeleteRun(disk, {}, home, [ApplicationsParent]).0 == 0
    ensures forall q :: q != [] ==> Lookup(DeleteRun(disk, {}, home, [ApplicationsParent]).1, q).None?
  {
    ApplicationsParentVerdict(home);
    ApplicationsParentResolves(disk);
    SingleRun(disk, {}, home, ApplicationsParent);
    assert ApplicationsParent[|ApplicationsParent| - 2] == '.';
    RemoveAllSpec(disk, {}, ApplicationsParent);
  }

  lemma ApplicationsParentVerdict(home: string)
    ensures Verdict(ApplicationsParent, home)
  {
    var path := ApplicationsParent;
    assert !UnderCriticalPath(path) by { NoCriticalPrefix(path); }
    assert !HasLibraryMarker(path) by { NoMarkerWithoutL(path); }
    assert !InUnsafeDir(path, home) by { NoUnsafeDirByLetter(path, home); }
    assert Contains(path, "/Applications/") by {
      ContainsInfix("", "/Applications/", "..");
      assert path == "" + "/Applications/" + "..";
    }
  }

  // ---------------------------------------------------------------------
  // Doubled separators in accepted paths

  /** An accepted path in which a doubled separator splits HOME's text:
      `/Users//test/Documents/Applications/x`. */
  const DocumentsTail: string := "/Documents" + ("/Applications" + "/x")
  const DoubleSlashPath: string := "/Users" + ("/" + ("/test" + DocumentsTail))

  /** The entry that path names: an item of `~/Documents`. */
  const DocumentsItem: seq<string> := ["Users", "test", "Documents", "Applications", "x"]

  /** The personal-data rule looks for HOME's text, which the doubled
      separator breaks, while the elements still walk through
      `~/Documents`: the path is accepted, and the batch removes the item
      from the personal-data directory and counts it. */
  lemma DoubleSlashRemovesPersonalData(disk: Node)
    requires Lookup(disk, DocumentsItem).Some?
    ensures Verdict(DoubleSlashPath, TestHome)
    ensures Components(Join(TestHome, "Documents")) <= Components(DoubleSlashPath)
    ensures DeleteRun(disk, {}, TestHome, [DoubleSlashPath]).0 == 1
    ensures Lookup(DeleteRun(disk, {}, TestHome, [DoubleSlashPath]).1, DocumentsItem).None?
  {
    DoubleSlashVerdict();
    assert Components(Join(TestHome, "Documents")) <= Components(DoubleSlashPath) by {
      DoubleSlashComponents();
      HomeDocumentsJoin();
      HomeDocumentsComponents();
      assert DocumentsItem[..3] == ["Users", "test", "Documents"];
    }
    SingleRun(disk, {}, TestHome, DoubleSlashPath);
    DoubleSlashOutcome(disk);
  }

  /** os.RemoveAll(`/Users//test/Documents/Applications/x`) removes the item
      and reports success. */
  lemma DoubleSlashOutcome(disk: Node)
    requires Lookup(disk, DocumentsItem).Some?
    ensures RemoveAllOutcome(disk, {}, DoubleSlashPath).0.None?
    ensures Lookup(RemoveAllOutcome(disk, {}, DoubleSlashPath).1, DocumentsItem).None?
  {
    DoubleSlashTarget(disk);
    assert !Blocked(disk, {}, DocumentsItem);
    RemoveAllSpec(disk, {}, DoubleSlashPath);
  }

  /** The path resolves literally to the item, which exists. */
  lemma DoubleSlashTarget(disk: Node)
    requires Lookup(disk, DocumentsItem).Some?
    ensures Target(disk, DoubleSlashPath) == Some(DocumentsItem) && Stat(disk, DoubleSlashPath).Some?
    ensures !DotLast(DoubleSlashPath)
  {
    assert Resolve(disk, DoubleSlashPath) == Resolved(DocumentsItem) by {
      DoubleSlashComponents();
      ResolveLiteral(disk, [], DocumentsItem);
      assert [] + DocumentsItem == DocumentsItem;
    }
    assert !EndsWithDot(DoubleSlashPath) by {
      assert DoubleSlashPath[|DoubleSlashPath| - 1] == 'x';
    }
    assert !DotLast(DoubleSlashPath) by {
      DoubleSlashComponents();
      assert DocumentsItem[|DocumentsItem| - 1] == "x";
    }
  }

  lemma DoubleSlashVerdict()
    ensures Verdict(DoubleSlashPath, TestHome)
  {
    var path := DoubleSlashPath;
    assert !UnderCriticalPath(path) by { NoCriticalPrefix(path); }
    assert !HasLibraryMarker(path) by { NoMarkerWithoutL(path); }
    assert !InUnsafeDir(path, TestHome) by {
      UnsafeDirsAreNames();
      forall j | 0 <= j < |UnsafeDirs| ensures !Contains(path, Join(TestHome, UnsafeDirs[j])) {
        var d := Join(TestHome, UnsafeDirs[j]);
        JoinEntry(TestHome, UnsafeDirs[j]);
        assert d[1] == 'U' && d[7] == 't';
        forall i ensures !OccursAt(path, d, i) {
          DoubleSlashSplitsHome(d, i);
        }
      }
    }
    assert Contains(path, "/Applications/") by {
      var before := "/Users" + ("/" + ("/test" + "/Documents"));
      ContainsInfix(before, "/Applications/", "x");
      assert path == before + "/Applications/" + "x";
    }
  }

  /** Text beginning `/U`, with `t` as its eighth character, occurs nowhere in
      the path: its one `U` is followed by the doubled separator. */
  lemma DoubleSlashSplitsHome(d: string, i: int)
    requires |d| >= 8 && d[1] == 'U' && d[7] == 't'
    ensures !OccursAt(DoubleSlashPath, d, i)
  {
    var path := DoubleSlashPath;
    if 0 <= i && i + |d| <= |path| {
      assert path[i..i + |d|][1] == path[i + 1] && path[i..i + |d|][7] == path[i + 7];
      if i == 0 {
        assert path[7] == '/';
      } else {
        var tail := "/" + ("/test" + DocumentsTail);
        assert path == "/Users" + tail;
        if i + 1 >= 6 {
          assert path[i + 1] == tail[i + 1 - 6] && tail[i + 1 - 6] in tail;
          assert 'U' !in tail;
        }
      }
    }
  }

  lemma DoubleSlashComponents()
    ensures Components(DoubleSlashPath) == DocumentsItem
  {
    var inner := "/test" + DocumentsTail;
    assert Components(inner) == ["test", "Documents", "Applications", "x"] by {
      DocumentsTailComponents();
      ComponentsOfAbsolute("/test", DocumentsTail);
    }
    var slashed := "/" + inner;
    assert Components(slashed) == Components(inner) by {
      assert slashed[1..] == inner;
    }
    ComponentsOfAbsolute("/Users", slashed);
  }

  lemma DocumentsTailComponents()
    ensures Components(DocumentsTail) == ["Documents", "Applications", "x"]
  {
    assert Components("/Applications" + "/x") == ["Applications", "x"] by {
      ComponentsOfAbsolute("/x", "");
      assert "/x" + "" == "/x";
      ComponentsOfAbsolute("/Applications", "/x");
    }
    ComponentsOfAbsolute("/Documents", "/Applications" + "/x");
  }

  /** `~/Documents`, for the HOME of the examples. */
  const HomeDocuments: string := "/Users" + ("/test" + "/Documents")

  lemma HomeDocumentsJoin()
    ensures Join(TestHome, "Documents") == HomeDocuments
  {
    JoinEntry(TestHome, "Documents");
  }

  lemma HomeDocumentsComponents()
    ensures Components(HomeDocuments) == ["Users", "test", "Documents"]
  {
    assert Components("/test" + "/Documents") == ["test", "Documents"] by {
      ComponentsOfAbsolute("/Documents", "");
      assert "/Documents" + "" == "/Documents";
      ComponentsOfAbsolute("/test", "/Documents");
    }
    ComponentsOfAbsolute("/Users", "/test" + "/Documents");
  }

  /** No element of the path is "." or "..". */
  predicate NoDotElements(path: string) {
    "." !in Components(path) && ".." !in Components(path)
  }

  /** The classifier as evidently intended: the source's rules, on a path
      written in canonical absolute form (no doubled or trailing separator)
      with no element that could lead the removal somewhere the text does
      not name. */
  predicate CorrectedVerdict(path: string, home: string) {
    Verdict(path, home) && CleanAbsolute(path) && NoDotElements(path)
  }

  /** The paths of a batch the corrected classifier accepts, in order. */
  function Accepted(files: seq<string>, home: string): (r: seq<string>)
    ensures forall p :: p in r <==> p in files && CorrectedVerdict(p, home)
  {
    if files == [] then []
    else (if CorrectedVerdict(files[0], home) then [files[0]] else []) + Accepted(files[1..], home)
  }

  /** The corrected classifier refuses both paths above. */
  lemma CorrectedRefusesParentSteps(home: string)
    ensures !CorrectedVerdict(HomeViaApplications, home)
    ensures !CorrectedVerdict(ApplicationsParent, home)
  {
    ParentStepComponents();
    ApplicationsParentComponents();
    assert ["Applications", "..", "Users", "test"][1] == "..";
    assert ["Applications", ".."][1] == "..";
  }

  /** Under the corrected classifier, os.RemoveAll acts on exactly the
      entry the path's text names, never the root and never through a last
      dot element. */
  lemma CorrectedTargetIsLiteral(root: Node, path: string, home: string)
    requires CorrectedVerdict(path, home)
    ensures Target(root, path).Some? ==> Target(root, path).value == Components(path)
    ensures Components(path) != [] && !DotLast(path)
  {
    SafePathNamesAnEntry(path, home);
    ResolveLiteral(root, [], Components(path));
    var c := Components(path);
    assert c[|c| - 1] in c;
  }

  /** A batch over the paths the corrected classifier accepts removes
      nothing outside the entries those paths literally name: an entry that
      no accepted path's elements lead to, or lie above, survives. */
  lemma CorrectedRunStaysInside(root: Node, locked: set<seq<string>>, home: string, files: seq<string>, q: seq<string>)
    requires forall p | p in files && CorrectedVerdict(p, home) :: !(Components(p) <= q)
    ensures Lookup(DeleteRun(root, locked, home, Accepted(files, home)).1, q).Some? == Lookup(root, q).Some?
  {
    var batch := Accepted(files, home);
    forall p | p in SafeOnly(batch, home) ensures !Reaches(root, p, q) {
      CorrectedTargetIsLiteral(root, p, home);
    }
    DeleteRunOnlyRemoves(root, locked, home, batch, q);
  }

  /** The corrected classifier refuses the doubled-separator path. */
  lemma CorrectedRefusesDoubleSlash(home: string)
    ensures !CorrectedVerdict(DoubleSlashPath, home)
  {
    assert DoubleSlashPath[6] == '/' && DoubleSlashPath[7] == '/';
    assert DoubleSlashAt(DoubleSlashPath, 6);
  }

  /** With a canonical HOME, a canonical path whose elements walk through a
      personal-data directory of HOME contains that directory's text, so
      the personal-data rule refuses it unless a Library marker came first;
      the corrected classifier therefore never accepts such a path. */
  lemma CorrectedKeepsPersonalData(path: string, home: string, i: int)
    requires CleanAbsolute(home) && 0 <= i < |UnsafeDirs|
    ensures CleanAbsolute(path) && !HasLibraryMarker(path) && Components(Join(home, UnsafeDirs[i])) <= Components(path) ==>
      !Verdict(path, home)
    ensures !HasLibraryMarker(path) && Components(Join(home, UnsafeDirs[i])) <= Components(path) ==>
      !CorrectedVerdict(path, home)
  {
    if CleanAbsolute(path) && Components(Join(home, UnsafeDirs[i])) <= Components(path) {
      assert Contains(path, Join(home, UnsafeDirs[i])) by {
        UnsafeDirsAreNames();
        CanonicalPrefixContains(path, home, UnsafeDirs[i]);
      }
      assert InUnsafeDir(path, home);
    }
  }

  /** A canonical path whose elements begin with those of a canonical
      directory joined with an entry name contains the joined text. */
  lemma CanonicalPrefixContains(path: string, home: string, dir: string)
    requires CleanAbsolute(home) && EntryName(dir) && CleanAbsolute(path)
    requires Components(Join(home, dir)) <= Components(path)
    ensures Contains(path, Join(home, dir))
  {
    var d := Join(home, dir);
    JoinEntry(home, dir);
    CleanJoin(home, dir);
    CleanPrefixIsTextPrefix(d, path);
    PrefixContained(path, d);
  }

  // ---------------------------------------------------------------------
  // Properties of the classifier

  /** A home directory of the usual macOS shape, `/Users/<name>`. */
  predicate UserHome(home: string) {
    PlainPath(home) && HasPrefix(home, "/Users/")
  }

  /** No critical prefix matches a path that starts `/U` or `/A`. */
  lemma NoCriticalPrefix(path: string)
    requires |path| >= 2 && path[0] == '/' && (path[1] == 'U' || path[1] == 'A')
    ensures !UnderCriticalPath(path)
  {
    forall i | 0 <= i < |CriticalPaths| ensures !HasPrefix(path, CriticalPaths[i]) {
      assert |CriticalPaths[i]| >= 2 && CriticalPaths[i][1] != path[1];
    }
  }

  /** Files under the six Library directories of a user's home are deleted:
      under the three marker directories unconditionally, under the other
      three unless the path also names a personal-data directory. */
  lemma {:induction false} HomeLibraryIsSafe(home: string, k: int, rest: string)
    requires UserHome(home) && 0 <= k < |SafeDirs|
    requires k < 3 || !InUnsafeDir(home + "/" + SafeDirs[k] + rest, home)
    ensures Verdict(home + "/" + SafeDirs[k] + rest, home)
  {
    var path := home + "/" + SafeDirs[k] + rest;
    assert path[..7] == home[..7];
    NoCriticalPrefix(path);
    JoinPlain(home, SafeDirs[k]);
    assert path == "" + Join(home, SafeDirs[k]) + rest;
    ContainsInfix("", Join(home, SafeDirs[k]), rest);
    ContainsInfix(home + "/", SafeDirs[k], rest);
    assert InSafeDir(path, home);
  }

  /** Files under the personal-data directories of HOME are refused, unless
      the path also contains a Library marker. */
  lemma {:induction false} PersonalDataIsRefused(home: string, k: int, rest: string)
    requires PlainPath(home) && 0 <= k < |UnsafeDirs|
    requires !HasLibraryMarker(home + "/" + UnsafeDirs[k] + rest)
    ensures !Verdict(home + "/" + UnsafeDirs[k] + rest, home)
  {
    var path := home + "/" + UnsafeDirs[k] + rest;
    JoinPlain(home, UnsafeDirs[k]);
    assert path == "" + Join(home, UnsafeDirs[k]) + rest;
    ContainsInfix("", Join(home, UnsafeDirs[k]), rest);
    assert InUnsafeDir(path, home);
  }

  /** The Library marker check runs before the personal-data check, so a
      Library marker anywhere below `~/Documents` (or any other personal-data
      directory) makes the path deletable. */
  lemma {:induction false} MarkerOverridesPersonalData(home: string, k: int, m: int, rest: string)
    requires UserHome(home) && 0 <= k < |UnsafeDirs| && 0 <= m < 3
    ensures InUnsafeDir(home + "/" + UnsafeDirs[k] + "/" + SafeDirs[m] + rest, home)
    ensures Verdict(home + "/" + UnsafeDirs[k] + "/" + SafeDirs[m] + rest, home)
  {
    var path := home + "/" + UnsafeDirs[k] + "/" + SafeDirs[m] + rest;
    assert path[..7] == home[..7];
    NoCriticalPrefix(path);
    JoinPlain(home, UnsafeDirs[k]);
    assert path == "" + Join(home, UnsafeDirs[k]) + ("/" + SafeDirs[m] + rest);
    ContainsInfix("", Join(home, UnsafeDirs[k]), "/" + SafeDirs[m] + rest);
    assert path == (home + "/" + UnsafeDirs[k] + "/") + SafeDirs[m] + rest;
    MarkerInside(home + "/" + UnsafeDirs[k] + "/", m, rest);
  }

  /** A safe Library directory anywhere in a path is a Library marker. */
  lemma MarkerInside(before: string, m: int, rest: string)
    requires 0 <= m < 3
    ensures HasLibraryMarker(before + SafeDirs[m] + rest)
  {
    ContainsInfix(before, SafeDirs[m], rest);
  }

  /** A path inside `/Applications` is deleted unless it names a
      personal-data directory of HOME, whatever HOME is. */
  lemma {:induction false} SystemApplicationsAreSafe(name: string, home: string)
    requires !InUnsafeDir("/Applications/" + name, home)
    ensures Verdict("/Applications/" + name, home)
  {
    var path := "/Applications/" + name;
    NoCriticalPrefix(path);
    ContainsInfix("", "/Applications/", name);
    assert path == "" + "/Applications/" + name;
  }

  /** A path inside `~/Applications` is deleted unless it holds a Library
      marker (then it is deleted anyway) or names a personal-data directory. */
  lemma {:induction false} UserApplicationsAreSafe(home: string, rest: string)
    requires UserHome(home)
    requires !InUnsafeDir(home + "/Applications" + rest, home)
    ensures Verdict(home + "/Applications" + rest, home)
  {
    var path := home + "/Applications" + rest;
    assert path[..7] == home[..7];
    NoCriticalPrefix(path);
    JoinPlain(home, "Applications");
    assert path == "" + Join(home, "Applications") + rest;
    ContainsInfix("", Join(home, "Applications"), rest);
    assert InApplications(path, home);
  }

  /** The critical-path test compares raw characters, so it also refuses
      paths that merely begin with the same letters, such as `/variable` or
      `/binaries`, Library marker or not. */
  lemma RawPrefixRefusesLookalikes(home: string)
    ensures !Verdict("/variable/Applications/Tool.app", home)
    ensures !Verdict("/binaries/Library/Caches/tool", home)
  {
    assert HasPrefix("/variable/Applications/Tool.app", CriticalPaths[8]);
    assert HasPrefix("/binaries/Library/Caches/tool", CriticalPaths[1]);
  }

  /** A path containing a non-separator character names at least one
      directory entry. */
  lemma ContainsNameChar(path: string, sub: string, k: int)
    requires Contains(path, sub) && 0 <= k < |sub| && sub[k] != '/'
    ensures Components(path) != []
  {
    ContainedCharsOccur(path, sub);
    assert sub[k] in sub;
    var j :| 0 <= j < |path| && path[j] == sub[k];
    ComponentsOfNonSlash(path, j);
  }

  /** The safe Library directories are plain relative paths. */
  lemma SafeDirsArePlain()
    ensures forall j :: 0 <= j < |SafeDirs| ==> PlainPath(SafeDirs[j])
  {
  }

  /** Every path the classifier accepts has at least one element, so its
      text never names the root (only a ".." element can lead there). */
  lemma {:induction false} SafePathNamesAnEntry(path: string, home: string)
    requires Verdict(path, home)
    ensures Components(path) != []
  {
    if HasLibraryMarker(path) {
      MarkedPathNamesAnEntry(path);
    } else if InSafeDir(path, home) {
      SafeDirPathNamesAnEntry(path, home);
    } else {
      ApplicationsPathNamesAnEntry(path, home);
    }
  }

  lemma MarkedPathNamesAnEntry(path: string)
    requires HasLibraryMarker(path)
    ensures Components(path) != []
  {
    if Contains(path, "Library/Application Support") {
      ContainsNameChar(path, "Library/Application Support", 0);
    } else if Contains(path, "Library/Preferences") {
      ContainsNameChar(path, "Library/Preferences", 0);
    } else {
      ContainsNameChar(path, "Library/Caches", 0);
    }
  }

  lemma SafeDirPathNamesAnEntry(path: string, home: string)
    requires InSafeDir(path, home)
    ensures Components(path) != []
  {
    var i :| 0 <= i < |SafeDirs| && Contains(path, Join(home, SafeDirs[i]));
    SafeDirsArePlain();
    JoinedDirNamesAnEntry(path, home, SafeDirs[i]);
  }

  lemma ApplicationsPathNamesAnEntry(path: string, home: string)
    requires InApplications(path, home)
    ensures Components(path) != []
  {
    if Contains(path, "/Applications/") {
      ContainsNameChar(path, "/Applications/", 1);
    } else {
      JoinedDirNamesAnEntry(path, home, "Applications");
    }
  }

  /** A path containing HOME joined with a plain directory has a character
      other than '/'. */
  lemma JoinedDirNamesAnEntry(path: string, home: string, dir: string)
    requires PlainPath(dir) && Contains(path, Join(home, dir))
    ensures Components(path) != []
  {
    JoinKeepsPlain(home, dir);
    var sub := Join(home, dir);
    ContainsNameChar(path, sub, |sub| - 1);
  }

  /** The personal-data directories are single entry names. */
  lemma UnsafeDirsAreNames()
    ensures forall j :: 0 <= j < |UnsafeDirs| ==> EntryName(UnsafeDirs[j])
  {
  }

  /** The personal-data directories are plain relative paths. */
  lemma UnsafeDirsArePlain()
    ensures forall j :: 0 <= j < |UnsafeDirs| ==> PlainPath(UnsafeDirs[j])
  {
  }

  /** A path none of whose characters is D, P or M (the initials of the
      personal-data directories) names none of them, whatever HOME is. */
  lemma NoUnsafeDirByLetter(path: string, home: string)
    requires forall i | 0 <= i < |path| :: path[i] !in "DPM"
    ensures !InUnsafeDir(path, home)
  {
    assert forall c | c in path :: c !in "DPM";
    UnsafeDirsArePlain();
    assert forall j :: 0 <= j < |UnsafeDirs| ==> UnsafeDirs[j][0] in "DPM";
    forall j | 0 <= j < |UnsafeDirs| ensures !Contains(path, Join(home, UnsafeDirs[j])) {
      var u := UnsafeDirs[j];
      var d := Join(home, u);
      JoinEndsWith(home, u);
      assert d[|d| - |u|..][0] == d[|d| - |u|];
      MissingCharNotContained(path, d, u[0]);
    }
  }

  /** A path lacking the letter L contains none of the Library markers. */
  lemma NoMarkerWithoutL(path: string)
    requires forall i | 0 <= i < |path| :: path[i] != 'L'
    ensures !HasLibraryMarker(path)
  {
    assert 'L' !in path;
    MissingCharNotContained(path, "Library/Application Support", 'L');
    MissingCharNotContained(path, "Library/Preferences", 'L');
    MissingCharNotContained(path, "Library/Caches", 'L');
  }

  /** The verdicts the core implementation's own table expects, for HOME
      `/Users/test`. */
  lemma CoreImplementationCases()
    ensures Verdict(Join("/Users/test", "Library/Application Support/test"), "/Users/test")
    ensures Verdict(Join("/Users/test", "Library/Preferences/test.plist"), "/Users/test")
    ensures Verdict(Join("/Users/test", "Library/Caches/test"), "/Users/test")
    ensures !Verdict(Join("/Users/test", "Documents/test.txt"), "/Users/test")
    ensures !Verdict("/System/Library/CoreServices", "/Users/test")
    ensures Verdict("/Applications/" + "TestApp.app", "/Users/test")
    ensures Verdict(Join("/Users/test", "Applications/TestApp.app"), "/Users/test")
  {
    LibraryCases();
    DocumentsCase();
    CriticalCase();
    SystemApplicationsCase();
    UserApplicationsCase();
  }

  lemma LibraryCases()
    ensures Verdict(Join("/Users/test", "Library/Application Support/test"), "/Users/test")
    ensures Verdict(Join("/Users/test", "Library/Preferences/test.plist"), "/Users/test")
    ensures Verdict(Join("/Users/test", "Library/Caches/test"), "/Users/test")
  {
    var home := "/Users/test";
    JoinPlain(home, "Library/Application Support/test");
    assert home + "/" + "Library/Application Support/test" == home + "/" + SafeDirs[0] + "/test";
    HomeLibraryIsSafe(home, 0, "/test");
    JoinPlain(home, "Library/Preferences/test.plist");
    assert home + "/" + "Library/Preferences/test.plist" == home + "/" + SafeDirs[1] + "/test.plist";
    HomeLibraryIsSafe(home, 1, "/test.plist");
    JoinPlain(home, "Library/Caches/test");
    assert home + "/" + "Library/Caches/test" == home + "/" + SafeDirs[2] + "/test";
    HomeLibraryIsSafe(home, 2, "/test");
  }

  lemma DocumentsCase()
    ensures !Verdict(Join("/Users/test", "Documents/test.txt"), "/Users/test")
  {
    var home := "/Users/test";
    JoinPlain(home, "Documents/test.txt");
    var documents := home + "/" + UnsafeDirs[0] + "/test.txt";
    assert home + "/" + "Documents/test.txt" == documents;
    NoMarkerWithoutL(documents);
    PersonalDataIsRefused(home, 0, "/test.txt");
  }

  lemma CriticalCase()
    ensures !Verdict("/System/Library/CoreServices", "/Users/test")
  {
    assert HasPrefix("/System/Library/CoreServices", CriticalPaths[0]);
  }

  lemma SystemApplicationsCase()
    ensures Verdict("/Applications/" + "TestApp.app", "/Users/test")
  {
    NoUnsafeDirByLetter("/Applications/" + "TestApp.app", "/Users/test");
    SystemApplicationsAreSafe("TestApp.app", "/Users/test");
  }

  lemma UserApplicationsCase()
    ensures Verdict(Join("/Users/test", "Applications/TestApp.app"), "/Users/test")
  {
    UserApplicationsJoin();
    UserApplicationsVerdict();
  }

  lemma UserApplicationsJoin()
    ensures Join("/Users/test", "Applications/TestApp.app") == "/Users/test" + "/Applications" + "/TestApp.app"
  {
    JoinPlain("/Users/test", "Applications/TestApp.app");
  }

  lemma UserApplicationsVerdict()
    ensures Verdict("/Users/test" + "/Applications" + "/TestApp.app", "/Users/test")
  {
    var home := "/Users/test";
    var userApp := home + "/Applications" + "/TestApp.app";
    NoMarkerWithoutL(userApp);
    NoUnsafeDirByLetter(userApp, home);
    UserApplicationsAreSafe(home, "/TestApp.app");
  }
}
