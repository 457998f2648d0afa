/** AppFinder: locating an application's bundle and the files it has left in
    the user's Library. The filesystem is a read-only snapshot (a `Node`) and
    HOME is a parameter; the finder object itself accumulates its findings
    in place. */
module Finder {
  import opened Wrappers
  import opened GoStrings
  import opened GoPaths
  import opened FileTree
  import opened Plist

  /** The Library directories under HOME that are scanned, in scan order. */
  const LibraryPaths: seq<string> := [
    "Library/Application Support/",
    "Library/Preferences/",
    "Library/Caches/",
    "Library/Logs/",
    "Library/Containers/",
    "Library/Saved Application State/"
  ]

  /** The directories an application bundle is looked for in, in probe order. */
  function AppLocations(home: string): seq<string> {
    ["/Applications/", Join(home, "Applications/")]
  }

  /** isRelatedToApp: the base name of `path` contains the bundle ID (when
      one is known, compared case-sensitively) or contains the app name
      (compared ignoring case). */
  function IsRelatedToApp(bundleID: string, appName: string, path: string): bool {
    var baseName := Base(path);
    (bundleID != [] && Contains(baseName, bundleID))
    || Contains(ToLower(baseName), ToLower(appName))
  }

  /** Only the last element of a path decides a match: the directories it
      sits in never do. */
  lemma MatchUsesBaseNameOnly(bundleID: string, appName: string, path: string)
    ensures IsRelatedToApp(bundleID, appName, path) == IsRelatedToApp(bundleID, appName, Base(path))
  {
    BaseIdempotent(path);
  }

  /** An entry whose name contains the app name, in any case, matches. */
  lemma NameInBaseMatches(bundleID: string, appName: string, path: string)
    requires Contains(Base(path), appName)
    ensures IsRelatedToApp(bundleID, appName, path)
  {
    ContainsToLower(Base(path), appName);
  }

  /** The app-name test ignores the case of the app name. */
  lemma AppNameCaseIgnored(bundleID: string, appName: string, path: string)
    ensures IsRelatedToApp(bundleID, appName, path) == IsRelatedToApp(bundleID, ToLower(appName), path)
  {
    ToLowerIdempotent(appName);
  }

  /** An empty app name matches every entry, whatever the bundle ID. */
  lemma EmptyNameMatchesEverything(bundleID: string, path: string)
    ensures IsRelatedToApp(bundleID, [], path)
  {
    ContainsEmpty(ToLower(Base(path)));
  }

  /** The bundle ID is compared case-sensitively: an upper-case copy of it
      does not match when the app name does not. */
  lemma BundleIdIsCaseSensitive()
    ensures !IsRelatedToApp("com.acme", "zz", "/Users/alice/Library/COM.ACME")
  {
    BaseOfEntry("/Users/alice/Library", "COM.ACME");
    assert "/Users/alice/Library/COM.ACME" == "/Users/alice/Library" + "/" + "COM.ACME";
    assert "com.acme"[0] == 'c';
    MissingCharNotContained("COM.ACME", "com.acme", 'c');
    assert ToLower("zz") == "zz" && ToLower("COM.ACME") == "com.acme";
    MissingCharNotContained("com.acme", "zz", 'z');
  }

  /** What findAppBundle found at one location. */
  datatype BundleHit = AppBundle(path: string) | BareDir(path: string)

  /** The probe of one location: `<name>.app` if anything exists there,
      otherwise `<name>` if it is a directory. */
  function ProbeLocation(disk: Node, location: string, name: string): (r: Option<BundleHit>)
    ensures Stat(disk, Join(location, name + ".app")).Some? <==> r == Some(AppBundle(Join(location, name + ".app")))
    ensures r.Some? && r.value.AppBundle? ==> r.value.path == Join(location, name + ".app")
    ensures r.Some? && r.value.BareDir? ==>
      && r.value.path == Join(location, name)
      && Stat(disk, r.value.path).Some? && Stat(disk, r.value.path).value.Dir?
      && Stat(disk, Join(location, name + ".app")).None?
    ensures r.None? <==>
      && Stat(disk, Join(location, name + ".app")).None?
      && !(Stat(disk, Join(location, name)).Some? && Stat(disk, Join(location, name)).value.Dir?)
  {
    var appPath := Join(location, name + ".app");
    if Stat(disk, appPath).Some? then Some(AppBundle(appPath))
    else
      var dirPath := Join(location, name);
      var info := Stat(disk, dirPath);
      if info.Some? && info.value.Dir? then Some(BareDir(dirPath)) else None
  }

  /** ProbeLocation for one disk and app name, as a function of the location. */
  function Probe(disk: Node, name: string): string -> Option<BundleHit> {
    location => ProbeLocation(disk, location, name)
  }

  /** The first hit of probing `locations` in order. */
  function FirstHit(probe: string -> Option<BundleHit>, locations: seq<string>): Option<BundleHit> {
    if locations == [] then None
    else if probe(locations[0]).Some? then probe(locations[0])
    else FirstHit(probe, locations[1..])
  }

  /** The probe finds nothing exactly when no location has a hit, and what
      it finds is the hit at some location all of whose predecessors have none. */
  lemma {:induction false} FirstHitSpec(probe: string -> Option<BundleHit>, locations: seq<string>)
    ensures FirstHit(probe, locations).None? <==> forall i | 0 <= i < |locations| :: probe(locations[i]).None?
    ensures FirstHit(probe, locations).Some? ==> exists i | 0 <= i < |locations| ::
      && FirstHit(probe, locations) == probe(locations[i])
      && forall j | 0 <= j < i :: probe(locations[j]).None?
  {
    if locations != [] && probe(locations[0]).None? {
      var rest := locations[1..];
      FirstHitSpec(probe, rest);
      assert forall i | 1 <= i < |locations| :: locations[i] == rest[i - 1];
      if FirstHit(probe, rest).Some? {
        var i :| 0 <= i < |rest| && FirstHit(probe, rest) == probe(rest[i])
                 && forall j | 0 <= j < i :: probe(rest[j]).None?;
        assert FirstHit(probe, locations) == probe(locations[i + 1]);
      }
    }
  }

  /** The bundle findAppBundle records, if any. */
  function FirstBundle(disk: Node, home: string, name: string): Option<BundleHit> {
    FirstHit(Probe(disk, name), AppLocations(home))
  }

  /** The paths findAppBundle appends: at most one. */
  function BundleRecord(hit: Option<BundleHit>): seq<string> {
    if hit.Some? then [hit.value.path] else []
  }

  /** The bundle ID assumed for a bare application directory. */
  function SynthesizedBundleID(name: string): string {
    "com." + ToLower(name) + "." + ToLower(name)
  }

  /** A synthesized bundle ID matches nothing that the app name does not
      already match. */
  lemma SynthesizedIdAddsNoMatches(appName: string, path: string)
    ensures IsRelatedToApp(SynthesizedBundleID(appName), appName, path) == IsRelatedToApp([], appName, path)
  {
    var lower := ToLower(appName);
    var baseName := Base(path);
    if Contains(baseName, SynthesizedBundleID(appName)) {
      assert SynthesizedBundleID(appName) == "com." + lower + ("." + lower);
      ContainsInner(baseName, "com.", lower, "." + lower);
      ContainsToLower(baseName, lower);
      ToLowerIdempotent(appName);
    }
  }

  /** The text of `<appPath>/Contents/Info.plist`, or None when it is missing
      or is not a file. */
  function ReadInfoPlist(disk: Node, appPath: string): Option<string> {
    match Stat(disk, Join(Join(appPath, "Contents"), "Info.plist"))
    case Some(File(_, content)) => Some(content)
    case _ => None
  }

  /** extractBundleID: the bundle ID parsed from the Info.plist, or the
      fallback `com.example.<name>` together with the parse error. */
  function ExtractBundleID(disk: Node, appPath: string, appName: string): (r: (string, Option<PlistError>))
    ensures r.1.None? ==>
      && ReadInfoPlist(disk, appPath).Some? && r.0 != []
      && Contains(ReadInfoPlist(disk, appPath).value, StringOpen + r.0 + StringClose)
    ensures ParseBundleID(ReadInfoPlist(disk, appPath)).Ok? ==>
      r == (ParseBundleID(ReadInfoPlist(disk, appPath)).value, None)
    ensures ParseBundleID(ReadInfoPlist(disk, appPath)).Err? ==>
      r == ("com.example." + ToLower(appName), Some(ParseBundleID(ReadInfoPlist(disk, appPath)).error))
  {
    match ParseBundleID(ReadInfoPlist(disk, appPath))
    case Ok(id) => (id, None)
    case Err(e) => ("com.example." + ToLower(appName), Some(e))
  }

  /** The bundle ID findAppBundle leaves behind, given the one it started
      with and what the probe found: unchanged when nothing was found or the
      Info.plist could not be parsed (the fallback is dropped). */
  function NextBundleID(previous: string, disk: Node, name: string, hit: Option<BundleHit>): (r: string)
    ensures hit.None? ==> r == previous
    ensures hit.Some? && hit.value.BareDir? ==> r == SynthesizedBundleID(name)
    ensures hit.Some? && hit.value.AppBundle? ==>
      match ParseBundleID(ReadInfoPlist(disk, hit.value.path))
      case Ok(id) => r == id
      case Err(_) => r == previous
  {
    match hit
    case None => previous
    case Some(BareDir(_)) => SynthesizedBundleID(name)
    case Some(AppBundle(path)) =>
      var (id, err) := ExtractBundleID(disk, path, name);
      if err.None? then id else previous
  }

  /** The finder's WalkDir callback test, as a predicate on paths. */
  function Related(bundleID: string, appName: string): string -> bool {
    path => IsRelatedToApp(bundleID, appName, path)
  }

  /** What filepath.WalkDir records for the entry `node` at `path`, and for
      everything listed beneath it unless the callback answers SkipDir, when
      the callback skips the walk's root, records an entry satisfying
      `related` (and answers SkipDir for it if it is a directory) and
      answers SkipDir for a directory that cannot be listed. */
  function EntryMatches(related: string -> bool, root: string, path: string, node: Node): (r: seq<string>)
    decreases node, 1, 0
  {
    if path != root && related(path) then [path]
    else match node
      case File(_, _) => []
      case Dir(_, _, listable) => if listable then ChildMatches(related, root, path, node, 0) else []
  }

  /** The records of the entries of `parent` (listed at `dir`) from the
      `i`-th on, visited in listing order. */
  function ChildMatches(related: string -> bool, root: string, dir: string, parent: Node, i: nat): (r: seq<string>)
    requires parent.Dir? && i <= |parent.children|
    decreases parent, 0, |parent.children| - i
  {
    if i == |parent.children| then []
    else
      var child := parent.children[i];
      EntryMatches(related, root, dir + "/" + child.name, child)
      + ChildMatches(related, root, dir, parent, i + 1)
  }

  /** filepath.WalkDir over one Library directory: nothing when it does
      not exist. */
  function LibraryMatches(related: string -> bool, disk: Node, root: string): seq<string> {
    match Stat(disk, root)
    case None => []
    case Some(node) => EntryMatches(related, root, root, node)
  }

  /** The records of the walks of the roots from the `k`-th on, in order. */
  function ScansFrom(related: string -> bool, disk: Node, roots: seq<string>, k: nat): seq<string>
    requires k <= |roots|
    decreases |roots| - k
  {
    if k == |roots| then [] else LibraryMatches(related, disk, roots[k]) + ScansFrom(related, disk, roots, k + 1)
  }

  /** The Library directories under HOME, joined as findAssociatedFiles joins them. */
  function LibraryRoots(home: string): seq<string> {
    seq(|LibraryPaths|, k requires 0 <= k < |LibraryPaths| => Join(home, LibraryPaths[k]))
  }

  /** Each Library root is a plain path, so the walk's child paths
      `root/name` are exactly filepath.Join(root, name) (GoPaths.JoinEntry). */
  lemma LibraryRootsPlain(home: string)
    ensures forall k | 0 <= k < |LibraryPaths| :: PlainPath(LibraryRoots(home)[k])
  {
    forall k | 0 <= k < |LibraryPaths| ensures PlainPath(LibraryRoots(home)[k]) {
      var lib := LibraryPaths[k];
      assert lib[0] == 'L';
      TrimTrailingSlashSpec(lib);
      var e := TrimTrailingSlash(lib);
      assert e[0] == 'L';
    }
  }

  /** findAssociatedFiles: everything the six Library scans record, in order. */
  function AssociatedFiles(bundleID: string, appName: string, disk: Node, home: string): seq<string> {
    ScansFrom(Related(bundleID, appName), disk, LibraryRoots(home), 0)
  }

  /** Appending is associative (stated for the walk records). */
  lemma AppendAssociative(a: seq<string>, b: seq<string>, c: seq<string>)
    ensures (a + b) + c == a + (b + c)
  {
  }

  /** `p` is `path` itself or lies beneath it. */
  predicate AtOrBelow(p: string, path: string) {
    p == path || HasPrefix(p, path + "/")
  }

  /** Everything a walk records passes the callback test, is not the walk's
      root, and lies at or below the entry it was recorded under. */
  lemma {:induction false} EntryMatchesSound(related: string -> bool, root: string, path: string, node: Node)
    ensures forall p | p in EntryMatches(related, root, path, node) :: related(p) && p != root && AtOrBelow(p, path)
    decreases node, 1, 0
  {
    if !(path != root && related(path)) && node.Dir? && node.listable {
      ChildMatchesSound(related, root, path, node, 0);
      forall p | p in ChildMatches(related, root, path, node, 0) ensures HasPrefix(p, path + "/") {
        var k :| 0 <= k < |node.children| && AtOrBelow(p, path + "/" + node.children[k].name);
        assert path + "/" <= path + "/" + node.children[k].name;
      }
    }
  }

  /** Everything recorded from the entries of `parent`, from the `i`-th on,
      passes the test, is not the root, and lies at or below one of those entries. */
  lemma {:induction false} ChildMatchesSound(related: string -> bool, root: string, dir: string, parent: Node, i: nat)
    requires parent.Dir? && i <= |parent.children|
    ensures forall p | p in ChildMatches(related, root, dir, parent, i) ::
      && related(p) && p != root
      && exists k | i <= k < |parent.children| :: AtOrBelow(p, dir + "/" + parent.children[k].name)
    decreases parent, 0, |parent.children| - i
  {
    if i < |parent.children| {
      var child := parent.children[i];
      EntryMatchesSound(related, root, dir + "/" + child.name, child);
      ChildMatchesSound(related, root, dir, parent, i + 1);
    }
  }

  /** An entry of a listable directory that passes the test is recorded,
      as long as the walk's root is no longer than the directory's path. */
  lemma {:induction false} RelatedChildRecorded(related: string -> bool, root: string, dir: string, parent: Node, i: nat, k: nat)
    requires parent.Dir? && i <= k < |parent.children| && |root| <= |dir|
    requires related(dir + "/" + parent.children[k].name)
    ensures dir + "/" + parent.children[k].name in ChildMatches(related, root, dir, parent, i)
    decreases k - i
  {
    if i < k {
      RelatedChildRecorded(related, root, dir, parent, i + 1, k);
    }
  }

  /** A sequence in which no path occurs twice. */
  predicate NoDuplicates(s: seq<string>) {
    forall a, b | 0 <= a < b < |s| :: s[a] != s[b]
  }

  /** Joining sequences without duplicates and without common paths gives one without duplicates. */
  lemma NoDuplicatesConcat(x: seq<string>, y: seq<string>)
    requires NoDuplicates(x) && NoDuplicates(y)
    requires forall p | p in x :: p !in y
    ensures NoDuplicates(x + y)
  {
    forall a, b | 0 <= a < b < |x + y| ensures (x + y)[a] != (x + y)[b] {
      if a < |x| && b >= |x| {
        assert (x + y)[a] in x && (x + y)[b] == y[b - |x|];
      }
    }
  }

  /** Nothing at or below `dir/a` is at or below `dir/b` when `a` and `b` are
      different entry names. */
  lemma SeparateBranches(dir: string, a: string, b: string, p: string)
    requires EntryName(a) && EntryName(b) && a != b
    requires AtOrBelow(p, dir + "/" + a)
    ensures !AtOrBelow(p, dir + "/" + b)
  {
    var s := |dir| + 1;
    assert forall j | 0 <= j < |a| :: p[s + j] == a[j] by {
      assert forall j | 0 <= j < |a| :: (dir + "/" + a)[s + j] == a[j];
    }
    assert |p| == s + |a| || p[s + |a|] == '/' by {
      if p != dir + "/" + a {
        assert p[s + |a|] == (dir + "/" + a + "/")[s + |a|];
      }
    }
    if |a| == |b| {
      var j :| 0 <= j < |a| && a[j] != b[j];
      assert p[s + j] != (dir + "/" + b)[s + j];
    } else if |b| < |a| {
      assert a[|b|] in a;
      assert (dir + "/" + b + "/")[s + |b|] == '/';
    } else {
      assert b[|a|] in b;
      assert (dir + "/" + b)[s + |a|] == b[|a|];
    }
  }

  /** Within a well-formed tree a walk records no path twice. */
  lemma {:induction false} EntryMatchesDistinct(related: string -> bool, root: string, path: string, node: Node)
    requires WellFormed(node)
    ensures NoDuplicates(EntryMatches(related, root, path, node))
    decreases node, 1, 0
  {
    if !(path != root && related(path)) && node.Dir? && node.listable {
      ChildMatchesDistinct(related, root, path, node, 0);
    }
  }

  lemma {:induction false} ChildMatchesDistinct(related: string -> bool, root: string, dir: string, parent: Node, i: nat)
    requires parent.Dir? && WellFormed(parent) && i <= |parent.children|
    ensures NoDuplicates(ChildMatches(related, root, dir, parent, i))
    decreases parent, 0, |parent.children| - i
  {
    if i < |parent.children| {
      var child := parent.children[i];
      var path := dir + "/" + child.name;
      var here := EntryMatches(related, root, path, child);
      var later := ChildMatches(related, root, dir, parent, i + 1);
      EntryMatchesDistinct(related, root, path, child);
      ChildMatchesDistinct(related, root, dir, parent, i + 1);
      EntryMatchesSound(related, root, path, child);
      ChildMatchesSound(related, root, dir, parent, i + 1);
      forall p | p in here ensures p !in later {
        if p in later {
          var k :| i + 1 <= k < |parent.children| && AtOrBelow(p, dir + "/" + parent.children[k].name);
          DistinctSiblings(parent, i, k);
          SeparateBranches(dir, child.name, parent.children[k].name, p);
        }
      }
      NoDuplicatesConcat(here, later);
    }
  }

  /** No path of the sequence lies strictly beneath another. */
  predicate NoNesting(s: seq<string>) {
    forall a, b | a in s && b in s :: !HasPrefix(b, a + "/")
  }

  /** Whatever lies beneath a path at or below `x` is below `x`. */
  lemma NotBeneath(b: string, a: string, x: string)
    requires AtOrBelow(a, x)
    ensures HasPrefix(b, a + "/") ==> AtOrBelow(b, x)
  {
    if HasPrefix(b, a + "/") {
      assert x + "/" <= a + "/";
      assert x + "/" <= b;
    }
  }

  /** A walk records no path beneath another it records: once an entry is
      recorded, the walk does not descend into it (SkipDir). */
  lemma {:induction false} EntryMatchesPrunes(related: string -> bool, root: string, path: string, node: Node)
    requires WellFormed(node)
    ensures NoNesting(EntryMatches(related, root, path, node))
    decreases node, 1, 0
  {
    if !(path != root && related(path)) && node.Dir? && node.listable {
      ChildMatchesPrunes(related, root, path, node, 0);
    }
  }

  lemma {:induction false} ChildMatchesPrunes(related: string -> bool, root: string, dir: string, parent: Node, i: nat)
    requires parent.Dir? && WellFormed(parent) && i <= |parent.children|
    ensures NoNesting(ChildMatches(related, root, dir, parent, i))
    decreases parent, 0, |parent.children| - i
  {
    if i < |parent.children| {
      var child := parent.children[i];
      var path := dir + "/" + child.name;
      var here := EntryMatches(related, root, path, child);
      var later := ChildMatches(related, root, dir, parent, i + 1);
      EntryMatchesPrunes(related, root, path, child);
      ChildMatchesPrunes(related, root, dir, parent, i + 1);
      EntryMatchesSound(related, root, path, child);
      ChildMatchesSound(related, root, dir, parent, i + 1);
      forall a, b | a in here && b in later ensures !HasPrefix(b, a + "/") && !HasPrefix(a, b + "/") {
        var k :| i + 1 <= k < |parent.children| && AtOrBelow(b, dir + "/" + parent.children[k].name);
        DistinctSiblings(parent, i, k);
        CrossBranches(dir, child.name, parent.children[k].name, a, b);
      }
      NoNestingConcat(here, later);
    }
  }

  /** Paths in different branches of a directory are not beneath one another. */
  lemma CrossBranches(dir: string, x: string, y: string, a: string, b: string)
    requires EntryName(x) && EntryName(y) && x != y
    requires AtOrBelow(a, dir + "/" + x) && AtOrBelow(b, dir + "/" + y)
    ensures !HasPrefix(b, a + "/") && !HasPrefix(a, b + "/")
  {
    SeparateBranches(dir, y, x, b);
    NotBeneath(b, a, dir + "/" + x);
    SeparateBranches(dir, x, y, a);
    NotBeneath(a, b, dir + "/" + y);
  }

  /** Joining sequences without nesting, none of whose paths is beneath one
      of the other, gives one without nesting. */
  lemma NoNestingConcat(x: seq<string>, y: seq<string>)
    requires NoNesting(x) && NoNesting(y)
    requires forall a, b | a in x && b in y :: !HasPrefix(b, a + "/") && !HasPrefix(a, b + "/")
    ensures NoNesting(x + y)
  {
  }

  /** Everything the walk of a Library directory records passes the test
      and lies strictly beneath the directory. */
  lemma LibraryMatchesSound(related: string -> bool, disk: Node, root: string)
    ensures forall p | p in LibraryMatches(related, disk, root) :: related(p) && HasPrefix(p, root + "/")
  {
    var entry := Stat(disk, root);
    if entry.Some? {
      EntryMatchesSound(related, root, root, entry.value);
    }
  }

  /** The walk of a Library directory in a well-formed tree records no path twice. */
  lemma LibraryMatchesDistinct(related: string -> bool, disk: Node, root: string)
    requires WellFormed(disk)
    ensures NoDuplicates(LibraryMatches(related, disk, root))
  {
    if Resolve(disk, root).Resolved? {
      LookupWellFormed(disk, Resolve(disk, root).at);
    }
    var entry := Stat(disk, root);
    if entry.Some? {
      EntryMatchesDistinct(related, root, root, entry.value);
    }
  }

  /** The walk of a Library directory in a well-formed tree records no path
      beneath another it records. */
  lemma LibraryMatchesPrunes(related: string -> bool, disk: Node, root: string)
    requires WellFormed(disk)
    ensures NoNesting(LibraryMatches(related, disk, root))
  {
    if Resolve(disk, root).Resolved? {
      LookupWellFormed(disk, Resolve(disk, root).at);
    }
    var entry := Stat(disk, root);
    if entry.Some? {
      EntryMatchesPrunes(related, root, root, entry.value);
    }
  }

  /** Every entry directly inside a listable Library directory that passes
      the test is recorded. */
  lemma LibraryChildRecorded(related: string -> bool, disk: Node, root: string, k: nat)
    requires Stat(disk, root).Some? && Stat(disk, root).value.Dir? && Stat(disk, root).value.listable
    requires k < |Stat(disk, root).value.children|
    requires related(root + "/" + Stat(disk, root).value.children[k].name)
    ensures root + "/" + Stat(disk, root).value.children[k].name in LibraryMatches(related, disk, root)
  {
    RelatedChildRecorded(related, root, root, Stat(disk, root).value, 0, k);
  }

  /** Everything the walks from the `k`-th root on record passes the test
      and lies beneath one of their roots. */
  lemma {:induction false} ScansFromSound(related: string -> bool, disk: Node, roots: seq<string>, k: nat)
    requires k <= |roots|
    ensures forall p | p in ScansFrom(related, disk, roots, k) ::
      related(p) && exists j | k <= j < |roots| :: HasPrefix(p, roots[j] + "/")
    decreases |roots| - k
  {
    if k < |roots| {
      ScansFromSound(related, disk, roots, k + 1);
      LibraryMatchesSound(related, disk, roots[k]);
    }
  }

  /** Every file findAssociatedFiles records is related to the app and lies
      beneath one of the Library directories under HOME. */
  lemma AssociatedFilesRelated(bundleID: string, appName: string, disk: Node, home: string)
    ensures forall p | p in AssociatedFiles(bundleID, appName, disk, home) ::
      && IsRelatedToApp(bundleID, appName, p)
      && exists j | 0 <= j < |LibraryPaths| :: HasPrefix(p, Join(home, LibraryPaths[j]) + "/")
  {
    ScansFromSound(Related(bundleID, appName), disk, LibraryRoots(home), 0);
  }

  /** AppFinder: the state one finder keeps across calls. Neither the bundle
      ID nor the list of found files is ever reset. */
  class AppFinder {
    var bundleID: string
    var appName: string
    var foundFiles: seq<string>

    /** NewAppFinder: no bundle ID, no app name, nothing found yet. */
    constructor ()
      ensures bundleID == [] && appName == [] && foundFiles == []
    {
      bundleID := [];
      appName := [];
      foundFiles := [];
    }

    /** FindAllAssociatedFiles: the bundle first, then the Library scans
      (which already use the bundle ID the probe may have set), appended to
      whatever earlier calls found; it never fails. */
    method FindAllAssociatedFiles(disk: Node, home: string, name: string) returns (files: seq<string>, err: Option<string>)
      modifies this
      ensures appName == name
      ensures bundleID == NextBundleID(old(bundleID), disk, name, FirstBundle(disk, home, name))
      ensures foundFiles == old(foundFiles) + BundleRecord(FirstBundle(disk, home, name))
                            + AssociatedFiles(bundleID, name, disk, home)
      ensures files == foundFiles && err == None
    {
      appName := name;
      FindAppBundle(disk, home);
      FindAssociatedFiles(disk, home);
      return foundFiles, None;
    }

    /** findAppBundle: probes each location for `<name>.app`, then for a
      bare `<name>` directory, and stops at the first hit. */
    method FindAppBundle(disk: Node, home: string)
      modifies this
      ensures appName == old(appName)
      ensures foundFiles == old(foundFiles) + BundleRecord(FirstBundle(disk, home, appName))
      ensures bundleID == NextBundleID(old(bundleID), disk, appName, FirstBundle(disk, home, appName))
    {
      var appLocations := AppLocations(home);
      var i := 0;
      while i < |appLocations|
        invariant 0 <= i <= |appLocations|
        invariant appName == old(appName) && foundFiles == old(foundFiles) && bundleID == old(bundleID)
        invariant FirstHit(Probe(disk, appName), appLocations) == FirstHit(Probe(disk, appName), appLocations[i..])
      {
        assert appLocations[i..][1..] == appLocations[i + 1..];
        var found := ProbeAt(disk, appLocations[i]);
        if found {
          return;
        }
        i := i + 1;
      }
    }

    /** One round of findAppBundle's loop: `<name>.app` at `location` if
      anything exists there (its Info.plist supplying the bundle ID when it
      parses), else a bare `<name>` directory (with a synthesized ID). */
    method ProbeAt(disk: Node, location: string) returns (found: bool)
      modifies this
      ensures appName == old(appName)
      ensures found == ProbeLocation(disk, location, appName).Some?
      ensures foundFiles == old(foundFiles) + BundleRecord(ProbeLocation(disk, location, appName))
      ensures bundleID == NextBundleID(old(bundleID), disk, appName, ProbeLocation(disk, location, appName))
    {
      var appPath := Join(location, appName + ".app");
      if Stat(disk, appPath).Some? {
        foundFiles := foundFiles + [appPath];
        var (id, parseErr) := ExtractBundleID(disk, appPath, appName);
        if parseErr.None? {
          bundleID := id;
        }
        return true;
      }
      appPath := Join(location, appName);
      var info := Stat(disk, appPath);
      if info.Some? && info.value.Dir? {
        foundFiles := foundFiles + [appPath];
        bundleID := SynthesizedBundleID(appName);
        return true;
      }
      return false;
    }

    /** findAssociatedFiles: walks each Library directory under HOME in turn;
      a walk that fails is only reported. */
    method FindAssociatedFiles(disk: Node, home: string)
      modifies this
      ensures bundleID == old(bundleID) && appName == old(appName)
      ensures foundFiles == old(foundFiles) + AssociatedFiles(bundleID, appName, disk, home)
    {
      ScanLibraries(Related(bundleID, appName), disk, LibraryRoots(home));
    }

    /** The loop of findAssociatedFiles: one walk per root, in order. */
    method ScanLibraries(related: string -> bool, disk: Node, roots: seq<string>)
      modifies this
      ensures bundleID == old(bundleID) && appName == old(appName)
      ensures foundFiles == old(foundFiles) + ScansFrom(related, disk, roots, 0)
    {
      for k := 0 to |roots|
        invariant bundleID == old(bundleID) && appName == old(appName)
        invariant foundFiles + ScansFrom(related, disk, roots, k) == old(foundFiles) + ScansFrom(related, disk, roots, 0)
      {
        ghost var before := foundFiles;
        ScanLibrary(related, disk, roots[k]);
        AppendAssociative(before, LibraryMatches(related, disk, roots[k]), ScansFrom(related, disk, roots, k + 1));
      }
    }

    /** The walk of one Library directory, whose root the callback skips. */
    method ScanLibrary(related: string -> bool, disk: Node, fullPath: string)
      modifies this
      ensures bundleID == old(bundleID) && appName == old(appName)
      ensures foundFiles == old(foundFiles) + LibraryMatches(related, disk, fullPath)
    {
      var entry := Stat(disk, fullPath);
      if entry.Some? {
        WalkEntry(related, fullPath, fullPath, entry.value);
      }
    }

    /** filepath.WalkDir's visit of one entry, with `related` standing for
      the finder's match test. */
    method WalkEntry(related: string -> bool, root: string, path: string, node: Node)
      modifies this
      ensures bundleID == old(bundleID) && appName == old(appName)
      ensures foundFiles == old(foundFiles) + EntryMatches(related, root, path, node)
      decreases node, 1
    {
      if path != root && related(path) {
        foundFiles := foundFiles + [path];
        return;
      }
      if node.Dir? && node.listable {
        WalkChildren(related, root, path, node);
      }
    }

    /** The walk of the entries of a directory, in listing order. */
    method WalkChildren(related: string -> bool, root: string, dir: string, parent: Node)
      requires parent.Dir?
      modifies this
      ensures bundleID == old(bundleID) && appName == old(appName)
      ensures foundFiles == old(foundFiles) + ChildMatches(related, root, dir, parent, 0)
      decreases parent, 0
    {
      for i := 0 to |parent.children|
        invariant bundleID == old(bundleID) && appName == old(appName)
        invariant foundFiles + ChildMatches(related, root, dir, parent, i)
                  == old(foundFiles) + ChildMatches(related, root, dir, parent, 0)
      {
        var child := parent.children[i];
        var path := dir + "/" + child.name;
        assert ChildMatches(related, root, dir, parent, i)
               == EntryMatches(related, root, path, child) + ChildMatches(related, root, dir, parent, i + 1);
        WalkEntry(related, root, path, child);
      }
    }
  }
}
