/** The filesystem the uninstaller reads and deletes from, abstracted as a
    tree of named entries. A directory lists its children in the order
    os.ReadDir returns them (sorted by name); a directory whose listing fails
    is marked unlistable. `os.RemoveAll` is modelled on a `FileSystem` object
    whose tree it changes in place. */
module FileTree {
  import opened Wrappers
  import opened GoPaths

  datatype Node =
    | File(name: string, content: string)
    | Dir(name: string, children: seq<Node>, listable: bool)

  /** Strict byte-wise (code point) order on names, the order os.ReadDir sorts by. */
  predicate NameBefore(a: string, b: string)
    decreases |a|
  {
    if a == [] then b != []
    else if b == [] then false
    else a[0] < b[0] || (a[0] == b[0] && NameBefore(a[1..], b[1..]))
  }

  lemma {:induction false} NameBeforeIrreflexive(a: string)
    ensures !NameBefore(a, a)
    decreases |a|
  {
    if a != [] {
      NameBeforeIrreflexive(a[1..]);
    }
  }

  /** Every directory below `node` lists entry names, never "." or "..", in
      strictly increasing order (so no two siblings share a name). The name of `node` itself is
      not constrained: the root of the tree has none. */
  predicate WellFormed(node: Node)
    decreases node
  {
    match node
    case File(_, _) => true
    case Dir(_, children, _) =>
      && (forall i :: 0 <= i < |children| ==> EntryName(children[i].name))
      && (forall i :: 0 <= i < |children| ==> children[i].name != "." && children[i].name != "..")
      && (forall i, j :: 0 <= i < j < |children| ==> NameBefore(children[i].name, children[j].name))
      && (forall i :: 0 <= i < |children| ==> WellFormed(children[i]))
  }

  /** Siblings in a well-formed directory have distinct names. */
  lemma DistinctSiblings(node: Node, i: int, j: int)
    requires WellFormed(node) && node.Dir?
    requires 0 <= i < |node.children| && 0 <= j < |node.children| && i != j
    ensures node.children[i].name != node.children[j].name
  {
    if i < j {
      NameBeforeIrreflexive(node.children[i].name);
    } else {
      NameBeforeIrreflexive(node.children[j].name);
    }
  }

  /** The child a directory lookup finds for `name`: the first one listed. */
  function Child(children: seq<Node>, name: string): (r: Option<Node>)
    ensures r.Some? ==> r.value in children && r.value.name == name
    ensures r.None? ==> forall c :: c in children ==> c.name != name
  {
    if children == [] then None
    else if children[0].name == name then Some(children[0])
    else Child(children[1..], name)
  }

  /** The entry reached from `node` through the entry names `path`. */
  function Lookup(node: Node, path: seq<string>): Option<Node>
    decreases path
  {
    if path == [] then Some(node)
    else match node
      case File(_, _) => None
      case Dir(_, children, _) =>
        match Child(children, path[0])
        case None => None
        case Some(c) => Lookup(c, path[1..])
  }

  /** An entry below `x` is reached through the entry at `x`, which is a directory. */
  lemma {:induction false} LookupThrough(node: Node, x: seq<string>, y: seq<string>)
    requires y != [] && Lookup(node, x + y).Some?
    ensures Lookup(node, x).Some? && Lookup(node, x).value.Dir?
    ensures Lookup(node, x + y) == Lookup(Lookup(node, x).value, y)
    decreases x
  {
    if x == [] {
      assert x + y == y;
    } else {
      assert (x + y)[0] == x[0] && (x + y)[1..] == x[1..] + y;
      var c := Child(node.children, x[0]);
      LookupThrough(c.value, x[1..], y);
    }
  }

  /** The subtree of a well-formed tree is well-formed. */
  lemma {:induction false} LookupWellFormed(node: Node, path: seq<string>)
    requires WellFormed(node)
    ensures Lookup(node, path).Some? ==> WellFormed(Lookup(node, path).value)
    decreases path
  {
    if path != [] && node.Dir? {
      var c := Child(node.children, path[0]);
      if c.Some? {
        LookupWellFormed(c.value, path[1..]);
      }
    }
  }

  /** How the kernel resolves a path against the tree. */
  datatype Resolution =
    | Resolved(at: seq<string>)  // the entry names of what the path denotes, which need not exist
    | NoEntry                    // a directory on the way does not exist (ENOENT)
    | NotDirectory               // a file is used as a directory on the way (ENOTDIR)

  /** The name of the entry at `at` within its directory. */
  function Last(at: seq<string>): string
    requires at != []
  {
    at[|at| - 1]
  }

  /** The directory holding the entry at `at`; the root is its own parent. */
  function Parent(at: seq<string>): seq<string> {
    if at == [] then [] else at[..|at| - 1]
  }

  /** The resolution of the path elements `rest` from the directory at `at`:
      `.` stays where it is, `..` goes up one level (staying at the root),
      and every name but the last must be an existing directory. */
  function ResolveFrom(root: Node, at: seq<string>, rest: seq<string>): Resolution
    decreases |rest|
  {
    if rest == [] then Resolved(at)
    else if rest[0] == "." then ResolveFrom(root, at, rest[1..])
    else if rest[0] == ".." then ResolveFrom(root, Parent(at), rest[1..])
    else if |rest| == 1 then Resolved(at + rest)
    else match Lookup(root, at + [rest[0]])
      case None => NoEntry
      case Some(File(_, _)) => NotDirectory
      case Some(Dir(_, _, _)) => ResolveFrom(root, at + [rest[0]], rest[1..])
  }

  /** The kernel's resolution of a path, from the root (a relative path is
      taken from the root too). */
  function Resolve(root: Node, path: string): Resolution {
    ResolveFrom(root, [], Components(path))
  }

  /** os.Stat of a path: the entry, if the path resolves to one. */
  function Stat(root: Node, path: string): Option<Node> {
    match Resolve(root, path)
    case Resolved(at) => Lookup(root, at)
    case _ => None
  }

  /** Elements that are neither `.` nor `..` are resolved literally: the
      resolution, if any, is the elements themselves, and it succeeds when
      the entry they name exists. */
  lemma {:induction false} ResolveLiteral(root: Node, at: seq<string>, rest: seq<string>)
    requires "." !in rest && ".." !in rest
    ensures ResolveFrom(root, at, rest).Resolved? ==> ResolveFrom(root, at, rest).at == at + rest
    ensures Lookup(root, at + rest).Some? ==> ResolveFrom(root, at, rest) == Resolved(at + rest)
    decreases |rest|
  {
    if rest == [] {
      assert at + rest == at;
    } else {
      assert rest[0] in rest;
      if |rest| > 1 {
        assert forall e :: e in rest[1..] ==> e in rest;
        var next := at + [rest[0]];
        assert next + rest[1..] == at + rest;
        ResolveLiteral(root, next, rest[1..]);
        if Lookup(root, at + rest).Some? {
          LookupThrough(root, next, rest[1..]);
        }
      }
    }
  }

  /** Every entry of `after` is in `before`, as the same kind of entry: what
      removals leave behind. */
  ghost predicate Shrunk(after: Node, before: Node) {
    forall q :: Lookup(after, q).Some? ==>
      Lookup(before, q).Some? && Lookup(after, q).value.Dir? == Lookup(before, q).value.Dir?
  }

  lemma ShrunkTransitive(a: Node, b: Node, c: Node)
    requires Shrunk(a, b) && Shrunk(b, c)
    ensures Shrunk(a, c)
  {
  }

  lemma {:induction false} ResolveFromShrunk(after: Node, before: Node, at: seq<string>, rest: seq<string>)
    requires Shrunk(after, before)
    ensures ResolveFrom(after, at, rest).Resolved? ==> ResolveFrom(before, at, rest) == ResolveFrom(after, at, rest)
    ensures ResolveFrom(after, at, rest) == NotDirectory ==> ResolveFrom(before, at, rest) == NotDirectory
    decreases |rest|
  {
    if rest != [] {
      if rest[0] == "." {
        ResolveFromShrunk(after, before, at, rest[1..]);
      } else if rest[0] == ".." {
        ResolveFromShrunk(after, before, Parent(at), rest[1..]);
      } else if |rest| > 1 && Lookup(after, at + [rest[0]]).Some? {
        ResolveFromShrunk(after, before, at + [rest[0]], rest[1..]);
      }
    }
  }

  /** After removals a path resolves as it did before, or no longer
      resolves; it does not newly lead through a file; and a path that
      named nothing still names nothing. */
  lemma ResolveShrunk(after: Node, before: Node, path: string)
    requires Shrunk(after, before)
    ensures Resolve(after, path).Resolved? ==> Resolve(before, path) == Resolve(after, path)
    ensures Resolve(after, path) == NotDirectory ==> Resolve(before, path) == NotDirectory
    ensures Stat(before, path).None? ==> Stat(after, path).None?
  {
    ResolveFromShrunk(after, before, [], Components(path));
  }

  /** The children whose names `keep` admits, in order. */
  function Filter(children: seq<Node>, keep: string -> bool): seq<Node> {
    if children == [] then []
    else (if keep(children[0].name) then [children[0]] else []) + Filter(children[1..], keep)
  }

  /** `node` with the directory at `dir` keeping only the entries whose
      names `keep` admits, each with everything beneath it. */
  function Prune(node: Node, dir: seq<string>, keep: string -> bool): (r: Node)
    ensures r.name == node.name && r.Dir? == node.Dir?
    decreases |dir|, 1
  {
    match node
    case File(_, _) => node
    case Dir(n, children, listable) =>
      if dir == [] then Dir(n, Filter(children, keep), listable)
      else Dir(n, PruneBelow(children, dir[0], dir[1..], keep), listable)
  }

  /** The children, with `rest` pruned below each one called `name`. */
  function PruneBelow(children: seq<Node>, name: string, rest: seq<string>, keep: string -> bool): seq<Node>
    decreases |rest| + 1, 0, |children|
  {
    if children == [] then []
    else [if children[0].name == name then Prune(children[0], rest, keep) else children[0]]
         + PruneBelow(children[1..], name, rest, keep)
  }

  lemma {:induction false} ChildFilter(children: seq<Node>, keep: string -> bool, other: string)
    ensures Child(Filter(children, keep), other) == if keep(other) then Child(children, other) else None
  {
    if children != [] {
      ChildFilter(children[1..], keep, other);
      var tail := Filter(children[1..], keep);
      if keep(children[0].name) {
        assert Filter(children, keep) == [children[0]] + tail;
        assert ([children[0]] + tail)[1..] == tail;
      } else {
        assert Filter(children, keep) == [] + tail == tail;
      }
    }
  }

  lemma {:induction false} ChildPruneBelow(children: seq<Node>, name: string, rest: seq<string>,
                                           keep: string -> bool, other: string)
    ensures Child(PruneBelow(children, name, rest, keep), other) ==
      if other != name then Child(children, other)
      else match Child(children, name)
        case None => None
        case Some(c) => Some(Prune(c, rest, keep))
  {
    if children != [] {
      ChildPruneBelow(children[1..], name, rest, keep, other);
      var head := if children[0].name == name then Prune(children[0], rest, keep) else children[0];
      var tail := PruneBelow(children[1..], name, rest, keep);
      assert PruneBelow(children, name, rest, keep) == [head] + tail;
      assert ([head] + tail)[1..] == tail;
    }
  }

  /** Pruning the directory at `dir` keeps every entry that is not strictly
      beneath it in existence and of the same kind, leaves entries neither
      above nor beneath it exactly as they were, and keeps an entry beneath
      it exactly when `keep` admits the name by which it hangs below `dir`. */
  lemma {:induction false} PruneLookup(node: Node, dir: seq<string>, keep: string -> bool, other: seq<string>)
    ensures !(dir < other) ==> Lookup(Prune(node, dir, keep), other).Some? == Lookup(node, other).Some?
    ensures !(dir < other) && Lookup(node, other).Some? ==>
      Lookup(Prune(node, dir, keep), other).value.Dir? == Lookup(node, other).value.Dir?
    ensures !(dir <= other) && !(other <= dir) ==> Lookup(Prune(node, dir, keep), other) == Lookup(node, other)
    ensures dir < other ==>
      Lookup(Prune(node, dir, keep), other) == if keep(other[|dir|]) then Lookup(node, other) else None
    decreases dir
  {
    if other != [] && node.Dir? {
      if dir == [] {
        ChildFilter(node.children, keep, other[0]);
      } else {
        ChildPruneBelow(node.children, dir[0], dir[1..], keep, other[0]);
        var c := Child(node.children, dir[0]);
        if other[0] == dir[0] {
          assert dir < other <==> dir[1..] < other[1..];
          assert dir <= other <==> dir[1..] <= other[1..];
          assert other <= dir <==> other[1..] <= dir[1..];
          if c.Some? {
            PruneLookup(c.value, dir[1..], keep, other[1..]);
            if dir < other {
              assert other[|dir|] == other[1..][|dir[1..]|];
            }
          }
        }
      }
    }
  }

  /** The ways os.RemoveAll fails. */
  datatype RemoveError =
    | InvalidArgument   // the path is "." or ends in "/." (EINVAL, before anything is touched)
    | NotADirectory     // a file is used as a directory on the way (ENOTDIR)
    | PermissionDenied  // something at or beneath the path may not be removed
    | DirectoryKept     // the root, or a path whose last element is "." or "..": emptied, never removed

  /** Some entry at or beneath `path` that exists is one whose removal the
      operating system refuses. */
  predicate Blocked(root: Node, locked: set<seq<string>>, path: seq<string>) {
    exists l | l in locked :: path <= l && Lookup(root, l).Some?
  }

  /** The names a directory keeps when its entry `name` is removed. */
  function Except(name: string): string -> bool {
    n => n != name
  }

  /** The names in the directory at `at` beneath which a refused removal lies. */
  function Refused(root: Node, locked: set<seq<string>>, at: seq<string>): string -> bool {
    name => Blocked(root, locked, at + [name])
  }

  /** Go's endsWithDot: RemoveAll refuses "." and every path ending in "/.". */
  predicate EndsWithDot(path: string) {
    path == "." || (|path| >= 2 && path[|path| - 1] == '.' && path[|path| - 2] == '/')
  }

  /** The last element of the path is "." or "..": the name RemoveAll hands
      to unlinkat is one no directory can be unlinked by. */
  predicate DotLast(path: string) {
    var c := Components(path);
    c != [] && (c[|c| - 1] == "." || c[|c| - 1] == "..")
  }

  /** The entry os.RemoveAll(path) acts on, when it gets that far. */
  function Target(root: Node, path: string): Option<seq<string>> {
    if path == [] || EndsWithDot(path) then None
    else match Resolve(root, path)
      case Resolved(at) => Some(at)
      case _ => None
  }

  /** What os.RemoveAll(path) reports, and the tree it leaves, following Go's
      removeAll: the empty path and a path that resolves to nothing are
      reported removed; "." and paths ending in "/." are refused; a file on
      the way is an error. The root, and a directory named through a last
      "." or "..", is emptied of every entry nothing refused lies beneath,
      and then reported as an error because the directory itself cannot be
      unlinked. Any other existing entry is removed with everything beneath
      it, unless something there is refused, which removes nothing. */
  function RemoveAllOutcome(root: Node, locked: set<seq<string>>, path: string): (Option<RemoveError>, Node) {
    if path == [] then (None, root)
    else if EndsWithDot(path) then (Some(InvalidArgument), root)
    else match Resolve(root, path)
      case NoEntry => (None, root)
      case NotDirectory => (Some(NotADirectory), root)
      case Resolved(at) =>
        if Lookup(root, at).None? then (None, root)
        else if at == [] || DotLast(path) then
          (Some(DirectoryKept), Prune(root, at, Refused(root, locked, at)))
        else if Blocked(root, locked, at) then (Some(PermissionDenied), root)
        else (None, Prune(root, Parent(at), Except(Last(at))))
  }

  /** Pruning a directory down to the entries `keep` admits creates nothing,
      changes nothing outside the directory, and keeps an entry beneath it
      exactly when `keep` admits the name by which it hangs below. */
  lemma PruneContents(root: Node, dir: seq<string>, keep: string -> bool)
    ensures Shrunk(Prune(root, dir, keep), root)
    ensures forall q :: !(dir < q) ==> Lookup(Prune(root, dir, keep), q).Some? == Lookup(root, q).Some?
    ensures forall q :: dir < q ==>
      (Lookup(Prune(root, dir, keep), q).Some? <==> Lookup(root, q).Some? && keep(q[|dir|]))
  {
    forall q
      ensures Lookup(Prune(root, dir, keep), q).Some? ==>
        Lookup(root, q).Some? && Lookup(Prune(root, dir, keep), q).value.Dir? == Lookup(root, q).value.Dir?
      ensures !(dir < q) ==> Lookup(Prune(root, dir, keep), q).Some? == Lookup(root, q).Some?
      ensures dir < q ==> (Lookup(Prune(root, dir, keep), q).Some? <==> Lookup(root, q).Some? && keep(q[|dir|]))
    {
      PruneLookup(root, dir, keep, q);
    }
  }

  /** Pruning the one name of `at` from its parent removes the entry at `at`
      with everything beneath it and nothing else. */
  lemma PruneEntry(root: Node, at: seq<string>)
    requires at != []
    ensures Shrunk(Prune(root, Parent(at), Except(Last(at))), root)
    ensures forall q :: !(at <= q) ==>
      Lookup(Prune(root, Parent(at), Except(Last(at))), q).Some? == Lookup(root, q).Some?
    ensures forall q :: at <= q ==> Lookup(Prune(root, Parent(at), Except(Last(at))), q) == None
  {
    var dir := Parent(at);
    var keep := Except(Last(at));
    PruneContents(root, dir, keep);
    assert at == dir + [Last(at)];
    forall q | at <= q ensures dir < q && !keep(q[|dir|]) {
      assert q[|dir|] == at[|dir|];
    }
    forall q | !(at <= q) && dir < q ensures keep(q[|dir|]) {
    }
  }

  /** The specification of os.RemoveAll as modelled: it creates nothing and
      changes no entry's kind; it changes nothing when it fails before acting
      or finds nothing; it touches nothing outside its target; an ordinary
      existing target is removed with everything beneath it unless something
      there is refused; and a target that can only be emptied keeps exactly
      the entries refused removals lie beneath. */
  lemma RemoveAllSpec(root: Node, locked: set<seq<string>>, path: string)
    ensures Shrunk(RemoveAllOutcome(root, locked, path).1, root)
    ensures path == [] ==> RemoveAllOutcome(root, locked, path) == (None, root)
    ensures path != [] && EndsWithDot(path) ==> RemoveAllOutcome(root, locked, path) == (Some(InvalidArgument), root)
    ensures !EndsWithDot(path) && Resolve(root, path) == NotDirectory ==>
      RemoveAllOutcome(root, locked, path) == (Some(NotADirectory), root)
    ensures !EndsWithDot(path) && Resolve(root, path) != NotDirectory && Stat(root, path).None? ==>
      RemoveAllOutcome(root, locked, path) == (None, root)
    ensures Target(root, path).None? ==> RemoveAllOutcome(root, locked, path).1 == root
    ensures Target(root, path).Some? ==> forall q :: !(Target(root, path).value <= q) ==>
      Lookup(RemoveAllOutcome(root, locked, path).1, q).Some? == Lookup(root, q).Some?
    ensures Target(root, path).Some? && Target(root, path).value != [] && !DotLast(path) && Stat(root, path).Some? ==>
      && (Blocked(root, locked, Target(root, path).value) ==>
            RemoveAllOutcome(root, locked, path) == (Some(PermissionDenied), root))
      && (!Blocked(root, locked, Target(root, path).value) ==>
            && RemoveAllOutcome(root, locked, path).0.None?
            && forall q :: Target(root, path).value <= q ==> Lookup(RemoveAllOutcome(root, locked, path).1, q).None?)
    ensures Target(root, path).Some? && (Target(root, path).value == [] || DotLast(path)) && Stat(root, path).Some? ==>
      && RemoveAllOutcome(root, locked, path).0 == Some(DirectoryKept)
      && Lookup(RemoveAllOutcome(root, locked, path).1, Target(root, path).value).Some?
      && forall q :: Target(root, path).value < q ==>
           (Lookup(RemoveAllOutcome(root, locked, path).1, q).Some? <==>
              Lookup(root, q).Some? && Blocked(root, locked, q[..|Target(root, path).value| + 1]))
  {
    RemoveAllUnchanged(root, locked, path);
    if Target(root, path).Some? && Stat(root, path).Some? {
      var at := Target(root, path).value;
      assert Resolve(root, path) == Resolved(at);
      if at == [] || DotLast(path) {
        RemoveAllEmpties(root, locked, path, at);
      } else {
        RemoveAllRemoves(root, locked, path, at);
      }
    }
  }

  /** The cases in which os.RemoveAll leaves the tree as it was. */
  lemma RemoveAllUnchanged(root: Node, locked: set<seq<string>>, path: string)
    ensures path == [] ==> RemoveAllOutcome(root, locked, path) == (None, root)
    ensures path != [] && EndsWithDot(path) ==> RemoveAllOutcome(root, locked, path) == (Some(InvalidArgument), root)
    ensures !EndsWithDot(path) && Resolve(root, path) == NotDirectory ==>
      RemoveAllOutcome(root, locked, path) == (Some(NotADirectory), root)
    ensures !EndsWithDot(path) && Resolve(root, path) != NotDirectory && Stat(root, path).None? ==>
      RemoveAllOutcome(root, locked, path) == (None, root)
    ensures Target(root, path).None? || Stat(root, path).None? ==> RemoveAllOutcome(root, locked, path).1 == root
  {
  }

  lemma RemoveAllEmpties(root: Node, locked: set<seq<string>>, path: string, at: seq<string>)
    requires path != [] && !EndsWithDot(path) && Resolve(root, path) == Resolved(at)
    requires Lookup(root, at).Some? && (at == [] || DotLast(path))
    ensures RemoveAllOutcome(root, locked, path) == (Some(DirectoryKept), Prune(root, at, Refused(root, locked, at)))
    ensures Lookup(RemoveAllOutcome(root, locked, path).1, at).Some?
    ensures Shrunk(RemoveAllOutcome(root, locked, path).1, root)
    ensures forall q :: !(at <= q) ==> Lookup(RemoveAllOutcome(root, locked, path).1, q).Some? == Lookup(root, q).Some?
    ensures forall q :: at < q ==>
      (Lookup(RemoveAllOutcome(root, locked, path).1, q).Some? <==>
         Lookup(root, q).Some? && Blocked(root, locked, q[..|at| + 1]))
  {
    EmptiedTarget(root, locked, at);
    PruneLookup(root, at, Refused(root, locked, at), at);
  }

  lemma RemoveAllRemoves(root: Node, locked: set<seq<string>>, path: string, at: seq<string>)
    requires path != [] && !EndsWithDot(path) && Resolve(root, path) == Resolved(at)
    requires Lookup(root, at).Some? && at != [] && !DotLast(path)
    ensures Blocked(root, locked, at) ==> RemoveAllOutcome(root, locked, path) == (Some(PermissionDenied), root)
    ensures !Blocked(root, locked, at) ==>
      RemoveAllOutcome(root, locked, path) == (None, Prune(root, Parent(at), Except(Last(at))))
    ensures Shrunk(RemoveAllOutcome(root, locked, path).1, root)
    ensures forall q :: !(at <= q) ==> Lookup(RemoveAllOutcome(root, locked, path).1, q).Some? == Lookup(root, q).Some?
    ensures !Blocked(root, locked, at) ==> forall q :: at <= q ==> Lookup(RemoveAllOutcome(root, locked, path).1, q).None?
  {
    PruneEntry(root, at);
  }

  /** The directory at `at` emptied of every entry no refused removal lies beneath. */
  lemma EmptiedTarget(root: Node, locked: set<seq<string>>, at: seq<string>)
    ensures Shrunk(Prune(root, at, Refused(root, locked, at)), root)
    ensures forall q :: !(at <= q) ==>
      Lookup(Prune(root, at, Refused(root, locked, at)), q).Some? == Lookup(root, q).Some?
    ensures forall q :: at < q ==>
      (Lookup(Prune(root, at, Refused(root, locked, at)), q).Some? <==>
         Lookup(root, q).Some? && Blocked(root, locked, q[..|at| + 1]))
  {
    var keep := Refused(root, locked, at);
    PruneContents(root, at, keep);
    forall q | at < q ensures at + [q[|at|]] == q[..|at| + 1] {
    }
  }

  /** The machine's filesystem: a tree that os.RemoveAll changes in place, and
      the entries whose removal the operating system refuses (permissions,
      files in use). */
  class FileSystem {
    var root: Node
    const locked: set<seq<string>>

    constructor (root: Node, locked: set<seq<string>>)
      ensures this.root == root && this.locked == locked
    {
      this.root := root;
      this.locked := locked;
    }

    /** os.RemoveAll: removes `path` and everything beneath it. */
    method RemoveAll(path: string) returns (err: Option<RemoveError>)
      modifies this
      ensures (err, root) == RemoveAllOutcome(old(root), locked, path)
    {
      var outcome := RemoveAllOutcome(root, locked, path);
      err := outcome.0;
      root := outcome.1;
    }
  }
}
