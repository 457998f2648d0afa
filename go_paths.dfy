/** The parts of Go's `path/filepath` package that the uninstaller relies on
    (`Join`, `Base`, `Match`), for '/'-separated paths, plus the split of a path
    into the directory names an operating system would resolve it through. */
module GoPaths {
  import opened GoStrings

  /** A path that is non-empty and does not end in a separator, such as
      `/Users/alice` or `Library/Caches`. */
  predicate PlainPath(p: string) {
    p != [] && p[|p| - 1] != '/'
  }

  /** A single directory-entry name: non-empty and free of separators. */
  predicate EntryName(n: string) {
    n != [] && '/' !in n
  }

  /** Drops trailing separators, keeping a lone "/" (what filepath.Clean does at the end of a path). */
  function TrimTrailingSlash(p: string): string
    decreases |p|
  {
    if |p| > 1 && p[|p| - 1] == '/' then TrimTrailingSlash(p[..|p| - 1]) else p
  }

  /** Trimming keeps a prefix of the path, empties only the empty path, and
      leaves no trailing separator except on "/". */
  lemma {:induction false} TrimTrailingSlashSpec(p: string)
    ensures TrimTrailingSlash(p) <= p
    ensures p != [] ==> TrimTrailingSlash(p) != []
    ensures var r := TrimTrailingSlash(p); r == [] || r == "/" || r[|r| - 1] != '/'
    decreases |p|
  {
    if |p| > 1 && p[|p| - 1] == '/' {
      TrimTrailingSlashSpec(p[..|p| - 1]);
    }
  }

  /** filepath.Join of two elements: empty elements are dropped and the rest
      are joined by exactly one separator, with trailing separators removed. */
  function Join(dir: string, elem: string): string {
    var d := TrimTrailingSlash(dir);
    var e := TrimTrailingSlash(elem);
    if dir == [] then e
    else if elem == [] then d
    else if d == "/" then "/" + e
    else d + "/" + e
  }

  /** Joining a plain element onto anything gives a plain path ending as the
      element does. */
  lemma JoinKeepsPlain(dir: string, elem: string)
    requires PlainPath(elem)
    ensures PlainPath(Join(dir, elem)) && Join(dir, elem)[|Join(dir, elem)| - 1] == elem[|elem| - 1]
  {
  }

  /** Joining a plain directory and an entry name puts one separator between them. */
  lemma JoinEntry(dir: string, name: string)
    requires PlainPath(dir) && EntryName(name)
    ensures Join(dir, name) == dir + "/" + name
    ensures PlainPath(Join(dir, name))
  {
    assert name[|name| - 1] in name;
  }

  /** Joining two plain paths puts exactly one separator between them. */
  lemma JoinPlain(dir: string, elem: string)
    requires PlainPath(dir) && PlainPath(elem)
    ensures Join(dir, elem) == dir + "/" + elem
  {
  }

  /** A joined path ends with the plain element joined onto it. */
  lemma JoinEndsWith(dir: string, elem: string)
    requires PlainPath(elem)
    ensures |Join(dir, elem)| >= |elem|
    ensures Join(dir, elem)[|Join(dir, elem)| - |elem|..] == elem
  {
    assert TrimTrailingSlash(elem) == elem;
  }

  /** Strips every trailing separator (the first loop of filepath.Base). */
  function StripSlashes(p: string): (r: string)
    ensures r <= p
    ensures r == [] || r[|r| - 1] != '/'
    decreases |p|
  {
    if p != [] && p[|p| - 1] == '/' then StripSlashes(p[..|p| - 1]) else p
  }

  /** Everything after the last separator of `p`. */
  function LastElement(p: string): (r: string)
    ensures '/' !in r
    decreases |p|
  {
    if p == [] || p[|p| - 1] == '/' then [] else LastElement(p[..|p| - 1]) + [p[|p| - 1]]
  }

  /** filepath.Base: the last element of the path; "." for the empty path and
      "/" for a path made only of separators. */
  function Base(p: string): (r: string)
    ensures r != []
  {
    if p == [] then "."
    else
      var q := StripSlashes(p);
      if q == [] then "/" else
        assert q[|q| - 1] != '/';
        LastElement(q)
  }

  /** A name without separators is its own last element. */
  lemma {:induction false} LastElementOfName(prefix: string, name: string)
    requires '/' !in name
    ensures LastElement(prefix + "/" + name) == name
    decreases |name|
  {
    var p := prefix + "/" + name;
    if name == [] {
      assert p[|p| - 1] == '/';
    } else {
      assert p[..|p| - 1] == prefix + "/" + name[..|name| - 1];
      assert name[|name| - 1] in name;
      LastElementOfName(prefix, name[..|name| - 1]);
      assert name[..|name| - 1] + [name[|name| - 1]] == name;
    }
  }

  /** The base name of `dir/name` is `name`, whatever `dir` is. */
  lemma BaseOfEntry(dir: string, name: string)
    requires EntryName(name)
    ensures Base(dir + "/" + name) == name
  {
    var p := dir + "/" + name;
    assert name[|name| - 1] in name;
    assert StripSlashes(p) == p;
    LastElementOfName(dir, name);
  }

  /** The base name of an entry name is the name itself. */
  lemma {:induction false} BaseOfName(name: string)
    requires EntryName(name)
    ensures Base(name) == name
  {
    assert name[|name| - 1] in name;
    assert StripSlashes(name) == name;
    LastElementOfBareName(name);
  }

  lemma {:induction false} LastElementOfBareName(name: string)
    requires '/' !in name
    ensures LastElement(name) == name
    decreases |name|
  {
    if name != [] {
      assert name[|name| - 1] in name;
      assert forall c :: c in name[..|name| - 1] ==> c in name;
      LastElementOfBareName(name[..|name| - 1]);
      assert name[..|name| - 1] + [name[|name| - 1]] == name;
    }
  }

  /** The base name of a path is ".", "/" or a single entry name, and taking
      the base name again changes nothing. */
  lemma BaseIdempotent(p: string)
    ensures Base(p) == "." || Base(p) == "/" || EntryName(Base(p))
    ensures Base(Base(p)) == Base(p)
  {
    BaseOfName(".");
    assert StripSlashes("/") == StripSlashes("");
    if p != [] {
      var q := StripSlashes(p);
      if q != [] {
        assert LastElement(q) == LastElement(q[..|q| - 1]) + [q[|q| - 1]];
        BaseOfName(LastElement(q));
      }
    }
  }

  /** Length of the leading run of non-separator characters. */
  function SegmentLength(p: string): (n: nat)
    ensures n <= |p|
    ensures forall i :: 0 <= i < n ==> p[i] != '/'
    ensures n < |p| ==> p[n] == '/'
    decreases |p|
  {
    if p == [] || p[0] == '/' then 0 else 1 + SegmentLength(p[1..])
  }

  /** The elements a path is resolved through: the path split at its
      separators, empty elements dropped ("/a//b/" gives ["a", "b"]);
      "." and ".." are kept, for the resolution to interpret. */
  function Components(p: string): (r: seq<string>)
    decreases |p|
  {
    if p == [] then []
    else if p[0] == '/' then Components(p[1..])
    else
      var n := SegmentLength(p);
      [p[..n]] + Components(p[n..])
  }

  /** Every component of a path is an entry name. */
  lemma {:induction false} ComponentsAreNames(p: string)
    ensures forall c :: c in Components(p) ==> EntryName(c)
    decreases |p|
  {
    if p != [] {
      if p[0] == '/' {
        ComponentsAreNames(p[1..]);
      } else {
        var n := SegmentLength(p);
        assert forall c :: c in p[..n] ==> c != '/';
        ComponentsAreNames(p[n..]);
      }
    }
  }

  /** The length of a segment is the length of the name it starts with. */
  lemma {:induction false} SegmentOfName(name: string, rest: string)
    requires '/' !in name && (rest == [] || rest[0] == '/')
    ensures SegmentLength(name + rest) == |name|
    decreases |name|
  {
    if name != [] {
      assert (name + rest)[0] == name[0] && (name + rest)[1..] == name[1..] + rest;
      SegmentOfName(name[1..], rest);
    } else {
      assert name + rest == rest;
    }
  }

  /** A separator followed by a name, then a path beginning at a separator
      (or nothing), splits into that name followed by the elements of the rest. */
  lemma ComponentsOfAbsolute(head: string, rest: string)
    requires |head| >= 2 && head[0] == '/' && '/' !in head[1..] && (rest == [] || rest[0] == '/')
    ensures Components(head + rest) == [head[1..]] + Components(rest)
  {
    var p := head + rest;
    assert p[1..] == head[1..] + rest;
    SegmentOfName(head[1..], rest);
    assert (head[1..] + rest)[..|head| - 1] == head[1..] && (head[1..] + rest)[|head| - 1..] == rest;
  }

  /** The text of an absolute path with the given elements: a separator
      before each of them. */
  function Rendered(names: seq<string>): string
    decreases |names|
  {
    if names == [] then [] else "/" + names[0] + Rendered(names[1..])
  }

  /** An absolute path in canonical form: it starts with a separator and has
      no empty element (no "//") and no trailing separator. */
  predicate CleanAbsolute(p: string) {
    && |p| >= 2 && p[0] == '/' && p[|p| - 1] != '/'
    && forall k | 0 <= k < |p| - 1 :: !DoubleSlashAt(p, k)
  }

  /** Two separators in a row start at index `k`: an empty element. */
  predicate DoubleSlashAt(p: string, k: int)
    requires 0 <= k < |p| - 1
  {
    p[k] == '/' && p[k + 1] == '/'
  }

  /** Rendering distributes over concatenation of element lists. */
  lemma {:induction false} RenderedConcat(a: seq<string>, b: seq<string>)
    ensures Rendered(a + b) == Rendered(a) + Rendered(b)
    decreases |a|
  {
    if a == [] {
      assert a + b == b;
    } else {
      assert (a + b)[0] == a[0] && (a + b)[1..] == a[1..] + b;
      RenderedConcat(a[1..], b);
    }
  }

  /** A canonical absolute path is the rendering of its own elements, so
      its elements determine its text. */
  lemma {:induction false} CleanRenders(p: string)
    requires CleanAbsolute(p)
    ensures Rendered(Components(p)) == p
    decreases |p|
  {
    var t := p[1..];
    assert t[0] != '/' by { assert !DoubleSlashAt(p, 0); }
    var n := SegmentLength(t);
    var head := p[..n + 1];
    var rest := p[n + 1..];
    assert Components(p) == [head[1..]] + Components(rest) by {
      assert head[1..] == t[..n] && p == head + rest;
      ComponentsOfAbsolute(head, rest);
    }
    assert Rendered(Components(rest)) == rest by {
      if rest != [] {
        CleanSuffix(p, n + 1);
        CleanRenders(rest);
      }
    }
    assert ([head[1..]] + Components(rest))[1..] == Components(rest);
    assert p == "/" + head[1..] + rest;
  }

  /** The part of a canonical path from one of its separators on is canonical. */
  lemma CleanSuffix(p: string, i: int)
    requires CleanAbsolute(p) && 0 < i < |p| && p[i] == '/'
    ensures CleanAbsolute(p[i..])
  {
    var rest := p[i..];
    forall k | 0 <= k < |rest| - 1 ensures !DoubleSlashAt(rest, k) {
      assert rest[k] == p[i + k] && rest[k + 1] == p[i + k + 1] && !DoubleSlashAt(p, i + k);
    }
  }

  /** A canonical path followed by a separator and an entry name is canonical. */
  lemma CleanJoin(dir: string, name: string)
    requires CleanAbsolute(dir) && EntryName(name)
    ensures CleanAbsolute(dir + "/" + name)
  {
    var j := dir + "/" + name;
    forall k | 0 <= k < |j| - 1 ensures !DoubleSlashAt(j, k) {
      if k < |dir| - 1 {
        assert j[k] == dir[k] && j[k + 1] == dir[k + 1] && !DoubleSlashAt(dir, k);
      } else if k == |dir| - 1 {
        assert j[k] == dir[k];
      } else {
        assert j[k + 1] == name[k - |dir|] && name[k - |dir|] in name;
      }
    }
    assert j[|j| - 1] == name[|name| - 1] && name[|name| - 1] in name;
  }

  /** For canonical paths, an element-wise prefix is a textual prefix. */
  lemma CleanPrefixIsTextPrefix(q: string, p: string)
    requires CleanAbsolute(q) && CleanAbsolute(p) && Components(q) <= Components(p)
    ensures q <= p
  {
    var cq := Components(q);
    var cp := Components(p);
    assert cp == cq + cp[|cq|..];
    CleanRenders(q);
    CleanRenders(p);
    RenderedConcat(cq, cp[|cq|..]);
    assert p == q + Rendered(cp[|cq|..]);
  }

  /** Only a path made of separators alone resolves to the root. */
  lemma {:induction false} ComponentsOfNonSlash(p: string, i: int)
    requires 0 <= i < |p| && p[i] != '/'
    ensures Components(p) != []
    decreases |p|
  {
    if p[0] == '/' {
      ComponentsOfNonSlash(p[1..], i - 1);
    }
  }

  /** filepath.Match for patterns built from literal characters, `*` (any run
      of non-separator characters) and `?` (one non-separator character).
      Character classes and escapes are not modelled: a pattern holding `[`
      or a backslash matches nothing. */
  function GlobMatch(pattern: string, name: string): bool {
    if '[' in pattern || '\\' in pattern then false else WildcardMatch(pattern, name)
  }

  function WildcardMatch(pattern: string, name: string): bool
    decreases |pattern| + |name|
  {
    if pattern == [] then name == []
    else if pattern[0] == '*' then
      WildcardMatch(pattern[1..], name) || (name != [] && name[0] != '/' && WildcardMatch(pattern, name[1..]))
    else if pattern[0] == '?' then
      name != [] && name[0] != '/' && WildcardMatch(pattern[1..], name[1..])
    else
      name != [] && name[0] == pattern[0] && WildcardMatch(pattern[1..], name[1..])
  }

  /** A pattern without wildcards matches exactly the name it spells. */
  lemma {:induction false} LiteralPatternMatchesItself(pattern: string, name: string)
    requires '*' !in pattern && '?' !in pattern
    ensures WildcardMatch(pattern, name) <==> name == pattern
    decreases |pattern|
  {
    if pattern != [] {
      assert forall c :: c in pattern[1..] ==> c in pattern;
      LiteralPatternMatchesItself(pattern[1..], if name == [] then [] else name[1..]);
      if name != [] && name[0] == pattern[0] && name[1..] == pattern[1..] {
        assert name == [name[0]] + name[1..];
        assert pattern == [pattern[0]] + pattern[1..];
      }
    }
  }

  /** A pattern `*` followed by literal text matches every name made of
      separator-free text followed by that literal text. */
  lemma {:induction false} StarThenLiteral(prefix: string, suffix: string)
    requires '/' !in prefix && '*' !in suffix && '?' !in suffix
    ensures WildcardMatch("*" + suffix, prefix + suffix)
    decreases |prefix|
  {
    assert ("*" + suffix)[1..] == suffix;
    if prefix == [] {
      LiteralPatternMatchesItself(suffix, suffix);
      assert prefix + suffix == suffix && ("*" + suffix)[0] == '*';
    } else {
      assert prefix[0] in prefix;
      assert forall c :: c in prefix[1..] ==> c in prefix;
      StarThenLiteral(prefix[1..], suffix);
      var name := prefix + suffix;
      assert name[1..] == prefix[1..] + suffix && name[0] == prefix[0];
      assert WildcardMatch("*" + suffix, name[1..]);
    }
  }
}
