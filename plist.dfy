/** AppFinder.ParseBundleID: reading an app's bundle identifier out of its
    Info.plist by plain text search rather than XML parsing. */
module Plist {
  import opened Wrappers
  import opened GoStrings

  const BundleIdKey: string := "<key>CFBundleIdentifier</key>"
  const StringOpen: string := "<string>"
  const StringClose: string := "</string>"

  /** The ways ParseBundleID fails, one per error return of the source. */
  datatype PlistError =
    | InfoPlistNotFound   // Contents/Info.plist is missing or cannot be read
    | BundleIdNotFound    // no CFBundleIdentifier key anywhere in the text
    | ValueNotFound       // no <string> at or after the key
    | ValueNotTerminated  // no </string> after that <string>
    | EmptyBundleId       // the text between the tags is empty

  /** The bundle identifier in the text of an Info.plist, or None when the
      file is missing or unreadable. */
  function ParseBundleID(content: Option<string>): (r: Result<string, PlistError>)
    ensures content.None? <==> r == Err(InfoPlistNotFound)
    ensures content.Some? ==> (!Contains(content.value, BundleIdKey) <==> r == Err(BundleIdNotFound))
    ensures content.Some? && IndexOf(content.value, BundleIdKey) >= 0 ==>
      var text := content.value;
      var o := IndexFrom(text, StringOpen, IndexOf(text, BundleIdKey));
      && (r == Err(ValueNotFound) <==> forall j :: IndexOf(text, BundleIdKey) <= j ==> !OccursAt(text, StringOpen, j))
      && (r == Err(ValueNotTerminated) <==> o != -1 && forall j :: o + |StringOpen| <= j ==> !OccursAt(text, StringClose, j))
      && (r == Err(EmptyBundleId) <==> o != -1 && OccursAt(text, StringClose, o + |StringOpen|))
      && (r.Ok? ==> o != -1 && ValueAt(text, o + |StringOpen|, r.value, StringClose))
    ensures r.Ok? ==> r.value != [] && !Contains(r.value, StringClose)
    ensures r.Ok? ==> Contains(content.value, StringOpen + r.value + StringClose)
  {
    match content
    case None => Err(InfoPlistNotFound)
    case Some(text) => ValueAfterKey(text, BundleIdKey, StringOpen, StringClose)
  }

  /** `v` starts at `start` and is followed by the first `close` from `start` on. */
  predicate ValueAt(text: string, start: nat, v: string, close: string) {
    && start + |v| <= |text| && text[start..start + |v|] == v
    && OccursAt(text, close, start + |v|)
    && forall j :: start <= j < start + |v| ==> !OccursAt(text, close, j)
  }

  /** The text search ParseBundleID performs, over any key and tag pair: the
      first `key`, the first `open` from there on (the key included) and the
      first `close` after that; the text between the tags is returned as is.
      Each search of a suffix `text[i:]` is IndexFrom(text, _, i). */
  function ValueAfterKey(text: string, key: string, open: string, close: string): (r: Result<string, PlistError>)
    requires close != []
    ensures !Contains(text, key) <==> r == Err(BundleIdNotFound)
    ensures r != Err(InfoPlistNotFound)
    ensures IndexOf(text, key) >= 0 ==>
      var o := IndexFrom(text, open, IndexOf(text, key));
      && (r == Err(ValueNotFound) <==> forall j :: IndexOf(text, key) <= j ==> !OccursAt(text, open, j))
      && (r == Err(ValueNotTerminated) <==> o != -1 && forall j :: o + |open| <= j ==> !OccursAt(text, close, j))
      && (r == Err(EmptyBundleId) <==> o != -1 && OccursAt(text, close, o + |open|))
      && (r.Ok? ==> o != -1 && ValueAt(text, o + |open|, r.value, close))
    ensures r.Ok? ==> r.value != [] && !Contains(r.value, close)
    ensures r.Ok? ==> Contains(text, open + r.value + close)
  {
    var keyAt := IndexOf(text, key);
    IndexOfSpec(text, key);
    if keyAt == -1 then Err(BundleIdNotFound) else ValueFrom(text, keyAt, open, close)
  }

  /** The part of the search after the key was found at `keyAt`: the first
      `open` from there on. */
  function ValueFrom(text: string, keyAt: nat, open: string, close: string): (r: Result<string, PlistError>)
    requires close != [] && keyAt <= |text|
    ensures r != Err(BundleIdNotFound) && r != Err(InfoPlistNotFound)
    ensures r == Err(ValueNotFound) <==> forall j :: keyAt <= j ==> !OccursAt(text, open, j)
    ensures var o := IndexFrom(text, open, keyAt);
      && (r == Err(ValueNotTerminated) <==> o != -1 && forall j :: o + |open| <= j ==> !OccursAt(text, close, j))
      && (r == Err(EmptyBundleId) <==> o != -1 && OccursAt(text, close, o + |open|))
      && (r.Ok? ==> o != -1 && ValueAt(text, o + |open|, r.value, close))
    ensures r.Ok? ==> r.value != [] && !Contains(r.value, close)
    ensures r.Ok? ==> Contains(text, open + r.value + close)
  {
    var openAt := IndexFrom(text, open, keyAt);
    IndexFromSpec(text, open, keyAt);
    if openAt == -1 then Err(ValueNotFound)
    else
      ValueBeforeSpec(text, openAt, open, close);
      ValueBefore(text, openAt, open, close)
  }

  /** The last part of the search: the first `close` after the `open` found
      at `openAt`, and the text between them. */
  function ValueBefore(text: string, openAt: nat, open: string, close: string): (r: Result<string, PlistError>)
    requires close != [] && OccursAt(text, open, openAt)
    ensures r != Err(BundleIdNotFound) && r != Err(InfoPlistNotFound) && r != Err(ValueNotFound)
    ensures r.Ok? ==> r.value != [] && !Contains(r.value, close)
    ensures r.Ok? ==> Contains(text, open + r.value + close)
  {
    var start := openAt + |open|;
    var closeAt := IndexFrom(text, close, start);
    if closeAt == -1 then Err(ValueNotTerminated)
    else
      var id := text[start..closeAt];
      if id == [] then Err(EmptyBundleId)
      else
        ValueBetweenTags(text, open, close, openAt, closeAt);
        Ok(id)
  }

  /** The last part of the search fails for want of a closing tag exactly
      when none follows the opening tag, finds an empty value exactly when
      one follows it at once, and otherwise returns the text up to the
      first closing tag. */
  lemma ValueBeforeSpec(text: string, openAt: nat, open: string, close: string)
    requires close != [] && OccursAt(text, open, openAt)
    ensures ValueBefore(text, openAt, open, close) == Err(ValueNotTerminated) <==>
      forall j :: openAt + |open| <= j ==> !OccursAt(text, close, j)
    ensures ValueBefore(text, openAt, open, close) == Err(EmptyBundleId) <==> OccursAt(text, close, openAt + |open|)
    ensures ValueBefore(text, openAt, open, close).Ok? ==>
      ValueAt(text, openAt + |open|, ValueBefore(text, openAt, open, close).value, close)
  {
    IndexFromSpec(text, close, openAt + |open|);
  }

  /** The value found between the tags holds no closing tag and sits right
      between them. */
  lemma ValueBetweenTags(text: string, open: string, close: string, openAt: int, closeAt: int)
    requires close != [] && OccursAt(text, open, openAt)
    requires closeAt == IndexFrom(text, close, openAt + |open|) != -1
    ensures !Contains(text[openAt + |open|..closeAt], close)
    ensures Contains(text, open + text[openAt + |open|..closeAt] + close)
  {
    var start := openAt + |open|;
    var id := text[start..closeAt];
    IndexFromSpec(text, close, start);
    PrefixBeforeFirstOccurrence(text, close, start, closeAt);
    assert OccursAt(text, id, start);
    AdjacentOccurrences(text, open, id, close, openAt);
  }

  lemma BundleIdKeyOverlapFree()
    ensures SelfOverlapFree(BundleIdKey)
  {
    var m := BundleIdKey;
    // The shifts are checked from the last down, four at a time.
    assert HeadsDifferFrom(m, 26);
    assert HeadsDifferFrom(m, 22);
    assert HeadsDifferFrom(m, 18);
    assert HeadsDifferFrom(m, 14);
    assert HeadsDifferFrom(m, 10);
    assert HeadsDifferFrom(m, 6);
    assert HeadsDifferFrom(m, 2);
    assert HeadsDifferFrom(m, 1);
    HeadsDifferNoBorder(m, 1);
  }

  lemma StringTagsOverlapFree()
    ensures SelfOverlapFree(StringOpen) && SelfOverlapFree(StringClose)
  {
    forall d | 0 < d < |StringOpen| ensures StringOpen[d..] != StringOpen[..|StringOpen| - d] {
      assert StringOpen[d..][0] == StringOpen[d];
    }
    forall d | 0 < d < |StringClose| ensures StringClose[d..] != StringClose[..|StringClose| - d] {
      assert StringClose[d..][0] == StringClose[d];
    }
  }

  /** A <string> tag cannot start inside the key: the key holds no 's' and
      does not end in '<'. */
  lemma {:induction false} NoOpenTagAcrossKey(w: string)
    requires !Contains(w, StringOpen)
    ensures !Contains(BundleIdKey + w, StringOpen)
  {
    var s := BundleIdKey + w;
    KeyShape();
    forall i | 0 <= i <= |s| - |StringOpen| ensures !OccursAt(s, StringOpen, i) {
      if i + 1 < |BundleIdKey| {
        assert s[i + 1] == BundleIdKey[i + 1] && StringOpen[1] == 's';
      } else if i + 1 == |BundleIdKey| {
        assert s[i] == '>' != StringOpen[0];
      } else {
        assert !OccursAt(w, StringOpen, i - |BundleIdKey|);
        assert forall q | |BundleIdKey| <= q < |s| :: s[q] == w[q - |BundleIdKey|];
      }
    }
  }

  /** The key holds no 's' and ends in '>'. */
  lemma KeyShape()
    ensures Lacks(BundleIdKey, 's') && BundleIdKey[|BundleIdKey| - 1] == '>'
  {
  }

  /** An occurrence lying wholly inside a segment of the text is an
      occurrence in the segment; so a segment lacking `m` holds none. */
  lemma NoneInSegment(text: string, seg: string, at: int, m: string)
    requires OccursAt(text, seg, at) && !Contains(seg, m)
    ensures forall j :: at <= j && j + |m| <= at + |seg| ==> !OccursAt(text, m, j)
  {
    forall j | at <= j && j + |m| <= at + |seg| ensures !OccursAt(text, m, j) {
      assert !OccursAt(seg, m, j - at);
      assert forall k | 0 <= k < |seg| :: text[at + k] == seg[k];
    }
  }

  /** The search over a text laid out as before, key, between, open, v,
      close: it finds v. */
  lemma {:induction false} SearchFindsValue(text: string, before: string, key: string, between: string,
                                            open: string, v: string, close: string)
    requires SelfOverlapFree(key) && SelfOverlapFree(open) && SelfOverlapFree(close) && close != []
    requires !Contains(before, key) && !Contains(key + between, open)
    requires v != [] && !Contains(v, close)
    requires OccursAt(text, before, 0)
    requires OccursAt(text, key, |before|) && OccursAt(text, key + between, |before|)
    requires OccursAt(text, open, |before| + |key| + |between|)
    requires OccursAt(text, v, |before| + |key| + |between| + |open|)
    requires OccursAt(text, close, |before| + |key| + |between| + |open| + |v|)
    ensures ValueAfterKey(text, key, open, close) == Ok(v)
  {
    var keyAt := |before|;
    var openAt := keyAt + |key| + |between|;
    var start := openAt + |open|;
    NoneInSegment(text, before, 0, key);
    FirstOccurrenceAt(text, key, 0, keyAt);
    NoneInSegment(text, key + between, keyAt, open);
    FirstOccurrenceAt(text, open, keyAt, openAt);
    NoneInSegment(text, v, start, close);
    FirstOccurrenceAt(text, close, start, start + |v|);
    assert text[start..start + |v|] == v;
  }

  /** Where the parts of a round-trip text sit. */
  lemma RoundTripLayout(before: string, between: string, v: string, after: string)
    ensures var text := before + BundleIdKey + between + StringOpen + v + StringClose + after;
            var keyAt := |before|;
            var openAt := keyAt + |BundleIdKey| + |between|;
            var start := openAt + |StringOpen|;
            && OccursAt(text, before, 0)
            && OccursAt(text, BundleIdKey, keyAt) && OccursAt(text, BundleIdKey + between, keyAt)
            && OccursAt(text, StringOpen, openAt)
            && OccursAt(text, v, start)
            && OccursAt(text, StringClose, start + |v|)
  {
    var text := before + BundleIdKey + between + StringOpen + v + StringClose + after;
    var keyAt := |before|;
    var openAt := keyAt + |BundleIdKey| + |between|;
    var start := openAt + |StringOpen|;
    assert text == before + (BundleIdKey + between) + (StringOpen + v + StringClose + after);
    assert text == (before + BundleIdKey + between) + StringOpen + (v + StringClose + after);
    assert text == (before + BundleIdKey + between + StringOpen) + v + (StringClose + after);
    assert text == (before + BundleIdKey + between + StringOpen + v) + StringClose + after;
    ContainsInfix(before, BundleIdKey + between, StringOpen + v + StringClose + after);
    assert OccursAt(text, BundleIdKey + between, keyAt);
    assert OccursAt(text, BundleIdKey, keyAt);
    assert OccursAt(text, StringOpen, openAt);
    assert OccursAt(text, v, start);
    assert OccursAt(text, StringClose, start + |v|);
  }

  /** Round trip: an Info.plist whose first CFBundleIdentifier key is
      followed, after text holding no <string> tag, by <string>v</string>
      yields v, for every non-empty v without a closing tag. */
  lemma ParseRoundTrip(before: string, between: string, v: string, after: string)
    requires !Contains(before, BundleIdKey)
    requires !Contains(between, StringOpen)
    requires v != [] && !Contains(v, StringClose)
    ensures ParseBundleID(Some(before + BundleIdKey + between + StringOpen + v + StringClose + after)) == Ok(v)
  {
    BundleIdKeyOverlapFree();
    StringTagsOverlapFree();
    NoOpenTagAcrossKey(between);
    RoundTripLayout(before, between, v, after);
    SearchFindsValue(before + BundleIdKey + between + StringOpen + v + StringClose + after,
                     before, BundleIdKey, between, StringOpen, v, StringClose);
  }

  /** No <string> tag starts inside an occurrence of the key. */
  lemma NoOpenTagInKey(text: string, k: int)
    requires OccursAt(text, BundleIdKey, k)
    ensures forall o :: k <= o < k + |BundleIdKey| ==> !OccursAt(text, StringOpen, o)
  {
    KeyShape();
    forall o | k <= o < k + |BundleIdKey| ensures !OccursAt(text, StringOpen, o) {
      assert StringOpen[0] == '<' && StringOpen[1] == 's';
      if o + 1 < k + |BundleIdKey| {
        assert text[k + (o + 1 - k)] == BundleIdKey[o + 1 - k] != 's';
      } else {
        assert text[k + (|BundleIdKey| - 1)] == BundleIdKey[|BundleIdKey| - 1] == '>';
      }
    }
  }

  /** An occurrence is the slice of the text it covers. */
  lemma OccurrenceSlice(text: string, sub: string, i: int)
    requires OccursAt(text, sub, i)
    ensures text[i..i + |sub|] == sub
  {
  }

  /** A text cut at six increasing positions is the concatenation of its seven pieces. */
  lemma SevenPieces(text: string, k: int, m: int, o: int, s: int, c: int, e: int)
    requires 0 <= k <= m <= o <= s <= c <= e <= |text|
    ensures text == text[..k] + text[k..m] + text[m..o] + text[o..s] + text[s..c] + text[c..e] + text[e..]
  {
    assert text[..m] == text[..k] + text[k..m];
    assert text[..o] == text[..m] + text[m..o];
    assert text[..s] == text[..o] + text[o..s];
    assert text[..c] == text[..s] + text[s..c];
    assert text[..e] == text[..c] + text[c..e];
    assert text == text[..e] + text[e..];
  }

  /** The converse of ParseRoundTrip: every text ParseBundleID accepts is
      laid out as text holding no key, the key, text holding no <string>
      tag, then <string>, the value, </string> and anything else. */
  lemma ParseDecomposes(text: string) returns (before: string, between: string, after: string)
    requires ParseBundleID(Some(text)).Ok?
    ensures text == before + BundleIdKey + between + StringOpen + ParseBundleID(Some(text)).value + StringClose + after
    ensures !Contains(before, BundleIdKey) && !Contains(between, StringOpen)
  {
    var v := ParseBundleID(Some(text)).value;
    var k, o := FirstTags(text);
    TagLayout(text, k, o, v);
    before, between, after := text[..k], text[k + |BundleIdKey|..o], text[o + |StringOpen| + |v| + |StringClose|..];
  }

  /** The text around a key at `k`, a <string> tag at `o` and the value `v`
      that the first </string> ends. */
  lemma TagLayout(text: string, k: nat, o: nat, v: string)
    requires OccursAt(text, BundleIdKey, k) && k + |BundleIdKey| <= o && OccursAt(text, StringOpen, o)
    requires ValueAt(text, o + |StringOpen|, v, StringClose)
    ensures text == text[..k] + BundleIdKey + text[k + |BundleIdKey|..o] + StringOpen + v + StringClose
                    + text[o + |StringOpen| + |v| + |StringClose|..]
  {
    var m := k + |BundleIdKey|;
    var s := o + |StringOpen|;
    var c := s + |v|;
    var e := c + |StringClose|;
    OccurrenceSlice(text, BundleIdKey, k);
    OccurrenceSlice(text, StringOpen, o);
    OccurrenceSlice(text, StringClose, c);
    Reassemble(text, k, m, o, s, c, e, BundleIdKey, StringOpen, v, StringClose);
  }

  /** A text cut into seven pieces, four of them known, is those pieces in order. */
  lemma Reassemble(text: string, k: int, m: int, o: int, s: int, c: int, e: int,
                   key: string, open: string, v: string, close: string)
    requires 0 <= k <= m <= o <= s <= c <= e <= |text|
    requires text[k..m] == key && text[o..s] == open && text[s..c] == v && text[c..e] == close
    ensures text == text[..k] + key + text[m..o] + open + v + close + text[e..]
  {
    SevenPieces(text, k, m, o, s, c, e);
  }

  /** Where the search of an accepted text finds its key and its <string>
      tag, and what lies before each. */
  lemma FirstTags(text: string) returns (k: nat, o: nat)
    requires ParseBundleID(Some(text)).Ok?
    ensures OccursAt(text, BundleIdKey, k) && !Contains(text[..k], BundleIdKey)
    ensures k + |BundleIdKey| <= o && OccursAt(text, StringOpen, o)
    ensures !Contains(text[k + |BundleIdKey|..o], StringOpen)
    ensures ValueAt(text, o + |StringOpen|, ParseBundleID(Some(text)).value, StringClose)
  {
    IndexOfSpec(text, BundleIdKey);
    k := IndexOf(text, BundleIdKey);
    o := IndexFrom(text, StringOpen, k);
    IndexFromSpec(text, StringOpen, k);
    NoOpenTagInKey(text, k);
    PrefixBeforeFirstOccurrence(text, BundleIdKey, 0, k);
    assert text[..k] == text[0..k];
    PrefixBeforeFirstOccurrence(text, StringOpen, k + |BundleIdKey|, o);
  }

  /** The first key of `before + key + rest` is the one after `before`. */
  lemma {:induction false} FirstKeyAfter(before: string, key: string, rest: string)
    requires SelfOverlapFree(key) && !Contains(before, key)
    ensures IndexOf(before + (key + rest), key) == |before|
    ensures IndexOf(key + rest, key) == 0
  {
    var text := before + (key + rest);
    assert OccursAt(text, before, 0);
    assert OccursAt(text, key, |before|) by {
      assert forall q | 0 <= q < |key| :: text[|before| + q] == key[q];
    }
    NoneInSegment(text, before, 0, key);
    FirstOccurrenceAt(text, key, 0, |before|);
    assert OccursAt(key + rest, key, 0);
  }

  /** Texts that agree from their first key on give the same result. */
  lemma {:induction false} SameSearchFromKey(p: string, t: string, key: string, open: string, close: string)
    requires close != [] && IndexOf(p + t, key) == |p| && IndexOf(t, key) == 0
    ensures ValueAfterKey(p + t, key, open, close) == ValueAfterKey(t, key, open, close)
  {
    ValueFromAfterPrefix(p, t, open, close);
  }

  /** The search after the key sees only the text from the key on. */
  lemma {:induction false} ValueFromAfterPrefix(p: string, t: string, open: string, close: string)
    requires close != []
    ensures ValueFrom(p + t, |p|, open, close) == ValueFrom(t, 0, open, close)
  {
    IndexFromAfterPrefix(p, t, open, 0);
    var openAt := IndexFrom(t, open, 0);
    if openAt != -1 {
      IndexFromSpec(t, open, 0);
      IndexFromSpec(p + t, open, |p|);
      ValueBeforeAfterPrefix(p, t, openAt, open, close);
    }
  }

  lemma {:induction false} ValueBeforeAfterPrefix(p: string, t: string, openAt: nat, open: string, close: string)
    requires close != [] && OccursAt(t, open, openAt) && OccursAt(p + t, open, |p| + openAt)
    ensures ValueBefore(p + t, |p| + openAt, open, close) == ValueBefore(t, openAt, open, close)
  {
    IndexFromAfterPrefix(p, t, close, openAt + |open|);
    var closeAt := IndexFrom(t, close, openAt + |open|);
    if closeAt != -1 {
      assert (p + t)[|p| + openAt + |open|..|p| + closeAt] == t[openAt + |open|..closeAt];
    }
  }

  /** Only the first CFBundleIdentifier key is consulted: whatever precedes
      it is irrelevant, and later keys are never looked at. */
  lemma OnlyFirstKeyConsulted(before: string, rest: string)
    requires !Contains(before, BundleIdKey)
    ensures ParseBundleID(Some(before + BundleIdKey + rest)) == ParseBundleID(Some(BundleIdKey + rest))
  {
    BundleIdKeyOverlapFree();
    FirstKeyAfter(before, BundleIdKey, rest);
    SameSearchFromKey(before, BundleIdKey + rest, BundleIdKey, StringOpen, StringClose);
    assert before + BundleIdKey + rest == before + (BundleIdKey + rest);
  }

  // The Info.plist fixtures of the finder's tests, cut into pieces short
  // enough for the character checks below.
  const FixtureProlog: string := "<?xml version=\"1.0\" encoding=\"UTF-8\"?>\n"
  const FixtureDoctypeName: string := "<!DOCTYPE plist PUBLIC \"-//Apple//"
  const FixtureDoctypeId: string := "DTD PLIST 1.0//EN\" \"http://"
  const FixtureDoctypeUrl: string := "www.apple.com/DTDs/PropertyList-1.0.dtd\">\n"
  const FixtureDictStart: string := "<plist version=\"1.0\">\n<dict>\n\t"
  /** Everything the well-formed fixtures hold before their first dict entry. */
  const FixtureHeader: string :=
    FixtureProlog + FixtureDoctypeName + FixtureDoctypeId + FixtureDoctypeUrl + FixtureDictStart
  const FixtureNameEntry: string := "<key>CFBundleName</key>\n\t"
  const FixtureNameValue: string := "<string>TestApp</string>\n"
  const FixtureOtherEntry: string := "\t<key>SomeOtherKey</key>\n\t"
  const FixtureOtherValue: string := "<string>SomeValue</string>\n"
  const FixtureDictEnd: string := "</dict>\n</plist>"
  /** What the "Missing Bundle ID" fixture holds after its header. */
  const FixtureOtherEntries: string :=
    FixtureNameEntry + FixtureNameValue + FixtureOtherEntry + FixtureOtherValue + FixtureDictEnd
  /** What the valid fixture holds after its bundle identifier. */
  const FixtureValidTail: string := "\n\t" + FixtureNameEntry + FixtureNameValue + FixtureDictEnd
  const FixtureProse1: string := "This is not valid XML content at all.\n"
  const FixtureProse2: string := "It should cause an error when parsing."

  /** The character `c` does not occur in `s`. */
  predicate Lacks(s: string, c: char) {
    forall i | 0 <= i < |s| :: s[i] != c
  }

  lemma {:induction false} LacksConcat(a: string, b: string, c: char)
    requires Lacks(a, c) && Lacks(b, c)
    ensures Lacks(a + b, c)
  {
    assert forall i | |a| <= i < |a + b| :: (a + b)[i] == b[i - |a|];
  }

  /** A text made of pieces that all lack `c` lacks `c`. */
  lemma HeaderLacks(c: char)
    requires Lacks(FixtureProlog, c) && Lacks(FixtureDoctypeName, c) && Lacks(FixtureDoctypeId, c)
    requires Lacks(FixtureDoctypeUrl, c) && Lacks(FixtureDictStart, c)
    ensures Lacks(FixtureHeader, c)
  {
    LacksConcat(FixtureProlog, FixtureDoctypeName, c);
    LacksConcat(FixtureProlog + FixtureDoctypeName, FixtureDoctypeId, c);
    LacksConcat(FixtureProlog + FixtureDoctypeName + FixtureDoctypeId, FixtureDoctypeUrl, c);
    LacksConcat(FixtureProlog + FixtureDoctypeName + FixtureDoctypeId + FixtureDoctypeUrl, FixtureDictStart, c);
  }

  lemma HeaderLacksK()
    ensures Lacks(FixtureHeader, 'k')
  {
    PrologLacks();
    DoctypeLacks();
    DictStartLacks();
    HeaderLacks('k');
  }

  lemma HeaderLacksF()
    ensures Lacks(FixtureHeader, 'f')
  {
    PrologLacks();
    DoctypeLacks();
    DictStartLacks();
    HeaderLacks('f');
  }

  lemma PrologLacks()
    ensures Lacks(FixtureProlog, 'k') && Lacks(FixtureProlog, 'f')
  {
  }

  lemma DoctypeLacks()
    ensures Lacks(FixtureDoctypeName, 'k') && Lacks(FixtureDoctypeName, 'f')
    ensures Lacks(FixtureDoctypeId, 'k') && Lacks(FixtureDoctypeId, 'f')
    ensures Lacks(FixtureDoctypeUrl, 'k') && Lacks(FixtureDoctypeUrl, 'f')
  {
    DoctypeNameLacks();
    DoctypeIdLacks();
    DoctypeUrlLacks();
  }

  lemma DoctypeNameLacks()
    ensures Lacks(FixtureDoctypeName, 'k') && Lacks(FixtureDoctypeName, 'f')
  {
  }

  lemma DoctypeIdLacks()
    ensures Lacks(FixtureDoctypeId, 'k') && Lacks(FixtureDoctypeId, 'f')
  {
  }

  lemma DoctypeUrlLacks()
    ensures Lacks(FixtureDoctypeUrl, 'k') && Lacks(FixtureDoctypeUrl, 'f')
  {
  }

  lemma DictStartLacks()
    ensures Lacks(FixtureDictStart, 'k') && Lacks(FixtureDictStart, 'f')
  {
  }

  /** A text lacking a character of the key holds no CFBundleIdentifier key. */
  lemma LacksKey(text: string, at: nat)
    requires at < |BundleIdKey| && Lacks(text, BundleIdKey[at])
    ensures !Contains(text, BundleIdKey)
  {
    MissingCharNotContained(text, BundleIdKey, BundleIdKey[at]);
  }

  /** The "Valid Info.plist" fixture yields com.test.TestApp. */
  lemma ValidInfoPlistCase()
    ensures ParseBundleID(Some(FixtureHeader + BundleIdKey + "\n\t" + StringOpen + "com.test.TestApp" + StringClose
                               + FixtureValidTail))
            == Ok("com.test.TestApp")
  {
    HeaderLacksK();
    LacksKey(FixtureHeader, 1);
    TestIdUnterminated();
    ParseRoundTrip(FixtureHeader, "\n\t", "com.test.TestApp", FixtureValidTail);
  }

  /** The valid fixture's bundle identifier holds no closing tag. */
  lemma TestIdUnterminated()
    ensures !Contains("com.test.TestApp", StringClose)
  {
    var v := "com.test.TestApp";
    assert Lacks(v, '<');
    MissingCharNotContained(v, StringClose, '<');
  }

  /** The "Invalid XML" fixture has no CFBundleIdentifier key and is refused. */
  lemma InvalidXmlCase()
    ensures ParseBundleID(Some(FixtureProlog + FixtureProse1 + FixtureProse2)) == Err(BundleIdNotFound)
  {
    PrologLacks();
    ProseLacksK();
    LacksConcat(FixtureProlog, FixtureProse1, 'k');
    LacksConcat(FixtureProlog + FixtureProse1, FixtureProse2, 'k');
    LacksKey(FixtureProlog + FixtureProse1 + FixtureProse2, 1);
  }

  lemma ProseLacksK()
    ensures Lacks(FixtureProse1, 'k') && Lacks(FixtureProse2, 'k')
  {
  }

  /** The "Missing Bundle ID" fixture, a well-formed plist without the key, is refused. */
  lemma MissingBundleIdCase()
    ensures ParseBundleID(Some(FixtureHeader + FixtureOtherEntries)) == Err(BundleIdNotFound)
  {
    HeaderLacksF();
    MissingBundleIdBodyLacksF();
    LacksConcat(FixtureHeader, FixtureOtherEntries, 'f');
    assert BundleIdKey[19] == 'f';
    LacksKey(FixtureHeader + FixtureOtherEntries, 19);
  }

  lemma MissingBundleIdBodyLacksF()
    ensures Lacks(FixtureOtherEntries, 'f')
  {
    assert Lacks(FixtureNameEntry, 'f') && Lacks(FixtureNameValue, 'f') && Lacks(FixtureOtherEntry, 'f');
    assert Lacks(FixtureOtherValue, 'f') && Lacks(FixtureDictEnd, 'f');
    LacksConcat(FixtureNameEntry, FixtureNameValue, 'f');
    LacksConcat(FixtureNameEntry + FixtureNameValue, FixtureOtherEntry, 'f');
    LacksConcat(FixtureNameEntry + FixtureNameValue + FixtureOtherEntry, FixtureOtherValue, 'f');
    LacksConcat(FixtureNameEntry + FixtureNameValue + FixtureOtherEntry + FixtureOtherValue, FixtureDictEnd, 'f');
  }
}
