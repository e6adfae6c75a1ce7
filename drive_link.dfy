/**
 * The share-link resolver of src/lib/googleDrive.ts.
 *
 * `extractGoogleDriveFileId` tries three regular expressions in a fixed order,
 * `/\/file\/d\/([a-zA-Z0-9_-]+)/`, `/id=([a-zA-Z0-9_-]+)/` and
 * `/\/open\?id=([a-zA-Z0-9_-]+)/`, each with `String.match` (no `g` flag: the
 * leftmost match), and returns the first capture. Each expression is a literal
 * followed by a greedy run of identifier characters, so it matches at the
 * leftmost position where the literal is followed by at least one identifier
 * character, and its capture is the maximal identifier run there.
 */
module DriveLink {
  import opened Wrappers
  import opened Text

  /** The class `[a-zA-Z0-9_-]`. */
  predicate IsIdChar(c: char) { IsUpper(c) || IsLower(c) || IsDigit(c) || c == '_' || c == '-' }

  predicate AllIdChars(s: string) { forall i :: 0 <= i < |s| ==> IsIdChar(s[i]) }

  /** What the capture group `([a-zA-Z0-9_-]+)` can capture. */
  predicate IsFileId(s: string) { |s| >= 1 && AllIdChars(s) }

  const FilePattern: string := "/file/d/"
  const QueryPattern: string := "id="
  const OpenPattern: string := "/open?id="

  /** The patterns in the order the resolver tries them. */
  const Patterns: seq<string> := [FilePattern, QueryPattern, OpenPattern]

  /** The greedy `[a-zA-Z0-9_-]+` run at the start of `s` (empty when there is none). */
  function IdRun(s: string): (r: string)
    ensures |r| <= |s| && r == s[..|r|]
    ensures AllIdChars(r)
    ensures |r| == |s| || !IsIdChar(s[|r|])
  {
    if s != [] && IsIdChar(s[0]) then [s[0]] + IdRun(s[1..]) else []
  }

  /** The expression `lit([a-zA-Z0-9_-]+)` matches `s` at position `k`. */
  predicate MatchesAt(s: string, lit: string, k: nat)
  {
    k + |lit| < |s| && s[k..k + |lit|] == lit && IsIdChar(s[k + |lit|])
  }

  /** The leftmost match position at or after `from`. */
  function Search(s: string, lit: string, from: nat): (r: Option<nat>)
    requires from <= |s|
    decreases |s| - from
    ensures r.Some? ==> from <= r.value && MatchesAt(s, lit, r.value)
    ensures r.Some? ==> forall k :: from <= k < r.value ==> !MatchesAt(s, lit, k)
    ensures r.None? ==> forall k :: from <= k ==> !MatchesAt(s, lit, k)
  {
    if from == |s| then None
    else if MatchesAt(s, lit, from) then Some(from)
    else Search(s, lit, from + 1)
  }

  /** `s.match(/lit([a-zA-Z0-9_-]+)/)`, reduced to its capture `match[1]`. */
  function MatchCapture(s: string, lit: string): Option<string>
  {
    match Search(s, lit, 0)
    case None => None
    case Some(k) => Some(IdRun(s[k + |lit|..]))
  }

  /** The `for (const pattern of patterns)` loop: the first pattern that matches decides. */
  function FirstCapture(s: string, pats: seq<string>): Option<string>
  {
    if pats == [] then None
    else match MatchCapture(s, pats[0])
      case Some(id) => Some(id)
      case None => FirstCapture(s, pats[1..])
  }

  /** `extractGoogleDriveFileId`; `None` stands for `null`. */
  function ExtractFileId(shareUrl: string): Option<string>
  {
    FirstCapture(shareUrl, Patterns)
  }

  const DirectPrefix: string := "https://drive.google.com/uc?export=view&id="
  const ThumbnailPrefix: string := "https://drive.google.com/thumbnail?id="
  const SizePrefix: string := "&sz=w"

  /** `getGoogleDriveImageUrl`: the direct-view URL, or the input when no id is found. */
  function ImageUrl(shareUrl: string): string
  {
    match ExtractFileId(shareUrl)
    case None => shareUrl
    case Some(id) => DirectPrefix + id
  }

  /** `getGoogleDriveThumbnailUrl`, whose `size` defaults to 400. */
  function ThumbnailUrl(shareUrl: string, size: nat := 400): string
  {
    match ExtractFileId(shareUrl)
    case None => shareUrl
    case Some(id) => ThumbnailPrefix + id + SizePrefix + NatToString(size)
  }

  // ---------------------------------------------------------------------------
  // What a returned id is

  /** `id` stands in `s` at `k` as a maximal identifier run. */
  predicate IdRunAt(s: string, k: nat, id: string)
  {
    k + |id| <= |s| && s[k..k + |id|] == id && (k + |id| == |s| || !IsIdChar(s[k + |id|]))
  }

  lemma {:induction false} FirstCaptureFrom(s: string, pats: seq<string>)
    ensures FirstCapture(s, pats).Some? ==>
      exists i :: 0 <= i < |pats| && MatchCapture(s, pats[i]) == FirstCapture(s, pats)
  {
    if pats != [] && MatchCapture(s, pats[0]).None? {
      FirstCaptureFrom(s, pats[1..]);
      if FirstCapture(s, pats).Some? {
        var i :| 0 <= i < |pats[1..]| && MatchCapture(s, pats[1..][i]) == FirstCapture(s, pats[1..]);
        assert MatchCapture(s, pats[i + 1]) == FirstCapture(s, pats);
      }
    }
  }

  lemma MatchCaptureIsRun(s: string, lit: string)
    requires MatchCapture(s, lit).Some?
    ensures IsFileId(MatchCapture(s, lit).value)
    ensures IdRunAt(s, Search(s, lit, 0).value + |lit|, MatchCapture(s, lit).value)
  {
    var k := Search(s, lit, 0).value;
    var t := s[k + |lit|..];
    var id := IdRun(t);
    assert t[0] == s[k + |lit|];
    assert s[k + |lit|..k + |lit| + |id|] == t[..|id|];
  }

  /** A returned id is a non-empty run of `[A-Za-z0-9_-]` that stands in the input
      and is followed by a non-identifier character or the end. */
  lemma ExtractedIdIsMaximalRun(s: string)
    ensures ExtractFileId(s).Some? ==>
      IsFileId(ExtractFileId(s).value) && exists k :: IdRunAt(s, k, ExtractFileId(s).value)
  {
    FirstCaptureFrom(s, Patterns);
    if ExtractFileId(s).Some? {
      var i :| 0 <= i < |Patterns| && MatchCapture(s, Patterns[i]) == ExtractFileId(s);
      MatchCaptureIsRun(s, Patterns[i]);
    }
  }

  // ---------------------------------------------------------------------------
  // Precedence among the patterns

  /** The three patterns tried in order, written out. */
  lemma ExtractCases(s: string)
    ensures ExtractFileId(s) ==
      if MatchCapture(s, FilePattern).Some? then MatchCapture(s, FilePattern)
      else if MatchCapture(s, QueryPattern).Some? then MatchCapture(s, QueryPattern)
      else MatchCapture(s, OpenPattern)
  {
    var p := Patterns;
    assert p[0] == FilePattern && p[1..][0] == QueryPattern;
    assert p[1..][1..][0] == OpenPattern && p[1..][1..][1..] == [];
    assert FirstCapture(s, p[1..][1..]) == MatchCapture(s, OpenPattern);
    assert FirstCapture(s, p[1..]) ==
      if MatchCapture(s, QueryPattern).Some? then MatchCapture(s, QueryPattern)
      else MatchCapture(s, OpenPattern);
  }

  lemma LeftmostSearch(s: string, lit: string, q: nat)
    requires MatchesAt(s, lit, q)
    requires forall k :: 0 <= k < q ==> !MatchesAt(s, lit, k)
    ensures Search(s, lit, 0) == Some(q)
  {
  }

  /** The leftmost `/file/d/<id>` decides the result, even when `id=` occurs earlier. */
  lemma FilePatternTakesPrecedence(s: string, q: nat)
    requires MatchesAt(s, FilePattern, q)
    requires forall k :: 0 <= k < q ==> !MatchesAt(s, FilePattern, k)
    ensures ExtractFileId(s) == Some(IdRun(s[q + |FilePattern|..]))
  {
    ExtractCases(s);
    LeftmostSearch(s, FilePattern, q);
  }

  /** Without `/file/d/<id>` the leftmost `id=<id>` decides the result. */
  lemma QueryPatternDecidesOtherwise(s: string, q: nat)
    requires forall k :: 0 <= k ==> !MatchesAt(s, FilePattern, k)
    requires MatchesAt(s, QueryPattern, q)
    requires forall k :: 0 <= k < q ==> !MatchesAt(s, QueryPattern, k)
    ensures ExtractFileId(s) == Some(IdRun(s[q + |QueryPattern|..]))
  {
    ExtractCases(s);
    assert Search(s, FilePattern, 0).None?;
    LeftmostSearch(s, QueryPattern, q);
  }

  /** Every match of `/open?id=<id>` contains a match of `id=<id>` six characters later. */
  lemma OpenMatchContainsQueryMatch(s: string, k: nat)
    requires MatchesAt(s, OpenPattern, k)
    ensures MatchesAt(s, QueryPattern, k + 6)
  {
    assert s[k + 6..k + 9] == s[k..k + 9][6..9];
  }

  /** Hence the third pattern never decides: the first two give the same result. */
  lemma OpenPatternNeverDecides(s: string)
    ensures ExtractFileId(s) == FirstCapture(s, [FilePattern, QueryPattern])
  {
    ExtractCases(s);
    var two := [FilePattern, QueryPattern];
    assert two[0] == FilePattern && two[1..][0] == QueryPattern && two[1..][1..] == [];
    assert FirstCapture(s, two[1..]) == MatchCapture(s, QueryPattern);
    if Search(s, QueryPattern, 0).None? && Search(s, OpenPattern, 0).Some? {
      OpenMatchContainsQueryMatch(s, Search(s, OpenPattern, 0).value);
    }
  }

  /** The result is `null` exactly when neither `/file/d/<id>` nor `id=<id>` occurs. */
  lemma ExtractNoneIff(s: string)
    ensures ExtractFileId(s).None? <==>
      forall k :: 0 <= k ==> !MatchesAt(s, FilePattern, k) && !MatchesAt(s, QueryPattern, k)
  {
    ExtractCases(s);
    if Search(s, FilePattern, 0).None? && Search(s, QueryPattern, 0).None? {
      if Search(s, OpenPattern, 0).Some? {
        OpenMatchContainsQueryMatch(s, Search(s, OpenPattern, 0).value);
      }
    }
  }

  // ---------------------------------------------------------------------------
  // The converters

  /** Without an id both converters return the input unchanged. */
  lemma ConvertersKeepUnresolvedLinks(s: string, size: nat)
    requires ExtractFileId(s).None?
    ensures ImageUrl(s) == s && ThumbnailUrl(s, size) == s
  {
  }

  /** The thumbnail URL carries `sz=w<size>` with exactly the size supplied. */
  lemma ThumbnailCarriesSize(s: string, size: nat)
    requires ExtractFileId(s).Some?
    ensures var t := ThumbnailUrl(s, size);
      exists k: nat :: OccursAt(t, "sz=w" + NatToString(size), k) && k + 4 + |NatToString(size)| == |t|
  {
    var t := ThumbnailUrl(s, size);
    var n := NatToString(size);
    var head := ThumbnailPrefix + ExtractFileId(s).value + "&";
    assert t == head + ("sz=w" + n);
    var k := |head|;
    assert t[k..k + 4 + |n|] == "sz=w" + n;
    assert OccursAt(t, "sz=w" + n, k);
  }

  // ---------------------------------------------------------------------------
  // Reading an id back from a generated URL

  lemma {:induction false} IdRunOfId(id: string, rest: string)
    requires AllIdChars(id)
    requires rest == [] || !IsIdChar(rest[0])
    ensures IdRun(id + rest) == id
  {
    if id != [] {
      assert (id + rest)[1..] == id[1..] + rest;
      IdRunOfId(id[1..], rest);
    }
  }

  /** A match of `/file/d/<id>` puts a `/` at three fixed offsets. */
  lemma FileMatchSlashes(s: string, k: nat)
    requires MatchesAt(s, FilePattern, k)
    ensures s[k] == '/' && s[k + 5] == '/' && s[k + 7] == '/'
  {
    assert s[k..k + 8][0] == '/' && s[k..k + 8][5] == '/' && s[k..k + 8][7] == '/';
  }

  /** A match of `id=<id>` puts `i` and `=` at fixed offsets. */
  lemma QueryMatchChars(s: string, k: nat)
    requires MatchesAt(s, QueryPattern, k)
    ensures s[k] == 'i' && s[k + 2] == '='
  {
    assert s[k..k + 3][0] == 'i' && s[k..k + 3][2] == '=';
  }

  /** Both URL templates keep `/` only in `https://drive.google.com/`, and no `/`
      follows, so `/file/d/<id>` cannot match. */
  lemma NoFileMatchAfterHost(pre: string, rest: string)
    requires forall i :: 0 <= i < |pre| && pre[i] == '/' ==> i == 6 || i == 7 || i == 24
    requires forall i :: 0 <= i < |rest| ==> rest[i] != '/'
    ensures forall k :: 0 <= k ==> !MatchesAt(pre + rest, FilePattern, k)
  {
    var u := pre + rest;
    forall k: nat | MatchesAt(u, FilePattern, k) ensures false {
      FileMatchSlashes(u, k);
    }
  }

  /** A template ending in `id=`, with no earlier `id=`, followed by an id character:
      the leftmost `id=<id>` match is the template's own. */
  lemma QueryMatchAtTemplateEnd(pre: string, rest: string)
    requires |pre| >= 3 && pre[|pre| - 3..] == QueryPattern
    requires forall i :: 2 <= i < |pre| - 1 && pre[i] == '=' ==> pre[i - 2] != 'i'
    requires rest != [] && IsIdChar(rest[0])
    ensures Search(pre + rest, QueryPattern, 0) == Some(|pre| - 3)
  {
    var u := pre + rest;
    var q := |pre| - 3;
    forall k: nat | k < q && MatchesAt(u, QueryPattern, k) ensures false {
      QueryMatchChars(u, k);
    }
    assert u[q..q + 3] == pre[q..];
    assert u[q + 3] == rest[0];
    LeftmostSearch(u, QueryPattern, q);
  }

  /** What reading an id back relies on in a URL template: `/` only in the host
      part, and its only `id=` at its end. */
  predicate TemplateShape(pre: string) {
    (forall i :: 0 <= i < |pre| && pre[i] == '/' ==> i == 6 || i == 7 || i == 24) &&
    |pre| >= 3 && pre[|pre| - 3..] == QueryPattern &&
    (forall i :: 2 <= i < |pre| - 1 && pre[i] == '=' ==> pre[i - 2] != 'i')
  }

  lemma DirectPrefixSlashes()
    ensures forall i :: 0 <= i < |DirectPrefix| && DirectPrefix[i] == '/' ==> i == 6 || i == 7 || i == 24
  {
  }

  lemma DirectPrefixQueries()
    ensures forall i :: 2 <= i < |DirectPrefix| - 1 && DirectPrefix[i] == '=' ==> DirectPrefix[i - 2] != 'i'
  {
  }

  lemma DirectPrefixShape()
    ensures TemplateShape(DirectPrefix)
  {
    DirectPrefixSlashes();
    DirectPrefixQueries();
  }

  lemma ThumbnailPrefixSlashes()
    ensures forall i :: 0 <= i < |ThumbnailPrefix| && ThumbnailPrefix[i] == '/' ==> i == 6 || i == 7 || i == 24
  {
  }

  lemma ThumbnailPrefixQueries()
    ensures forall i :: 2 <= i < |ThumbnailPrefix| - 1 && ThumbnailPrefix[i] == '=' ==> ThumbnailPrefix[i - 2] != 'i'
  {
  }

  lemma ThumbnailPrefixShape()
    ensures TemplateShape(ThumbnailPrefix)
  {
    ThumbnailPrefixSlashes();
    ThumbnailPrefixQueries();
  }

  /** Reading an id back out of `pre + id + tail`, for either template. */
  lemma ExtractFromTemplate(pre: string, id: string, tail: string)
    requires TemplateShape(pre)
    requires IsFileId(id)
    requires forall i :: 0 <= i < |tail| ==> tail[i] != '/'
    requires tail == [] || !IsIdChar(tail[0])
    ensures ExtractFileId(pre + id + tail) == Some(id)
  {
    var rest := id + tail;
    assert pre + id + tail == pre + rest;
    forall i | 0 <= i < |rest| ensures rest[i] != '/' {
      if i < |id| {
        assert rest[i] == id[i];
      } else {
        assert rest[i] == tail[i - |id|];
      }
    }
    NoFileMatchAfterHost(pre, rest);
    assert rest[0] == id[0];
    QueryMatchAtTemplateEnd(pre, rest);
    var u := pre + rest;
    ExtractCases(u);
    assert Search(u, FilePattern, 0).None?;
    assert u[|pre|..] == rest;
    IdRunOfId(id, tail);
  }

  /** The id is read back from a direct-view URL. */
  lemma ExtractFromImageUrl(id: string)
    requires IsFileId(id)
    ensures ExtractFileId(DirectPrefix + id) == Some(id)
  {
    DirectPrefixShape();
    ExtractFromTemplate(DirectPrefix, id, []);
    assert DirectPrefix + id + [] == DirectPrefix + id;
  }

  /** The id is read back from a thumbnail URL. */
  lemma ExtractFromThumbnailUrl(id: string, size: nat)
    requires IsFileId(id)
    ensures ExtractFileId(ThumbnailPrefix + id + SizePrefix + NatToString(size)) == Some(id)
  {
    var n := NatToString(size);
    var tail := SizePrefix + n;
    forall i | 0 <= i < |tail| ensures tail[i] != '/' {
      if i >= |SizePrefix| {
        assert tail[i] == n[i - |SizePrefix|];
      }
    }
    ThumbnailPrefixShape();
    ExtractFromTemplate(ThumbnailPrefix, id, tail);
    assert ThumbnailPrefix + id + tail == ThumbnailPrefix + id + SizePrefix + n;
  }

  /** Extracting from either generated URL gives back the id it was built from. */
  lemma ConvertersPreserveId(s: string, size: nat)
    ensures ExtractFileId(s).Some? ==>
      ExtractFileId(ImageUrl(s)) == ExtractFileId(s) &&
      ExtractFileId(ThumbnailUrl(s, size)) == ExtractFileId(s)
  {
    ExtractedIdIsMaximalRun(s);
    if ExtractFileId(s).Some? {
      ExtractFromImageUrl(ExtractFileId(s).value);
      ExtractFromThumbnailUrl(ExtractFileId(s).value, size);
    }
  }

  /** `getGoogleDriveImageUrl` is idempotent. */
  lemma ImageUrlIdempotent(s: string)
    ensures ImageUrl(ImageUrl(s)) == ImageUrl(s)
  {
    ConvertersPreserveId(s, 400);
  }

  /** `getGoogleDriveThumbnailUrl` is idempotent for a fixed size. */
  lemma ThumbnailUrlIdempotent(s: string, size: nat)
    ensures ThumbnailUrl(ThumbnailUrl(s, size), size) == ThumbnailUrl(s, size)
  {
    ConvertersPreserveId(s, size);
  }

  // ---------------------------------------------------------------------------
  // The documented example

  const ExampleHost: string := "https://drive.google.com"
  const ExampleId: string := "1ABC123xyz"
  const ExampleTail: string := "/view?usp=sharing"

  /** "https://drive.google.com/file/d/1ABC123xyz/view?usp=sharing" */
  const ExampleLink: string := ExampleHost + FilePattern + ExampleId + ExampleTail

  /** No `/file/d/<id>` match starts inside `https://drive.google.com`. */
  lemma NoFileMatchInHost(s: string, k: nat)
    requires |s| >= 24 && s[..24] == "https://drive.google.com"
    requires k < 24
    ensures !MatchesAt(s, FilePattern, k)
  {
    if MatchesAt(s, FilePattern, k) {
      FileMatchSlashes(s, k);
    }
  }

  /** Where the pieces of the example link stand. */
  lemma ExampleLinkPieces()
    ensures |ExampleLink| > 32
    ensures ExampleLink[..24] == ExampleHost
    ensures ExampleLink[24..32] == FilePattern
    ensures ExampleLink[32..] == ExampleId + ExampleTail
  {
    assert |ExampleHost| == 24 && |FilePattern| == 8 && |ExampleId| > 0;
    assert ExampleLink == ExampleHost + FilePattern + (ExampleId + ExampleTail);
    ThreePieces(ExampleHost, FilePattern, ExampleId + ExampleTail);
  }

  lemma ThreePieces(a: string, b: string, c: string)
    ensures var s := a + b + c;
      s[..|a|] == a && s[|a|..|a| + |b|] == b && s[|a| + |b|..] == c
  {
  }

  /** A link laid out like the example: host, `/file/d/`, the id and a tail. */
  lemma HostFileLinkId(s: string)
    requires |s| > 32
    requires s[..24] == ExampleHost
    requires s[24..32] == FilePattern
    requires s[32..] == ExampleId + ExampleTail
    ensures ExtractFileId(s) == Some(ExampleId)
  {
    forall k: nat | k < 24 ensures !MatchesAt(s, FilePattern, k) {
      NoFileMatchInHost(s, k);
    }
    assert s[32] == s[32..][0] == ExampleId[0];
    assert MatchesAt(s, FilePattern, 24);
    FilePatternTakesPrecedence(s, 24);
    ExampleIdChars();
    IdRunOfId(ExampleId, ExampleTail);
    assert IdRun(s[24 + |FilePattern|..]) == ExampleId;
  }

  lemma ExampleIdChars()
    ensures AllIdChars(ExampleId) && ExampleTail != [] && !IsIdChar(ExampleTail[0])
  {
  }

  lemma ExampleLinkId()
    ensures ExtractFileId(ExampleLink) == Some(ExampleId)
  {
    ExampleLinkPieces();
    HostFileLinkId(ExampleLink);
  }

  /** A resolved link is converted with the id found in it. */
  lemma ConvertersOfResolved(s: string, size: nat)
    requires ExtractFileId(s).Some?
    ensures ImageUrl(s) == DirectPrefix + ExtractFileId(s).value
    ensures ThumbnailUrl(s, size) == ThumbnailPrefix + ExtractFileId(s).value + SizePrefix + NatToString(size)
  {
  }

  lemma ExampleDirectText()
    ensures DirectPrefix + ExampleId == "https://drive.google.com/uc?export=view&id=1ABC123xyz"
  {
  }

  /** The documented direct-view URL for the example link. */
  lemma ExampleImageUrl()
    ensures ImageUrl(ExampleLink) == "https://drive.google.com/uc?export=view&id=1ABC123xyz"
  {
    ExampleLinkId();
    ConvertersOfResolved(ExampleLink, 400);
    ExampleDirectText();
  }

  lemma DefaultSizeDigits()
    ensures NatToString(400) == "400"
  {
    assert NatToString(4) == "4";
    assert NatToString(40) == "4" + "0";
  }

  lemma ExampleThumbnailText()
    ensures ThumbnailPrefix + ExampleId + SizePrefix + "400" == "https://drive.google.com/thumbnail?id=1ABC123xyz&sz=w400"
  {
  }

  /** The thumbnail URL for the example link at the default size. */
  lemma ExampleThumbnailUrl()
    ensures ThumbnailUrl(ExampleLink) == "https://drive.google.com/thumbnail?id=1ABC123xyz&sz=w400"
  {
    ExampleLinkId();
    ConvertersOfResolved(ExampleLink, 400);
    DefaultSizeDigits();
    ExampleThumbnailText();
  }

  /** A string that is not a share link resolves to nothing and is kept. */
  lemma UnresolvableLinkKept()
    ensures ExtractFileId("not-a-drive-link") == None
    ensures ImageUrl("not-a-drive-link") == "not-a-drive-link"
  {
    var s := "not-a-drive-link";
    forall k: nat | MatchesAt(s, FilePattern, k) ensures false {
      FileMatchSlashes(s, k);
    }
    forall k: nat | MatchesAt(s, QueryPattern, k) ensures false {
      QueryMatchChars(s, k);
    }
    ExtractNoneIff(s);
  }
}
