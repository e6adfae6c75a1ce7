/**
 * The pure helpers of the photo fetcher script: the order prefix of a folder
 * or file name (the regex `^(\d+)[\s\-_]+(.+)$` with Python's backtracking),
 * the slug of a folder name, and the image URL built from a file id.
 */
module FetchNames {
  import opened Wrappers
  import opened Text

  // ---------------------------------------------------------------------------
  // Sort key

  /** The `_order` key: the numeric prefix, or `float('inf')` when there is none. */
  datatype OrderKey = Numbered(n: nat) | Unnumbered

  /** Python's `<=` on the keys: numbers by value, every number before infinity. */
  predicate OrderLe(a: OrderKey, b: OrderKey) {
    match (a, b)
    case (Numbered(x), Numbered(y)) => x <= y
    case (_, Unnumbered) => true
    case (Unnumbered, Numbered(_)) => false
  }

  lemma OrderLeTotalPreorder(a: OrderKey, b: OrderKey, c: OrderKey)
    ensures OrderLe(a, b) || OrderLe(b, a)
    ensures OrderLe(a, b) && OrderLe(b, c) ==> OrderLe(a, c)
    ensures OrderLe(a, b) && OrderLe(b, a) ==> a == b
  {
  }

  // ---------------------------------------------------------------------------
  // extract_order_prefix

  /** The separator class `[\s\-_]`. */
  predicate IsSep(c: char) { IsSpace(c) || c == '-' || c == '_' }

  predicate AllSeps(s: string) { forall i :: 0 <= i < |s| ==> IsSep(s[i]) }

  predicate NoNewline(s: string) { forall i :: 0 <= i < |s| ==> s[i] != '\n' }

  /** The end of the digit run `\d+` starting at `i`. */
  function DigitEnd(s: string, i: nat): (e: nat)
    requires i <= |s|
    decreases |s| - i
    ensures i <= e <= |s|
    ensures forall k :: i <= k < e ==> IsDigit(s[k])
    ensures e == |s| || !IsDigit(s[e])
  {
    if i < |s| && IsDigit(s[i]) then DigitEnd(s, i + 1) else i
  }

  /** The end of the greedy separator run `[\s\-_]+` starting at `i`. */
  function SepEnd(s: string, i: nat): (e: nat)
    requires i <= |s|
    decreases |s| - i
    ensures i <= e <= |s|
    ensures forall k :: i <= k < e ==> IsSep(s[k])
    ensures e == |s| || !IsSep(s[e])
  {
    if i < |s| && IsSep(s[i]) then SepEnd(s, i + 1) else i
  }

  /** `(.+)$` matches from position `e`: at least one character, none of them a
      line feed, and then the end of the string or a final line feed. */
  predicate TailMatches(s: string, e: nat) {
    e < |s| && s[e] != '\n' && forall k :: e <= k < |s| - 1 ==> s[k] != '\n'
  }

  /** Where `.+` stops: before a final line feed, which `$` may precede. */
  function TailEnd(s: string): nat {
    if |s| > 0 && s[|s| - 1] == '\n' then |s| - 1 else |s|
  }

  /** The greedy separator run is given back one character at a time, from its
      end `e` down to one past `lo`, until the rest of the pattern matches. */
  function Backtrack(s: string, lo: nat, e: nat): (r: Option<nat>)
    decreases e
    ensures r.Some? ==> lo < r.value <= e && TailMatches(s, r.value)
    ensures r.Some? ==> forall k :: r.value < k <= e ==> !TailMatches(s, k)
    ensures r.None? ==> forall k :: lo < k <= e ==> !TailMatches(s, k)
  {
    if e <= lo then None
    else if TailMatches(s, e) then Some(e)
    else Backtrack(s, lo, e - 1)
  }

  /** Where the regex matches `name`: the end of group 1 (the digits) and the
      start of group 2, or `None` when it does not match. */
  function PrefixMatch(name: string): (r: Option<(nat, nat)>)
    ensures r.Some? ==> 0 < r.value.0 < r.value.1 < TailEnd(name)
    ensures r.Some? ==> r.value.0 == DigitEnd(name, 0) && AllDigits(name[..r.value.0])
    ensures r.Some? ==>
      r.value.1 <= SepEnd(name, r.value.0) && AllSeps(name[r.value.0..r.value.1]) && TailMatches(name, r.value.1)
    ensures r.Some? ==> forall k :: r.value.1 < k <= SepEnd(name, r.value.0) ==> !TailMatches(name, k)
    ensures r.None? <==>
      DigitEnd(name, 0) == 0 ||
      forall k :: DigitEnd(name, 0) < k <= SepEnd(name, DigitEnd(name, 0)) ==> !TailMatches(name, k)
  {
    var d := DigitEnd(name, 0);
    var e := SepEnd(name, d);
    if d == 0 || e == d then None
    else
      match Backtrack(name, d, e)
      case None => None
      case Some(k) => Some((d, k))
  }

  /** `extract_order_prefix(name)`: `(int(group 1), group 2 stripped)` on a
      match, `(inf, name)` otherwise. */
  function ExtractOrderPrefix(name: string): (r: (OrderKey, string))
    ensures r.0.Unnumbered? ==> r.1 == name
  {
    match PrefixMatch(name)
    case None => (Unnumbered, name)
    case Some((d, k)) =>
      assert AllDigits(name[..d]);
      (Numbered(DecimalValue(name[..d])), Strip(name[k..TailEnd(name)]))
  }

  /** The regex's groups: group 1 is the whole leading digit run `name[..d]`,
      and group 2 starts at the largest `k` inside the separator run after it
      from which `(.+)$` matches. The result is group 1's value and group 2
      stripped. */
  lemma ExtractOrderPrefixAt(name: string, d: nat, k: nat)
    requires 0 < d == DigitEnd(name, 0)
    requires d < k <= SepEnd(name, d) && TailMatches(name, k)
    requires forall j :: k < j <= SepEnd(name, d) ==> !TailMatches(name, j)
    ensures AllDigits(name[..d]) && k < TailEnd(name)
    ensures ExtractOrderPrefix(name) == (Numbered(DecimalValue(name[..d])), Strip(name[k..TailEnd(name)]))
  {
    var r := PrefixMatch(name);
    assert r.Some?;
    assert r.value.1 == k;
  }

  /** The names the pattern is written for: a digit run, at least one separator
      and at least one more character. */
  predicate PrefixShape(name: string) {
    exists i, j :: 0 < i < j < |name| && AllDigits(name[..i]) && AllSeps(name[i..j])
  }

  lemma DigitRunIs(name: string, i: nat)
    requires 0 < i < |name| && AllDigits(name[..i]) && IsSep(name[i])
    ensures DigitEnd(name, 0) == i
  {
  }

  /** Under the shape, the match starts group 2 after the longest separator
      run, or at the last character when that run reaches the end. */
  lemma PrefixMatchShape(name: string, i: nat, j: nat)
    requires NoNewline(name)
    requires 0 < i < j < |name| && AllDigits(name[..i]) && AllSeps(name[i..j])
    ensures var e := SepEnd(name, i);
      PrefixMatch(name) == Some((i, if e < |name| then e else |name| - 1))
  {
    assert IsSep(name[i..j][0]);
    DigitRunIs(name, i);
    var e := SepEnd(name, i);
    var k := if e < |name| then e else |name| - 1;
    assert TailMatches(name, k);
  }

  /** For a name without line feeds, a number is found exactly for the names of
      that shape. */
  lemma ExtractOrderPrefixShape(name: string)
    requires NoNewline(name)
    ensures ExtractOrderPrefix(name).0.Numbered? <==> PrefixShape(name)
  {
    if PrefixMatch(name).Some? {
      var d := DigitEnd(name, 0);
      var k := PrefixMatch(name).value.1;
      assert AllDigits(name[..d]) && AllSeps(name[d..k]);
    }
    if PrefixShape(name) {
      var i, j :| 0 < i < j < |name| && AllDigits(name[..i]) && AllSeps(name[i..j]);
      PrefixMatchShape(name, i, j);
    }
  }

  /** A name written as digits, separators and a rest that does not start with a
      separator gives the digits' value and the stripped rest. */
  lemma ExtractOrderPrefixSplit(digits: string, seps: string, rest: string)
    requires |digits| > 0 && AllDigits(digits)
    requires |seps| > 0 && AllSeps(seps)
    requires rest != [] && !IsSep(rest[0])
    requires NoNewline(digits + seps + rest)
    ensures ExtractOrderPrefix(digits + seps + rest) == (Numbered(DecimalValue(digits)), Strip(rest))
  {
    var name := digits + seps + rest;
    var j := |digits| + |seps|;
    assert name[..|digits|] == digits;
    assert name[|digits|..j] == seps;
    assert name[j..] == rest;
    assert name[j] == rest[0];
    assert TailEnd(name) == |name|;
    PrefixMatchShape(name, |digits|, j);
    SepEndStops(name, |digits|, j);
    assert PrefixMatch(name) == Some((|digits|, j));
    assert name[j..TailEnd(name)] == rest;
    assert ExtractOrderPrefix(name) == (Numbered(DecimalValue(name[..|digits|])), Strip(name[j..TailEnd(name)]));
  }

  lemma SepEndStops(s: string, i: nat, j: nat)
    requires i <= j < |s| && AllSeps(s[i..j]) && !IsSep(s[j])
    ensures SepEnd(s, i) == j
  {
  }

  /** The pieces of a name made of digits and then separators only. */
  lemma SeparatorsOnlyPieces(digits: string, seps: string)
    requires |digits| > 0 && AllDigits(digits)
    requires |seps| > 1 && AllSeps(seps)
    requires NoNewline(seps)
    ensures var name := digits + seps;
      NoNewline(name) && AllDigits(name[..|digits|]) && AllSeps(name[|digits|..]) &&
      AllSeps(name[|digits|..|name| - 1]) && name[|name| - 1] == seps[|seps| - 1]
  {
    var name := digits + seps;
    assert name[..|digits|] == digits;
    assert name[|digits|..] == seps;
    assert name[|digits|..|name| - 1] == seps[..|seps| - 1];
    NoNewlineConcat(digits, seps);
  }

  /** When only separators follow the digits, backtracking leaves the last
      separator as the name. */
  lemma ExtractOrderPrefixSeparatorsOnly(digits: string, seps: string)
    requires |digits| > 0 && AllDigits(digits)
    requires |seps| > 1 && AllSeps(seps)
    requires NoNewline(seps)
    ensures ExtractOrderPrefix(digits + seps) == (Numbered(DecimalValue(digits)), Strip([seps[|seps| - 1]]))
  {
    var name := digits + seps;
    var d, k := |digits|, |name| - 1;
    SeparatorsOnlyPieces(digits, seps);
    assert IsSep(name[d..][0]);
    DigitRunIs(name, d);
    SepEndReachesEnd(name, d);
    assert TailMatches(name, k);
    assert !TailMatches(name, |name|);
    ExtractOrderPrefixAt(name, d, k);
    assert name[..d] == digits;
    assert name[k..TailEnd(name)] == [seps[|seps| - 1]];
  }

  lemma NoNewlineConcat(a: string, b: string)
    requires AllDigits(a) && NoNewline(b)
    ensures NoNewline(a + b)
  {
    forall k | 0 <= k < |a + b| ensures (a + b)[k] != '\n' {
      if k >= |a| {
        assert (a + b)[k] == b[k - |a|];
      }
    }
  }

  lemma SepEndReachesEnd(s: string, i: nat)
    requires i <= |s| && AllSeps(s[i..])
    ensures SepEnd(s, i) == |s|
  {
  }

  /** A single separator with nothing after it is not a prefix. */
  lemma ExtractOrderPrefixBareSeparator(digits: string, sep: char)
    requires |digits| > 0 && AllDigits(digits) && IsSep(sep)
    ensures ExtractOrderPrefix(digits + [sep]) == (Unnumbered, digits + [sep])
  {
    var name := digits + [sep];
    DigitRunIs(name, |digits|);
  }

  lemma NoLeadingDigit(name: string)
    requires name == [] || !IsDigit(name[0])
    ensures ExtractOrderPrefix(name) == (Unnumbered, name)
  {
  }

  lemma DocExampleWeddings()
    ensures ExtractOrderPrefix("01-Weddings") == (Numbered(1), "Weddings")
  {
    assert "01-Weddings" == "01" + "-" + "Weddings";
    assert DecimalValue("01") == 1 by {
      assert "01"[..1] == "0";
    }
    StripByKeeps("Weddings", IsSpace);
    ExtractOrderPrefixSplit("01", "-", "Weddings");
  }

  lemma DocExamplePortraits()
    ensures ExtractOrderPrefix("02 - Portraits") == (Numbered(2), "Portraits")
  {
    assert "02 - Portraits" == "02" + " - " + "Portraits";
    assert DecimalValue("02") == 2 by {
      assert "02"[..1] == "0";
    }
    StripByKeeps("Portraits", IsSpace);
    ExtractOrderPrefixSplit("02", " - ", "Portraits");
  }

  lemma DocExampleClassicalDance()
    ensures ExtractOrderPrefix("10_Classical Dance") == (Numbered(10), "Classical Dance")
  {
    assert "10_Classical Dance" == "10" + "_" + "Classical Dance";
    assert DecimalValue("10") == 10 by {
      assert "10"[..1] == "1";
    }
    StripByKeeps("Classical Dance", IsSpace);
    ExtractOrderPrefixSplit("10", "_", "Classical Dance");
  }

  lemma DocExampleCandids()
    ensures ExtractOrderPrefix("Candids") == (Unnumbered, "Candids")
  {
    NoLeadingDigit("Candids");
  }

  // ---------------------------------------------------------------------------
  // slugify

  /** The characters a slug is made of: lower-case letters, digits, `_` and `-`. */
  predicate IsSlugChar(c: char) { IsLower(c) || IsDigit(c) || c == '_' || c == '-' }

  predicate IsDashOrSpace(c: char) { c == '-' || IsSpace(c) }

  predicate IsDash(c: char) { c == '-' }

  /** No two adjacent dashes (`--`). */
  ghost predicate NoDoubleDash(s: string) {
    forall i, j :: 0 <= i < j < |s| && j == i + 1 ==> !(s[i] == '-' && s[j] == '-')
  }

  /** The characters `[\w\s-]` keeps. */
  predicate IsSafe(c: char) { IsWordChar(c) || IsDashOrSpace(c) }

  predicate NotDashOrSpace(c: char) { !IsDashOrSpace(c) }

  /** `re.sub(r'[^\w\s-]', '', s)`. */
  function RemoveUnsafe(s: string): (r: string)
    ensures r == Only(s, IsSafe)
    ensures |r| <= |s|
    ensures forall i :: 0 <= i < |r| ==> IsWordChar(r[i]) || IsDashOrSpace(r[i])
    ensures (forall i :: 0 <= i < |s| ==> !IsUpper(s[i])) ==> forall i :: 0 <= i < |r| ==> !IsUpper(r[i])
  {
    if s == [] then []
    else if IsWordChar(s[0]) || IsDashOrSpace(s[0]) then [s[0]] + RemoveUnsafe(s[1..])
    else RemoveUnsafe(s[1..])
  }

  /** `re.sub(r'[-\s]+', '-', s)`: every maximal run of dashes and white space
      becomes one dash. */
  function Collapse(s: string): (r: string)
    decreases |s|
    ensures (r != [] && r[0] == '-') <==> (s != [] && IsDashOrSpace(s[0]))
    ensures NoDoubleDash(r)
    ensures (forall i :: 0 <= i < |s| ==> IsSlugChar(s[i]) || IsSpace(s[i])) ==>
      forall i :: 0 <= i < |r| ==> IsSlugChar(r[i])
  {
    if s == [] then []
    else if IsDashOrSpace(s[0]) then
      var t := Collapse(s[SkipFrom(s, 0, IsDashOrSpace)..]);
      assert ("-" + t)[1..] == t;
      "-" + t
    else
      var t := Collapse(s[1..]);
      assert ([s[0]] + t)[1..] == t;
      [s[0]] + t
  }

  /** What `Collapse` keeps: every character other than a dash or white space,
      in order; one dash per maximal run; no white space. */
  lemma {:induction false} CollapseRuns(s: string)
    decreases |s|
    ensures Only(Collapse(s), NotDashOrSpace) == Only(s, NotDashOrSpace)
    ensures |Only(Collapse(s), IsDash)| == RunEnds(s)
    ensures forall i :: 0 <= i < |Collapse(s)| ==> !IsSpace(Collapse(s)[i])
  {
    if s != [] {
      var r := Collapse(s);
      if IsDashOrSpace(s[0]) {
        var e := SkipFrom(s, 0, IsDashOrSpace);
        var t := Collapse(s[e..]);
        CollapseRuns(s[e..]);
        RunEndsSkip(s, e);
        OnlyDropsPrefix(s, e, NotDashOrSpace);
        assert r == "-" + t && r[1..] == t;
      } else {
        var t := Collapse(s[1..]);
        CollapseRuns(s[1..]);
        assert r == [s[0]] + t && r[1..] == t;
      }
    }
  }

  /** The number of maximal runs of dashes and white space in `s`, counted at
      the last character of each run. */
  function RunEnds(s: string): nat {
    if s == [] then 0
    else (if IsDashOrSpace(s[0]) && (|s| == 1 || !IsDashOrSpace(s[1])) then 1 else 0) + RunEnds(s[1..])
  }

  /** A run of dashes and white space at the front of `s` is one run. */
  lemma {:induction false} RunEndsSkip(s: string, e: nat)
    requires 0 < e <= |s| && (forall k :: 0 <= k < e ==> IsDashOrSpace(s[k]))
    requires e == |s| || !IsDashOrSpace(s[e])
    ensures RunEnds(s) == 1 + RunEnds(s[e..])
  {
    if e > 1 {
      RunEndsSkip(s[1..], e - 1);
      assert s[1..][e - 1..] == s[e..];
    }
  }

  predicate AllSlugChars(s: string) { forall i :: 0 <= i < |s| ==> IsSlugChar(s[i]) }

  lemma SlugShapeSlice(s: string, lo: nat, hi: nat)
    requires lo <= hi <= |s|
    requires AllSlugChars(s) && NoDoubleDash(s)
    ensures AllSlugChars(s[lo..hi]) && NoDoubleDash(s[lo..hi])
  {
    forall i, j | 0 <= i < j < hi - lo && j == i + 1 ensures !(s[lo..hi][i] == '-' && s[lo..hi][j] == '-') {
      assert s[lo..hi][i] == s[lo + i] && s[lo..hi][j] == s[lo + j];
    }
  }

  /** Stripping outer dashes keeps the character set and the single dashes. */
  lemma StripDashesKeepsShape(s: string)
    requires AllSlugChars(s) && NoDoubleDash(s)
    ensures var r := StripBy(s, IsDash);
      AllSlugChars(r) && NoDoubleDash(r) && (r == [] || (r[0] != '-' && r[|r| - 1] != '-'))
  {
    StripByRemoves(s, IsDash);
    var a := SkipFrom(s, 0, IsDash);
    if a < |s| {
      SlugShapeSlice(s, a, SkipBack(s, |s|, IsDash));
    }
  }

  /** The slug of an already prefix-stripped name. */
  function SlugOf(clean: string): (r: string)
    ensures AllSlugChars(r) && NoDoubleDash(r)
    ensures r == [] || (r[0] != '-' && r[|r| - 1] != '-')
  {
    var lowered := Lower(clean);
    var kept := RemoveUnsafe(lowered);
    var collapsed := Collapse(kept);
    StripDashesKeepsShape(collapsed);
    StripBy(collapsed, IsDash)
  }

  /** `slugify(text)`: of the name without its order prefix, lower-cased, with
      unsafe characters dropped, dash and space runs turned into one dash, and
      outer dashes stripped. */
  function Slugify(text: string): (r: string)
    ensures AllSlugChars(r) && NoDoubleDash(r)
    ensures r == [] || (r[0] != '-' && r[|r| - 1] != '-')
  {
    SlugOf(ExtractOrderPrefix(text).1)
  }

  /** A clean name made of word characters only is just lower-cased. */
  predicate AllWordChars(s: string) { forall i :: 0 <= i < |s| ==> IsWordChar(s[i]) }

  lemma {:induction false} RemoveUnsafeKeepsWords(s: string)
    requires AllWordChars(s)
    ensures RemoveUnsafe(s) == s
  {
    if s != [] {
      RemoveUnsafeKeepsWords(s[1..]);
    }
  }

  lemma {:induction false} CollapseKeepsWords(s: string)
    requires AllWordChars(s)
    ensures Collapse(s) == s
  {
    if s != [] {
      assert !IsDashOrSpace(s[0]);
      CollapseKeepsWords(s[1..]);
    }
  }

  /** On word characters the steps after lower-casing change nothing. */
  lemma SlugStepsKeepWords(s: string)
    requires AllWordChars(s)
    ensures StripBy(Collapse(RemoveUnsafe(s)), IsDash) == s
  {
    RemoveUnsafeKeepsWords(s);
    CollapseKeepsWords(s);
    assert s == [] || (!IsDash(s[0]) && !IsDash(s[|s| - 1]));
    StripByKeeps(s, IsDash);
  }

  lemma SlugOfWord(w: string)
    requires AllWordChars(w)
    ensures SlugOf(w) == Lower(w)
  {
    var lowered := Lower(w);
    assert AllWordChars(lowered);
    SlugStepsKeepWords(lowered);
  }

  /** Dropping unsafe characters keeps every word character. */
  lemma RemoveUnsafeKeepsWordChars(s: string)
    ensures Only(RemoveUnsafe(s), IsWordChar) == Only(s, IsWordChar)
  {
    OnlyOnly(s, IsSafe, IsWordChar);
  }

  /** Collapsing dash and space runs keeps every word character. */
  lemma CollapseKeepsWordChars(s: string)
    ensures Only(Collapse(s), IsWordChar) == Only(s, IsWordChar)
  {
    var c := Collapse(s);
    CollapseRuns(s);
    OnlyOnly(c, NotDashOrSpace, IsWordChar);
    OnlyOnly(s, NotDashOrSpace, IsWordChar);
  }

  /** For every name: the slug holds exactly the word characters of the
      lower-cased clean name, in their order; only dashes come between them. */
  lemma SlugOfKeepsWordChars(clean: string)
    ensures Only(SlugOf(clean), IsWordChar) == Only(Lower(clean), IsWordChar)
  {
    var lowered := Lower(clean);
    var kept := RemoveUnsafe(lowered);
    var collapsed := Collapse(kept);
    StripByKeepsOthers(collapsed, IsDash, IsWordChar);
    CollapseKeepsWordChars(kept);
    RemoveUnsafeKeepsWordChars(lowered);
  }

  /** `slugify` keeps the word characters of the name without its prefix. */
  lemma SlugifyKeepsWordChars(text: string)
    ensures Only(Slugify(text), IsWordChar) == Only(Lower(ExtractOrderPrefix(text).1), IsWordChar)
  {
    SlugOfKeepsWordChars(ExtractOrderPrefix(text).1);
  }

  lemma WeddingsIsWord()
    ensures AllWordChars("Weddings")
  {
  }

  lemma LowerWeddings()
    ensures Lower("Weddings") == "weddings"
  {
  }

  lemma SlugOfWeddings()
    ensures SlugOf("Weddings") == "weddings"
  {
    WeddingsIsWord();
    SlugOfWord("Weddings");
    LowerWeddings();
  }

  /** The slug is taken from the name without its order prefix. */
  lemma SlugifyWeddings()
    ensures Slugify("01-Weddings") == "weddings"
  {
    DocExampleWeddings();
    SlugOfWeddings();
  }

  // ---------------------------------------------------------------------------
  // get_image_url

  const ContentPrefix := "https://lh3.googleusercontent.com/d/"
  const WidthMark := "=w"

  /** `get_image_url(file_id, thumbnail, size)`; `thumbnail` does not change the URL. */
  function ImageUrl(fileId: string, thumbnail: bool := false, size: nat := 800): (r: string)
  {
    ContentPrefix + fileId + WidthMark + NatToString(size)
  }

  /** The thumbnail flag is ignored. */
  lemma ImageUrlIgnoresThumbnail(fileId: string, size: nat)
    ensures ImageUrl(fileId, true, size) == ImageUrl(fileId, false, size)
  {
  }

  lemma ImageUrlLayout(fileId: string, size: nat)
    ensures var u := ImageUrl(fileId, false, size);
      var p := |ContentPrefix|;
      |u| == p + |fileId| + 2 + |NatToString(size)| &&
      u[..p] == ContentPrefix && u[p..p + |fileId|] == fileId &&
      u[p + |fileId|] == '=' && u[p + |fileId| + 1] == 'w' && u[p + |fileId| + 2..] == NatToString(size) &&
      forall k :: p <= k < p + |fileId| ==> u[k] == fileId[k - p]
  {
  }

  /** For ids without `=` the URL determines the id and the size. */
  lemma ImageUrlInjective(a: string, b: string, n: nat, m: nat)
    requires '=' !in a && '=' !in b
    requires ImageUrl(a, false, n) == ImageUrl(b, false, m)
    ensures a == b && n == m
  {
    var p := |ContentPrefix|;
    var u := ImageUrl(a, false, n);
    var v := ImageUrl(b, false, m);
    ImageUrlLayout(a, n);
    ImageUrlLayout(b, m);
    if |a| != |b| {
      assert false;
    }
    assert a == u[p..p + |a|] && b == v[p..p + |b|];
    assert NatToString(n) == u[p + |a| + 2..] && NatToString(m) == v[p + |b| + 2..];
    DecimalRoundTrip(n);
    DecimalRoundTrip(m);
  }
}
