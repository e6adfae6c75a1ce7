/**
 * Character classes and string operations shared by the model: the ASCII
 * readings of Python's `\d`, `\s`, `\w`, `str.lower` and `str.strip`, decimal
 * numerals (`int(digits)` and the `${n}` of a template), Python's ordering of
 * strings, and JavaScript's leftmost substring search with `String.replace`.
 */
module Text {
  import opened Wrappers

  // ---------------------------------------------------------------------------
  // Character classes (ASCII)

  predicate IsDigit(c: char) { '0' <= c <= '9' }

  predicate IsUpper(c: char) { 'A' <= c <= 'Z' }

  predicate IsLower(c: char) { 'a' <= c <= 'z' }

  /** Python's `\s` and the characters `str.strip()` removes, restricted to ASCII:
      space, tab, line feed, vertical tab, form feed, carriage return and the four
      separators 0x1C to 0x1F. */
  predicate IsSpace(c: char) {
    c == ' ' || 9 <= c as int <= 13 || 28 <= c as int <= 31
  }

  /** Python's `\w` restricted to ASCII: letters, digits and the underscore. */
  predicate IsWordChar(c: char) { IsUpper(c) || IsLower(c) || IsDigit(c) || c == '_' }

  predicate AllDigits(s: string) { forall i :: 0 <= i < |s| ==> IsDigit(s[i]) }

  /** `str.lower()` on one ASCII character. */
  function ToLower(c: char): (r: char)
    ensures !IsUpper(r)
    ensures IsUpper(c) ==> IsLower(r)
    ensures !IsUpper(c) ==> r == c
  {
    if IsUpper(c) then (c as int - 'A' as int + 'a' as int) as char else c
  }

  /** `str.lower()` (ASCII case mapping). */
  function Lower(s: string): (r: string)
    ensures |r| == |s|
    ensures forall i :: 0 <= i < |s| ==> r[i] == ToLower(s[i])
  {
    if s == [] then [] else [ToLower(s[0])] + Lower(s[1..])
  }

  // ---------------------------------------------------------------------------
  // Stripping

  /** The first index at or after `i` whose character `drop` does not accept. */
  function SkipFrom(s: string, i: nat, drop: char -> bool): (e: nat)
    requires i <= |s|
    decreases |s| - i
    ensures i <= e <= |s|
    ensures forall k :: i <= k < e ==> drop(s[k])
    ensures e == |s| || !drop(s[e])
  {
    if i < |s| && drop(s[i]) then SkipFrom(s, i + 1, drop) else i
  }

  /** One past the last index before `j` whose character `drop` does not accept. */
  function SkipBack(s: string, j: nat, drop: char -> bool): (b: nat)
    requires j <= |s|
    ensures b <= j
    ensures forall k :: b <= k < j ==> drop(s[k])
    ensures b == 0 || !drop(s[b - 1])
  {
    if j > 0 && drop(s[j - 1]) then SkipBack(s, j - 1, drop) else j
  }

  /** Python's `s.strip(chars)`: the longest prefix and suffix whose characters
      `drop` accepts are removed. */
  function StripBy(s: string, drop: char -> bool): (r: string)
    ensures r == [] || (!drop(r[0]) && !drop(r[|r| - 1]))
    ensures |r| <= |s|
  {
    var a := SkipFrom(s, 0, drop);
    if a == |s| then [] else s[a..SkipBack(s, |s|, drop)]
  }

  /** Python's `s.strip()`. */
  function Strip(s: string): string
  {
    StripBy(s, IsSpace)
  }

  /** The result is the slice between the removed prefix and the removed suffix. */
  lemma StripByRemoves(s: string, drop: char -> bool)
    ensures var a := SkipFrom(s, 0, drop);
      var b := SkipBack(s, |s|, drop);
      (a == |s| ==> StripBy(s, drop) == [] && forall k :: 0 <= k < |s| ==> drop(s[k])) &&
      (a < |s| ==> a < b && StripBy(s, drop) == s[a..b])
  {
  }

  /** A string without droppable ends is kept as it is. */
  lemma StripByKeeps(s: string, drop: char -> bool)
    requires s == [] || (!drop(s[0]) && !drop(s[|s| - 1]))
    ensures StripBy(s, drop) == s
  {
    if s != [] {
      assert SkipFrom(s, 0, drop) == 0;
      assert SkipBack(s, |s|, drop) == |s|;
    }
  }

  // ---------------------------------------------------------------------------
  // Filtering

  /** The characters of `s` that `keep` accepts, in their order. */
  function Only(s: string, keep: char -> bool): (r: string)
    ensures |r| <= |s|
    ensures forall i :: 0 <= i < |r| ==> keep(r[i])
  {
    if s == [] then [] else (if keep(s[0]) then [s[0]] else []) + Only(s[1..], keep)
  }

  lemma {:induction false} OnlyConcat(a: string, b: string, keep: char -> bool)
    ensures Only(a + b, keep) == Only(a, keep) + Only(b, keep)
  {
    if a == [] {
      assert a + b == b;
    } else {
      assert (a + b)[0] == a[0];
      assert (a + b)[1..] == a[1..] + b;
      OnlyConcat(a[1..], b, keep);
    }
  }

  lemma {:induction false} OnlyNone(s: string, keep: char -> bool)
    requires forall i :: 0 <= i < |s| ==> !keep(s[i])
    ensures Only(s, keep) == []
  {
    if s != [] {
      OnlyNone(s[1..], keep);
    }
  }

  /** Characters `keep` rejects can be dropped from the front. */
  lemma {:induction false} OnlyDropsPrefix(s: string, e: nat, keep: char -> bool)
    requires e <= |s| && forall i :: 0 <= i < e ==> !keep(s[i])
    ensures Only(s, keep) == Only(s[e..], keep)
  {
    if e > 0 {
      OnlyDropsPrefix(s[1..], e - 1, keep);
      assert s[1..][e - 1..] == s[e..];
      assert Only(s, keep) == [] + Only(s[1..], keep);
    }
  }

  /** Filtering by `p` first loses nothing a narrower filter `q` keeps. */
  lemma {:induction false} OnlyOnly(s: string, p: char -> bool, q: char -> bool)
    requires forall c :: q(c) ==> p(c)
    ensures Only(Only(s, p), q) == Only(s, q)
  {
    if s != [] {
      OnlyOnly(s[1..], p, q);
      var head := if p(s[0]) then [s[0]] else [];
      OnlyConcat(head, Only(s[1..], p), q);
      assert Only(head, q) == if q(s[0]) then [s[0]] else [] by {
        if p(s[0]) {
          assert head[1..] == [];
        }
      }
    }
  }

  /** Stripping removes only characters `drop` accepts, so any characters it
      rejects are kept, in order. */
  lemma StripByKeepsOthers(s: string, drop: char -> bool, keep: char -> bool)
    requires forall c :: keep(c) ==> !drop(c)
    ensures Only(StripBy(s, drop), keep) == Only(s, keep)
  {
    StripByRemoves(s, drop);
    var a := SkipFrom(s, 0, drop);
    var b := SkipBack(s, |s|, drop);
    if a == |s| {
      OnlyNone(s, keep);
    } else {
      var left, mid, right := s[..a], s[a..b], s[b..];
      forall i | 0 <= i < |left| ensures !keep(left[i]) {
        assert drop(s[i]);
      }
      forall i | 0 <= i < |right| ensures !keep(right[i]) {
        assert drop(s[b + i]);
      }
      OnlyNone(left, keep);
      OnlyNone(right, keep);
      assert s == left + mid + right;
      OnlyConcat(left + mid, right, keep);
      OnlyConcat(left, mid, keep);
    }
  }

  predicate AllSpace(s: string) { forall i :: 0 <= i < |s| ==> IsSpace(s[i]) }

  /** Trailing white space (the line feed of a line read from a file) is stripped
      and a value without outer white space is kept. */
  lemma StripPadding(v: string, tail: string)
    requires v == [] || (!IsSpace(v[0]) && !IsSpace(v[|v| - 1]))
    requires AllSpace(tail)
    ensures Strip(v + tail) == v
  {
    var w := v + tail;
    if v == [] {
      assert w == tail;
    } else {
      assert w[0] == v[0];
      var b := SkipBack(w, |w|, IsSpace);
      assert w[|v| - 1] == v[|v| - 1];
      assert forall k :: |v| <= k < |w| ==> w[k] == tail[k - |v|];
      assert b == |v|;
      assert w[..|v|] == v;
    }
  }

  // ---------------------------------------------------------------------------
  // Decimal numerals

  function DigitValue(c: char): (d: nat)
    requires IsDigit(c)
    ensures d < 10
  {
    c as int - '0' as int
  }

  function DigitChar(d: nat): (c: char)
    requires d < 10
    ensures IsDigit(c) && DigitValue(c) == d
  {
    ('0' as int + d) as char
  }

  /** Python's `int(digits)` on a run of ASCII digits (leading zeros allowed). */
  function DecimalValue(s: string): nat
    requires AllDigits(s)
  {
    if s == [] then 0 else DecimalValue(s[..|s| - 1]) * 10 + DigitValue(s[|s| - 1])
  }

  /** The decimal numeral of `n`, as `${n}` and f"{n}" print a non-negative integer. */
  function NatToString(n: nat): (r: string)
    ensures |r| >= 1 && AllDigits(r)
    ensures |r| > 1 ==> r[0] != '0'
  {
    if n < 10 then [DigitChar(n)] else NatToString(n / 10) + [DigitChar(n % 10)]
  }

  /** Printing a number and reading it back gives the number. */
  lemma {:induction false} DecimalRoundTrip(n: nat)
    ensures DecimalValue(NatToString(n)) == n
  {
    var r := NatToString(n);
    if n >= 10 {
      DecimalRoundTrip(n / 10);
      assert r[..|r| - 1] == NatToString(n / 10);
    }
  }

  // ---------------------------------------------------------------------------
  // Python's ordering of strings (lexicographic by code point, a prefix first)

  predicate StringLe(a: string, b: string)
  {
    if a == [] then true
    else if b == [] then false
    else if a[0] != b[0] then a[0] < b[0]
    else StringLe(a[1..], b[1..])
  }

  lemma {:induction false} StringLeTotal(a: string, b: string)
    ensures StringLe(a, b) || StringLe(b, a)
  {
    if a != [] && b != [] && a[0] == b[0] {
      StringLeTotal(a[1..], b[1..]);
    }
  }

  lemma {:induction false} StringLeTransitive(a: string, b: string, c: string)
    requires StringLe(a, b) && StringLe(b, c)
    ensures StringLe(a, c)
  {
    if a != [] && b != [] && c != [] && a[0] == b[0] && b[0] == c[0] {
      StringLeTransitive(a[1..], b[1..], c[1..]);
    }
  }

  lemma {:induction false} StringLeAntisymmetric(a: string, b: string)
    requires StringLe(a, b) && StringLe(b, a)
    ensures a == b
  {
    if a != [] && b != [] {
      StringLeAntisymmetric(a[1..], b[1..]);
      assert a == [a[0]] + a[1..];
      assert b == [b[0]] + b[1..];
    }
  }

  // ---------------------------------------------------------------------------
  // JavaScript substring search and `String.replace` with a string pattern

  predicate OccursAt(s: string, pat: string, k: nat)
  {
    k + |pat| <= |s| && s[k..k + |pat|] == pat
  }

  /** The leftmost position at or after `from` where `pat` occurs in `s`. */
  function Find(s: string, pat: string, from: nat): (r: Option<nat>)
    requires from <= |s|
    decreases |s| - from
    ensures r.Some? ==> from <= r.value && OccursAt(s, pat, r.value)
    ensures r.Some? ==> forall k :: from <= k < r.value ==> !OccursAt(s, pat, k)
    ensures r.None? ==> forall k :: from <= k ==> !OccursAt(s, pat, k)
  {
    if OccursAt(s, pat, from) then Some(from)
    else if from == |s| then None
    else Find(s, pat, from + 1)
  }

  /** The leftmost index at or after `from` holding `c` (`str.find` on one character). */
  function IndexOf(s: string, c: char, from: nat): (r: Option<nat>)
    requires from <= |s|
    decreases |s| - from
    ensures r.Some? ==> from <= r.value < |s| && s[r.value] == c
    ensures r.Some? ==> forall k :: from <= k < r.value ==> s[k] != c
    ensures r.None? ==> forall k :: from <= k < |s| ==> s[k] != c
  {
    if from == |s| then None
    else if s[from] == c then Some(from)
    else IndexOf(s, c, from + 1)
  }

  /** `s.replace(pat, rep)`: only the leftmost occurrence is replaced. */
  function ReplaceFirst(s: string, pat: string, rep: string): string
  {
    match Find(s, pat, 0)
    case None => s
    case Some(k) => s[..k] + rep + s[k + |pat|..]
  }

  /** Without an occurrence the string is returned unchanged. */
  lemma ReplaceFirstAbsent(s: string, pat: string, rep: string)
    requires forall k: nat :: !OccursAt(s, pat, k)
    ensures ReplaceFirst(s, pat, rep) == s
  {
  }

  /** Otherwise exactly the leftmost occurrence is replaced and everything around it is kept. */
  lemma ReplaceFirstLeftmost(s: string, pat: string, rep: string, k: nat)
    requires OccursAt(s, pat, k)
    requires forall j: nat :: j < k ==> !OccursAt(s, pat, j)
    ensures ReplaceFirst(s, pat, rep) == s[..k] + rep + s[k + |pat|..]
  {
    assert Find(s, pat, 0) == Some(k);
  }
}
