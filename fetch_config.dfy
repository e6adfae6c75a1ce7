/**
 * How the photo fetcher finds the parent folder id: the environment variable
 * when it is set to a non-empty value, otherwise the first line of the `.env`
 * file that starts with `GOOGLE_DRIVE_PARENT_FOLDER=`.
 */
module FetchConfig {
  import opened Wrappers
  import opened Text

  const EnvName := "GOOGLE_DRIVE_PARENT_FOLDER"
  const EnvKey := EnvName + "="

  /** `line.startswith('GOOGLE_DRIVE_PARENT_FOLDER=')`. */
  predicate HasEnvKey(line: string) {
    |EnvKey| <= |line| && line[..|EnvKey|] == EnvKey
  }

  predicate IsQuote(c: char) { c == '\'' || c == '"' }

  /** `line.split('=', 1)[1]`: the text after the first `=`, if there is one. */
  function AfterFirstEquals(line: string): (r: Option<string>)
    ensures r.None? <==> forall k :: 0 <= k < |line| ==> line[k] != '='
    ensures r.Some? ==> exists k :: 0 <= k < |line| && line[k] == '=' && r.value == line[k + 1..] &&
                                  (forall j :: 0 <= j < k ==> line[j] != '=')
  {
    match IndexOf(line, '=', 0)
    case None => None
    case Some(k) => Some(line[k + 1..])
  }

  lemma NameHasNoEquals()
    ensures forall j :: 0 <= j < |EnvName| ==> EnvName[j] != '='
  {
  }

  /** The key has no `=` before its last character, so the split happens right
      after it. */
  lemma SplitAfterKey(line: string)
    requires HasEnvKey(line)
    ensures AfterFirstEquals(line) == Some(line[|EnvKey|..])
  {
    NameHasNoEquals();
    var n := |EnvName|;
    assert line[..|EnvKey|][n] == '=';
    assert forall j :: 0 <= j < n ==> line[j] == line[..|EnvKey|][j] == EnvName[j];
    assert IndexOf(line, '=', 0) == Some(n);
  }

  /** Python's `s[1:-1]`: the first and the last character dropped. */
  function DropEnds(s: string): (r: string)
    ensures |r| == if |s| < 2 then 0 else |s| - 2
    ensures forall i :: 0 <= i < |r| ==> r[i] == s[i + 1]
  {
    if |s| < 2 then [] else s[1..|s| - 1]
  }

  /** Drops the first and last character of a value that starts with a quote. */
  function Unquote(v: string): string
  {
    if |v| > 0 && IsQuote(v[0]) then DropEnds(v) else v
  }

  /** The folder id on a `.env` line: the stripped value after the key, unquoted. */
  function EnvValue(line: string): string
    requires HasEnvKey(line)
  {
    SplitAfterKey(line);
    Unquote(Strip(AfterFirstEquals(line).value))
  }

  /** What follows the key is stripped and unquoted. */
  lemma EnvValueAfterKey(rest: string)
    ensures HasEnvKey(EnvKey + rest)
    ensures EnvValue(EnvKey + rest) == Unquote(Strip(rest))
  {
    var line := EnvKey + rest;
    assert line[..|EnvKey|] == EnvKey;
    assert line[|EnvKey|..] == rest;
    SplitAfterKey(line);
    assert AfterFirstEquals(line).value == rest;
  }

  /** An unquoted value is read as written, without the line's trailing space. */
  lemma EnvValuePlain(v: string, tail: string)
    requires v == [] || (!IsSpace(v[0]) && !IsSpace(v[|v| - 1]) && !IsQuote(v[0]))
    requires AllSpace(tail)
    ensures HasEnvKey(EnvKey + v + tail) && EnvValue(EnvKey + v + tail) == v
  {
    assert EnvKey + v + tail == EnvKey + (v + tail);
    EnvValueAfterKey(v + tail);
    StripPadding(v, tail);
  }

  /** A value in matching quotes loses them. */
  lemma EnvValueQuoted(q: char, v: string, tail: string)
    requires IsQuote(q) && AllSpace(tail)
    ensures HasEnvKey(EnvKey + [q] + v + [q] + tail) && EnvValue(EnvKey + [q] + v + [q] + tail) == v
  {
    var w := [q] + v + [q];
    assert EnvKey + [q] + v + [q] + tail == EnvKey + (w + tail);
    StripPadding(w, tail);
    assert Unquote(w) == v;
    EnvValueAfterKey(w + tail);
  }

  /** The closing quote is not checked: an opening quote alone costs the last
      character of the value. */
  lemma EnvValueUnclosedQuote(q: char, v: string, tail: string)
    requires IsQuote(q) && v != [] && !IsSpace(v[|v| - 1]) && AllSpace(tail)
    ensures HasEnvKey(EnvKey + [q] + v + tail) && EnvValue(EnvKey + [q] + v + tail) == v[..|v| - 1]
  {
    var w := [q] + v;
    assert EnvKey + [q] + v + tail == EnvKey + (w + tail);
    assert w[|w| - 1] == v[|v| - 1];
    StripPadding(w, tail);
    assert w[1..|w| - 1] == v[..|v| - 1];
    EnvValueAfterKey(w + tail);
  }

  /** `get_parent_folder_id()`: `env` is the environment variable and `envFile`
      the lines of the `.env` file, `None` when it is unset or missing. */
  method ParentFolderId(env: Option<string>, envFile: Option<seq<string>>) returns (folderId: Option<string>)
    ensures env.Some? && env.value != [] ==> folderId == env
    ensures (env.None? || env.value == []) && envFile.None? ==> folderId.None?
    ensures (env.None? || env.value == []) && envFile.Some? ==>
      var lines := envFile.value;
      (folderId.None? <==> forall i :: 0 <= i < |lines| ==> !HasEnvKey(lines[i])) &&
      (folderId.Some? ==>
        exists i :: 0 <= i < |lines| && HasEnvKey(lines[i]) &&
          (forall j :: 0 <= j < i ==> !HasEnvKey(lines[j])) && folderId.value == EnvValue(lines[i]))
  {
    if env.Some? && env.value != [] {
      return env;
    }
    if envFile.None? {
      return None;
    }
    var lines := envFile.value;
    var i := 0;
    while i < |lines|
      invariant 0 <= i <= |lines|
      invariant forall j :: 0 <= j < i ==> !HasEnvKey(lines[j])
    {
      if HasEnvKey(lines[i]) {
        return Some(EnvValue(lines[i]));
      }
      i := i + 1;
    }
    return None;
  }
}
