/** The string part of Get/SetIsStartWithSystem: which launcher the
    "Eyeshade" value under the Run registry key names, and the value
    written to register one. The registry itself is a parameter: the
    stored value, or None when it is absent. */
module LauncherPath {
  import opened Wrappers

  const StartWithSystemArgument: string := " --start-with-system"

  /** The white-space characters String.Trim removes (ASCII subset). */
  predicate IsWhiteSpace(c: char) {
    c == ' ' || c == '\t' || c == '\n' || c == '\r' || c == '\U{B}' || c == '\U{C}'
  }

  /** String.TrimStart: drops the leading white space and nothing else. */
  function TrimStart(s: string): (r: string)
    ensures |r| <= |s| && r == s[|s| - |r|..]
    ensures forall k :: 0 <= k < |s| - |r| ==> IsWhiteSpace(s[k])
    ensures |r| > 0 ==> !IsWhiteSpace(r[0])
    ensures |s| > 0 && !IsWhiteSpace(s[0]) ==> r == s
    decreases |s|
  {
    if |s| > 0 && IsWhiteSpace(s[0]) then TrimStart(s[1..]) else s
  }

  /** String.TrimEnd: drops the trailing white space and nothing else. */
  function TrimEnd(s: string): (r: string)
    ensures |r| <= |s| && r == s[..|r|]
    ensures forall k :: |r| <= k < |s| ==> IsWhiteSpace(s[k])
    ensures |r| > 0 ==> !IsWhiteSpace(r[|r| - 1])
    ensures |s| > 0 && !IsWhiteSpace(s[|s| - 1]) ==> r == s
    decreases |s|
  {
    if |s| > 0 && IsWhiteSpace(s[|s| - 1]) then TrimEnd(s[..|s| - 1]) else s
  }

  function Trim(s: string): string {
    TrimEnd(TrimStart(s))
  }

  /** String.IndexOf(c, from): the first position at or after `from`
      holding c, or -1. */
  function IndexOf(s: string, c: char, from: nat): (i: int)
    ensures i == -1 || from <= i < |s|
    ensures i >= 0 ==> s[i] == c && forall k :: from <= k < i ==> s[k] != c
    ensures i == -1 ==> forall k :: from <= k < |s| ==> s[k] != c
    decreases |s| - from
  {
    if from >= |s| then -1
    else if s[from] == c then from
    else IndexOf(s, c, from + 1)
  }

  /** s.Split(' ')[0]: everything before the first space. */
  function FirstField(s: string): (r: string)
    ensures |r| <= |s| && r == s[..|r|] && ' ' !in r
    ensures |r| < |s| ==> s[|r|] == ' '
  {
    var i := IndexOf(s, ' ', 0);
    if i < 0 then s else s[..i]
  }

  /** The launcher a non-empty trimmed value names: between its first two
      quotes when it starts with one (nothing if the second quote is
      missing or directly follows the first), otherwise its first
      space-separated field. */
  function ParseLauncher(v: string): (r: Option<string>)
    requires |v| > 0
    ensures v[0] != '"' ==> r == Some(FirstField(v))
    ensures v[0] == '"' && r.Some? ==> |r.value| > 0 && '"' !in r.value
    ensures v[0] == '"' && r.Some? ==> |r.value| + 2 <= |v| && v[..|r.value| + 2] == "\"" + r.value + "\""
    ensures v[0] == '"' ==>
      (r.None? <==> (|v| > 1 && v[1] == '"') || forall k :: 1 <= k < |v| ==> v[k] != '"')
  {
    if v[0] == '"' then
      var secQuoteIndex := IndexOf(v, '"', 1);
      if secQuoteIndex > 1 then Some(v[1..secQuoteIndex]) else None
    else Some(FirstField(v))
  }

  /** The launcher the stored value names, if any. */
  function RegisteredLauncher(stored: Option<string>): Option<string> {
    var v := Trim(stored.GetOr(""));
    if |v| == 0 then None else ParseLauncher(v)
  }

  /** GetIsStartWithSystem(path): does the stored value name this
      launcher? An empty path never matches. */
  function IsStartWithSystem(stored: Option<string>, currentLauncherPath: string): bool {
    |currentLauncherPath| > 0 && RegisteredLauncher(stored) == Some(currentLauncherPath)
  }

  /** The value registered for a launcher: the quoted path followed by the
      start-up argument. */
  function RunValue(launcherPath: string): (v: string)
    ensures |v| > 0 && v[0] == '"'
  {
    "\"" + launcherPath + "\"" + StartWithSystemArgument
  }

  datatype RegistryAction = Keep | Write(value: string) | Delete

  /** SetIsStartWithSystem(value, path): an empty path is rejected;
      otherwise the value is written or deleted only when the registry
      does not already say what is asked. */
  function SetIsStartWithSystem(stored: Option<string>, value: bool, currentLauncherPath: string): (r: Result<RegistryAction>)
    ensures r.Err? <==> |currentLauncherPath| == 0
    ensures r.Ok? && IsStartWithSystem(stored, currentLauncherPath) == value ==> r.value == Keep
    ensures r.Ok? && IsStartWithSystem(stored, currentLauncherPath) != value ==>
      r.value == if value then Write(RunValue(currentLauncherPath)) else Delete
  {
    if |currentLauncherPath| == 0 then Err(ArgumentNull)
    else
      var oldValue := IsStartWithSystem(stored, currentLauncherPath);
      if oldValue != value then
        Ok(if value then Write(RunValue(currentLauncherPath)) else Delete)
      else Ok(Keep)
  }

  function ApplyAction(stored: Option<string>, a: RegistryAction): Option<string> {
    match a
    case Keep => stored
    case Write(v) => Some(v)
    case Delete => None
  }

  /** ASCII lower-casing, enough for the ".dll" suffix test. */
  function AsciiLower(c: char): char {
    if 'A' <= c <= 'Z' then (c as int + 32) as char else c
  }

  predicate EndsWithDll(s: string) {
    |s| >= 4 && AsciiLower(s[|s| - 4]) == '.' && AsciiLower(s[|s| - 3]) == 'd'
    && AsciiLower(s[|s| - 2]) == 'l' && AsciiLower(s[|s| - 1]) == 'l'
  }

  /** The launcher derived from the entry assembly's location: none for an
      empty location, and a ".dll" host replaced by its ".exe". */
  function LauncherFromLocation(location: string): (r: Option<string>)
    ensures r.None? <==> |location| == 0
    ensures r.Some? && EndsWithDll(location) ==>
      r.value == location[..|location| - 4] + ".exe"
    ensures r.Some? && !EndsWithDll(location) ==> r.value == location
  {
    if |location| == 0 then None
    else if EndsWithDll(location) then Some(location[..|location| - 4] + ".exe")
    else Some(location)
  }

  /* ---------------------------------------------------------------- */

  /** The value written for a launcher is its own trimmed form when the
      path has no surrounding white space issue: it starts with a quote and
      ends with the argument's last letter. */
  lemma RunValueIsTrimmed(p: string)
    ensures Trim(RunValue(p)) == RunValue(p)
  {
    var v := RunValue(p);
    assert v[0] == '"';
    assert TrimStart(v) == v;
    assert v[|v| - 1] == 'm';
  }

  /** Parsing the written value gives the launcher back, for every
      non-empty path without a quote in it. */
  lemma ParseRunValue(p: string)
    requires |p| > 0 && '"' !in p
    ensures ParseLauncher(RunValue(p)) == Some(p)
    ensures RegisteredLauncher(Some(RunValue(p))) == Some(p)
  {
    var v := RunValue(p);
    RunValueQuotes(p);
    IndexOfFinds(v, '"', 1, 1 + |p|);
    assert ParseLauncher(v) == Some(v[1..1 + |p|]);
    RunValueIsTrimmed(p);
    assert RegisteredLauncher(Some(v)) == ParseLauncher(Trim(v));
  }

  /** The written value is the path between two quotes, with no quote
      inside. */
  lemma RunValueQuotes(p: string)
    requires '"' !in p
    ensures var v := RunValue(p);
            1 + |p| < |v| && v[1 + |p|] == '"' && v[1..1 + |p|] == p
            && forall k :: 1 <= k < 1 + |p| ==> v[k] != '"'
  {
    var v := RunValue(p);
    assert v == "\"" + p + "\"" + StartWithSystemArgument;
    assert v[1 + |p|] == '"';
    assert v[1..1 + |p|] == p;
    forall k | 1 <= k < 1 + |p|
      ensures v[k] != '"'
    {
      assert v[k] == p[k - 1];
    }
  }

  /** IndexOf finds the first occurrence at or after its start. */
  lemma {:induction false} IndexOfFinds(s: string, c: char, from: nat, j: nat)
    requires from <= j < |s| && s[j] == c
    requires forall k :: from <= k < j ==> s[k] != c
    ensures IndexOf(s, c, from) == j
    decreases j - from
  {
    if from < j {
      IndexOfFinds(s, c, from + 1, j);
    }
  }

  /** After applying what SetIsStartWithSystem decided, the registry says
      what was asked, for every launcher path without a quote. */
  lemma SetThenGet(stored: Option<string>, value: bool, p: string)
    requires |p| > 0 && '"' !in p
    ensures SetIsStartWithSystem(stored, value, p).Ok?
    ensures IsStartWithSystem(ApplyAction(stored, SetIsStartWithSystem(stored, value, p).value), p) == value
  {
    if value && !IsStartWithSystem(stored, p) {
      ParseRunValue(p);
    }
  }

  /** A value that does not start with a quote names its first field,
      which is never empty once the value is trimmed. */
  lemma UnquotedValueNamesFirstField(stored: string)
    requires var v := Trim(stored); |v| > 0 && v[0] != '"'
    ensures RegisteredLauncher(Some(stored)) == Some(FirstField(Trim(stored)))
    ensures |FirstField(Trim(stored))| > 0
  {
    var v := Trim(stored);
    assert v == TrimEnd(TrimStart(stored));
    assert v[0] == TrimStart(stored)[0];
  }
}
