/** The shared URL helper: every `:key` placeholder named by a parameter
    has its first occurrence replaced by the parameter's text, parameter by
    parameter in entry order. The replacement goes through the JavaScript
    string `replace` rules, so `$` patterns in a value are expanded. */
module Url {
  import opened Wrappers

  /** A parameter value: a string, or an integral number. */
  datatype Value = Text(s: string) | Number(n: int)

  function DigitChar(d: int): char
    requires 0 <= d < 10
  {
    "0123456789"[d]
  }

  /** Decimal digits of a natural number, most significant first. */
  function NatDigits(n: nat): (r: string)
    ensures |r| >= 1
    ensures forall i :: 0 <= i < |r| ==> '0' <= r[i] <= '9'
    decreases n
  {
    if n < 10 then [DigitChar(n)] else NatDigits(n / 10) + [DigitChar(n % 10)]
  }

  /** `String(value)`. */
  function ValueText(v: Value): string {
    match v
    case Text(s) => s
    case Number(n) => if n < 0 then "-" + NatDigits(-n) else NatDigits(n)
  }

  predicate OccursAt(s: string, pat: string, k: int) {
    0 <= k && k + |pat| <= |s| && s[k..k + |pat|] == pat
  }

  /** The first occurrence of `pat` in `s` at or after `from`. */
  function IndexFrom(s: string, pat: string, from: nat): (r: Option<nat>)
    ensures r.Some? ==> from <= r.value && OccursAt(s, pat, r.value)
    ensures r.Some? ==> forall k :: from <= k < r.value ==> !OccursAt(s, pat, k)
    ensures r.None? ==> forall k :: from <= k ==> !OccursAt(s, pat, k)
    decreases |s| - from
  {
    if from + |pat| > |s| then None
    else if s[from..from + |pat|] == pat then Some(from)
    else IndexFrom(s, pat, from + 1)
  }

  function IndexOf(s: string, pat: string): Option<nat> {
    IndexFrom(s, pat, 0)
  }

  /** The replacement text for one match: `$$` gives `$`, `$&` the match,
      `` $` `` the text before it, `$'` the text after it; any other `$`
      is kept as it is (a string pattern has no capture groups). */
  function Expand(repl: string, matched: string, before: string, after: string): string
    decreases |repl|
  {
    if |repl| >= 2 && repl[0] == '$' && repl[1] == '$' then "$" + Expand(repl[2..], matched, before, after)
    else if |repl| >= 2 && repl[0] == '$' && repl[1] == '&' then matched + Expand(repl[2..], matched, before, after)
    else if |repl| >= 2 && repl[0] == '$' && repl[1] == '`' then before + Expand(repl[2..], matched, before, after)
    else if |repl| >= 2 && repl[0] == '$' && repl[1] == '\'' then after + Expand(repl[2..], matched, before, after)
    else if |repl| == 0 then ""
    else [repl[0]] + Expand(repl[1..], matched, before, after)
  }

  /** `s.replace(pat, repl)` with a string pattern: only the first occurrence. */
  function ReplaceFirst(s: string, pat: string, repl: string): string {
    match IndexOf(s, pat)
    case None => s
    case Some(j) => s[..j] + Expand(repl, pat, s[..j], s[j + |pat|..]) + s[j + |pat|..]
  }

  /** One parameter's turn of the `forEach`. */
  function Step(url: string, entry: (string, Value)): string {
    var pat := ":" + entry.0;
    if IndexOf(url, pat).Some? then ReplaceFirst(url, pat, ValueText(entry.1)) else url
  }

  /** The URL after the parameters' turns, in entry order. */
  function Substitute(path: string, entries: seq<(string, Value)>): string {
    if entries == [] then path
    else Step(Substitute(path, entries[..|entries| - 1]), entries[|entries| - 1])
  }

  /** `buildUrl`: without parameters the path comes back as it is. */
  method BuildUrl(path: string, params: Option<seq<(string, Value)>>) returns (url: string)
    ensures params.None? ==> url == path
    ensures params.Some? ==> url == Substitute(path, params.value)
  {
    url := path;
    if params.Some? {
      var entries := params.value;
      var i := 0;
      while i < |entries|
        invariant 0 <= i <= |entries|
        invariant url == Substitute(path, entries[..i])
      {
        var (key, value) := entries[i];
        assert entries[..i + 1][..i] == entries[..i];
        if IndexOf(url, ":" + key).Some? {
          url := ReplaceFirst(url, ":" + key, ValueText(value));
        }
        i := i + 1;
      }
      assert entries[..i] == entries;
    }
  }

  predicate NoDollar(s: string) {
    forall i :: 0 <= i < |s| ==> s[i] != '$'
  }

  lemma {:induction false} ExpandPlain(repl: string, matched: string, before: string, after: string)
    requires NoDollar(repl)
    ensures Expand(repl, matched, before, after) == repl
    decreases |repl|
  {
    if |repl| > 0 {
      ExpandPlain(repl[1..], matched, before, after);
      assert repl == [repl[0]] + repl[1..];
    }
  }

  /** A value free of `$` lands verbatim in place of the first occurrence of
      the placeholder, the text on either side kept; a placeholder that does
      not occur leaves the URL as it is. */
  lemma StepReplacesFirst(url: string, key: string, v: Value)
    requires NoDollar(ValueText(v))
    ensures var pat := ":" + key;
            match IndexOf(url, pat)
            case None => Step(url, (key, v)) == url
            case Some(j) =>
              && (forall k :: 0 <= k < j ==> !OccursAt(url, pat, k))
              && Step(url, (key, v)) == url[..j] + ValueText(v) + url[j + |pat|..]
  {
    var pat := ":" + key;
    match IndexOf(url, pat)
    case None =>
    case Some(j) =>
      ExpandPlain(ValueText(v), pat, url[..j], url[j + |pat|..]);
      assert ReplaceFirst(url, pat, ValueText(v)) == url[..j] + ValueText(v) + url[j + |pat|..];
  }

  /** A URL without any `:` has no placeholder for any parameter. */
  lemma {:induction false} NoColonUnchanged(path: string, entries: seq<(string, Value)>)
    requires forall i :: 0 <= i < |path| ==> path[i] != ':'
    ensures Substitute(path, entries) == path
  {
    if entries != [] {
      NoColonUnchanged(path, entries[..|entries| - 1]);
      var pat := ":" + entries[|entries| - 1].0;
      forall k | 0 <= k ensures !OccursAt(path, pat, k) {
        if k + |pat| <= |path| {
          assert path[k..k + |pat|][0] == path[k] != pat[0];
        }
      }
      assert IndexOf(path, pat).None?;
    }
  }

  /** A placeholder is matched as a plain prefix: `:id` also matches the
      start of `:idx`. */
  lemma PrefixPlaceholder()
    ensures Step(":idx", ("id", Text("7"))) == "7x"
  {
    var url := ":idx";
    assert url[0..3] == ":id";
    assert IndexOf(url, ":id") == Some(0);
    assert url[3..] == "x";
    StepReplacesFirst(url, "id", Text("7"));
  }

  /** Entry order matters when one key is a prefix of another. */
  lemma OrderMatters()
    ensures Substitute(":ab", [("a", Text("x")), ("ab", Text("y"))]) == "xb"
    ensures Substitute(":ab", [("ab", Text("y")), ("a", Text("x"))]) == "y"
  {
    var p := ":ab";
    assert p[0..2] == ":a" && p[0..3] == ":ab";
    assert IndexOf(p, ":a") == Some(0);
    assert IndexOf(p, ":ab") == Some(0);
    assert p[2..] == "b" && p[3..] == "";
    StepReplacesFirst(p, "a", Text("x"));
    StepReplacesFirst(p, "ab", Text("y"));
    assert Step(p, ("a", Text("x"))) == "xb";
    assert Step(p, ("ab", Text("y"))) == "y";
    NoColonUnchanged("xb", [("ab", Text("y"))]);
    NoColonUnchanged("y", [("a", Text("x"))]);
    var e1: seq<(string, Value)> := [("a", Text("x")), ("ab", Text("y"))];
    var e2: seq<(string, Value)> := [("ab", Text("y")), ("a", Text("x"))];
    assert e1[..1] == [("a", Text("x"))] && e1[..1][..0] == [];
    assert e2[..1] == [("ab", Text("y"))] && e2[..1][..0] == [];
  }

  /** A value holding `$&` puts the placeholder itself back. */
  lemma DollarAmpersand()
    ensures Step(":id", ("id", Text("$&"))) == ":id"
  {
    var url := ":id";
    assert url[0..3] == ":id";
    assert IndexOf(url, ":id") == Some(0);
    assert url[3..] == "";
    var e := Expand("$&", ":id", "", "");
    assert "$&"[2..] == "";
    assert e == ":id";
  }
}
