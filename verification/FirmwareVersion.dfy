// OS version strings and the order in which updates may replace one another.
module FirmwareVersion {
  import opened Options
  import opened FirmwarePolicy

  /** major, minor, patch; a pre-release sorts below its final version. */
  datatype Version = Version(major: nat, minor: nat, patch: nat, final: bool)

  predicate IsDigit(c: char) {
    '0' <= c <= '9'
  }

  predicate AllDigits(s: string) {
    forall i :: 0 <= i < |s| ==> IsDigit(s[i])
  }

  function TakeDigits(s: string): string {
    if s == [] || !IsDigit(s[0]) then "" else [s[0]] + TakeDigits(s[1..])
  }

  /** The alternation `0|[1-9][0-9]*`. */
  predicate IsNumeral(s: string) {
    s != [] && AllDigits(s) && (s[0] == '0' ==> |s| == 1)
  }

  function ValueOf(s: string): nat
    requires AllDigits(s)
  {
    if s == [] then 0 else 10 * ValueOf(s[..|s| - 1]) + (s[|s| - 1] as int - '0' as int)
  }

  function Show(n: nat): string {
    if n < 10 then [('0' as int + n) as char] else Show(n / 10) + [('0' as int + n % 10) as char]
  }

  lemma {:induction false} ShowIs(n: nat)
    ensures IsNumeral(Show(n)) && ValueOf(Show(n)) == n && (n > 0 ==> Show(n)[0] != '0')
  {
    if n >= 10 {
      ShowIs(n / 10);
      assert Show(n)[..|Show(n)| - 1] == Show(n / 10);
    } else {
      assert Show(n)[..0] == [];
    }
  }

  lemma {:induction false} ShowValue(s: string)
    requires IsNumeral(s)
    ensures Show(ValueOf(s)) == s && (s[0] != '0' ==> ValueOf(s) > 0)
  {
    var front := s[..|s| - 1];
    if |s| == 1 {
      assert ValueOf(front) == 0;
    } else {
      ShowValue(front);
      assert s == front + [s[|s| - 1]];
      assert ValueOf(s) / 10 == ValueOf(front) && ValueOf(s) % 10 == s[|s| - 1] as int - '0' as int;
    }
  }

  /** A numeral followed by `end`, and what is left after it. */
  function ParseNumeral(s: string): Option<(nat, string)> {
    var digits := TakeDigits(s);
    TakeDigitsIs(s);
    if IsNumeral(digits) then Some((ValueOf(digits), s[|digits|..])) else None
  }

  lemma {:induction false} TakeDigitsIs(s: string)
    ensures AllDigits(TakeDigits(s)) && TakeDigits(s) <= s
    ensures |TakeDigits(s)| < |s| ==> !IsDigit(s[|TakeDigits(s)|])
  {
    if s != [] && IsDigit(s[0]) { TakeDigitsIs(s[1..]); }
  }

  /** The full match of v<n>.<n>.<n> with an optional -alpha. */
  function Parse(s: string): Option<Version> {
    if s == [] || s[0] != 'v' then None
    else
      var a := ParseNumeral(s[1..]);
      if a.None? || a.value.1 == [] || a.value.1[0] != '.' then None
      else
        var b := ParseNumeral(a.value.1[1..]);
        if b.None? || b.value.1 == [] || b.value.1[0] != '.' then None
        else
          var c := ParseNumeral(b.value.1[1..]);
          if c.None? then None
          else if c.value.1 == "" then Some(Version(a.value.0, b.value.0, c.value.0, true))
          else if c.value.1 == "-alpha" then Some(Version(a.value.0, b.value.0, c.value.0, false))
          else None
  }

  function Text(v: Version): string {
    "v" + (Show(v.major) + ("." + (Show(v.minor) + ("." + (Show(v.patch) + if v.final then "" else "-alpha")))))
  }

  lemma {:induction false} TakeDigitsOf(a: string, rest: string)
    requires AllDigits(a) && (rest == [] || !IsDigit(rest[0]))
    ensures TakeDigits(a + rest) == a
  {
    if a == [] {
      assert a + rest == rest;
    } else {
      assert (a + rest)[1..] == a[1..] + rest;
      TakeDigitsOf(a[1..], rest);
    }
  }

  lemma {:induction false} ParseShown(n: nat, rest: string)
    requires rest == [] || !IsDigit(rest[0])
    ensures ParseNumeral(Show(n) + rest) == Some((n, rest))
  {
    ShowIs(n);
    TakeDigitsOf(Show(n), rest);
  }

  lemma ParsedIs(s: string)
    requires ParseNumeral(s).Some?
    ensures s == Show(ParseNumeral(s).value.0) + ParseNumeral(s).value.1
  {
    TakeDigitsIs(s);
    ShowValue(TakeDigits(s));
    assert s == s[..|TakeDigits(s)|] + s[|TakeDigits(s)|..];
  }

  /** A string is accepted with version `v` exactly when it is the canonical text of `v`. */
  lemma ParseIsText(s: string, v: Version)
    ensures Parse(s) == Some(v) <==> s == Text(v)
  {
    var suffix := if v.final then "" else "-alpha";
    var t3 := Show(v.patch) + suffix;
    var t2 := Show(v.minor) + ("." + t3);
    var t1 := Show(v.major) + ("." + t2);
    ParseShown(v.patch, suffix);
    ParseShown(v.minor, "." + t3);
    ParseShown(v.major, "." + t2);
    assert ("." + t3)[1..] == t3 && ("." + t2)[1..] == t2 && ("v" + t1)[1..] == t1;
    assert Parse(Text(v)) == Some(v);
    if Parse(s) == Some(v) {
      ParsedIs(s[1..]);
      var a := ParseNumeral(s[1..]).value;
      ParsedIs(a.1[1..]);
      var b := ParseNumeral(a.1[1..]).value;
      ParsedIs(b.1[1..]);
      assert s == "v" + s[1..] && a.1 == "." + a.1[1..] && b.1 == "." + b.1[1..];
    }
  }

  /** Two accepted strings with the same version are the same string. */
  lemma ParseInjective(s: string, t: string)
    requires Parse(s).Some? && Parse(s) == Parse(t)
    ensures s == t
  {
    ParseIsText(s, Parse(s).value);
    ParseIsText(t, Parse(s).value);
  }

  /** Comparison of the keys, component by component. */
  predicate Below(a: Version, b: Version) {
    if a.major != b.major then a.major < b.major
    else if a.minor != b.minor then a.minor < b.minor
    else if a.patch != b.patch then a.patch < b.patch
    else !a.final && b.final
  }

  lemma BelowIsStrictTotal(a: Version, b: Version, c: Version)
    ensures !Below(a, a)
    ensures Below(a, b) && Below(b, c) ==> Below(a, c)
    ensures Below(a, b) || a == b || Below(b, a)
    ensures !(Below(a, b) && Below(b, a))
    ensures Below(Version(a.major, a.minor, a.patch, false), Version(a.major, a.minor, a.patch, true))
  {
  }

  /** What the update check accepts as the next version. */
  predicate NotOlder(current: string, target: string) {
    Parse(current).Some? && Parse(target).Some? && !Below(Parse(target).value, Parse(current).value)
  }

  lemma BelowChain(a: Version, b: Version, c: Version)
    requires !Below(b, a) && !Below(c, b)
    ensures !Below(c, a) && (a == c ==> a == b)
  {
  }

  lemma NotOlderChain(a: string, b: string, c: string)
    requires NotOlder(a, b) && NotOlder(b, c)
    ensures NotOlder(a, c) && (Parse(a) == Parse(c) ==> a == b == c)
  {
    BelowChain(Parse(a).value, Parse(b).value, Parse(c).value);
    if Parse(a) == Parse(c) {
      ParseInjective(a, b);
      ParseInjective(b, c);
    }
  }

  /** Every version was accepted as an update of the one before it. */
  ghost predicate Chain(versions: seq<string>) {
    forall k :: 0 <= k < |versions| - 1 ==> NotOlder(versions[k], versions[k + 1])
  }

  /** Along a chain of accepted updates versions never decrease. */
  lemma {:induction false} ChainNeverDecreases(versions: seq<string>, i: nat, j: nat)
    requires i < j < |versions| && Chain(versions)
    ensures NotOlder(versions[i], versions[j])
    decreases j - i
  {
    if i + 1 < j {
      ChainNeverDecreases(versions, i + 1, j);
      NotOlderChain(versions[i], versions[i + 1], versions[j]);
    }
  }

  /** If a chain comes back to the same version, every step between had the identical string. */
  lemma SameVersionSameString(versions: seq<string>, i: nat, k: nat, j: nat)
    requires i < k < j < |versions| && Chain(versions) && Parse(versions[i]) == Parse(versions[j])
    ensures versions[i] == versions[k] == versions[j]
  {
    ChainNeverDecreases(versions, i, k);
    ChainNeverDecreases(versions, k, j);
    NotOlderChain(versions[i], versions[k], versions[j]);
  }
}
