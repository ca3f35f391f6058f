// Text that the tools share: blank-separated words, splitting on a character, and digests.
module Words {

  predicate Space(c: char) {
    c == ' ' || c == '\t'
  }

  function SkipSpaces(s: string): string {
    if s != [] && Space(s[0]) then SkipSpaces(s[1..]) else s
  }

  function Token(s: string): string {
    if s == [] || Space(s[0]) then "" else [s[0]] + Token(s[1..])
  }

  function AfterToken(s: string): string {
    if s == [] || Space(s[0]) then s else AfterToken(s[1..])
  }

  lemma {:induction false} TokenSplits(s: string)
    ensures s == Token(s) + AfterToken(s)
    ensures forall i :: 0 <= i < |Token(s)| ==> !Space(Token(s)[i])
    ensures AfterToken(s) == [] || Space(AfterToken(s)[0])
  {
    if s != [] && !Space(s[0]) { TokenSplits(s[1..]); }
  }

  lemma {:induction false} SkipShortens(s: string)
    ensures |SkipSpaces(s)| <= |s| && (SkipSpaces(s) == [] || !Space(SkipSpaces(s)[0]))
  {
    if s != [] && Space(s[0]) { SkipShortens(s[1..]); }
  }

  /** str.split() on one line. */
  function Fields(s: string): seq<string>
    decreases |s|
  {
    var t := SkipSpaces(s);
    SkipShortens(s);
    TokenSplits(t);
    if t == [] then [] else [Token(t)] + Fields(AfterToken(t))
  }

  /** rstrip of one line. */
  function TrimEnd(s: string): string {
    if s != "" && Space(s[|s| - 1]) then TrimEnd(s[..|s| - 1]) else s
  }

  function Spaces(s: string): string {
    if s != [] && Space(s[0]) then [s[0]] + Spaces(s[1..]) else ""
  }

  predicate AllSpaces(s: string) {
    forall i :: 0 <= i < |s| ==> Space(s[i])
  }

  lemma {:induction false} SpacesSplit(s: string)
    ensures s == Spaces(s) + SkipSpaces(s) && AllSpaces(Spaces(s))
  {
    if s != [] && Space(s[0]) { SpacesSplit(s[1..]); }
  }

  lemma {:induction false} AfterSpaces(gap: string, rest: string)
    requires AllSpaces(gap) && (rest == [] || !Space(rest[0]))
    ensures SkipSpaces(gap + rest) == rest && Spaces(gap + rest) == gap && Fields(gap + rest) == Fields(rest)
  {
    if gap == [] {
      assert gap + rest == rest;
    } else {
      assert (gap + rest)[1..] == gap[1..] + rest;
      AfterSpaces(gap[1..], rest);
      assert SkipSpaces(rest) == rest;
    }
  }

  lemma {:induction false} TokenOf(token: string, rest: string)
    requires (forall i :: 0 <= i < |token| ==> !Space(token[i])) && (rest == [] || Space(rest[0]))
    ensures Token(token + rest) == token && AfterToken(token + rest) == rest
  {
    if token == [] {
      assert token + rest == rest;
    } else {
      assert (token + rest)[1..] == token[1..] + rest;
      TokenOf(token[1..], rest);
    }
  }

  lemma {:induction false} FirstField(token: string, rest: string)
    requires token != "" && (forall i :: 0 <= i < |token| ==> !Space(token[i])) && (rest == [] || Space(rest[0]))
    ensures Fields(token + rest) == [token] + Fields(rest) && SkipSpaces(token + rest) == token + rest
  {
    TokenOf(token, rest);
    assert (token + rest)[0] == token[0];
  }

  // ----- Splitting on a character -----

  /** str.split on a separator character. */
  function SplitOn(s: string, c: char): seq<string> {
    if s == [] then [""]
    else
      var rest := SplitOn(s[1..], c);
      if s[0] == c then [""] + rest else if rest == [] then [[s[0]]] else [[s[0]] + rest[0]] + rest[1..]
  }

  /** str.join. */
  function JoinWith(parts: seq<string>, c: char): string {
    if parts == [] then "" else if |parts| == 1 then parts[0] else parts[0] + [c] + JoinWith(parts[1..], c)
  }

  predicate Without(s: string, c: char) {
    forall i :: 0 <= i < |s| ==> s[i] != c
  }

  lemma {:induction false} SplitFirst(part: string, rest: string, c: char)
    requires Without(part, c)
    ensures SplitOn(part, c) == [part] && SplitOn(part + [c] + rest, c) == [part] + SplitOn(rest, c)
  {
    var s := part + [c] + rest;
    if part == "" {
      assert s[1..] == rest;
    } else {
      SplitFirst(part[1..], rest, c);
      assert s[1..] == part[1..] + [c] + rest;
      assert [part[0]] + part[1..] == part;
      var tail := SplitOn(s[1..], c);
      assert tail[0] == part[1..] && tail[1..] == SplitOn(rest, c);
      assert SplitOn(s, c) == [[part[0]] + tail[0]] + tail[1..];
    }
  }

  lemma {:induction false} SplitJoined(parts: seq<string>, c: char)
    requires parts != [] && forall i :: 0 <= i < |parts| ==> Without(parts[i], c)
    ensures SplitOn(JoinWith(parts, c), c) == parts
  {
    if |parts| == 1 {
      SplitFirst(parts[0], "", c);
    } else {
      SplitJoined(parts[1..], c);
      SplitFirst(parts[0], JoinWith(parts[1..], c), c);
    }
  }

  lemma {:induction false} SplitParts(s: string, c: char)
    ensures SplitOn(s, c) != [] && forall i :: 0 <= i < |SplitOn(s, c)| ==> Without(SplitOn(s, c)[i], c)
  {
    if s != [] { SplitParts(s[1..], c); }
  }

  lemma {:induction false} JoinSplit(s: string, c: char)
    ensures SplitOn(s, c) != [] && JoinWith(SplitOn(s, c), c) == s
  {
    if s != "" {
      JoinSplit(s[1..], c);
      var rest := SplitOn(s[1..], c);
      if s[0] == c {
        assert ([""] + rest)[1..] == rest;
        assert "" + [c] + s[1..] == s;
      } else {
        assert ([[s[0]] + rest[0]] + rest[1..])[1..] == rest[1..];
        assert [s[0]] + s[1..] == s;
        if |rest| > 1 { assert [s[0]] + rest[0] + [c] + JoinWith(rest[1..], c) == [s[0]] + (rest[0] + [c] + JoinWith(rest[1..], c)); }
      }
    }
  }

  /** Two separators in a row make an empty part that is not the first. */
  lemma {:induction false} EmptyPart(s: string, c: char, i: nat)
    requires i + 1 < |s| && s[i] == c == s[i + 1]
    ensures |SplitOn(s, c)| > 1 && "" in SplitOn(s, c)[1..]
  {
    var rest := SplitOn(s[1..], c);
    SplitParts(s[1..], c);
    if i == 0 {
      assert rest[0] == "";
      assert ([""] + rest)[1..] == rest;
    } else {
      EmptyPart(s[1..], c, i - 1);
      assert ([""] + rest)[1..] == rest;
      assert ([[s[0]] + rest[0]] + rest[1..])[1..] == rest[1..];
      assert forall part :: part in rest[1..] ==> part in rest;
    }
  }

  // ----- Digests -----

  /** 64 lower-case hexadecimal digits. */
  predicate IsDigest(s: string) {
    |s| == 64 && forall i :: 0 <= i < |s| ==> '0' <= s[i] <= '9' || 'a' <= s[i] <= 'f'
  }
}
