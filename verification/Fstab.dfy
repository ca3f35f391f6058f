// The installer's fstab correction on composefs systems, and why running it again changes nothing.
module Fstab {
  import opened Options
  import opened Words

  /** One line: its text without the newline, and whether a newline ends it. */
  datatype Line = Line(text: string, ended: bool)

  // ----- Texts and lines -----

  function Join(ls: seq<Line>): string {
    if ls == [] then "" else ls[0].text + (if ls[0].ended then "\n" else "") + Join(ls[1..])
  }

  /** splitlines(keepends=True), for texts whose only line break is the newline. */
  function SplitLines(s: string, line: string): seq<Line> {
    if s == [] then if line == "" then [] else [Line(line, false)]
    else if s[0] == '\n' then [Line(line, true)] + SplitLines(s[1..], "")
    else SplitLines(s[1..], line + [s[0]])
  }

  predicate OneLine(s: string) {
    forall i :: 0 <= i < |s| ==> s[i] != '\n'
  }

  /** A list that comes from splitting a text. */
  predicate Whole(ls: seq<Line>) {
    ls == [] || (
      && OneLine(ls[0].text) && (ls[0].ended || (ls[0].text != "" && |ls| == 1))
      && Whole(ls[1..]))
  }

  lemma {:induction false} SplitLine(text: string, prefix: string, rest: string)
    requires OneLine(text)
    ensures SplitLines(text + "\n" + rest, prefix) == [Line(prefix + text, true)] + SplitLines(rest, "")
    ensures SplitLines(text, prefix) == if prefix + text == "" then [] else [Line(prefix + text, false)]
  {
    var s := text + "\n" + rest;
    if text == "" {
      assert s[1..] == rest && prefix + text == prefix;
    } else {
      assert s[1..] == text[1..] + "\n" + rest;
      SplitLine(text[1..], prefix + [text[0]], rest);
      assert prefix + [text[0]] + text[1..] == prefix + text;
    }
  }

  /** Splitting what was joined gives the lines back. */
  lemma {:induction false} SplitJoin(ls: seq<Line>)
    requires Whole(ls)
    ensures SplitLines(Join(ls), "") == ls
  {
    if ls != [] {
      SplitJoin(ls[1..]);
      SplitLine(ls[0].text, "", Join(ls[1..]));
      assert "" + ls[0].text == ls[0].text;
      if ls[0].ended {
        assert ls == [ls[0]] + ls[1..];
      } else {
        assert ls[1..] == [] && ls[0].text + "" + Join(ls[1..]) == ls[0].text;
      }
    }
  }

  datatype Kind = Inactive | Malformed | Root | Home | Var | Plain

  /** What an fstab line is: a comment or blank line, too short, or an entry by its mount point. */
  function KindOf(l: Line): Kind {
    var t, f := SkipSpaces(l.text), Fields(l.text);
    if t == [] || t[0] == '#' then Inactive
    else if |f| < 4 then Malformed
    else if f[1] == "/" then Root
    else if f[1] == "/home" || f[1] == "/var/home" then Home
    else if f[1] == "/var" then Var
    else Plain
  }

  // ----- The home rewrite -----

  predicate CanRehome(s: string) {
    var gap := AfterToken(s);
    var rest := SkipSpaces(gap);
    Token(s) != "" && Spaces(gap) != "" && "/home" <= rest && |rest| > 5 && Space(rest[5])
  }

  /** At the start of a line: a field, spaces, and /home as a whole field becomes /var/home. */
  function Rehome(s: string): string {
    if CanRehome(s) then Token(s) + (Spaces(AfterToken(s)) + ("/var/home" + SkipSpaces(AfterToken(s))[5..])) else s
  }

  // ----- The correction -----

  const NOTE := "#" + (" Composefs owns /;" + (" root= and rootflags=" + (" select its backing" + " filesystem.")))

  function RehomeLine(l: Line): Line { l.(text := Rehome(l.text)) }

  /** What a line becomes. When the home entry comes before the /var entry, it moves behind it. */
  function Piece(l: Line, home: Option<Line>, moved: bool): seq<Line> {
    match KindOf(l)
    case Root => [Line(NOTE, true), Line("# " + l.text, l.ended)]
    case Home => if home.None? then [l] else if moved then [] else [RehomeLine(l)]
    case Var => if home.Some? && moved then [l.(ended := true), RehomeLine(home.value)] else [l]
    case _ => [l]
  }

  function Pieces(ls: seq<Line>, home: Option<Line>, moved: bool): seq<Line> {
    if ls == [] then [] else Piece(ls[0], home, moved) + Pieces(ls[1..], home, moved)
  }

  /** The lines of one kind. */
  function OfKind(ls: seq<Line>, k: Kind): seq<Line> {
    if ls == [] then [] else if KindOf(ls[0]) == k then [ls[0]] + OfKind(ls[1..], k) else OfKind(ls[1..], k)
  }

  /** The order of home and /var entries. */
  function Marks(ls: seq<Line>): seq<Kind> {
    if ls == [] then [] else if KindOf(ls[0]) in {Home, Var} then [KindOf(ls[0])] + Marks(ls[1..]) else Marks(ls[1..])
  }

  /** One boot entry's options select the root file system and subvolume of these fields. */
  predicate Selects(options: seq<string>, fields: seq<string>) {
    && |fields| >= 4 && "root=" + fields[0] in options
    && forall v :: v in SplitOn(fields[3], ',') && ("subvol=" <= v || "subvolid=" <= v) ==>
         exists a :: a in options && "rootflags=" <= a && v in SplitOn(a[10..], ',')
  }

  ghost predicate RefusesRoot(roots: seq<Line>, boot: seq<seq<string>>) {
    || |roots| > 1
    || (|roots| == 1 && !exists o :: o in boot && Selects(o, Fields(roots[0].text)))
  }

  /** When the correction refuses to edit. */
  ghost predicate Refuses(ls: seq<Line>, boot: seq<seq<string>>, canonicalHome: bool) {
    var roots, homes, vars := OfKind(ls, Root), OfKind(ls, Home), OfKind(ls, Var);
    || OfKind(ls, Malformed) != []
    || RefusesRoot(roots, boot)
    || (canonicalHome && |homes| > 0 && (|homes| != 1 || |vars| > 1))
  }

  /** The corrected lines, when the correction does not refuse. */
  function Corrected(ls: seq<Line>, canonicalHome: bool): seq<Line> {
    var homes := OfKind(ls, Home);
    if canonicalHome && |homes| == 1 then Pieces(ls, Some(homes[0]), Marks(ls) == [Home, Var])
    else Pieces(ls, None, false)
  }

  // ----- What the home rewrite does to a line -----

  /** A line made of a field, a gap, and a rest that starts with a field. */
  lemma {:induction false} GappedFields(token: string, gap: string, rest: string)
    requires token != "" && (forall i :: 0 <= i < |token| ==> !Space(token[i])) && gap != "" && AllSpaces(gap)
    requires rest != "" && !Space(rest[0])
    ensures var s := token + (gap + rest);
      && Token(s) == token && AfterToken(s) == gap + rest && SkipSpaces(s) == s
      && Spaces(gap + rest) == gap && SkipSpaces(gap + rest) == rest
      && Fields(s) == [token] + Fields(rest)
  {
    var g := gap + rest;
    assert g[0] == gap[0];
    TokenOf(token, g);
    AfterSpaces(gap, rest);
    FirstField(token, g);
  }

  /** A line made of a field, a gap, a second field and a tail that starts with a space. */
  lemma {:induction false} ShapedFields(token: string, gap: string, second: string, tail: string)
    requires token != "" && (forall i :: 0 <= i < |token| ==> !Space(token[i])) && gap != "" && AllSpaces(gap)
    requires second != "" && (forall i :: 0 <= i < |second| ==> !Space(second[i])) && tail != "" && Space(tail[0])
    ensures var s := token + (gap + (second + tail));
      && Token(s) == token && AfterToken(s) == gap + (second + tail) && SkipSpaces(s) == s
      && Spaces(gap + (second + tail)) == gap && SkipSpaces(gap + (second + tail)) == second + tail
      && Fields(s) == [token, second] + Fields(tail)
  {
    assert (second + tail)[0] == second[0];
    GappedFields(token, gap, second + tail);
    FirstField(second, tail);
  }

  lemma {:induction false} RehomeIs(s: string)
    requires CanRehome(s)
    ensures |Fields(s)| >= 2 && Fields(s)[1] == "/home"
    ensures Fields(Rehome(s)) == Fields(s)[1 := "/var/home"] && !CanRehome(Rehome(s))
    ensures SkipSpaces(s) == s && SkipSpaces(Rehome(s)) == Rehome(s) && Rehome(s)[0] == s[0]
  {
    var token, gap, rest := Token(s), Spaces(AfterToken(s)), SkipSpaces(AfterToken(s));
    TokenSplits(s);
    SpacesSplit(AfterToken(s));
    assert rest == "/home" + rest[5..];
    assert s == token + (gap + ("/home" + rest[5..]));
    ShapedFields(token, gap, "/home", rest[5..]);
    ShapedFields(token, gap, "/var/home", rest[5..]);
    assert ("/var/home" + rest[5..])[1] == 'v';
  }

  /** A line that starts with its first field and mounts /home is rewritten. */
  lemma {:induction false} HomeIsRewritten(s: string)
    requires s != "" && !Space(s[0]) && |Fields(s)| >= 3 && Fields(s)[1] == "/home"
    ensures CanRehome(s)
  {
    TokenSplits(s);
    var gap := AfterToken(s);
    SpacesSplit(gap);
    SkipShortens(gap);
    var rest := SkipSpaces(gap);
    TokenSplits(rest);
    assert Fields(s) == [Token(s)] + Fields(gap);
    assert Fields(gap) == [Token(rest)] + Fields(AfterToken(rest));
    assert Fields("") == [];
    assert AfterToken(rest) != "";
  }

  lemma RehomeKind(l: Line)
    requires KindOf(l) == Home
    ensures KindOf(RehomeLine(l)) == Home && RehomeLine(RehomeLine(l)) == RehomeLine(l)
    ensures |Fields(Rehome(l.text))| == |Fields(l.text)|
  {
    if CanRehome(l.text) { RehomeIs(l.text); }
  }

  lemma CommentKind(s: string, ended: bool)
    ensures KindOf(Line("# " + s, ended)) == Inactive && KindOf(Line(NOTE, true)) == Inactive
  {
    assert ("# " + s)[0] == '#' && NOTE[0] == '#';
  }

  // ----- What the correction does to the list -----

  lemma {:induction false} OfKindAppend(a: seq<Line>, b: seq<Line>, k: Kind)
    ensures OfKind(a + b, k) == OfKind(a, k) + OfKind(b, k)
  {
    if a == [] {
      assert a + b == b;
    } else {
      assert (a + b)[1..] == a[1..] + b;
      OfKindAppend(a[1..], b, k);
    }
  }

  lemma {:induction false} MarksAppend(a: seq<Line>, b: seq<Line>)
    ensures Marks(a + b) == Marks(a) + Marks(b)
  {
    if a == [] {
      assert a + b == b;
    } else {
      assert (a + b)[1..] == a[1..] + b;
      MarksAppend(a[1..], b);
    }
  }

  function MoveMarks(ms: seq<Kind>): seq<Kind> {
    if ms == [] then [] else (if ms[0] == Var then [Var, Home] else []) + MoveMarks(ms[1..])
  }

  function RehomeAll(ls: seq<Line>): seq<Line> {
    if ls == [] then [] else [RehomeLine(ls[0])] + RehomeAll(ls[1..])
  }

  /** What the pieces `p` of a line contribute: no root remains, nothing malformed appears. */
  ghost predicate Contributes(l: Line, p: seq<Line>, home: Option<Line>, moved: bool) {
    && OfKind(p, Root) == [] && OfKind(p, Malformed) == OfKind([l], Malformed)
    && Marks(p) == (if home.Some? && moved then MoveMarks(Marks([l])) else Marks([l]))
    && (home.None? ==> OfKind(p, Home) == OfKind([l], Home))
    && (home.Some? && !moved ==> OfKind(p, Home) == RehomeAll(OfKind([l], Home)))
  }

  lemma RootContributes(l: Line, home: Option<Line>, moved: bool)
    requires KindOf(l) == Root
    ensures Contributes(l, Piece(l, home, moved), home, moved)
  {
    One(l);
    CommentKind(l.text, l.ended);
    Two(Line(NOTE, true), Line("# " + l.text, l.ended));
    One(Line(NOTE, true));
    One(Line("# " + l.text, l.ended));
  }

  lemma HomeContributes(l: Line, home: Option<Line>, moved: bool)
    requires KindOf(l) == Home
    ensures Contributes(l, Piece(l, home, moved), home, moved)
  {
    One(l);
    RehomeKind(l);
    One(RehomeLine(l));
    assert RehomeAll([l]) == [RehomeLine(l)] by { assert [l][1..] == []; }
    assert MoveMarks([Home]) == [] by { assert [Home][1..] == []; }
  }

  lemma VarContributes(l: Line, home: Option<Line>, moved: bool)
    requires KindOf(l) == Var && (home.Some? ==> KindOf(home.value) == Home)
    ensures Contributes(l, Piece(l, home, moved), home, moved)
  {
    One(l);
    One(l.(ended := true));
    if home.Some? {
      RehomeKind(home.value);
      One(RehomeLine(home.value));
      Two(l.(ended := true), RehomeLine(home.value));
    }
    assert MoveMarks([Var]) == [Var, Home] by { assert [Var][1..] == []; }
  }

  lemma PieceContributes(l: Line, home: Option<Line>, moved: bool)
    requires home.Some? ==> KindOf(home.value) == Home
    ensures Contributes(l, Piece(l, home, moved), home, moved)
  {
    match KindOf(l)
    case Root => RootContributes(l, home, moved);
    case Home => HomeContributes(l, home, moved);
    case Var => VarContributes(l, home, moved);
    case _ => One(l);
  }

  lemma One(l: Line)
    ensures forall k :: OfKind([l], k) == if KindOf(l) == k then [l] else []
    ensures Marks([l]) == if KindOf(l) in {Home, Var} then [KindOf(l)] else []
  {
    assert [l][1..] == [];
  }

  lemma Two(l: Line, m: Line)
    ensures forall k :: OfKind([l, m], k) == OfKind([l], k) + OfKind([m], k)
    ensures Marks([l, m]) == Marks([l]) + Marks([m])
  {
    assert [l, m][1..] == [m];
    One(l);
    One(m);
  }

  lemma {:induction false} MoveMarksAppend(a: seq<Kind>, b: seq<Kind>)
    ensures MoveMarks(a + b) == MoveMarks(a) + MoveMarks(b)
  {
    if a == [] {
      assert a + b == b;
    } else {
      assert (a + b)[1..] == a[1..] + b;
      MoveMarksAppend(a[1..], b);
    }
  }

  lemma {:induction false} RehomeAllAppend(a: seq<Line>, b: seq<Line>)
    ensures RehomeAll(a + b) == RehomeAll(a) + RehomeAll(b)
  {
    if a == [] {
      assert a + b == b;
    } else {
      assert (a + b)[1..] == a[1..] + b;
      RehomeAllAppend(a[1..], b);
    }
  }

  lemma {:induction false} PiecesKinds(ls: seq<Line>, home: Option<Line>, moved: bool)
    requires home.Some? ==> KindOf(home.value) == Home
    ensures var p := Pieces(ls, home, moved);
      && OfKind(p, Root) == [] && OfKind(p, Malformed) == OfKind(ls, Malformed)
      && Marks(p) == (if home.Some? && moved then MoveMarks(Marks(ls)) else Marks(ls))
      && (home.None? ==> OfKind(p, Home) == OfKind(ls, Home))
      && (home.Some? && !moved ==> OfKind(p, Home) == RehomeAll(OfKind(ls, Home)))
  {
    if ls != [] {
      var p, rest := Piece(ls[0], home, moved), Pieces(ls[1..], home, moved);
      PieceContributes(ls[0], home, moved);
      PiecesKinds(ls[1..], home, moved);
      assert ls == [ls[0]] + ls[1..];
      forall k ensures OfKind(p + rest, k) == OfKind(p, k) + OfKind(rest, k) { OfKindAppend(p, rest, k); }
      forall k ensures OfKind(ls, k) == OfKind([ls[0]], k) + OfKind(ls[1..], k) { OfKindAppend([ls[0]], ls[1..], k); }
      MarksAppend(p, rest);
      MarksAppend([ls[0]], ls[1..]);
      MoveMarksAppend(Marks([ls[0]]), Marks(ls[1..]));
      RehomeAllAppend(OfKind([ls[0]], Home), OfKind(ls[1..], Home));
    }
  }

  // ----- Running it again -----

  /** With no root left and home entries already rewritten, nothing changes. */
  lemma {:induction false} PiecesIdentity(ls: seq<Line>, home: Option<Line>)
    requires OfKind(ls, Root) == []
    requires home.Some? ==> forall l :: l in OfKind(ls, Home) ==> RehomeLine(l) == l
    ensures Pieces(ls, home, false) == ls
  {
    if ls != [] {
      assert OfKind(ls, Home) == (if KindOf(ls[0]) == Home then [ls[0]] else []) + OfKind(ls[1..], Home);
      forall l | l in OfKind(ls[1..], Home) ensures l in OfKind(ls, Home) { }
      PiecesIdentity(ls[1..], home);
      if KindOf(ls[0]) == Home { assert ls[0] in OfKind(ls, Home); }
      assert Piece(ls[0], home, false) == [ls[0]];
    }
  }

  /** How many home and /var entries there are. */
  lemma {:induction false} MarksCount(ls: seq<Line>)
    ensures multiset(Marks(ls))[Home] == |OfKind(ls, Home)| && multiset(Marks(ls))[Var] == |OfKind(ls, Var)|
    ensures forall i :: 0 <= i < |Marks(ls)| ==> Marks(ls)[i] == Home || Marks(ls)[i] == Var
  {
    if ls != [] {
      MarksCount(ls[1..]);
      var first := if KindOf(ls[0]) in {Home, Var} then [KindOf(ls[0])] else [];
      assert multiset(Marks(ls)) == multiset(first) + multiset(Marks(ls[1..]));
    }
  }

  /** When the home entry moves, the only home entries left are the moved one. */
  lemma {:induction false} MovedHomes(ls: seq<Line>, home: Line)
    requires KindOf(home) == Home
    ensures forall l :: l in OfKind(Pieces(ls, Some(home), true), Home) ==> l == RehomeLine(home)
  {
    if ls != [] {
      var p, rest := Piece(ls[0], Some(home), true), Pieces(ls[1..], Some(home), true);
      MovedHomes(ls[1..], home);
      MovedPiece(ls[0], home);
      OfKindAppend(p, rest, Home);
    }
  }

  lemma MovedPiece(l: Line, home: Line)
    requires KindOf(home) == Home
    ensures forall m :: m in OfKind(Piece(l, Some(home), true), Home) ==> m == RehomeLine(home)
  {
    match KindOf(l)
    case Root =>
      CommentKind(l.text, l.ended);
      Two(Line(NOTE, true), Line("# " + l.text, l.ended));
      One(Line(NOTE, true));
      One(Line("# " + l.text, l.ended));
    case Var =>
      One(l.(ended := true));
      One(RehomeLine(home));
      Two(l.(ended := true), RehomeLine(home));
      RehomeKind(home);
      assert KindOf(l.(ended := true)) == KindOf(l);
    case _ => One(l);
  }

  lemma {:induction false} OfKindKind(ls: seq<Line>, k: Kind)
    ensures forall l :: l in OfKind(ls, k) ==> KindOf(l) == k
  {
    if ls != [] { OfKindKind(ls[1..], k); }
  }

  /** Everything but the home entry is settled by one run. */
  lemma {:induction false} RunWithoutHome(ls: seq<Line>)
    ensures Pieces(Pieces(ls, None, false), None, false) == Pieces(ls, None, false)
    ensures Marks(Pieces(ls, None, false)) == Marks(ls)
  {
    PiecesKinds(ls, None, false);
    PiecesIdentity(Pieces(ls, None, false), None);
  }

  lemma {:induction false} MarksLength(ms: seq<Kind>)
    requires forall i :: 0 <= i < |ms| ==> ms[i] == Home || ms[i] == Var
    ensures |ms| == multiset(ms)[Home] + multiset(ms)[Var]
  {
    if ms != [] {
      assert ms == [ms[0]] + ms[1..];
      MarksLength(ms[1..]);
    }
  }

  lemma OneHomeMarks(ms: seq<Kind>)
    requires multiset(ms)[Home] == 1 && multiset(ms)[Var] <= 1
    requires forall i :: 0 <= i < |ms| ==> ms[i] == Home || ms[i] == Var
    ensures ms == [Home] || ms == [Home, Var] || ms == [Var, Home]
  {
    MarksLength(ms);
    if |ms| == 1 {
      assert ms == [ms[0]];
    } else {
      assert ms == [ms[0], ms[1]];
    }
  }

  /** One home entry that already comes after /var, if there is one. */
  lemma {:induction false} RunInPlace(ls: seq<Line>, home: Line)
    requires OfKind(ls, Home) == [home] && KindOf(home) == Home
    ensures var out := Pieces(ls, Some(home), false);
      OfKind(out, Home) == [RehomeLine(home)] && Marks(out) == Marks(ls) && Pieces(out, Some(RehomeLine(home)), false) == out
  {
    PiecesKinds(ls, Some(home), false);
    assert RehomeAll([home]) == [RehomeLine(home)] by { assert [home][1..] == []; }
    RehomeKind(home);
    PiecesIdentity(Pieces(ls, Some(home), false), Some(RehomeLine(home)));
  }

  /** One home entry that comes before /var. */
  lemma {:induction false} RunMoved(ls: seq<Line>, home: Line)
    requires OfKind(ls, Home) == [home] && KindOf(home) == Home && Marks(ls) == [Home, Var]
    ensures var out := Pieces(ls, Some(home), true);
      OfKind(out, Home) == [RehomeLine(home)] && Marks(out) == [Var, Home] && Pieces(out, Some(RehomeLine(home)), false) == out
  {
    var out := Pieces(ls, Some(home), true);
    PiecesKinds(ls, Some(home), true);
    assert MoveMarks([Home, Var]) == [Var, Home] by { assert [Home, Var][1..] == [Var] && [Var][1..] == []; }
    MarksCount(out);
    assert |OfKind(out, Home)| == 1;
    MovedHomes(ls, home);
    assert OfKind(out, Home)[0] in OfKind(out, Home);
    RehomeKind(home);
    PiecesIdentity(out, Some(RehomeLine(home)));
  }

  /** With one home entry, one run leaves it rewritten and never in front of /var. */
  lemma RunWithHome(ls: seq<Line>, home: Line)
    requires OfKind(ls, Home) == [home] && |OfKind(ls, Var)| <= 1
    ensures KindOf(home) == Home
    ensures var out := Pieces(ls, Some(home), Marks(ls) == [Home, Var]);
      && OfKind(out, Home) == [RehomeLine(home)] && (Marks(out) == [Home] || Marks(out) == [Var, Home])
      && Pieces(out, Some(RehomeLine(home)), false) == out
  {
    assert home in OfKind(ls, Home);
    OfKindKind(ls, Home);
    MarksCount(ls);
    OneHomeMarks(Marks(ls));
    if Marks(ls) == [Home, Var] { RunMoved(ls, home); } else { RunInPlace(ls, home); }
  }

  lemma {:induction false} StillAccepted(out: seq<Line>, boot: seq<seq<string>>, canonicalHome: bool)
    requires OfKind(out, Malformed) == [] && OfKind(out, Root) == []
    requires canonicalHome ==> |OfKind(out, Home)| == 0 || (|OfKind(out, Home)| == 1 && |OfKind(out, Var)| <= 1)
    ensures !Refuses(out, boot, canonicalHome)
  {
  }

  lemma {:induction false} IdempotentWithHome(ls: seq<Line>, boot: seq<seq<string>>, home: Line)
    requires !Refuses(ls, boot, true) && OfKind(ls, Home) == [home]
    ensures var out := Corrected(ls, true); !Refuses(out, boot, true) && Corrected(out, true) == out
  {
    var moved := Marks(ls) == [Home, Var];
    var out := Pieces(ls, Some(home), moved);
    RunWithHome(ls, home);
    PiecesKinds(ls, Some(home), moved);
    MarksCount(out);
    NeverBefore(Marks(out));
    StillAccepted(out, boot, true);
  }

  lemma NeverBefore(ms: seq<Kind>)
    requires ms == [Home] || ms == [Var, Home]
    ensures ms != [Home, Var] && multiset(ms)[Var] <= 1
  {
    assert ms == [Var, Home] ==> ms[0] == Var;
  }

  /** A correction that succeeds, run again on its own output, succeeds and changes nothing. */
  lemma CorrectionIsIdempotent(ls: seq<Line>, boot: seq<seq<string>>, canonicalHome: bool)
    requires !Refuses(ls, boot, canonicalHome)
    ensures var out := Corrected(ls, canonicalHome);
      !Refuses(out, boot, canonicalHome) && Corrected(out, canonicalHome) == out
  {
    var homes, out := OfKind(ls, Home), Corrected(ls, canonicalHome);
    if canonicalHome && |homes| == 1 {
      assert homes == [homes[0]];
      IdempotentWithHome(ls, boot, homes[0]);
    } else {
      RunWithoutHome(ls);
      PiecesKinds(ls, None, false);
      MarksCount(ls);
      MarksCount(out);
      StillAccepted(out, boot, canonicalHome);
    }
  }

  /** The rewritten home line mounts /var/home and is otherwise as before. */
  predicate NamesVarHome(home: Line) {
    |Fields(home.text)| >= 4 && Fields(RehomeLine(home).text) == Fields(home.text)[1 := "/var/home"]
  }

  predicate StartsBlank(l: Line) {
    l.text != "" && Space(l.text[0])
  }

  /** A home entry names /var/home after the rewrite exactly when it did before or its line does not start
      with a blank. A line that starts with a blank is left as it is. */
  lemma {:induction false} RehomedName(home: Line)
    requires KindOf(home) == Home
    ensures NamesVarHome(home) <==> Fields(home.text)[1] == "/var/home" || !StartsBlank(home)
    ensures StartsBlank(home) ==> RehomeLine(home) == home
  {
    if StartsBlank(home) {
      assert Token(home.text) == "" && !CanRehome(home.text);
      assert "/home"[1] == 'h' && "/var/home"[1] == 'v';
      SameField(Fields(home.text), "/var/home");
    } else if Fields(home.text)[1] == "/home" {
      HomeIsRewritten(home.text);
      RehomeIs(home.text);
    } else {
      if CanRehome(home.text) { RehomeIs(home.text); }
      SameField(Fields(home.text), "/var/home");
    }
  }

  lemma SameField(fields: seq<string>, name: string)
    requires |fields| >= 2
    ensures fields == fields[1 := name] <==> fields[1] == name
  {
    assert fields[1 := name][1] == name;
  }

  /** With a canonical home, the home entry of a corrected fstab comes after /var, and it mounts /var/home
      exactly when it did before or its line does not start with a blank. */
  lemma {:induction false} HomeFollowsVar(ls: seq<Line>, boot: seq<seq<string>>)
    requires !Refuses(ls, boot, true) && OfKind(ls, Home) != []
    ensures var home, out := OfKind(ls, Home)[0], Corrected(ls, true);
      && KindOf(home) == Home
      && OfKind(out, Home) == [RehomeLine(home)] && (Marks(out) == [Home] || Marks(out) == [Var, Home])
      && (NamesVarHome(home) <==> Fields(home.text)[1] == "/var/home" || !StartsBlank(home))
  {
    var home := OfKind(ls, Home)[0];
    assert OfKind(ls, Home) == [home];
    RunWithHome(ls, home);
    RehomedName(home);
  }

  // ----- A home entry that is moved but not renamed -----

  function EntryLine(device: string, mount: string, kind: string, options: string): string {
    device + (" " + (mount + (" " + (kind + (" " + options)))))
  }

  predicate Field(s: string) {
    s != "" && forall i :: 0 <= i < |s| ==> !Space(s[i])
  }

  lemma {:induction false} SpacedField(field: string, rest: string)
    requires Field(field)
    ensures Fields(" " + (field + rest)) == Fields(field + rest)
    ensures rest == "" || Space(rest[0]) ==> Fields(field + rest) == [field] + Fields(rest)
  {
    assert (field + rest)[0] == field[0];
    AfterSpaces(" ", field + rest);
    if rest == "" || Space(rest[0]) { FirstField(field, rest); }
  }

  lemma EntryFields(device: string, mount: string, kind: string, options: string)
    requires Field(device) && Field(mount) && Field(kind) && Field(options)
    ensures Fields(EntryLine(device, mount, kind, options)) == [device, mount, kind, options]
    ensures Fields(" " + EntryLine(device, mount, kind, options)) == [device, mount, kind, options]
  {
    var third := " " + options;
    var second := " " + (kind + third);
    var first := " " + (mount + second);
    assert options + "" == options && Fields("") == [];
    SpacedField(options, "");
    SpacedField(kind, third);
    SpacedField(mount, second);
    SpacedField(device, first);
  }

  lemma HomeOrVar(l: Line, text: string, mount: string)
    requires SkipSpaces(l.text) == text && text != "" && text[0] != '#'
    requires |Fields(l.text)| == 4 && Fields(l.text)[1] == mount && (mount == "/home" || mount == "/var")
    ensures KindOf(l) == if mount == "/home" then Home else Var
  {
    assert "/var"[1] == 'v' && "/home"[1] == 'h' && "/var/home"[5] == 'h' && |"/"| == 1;
  }

  /** Whenever a home line with a leading blank stands in front of the /var line, it is moved behind it and
      still mounts /home. */
  lemma {:induction false} BlankHomeIsOnlyMoved(home: Line, other: Line, boot: seq<seq<string>>)
    requires KindOf(home) == Home && StartsBlank(home) && Fields(home.text)[1] == "/home"
    requires KindOf(other) == Var && other.ended
    ensures !Refuses([home, other], boot, true) && Corrected([home, other], true) == [other, home] && !NamesVarHome(home)
  {
    TwoKinds(home, other);
    RehomedName(home);
    assert "/home"[1] == 'h' && "/var/home"[1] == 'v';
    PiecesOfTwo(home, other);
  }

  lemma TwoKinds(home: Line, other: Line)
    requires KindOf(home) == Home && KindOf(other) == Var
    ensures var ls := [home, other];
      && OfKind(ls, Home) == [home] && OfKind(ls, Var) == [other] && OfKind(ls, Root) == [] && OfKind(ls, Malformed) == []
      && Marks(ls) == [Home, Var]
  {
    Two(home, other);
    One(home);
    One(other);
  }

  lemma {:induction false} PiecesOfTwo(home: Line, other: Line)
    requires KindOf(home) == Home && KindOf(other) == Var && RehomeLine(home) == home && other.ended
    ensures Pieces([home, other], Some(home), true) == [other, home]
  {
    assert [home, other][1..] == [other] && [other][1..] == [];
    assert Pieces([other], Some(home), true) == Piece(other, Some(home), true) + [];
  }

  const BLANK_HOME := Line(" " + EntryLine("d", "/home", "x", "y"), true)
  const VAR_LINE := Line(EntryLine("d", "/var", "x", "y"), true)

  lemma {:induction false} IndentedKind(text: string, mount: string)
    requires text != "" && !Space(text[0]) && text[0] != '#' && (mount == "/home" || mount == "/var")
    requires |Fields(" " + text)| == 4 && Fields(" " + text)[1] == mount
    ensures KindOf(Line(" " + text, true)) == if mount == "/home" then Home else Var
  {
    AfterSpaces(" ", text);
    HomeOrVar(Line(" " + text, true), text, mount);
  }

  lemma BlankHomeKind()
    ensures KindOf(BLANK_HOME) == Home && Fields(BLANK_HOME.text) == ["d", "/home", "x", "y"]
  {
    var text := EntryLine("d", "/home", "x", "y");
    EntryFields("d", "/home", "x", "y");
    assert text[0] == 'd';
    IndentedKind(text, "/home");
  }

  lemma VarLineKind()
    ensures KindOf(VAR_LINE) == Var
  {
    var text := EntryLine("d", "/var", "x", "y");
    EntryFields("d", "/var", "x", "y");
    assert text[0] == 'd';
    HomeOrVar(VAR_LINE, text, "/var");
  }

  /** There are such lines. */
  lemma BlankHomeExists(boot: seq<seq<string>>)
    ensures Fields(BLANK_HOME.text) == ["d", "/home", "x", "y"] && !Refuses([BLANK_HOME, VAR_LINE], boot, true)
    ensures Corrected([BLANK_HOME, VAR_LINE], true) == [VAR_LINE, BLANK_HOME] && !NamesVarHome(BLANK_HOME)
  {
    BlankHomeKind();
    VarLineKind();
    BlankHomeIsOnlyMoved(BLANK_HOME, VAR_LINE, boot);
  }

  // ----- The other entries -----

  /** The fields of the entries the correction must not touch, in order. */
  function OtherEntries(ls: seq<Line>): seq<seq<string>> {
    if ls == [] then []
    else if KindOf(ls[0]) in {Var, Plain} then [Fields(ls[0].text)] + OtherEntries(ls[1..])
    else OtherEntries(ls[1..])
  }

  lemma {:induction false} OtherAppend(a: seq<Line>, b: seq<Line>)
    ensures OtherEntries(a + b) == OtherEntries(a) + OtherEntries(b)
  {
    if a == [] {
      assert a + b == b;
    } else {
      assert (a + b)[1..] == a[1..] + b;
      OtherAppend(a[1..], b);
    }
  }

  lemma OtherOne(l: Line)
    ensures OtherEntries([l]) == if KindOf(l) in {Var, Plain} then [Fields(l.text)] else []
  {
    assert [l][1..] == [];
  }

  lemma PieceOther(l: Line, home: Option<Line>, moved: bool)
    requires home.Some? ==> KindOf(home.value) == Home
    ensures OtherEntries(Piece(l, home, moved)) == OtherEntries([l])
  {
    OtherOne(l);
    match KindOf(l)
    case Root =>
      CommentKind(l.text, l.ended);
      OtherOne(Line(NOTE, true));
      OtherOne(Line("# " + l.text, l.ended));
      OtherAppend([Line(NOTE, true)], [Line("# " + l.text, l.ended)]);
    case Home =>
      RehomeKind(l);
      OtherOne(RehomeLine(l));
    case Var =>
      OtherOne(l.(ended := true));
      if home.Some? {
        RehomeKind(home.value);
        OtherOne(RehomeLine(home.value));
        OtherAppend([l.(ended := true)], [RehomeLine(home.value)]);
      }
    case _ =>
  }

  /** Active entries other than root and home keep their fields and their order. */
  lemma {:induction false} OthersUntouched(ls: seq<Line>, home: Option<Line>, moved: bool)
    requires home.Some? ==> KindOf(home.value) == Home
    ensures OtherEntries(Pieces(ls, home, moved)) == OtherEntries(ls)
  {
    if ls != [] {
      OthersUntouched(ls[1..], home, moved);
      PieceOther(ls[0], home, moved);
      OtherAppend(Piece(ls[0], home, moved), Pieces(ls[1..], home, moved));
      OtherAppend([ls[0]], ls[1..]);
      assert ls == [ls[0]] + ls[1..];
    }
  }

  lemma {:induction false} CorrectionKeepsOthers(ls: seq<Line>, canonicalHome: bool)
    ensures OtherEntries(Corrected(ls, canonicalHome)) == OtherEntries(ls)
  {
    OfKindKind(ls, Home);
    var homes := OfKind(ls, Home);
    if canonicalHome && |homes| == 1 {
      assert homes[0] in homes;
      OthersUntouched(ls, Some(homes[0]), Marks(ls) == [Home, Var]);
    } else {
      OthersUntouched(ls, None, false);
    }
  }

  // ----- The output is again a list of lines -----

  lemma {:induction false} WholeAppend(a: seq<Line>, b: seq<Line>)
    requires Whole(a) && Whole(b) && (b != [] ==> forall i :: 0 <= i < |a| ==> a[i].ended)
    ensures Whole(a + b)
  {
    if a == [] {
      assert a + b == b;
    } else {
      assert (a + b)[1..] == a[1..] + b;
      WholeAppend(a[1..], b);
    }
  }

  lemma RehomeOneLine(s: string)
    requires OneLine(s)
    ensures OneLine(Rehome(s)) && (s != "" ==> Rehome(s) != "")
  {
    if CanRehome(s) {
      TokenSplits(s);
      SpacesSplit(AfterToken(s));
      var token, gap, rest := Token(s), Spaces(AfterToken(s)), SkipSpaces(AfterToken(s));
      assert s == token + (gap + rest);
      forall i | 0 <= i < |rest[5..]| ensures rest[5..][i] != '\n' { assert s[|token| + |gap| + 5 + i] == rest[5..][i]; }
      forall i | 0 <= i < |token| ensures token[i] != '\n' { assert s[i] == token[i]; }
      forall i | 0 <= i < |gap| ensures gap[i] != '\n' { assert s[|token| + i] == gap[i]; }
    }
  }

  lemma NoteOneLine()
    ensures OneLine(NOTE)
  {
    assert OneLine(" Composefs owns /;") && OneLine(" root= and rootflags=");
    assert OneLine(" select its backing") && OneLine(" filesystem.");
    OneLineAppend(" select its backing", " filesystem.");
    OneLineAppend(" root= and rootflags=", " select its backing" + " filesystem.");
    OneLineAppend(" Composefs owns /;", " root= and rootflags=" + (" select its backing" + " filesystem."));
  }

  lemma OneLineAppend(a: string, b: string)
    requires OneLine(a) && OneLine(b)
    ensures OneLine(a + b)
  {
  }

  lemma PieceWhole(l: Line, last: bool, home: Option<Line>, moved: bool)
    requires OneLine(l.text) && (l.ended || (last && l.text != ""))
    requires home.Some? ==> OneLine(home.value.text) && (moved ==> home.value.ended)
    ensures Whole(Piece(l, home, moved))
    ensures l.ended ==> forall i :: 0 <= i < |Piece(l, home, moved)| ==> Piece(l, home, moved)[i].ended
  {
    NoteOneLine();
    RehomeOneLine(l.text);
    if home.Some? { RehomeOneLine(home.value.text); }
    var p := Piece(l, home, moved);
    assert p == [] || p[1..] == [] || (|p| == 2 && p[1..] == [p[1]] && p[1..][1..] == []);
  }

  lemma {:induction false} PiecesWhole(ls: seq<Line>, home: Option<Line>, moved: bool)
    requires Whole(ls) && (home.Some? ==> OneLine(home.value.text) && (moved ==> home.value.ended))
    ensures Whole(Pieces(ls, home, moved))
  {
    if ls != [] {
      PieceWhole(ls[0], |ls| == 1, home, moved);
      PiecesWhole(ls[1..], home, moved);
      if !ls[0].ended { assert ls[1..] == []; }
      WholeAppend(Piece(ls[0], home, moved), Pieces(ls[1..], home, moved));
    }
  }

  lemma {:induction false} OfKindWhole(ls: seq<Line>, k: Kind)
    requires Whole(ls)
    ensures forall i :: 0 <= i < |OfKind(ls, k)| ==> OneLine(OfKind(ls, k)[i].text)
  {
    if ls != [] { OfKindWhole(ls[1..], k); }
  }

  /** Only the last line can lack its newline. */
  lemma {:induction false} UnendedIsLast(ls: seq<Line>, home: Line)
    requires Whole(ls) && OfKind(ls, Home) == [home] && !home.ended
    ensures Marks(ls) != [] && Marks(ls)[|Marks(ls)| - 1] == Home
  {
    if KindOf(ls[0]) == Home {
      assert OfKind(ls, Home)[0] == ls[0];
      assert ls[1..] == [];
    } else {
      UnendedIsLast(ls[1..], home);
    }
  }

  lemma {:induction false} EarlierIsEnded(ls: seq<Line>, home: Line)
    requires Whole(ls) && OfKind(ls, Home) == [home] && Marks(ls) == [Home, Var]
    ensures home.ended
  {
    if !home.ended { UnendedIsLast(ls, home); }
  }

  /** Joining the corrected lines and splitting the text again gives the corrected lines. */
  lemma {:induction false} CorrectedText(ls: seq<Line>, canonicalHome: bool)
    requires Whole(ls)
    ensures SplitLines(Join(Corrected(ls, canonicalHome)), "") == Corrected(ls, canonicalHome)
  {
    var homes := OfKind(ls, Home);
    OfKindWhole(ls, Home);
    if canonicalHome && |homes| == 1 {
      assert homes == [homes[0]];
      if Marks(ls) == [Home, Var] { EarlierIsEnded(ls, homes[0]); }
      PiecesWhole(ls, Some(homes[0]), Marks(ls) == [Home, Var]);
    } else {
      PiecesWhole(ls, None, false);
    }
    SplitJoin(Corrected(ls, canonicalHome));
  }

  // ----- The program -----

  lemma {:induction false} OfKindSnoc(ls: seq<Line>, i: nat, k: Kind)
    requires i < |ls|
    ensures OfKind(ls[..i + 1], k) == if KindOf(ls[i]) == k then OfKind(ls[..i], k) + [ls[i]] else OfKind(ls[..i], k)
  {
    assert ls[..i + 1] == ls[..i] + [ls[i]];
    OfKindAppend(ls[..i], [ls[i]], k);
    One(ls[i]);
  }

  function Kinds(ls: seq<Line>): seq<Kind> {
    if ls == [] then [] else [KindOf(ls[0])] + Kinds(ls[1..])
  }

  lemma {:induction false} KindsAt(ls: seq<Line>, i: nat)
    requires i < |ls|
    ensures |Kinds(ls)| == |ls| && Kinds(ls)[i] == KindOf(ls[i])
  {
    if i > 0 { KindsAt(ls[1..], i - 1); } else { KindsLength(ls[1..]); }
  }

  lemma {:induction false} KindsLength(ls: seq<Line>)
    ensures |Kinds(ls)| == |ls|
  {
    if ls != [] { KindsLength(ls[1..]); }
  }

  /** The indices below `n` of one kind, in order. */
  function IndicesOf(ks: seq<Kind>, k: Kind, n: nat): seq<nat>
    requires n <= |ks|
  {
    if n == 0 then []
    else if ks[n - 1] == k then IndicesOf(ks, k, n - 1) + [n - 1]
    else IndicesOf(ks, k, n - 1)
  }

  lemma {:induction false} IndicesAre(ks: seq<Kind>, k: Kind, n: nat)
    requires n <= |ks|
    ensures var found := IndicesOf(ks, k, n);
      && (forall i :: 0 <= i < |found| ==> found[i] < n && ks[found[i]] == k)
      && (forall i :: 0 <= i < n && ks[i] == k ==> i in found)
  {
    if n > 0 { IndicesAre(ks, k, n - 1); }
  }

  lemma {:induction false} IndexedLines(ls: seq<Line>, ks: seq<Kind>, k: Kind, n: nat)
    requires n <= |ls| && ks == Kinds(ls) && |ks| == |ls|
    ensures var found := IndicesOf(ks, k, n);
      && |found| == |OfKind(ls[..n], k)|
      && (forall i :: 0 <= i < |found| ==> found[i] < |ls| && ls[found[i]] == OfKind(ls[..n], k)[i])
  {
    if n > 0 {
      IndexedLines(ls, ks, k, n - 1);
      IndicesAre(ks, k, n);
      KindsAt(ls, n - 1);
      OfKindSnoc(ls, n - 1, k);
    }
  }

  method FindKind(ls: seq<Line>, k: Kind) returns (found: seq<nat>)
    ensures |found| == |OfKind(ls, k)|
    ensures forall i :: 0 <= i < |found| ==> found[i] < |ls| && ls[found[i]] == OfKind(ls, k)[i] && KindOf(ls[found[i]]) == k
    ensures forall i :: 0 <= i < |ls| && KindOf(ls[i]) == k ==> i in found
  {
    ghost var ks := Kinds(ls);
    KindsLength(ls);
    found := [];
    for i := 0 to |ls|
      invariant found == IndicesOf(ks, k, i)
    {
      KindsAt(ls, i);
      if KindOf(ls[i]) == k { found := found + [i]; }
    }
    IndexedLines(ls, ks, k, |ls|);
    IndicesAre(ks, k, |ls|);
    assert ls[..|ls|] == ls;
    forall i | 0 <= i < |ls| ensures ks[i] == KindOf(ls[i]) { KindsAt(ls, i); }
  }

  function Flatten(slots: seq<seq<Line>>): seq<Line> {
    if slots == [] then [] else slots[0] + Flatten(slots[1..])
  }

  lemma {:induction false} FlattenPieces(ls: seq<Line>, slots: seq<seq<Line>>, home: Option<Line>, moved: bool)
    requires |slots| == |ls| && forall i :: 0 <= i < |ls| ==> slots[i] == Piece(ls[i], home, moved)
    ensures Flatten(slots) == Pieces(ls, home, moved)
  {
    if ls != [] { FlattenPieces(ls[1..], slots[1..], home, moved); }
  }

  function Picked(ks: seq<Kind>): seq<Kind> {
    if ks == [] then [] else if ks[0] == Home || ks[0] == Var then [ks[0]] + Picked(ks[1..]) else Picked(ks[1..])
  }

  lemma {:induction false} MarksArePicked(ls: seq<Line>)
    ensures Marks(ls) == Picked(Kinds(ls))
  {
    if ls != [] {
      MarksArePicked(ls[1..]);
      assert Kinds(ls)[1..] == Kinds(ls[1..]);
    }
  }

  lemma {:induction false} PickedMember(ks: seq<Kind>, i: nat)
    requires i < |ks| && (ks[i] == Home || ks[i] == Var)
    ensures ks[i] in multiset(Picked(ks))
  {
    if i > 0 { PickedMember(ks[1..], i - 1); }
  }

  lemma {:induction false} PickedOrder(ks: seq<Kind>, h: nat, v: nat)
    requires h < |ks| && v < |ks| && ks[h] == Home && ks[v] == Var
    requires multiset(Picked(ks))[Home] == 1 && multiset(Picked(ks))[Var] == 1
    requires forall i :: 0 <= i < |Picked(ks)| ==> Picked(ks)[i] == Home || Picked(ks)[i] == Var
    ensures Picked(ks) == if h < v then [Home, Var] else [Var, Home]
  {
    if h == 0 || v == 0 {
      FirstMark(Picked(ks), ks[0]);
    } else {
      PickedMember(ks[1..], h - 1);
      PickedMember(ks[1..], v - 1);
      PickedTail(ks);
      PickedOrder(ks[1..], h - 1, v - 1);
    }
  }

  /** When both kinds occur later and each occurs once, the first line is of another kind. */
  lemma {:induction false} PickedTail(ks: seq<Kind>)
    requires ks != [] && multiset(Picked(ks))[Home] == 1 && multiset(Picked(ks))[Var] == 1
    requires Home in multiset(Picked(ks[1..])) && Var in multiset(Picked(ks[1..]))
    ensures Picked(ks) == Picked(ks[1..])
  {
    PickedCounts(ks, Home);
    PickedCounts(ks, Var);
  }

  lemma {:induction false} PickedCounts(ks: seq<Kind>, k: Kind)
    requires ks != []
    ensures ks[0] == k && (k == Home || k == Var) ==> multiset(Picked(ks))[k] == 1 + multiset(Picked(ks[1..]))[k]
  {
    assert ks[0] == Home || ks[0] == Var ==> multiset(Picked(ks)) == multiset{ks[0]} + multiset(Picked(ks[1..]));
  }

  /** The order of one home and one /var entry. */
  lemma {:induction false} MarksOrder(ls: seq<Line>, h: nat, v: nat)
    requires h < |ls| && v < |ls| && KindOf(ls[h]) == Home && KindOf(ls[v]) == Var
    requires |OfKind(ls, Home)| == 1 && |OfKind(ls, Var)| == 1
    ensures Marks(ls) == if h < v then [Home, Var] else [Var, Home]
  {
    MarksCount(ls);
    MarksArePicked(ls);
    KindsAt(ls, h);
    KindsAt(ls, v);
    PickedOrder(Kinds(ls), h, v);
  }

  lemma FirstMark(ms: seq<Kind>, first: Kind)
    requires multiset(ms)[Home] == 1 && multiset(ms)[Var] == 1
    requires forall i :: 0 <= i < |ms| ==> ms[i] == Home || ms[i] == Var
    requires ms != [] ==> ms[0] == first
    ensures ms == if first == Home then [Home, Var] else [Var, Home]
  {
    OneHomeMarks(ms);
    CountsTell(ms);
  }

  lemma CountsTell(ms: seq<Kind>)
    ensures ms == [Home] ==> multiset(ms)[Var] == 0
  {
  }

  method SelectedBy(boot: seq<seq<string>>, fields: seq<string>) returns (found: bool)
    ensures found <==> exists o :: o in boot && Selects(o, fields)
  {
    for i := 0 to |boot|
      invariant forall k :: 0 <= k < i ==> !Selects(boot[k], fields)
    {
      if Selects(boot[i], fields) { assert boot[i] in boot; return true; }
    }
    return false;
  }

  /** `slots` holds the pieces of every line. */
  ghost predicate Holds(ls: seq<Line>, slots: seq<seq<Line>>, home: Option<Line>, moved: bool) {
    |slots| == |ls| && forall i :: 0 <= i < |ls| ==> slots[i] == Piece(ls[i], home, moved)
  }

  /** `found` is where the only line of a kind is, if there is one. */
  ghost predicate OnlyAt(ls: seq<Line>, k: Kind, found: seq<nat>) {
    && |found| <= 1 && (forall i :: 0 <= i < |found| ==> found[i] < |ls| && KindOf(ls[found[i]]) == k)
    && forall i :: 0 <= i < |ls| && KindOf(ls[i]) == k ==> i in found
  }

  lemma RootSlot(ls: seq<Line>, found: seq<nat>, slots: seq<seq<Line>>, edited: seq<seq<Line>>)
    requires OnlyAt(ls, Root, found) && |slots| == |ls| && forall i :: 0 <= i < |ls| ==> slots[i] == [ls[i]]
    requires edited == if found == [] then slots
                       else slots[found[0] := [Line(NOTE, true), Line("# " + ls[found[0]].text, ls[found[0]].ended)]]
    ensures Holds(ls, edited, None, false)
  {
    forall i | 0 <= i < |ls|
      ensures edited[i] == Piece(ls[i], None, false)
    {
      if KindOf(ls[i]) == Root { assert i in found && i == found[0]; }
    }
  }

  lemma HomeSlot(ls: seq<Line>, homes: seq<nat>, slots: seq<seq<Line>>)
    requires OnlyAt(ls, Home, homes) && |homes| == 1 && Holds(ls, slots, None, false)
    ensures Holds(ls, slots[homes[0] := [RehomeLine(ls[homes[0]])]], Some(ls[homes[0]]), false)
  {
    var edited := slots[homes[0] := [RehomeLine(ls[homes[0]])]];
    forall i | 0 <= i < |ls|
      ensures edited[i] == Piece(ls[i], Some(ls[homes[0]]), false)
    {
      if KindOf(ls[i]) == Home { assert i in homes && i == homes[0]; }
    }
  }

  lemma MovedSlots(ls: seq<Line>, homes: seq<nat>, vars: seq<nat>, slots: seq<seq<Line>>, edited: seq<seq<Line>>)
    requires OnlyAt(ls, Home, homes) && OnlyAt(ls, Var, vars) && |homes| == |vars| == 1 && Holds(ls, slots, None, false)
    requires edited == slots[homes[0] := []][vars[0] := [ls[vars[0]].(ended := true), RehomeLine(ls[homes[0]])]]
    ensures Holds(ls, edited, Some(ls[homes[0]]), true)
  {
    forall i | 0 <= i < |ls|
      ensures edited[i] == Piece(ls[i], Some(ls[homes[0]]), true)
    {
      if KindOf(ls[i]) == Home { assert i in homes && i == homes[0]; }
      if KindOf(ls[i]) == Var { assert i in vars && i == vars[0]; }
    }
  }

  /** Comment out the root entry, if some boot entry selects it. */
  method CommentRoot(ls: seq<Line>, boot: seq<seq<string>>) returns (slots: Option<seq<seq<Line>>>)
    ensures slots.None? <==> RefusesRoot(OfKind(ls, Root), boot)
    ensures slots.Some? ==> Holds(ls, slots.value, None, false)
  {
    var roots := FindKind(ls, Root);
    if |roots| > 1 { return None; }
    var plain := seq(|ls|, i requires 0 <= i < |ls| => [ls[i]]);
    var edited := plain;
    if |roots| == 1 {
      var l := ls[roots[0]];
      var selected := SelectedBy(boot, Fields(l.text));
      if !selected { return None; }
      edited := plain[roots[0] := [Line(NOTE, true), Line("# " + l.text, l.ended)]];
    }
    RootSlot(ls, roots, plain, edited);
    return Some(edited);
  }

  /** Rewrite the home entry, behind the /var entry if it came before it. */
  method PlaceHome(ls: seq<Line>, slots: seq<seq<Line>>) returns (edited: Option<seq<seq<Line>>>)
    requires Holds(ls, slots, None, false) && |OfKind(ls, Home)| > 0
    ensures edited.None? <==> |OfKind(ls, Home)| != 1 || |OfKind(ls, Var)| > 1
    ensures edited.Some? ==> Holds(ls, edited.value, Some(OfKind(ls, Home)[0]), Marks(ls) == [Home, Var])
  {
    var homes := FindKind(ls, Home);
    var vars := FindKind(ls, Var);
    if |homes| != 1 || |vars| > 1 { return None; }
    MarksCount(ls);
    OneHomeMarks(Marks(ls));
    if |vars| == 1 { MarksOrder(ls, homes[0], vars[0]); }
    if |vars| == 1 && homes[0] < vars[0] {
      var moved := slots[homes[0] := []];
      moved := moved[vars[0] := [ls[vars[0]].(ended := true), RehomeLine(ls[homes[0]])]];
      MovedSlots(ls, homes, vars, slots, moved);
      return Some(moved);
    }
    HomeSlot(ls, homes, slots);
    return Some(slots[homes[0] := [RehomeLine(ls[homes[0]])]]);
  }

  /** The correction, editing the list of lines in place by index. None is a refusal. */
  method CorrectedFstab(ls: seq<Line>, boot: seq<seq<string>>, canonicalHome: bool) returns (r: Option<seq<Line>>)
    ensures r.None? <==> Refuses(ls, boot, canonicalHome)
    ensures r.Some? ==> r.value == Corrected(ls, canonicalHome)
  {
    var malformed := FindKind(ls, Malformed);
    if |malformed| > 0 { return None; }
    var slots := CommentRoot(ls, boot);
    if slots.None? { return None; }
    var homes := FindKind(ls, Home);
    if canonicalHome && |homes| > 0 {
      var edited := PlaceHome(ls, slots.value);
      if edited.None? { return None; }
      FlattenPieces(ls, edited.value, Some(OfKind(ls, Home)[0]), Marks(ls) == [Home, Var]);
      return Some(Flatten(edited.value));
    }
    FlattenPieces(ls, slots.value, None, false);
    return Some(Flatten(slots.value));
  }

  /** The files `fix` reads and writes. */
  class System {
    var fstab: seq<Line>
    var backup: Option<seq<Line>>

    constructor (fstab: seq<Line>)
      ensures this.fstab == fstab && backup == None
    {
      this.fstab, backup := fstab, None;
    }

    /** Correct the file once, keeping the original; a file that is already correct is left alone. */
    method Fix(composefs: bool, boot: seq<seq<string>>, canonicalHome: bool) returns (ok: bool)
      modifies this
      ensures ok <==> composefs && !Refuses(old(fstab), boot, canonicalHome)
                      && (Corrected(old(fstab), canonicalHome) == old(fstab) || old(backup).None?)
      ensures !ok ==> fstab == old(fstab) && backup == old(backup)
      ensures ok ==> fstab == Corrected(old(fstab), canonicalHome)
      ensures ok ==> backup == if fstab == old(fstab) then old(backup) else Some(old(fstab))
    {
      if !composefs { return false; }
      var updated := CorrectedFstab(fstab, boot, canonicalHome);
      if updated.None? { return false; }
      if updated.value == fstab { return true; }
      if backup.Some? { return false; }
      backup := Some(fstab);
      fstab := updated.value;
      return true;
    }
  }

  /** However often `fix` runs, the first successful run settles the file and its backup. */
  method FixRepeatedly(s: System, boot: seq<seq<string>>, canonicalHome: bool, times: nat)
    requires !Refuses(s.fstab, boot, canonicalHome) && s.backup.None?
    modifies s
    ensures times == 0 ==> s.fstab == old(s.fstab) && s.backup == old(s.backup)
    ensures times > 0 ==> s.fstab == Corrected(old(s.fstab), canonicalHome)
    ensures s.backup.Some? ==> s.backup.value == old(s.fstab)
    ensures s.backup.None? ==> s.fstab == old(s.fstab)
  {
    CorrectionIsIdempotent(s.fstab, boot, canonicalHome);
    for i := 0 to times
      invariant s.fstab == if i == 0 then old(s.fstab) else Corrected(old(s.fstab), canonicalHome)
      invariant s.backup == if s.fstab == old(s.fstab) then None else Some(old(s.fstab))
    {
      var ok := s.Fix(true, boot, canonicalHome);
      assert ok;
    }
  }
}
