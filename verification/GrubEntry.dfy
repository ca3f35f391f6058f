// The installer's boot menu normaliser, and why patching a patched menu changes nothing.
module GrubEntry {
  import opened Options
  import opened Words

  // ----- Lines -----

  predicate Blank(l: string) {
    SkipSpaces(l) == ""
  }

  /** The first word of a line; empty when the line is blank. */
  function FirstWord(l: string): string {
    Token(SkipSpaces(l))
  }

  /** What follows the first word and the spaces behind it. */
  function Rest(l: string): string {
    SkipSpaces(AfterToken(SkipSpaces(l)))
  }

  // ----- Menu entries -----

  const HEAD := "menuentry 'Install" + (" Azurefin'" + (" --id " + "azurefin-install" + " {"))

  predicate HeadFor(l: string, id: string) {
    var tail := " --id " + id + " {";
    |"menuentry "| + 1 + |tail| <= |l| && "menuentry " <= l && l[|l| - |tail|..] == tail
  }

  predicate Head(l: string) {
    HeadFor(l, "romulus-preload-display") || HeadFor(l, "azurefin-install")
  }

  predicate Braces(l: string) {
    '{' in l || '}' in l
  }

  /** The lines up to the first brace, when that brace is a closing one at the start of a line. */
  function Body(ls: seq<string>): Option<seq<string>> {
    if ls == [] then None
    else if Braces(ls[0]) then if ls[0][0] == '}' then Some([]) else None
    else match Body(ls[1..])
      case Some(body) => Some([ls[0]] + body)
      case None => None
  }

  /** The bodies of all Surface display-preload entries. A body may not be empty. */
  function Bodies(ls: seq<string>): seq<seq<string>> {
    if ls == [] then []
    else match Body(ls[1..])
      case Some(body) => if Head(ls[0]) && body != [] then [body] + Bodies(ls[1..]) else Bodies(ls[1..])
      case None => Bodies(ls[1..])
  }

  // ----- Keyword lines -----

  /** The value after a keyword that ends its line: spaces include newlines, so it stands on the next
      line that is not blank. At the end of the body the value can only be the last space there is. */
  function Continued(ls: seq<string>, spaces: nat): Option<string> {
    if ls == [] then if spaces >= 2 then Some(" ") else None
    else if Blank(ls[0]) then Continued(ls[1..], if ls[0] == "" then spaces else 2)
    else Some(SkipSpaces(ls[0]))
  }

  /** How many lines such a value reaches over. */
  function Reach(ls: seq<string>): (n: nat)
    ensures n <= |ls|
  {
    if ls == [] then 0 else if Blank(ls[0]) then 1 + Reach(ls[1..]) else 1
  }

  function Values(ls: seq<string>, keys: set<string>): seq<string>
    decreases |ls|
  {
    if ls == [] then []
    else if FirstWord(ls[0]) !in keys then Values(ls[1..], keys)
    else if Rest(ls[0]) != "" then [Rest(ls[0])] + Values(ls[1..], keys)
    else match Continued(ls[1..], |AfterToken(SkipSpaces(ls[0]))|)
      case Some(value) => [value] + Values(ls[1 + Reach(ls[1..])..], keys)
      case None => Values(ls[1..], keys)
  }

  // ----- Kernel arguments -----

  const KERNEL := "/images/pxeboot/vmlinuz"
  const INITRD := "/images" + "/pxeboot/initrd.img"
  const DTB := "/images" + ("/dtbs/qcom" + ("/x1e80100-microsoft" + "-romulus13.dtb"))
  const STAGE := "inst.stage2="
  const STAGE_LABEL := "inst.stage2=hd:LABEL="
  const KICKSTART := "inst.ks="
  const PRELOAD := "rd.driver.pre="

  predicate LabelChar(c: char) {
    'A' <= c <= 'Z' || 'a' <= c <= 'z' || '0' <= c <= '9' || c in "_.-"
  }

  predicate SafeStage(a: string) {
    STAGE_LABEL < a && forall i :: |STAGE_LABEL| <= i < |a| ==> LabelChar(a[i])
  }

  /** The arguments that start with a prefix. */
  function With(args: seq<string>, prefix: string): seq<string> {
    if args == [] then [] else if prefix <= args[0] then [args[0]] + With(args[1..], prefix) else With(args[1..], prefix)
  }

  function KickstartOn(medium: string): string {
    KICKSTART + ("hd:LABEL=" + (medium + ":/azurefin/install.ks"))
  }

  function SetKickstart(args: seq<string>, ks: string): seq<string> {
    if args == [] then [] else [if KICKSTART <= args[0] then ks else args[0]] + SetKickstart(args[1..], ks)
  }

  predicate Stops(a: string) {
    "rd.break" <= a || a == "inst.rescue" || a == "rd.live.check"
  }

  predicate Bootable(args: seq<string>) {
    && args != [] && args[0] == KERNEL
    && |With(args, STAGE)| == 1 && SafeStage(With(args, STAGE)[0])
    && |With(args, KICKSTART)| == 1 && With(args, PRELOAD) != []
  }

  /** The medium that stage 2 is read from. */
  function Label(args: seq<string>): string
    requires Bootable(args)
  {
    With(args, STAGE)[0][|STAGE_LABEL|..]
  }

  /** The arguments of the new entry, when the old kernel line is acceptable. */
  function Arguments(args: seq<string>): Option<seq<string>> {
    if !Bootable(args) then None
    else
      var next := SetKickstart(args, KickstartOn(Label(args)));
      if exists i :: 0 <= i < |next| && Stops(next[i]) then None else Some(next)
  }

  // ----- The header -----

  /** The lines before the first entry or submenu. */
  function Header(ls: seq<string>): seq<string> {
    if ls == [] || FirstWord(ls[0]) in {"menuentry", "submenu"} then [] else [ls[0]] + Header(ls[1..])
  }

  predicate Sets(l: string) {
    "set default=" <= SkipSpaces(l) || "set timeout=" <= SkipSpaces(l)
  }

  /** How many lines to drop here: a `set` line together with the blank lines before it. */
  function Drops(ls: seq<string>): (n: nat)
    ensures n <= |ls|
  {
    if ls == [] then 0
    else if Sets(ls[0]) then 1
    else if Blank(ls[0]) && Drops(ls[1..]) > 0 then 1 + Drops(ls[1..])
    else 0
  }

  function Clean(ls: seq<string>): seq<string>
    decreases |ls|
  {
    if ls == [] then []
    else if Drops(ls) > 0 then Clean(ls[Drops(ls)..])
    else [ls[0]] + Clean(ls[1..])
  }

  /** str.rstrip of a text given by its lines. */
  function Trim(ls: seq<string>): seq<string> {
    if ls == [] then [""]
    else if Blank(ls[|ls| - 1]) then Trim(ls[..|ls| - 1])
    else ls[..|ls| - 1] + [TrimEnd(ls[|ls| - 1])]
  }

  // ----- The patch -----

  function SettingLines(): seq<string> {
    ["", "set" + " timeout=5", "set" + (" default=" + "azurefin-install"), ""]
  }

  function BodyLines(args: seq<string>): seq<string> {
    ["  linux " + JoinWith(args, ' '), "  devicetree " + DTB, "  initrd " + INITRD]
  }

  function EntryLines(args: seq<string>): seq<string> {
    [HEAD] + (BodyLines(args) + ["}", ""])
  }

  /** The arguments of the one entry that the lines hold. */
  function EntryArguments(ls: seq<string>): Option<seq<string>> {
    if |Bodies(ls)| != 1 then None
    else
      var body := Bodies(ls)[0];
      var kernels := Values(body, {"linux", "linuxefi"});
      if |kernels| != 1 then None
      else if Values(body, {"devicetree"}) != [DTB] || Values(body, {"initrd", "initrdefi"}) != [INITRD] then None
      else Arguments(Fields(kernels[0]))
  }

  function PatchLines(ls: seq<string>): Option<seq<string>> {
    match EntryArguments(ls)
    case None => None
    case Some(args) => Some(Trim(Clean(Header(ls))) + (SettingLines() + EntryLines(args)))
  }

  function Patch(text: string): Option<string> {
    match PatchLines(SplitOn(text, '\n'))
    case None => None
    case Some(ls) => Some(JoinWith(ls, '\n'))
  }

  // ----- Characters -----

  /** What may stand on a line of the new entry. */
  predicate Quiet(s: string) {
    forall i :: 0 <= i < |s| ==> s[i] != '{' && s[i] != '}' && s[i] != '\n'
  }

  predicate Word(s: string) {
    s != "" && Quiet(s) && forall i :: 0 <= i < |s| ==> !Space(s[i])
  }

  predicate AllQuiet(ls: seq<string>) {
    forall i :: 0 <= i < |ls| ==> Quiet(ls[i])
  }

  predicate AllWords(args: seq<string>) {
    forall i :: 0 <= i < |args| ==> Word(args[i])
  }

  lemma {:induction false} QuietSkip(s: string)
    requires Quiet(s)
    ensures Quiet(SkipSpaces(s))
  {
    if s != "" && Space(s[0]) { QuietSkip(s[1..]); }
  }

  lemma {:induction false} QuietToken(s: string)
    requires Quiet(s)
    ensures Quiet(Token(s)) && Quiet(AfterToken(s))
  {
    if s != "" && !Space(s[0]) { QuietToken(s[1..]); }
  }

  lemma {:induction false} FieldsAreWords(s: string)
    requires Quiet(s)
    ensures AllWords(Fields(s))
    decreases |s|
  {
    var t := SkipSpaces(s);
    SkipShortens(s);
    QuietSkip(s);
    if t != [] {
      TokenSplits(t);
      QuietToken(t);
      FieldsAreWords(AfterToken(t));
    }
  }

  lemma {:induction false} BodyIsQuiet(ls: seq<string>)
    requires Body(ls).Some? && forall i :: 0 <= i < |ls| ==> Without(ls[i], '\n')
    ensures AllQuiet(Body(ls).value)
  {
    if !Braces(ls[0]) { BodyIsQuiet(ls[1..]); }
  }

  lemma {:induction false} BodiesAreQuiet(ls: seq<string>)
    requires forall i :: 0 <= i < |ls| ==> Without(ls[i], '\n')
    ensures forall i :: 0 <= i < |Bodies(ls)| ==> AllQuiet(Bodies(ls)[i])
  {
    if ls != [] {
      BodiesAreQuiet(ls[1..]);
      if Body(ls[1..]).Some? { BodyIsQuiet(ls[1..]); }
    }
  }

  lemma {:induction false} ContinuedIsQuiet(ls: seq<string>, spaces: nat)
    requires AllQuiet(ls) && Continued(ls, spaces).Some?
    ensures Quiet(Continued(ls, spaces).value)
  {
    if ls != [] {
      if Blank(ls[0]) { ContinuedIsQuiet(ls[1..], if ls[0] == "" then spaces else 2); } else { QuietSkip(ls[0]); }
    }
  }

  lemma {:induction false} ValuesAreQuiet(ls: seq<string>, keys: set<string>)
    requires AllQuiet(ls)
    ensures AllQuiet(Values(ls, keys))
    decreases |ls|
  {
    if ls != [] {
      QuietSkip(ls[0]);
      QuietToken(SkipSpaces(ls[0]));
      QuietSkip(AfterToken(SkipSpaces(ls[0])));
      ValuesAreQuiet(ls[1..], keys);
      ValuesAreQuiet(ls[1 + Reach(ls[1..])..], keys);
      var next := Continued(ls[1..], |AfterToken(SkipSpaces(ls[0]))|);
      if next.Some? { ContinuedIsQuiet(ls[1..], |AfterToken(SkipSpaces(ls[0]))|); }
    }
  }

  // ----- Arguments -----

  lemma {:induction false} JoinedFields(args: seq<string>)
    requires AllWords(args)
    ensures Fields(JoinWith(args, ' ')) == args
  {
    if |args| == 1 {
      FirstField(args[0], "");
      assert args[0] + "" == args[0];
    } else if args != [] {
      var rest := JoinWith(args[1..], ' ');
      JoinedFields(args[1..]);
      FirstField(args[0], [' '] + rest);
      assert args[0] + [' '] + rest == args[0] + ([' '] + rest);
      assert ([' '] + rest)[1..] == rest;
      assert Fields([' '] + rest) == Fields(rest);
    }
  }

  lemma {:induction false} SetKeeps(args: seq<string>, ks: string)
    requires KICKSTART <= ks
    ensures var next := SetKickstart(args, ks);
      && |next| == |args|
      && (forall i :: 0 <= i < |args| ==> next[i] == if KICKSTART <= args[i] then ks else args[i])
      && With(next, STAGE) == With(args, STAGE) && With(next, PRELOAD) == With(args, PRELOAD)
      && SetKickstart(next, ks) == next
  {
    if args != [] {
      SetKeeps(args[1..], ks);
      var a := args[0];
      assert KICKSTART[5] == 'k' && STAGE[5] == 's' && KICKSTART[0] == 'i' && PRELOAD[0] == 'r';
      if KICKSTART <= a { assert a[5] == 'k' && a[0] == 'i'; }
      assert ks[5] == 'k' && ks[0] == 'i';
    }
  }

  lemma {:induction false} SetOnly(args: seq<string>, ks: string)
    requires KICKSTART <= ks
    ensures |With(SetKickstart(args, ks), KICKSTART)| == |With(args, KICKSTART)|
    ensures forall i :: 0 <= i < |With(args, KICKSTART)| ==> With(SetKickstart(args, ks), KICKSTART)[i] == ks
  {
    if args != [] { SetOnly(args[1..], ks); }
  }

  lemma {:induction false} WithMembers(args: seq<string>, prefix: string)
    ensures forall i :: 0 <= i < |With(args, prefix)| ==> With(args, prefix)[i] in args
  {
    if args != [] { WithMembers(args[1..], prefix); }
  }

  /** Accepted arguments keep everything but the Kickstart argument, which moves to the medium that stage 2
      comes from; accepting them again changes nothing. */
  lemma ArgumentsSettle(args: seq<string>)
    requires Arguments(args).Some?
    ensures var next := Arguments(args).value;
      && |next| == |args| && Bootable(next) && Label(next) == Label(args)
      && (forall i :: 0 <= i < |args| && !(KICKSTART <= args[i]) ==> next[i] == args[i])
      && With(next, KICKSTART) == [KickstartOn(Label(args))]
      && (forall i :: 0 <= i < |next| ==> !Stops(next[i]))
      && Arguments(next) == Some(next)
  {
    var ks := KickstartOn(Label(args));
    assert ks[..|KICKSTART|] == KICKSTART;
    SetKeeps(args, ks);
    SetOnly(args, ks);
    assert KERNEL[0] == '/' && KICKSTART[0] == 'i';
  }

  lemma WordsJoin(a: string, b: string)
    requires Word(a) && Word(b)
    ensures Word(a + b)
  {
  }

  lemma KickstartIsWord(medium: string)
    requires medium != "" && forall i :: 0 <= i < |medium| ==> LabelChar(medium[i])
    ensures Word(KickstartOn(medium))
  {
    assert Word(medium);
    WordsJoin(medium, ":/azurefin/install.ks");
    WordsJoin("hd:LABEL=", medium + ":/azurefin/install.ks");
    WordsJoin(KICKSTART, "hd:LABEL=" + (medium + ":/azurefin/install.ks"));
  }

  lemma LabelIsSafe(args: seq<string>)
    requires Bootable(args)
    ensures Label(args) != "" && forall i :: 0 <= i < |Label(args)| ==> LabelChar(Label(args)[i])
  {
    var stage := With(args, STAGE)[0];
    assert forall i :: 0 <= i < |Label(args)| ==> Label(args)[i] == stage[|STAGE_LABEL| + i];
  }

  lemma {:induction false} SetIsWords(args: seq<string>, ks: string)
    requires AllWords(args) && Word(ks)
    ensures AllWords(SetKickstart(args, ks))
  {
    if args != [] { SetIsWords(args[1..], ks); }
  }

  lemma ArgumentsAreWords(args: seq<string>)
    requires Arguments(args).Some? && AllWords(args)
    ensures AllWords(Arguments(args).value)
  {
    LabelIsSafe(args);
    KickstartIsWord(Label(args));
    SetIsWords(args, KickstartOn(Label(args)));
  }

  // ----- The header settles -----

  predicate Opens(l: string) {
    FirstWord(l) in {"menuentry", "submenu"}
  }

  lemma {:induction false} TokenExtends(s: string, c: char)
    requires Space(c)
    ensures Token(s + [c]) == Token(s)
  {
    if s != "" {
      assert (s + [c])[1..] == s[1..] + [c];
      TokenExtends(s[1..], c);
    }
  }

  lemma {:induction false} SkipExtends(s: string, c: char)
    requires Space(c)
    ensures SkipSpaces(s + [c]) == if SkipSpaces(s) == "" then "" else SkipSpaces(s) + [c]
  {
    if s == "" {
      assert SkipSpaces([c]) == SkipSpaces([c][1..]);
    } else {
      assert (s + [c])[1..] == s[1..] + [c];
      SkipExtends(s[1..], c);
    }
  }

  lemma {:induction false} TrimmedLine(l: string)
    ensures FirstWord(TrimEnd(l)) == FirstWord(l) && (Sets(TrimEnd(l)) ==> Sets(l))
    ensures Blank(TrimEnd(l)) == Blank(l) && TrimEnd(TrimEnd(l)) == TrimEnd(l)
    ensures |TrimEnd(l)| <= |l| && TrimEnd(l) == l[..|TrimEnd(l)|]
  {
    if l != "" && Space(l[|l| - 1]) {
      var k := l[..|l| - 1];
      TrimmedLine(k);
      assert k + [l[|l| - 1]] == l;
      SkipExtends(k, l[|l| - 1]);
      TokenExtends(SkipSpaces(k), l[|l| - 1]);
    }
  }

  lemma {:induction false} HeaderOpensNothing(ls: seq<string>)
    ensures Header(ls) <= ls && forall i :: 0 <= i < |Header(ls)| ==> !Opens(Header(ls)[i])
  {
    if ls != [] && !Opens(ls[0]) { HeaderOpensNothing(ls[1..]); }
  }

  lemma {:induction false} CleanSetsNothing(ls: seq<string>)
    ensures forall i :: 0 <= i < |Clean(ls)| ==> Clean(ls)[i] in ls && !Sets(Clean(ls)[i])
    decreases |ls|
  {
    if ls != [] {
      if Drops(ls) > 0 { CleanSetsNothing(ls[Drops(ls)..]); } else { CleanSetsNothing(ls[1..]); }
    }
  }

  /** The header of a patched menu. */
  predicate Tidy(r: seq<string>) {
    && (forall i :: 0 <= i < |r| ==> !Opens(r[i]) && !Sets(r[i]) && Without(r[i], '\n'))
    && r != [] && (r == [""] || (!Blank(r[|r| - 1]) && TrimEnd(r[|r| - 1]) == r[|r| - 1]))
  }

  lemma {:induction false} TrimIsTidy(ls: seq<string>)
    requires forall i :: 0 <= i < |ls| ==> !Opens(ls[i]) && !Sets(ls[i]) && Without(ls[i], '\n')
    ensures Tidy(Trim(ls))
  {
    if ls != [] {
      if Blank(ls[|ls| - 1]) { TrimIsTidy(ls[..|ls| - 1]); } else { TrimmedLine(ls[|ls| - 1]); }
    }
  }

  lemma {:induction false} HeaderIsTidy(ls: seq<string>)
    requires forall i :: 0 <= i < |ls| ==> Without(ls[i], '\n')
    ensures Tidy(Trim(Clean(Header(ls))))
  {
    HeaderOpensNothing(ls);
    CleanSetsNothing(Header(ls));
    TrimIsTidy(Clean(Header(ls)));
  }

  lemma {:induction false} HeaderBefore(r: seq<string>, t: seq<string>)
    requires forall i :: 0 <= i < |r| ==> !Opens(r[i])
    ensures Header(r + t) == r + Header(t) && Bodies(r + t) == Bodies(t)
  {
    if r == [] {
      assert r + t == t;
    } else {
      HeadOpens(r[0]);
      assert (r + t)[1..] == r[1..] + t;
      HeaderBefore(r[1..], t);
    }
  }

  lemma HeadOpens(l: string)
    ensures Head(l) ==> Opens(l)
  {
    if "menuentry " <= l {
      assert l == "menuentry" + l[9..] && l[9] == ' ';
      TokenOf("menuentry", l[9..]);
    }
  }

  lemma {:induction false} NothingDropped(r: seq<string>, t: seq<string>)
    requires r != [] && !Blank(r[|r| - 1]) && forall i :: 0 <= i < |r| ==> !Sets(r[i])
    ensures Drops(r + t) == 0
  {
    assert (r + t)[1..] == r[1..] + t;
    if |r| > 1 { NothingDropped(r[1..], t); }
  }

  lemma SettingsDropped()
    ensures Drops(SettingLines()) == 2 && Clean(SettingLines()) == [""] && Clean([""] + SettingLines()) == [""]
  {
    var s := SettingLines();
    assert s[1][..12] == "set timeout=" && s[2][..12] == "set default=";
    assert Sets(s[1]) && Sets(s[2]);
    assert Drops(s[1..]) == 1 && Drops(s) == 2;
    assert Drops(s[2..]) == 1 && s[2..][1..] == [""];
    assert Clean([""]) == [""];
    var p := [""] + s;
    assert p[1..] == s && Drops(p) == 3;
    assert p[3..] == s[2..];
  }

  lemma {:induction false} CleanOver(r: seq<string>, t: seq<string>)
    requires (r == [] || !Blank(r[|r| - 1])) && forall i :: 0 <= i < |r| ==> !Sets(r[i])
    ensures Clean(r + t) == r + Clean(t)
  {
    if r == [] {
      assert r + t == t;
    } else {
      NothingDropped(r, t);
      CleanOver(r[1..], t);
      CleanFirst(r, t);
      assert [r[0]] + (r[1..] + Clean(t)) == r + Clean(t);
    }
  }

  lemma {:induction false} CleanFirst(r: seq<string>, t: seq<string>)
    requires r != [] && Drops(r + t) == 0
    ensures Clean(r + t) == [r[0]] + Clean(r[1..] + t)
  {
    assert (r + t)[1..] == r[1..] + t;
  }

  lemma {:induction false} TidySettles(r: seq<string>)
    requires Tidy(r)
    ensures Trim(Clean(r + SettingLines())) == r
  {
    if r == [""] {
      SettingsDropped();
      assert Trim([""]) == Trim([""][..0]);
    } else {
      CleanOver(r, SettingLines());
      SettingsDropped();
      assert (r + [""])[..|r|] == r;
    }
  }

  // ----- The entry settles -----

  lemma KeywordLine(key: string, value: string)
    requires Word(key) && value != "" && !Space(value[0])
    ensures FirstWord("  " + (key + (" " + value))) == key && Rest("  " + (key + (" " + value))) == value
  {
    AfterSpaces("  ", key + (" " + value));
    TokenOf(key, " " + value);
    AfterSpaces(" ", value);
  }

  lemma {:induction false} BodyKeywords(args: seq<string>)
    requires args != [] && AllWords(args)
    ensures var b := BodyLines(args);
      && FirstWord(b[0]) == "linux" && Rest(b[0]) == JoinWith(args, ' ')
      && FirstWord(b[1]) == "devicetree" && Rest(b[1]) == DTB
      && FirstWord(b[2]) == "initrd" && Rest(b[2]) == INITRD
  {
    var kernel := JoinWith(args, ' ');
    assert kernel != "" && kernel[0] == args[0][0];
    assert DTB[0] == '/' && INITRD[0] == '/';
    KeywordLine("linux", kernel);
    KeywordLine("devicetree", DTB);
    KeywordLine("initrd", INITRD);
    assert "  " + ("linux" + (" " + kernel)) == "  linux " + kernel;
    assert "  " + ("devicetree" + (" " + DTB)) == "  devicetree " + DTB;
    assert "  " + ("initrd" + (" " + INITRD)) == "  initrd " + INITRD;
  }

  lemma {:induction false} OneValue(b: seq<string>, k: nat, keys: set<string>)
    requires |b| == 3 && k < 3 && Rest(b[k]) != ""
    requires forall i :: 0 <= i < 3 ==> (FirstWord(b[i]) in keys <==> i == k)
    ensures Values(b, keys) == [Rest(b[k])]
  {
    assert b[1..][1..] == b[2..] && b[2..][1..] == [];
    assert b[1..][0] == b[1] && b[2..][0] == b[2];
    assert Values(b[2..], keys) == if k == 2 then [Rest(b[2])] else [];
    assert Values(b[1..], keys) == if k == 0 then [] else [Rest(b[k])];
  }

  lemma {:induction false} JoinedIsQuiet(args: seq<string>, c: char)
    requires Quiet([c]) && forall i :: 0 <= i < |args| ==> Quiet(args[i])
    ensures Quiet(JoinWith(args, c))
  {
    assert c != '{' && c != '}' && c != '\n' by { assert [c][0] == c; }
    if |args| > 1 { JoinedIsQuiet(args[1..], c); }
  }

  lemma HeadIsHead()
    ensures Head(HEAD) && Opens(HEAD)
  {
    var tail := " --id " + "azurefin-install" + " {";
    assert HEAD[|HEAD| - |tail|..] == tail;
    HeadOpens(HEAD);
  }

  lemma BodyOpensNothing(args: seq<string>)
    requires args != [] && AllWords(args)
    ensures forall i :: 0 <= i < 5 ==> !Opens((BodyLines(args) + ["}", ""])[i])
  {
    BodyKeywords(args);
    assert FirstWord("}") == "}" by { TokenOf("}", ""); assert "}" + "" == "}"; }
  }

  lemma BodyLinesAreQuiet(args: seq<string>)
    requires AllWords(args)
    ensures AllQuiet(BodyLines(args))
  {
    JoinedIsQuiet(args, ' ');
    QuietPair("  linux ", JoinWith(args, ' '));
    assert Quiet(DTB) && Quiet(INITRD);
    QuietPair("  devicetree ", DTB);
    QuietPair("  initrd ", INITRD);
  }

  lemma QuietPair(a: string, b: string)
    requires Quiet(a) && Quiet(b)
    ensures Quiet(a + b)
  {
  }

  lemma EntryIsRead(args: seq<string>)
    requires args != [] && AllWords(args)
    ensures Bodies(EntryLines(args)) == [BodyLines(args)] && Header(EntryLines(args)) == []
    ensures AllQuiet(BodyLines(args))
  {
    var b, end := BodyLines(args), ["}", ""];
    BodyLinesAreQuiet(args);
    BodyOpensNothing(args);
    BodyEnds(b, end);
    HeaderBefore(b + end, []);
    HeadIsHead();
    EntrySplits(HEAD, b, end);
  }

  lemma {:induction false} EntrySplits(head: string, b: seq<string>, end: seq<string>)
    requires Head(head) && Opens(head) && b != [] && Body(b + end) == Some(b) && Bodies(b + end + []) == []
    ensures Bodies([head] + (b + end)) == [b] && Header([head] + (b + end)) == []
  {
    assert ([head] + (b + end))[1..] == b + end && b + end + [] == b + end;
  }

  lemma {:induction false} BodyEnds(b: seq<string>, end: seq<string>)
    requires AllQuiet(b) && end != [] && end[0] == "}"
    ensures Body(b + end) == Some(b)
  {
    if b == [] {
      assert b + end == end;
    } else {
      assert (b + end)[1..] == b[1..] + end && [b[0]] + b[1..] == b;
      BodyEnds(b[1..], end);
    }
  }

  lemma {:induction false} ArgumentsAreRead(ls: seq<string>, b: seq<string>, kernel: string, args: seq<string>)
    requires |b| == 3 && Bodies(ls) == [b] && kernel != ""
    requires FirstWord(b[0]) == "linux" && Rest(b[0]) == kernel
    requires FirstWord(b[1]) == "devicetree" && Rest(b[1]) == DTB
    requires FirstWord(b[2]) == "initrd" && Rest(b[2]) == INITRD
    requires Fields(kernel) == args && Arguments(args) == Some(args)
    ensures EntryArguments(ls) == Some(args)
  {
    OneValue(b, 0, {"linux", "linuxefi"});
    OneValue(b, 1, {"devicetree"});
    OneValue(b, 2, {"initrd", "initrdefi"});
  }

  lemma {:induction false} ArgumentsAreReadBack(ls: seq<string>, args: seq<string>)
    requires args != [] && AllWords(args) && Arguments(args) == Some(args) && Bodies(ls) == [BodyLines(args)]
    ensures EntryArguments(ls) == Some(args)
  {
    BodyKeywords(args);
    JoinedFields(args);
    assert Fields("") == [];
    ArgumentsAreRead(ls, BodyLines(args), JoinWith(args, ' '), args);
  }

  /** A menu in the written form is its own patch. */
  lemma WrittenIsFixed(r: seq<string>, args: seq<string>)
    requires Tidy(r) && args != [] && AllWords(args) && Arguments(args) == Some(args)
    ensures PatchLines(r + (SettingLines() + EntryLines(args))) == Some(r + (SettingLines() + EntryLines(args)))
  {
    WrittenMenu(r, args);
    TidySettles(r);
  }

  lemma SettingsOpenNothing()
    ensures forall i :: 0 <= i < 4 ==> !Opens(SettingLines()[i])
  {
    TokenOf("set", " timeout=5");
    TokenOf("set", " default=" + "azurefin-install");
  }

  lemma EntryArgumentsSettle(ls: seq<string>)
    requires EntryArguments(ls).Some? && forall i :: 0 <= i < |ls| ==> Without(ls[i], '\n')
    ensures var args := EntryArguments(ls).value; args != [] && AllWords(args) && Arguments(args) == Some(args)
  {
    var body := Bodies(ls)[0];
    var kernels := Values(body, {"linux", "linuxefi"});
    BodiesAreQuiet(ls);
    ValuesAreQuiet(body, {"linux", "linuxefi"});
    FieldsAreWords(kernels[0]);
    ArgumentsSettle(Fields(kernels[0]));
    ArgumentsAreWords(Fields(kernels[0]));
  }

  lemma {:induction false} WrittenLines(r: seq<string>, args: seq<string>)
    requires Tidy(r) && AllQuiet(BodyLines(args))
    ensures forall i :: 0 <= i < |r + (SettingLines() + EntryLines(args))| ==>
      Without((r + (SettingLines() + EntryLines(args)))[i], '\n')
  {
    var t := SettingLines() + EntryLines(args);
    assert Without(HEAD, '\n');
    forall i | 0 <= i < |t| ensures Without(t[i], '\n') {
      if 5 <= i < 8 { assert t[i] == BodyLines(args)[i - 5]; }
    }
  }

  lemma WrittenMenu(r: seq<string>, args: seq<string>)
    requires Tidy(r) && args != [] && AllWords(args) && Arguments(args) == Some(args)
    ensures var now := r + (SettingLines() + EntryLines(args));
      Bodies(now) == [BodyLines(args)] && EntryArguments(now) == Some(args) && Header(now) == r + SettingLines()
  {
    var before, entry := r + SettingLines(), EntryLines(args);
    assert r + (SettingLines() + entry) == before + entry;
    SettingsOpenNothing();
    EntryIsRead(args);
    HeaderBefore(before, entry);
    assert before + [] == before;
    ArgumentsAreReadBack(before + entry, args);
  }

  /** A patched menu has one entry, with the arguments of the old one, behind a header that sets the
      timeout and that entry as default, in this order, and nothing else. */
  lemma {:induction false} PatchedMenu(text: string)
    requires Patch(text).Some?
    ensures var was, now := SplitOn(text, '\n'), SplitOn(Patch(text).value, '\n');
      && |Bodies(now)| == 1 && EntryArguments(now) == EntryArguments(was) && EntryArguments(now).Some?
      && exists r :: Header(now) == r + SettingLines() && Tidy(r)
  {
    var ls := SplitOn(text, '\n');
    SplitParts(text, '\n');
    EntryArgumentsSettle(ls);
    HeaderIsTidy(ls);
    var r, args := Trim(Clean(Header(ls))), EntryArguments(ls).value;
    EntryIsRead(args);
    WrittenLines(r, args);
    SplitJoined(r + (SettingLines() + EntryLines(args)), '\n');
    WrittenMenu(r, args);
  }

  /** Arguments of a menu entry that needs no change, for one medium. */
  function PlainArguments(medium: string): seq<string> {
    [KERNEL, STAGE_LABEL + medium, KickstartOn(medium), PRELOAD + "msm"]
  }

  lemma FixedWords()
    ensures Word(KERNEL) && Word(PRELOAD + "msm")
  {
    assert Word(PRELOAD) && Word("msm");
    WordsJoin(PRELOAD, "msm");
  }

  lemma StageIsWord(medium: string)
    requires medium != "" && forall i :: 0 <= i < |medium| ==> LabelChar(medium[i])
    ensures Word(STAGE_LABEL + medium)
  {
    assert Word(STAGE_LABEL) && Word(medium);
    WordsJoin(STAGE_LABEL, medium);
  }

  lemma PlainWords(medium: string)
    requires medium != "" && forall i :: 0 <= i < |medium| ==> LabelChar(medium[i])
    ensures AllWords(PlainArguments(medium))
  {
    FixedWords();
    StageIsWord(medium);
    KickstartIsWord(medium);
    var args := PlainArguments(medium);
    assert args[0] == KERNEL && args[1] == STAGE_LABEL + medium && args[2] == KickstartOn(medium) && args[3] == PRELOAD + "msm";
  }

  lemma PlainIsBootable(medium: string)
    requires medium != "" && forall i :: 0 <= i < |medium| ==> LabelChar(medium[i])
    ensures Bootable(PlainArguments(medium)) && Label(PlainArguments(medium)) == medium
  {
    PlainSelection(medium);
    var stage := STAGE_LABEL + medium;
    assert stage[..|STAGE_LABEL|] == STAGE_LABEL && stage[|STAGE_LABEL|..] == medium;
    forall i | |STAGE_LABEL| <= i < |stage| ensures LabelChar(stage[i]) { assert stage[i] == medium[i - |STAGE_LABEL|]; }
  }

  lemma NoStop(a: string)
    requires a != "" && (a[0] == '/' || (|a| > 5 && a[0] == 'i' && (a[5] == 's' || a[5] == 'k'))
                         || (|a| > 4 && a[0] == 'r' && a[3] == 'd'))
    ensures !Stops(a)
  {
    assert "rd.break"[0] == 'r' && "rd.break"[3] == 'b';
    assert "rd.live.check"[0] == 'r' && "rd.live.check"[3] == 'l';
    assert "inst.rescue"[0] == 'i' && "inst.rescue"[5] == 'r';
  }

  lemma PlainNeverStops(medium: string)
    ensures forall i :: 0 <= i < 4 ==> !Stops(PlainArguments(medium)[i])
  {
    var args := PlainArguments(medium);
    assert KERNEL[0] == '/' && KICKSTART[0] == 'i' && KICKSTART[5] == 'k';
    assert STAGE_LABEL[0] == 'i' && STAGE_LABEL[5] == 's' && PRELOAD[0] == 'r' && PRELOAD[3] == 'd';
    forall i | 0 <= i < 4 ensures !Stops(args[i]) { NoStop(args[i]); }
  }

  lemma PlainIsSet(medium: string)
    ensures SetKickstart(PlainArguments(medium), KickstartOn(medium)) == PlainArguments(medium)
  {
    var args, ks := PlainArguments(medium), KickstartOn(medium);
    assert ks[..|KICKSTART|] == KICKSTART;
    SetKeeps(args, ks);
    assert KERNEL[0] == '/' && KICKSTART[0] == 'i' && KICKSTART[5] == 'k' && STAGE_LABEL[5] == 's' && PRELOAD[0] == 'r';
  }

  lemma PlainArgumentsAreAccepted(medium: string)
    requires medium != "" && forall i :: 0 <= i < |medium| ==> LabelChar(medium[i])
    ensures Arguments(PlainArguments(medium)) == Some(PlainArguments(medium))
  {
    PlainIsBootable(medium);
    PlainIsSet(medium);
    PlainNeverStops(medium);
  }

  lemma {:induction false} OnlyOne(args: seq<string>, prefix: string, k: nat)
    requires |args| == 4 && k < 4 && forall i :: 0 <= i < 4 ==> (prefix <= args[i] <==> i == k)
    ensures With(args, prefix) == [args[k]]
  {
    assert args[1..][0] == args[1] && args[2..][0] == args[2] && args[3..][0] == args[3] && args[3..][1..] == [];
    assert args[1..][1..] == args[2..] && args[2..][1..] == args[3..];
    assert With(args[3..], prefix) == if k == 3 then [args[3]] else [];
    assert With(args[2..], prefix) == if k >= 2 then [args[k]] else [];
    assert With(args[1..], prefix) == if k >= 1 then [args[k]] else [];
  }

  /** Each of the four arguments starts differently. */
  lemma PlainPrefixes(medium: string)
    ensures var args := PlainArguments(medium);
      && (forall i :: 0 <= i < 4 ==> (STAGE <= args[i] <==> i == 1))
      && (forall i :: 0 <= i < 4 ==> (KICKSTART <= args[i] <==> i == 2))
      && (forall i :: 0 <= i < 4 ==> (PRELOAD <= args[i] <==> i == 3))
  {
    var args := PlainArguments(medium);
    assert STAGE_LABEL[..|STAGE|] == STAGE && args[1][..|STAGE|] == STAGE;
    assert args[2][..|KICKSTART|] == KICKSTART && args[3][..|PRELOAD|] == PRELOAD;
    assert KERNEL[0] == '/' && STAGE[0] == 'i' && STAGE[5] == 's' && KICKSTART[0] == 'i' && KICKSTART[5] == 'k' && PRELOAD[0] == 'r';
    assert args[1][0] == 'i' && args[1][5] == 's' && args[2][0] == 'i' && args[2][5] == 'k' && args[3][0] == 'r' && args[0][0] == '/';
  }

  lemma PlainSelection(medium: string)
    ensures var args := PlainArguments(medium);
      && With(args, STAGE) == [args[1]] && With(args, KICKSTART) == [args[2]] && With(args, PRELOAD) == [args[3]]
  {
    PlainPrefixes(medium);
    OnlyOne(PlainArguments(medium), STAGE, 1);
    OnlyOne(PlainArguments(medium), KICKSTART, 2);
    OnlyOne(PlainArguments(medium), PRELOAD, 3);
  }

  /** For every medium there is a menu that is accepted and that the patch leaves alone. */
  lemma SomeMenuIsAccepted(medium: string)
    requires medium != "" && forall i :: 0 <= i < |medium| ==> LabelChar(medium[i])
    ensures exists text :: Patch(text) == Some(text)
              && EntryArguments(SplitOn(text, '\n')) == Some(PlainArguments(medium))
  {
    var args := PlainArguments(medium);
    PlainArgumentsAreAccepted(medium);
    PlainWords(medium);
    var ls := [""] + (SettingLines() + EntryLines(args));
    assert FirstWord("") == "" && !Sets("");
    WrittenIsFixed([""], args);
    WrittenMenu([""], args);
    EntryIsRead(args);
    WrittenLines([""], args);
    SplitJoined(ls, '\n');
    assert Patch(JoinWith(ls, '\n')) == Some(JoinWith(ls, '\n'));
  }

  /** One application reaches the fixed point, for every menu that is accepted at all. */
  lemma PatchSettles(text: string)
    requires Patch(text).Some?
    ensures Patch(Patch(text).value) == Patch(text)
  {
    var ls := SplitOn(text, '\n');
    SplitParts(text, '\n');
    EntryArgumentsSettle(ls);
    HeaderIsTidy(ls);
    var r, args := Trim(Clean(Header(ls))), EntryArguments(ls).value;
    WrittenIsFixed(r, args);
    EntryIsRead(args);
    WrittenLines(r, args);
    SplitJoined(r + (SettingLines() + EntryLines(args)), '\n');
  }

  /** The release audit's test `patch(text) == text` accepts exactly the menus that a patch wrote. */
  lemma FixedMeansPatched(text: string)
    ensures Patch(text) == Some(text) <==> exists was :: Patch(was) == Some(text)
  {
    forall was | Patch(was) == Some(text) ensures Patch(text) == Some(text) {
      PatchSettles(was);
    }
  }
}
