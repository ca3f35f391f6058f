// Firmware policies and the public manifest derived from them.
module FirmwarePolicy {
  import opened Options
  import opened Words

  /** File contents and manifests are byte strings. */
  type Data = string

  datatype Entry = Entry(target: string, sha: string)

  const MAX_ENTRIES := 256

  predicate PathChar(c: char) {
    'a' <= c <= 'z' || 'A' <= c <= 'Z' || '0' <= c <= '9' || c == '_' || c == '.' || c == '/' || c == '-'
  }

  predicate GoodPart(part: string) {
    part != "" && part != "." && part != ".."
  }

  /** `part` and what follows up to the next slash is a proper name, and so is every later part. */
  predicate SafeFrom(part: string, s: string)
    decreases s
  {
    if s == "" then GoodPart(part)
    else if s[0] == '/' then GoodPart(part) && SafeFrom("", s[1..])
    else PathChar(s[0]) && SafeFrom(part + [s[0]], s[1..])
  }

  /** A relative path that is its own normal form and never climbs: every part is a proper name. */
  predicate SafeTarget(s: string) {
    SafeFrom("", s)
  }

  lemma {:induction false} SafeChars(part: string, s: string)
    requires SafeFrom(part, s)
    ensures forall i :: 0 <= i < |s| ==> PathChar(s[i])
    decreases s
  {
    if s != "" { SafeChars(if s[0] == '/' then "" else part + [s[0]], s[1..]); }
  }

  /** Path characters up to the next slash extend the current part. */
  lemma {:induction false} SafeRun(part: string, name: string, rest: string)
    requires forall i :: 0 <= i < |name| ==> PathChar(name[i]) && name[i] != '/'
    ensures SafeFrom(part, name + rest) == SafeFrom(part + name, rest)
    decreases name
  {
    if name == "" {
      assert name + rest == rest && part + name == part;
    } else {
      assert (name + rest)[1..] == name[1..] + rest;
      assert part + [name[0]] + name[1..] == part + name;
      SafeRun(part + [name[0]], name[1..], rest);
    }
  }

  predicate IsName(s: string) {
    GoodPart(s) && forall i :: 0 <= i < |s| ==> PathChar(s[i]) && s[i] != '/'
  }

  lemma SafeName(name: string)
    requires IsName(name)
    ensures SafeTarget(name)
  {
    assert name + "" == name && "" + name == name;
    SafeRun("", name, "");
  }

  lemma SafePair(directory: string, name: string)
    requires IsName(directory) && IsName(name)
    ensures SafeTarget(directory + ("/" + name))
  {
    assert "" + directory == directory && ("/" + name)[1..] == name;
    SafeRun("", directory, "/" + name);
    SafeName(name);
  }

  predicate SafeEntry(e: Entry) {
    SafeTarget(e.target) && IsDigest(e.sha)
  }

  predicate DistinctTargets(files: seq<Entry>) {
    forall i, j :: 0 <= i < j < |files| ==> files[i].target != files[j].target
  }

  /** The policies that both the manifest and the inventory accept. */
  predicate Accepted(files: seq<Entry>) {
    1 <= |files| <= MAX_ENTRIES && (forall i :: 0 <= i < |files| ==> SafeEntry(files[i])) && DistinctTargets(files)
  }

  function Row(e: Entry): string {
    e.sha + "  " + e.target + "\n"
  }

  // ----- Sorting strings -----

  predicate Before(a: string, b: string) {
    a == [] || (b != [] && (a[0] < b[0] || (a[0] == b[0] && Before(a[1..], b[1..]))))
  }

  lemma {:induction false} BeforeTotal(a: string, b: string)
    ensures Before(a, b) || Before(b, a)
    ensures Before(a, b) && Before(b, a) ==> a == b
  {
    if a != [] && b != [] {
      BeforeTotal(a[1..], b[1..]);
      assert a == [a[0]] + a[1..] && b == [b[0]] + b[1..];
    }
  }

  lemma {:induction false} BeforeTransitive(a: string, b: string, c: string)
    requires Before(a, b) && Before(b, c)
    ensures Before(a, c)
  {
    if a != [] && a[0] == b[0] == c[0] { BeforeTransitive(a[1..], b[1..], c[1..]); }
  }

  predicate Sorted(rows: seq<string>) {
    forall i, j :: 0 <= i < j < |rows| ==> Before(rows[i], rows[j])
  }

  function Insert(row: string, rows: seq<string>): (r: seq<string>)
    ensures multiset(r) == multiset{row} + multiset(rows)
  {
    if rows == [] then [row]
    else
      assert rows == [rows[0]] + rows[1..];
      if Before(row, rows[0]) then [row] + rows else [rows[0]] + Insert(row, rows[1..])
  }

  /** Python's sorted() on strings. */
  function Sort(rows: seq<string>): (r: seq<string>)
    ensures multiset(r) == multiset(rows)
  {
    if rows == [] then []
    else
      assert rows == [rows[0]] + rows[1..];
      Insert(rows[0], Sort(rows[1..]))
  }

  lemma {:induction false} InsertSorted(row: string, rows: seq<string>)
    requires Sorted(rows)
    ensures Sorted(Insert(row, rows))
  {
    if rows != [] {
      if Before(row, rows[0]) {
        forall j | 0 <= j < |rows| ensures Before(row, rows[j]) {
          if j > 0 { BeforeTransitive(row, rows[0], rows[j]); }
        }
      } else {
        BeforeTotal(row, rows[0]);
        InsertSorted(row, rows[1..]);
        var rest := Insert(row, rows[1..]);
        forall j | 0 <= j < |rest| ensures Before(rows[0], rest[j]) {
          assert rest[j] in multiset(rest);
          assert rest[j] == row || rest[j] in rows[1..];
        }
      }
    }
  }

  lemma {:induction false} SortSorted(rows: seq<string>)
    ensures Sorted(Sort(rows))
  {
    if rows != [] {
      SortSorted(rows[1..]);
      InsertSorted(rows[0], Sort(rows[1..]));
    }
  }

  lemma TailElements(a: seq<string>)
    requires a != []
    ensures multiset(a[1..]) == multiset(a) - multiset{a[0]}
  {
    assert a == [a[0]] + a[1..];
  }

  lemma FirstIsLeast(a: seq<string>, b: seq<string>)
    requires Sorted(a) && a != [] && b != [] && b[0] in multiset(a)
    ensures Before(a[0], b[0]) || a[0] == b[0]
  {
    var j :| 0 <= j < |a| && a[j] == b[0];
    if j > 0 { assert a[j] in a[1..]; }
  }

  lemma SameFirst(a: seq<string>, b: seq<string>)
    requires Sorted(a) && Sorted(b) && multiset(a) == multiset(b) && a != []
    ensures |a| == |b| && a[0] == b[0]
  {
    assert |multiset(a)| == |a| && |multiset(b)| == |b|;
    assert a[0] in multiset(b) && b[0] in multiset(a);
    FirstIsLeast(a, b);
    FirstIsLeast(b, a);
    if a[0] != b[0] { BeforeTotal(a[0], b[0]); }
  }

  /** A sorted sequence is determined by its elements. */
  lemma {:induction false} SortedUnique(a: seq<string>, b: seq<string>)
    requires Sorted(a) && Sorted(b) && multiset(a) == multiset(b)
    ensures a == b
  {
    if a == [] {
      assert |multiset(b)| == 0;
    } else {
      SameFirst(a, b);
      TailElements(a);
      TailElements(b);
      SortedUnique(a[1..], b[1..]);
      assert a == [a[0]] + a[1..] && b == [b[0]] + b[1..];
    }
  }

  // ----- The manifest -----

  function Rows(files: seq<Entry>): (rows: seq<string>)
    ensures |rows| == |files| && forall i :: 0 <= i < |files| ==> rows[i] == Row(files[i])
  {
    seq(|files|, i requires 0 <= i < |files| => Row(files[i]))
  }

  function Concat(rows: seq<string>): string {
    if rows == [] then "" else rows[0] + Concat(rows[1..])
  }

  /** The manifest of an accepted policy. */
  function ManifestOf(files: seq<Entry>): Data {
    Concat(Sort(Rows(files)))
  }

  method Manifest(files: seq<Entry>) returns (r: Option<Data>)
    ensures r.Some? <==> Accepted(files)
    ensures r.Some? ==> r.value == ManifestOf(files)
  {
    if !(1 <= |files| <= MAX_ENTRIES) { return None; }
    var rows: seq<string>, seen: set<string> := [], {};
    for i := 0 to |files|
      invariant forall k :: 0 <= k < i ==> SafeEntry(files[k])
      invariant DistinctTargets(files[..i])
      invariant forall t :: t in seen <==> exists k :: 0 <= k < i && files[k].target == t
      invariant rows == Rows(files[..i])
    {
      var e := files[i];
      if !SafeTarget(e.target) || e.target in seen || !IsDigest(e.sha) {
        return None;
      }
      seen, rows := seen + {e.target}, rows + [Row(e)];
    }
    assert files[..|files|] == files;
    return Some(Concat(Sort(rows)));
  }

  // ----- Reading a manifest back -----

  /** The newline-terminated lines of a text; what follows the last newline is not a line. */
  function Lines(s: string): seq<string> {
    LinesFrom(s, "")
  }

  function LinesFrom(s: string, line: string): seq<string> {
    if s == [] then []
    else if s[0] == '\n' then [line] + LinesFrom(s[1..], "")
    else LinesFrom(s[1..], line + [s[0]])
  }

  /** `read -r hash target`: the first word, and the rest without blanks around it. */
  function ReadEntry(line: string): Entry {
    var s := SkipSpaces(line);
    var hash := Token(s);
    Entry(TrimEnd(SkipSpaces(if |hash| <= |s| then s[|hash|..] else "")), hash)
  }

  function ReadManifest(contents: Data): (es: seq<Entry>)
    ensures |es| == |Lines(contents)|
  {
    var lines := Lines(contents);
    seq(|lines|, i requires 0 <= i < |lines| => ReadEntry(lines[i]))
  }

  predicate NoBlanks(s: string) {
    forall i :: 0 <= i < |s| ==> !Space(s[i]) && s[i] != '\n'
  }

  lemma ReadRow(e: Entry)
    requires SafeEntry(e)
    ensures NoBlanks(e.sha) && NoBlanks(e.target)
    ensures ReadEntry(e.sha + "  " + e.target) == e
  {
    SafeChars("", e.target);
    forall i | 0 <= i < |e.target| ensures !Space(e.target[i]) && e.target[i] != '\n' { assert PathChar(e.target[i]); }
    var line := e.sha + "  " + e.target;
    assert line == e.sha + ("  " + e.target);
    TokenOf(e.sha, "  " + e.target);
    assert line[64..] == "  " + e.target;
    assert SkipSpaces("  " + e.target) == SkipSpaces(" " + e.target) == SkipSpaces(e.target) by {
      assert ("  " + e.target)[1..] == " " + e.target && (" " + e.target)[1..] == e.target;
    }
  }

  lemma {:induction false} LinesOf(line: string, prefix: string, rest: string)
    requires forall i :: 0 <= i < |line| ==> line[i] != '\n'
    ensures LinesFrom(line + "\n" + rest, prefix) == [prefix + line] + LinesFrom(rest, "")
  {
    var s := line + "\n" + rest;
    if line == [] {
      assert s[1..] == rest && prefix + line == prefix;
    } else {
      assert s[1..] == line[1..] + "\n" + rest;
      LinesOf(line[1..], prefix + [line[0]], rest);
      assert prefix + [line[0]] + line[1..] == prefix + line;
    }
  }

  lemma FirstLine(line: string, rest: string)
    requires forall i :: 0 <= i < |line| ==> line[i] != '\n'
    ensures Lines(line + "\n" + rest) == [line] + Lines(rest)
  {
    LinesOf(line, "", rest);
    assert "" + line == line;
  }

  /** Reading the rows of safe entries, in any order, gives the entries back. */
  lemma {:induction false} ReadRows(es: seq<Entry>)
    requires forall i :: 0 <= i < |es| ==> SafeEntry(es[i])
    ensures ReadManifest(Concat(Rows(es))) == es
  {
    if es != [] {
      var line, rest := es[0].sha + "  " + es[0].target, Concat(Rows(es[1..]));
      ReadRow(es[0]);
      ReadRows(es[1..]);
      assert Rows(es)[1..] == Rows(es[1..]);
      FirstLine(line, rest);
      assert Concat(Rows(es)) == line + "\n" + rest;
      assert ReadManifest(Concat(Rows(es))) == [ReadEntry(line)] + ReadManifest(rest);
    }
  }

  // ----- The manifest is canonical and reversible -----

  ghost predicate SameEntries(a: seq<Entry>, b: seq<Entry>) {
    forall e :: e in a <==> e in b
  }

  predicate NoDuplicates<T(==)>(s: seq<T>) {
    forall i, j :: 0 <= i < j < |s| ==> s[i] != s[j]
  }

  lemma {:induction false} CountOnce<T>(s: seq<T>, x: T)
    requires NoDuplicates(s)
    ensures multiset(s)[x] == if x in s then 1 else 0
  {
    if s != [] {
      CountOnce(s[1..], x);
      assert s == [s[0]] + s[1..];
    }
  }

  lemma RowInjective(a: Entry, b: Entry)
    requires SafeEntry(a) && SafeEntry(b) && Row(a) == Row(b)
    ensures a == b
  {
    ReadRow(a);
    ReadRow(b);
    var x, y := a.sha + "  " + a.target, b.sha + "  " + b.target;
    assert Row(a)[..|Row(a)| - 1] == x && Row(b)[..|Row(b)| - 1] == y;
  }

  lemma RowsNoDuplicates(files: seq<Entry>)
    requires Accepted(files)
    ensures NoDuplicates(Rows(files))
  {
    forall i, j | 0 <= i < j < |files|
      ensures Row(files[i]) != Row(files[j])
    {
      if Row(files[i]) == Row(files[j]) {
        RowInjective(files[i], files[j]);
      }
    }
  }

  lemma {:induction false} SortMember(rows: seq<string>, r: string)
    ensures r in Sort(rows) <==> r in rows
    ensures |Sort(rows)| == |rows|
  {
    var sorted := Sort(rows);
    assert r in sorted <==> r in multiset(sorted);
    assert r in rows <==> r in multiset(rows);
    assert |multiset(sorted)| == |sorted| && |multiset(rows)| == |rows|;
  }

  lemma RowMember(files: seq<Entry>, r: string) returns (e: Entry)
    requires r in Rows(files)
    ensures e in files && Row(e) == r
  {
    var k :| 0 <= k < |files| && Rows(files)[k] == r;
    e := files[k];
  }

  lemma MemberRow(files: seq<Entry>, e: Entry)
    requires e in files
    ensures Row(e) in Rows(files)
  {
    var k :| 0 <= k < |files| && files[k] == e;
    assert Rows(files)[k] == Row(e);
  }

  /** Rows that all come from a policy are the rows of some of its entries, in that order. */
  lemma {:induction false} EntriesOfRows(files: seq<Entry>, rows: seq<string>) returns (es: seq<Entry>)
    requires forall i :: 0 <= i < |rows| ==> rows[i] in Rows(files)
    ensures Rows(es) == rows && |es| == |rows| && forall i :: 0 <= i < |es| ==> es[i] in files
  {
    if rows == [] {
      es := [];
    } else {
      var e := RowMember(files, rows[0]);
      var rest := EntriesOfRows(files, rows[1..]);
      es := [e] + rest;
      assert rows == [rows[0]] + rows[1..];
    }
  }

  ghost predicate AllSafe(es: seq<Entry>) {
    forall i :: 0 <= i < |es| ==> SafeEntry(es[i])
  }

  lemma SafeRowMember(es: seq<Entry>, e: Entry)
    requires AllSafe(es) && SafeEntry(e) && Row(e) in Rows(es)
    ensures e in es
  {
    var d := RowMember(es, Row(e));
    RowInjective(d, e);
  }

  lemma MemberSafe(files: seq<Entry>, e: Entry)
    requires AllSafe(files) && e in files
    ensures SafeEntry(e)
  {
  }

  /** The sorted rows are the rows of a reordering of the entries. */
  lemma SortedEntries(files: seq<Entry>) returns (es: seq<Entry>)
    requires AllSafe(files)
    ensures Rows(es) == Sort(Rows(files)) && |es| == |files| && SameEntries(es, files) && AllSafe(es)
  {
    var sorted := Sort(Rows(files));
    forall i | 0 <= i < |sorted| ensures sorted[i] in Rows(files) { SortMember(Rows(files), sorted[i]); }
    es := EntriesOfRows(files, sorted);
    SortMember(Rows(files), "");
    forall i | 0 <= i < |es| ensures SafeEntry(es[i]) { MemberSafe(files, es[i]); }
    forall e | e in files
      ensures e in es
    {
      MemberRow(files, e);
      SortMember(Rows(files), Row(e));
      MemberSafe(files, e);
      SafeRowMember(es, e);
    }
  }

  /** Reading a manifest back line by line, as the loader does, recovers the policy's entries. */
  lemma ManifestReadsBack(files: seq<Entry>)
    requires AllSafe(files)
    ensures var es := ReadManifest(ManifestOf(files));
      |es| == |files| && SameEntries(es, files) && AllSafe(es) && Rows(es) == Sort(Rows(files))
  {
    var es := SortedEntries(files);
    ReadRows(es);
  }

  lemma SameRows(a: seq<Entry>, b: seq<Entry>)
    requires NoDuplicates(Rows(a)) && NoDuplicates(Rows(b)) && SameEntries(a, b)
    ensures multiset(Rows(a)) == multiset(Rows(b))
  {
    forall r
      ensures multiset(Rows(a))[r] == multiset(Rows(b))[r]
    {
      CountOnce(Rows(a), r);
      CountOnce(Rows(b), r);
      if r in Rows(a) { var e := RowMember(a, r); MemberRow(b, e); }
      if r in Rows(b) { var e := RowMember(b, r); MemberRow(a, e); }
    }
  }

  lemma {:induction false} SortIsCanonical(a: seq<string>, b: seq<string>)
    requires multiset(a) == multiset(b)
    ensures Sort(a) == Sort(b)
  {
    SortSorted(a);
    SortSorted(b);
    SortedUnique(Sort(a), Sort(b));
  }

  lemma SameManifestSameEntries(a: seq<Entry>, b: seq<Entry>)
    requires AllSafe(a) && AllSafe(b) && ManifestOf(a) == ManifestOf(b)
    ensures SameEntries(a, b)
  {
    ManifestReadsBack(a);
    ManifestReadsBack(b);
  }

  /** Two accepted policies have the same manifest exactly when they have the same entries. */
  lemma ManifestCanonical(a: seq<Entry>, b: seq<Entry>)
    requires Accepted(a) && Accepted(b)
    ensures ManifestOf(a) == ManifestOf(b) <==> SameEntries(a, b)
  {
    if SameEntries(a, b) {
      RowsNoDuplicates(a);
      RowsNoDuplicates(b);
      SameRows(a, b);
      SortIsCanonical(Rows(a), Rows(b));
    }
    if ManifestOf(a) == ManifestOf(b) { SameManifestSameEntries(a, b); }
  }
}
