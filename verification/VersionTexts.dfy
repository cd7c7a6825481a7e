/**
 Versions as they are spelled: which texts the matcher reads as versions, what it reads from them,
 and how two of them compare.
 */
module VersionTexts {
  import opened Options
  import opened SemVer

  // ---------- Spellings ----------

  // A number in decimal, after any number of zeros.
  datatype Number = Number(zeros: nat, n: nat) {
    function Text(): string { Zeros(zeros) + Decimal(n) }
  }

  // Up to three numbers, the identifiers of the prerelease and the build metadata, with an optional
  // "v" and surrounding space.
  datatype Spelling = Spelling(
    left: string,
    prefixed: bool,
    core: seq<Number>,
    ids: seq<string>,
    build: Option<string>,
    right: string) {
    function Core(): string { Join(CoreTexts(core), '.') }

    function Tail(): string { if ids == [] then "" else "-" + Join(ids, '.') }

    function Metadata(): string { match build case None => "" case Some(b) => "+" + b }

    function Body(): string { (if prefixed then "v" else "") + Core() + Tail() + Metadata() }

    function Text(): string { left + Body() + right }

    predicate WellFormed()
    {
      && Blank(left) && Blank(right)
      && 1 <= |core| <= 3 && (forall i :: 0 <= i < |core| ==> core[i].n <= MAX_INT)
      && (forall i :: 0 <= i < |ids| ==> '.' !in ids[i] && '+' !in ids[i])
      && Body() != "" && !IsSpace(Body()[|Body()| - 1])
    }

    // Missing numbers count as zero.
    function At(i: nat): nat { if i < |core| then core[i].n else 0 }

    // A single empty identifier is no prerelease.
    predicate Released() { ids == [] || ids == [""] }
  }

  predicate Blank(s: string)
  {
    forall i :: 0 <= i < |s| ==> IsSpace(s[i])
  }

  function Zeros(n: nat): string
  {
    if n == 0 then "" else "0" + Zeros(n - 1)
  }

  function CoreTexts(core: seq<Number>): (r: seq<string>)
    ensures |r| == |core|
  {
    seq(|core|, i requires 0 <= i < |core| => core[i].Text())
  }

  function Join(parts: seq<string>, c: char): string
  {
    if parts == [] then "" else if |parts| == 1 then parts[0] else parts[0] + [c] + Join(parts[1..], c)
  }

  // ---------- Splitting and trimming ----------

  predicate Free(parts: seq<string>, c: char)
  {
    forall i :: 0 <= i < |parts| ==> c !in parts[i]
  }

  lemma {:induction false} SplitJoin(parts: seq<string>, c: char)
    requires parts != [] && Free(parts, c)
    ensures Split(Join(parts, c), c) == parts
  {
    if |parts| == 1 {
      Cut(parts[0], c, "");
    } else {
      var rest := Join(parts[1..], c);
      var s := parts[0] + [c] + rest;
      IndexOfFirst(s, c, |parts[0]|);
      assert s[..|parts[0]|] == parts[0] && s[|parts[0]| + 1..] == rest;
      SplitJoin(parts[1..], c);
    }
  }

  lemma {:induction false} JoinSplit(s: string, c: char)
    ensures Join(Split(s, c), c) == s && Free(Split(s, c), c)
  {
    var i := IndexOf(s, c);
    if i >= 0 {
      JoinSplit(s[i + 1..], c);
      assert s == s[..i] + [c] + s[i + 1..];
      assert ([s[..i]] + Split(s[i + 1..], c))[1..] == Split(s[i + 1..], c);
    }
  }

  lemma {:induction false} JoinFree(parts: seq<string>, c: char, d: char)
    requires Free(parts, d) && c != d
    ensures d !in Join(parts, c)
  {
    if |parts| > 1 {
      JoinFree(parts[1..], c, d);
    }
  }

  lemma {:induction false} TrimsLeft(left: string, s: string)
    requires Blank(left) && (s == "" || !IsSpace(s[0]))
    ensures TrimLeft(left + s) == s
  {
    if left == "" {
      assert left + s == s;
    } else {
      assert (left + s)[1..] == left[1..] + s;
      TrimsLeft(left[1..], s);
    }
  }

  lemma {:induction false} TrimsRight(s: string, right: string)
    requires Blank(right) && (s == "" || !IsSpace(s[|s| - 1]))
    ensures TrimRight(s + right) == s
  {
    if right == "" {
      assert s + right == s;
    } else {
      var n := |right| - 1;
      assert (s + right)[..|s| + n] == s + right[..n];
      TrimsRight(s, right[..n]);
    }
  }

  lemma {:induction false} TrimmedLeft(s: string) returns (left: string)
    ensures Blank(left) && s == left + TrimLeft(s)
  {
    left := "";
    if s != "" && IsSpace(s[0]) {
      var rest := TrimmedLeft(s[1..]);
      left := [s[0]] + rest;
    }
  }

  lemma {:induction false} TrimmedRight(s: string) returns (right: string)
    ensures Blank(right) && s == TrimRight(s) + right
    ensures TrimRight(s) == "" || !IsSpace(TrimRight(s)[|TrimRight(s)| - 1])
  {
    right := "";
    if s != "" && IsSpace(s[|s| - 1]) {
      var rest := TrimmedRight(s[..|s| - 1]);
      right := rest + [s[|s| - 1]];
    }
  }

  // ---------- Numbers ----------

  lemma {:induction false} ZerosAre(n: nat)
    ensures forall i :: 0 <= i < |Zeros(n)| ==> Zeros(n)[i] == '0'
  {
    if n > 0 {
      ZerosAre(n - 1);
    }
  }

  lemma {:induction false} LeadingZero(s: string)
    requires AllDigits(s)
    ensures AllDigits("0" + s) && Value("0" + s) == Value(s)
  {
    var t := "0" + s;
    assert t[..|t| - 1] == "0" + s[..|s| - 1];
    if |s| > 1 {
      LeadingZero(s[..|s| - 1]);
    } else {
      assert t[..1] == "0" && Value("0") == 0;
    }
  }

  lemma {:induction false} LeadingZeros(n: nat, s: string)
    requires AllDigits(s)
    ensures AllDigits(Zeros(n) + s) && Value(Zeros(n) + s) == Value(s)
  {
    hide AllDigits, Value;
    if n == 0 {
      assert Zeros(n) + s == s;
    } else {
      LeadingZeros(n - 1, s);
      LeadingZero(Zeros(n - 1) + s);
      assert Zeros(n) + s == "0" + (Zeros(n - 1) + s);
    }
  }

  lemma NumberReads(x: Number)
    ensures AllDigits(x.Text()) && Value(x.Text()) == x.n
    ensures Atoi(x.Text()) == if x.n <= MAX_INT then Some(x.n) else None
  {
    LeadingZeros(x.zeros, Decimal(x.n));
  }

  lemma DecimalAppend(n: nat, digit: char)
    requires '0' <= digit <= '9'
    ensures var m := n * 10 + (digit - '0') as nat; Decimal(m) == if n == 0 then [digit] else Decimal(n) + [digit]
  {
    var m := n * 10 + (digit - '0') as nat;
    assert m % 10 == (digit - '0') as nat && m / 10 == n;
  }

  lemma ValueAppend(front: string, digit: char)
    requires AllDigits(front) && '0' <= digit <= '9'
    ensures AllDigits(front + [digit]) && Value(front + [digit]) == Value(front) * 10 + (digit - '0') as nat
  {
    assert (front + [digit])[..|front|] == front;
  }

  // Digits spell a number, whose value they have.
  lemma {:induction false} DigitsSpell(s: string) returns (x: Number)
    requires AllDigits(s)
    ensures x.Text() == s && x.n == Value(s)
  {
    if |s| == 1 {
      x := Number(0, Value(s));
      DecimalAppend(0, s[0]);
    } else {
      var front, last := s[..|s| - 1], s[|s| - 1];
      x := DigitsSpell(front);
      assert s == front + [last];
      ValueAppend(front, last);
      x := Appended(x, last);
    }
  }

  lemma Appended(x: Number, digit: char) returns (y: Number)
    requires '0' <= digit <= '9'
    ensures y.Text() == x.Text() + [digit] && y.n == x.n * 10 + (digit - '0') as nat
  {
    hide Decimal;
    DecimalAppend(x.n, digit);
    y := Number(if x.n == 0 then x.zeros + 1 else x.zeros, x.n * 10 + (digit - '0') as nat);
    if x.n == 0 {
      ZerosEnd(x.zeros);
      DecimalAppend(0, '0');
    }
  }

  lemma {:induction false} ZerosEnd(n: nat)
    ensures Zeros(n + 1) == Zeros(n) + "0"
  {
    if n > 0 {
      ZerosEnd(n - 1);
    }
  }

  lemma CoreReads(core: seq<Number>)
    requires core != []
    ensures Split(Join(CoreTexts(core), '.'), '.') == CoreTexts(core)
    ensures '-' !in Join(CoreTexts(core), '.') && '+' !in Join(CoreTexts(core), '.')
  {
    hide Number.Text, Split, Join;
    var texts := CoreTexts(core);
    forall i | 0 <= i < |texts|
      ensures '.' !in texts[i] && '-' !in texts[i] && '+' !in texts[i]
    {
      NumberReads(core[i]);
    }
    SplitJoin(texts, '.');
    JoinFree(texts, '.', '-');
    JoinFree(texts, '.', '+');
  }

  lemma CoreStarts(core: seq<Number>)
    requires core != []
    ensures Join(CoreTexts(core), '.') != "" && '0' <= Join(CoreTexts(core), '.')[0] <= '9'
  {
    NumberReads(core[0]);
    assert CoreTexts(core)[0] == core[0].Text();
  }

  // ---------- What is read from a text ----------

  lemma Normalizes(s: Spelling)
    requires s.WellFormed()
    ensures NormalizeVersion(s.Text()) == s.Core() + s.Tail() + s.Metadata()
  {
    hide Spelling.Core, Spelling.Tail, Spelling.Metadata, TrimLeft, TrimRight;
    CoreOf(s);
    var body := s.Body();
    assert body[0] == (if s.prefixed then 'v' else s.Core()[0]);
    assert s.Text() == s.left + (body + s.right);
    TrimsLeft(s.left, body + s.right);
    TrimsRight(body, s.right);
    var rest := s.Core() + s.Tail() + s.Metadata();
    assert body == (if s.prefixed then "v" + rest else rest);
  }

  lemma CoreOf(s: Spelling)
    requires s.core != []
    ensures s.Core() != "" && '0' <= s.Core()[0] <= '9'
    ensures Split(s.Core(), '.') == CoreTexts(s.core) && '-' !in s.Core() && '+' !in s.Core()
  {
    CoreStarts(s.core);
    CoreReads(s.core);
  }

  lemma TailOf(s: Spelling)
    requires s.WellFormed()
    ensures '+' !in s.Tail()
  {
    JoinFree(s.ids, '.', '+');
  }

  lemma CutsBuild(s: Spelling)
    requires s.WellFormed()
    ensures Before(NormalizeVersion(s.Text()), '+') == s.Core() + s.Tail()
    ensures BuildMetadata(s.Text()) == if s.build.Some? then s.build.value else ""
  {
    hide Spelling.Core, Spelling.Tail, Spelling.WellFormed, NormalizeVersion, IndexOf;
    Normalizes(s);
    TailOf(s);
    assert s.core != [] by { CoreNotEmpty(s); }
    CoreOf(s);
    var front := s.Core() + s.Tail();
    match s.build
    case None =>
      assert front + "" == front;
      Cut(front, '+', "");
    case Some(b) =>
      assert front + ("+" + b) == front + ['+'] + b;
      Cut(front, '+', b);
  }

  lemma CoreNotEmpty(s: Spelling)
    requires s.WellFormed()
    ensures s.core != []
  {
  }

  lemma CutsTail(s: Spelling)
    requires s.WellFormed()
    ensures Before(s.Core() + s.Tail(), '-') == s.Core() && After(s.Core() + s.Tail(), '-') == Join(s.ids, '.')
  {
    hide Spelling.Core, Spelling.WellFormed, Join, IndexOf;
    assert s.core != [] by { CoreNotEmpty(s); }
    CoreOf(s);
    if s.ids == [] {
      assert s.Core() + "" == s.Core() && Join(s.ids, '.') == "" by { NothingJoined(); }
      Cut(s.Core(), '-', "");
    } else {
      assert s.Core() + ("-" + Join(s.ids, '.')) == s.Core() + ['-'] + Join(s.ids, '.');
      Cut(s.Core(), '-', Join(s.ids, '.'));
    }
  }

  lemma NothingJoined()
    ensures Join([], '.') == ""
  {
  }

  /**
   Every well-formed text is read as a version: its numbers, with missing ones as zero, its
   prerelease and its build metadata, whatever the prefix and the surrounding space.
   */
  lemma ReadsText(s: Spelling)
    requires s.WellFormed()
    ensures SplitSemver(s.Text()) == Some(Parsed(s.At(0), s.At(1), s.At(2), Join(s.ids, '.')))
    ensures BuildMetadata(s.Text()) == if s.build.Some? then s.build.value else ""
  {
    hide Spelling.Core, Spelling.Tail, Spelling.Text, NormalizeVersion, Before, After, Split, Join, Atoi, BuildMetadata;
    CutsBuild(s);
    CutsTail(s);
    CoreOf(s);
    forall i | 0 <= i < |s.core|
      ensures Atoi(CoreTexts(s.core)[i]) == Some(s.core[i].n)
    {
      NumberReads(s.core[i]);
    }
  }

  // ---------- Which texts are versions ----------

  lemma {:induction false} SplitFree(s: string, c: char, d: char)
    requires d !in s
    ensures Free(Split(s, c), d)
  {
    var i := IndexOf(s, c);
    if i >= 0 {
      SplitFree(s[i + 1..], c, d);
    }
  }

  lemma Cuts(s: string, c: char)
    ensures c !in Before(s, c)
    ensures s == Before(s, c) + if c in s then [c] + After(s, c) else ""
  {
  }

  // The parts of a core, read as numbers, are spelled numbers.
  lemma {:induction false} PartsSpell(parts: seq<string>) returns (core: seq<Number>)
    requires Free(parts, '+') && Free(parts, '-')
    requires forall i :: 0 <= i < |parts| ==> Atoi(parts[i]).Some?
    ensures CoreTexts(core) == parts && forall i :: 0 <= i < |core| ==> core[i].n <= MAX_INT
  {
    hide Number.Text;
    core := [];
    if parts != [] {
      var n := |parts| - 1;
      core := PartsSpell(parts[..n]);
      assert parts[n] != "" ==> parts[n][0] in parts[n];
      var x := DigitsSpell(parts[n]);
      assert CoreTexts(core + [x]) == CoreTexts(core) + [x.Text()];
      core := core + [x];
    }
  }

  lemma PartsRead(v: string)
    requires Valid(v)
    ensures var parts := Split(Before(Before(NormalizeVersion(v), '+'), '-'), '.');
            1 <= |parts| <= 3 && forall i :: 0 <= i < |parts| ==> Atoi(parts[i]).Some?
  {
    hide NormalizeVersion, Before, After, Split, Atoi;
    var parts := Split(Before(Before(NormalizeVersion(v), '+'), '-'), '.');
    assert CorePart(parts, 0).Some? && CorePart(parts, 1).Some? && CorePart(parts, 2).Some?;
  }

  // A normalized version is a core, a tail and metadata.
  lemma NormalizedSpells(v: string) returns (s: Spelling)
    requires Valid(v)
    ensures s.left == s.right == "" && !s.prefixed && NormalizeVersion(v) == s.Core() + s.Tail() + s.Metadata()
    ensures 1 <= |s.core| <= 3 && (forall i :: 0 <= i < |s.core| ==> s.core[i].n <= MAX_INT)
    ensures forall i :: 0 <= i < |s.ids| ==> '.' !in s.ids[i] && '+' !in s.ids[i]
  {
    hide NormalizeVersion, Before, After, Split, Atoi, SplitSemver, Join, Number.Text;
    var n := NormalizeVersion(v);
    var noBuild := Before(n, '+');
    var core, pre := Before(noBuild, '-'), After(noBuild, '-');
    PartsRead(v);
    Cuts(n, '+');
    Cuts(noBuild, '-');
    SplitFree(core, '.', '+');
    SplitFree(core, '.', '-');
    var numbers := PartsSpell(Split(core, '.'));
    JoinSplit(core, '.');
    if '-' in noBuild {
      SplitFree(pre, '.', '+');
      JoinSplit(pre, '.');
    }
    s := Spelling("", false, numbers, if '-' in noBuild then Split(pre, '.') else [],
                  if '+' in n then Some(After(n, '+')) else None, "");
  }

  lemma SpellingOf(v: string) returns (s: Spelling)
    requires Valid(v)
    ensures s.WellFormed() && s.Text() == v
  {
    hide TrimLeft, TrimRight, SplitSemver, Spelling.Core, Spelling.Tail, Spelling.Metadata, IsSpace;
    var left := TrimmedLeft(v);
    var right := TrimmedRight(TrimLeft(v));
    var t := TrimRight(TrimLeft(v));
    var n := NormalizedSpells(v);
    s := n.(left := left, right := right, prefixed := t != "" && t[0] == 'v');
    assert s.Core() == n.Core() && s.Tail() == n.Tail() && s.Metadata() == n.Metadata() by { SameParts(s, n); }
    CoreOf(n);
    assert s.Body() == t;
  }

  lemma SameParts(s: Spelling, n: Spelling)
    requires s.core == n.core && s.ids == n.ids && s.build == n.build
    ensures s.Core() == n.Core() && s.Tail() == n.Tail() && s.Metadata() == n.Metadata()
  {
  }

  /**
   The versions are exactly the well-formed texts.
   */
  lemma ValidIff(v: string)
    ensures Valid(v) <==> exists s: Spelling :: s.WellFormed() && s.Text() == v
  {
    hide Spelling.WellFormed, Spelling.Text, SplitSemver;
    if Valid(v) {
      var s := SpellingOf(v);
    }
    forall s: Spelling | s.WellFormed() && s.Text() == v
      ensures Valid(v)
    {
      ReadsText(s);
    }
  }

  // ---------- Section 11 of Semantic Versioning 2.0.0 ----------

  predicate CorePrecedes(l: Spelling, r: Spelling)
  {
    || l.At(0) < r.At(0)
    || (l.At(0) == r.At(0) && l.At(1) < r.At(1))
    || (l.At(0) == r.At(0) && l.At(1) == r.At(1) && l.At(2) < r.At(2))
  }

  predicate SameNumbers(l: Spelling, r: Spelling)
  {
    l.At(0) == r.At(0) && l.At(1) == r.At(1) && l.At(2) == r.At(2)
  }

  ghost predicate Precedes(l: Spelling, r: Spelling)
  {
    || CorePrecedes(l, r)
    || (SameNumbers(l, r) && !l.Released() && (r.Released() || exists k: nat :: PrecedesAt(l.ids, r.ids, k)))
  }

  lemma {:induction false} ReleasedIff(ids: seq<string>)
    ensures Join(ids, '.') == "" <==> ids == [] || ids == [""]
  {
  }

  lemma PrereleaseFollows(l: Spelling, r: Spelling)
    requires Free(l.ids, '.') && Free(r.ids, '.')
    ensures ConformingIds(l.ids) && ConformingIds(r.ids) ==>
              (ComparePrerelease(Join(l.ids, '.'), Join(r.ids, '.')) < 0 <==>
                 !l.Released() && (r.Released() || exists k: nat :: PrecedesAt(l.ids, r.ids, k)))
  {
    hide Join, CompareIdentifiers, PrecedesAt, Conforms, Split;
    ReleasedIff(l.ids);
    ReleasedIff(r.ids);
    if ConformingIds(l.ids) && ConformingIds(r.ids) && !l.Released() && !r.Released() {
      SplitJoin(l.ids, '.');
      SplitJoin(r.ids, '.');
      IdentifiersFollowSpec(l.ids, r.ids);
      IdentifiersReflexive(l.ids);
    }
  }

  lemma PrereleaseSwaps(l: Spelling, r: Spelling)
    requires Free(l.ids, '.') && Free(r.ids, '.')
    ensures ConformingIds(l.ids) && ConformingIds(r.ids) ==>
              var a, b := Join(l.ids, '.'), Join(r.ids, '.'); SameSign(ComparePrerelease(a, b), -ComparePrerelease(b, a))
  {
    hide Join, CompareIdentifiers, Split, Conforms;
    ReleasedIff(l.ids);
    ReleasedIff(r.ids);
    if ConformingIds(l.ids) && ConformingIds(r.ids) && !l.Released() && !r.Released() {
      SplitJoin(l.ids, '.');
      SplitJoin(r.ids, '.');
      ConformingInWindow(l.ids);
      ConformingInWindow(r.ids);
      IdentifiersAntisymmetric(l.ids, r.ids, 0);
    }
  }

  lemma IdsFree(s: Spelling)
    requires s.WellFormed()
    ensures Free(s.ids, '.')
  {
  }

  lemma ConformingInWindow(ids: seq<string>)
    requires ConformingIds(ids)
    ensures IdsInWindow(ids, 0)
  {
    forall i | 0 <= i < |ids|
      ensures InWindow(ids[i], 0)
    {
      ReadsIdentifierIff(ids[i]);
    }
  }

  /**
   Two texts compare by their numbers, and with the same numbers by section 11 if their
   identifiers are read as the standard does.
   */
  lemma FollowsSection11(l: Spelling, r: Spelling)
    ensures l.WellFormed() && r.WellFormed() ==>
              && CompareSemver(l.Text(), r.Text()).Some?
              && var c := CompareSemver(l.Text(), r.Text()).value;
                 && (!SameNumbers(l, r) ==> (c < 0 <==> CorePrecedes(l, r)) && (c > 0 <==> CorePrecedes(r, l)))
                 && (ConformingIds(l.ids) && ConformingIds(r.ids) ==> (c < 0 <==> Precedes(l, r)) && (c > 0 <==> Precedes(r, l)))
  {
    hide SplitSemver, Spelling.Text, Spelling.WellFormed, ComparePrerelease, Join, PrecedesAt, Spelling.Released, ConformingIds;
    if l.WellFormed() && r.WellFormed() {
      ReadsText(l);
      ReadsText(r);
      IdsFree(l);
      IdsFree(r);
      PrereleaseFollows(l, r);
      PrereleaseFollows(r, l);
      PrereleaseSwaps(l, r);
    }
  }

  // The version of three numbers, with nothing else.
  function Plain(a: nat, b: nat, c: nat): Spelling
  {
    Spelling("", false, [Number(0, a), Number(0, b), Number(0, c)], [], None, "")
  }

  lemma ThreeJoined(a: string, b: string, c: string)
    ensures Join([a, b, c], '.') == a + "." + b + "." + c
  {
    assert [a, b, c][1..] == [b, c] && [b, c][1..] == [c];
    assert Join([b, c], '.') == b + "." + c;
    assert a + "." + (b + "." + c) == a + "." + b + "." + c;
  }

  function Dotted(a: nat, b: nat, c: nat): string
  {
    Decimal(a) + "." + Decimal(b) + "." + Decimal(c)
  }

  lemma PlainText(a: nat, b: nat, c: nat)
    ensures Plain(a, b, c).Body() == Plain(a, b, c).Text() == Dotted(a, b, c)
  {
    hide Decimal, Join;
    var s := Plain(a, b, c);
    assert s.core[0].Text() == Decimal(a) && s.core[1].Text() == Decimal(b) && s.core[2].Text() == Decimal(c) by {
      assert Zeros(0) == "";
      assert "" + Decimal(a) == Decimal(a) && "" + Decimal(b) == Decimal(b) && "" + Decimal(c) == Decimal(c);
    }
    assert CoreTexts(s.core) == [Decimal(a), Decimal(b), Decimal(c)];
    ThreeJoined(Decimal(a), Decimal(b), Decimal(c));
    var core := s.Core();
    assert "" + core + "" + "" == core && "" + core + "" == core;
  }

  lemma LastDigit(s: string)
    requires AllDigits(s)
    ensures !IsSpace(s[|s| - 1])
  {
  }

  lemma PlainReads(a: nat, b: nat, c: nat)
    requires a <= MAX_INT && b <= MAX_INT && c <= MAX_INT
    ensures SplitSemver(Dotted(a, b, c)) == Some(Parsed(a, b, c, ""))
  {
    hide Decimal, SplitSemver, Spelling.Body, Spelling.Text, IsSpace;
    var s := Plain(a, b, c);
    PlainText(a, b, c);
    LastDigit(Decimal(c));
    assert Dotted(a, b, c)[|Dotted(a, b, c)| - 1] == Decimal(c)[|Decimal(c)| - 1];
    assert s.WellFormed();
    ReadsText(s);
    NothingJoined();
  }

  /**
   Versions of three numbers compare as their numbers do, the first one first.
   */
  lemma PlainVersionsCompare(a: nat, b: nat, c: nat, x: nat, y: nat, z: nat)
    requires a <= MAX_INT && b <= MAX_INT && c <= MAX_INT && x <= MAX_INT && y <= MAX_INT && z <= MAX_INT
    ensures var l, r := Dotted(a, b, c), Dotted(x, y, z);
            && Valid(l) && Valid(r)
            && (Cmp(l, r) < 0 <==> a < x || (a == x && (b < y || (b == y && c < z))))
            && (Cmp(l, r) == 0 <==> a == x && b == y && c == z)
  {
    hide SplitSemver, Dotted;
    PlainReads(a, b, c);
    PlainReads(x, y, z);
  }
}
