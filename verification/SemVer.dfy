/**
 Semantic version comparison of the vulnerability feed matcher: parsing, the precedence of
 identifiers and versions, and its relation to section 11 of Semantic Versioning 2.0.0.
 */
module SemVer {
  import opened Options

  const MAX_INT := 0x7fff_ffff_ffff_ffff
  const MIN_INT := -0x8000_0000_0000_0000

  // ---------- Strings ----------

  function IndexOf(s: string, c: char): (i: int)
    ensures -1 <= i < |s|
    ensures i >= 0 ==> s[i] == c && c !in s[..i]
    ensures i < 0 ==> c !in s
  {
    if s == "" then -1
    else if s[0] == c then 0
    else
      var i := IndexOf(s[1..], c);
      if i < 0 then -1 else assert s[..i + 1] == [s[0]] + s[1..][..i]; i + 1
  }

  function Before(s: string, c: char): string
  {
    if IndexOf(s, c) < 0 then s else s[..IndexOf(s, c)]
  }

  function After(s: string, c: char): string
  {
    if IndexOf(s, c) < 0 then "" else s[IndexOf(s, c) + 1..]
  }

  function Split(s: string, c: char): (parts: seq<string>)
    ensures |parts| >= 1
  {
    var i := IndexOf(s, c);
    if i < 0 then [s] else [s[..i]] + Split(s[i + 1..], c)
  }

  // unicode.IsSpace
  predicate IsSpace(c: char)
  {
    || '\t' <= c <= '\r' || c == ' ' || c == '\U{85}' || c == '\U{A0}' || c == '\U{1680}'
    || '\U{2000}' <= c <= '\U{200A}' || c == '\U{2028}' || c == '\U{2029}' || c == '\U{202F}'
    || c == '\U{205F}' || c == '\U{3000}'
  }

  function TrimLeft(s: string): string
  {
    if s != "" && IsSpace(s[0]) then TrimLeft(s[1..]) else s
  }

  function TrimRight(s: string): string
  {
    if s != "" && IsSpace(s[|s| - 1]) then TrimRight(s[..|s| - 1]) else s
  }

  function CompareStrings(a: string, b: string): (r: int)
    ensures r == 0 <==> a == b
  {
    if a == "" then (if b == "" then 0 else -1)
    else if b == "" then 1
    else if a[0] < b[0] then -1
    else if a[0] > b[0] then 1
    else
      assert a == [a[0]] + a[1..] && b == [b[0]] + b[1..];
      CompareStrings(a[1..], b[1..])
  }

  // ---------- Numbers ----------

  predicate AllDigits(s: string)
  {
    s != "" && forall i :: 0 <= i < |s| ==> '0' <= s[i] <= '9'
  }

  function Value(s: string): (n: nat)
    requires AllDigits(s)
  {
    (if |s| == 1 then 0 else Value(s[..|s| - 1]) * 10) + (s[|s| - 1] - '0') as nat
  }

  // strconv.Atoi: an optional sign and digits, within the range of a 64 bit int.
  function Atoi(s: string): (r: Option<int>)
  {
    var signed := s != "" && (s[0] == '+' || s[0] == '-');
    var digits := if signed then s[1..] else s;
    if !AllDigits(digits) then None
    else
      var n: int := Value(digits);
      var v := if signed && s[0] == '-' then -n else n;
      if MIN_INT <= v <= MAX_INT then Some(v) else None
  }

  // Subtraction of 64 bit ints wraps around.
  function Sub64(a: int, b: int): (r: int)
    requires MIN_INT <= a <= MAX_INT && MIN_INT <= b <= MAX_INT
  {
    var d := a - b;
    if d > MAX_INT then d - 0x1_0000_0000_0000_0000 else if d < MIN_INT then d + 0x1_0000_0000_0000_0000 else d
  }

  // ---------- Parsing ----------

  function NormalizeVersion(version: string): string
  {
    var trimmed := TrimRight(TrimLeft(version));
    if trimmed != "" && trimmed[0] == 'v' then trimmed[1..] else trimmed
  }

  datatype Parsed = Parsed(major: nat, minor: nat, patch: nat, pre: string)

  function CorePart(parts: seq<string>, i: nat): Option<nat>
  {
    if i >= |parts| then Some(0)
    else match Atoi(parts[i])
      case Some(n) => if n < 0 then None else Some(n)
      case None => None
  }

  function SplitSemver(version: string): Option<Parsed>
  {
    var noBuild := Before(NormalizeVersion(version), '+');
    var parts := Split(Before(noBuild, '-'), '.');
    if |parts| > 3 then None
    else match (CorePart(parts, 0), CorePart(parts, 1), CorePart(parts, 2))
      case (Some(a), Some(b), Some(c)) => Some(Parsed(a, b, c, After(noBuild, '-')))
      case _ => None
  }

  predicate Valid(version: string)
  {
    SplitSemver(version).Some?
  }

  function BuildMetadata(version: string): string
  {
    After(NormalizeVersion(version), '+')
  }

  // ---------- Comparison ----------

  function CompareIdentifier(l: string, r: string): int
  {
    match (Atoi(l), Atoi(r))
    case (Some(a), Some(b)) => Sub64(a, b)
    case (Some(_), None) => -1
    case (None, Some(_)) => 1
    case (None, None) => CompareStrings(l, r)
  }

  function CompareIdentifiers(l: seq<string>, r: seq<string>): int
  {
    if l == [] then (if r == [] then 0 else -1)
    else if r == [] then 1
    else
      var c := CompareIdentifier(l[0], r[0]);
      if c != 0 then c else CompareIdentifiers(l[1..], r[1..])
  }

  function ComparePrerelease(l: string, r: string): int
  {
    if l == r then 0
    else if l == "" then 1
    else if r == "" then -1
    else CompareIdentifiers(Split(l, '.'), Split(r, '.'))
  }

  function CompareParsed(l: Parsed, r: Parsed): int
  {
    if l.major != r.major then (if l.major < r.major then -1 else 1)
    else if l.minor != r.minor then (if l.minor < r.minor then -1 else 1)
    else if l.patch != r.patch then (if l.patch < r.patch then -1 else 1)
    else ComparePrerelease(l.pre, r.pre)
  }

  function CompareSemver(l: string, r: string): Option<int>
  {
    match (SplitSemver(l), SplitSemver(r))
    case (Some(a), Some(b)) => Some(CompareParsed(a, b))
    case _ => None
  }

  // ---------- The order ----------

  predicate SameSign(a: int, b: int)
  {
    (a < 0 <==> b < 0) && (a > 0 <==> b > 0)
  }

  /**
   The subtraction of two numeric identifiers has the sign of their comparison exactly when the
   difference is in the range of an int.
   */
  lemma SubtractionComparesIff(a: int, b: int)
    requires MIN_INT <= a <= MAX_INT && MIN_INT <= b <= MAX_INT
    ensures SameSign(Sub64(a, b), a - b) <==> MIN_INT <= a - b <= MAX_INT
  {
  }

  /**
   Swapping the operands swaps the sign exactly when they are not 2^63 apart.
   */
  lemma SubtractionAntisymmetricIff(a: int, b: int)
    requires MIN_INT <= a <= MAX_INT && MIN_INT <= b <= MAX_INT
    ensures SameSign(Sub64(a, b), -Sub64(b, a)) <==> a - b != MIN_INT && b - a != MIN_INT
  {
  }

  /**
   Two steps up make one exactly when their lengths together fit an int, or amount to 2^64.
   */
  lemma SubtractionTransitiveIff(a: int, b: int, c: int)
    requires MIN_INT <= a <= MAX_INT && MIN_INT <= b <= MAX_INT && MIN_INT <= c <= MAX_INT
    requires Sub64(a, b) <= 0 && Sub64(b, c) <= 0
    ensures Sub64(a, c) <= 0 <==> Sub64(a, b) + Sub64(b, c) >= MIN_INT || Sub64(a, b) + Sub64(b, c) == 2 * MIN_INT
    ensures Sub64(a, c) == 0 <==> Sub64(a, b) + Sub64(b, c) == 0 || Sub64(a, b) + Sub64(b, c) == 2 * MIN_INT
  {
  }

  // A numeric identifier in the window of 2^63 values from base on, where no two differ by more
  // than an int holds. The window from zero on holds all unsigned numbers.
  predicate InWindow(id: string, base: int)
  {
    Atoi(id).Some? ==> base <= Atoi(id).value <= base + MAX_INT
  }

  predicate IdsInWindow(ids: seq<string>, base: int)
  {
    forall i :: 0 <= i < |ids| ==> InWindow(ids[i], base)
  }

  // The versions whose numeric identifiers are all in the window.
  predicate ComparableIn(version: string, base: int)
  {
    Valid(version) && IdsInWindow(Split(SplitSemver(version).value.pre, '.'), base)
  }

  lemma {:induction false} StringsAntisymmetric(a: string, b: string)
    ensures CompareStrings(a, b) == -CompareStrings(b, a)
  {
    if a != "" && b != "" {
      StringsAntisymmetric(a[1..], b[1..]);
    }
  }

  lemma {:induction false} StringsTransitive(a: string, b: string, c: string)
    requires CompareStrings(a, b) <= 0 && CompareStrings(b, c) <= 0
    ensures CompareStrings(a, c) <= 0
  {
    if a != "" && b != "" && c != "" {
      if a[0] == b[0] == c[0] {
        StringsTransitive(a[1..], b[1..], c[1..]);
      }
    }
  }

  lemma IdentifierAntisymmetric(l: string, r: string, base: int)
    requires InWindow(l, base) && InWindow(r, base)
    ensures SameSign(CompareIdentifier(l, r), -CompareIdentifier(r, l))
  {
    StringsAntisymmetric(l, r);
  }

  lemma IdentifierTransitive(a: string, b: string, c: string, base: int)
    requires InWindow(a, base) && InWindow(b, base) && InWindow(c, base)
    requires CompareIdentifier(a, b) <= 0 && CompareIdentifier(b, c) <= 0
    ensures CompareIdentifier(a, c) <= 0
    ensures CompareIdentifier(a, c) == 0 <==> CompareIdentifier(a, b) == 0 && CompareIdentifier(b, c) == 0
  {
    if Atoi(a).None? && Atoi(b).None? && Atoi(c).None? {
      StringsTransitive(a, b, c);
      StringsAntisymmetric(a, b);
      StringsAntisymmetric(b, c);
      if a == c {
        StringsTransitive(b, c, b);
      }
    }
  }

  lemma {:induction false} IdentifiersAntisymmetric(l: seq<string>, r: seq<string>, base: int)
    requires IdsInWindow(l, base) && IdsInWindow(r, base)
    ensures SameSign(CompareIdentifiers(l, r), -CompareIdentifiers(r, l))
  {
    if l != [] && r != [] {
      IdentifierAntisymmetric(l[0], r[0], base);
      IdentifiersAntisymmetric(l[1..], r[1..], base);
    }
  }

  lemma {:induction false} IdentifiersReflexive(ids: seq<string>)
    ensures CompareIdentifiers(ids, ids) == 0
  {
    if ids != [] {
      IdentifiersReflexive(ids[1..]);
    }
  }

  lemma {:induction false} IdentifiersTransitive(a: seq<string>, b: seq<string>, c: seq<string>, base: int)
    requires IdsInWindow(a, base) && IdsInWindow(b, base) && IdsInWindow(c, base)
    requires CompareIdentifiers(a, b) <= 0 && CompareIdentifiers(b, c) <= 0
    ensures CompareIdentifiers(a, c) <= 0
  {
    if a != [] && b != [] && c != [] {
      IdentifierTransitive(a[0], b[0], c[0], base);
      if CompareIdentifier(a[0], b[0]) == 0 && CompareIdentifier(b[0], c[0]) == 0 {
        IdentifiersTransitive(a[1..], b[1..], c[1..], base);
      }
    }
  }

  lemma PrereleaseAntisymmetric(l: string, r: string, base: int)
    requires IdsInWindow(Split(l, '.'), base) && IdsInWindow(Split(r, '.'), base)
    ensures SameSign(ComparePrerelease(l, r), -ComparePrerelease(r, l))
  {
    IdentifiersAntisymmetric(Split(l, '.'), Split(r, '.'), base);
  }

  lemma PrereleaseTransitive(a: string, b: string, c: string, base: int)
    requires IdsInWindow(Split(a, '.'), base) && IdsInWindow(Split(b, '.'), base) && IdsInWindow(Split(c, '.'), base)
    requires ComparePrerelease(a, b) <= 0 && ComparePrerelease(b, c) <= 0
    ensures ComparePrerelease(a, c) <= 0
  {
    if a != b && b != c && a != "" && b != "" && c != "" {
      IdentifiersTransitive(Split(a, '.'), Split(b, '.'), Split(c, '.'), base);
    }
  }

  function Cmp(l: string, r: string): int
    requires Valid(l) && Valid(r)
  {
    CompareParsed(SplitSemver(l).value, SplitSemver(r).value)
  }

  /**
   The comparison is a total preorder on all versions whose numeric identifiers are in one window:
   reflexive, antisymmetric in sign (hence total), and transitive.
   */
  lemma CompareReflexive(v: string)
    requires Valid(v)
    ensures CompareSemver(v, v) == Some(0)
  {
  }

  lemma CompareAntisymmetric(l: string, r: string, base: int)
    requires ComparableIn(l, base) && ComparableIn(r, base)
    ensures SameSign(Cmp(l, r), -Cmp(r, l))
  {
    PrereleaseAntisymmetric(SplitSemver(l).value.pre, SplitSemver(r).value.pre, base);
  }

  lemma ParsedTransitive(a: Parsed, b: Parsed, c: Parsed, base: int)
    requires IdsInWindow(Split(a.pre, '.'), base) && IdsInWindow(Split(b.pre, '.'), base) && IdsInWindow(Split(c.pre, '.'), base)
    requires CompareParsed(a, b) <= 0 && CompareParsed(b, c) <= 0
    ensures CompareParsed(a, c) <= 0
  {
    if (a.major, a.minor, a.patch) == (b.major, b.minor, b.patch) == (c.major, c.minor, c.patch) {
      PrereleaseTransitive(a.pre, b.pre, c.pre, base);
    }
  }

  lemma CompareTransitive(a: string, b: string, c: string, base: int)
    requires ComparableIn(a, base) && ComparableIn(b, base) && ComparableIn(c, base)
    requires Cmp(a, b) <= 0 && Cmp(b, c) <= 0
    ensures Cmp(a, c) <= 0
  {
    ParsedTransitive(SplitSemver(a).value, SplitSemver(b).value, SplitSemver(c).value, base);
  }

  // ---------- When exactly the comparison is an order ----------

  // Two numbers that are 2^63 apart.
  predicate Opposite(l: string, r: string)
  {
    Atoi(l).Some? && Atoi(r).Some? &&
    (Atoi(l).value - Atoi(r).value == MIN_INT || Atoi(r).value - Atoi(l).value == MIN_INT)
  }

  // The first identifiers that differ are opposite.
  predicate FirstOpposite(l: seq<string>, r: seq<string>)
  {
    l != [] && r != [] &&
    if CompareIdentifier(l[0], r[0]) != 0 then Opposite(l[0], r[0]) else FirstOpposite(l[1..], r[1..])
  }

  // How far apart three numbers are that ascend by the comparison, as a sum of differences.
  function Span(a: string, b: string, c: string): int
  {
    match (Atoi(a), Atoi(b), Atoi(c))
    case (Some(x), Some(y), Some(z)) => Sub64(x, y) + Sub64(y, z)
    case _ => 0
  }

  // Three lists that ascend by the comparison but whose last one is before the first: where the
  // first identifiers differ the span exceeds an int, or is 2^64, which leads back to the same
  // number, and the rests descend.
  predicate WrapsAround(a: seq<string>, b: seq<string>, c: seq<string>)
  {
    a != [] && b != [] && c != [] &&
    if CompareIdentifier(a[0], b[0]) == 0 && CompareIdentifier(b[0], c[0]) == 0 then WrapsAround(a[1..], b[1..], c[1..])
    else if Span(a[0], b[0], c[0]) == 2 * MIN_INT then CompareIdentifiers(a[1..], c[1..]) > 0
    else Span(a[0], b[0], c[0]) < MIN_INT
  }

  lemma IdentifierAntisymmetricIff(l: string, r: string)
    ensures SameSign(CompareIdentifier(l, r), -CompareIdentifier(r, l)) <==> !Opposite(l, r)
    ensures CompareIdentifier(l, r) == 0 <==> CompareIdentifier(r, l) == 0
  {
    hide Atoi;
    StringsAntisymmetric(l, r);
  }

  lemma {:induction false} IdentifiersAntisymmetricIff(l: seq<string>, r: seq<string>)
    ensures SameSign(CompareIdentifiers(l, r), -CompareIdentifiers(r, l)) <==> !FirstOpposite(l, r)
  {
    hide CompareIdentifier, Opposite;
    if l != [] && r != [] {
      IdentifierAntisymmetricIff(l[0], r[0]);
      IdentifiersAntisymmetricIff(l[1..], r[1..]);
    }
  }

  lemma PrereleaseAntisymmetricIff(l: string, r: string)
    ensures SameSign(ComparePrerelease(l, r), -ComparePrerelease(r, l)) <==> !FirstOpposite(Split(l, '.'), Split(r, '.'))
  {
    hide Atoi, CompareIdentifiers;
    IdentifiersAntisymmetricIff(Split(l, '.'), Split(r, '.'));
    if l == r {
      IdentifiersReflexive(Split(l, '.'));
    } else if l == "" || r == "" {
      EmptyIdentifier();
    }
  }

  lemma EmptyIdentifier()
    ensures Split("", '.') == [""] && Atoi("") == None
  {
  }

  predicate SameCore(l: string, r: string)
    requires Valid(l) && Valid(r)
  {
    var (p, q) := (SplitSemver(l).value, SplitSemver(r).value);
    p.major == q.major && p.minor == q.minor && p.patch == q.patch
  }

  function Identifiers(v: string): seq<string>
    requires Valid(v)
  {
    Split(SplitSemver(v).value.pre, '.')
  }

  /**
   The comparison of two versions is antisymmetric in sign exactly when they do not share their
   core with first differing identifiers that are 2^63 apart.
   */
  lemma CompareAntisymmetricIff(l: string, r: string)
    requires Valid(l) && Valid(r)
    ensures SameSign(Cmp(l, r), -Cmp(r, l)) <==> !(SameCore(l, r) && FirstOpposite(Identifiers(l), Identifiers(r)))
  {
    hide SplitSemver, Split, FirstOpposite, ComparePrerelease;
    PrereleaseAntisymmetricIff(SplitSemver(l).value.pre, SplitSemver(r).value.pre);
  }

  lemma IdentifierTransitiveIff(a: string, b: string, c: string)
    requires CompareIdentifier(a, b) <= 0 && CompareIdentifier(b, c) <= 0
    ensures CompareIdentifier(a, c) <= 0 <==> Span(a, b, c) >= MIN_INT || Span(a, b, c) == 2 * MIN_INT
    ensures CompareIdentifier(a, c) == 0 <==>
              (CompareIdentifier(a, b) == 0 && CompareIdentifier(b, c) == 0) || Span(a, b, c) == 2 * MIN_INT
  {
    if Atoi(a).None? && Atoi(b).None? && Atoi(c).None? {
      IdentifierTransitive(a, b, c, 0);
    }
  }

  lemma {:induction false} IdentifiersTransitiveIff(a: seq<string>, b: seq<string>, c: seq<string>)
    requires CompareIdentifiers(a, b) <= 0 && CompareIdentifiers(b, c) <= 0
    ensures CompareIdentifiers(a, c) <= 0 <==> !WrapsAround(a, b, c)
  {
    hide CompareIdentifier, Span;
    if a != [] && b != [] && c != [] {
      IdentifierTransitiveIff(a[0], b[0], c[0]);
      if CompareIdentifier(a[0], b[0]) == 0 && CompareIdentifier(b[0], c[0]) == 0 {
        IdentifiersTransitiveIff(a[1..], b[1..], c[1..]);
      }
    }
  }

  lemma PrereleaseTransitiveIff(a: string, b: string, c: string)
    requires ComparePrerelease(a, b) <= 0 && ComparePrerelease(b, c) <= 0
    ensures ComparePrerelease(a, c) <= 0 <==> !WrapsAround(Split(a, '.'), Split(b, '.'), Split(c, '.'))
  {
    hide Atoi, CompareIdentifiers, CompareIdentifier, Split;
    EmptyIdentifier();
    if a == "" || b == "" || c == "" {
      EmptyNeverWraps(Split(a, '.'), Split(b, '.'), Split(c, '.'));
    } else {
      IdentifiersReflexive(Split(a, '.'));
      IdentifiersReflexive(Split(b, '.'));
      IdentifiersReflexive(Split(c, '.'));
      IdentifiersTransitiveIff(Split(a, '.'), Split(b, '.'), Split(c, '.'));
    }
  }

  lemma EmptyNeverWraps(a: seq<string>, b: seq<string>, c: seq<string>)
    requires a == [""] || b == [""] || c == [""]
    ensures !WrapsAround(a, b, c)
  {
    hide CompareIdentifiers, CompareIdentifier;
    EmptyIdentifier();
  }

  /**
   Two steps up make one, for versions, exactly when the three do not share their core with
   identifiers that wrap around.
   */
  lemma CompareTransitiveIff(a: string, b: string, c: string)
    requires Valid(a) && Valid(b) && Valid(c)
    ensures Cmp(a, b) <= 0 && Cmp(b, c) <= 0 ==>
              (Cmp(a, c) <= 0 <==>
                 !(SameCore(a, b) && SameCore(b, c) && WrapsAround(Identifiers(a), Identifiers(b), Identifiers(c))))
  {
    hide SplitSemver, Split, WrapsAround, ComparePrerelease;
    if Cmp(a, b) <= 0 && Cmp(b, c) <= 0 && SameCore(a, b) && SameCore(b, c) {
      PrereleaseTransitiveIff(SplitSemver(a).value.pre, SplitSemver(b).value.pre, SplitSemver(c).value.pre);
    }
  }

  function Decimal(n: nat): (s: string)
    ensures AllDigits(s) && Value(s) == n
  {
    var digit := '0' + (n % 10) as char;
    if n < 10 then [digit]
    else
      var s := Decimal(n / 10) + [digit];
      assert s[..|s| - 1] == Decimal(n / 10);
      s
  }

  // The decimal spelling of an int.
  function Spelled(n: int): (s: string)
    requires MIN_INT <= n <= MAX_INT
    ensures Atoi(s) == Some(n)
    ensures s != "" && forall i :: 0 <= i < |s| ==> s[i] == '-' || '0' <= s[i] <= '9'
  {
    if n < 0 then
      var s := "-" + Decimal(-n);
      assert s[1..] == Decimal(-n);
      s
    else Decimal(n)
  }

  // The version 0.0.0 with a number as its prerelease.
  function Numbered(n: int): (s: string)
    requires MIN_INT <= n <= MAX_INT
  {
    "0.0.0-" + Spelled(n)
  }

  lemma IndexOfFirst(s: string, c: char, i: nat)
    requires i < |s| && s[i] == c && c !in s[..i]
    ensures IndexOf(s, c) == i
  {
  }

  lemma Cut(s: string, c: char, t: string)
    requires c !in s
    ensures Before(s + [c] + t, c) == s && After(s + [c] + t, c) == t
    ensures Before(s, c) == s && Split(s, c) == [s]
  {
    hide IndexOf;
    var whole := s + [c] + t;
    assert whole[..|s|] == s && whole[|s| + 1..] == t;
    IndexOfFirst(whole, c, |s|);
  }

  lemma NumberedParses(n: int)
    requires MIN_INT <= n <= MAX_INT
    ensures SplitSemver(Numbered(n)) == Some(Parsed(0, 0, 0, Spelled(n)))
    ensures Split(Spelled(n), '.') == [Spelled(n)]
  {
    hide Atoi, Spelled, Before, After, Split, IndexOf, TrimLeft, TrimRight;
    var id, v := Spelled(n), Numbered(n);
    assert v == "0.0.0" + ['-'] + id;
    assert v[0] == '0' && v[|v| - 1] == id[|id| - 1] && '+' !in v;
    NothingToTrim(v);
    Cut(v, '+', "");
    Cut("0.0.0", '-', id);
    Cut(id, '.', "");
    CoreZero();
  }

  lemma NothingToTrim(v: string)
    requires v != "" && !IsSpace(v[0]) && !IsSpace(v[|v| - 1])
    ensures TrimLeft(v) == v && TrimRight(v) == v
  {
  }

  lemma CoreZero()
    ensures Split("0.0.0", '.') == ["0", "0", "0"] && Atoi("0") == Some(0)
  {
    IndexOfFirst("0.0.0", '.', 1);
    assert "0.0.0"[..1] == "0" && "0.0.0"[2..] == "0.0";
    IndexOfFirst("0.0", '.', 1);
    assert "0.0"[..1] == "0" && "0.0"[2..] == "0";
    assert IndexOf("0", '.') < 0;
    assert AllDigits("0") && Value("0") == 0;
  }

  lemma NumberedCompares(m: int, n: int)
    requires MIN_INT <= m <= MAX_INT && MIN_INT <= n <= MAX_INT
    ensures CompareSemver(Numbered(m), Numbered(n)) == Some(Sub64(m, n))
  {
    hide Atoi, Spelled, SplitSemver, Split, Numbered;
    NumberedParses(m);
    NumberedParses(n);
    var l, r := Spelled(m), Spelled(n);
    assert CompareIdentifier(l, r) == Sub64(m, n);
    assert CompareIdentifiers([l], [r]) == Sub64(m, n) by {
      assert [l][1..] == [] && [r][1..] == [];
    }
    assert l == r ==> m == n;
  }

  /**
   The comparison is neither transitive nor antisymmetric on all versions: the versions
   0.0.0--9223372036854775808, 0.0.0-0 and 0.0.0-1 are each before the next but the first is not
   before the last, and the first two are each before the other.
   */
  lemma SignedVersionsNotOrdered()
    ensures var a, b, c := Numbered(MIN_INT), Numbered(0), Numbered(1);
            && Valid(a) && Valid(b) && Valid(c)
            && Cmp(a, b) < 0 && Cmp(b, c) < 0 && Cmp(a, c) > 0
            && Cmp(b, a) < 0
  {
    hide Numbered, SplitSemver;
    NumberedCompares(MIN_INT, 0);
    NumberedCompares(0, 1);
    NumberedCompares(MIN_INT, 1);
    NumberedCompares(0, MIN_INT);
  }

  // ---------- Section 11 of Semantic Versioning 2.0.0 ----------

  datatype Identifier = Numeric(n: nat) | Alphanumeric(s: string)

  // Identifiers consisting of only digits are numeric.
  function SpecIdentifier(id: string): Identifier
  {
    if AllDigits(id) then Numeric(Value(id)) else Alphanumeric(id)
  }

  // The first characters that differ decide, and a proper prefix comes first.
  ghost predicate StringPrecedes(a: string, b: string)
  {
    exists k: nat :: k <= |a| && k < |b| && a[..k] == b[..k] && (k < |a| ==> a[k] < b[k])
  }

  lemma {:induction false} CompareStringsMeaning(a: string, b: string)
    ensures CompareStrings(a, b) < 0 <==> StringPrecedes(a, b)
  {
    if a == "" {
      assert b != "" ==> a[..0] == b[..0];
    } else if b != "" {
      CompareStringsMeaning(a[1..], b[1..]);
      if a[0] < b[0] {
        assert a[..0] == b[..0];
      } else if a[0] == b[0] {
        if k: nat :| k <= |a[1..]| && k < |b[1..]| && a[1..][..k] == b[1..][..k] && (k < |a[1..]| ==> a[1..][k] < b[1..][k]) {
          assert a[..k + 1] == [a[0]] + a[1..][..k] && b[..k + 1] == [b[0]] + b[1..][..k];
        }
        if k: nat :| k <= |a| && k < |b| && a[..k] == b[..k] && (k < |a| ==> a[k] < b[k]) {
          assert k > 0 && a[1..][..k - 1] == a[..k][1..] && b[1..][..k - 1] == b[..k][1..];
        }
      }
    }
  }

  // Numeric identifiers compare numerically and precede alphanumeric ones, which compare in
  // character order.
  ghost predicate IdentifierPrecedes(l: Identifier, r: Identifier)
  {
    match (l, r)
    case (Numeric(a), Numeric(b)) => a < b
    case (Numeric(_), Alphanumeric(_)) => true
    case (Alphanumeric(_), Numeric(_)) => false
    case (Alphanumeric(a), Alphanumeric(b)) => StringPrecedes(a, b)
  }

  // The first k identifiers are equal, and then l has none left or a preceding one.
  ghost predicate PrecedesAt(l: seq<string>, r: seq<string>, k: nat)
  {
    && k <= |l| && k < |r|
    && (forall i :: 0 <= i < k ==> SpecIdentifier(l[i]) == SpecIdentifier(r[i]))
    && (k < |l| ==> IdentifierPrecedes(SpecIdentifier(l[k]), SpecIdentifier(r[k])))
  }

  // Not a numeric identifier beyond the int range, and not one that only Atoi reads as a number.
  predicate Conforms(id: string)
  {
    (AllDigits(id) ==> Value(id) <= MAX_INT) && (Atoi(id).Some? ==> AllDigits(id))
  }

  // The code reads an identifier as the standard does exactly when it conforms.
  lemma ReadsIdentifierIff(id: string)
    ensures Conforms(id) <==> Atoi(id) == if AllDigits(id) then Some(Value(id)) else None
  {
  }

  predicate ConformingIds(ids: seq<string>)
  {
    forall i :: 0 <= i < |ids| ==> Conforms(ids[i])
  }

  lemma IdentifierFollowsSpec(l: string, r: string)
    requires Conforms(l) && Conforms(r)
    ensures CompareIdentifier(l, r) < 0 <==> IdentifierPrecedes(SpecIdentifier(l), SpecIdentifier(r))
    ensures CompareIdentifier(l, r) == 0 <==> SpecIdentifier(l) == SpecIdentifier(r)
  {
    hide StringPrecedes;
    ReadsIdentifierIff(l);
    ReadsIdentifierIff(r);
    CompareStringsMeaning(l, r);
  }

  lemma {:induction false} IdentifiersFollowSpec(l: seq<string>, r: seq<string>)
    requires ConformingIds(l) && ConformingIds(r)
    ensures CompareIdentifiers(l, r) < 0 <==> exists k: nat :: PrecedesAt(l, r, k)
  {
    hide CompareIdentifier, SpecIdentifier, Conforms, IdentifierPrecedes;
    if r == [] {
    } else if l == [] {
      assert PrecedesAt(l, r, 0);
    } else {
      IdentifierFollowsSpec(l[0], r[0]);
      IdentifiersFollowSpec(l[1..], r[1..]);
      if CompareIdentifier(l[0], r[0]) < 0 {
        assert PrecedesAt(l, r, 0);
      }
      if CompareIdentifiers(l[1..], r[1..]) < 0 && CompareIdentifier(l[0], r[0]) == 0 {
        var k: nat :| PrecedesAt(l[1..], r[1..], k);
        assert PrecedesAt(l, r, k + 1);
      }
      if k: nat :| PrecedesAt(l, r, k) && k > 0 {
        assert SpecIdentifier(l[0]) == SpecIdentifier(r[0]);
        assert PrecedesAt(l[1..], r[1..], k - 1) by {
          assert forall i :: 0 <= i < k - 1 ==> l[1..][i] == l[i + 1] && r[1..][i] == r[i + 1];
        }
      }
    }
  }
}
