/**
 The textual side of the vulnerability feed matcher: OSV events as decoded from a feed, the
 interval builder that writes vers constraints, and the evaluation of a constraint for a package
 version.
 */
module OsvMatch {
  import opened Options
  import opened SemVer
  import opened OsvRange

  // ---------- The order of some versions ----------

  predicate Listed(v: string, versions: set<string>)
  {
    Valid(v) && v in versions
  }

  // The comparison orders the versions: it is antisymmetric in sign and transitive on them.
  ghost predicate Ordered(versions: set<string>)
  {
    && (forall a, b :: Listed(a, versions) && Listed(b, versions) ==> SameSign(Cmp(a, b), -Cmp(b, a)))
    && (forall a, b, c :: Ascending(a, b, c, versions) ==> Cmp(a, c) <= 0)
  }

  predicate Ascending(a: string, b: string, c: string, versions: set<string>)
  {
    && Listed(a, versions) && Listed(b, versions) && Listed(c, versions)
    && Cmp(a, b) <= 0 && Cmp(b, c) <= 0
  }

  /**
   Versions are ordered exactly when no two of them share their core with opposite identifiers, and
   no three that ascend share it with identifiers that wrap around.
   */
  lemma OrderedIff(versions: set<string>)
    ensures Ordered(versions) <==>
              && (forall a, b :: Listed(a, versions) && Listed(b, versions) ==>
                    !(SameCore(a, b) && FirstOpposite(Identifiers(a), Identifiers(b))))
              && (forall a, b, c :: Ascending(a, b, c, versions) ==>
                    !(SameCore(a, b) && SameCore(b, c) && WrapsAround(Identifiers(a), Identifiers(b), Identifiers(c))))
  {
    hide Valid, Cmp, SameCore, FirstOpposite, WrapsAround, Identifiers;
    forall a, b | Listed(a, versions) && Listed(b, versions)
      ensures SameSign(Cmp(a, b), -Cmp(b, a)) <==> !(SameCore(a, b) && FirstOpposite(Identifiers(a), Identifiers(b)))
    {
      CompareAntisymmetricIff(a, b);
    }
    forall a, b, c | Ascending(a, b, c, versions)
      ensures Cmp(a, c) <= 0 <==>
                !(SameCore(a, b) && SameCore(b, c) && WrapsAround(Identifiers(a), Identifiers(b), Identifiers(c)))
    {
      CompareTransitiveIff(a, b, c);
    }
  }

  // Versions with identifiers in one window are ordered.
  lemma WindowOrdered(versions: set<string>, base: int)
    requires forall v :: Listed(v, versions) ==> ComparableIn(v, base)
    ensures Ordered(versions)
  {
    hide Valid, Cmp, ComparableIn;
    forall a, b | Listed(a, versions) && Listed(b, versions)
      ensures SameSign(Cmp(a, b), -Cmp(b, a))
    {
      CompareAntisymmetric(a, b, base);
    }
    forall a, b, c | Ascending(a, b, c, versions)
      ensures Cmp(a, c) <= 0
    {
      CompareTransitive(a, b, c, base);
    }
  }

  // The listed versions that do not break up the text of a constraint.
  predicate Usable(v: string, versions: set<string>)
  {
    Listed(v, versions) && '|' !in v
  }

  lemma ZeroIsValid(s: string)
    requires |s| == 1 && s[0] == '0'
    ensures Valid(s)
  {
    assert TrimLeft(s) == s && TrimRight(s) == s;
    assert Split(s, '.') == [s];
    assert AllDigits(s) && Value(s) == 0;
  }

  // The comparison of the listed versions, with everything else last.
  function CmpIn(l: string, r: string, versions: set<string>): int
  {
    if Listed(l, versions) then (if Listed(r, versions) then Cmp(l, r) else -1)
    else if Listed(r, versions) then 1 else 0
  }

  function OrderIn(versions: set<string>): Order<string>
  {
    Order((l: string, r: string) => CmpIn(l, r, versions))
  }

  // It is a total preorder, so the event sort is well defined.
  lemma VersionsOrdered(versions: set<string>)
    requires Ordered(versions)
    ensures OrderIn(versions).TotalPreorder()
  {
    hide Valid, Cmp;
    forall a: string
      ensures CmpIn(a, a, versions) == 0
    {
      if Listed(a, versions) {
        ReflexiveIn(a);
      }
    }
    forall a: string, b: string
      ensures CmpIn(a, b, versions) < 0 <==> CmpIn(b, a, versions) > 0
    {
    }
    forall a: string, b: string, c: string | CmpIn(a, b, versions) <= 0 && CmpIn(b, c, versions) <= 0
      ensures CmpIn(a, c, versions) <= 0
    {
      assert Listed(a, versions) && Listed(b, versions) && Listed(c, versions) ==> Ascending(a, b, c, versions);
    }
  }

  lemma ReflexiveIn(v: string)
    requires Valid(v)
    ensures Cmp(v, v) == 0
  {
    hide SplitSemver;
    CompareReflexive(v);
  }

  // ---------- Events ----------

  // An event names its version in the first non-empty field.
  datatype OsvEvent = OsvEvent(introduced: string, fixed: string, lastAffected: string, limit: string) {
    function Version(): string
    {
      if introduced != "" then introduced
      else if fixed != "" then fixed
      else if lastAffected != "" then lastAffected
      else limit
    }

    // The sort accepts introduced "0" and semantic versions.
    predicate Sortable() { introduced == "0" || Valid(Version()) }

    function Meaning(): Event<string>
    {
      if introduced == "0" then Zero(introduced)
      else if introduced != "" then Introduced(introduced)
      else if fixed != "" then Fixed(fixed)
      else if lastAffected != "" then LastAffected(lastAffected)
      else Fixed(limit)
    }

    function UpperBound(): string
    {
      if fixed != "" then "<" + fixed
      else if lastAffected != "" then "<=" + lastAffected
      else if limit != "" then "<" + limit
      else ""
    }
  }

  predicate AllUsable(events: seq<OsvEvent>, versions: set<string>)
  {
    forall i :: 0 <= i < |events| ==> Usable(events[i].Version(), versions)
  }

  function Meanings(events: seq<OsvEvent>): (r: seq<Event<string>>)
    ensures |r| == |events|
  {
    seq(|events|, i requires 0 <= i < |events| => events[i].Meaning())
  }

  // ---------- Constraints ----------

  const ANY := "*"

  function JoinConstraints(lower: string, upper: string): string
  {
    if lower != "" then (if upper != "" then ">=" + lower + "|" + upper else ">=" + lower)
    else if upper != "" then upper
    else ANY
  }

  function LowerText(lower: Option<string>): string
  {
    match lower case None => "" case Some(v) => v
  }

  function UpperText(upper: Upper<string>): string
  {
    match upper
    case Unbounded => ""
    case Below(v) => "<" + v
    case UpTo(v) => "<=" + v
  }

  function Constraint(i: Interval<string>): string
  {
    JoinConstraints(LowerText(i.lower), UpperText(i.upper))
  }

  function Constraints(intervals: seq<Interval<string>>): (r: seq<string>)
    ensures |r| == |intervals|
  {
    seq(|intervals|, i requires 0 <= i < |intervals| => Constraint(intervals[i]))
  }

  // The bounds of an interval are usable.
  predicate UsableInterval(i: Interval<string>, versions: set<string>)
  {
    (i.lower.Some? ==> Usable(i.lower.value, versions)) && (!i.upper.Unbounded? ==> Usable(i.upper.v, versions))
  }

  // ---------- The interval builder ----------

  // The fields of the builder.
  datatype Building = Building(intervals: seq<string>, lower: string, open: bool, pendingLast: string)

  const NOTHING_BUILT := Building([], "", false, "")

  function Closed(b: Building, upper: string): Building
  {
    b.(intervals := b.intervals + [JoinConstraints(b.lower, upper)], open := false)
  }

  function Added(b: Building, event: OsvEvent): Building
  {
    var last := b.pendingLast;
    var b := b.(pendingLast := "");
    if event.introduced != "" then
      if b.open then b
      else
        var b := b.(lower := if event.introduced == "0" then "" else event.introduced, open := true);
        if last != "" && SameVersion(last, event.introduced) then Closed(b, "<=" + last) else b
    else if event.UpperBound() == "" then b
    else if b.open then Closed(b, event.UpperBound())
    else if event.fixed == "" && event.lastAffected != "" then b.(pendingLast := event.lastAffected)
    else b
  }

  function AddedAll(events: seq<OsvEvent>): Building
  {
    if events == [] then NOTHING_BUILT else Added(AddedAll(events[..|events| - 1]), events[|events| - 1])
  }

  function Finished(b: Building): seq<string>
  {
    if b.open then Closed(b, "").intervals else b.intervals
  }

  class IntervalBuilder {
    var intervals: seq<string>
    var lower: string
    var open: bool
    var pendingLast: string

    constructor ()
      ensures Value() == NOTHING_BUILT
    {
      intervals, lower, open, pendingLast := [], "", false, "";
    }

    function Value(): Building
      reads this
    {
      Building(intervals, lower, open, pendingLast)
    }

    method Add(event: OsvEvent)
      modifies this
      ensures Value() == Added(old(Value()), event)
    {
      var last := pendingLast;
      pendingLast := "";
      if event.introduced != "" {
        if open {
          return;
        }
        lower, open := if event.introduced == "0" then "" else event.introduced, true;
        if last != "" && SameVersion(last, event.introduced) {
          Close("<=" + last);
        }
        return;
      }
      var upper := event.UpperBound();
      if upper == "" {
      } else if open {
        Close(upper);
      } else if event.fixed == "" && event.lastAffected != "" {
        pendingLast := event.lastAffected;
      }
    }

    method Close(upper: string)
      modifies this
      ensures Value() == Closed(old(Value()), upper)
    {
      intervals := intervals + [JoinConstraints(lower, upper)];
      open := false;
    }

    method Finish() returns (r: seq<string>)
      modifies this
      ensures r == Finished(old(Value()))
    {
      if open {
        Close("");
      }
      r := intervals;
    }
  }

  // The fields spell the abstract builder, whose bounds are usable.
  predicate Spells(b: Building, built: Builder<string>, versions: set<string>)
  {
    && b.intervals == Constraints(built.intervals) && b.open == built.open
    && b.lower == LowerText(built.lower) && b.pendingLast == LowerText(built.pendingLast)
    && (forall i :: 0 <= i < |built.intervals| ==> UsableInterval(built.intervals[i], versions))
    && (built.lower.Some? ==> Usable(built.lower.value, versions))
    && (built.pendingLast.Some? ==> Usable(built.pendingLast.value, versions))
  }

  lemma ClosedMeaning(b: Building, built: Builder<string>, upper: Upper<string>, versions: set<string>)
    requires Spells(b, built, versions) && (!upper.Unbounded? ==> Usable(upper.v, versions))
    ensures Spells(Closed(b, UpperText(upper)), Order<string>.Close(built, upper), versions)
  {
    hide Usable;
  }

  lemma IntroducedMeaning(b: Building, built: Builder<string>, event: OsvEvent, versions: set<string>)
    requires Spells(b, built, versions) && Usable(event.Version(), versions) && event.introduced != ""
    ensures Spells(Added(b, event), OrderIn(versions).Add(built, event.Meaning()), versions)
  {
    hide SameVersion, Usable, CmpIn, JoinConstraints, UsableInterval;
    if !built.open && built.pendingLast.Some? {
      var last := built.pendingLast.value;
      UsableNotEmpty(last, versions);
      SameVersionCompares(last, event.introduced, versions);
      var zero := event.introduced == "0";
      ClosedMeaning(b.(pendingLast := "", lower := if zero then "" else event.introduced, open := true),
                    built.(pendingLast := None, lower := if zero then None else Some(event.introduced), open := true),
                    UpTo(last), versions);
    }
  }

  lemma ClosingMeaning(b: Building, built: Builder<string>, event: OsvEvent, versions: set<string>)
    requires Spells(b, built, versions) && Usable(event.Version(), versions) && event.introduced == ""
    ensures Spells(Added(b, event), OrderIn(versions).Add(built, event.Meaning()), versions)
  {
    hide Usable, JoinConstraints, UsableInterval;
    UsableNotEmpty(event.Version(), versions);
    var upper :=
      if event.fixed != "" then Below(event.fixed)
      else if event.lastAffected != "" then UpTo(event.lastAffected) else Below(event.limit);
    assert event.UpperBound() == UpperText(upper) != "";
    ClosedMeaning(b.(pendingLast := ""), built.(pendingLast := None), upper, versions);
  }

  lemma {:induction false} AddedAllMeaning(events: seq<OsvEvent>, versions: set<string>)
    requires AllUsable(events, versions)
    ensures Spells(AddedAll(events), OrderIn(versions).Build(Meanings(events)), versions)
  {
    hide Usable, Added, OsvEvent.Meaning, Order.Add, Spells;
    if events == [] {
      assert Spells(NOTHING_BUILT, OrderIn(versions).Build(Meanings(events)), versions) by { NothingSpelled(versions); }
    } else {
      var last := |events| - 1;
      AddedAllMeaning(events[..last], versions);
      assert Meanings(events)[..last] == Meanings(events[..last]);
      if events[last].introduced != "" {
        IntroducedMeaning(AddedAll(events[..last]), OrderIn(versions).Build(Meanings(events[..last])), events[last], versions);
      } else {
        ClosingMeaning(AddedAll(events[..last]), OrderIn(versions).Build(Meanings(events[..last])), events[last], versions);
      }
    }
  }

  lemma NothingSpelled(versions: set<string>)
    ensures Spells(NOTHING_BUILT, OrderIn(versions).Build([]), versions)
  {
  }

  predicate SameVersion(l: string, r: string)
  {
    CompareSemver(l, r) == Some(0)
  }

  lemma SameVersionCompares(l: string, r: string, versions: set<string>)
    requires Usable(l, versions) && Usable(r, versions)
    ensures SameVersion(l, r) <==> CmpIn(l, r, versions) == 0
  {
    hide SplitSemver, CompareParsed;
  }

  lemma NotEmpty(v: string)
    requires Valid(v)
    ensures v != ""
  {
    assert Split("", '.') == [""];
    assert Atoi("") == None;
  }

  lemma UsableNotEmpty(v: string, versions: set<string>)
    requires Usable(v, versions)
    ensures v != ""
  {
    NotEmpty(v);
  }

  // ---------- Sorting and compiling a range ----------

  function Rank(e: OsvEvent): int
  {
    if e.introduced != "" then 2 else if e.fixed == "" && e.lastAffected != "" then 1 else 0
  }

  function CompareEvents(l: OsvEvent, r: OsvEvent): int
  {
    if l.introduced == "0" && r.introduced == "0" then 0
    else if l.introduced == "0" then -1
    else if r.introduced == "0" then 1
    else match CompareSemver(l.Version(), r.Version())
      case Some(c) => if c != 0 then c else Rank(l) - Rank(r)
      case None => Rank(l) - Rank(r)
  }

  lemma CompareEventsMeaning(l: OsvEvent, r: OsvEvent, versions: set<string>)
    requires Usable(l.Version(), versions) && Usable(r.Version(), versions)
    ensures CompareEvents(l, r) == OrderIn(versions).Compare(l.Meaning(), r.Meaning())
  {
    hide SplitSemver, CompareParsed;
    UsableNotEmpty(l.Version(), versions);
    UsableNotEmpty(r.Version(), versions);
  }

  function InsertStable(sorted: seq<OsvEvent>, e: OsvEvent): (r: seq<OsvEvent>)
    ensures |r| == |sorted| + 1 && forall x :: x in r ==> x in sorted || x == e
  {
    if sorted == [] then [e]
    else
      var last := |sorted| - 1;
      if CompareEvents(sorted[last], e) <= 0 then sorted + [e]
      else InsertStable(sorted[..last], e) + [sorted[last]]
  }

  // slices.SortStableFunc
  function SortStable(events: seq<OsvEvent>): (r: seq<OsvEvent>)
    ensures |r| == |events| && forall x :: x in r ==> x in events
  {
    if events == [] then []
    else InsertStable(SortStable(events[..|events| - 1]), events[|events| - 1])
  }

  lemma MeaningsAppend(events: seq<OsvEvent>, e: OsvEvent)
    ensures Meanings(events + [e]) == Meanings(events) + [e.Meaning()]
  {
    hide OsvEvent.Meaning;
  }

  lemma {:induction false} InsertStableMeaning(sorted: seq<OsvEvent>, e: OsvEvent, versions: set<string>)
    requires AllUsable(sorted, versions) && Usable(e.Version(), versions)
    ensures AllUsable(InsertStable(sorted, e), versions)
    ensures Meanings(InsertStable(sorted, e)) == OrderIn(versions).Insert(Meanings(sorted), e.Meaning())
  {
    hide Usable, CompareEvents, OsvEvent.Meaning, Order.Compare, Meanings;
    if sorted == [] {
      MeaningsAppend([], e);
      assert [] + [e] == [e];
    } else {
      var last := |sorted| - 1;
      var front := sorted[..last];
      MeaningsAppend(front, sorted[last]);
      assert front + [sorted[last]] == sorted && Meanings(sorted)[..last] == Meanings(front);
      CompareEventsMeaning(sorted[last], e, versions);
      if CompareEvents(sorted[last], e) <= 0 {
        MeaningsAppend(sorted, e);
      } else {
        InsertStableMeaning(front, e, versions);
        MeaningsAppend(InsertStable(front, e), sorted[last]);
      }
    }
  }

  lemma {:induction false} SortStableMeaning(events: seq<OsvEvent>, versions: set<string>)
    requires AllUsable(events, versions)
    ensures AllUsable(SortStable(events), versions)
    ensures Meanings(SortStable(events)) == OrderIn(versions).Sort(Meanings(events))
  {
    hide Usable, InsertStable, OsvEvent.Meaning, Order.Insert, Meanings;
    if events != [] {
      var last := |events| - 1;
      SortStableMeaning(events[..last], versions);
      InsertStableMeaning(SortStable(events[..last]), events[last], versions);
      MeaningsAppend(events[..last], events[last]);
      assert events[..last] + [events[last]] == events && Meanings(events)[..last] == Meanings(events[..last]);
    }
  }

  function Versioned(events: seq<OsvEvent>): (r: seq<OsvEvent>)
  {
    if events == [] then []
    else
      var front := Versioned(events[..|events| - 1]);
      if events[|events| - 1].Version() == "" then front else front + [events[|events| - 1]]
  }

  // Exactly the events without a version are left out.
  lemma {:induction false} VersionedExactly(events: seq<OsvEvent>, e: OsvEvent)
    ensures multiset(Versioned(events))[e] == if e.Version() == "" then 0 else multiset(events)[e]
  {
    hide OsvEvent.Version;
    if events != [] {
      var last := |events| - 1;
      VersionedExactly(events[..last], e);
      assert events == events[..last] + [events[last]];
    }
  }

  // Some event version is neither introduced "0" nor a semantic version.
  predicate Unsortable(events: seq<OsvEvent>)
  {
    exists i :: 0 <= i < |events| && events[i].Version() != "" && !events[i].Sortable()
  }

  // Every semantic version among the events is listed and free of separators.
  predicate WellBehaved(events: seq<OsvEvent>, versions: set<string>)
  {
    forall i :: 0 <= i < |events| && Valid(events[i].Version()) ==> Usable(events[i].Version(), versions)
  }

  lemma {:induction false} VersionedUsable(events: seq<OsvEvent>, versions: set<string>)
    requires WellBehaved(events, versions) && !Unsortable(events)
    ensures AllUsable(Versioned(events), versions)
  {
    hide Usable, Valid;
    if events != [] {
      var last := |events| - 1;
      assert forall i :: 0 <= i < last ==> events[..last][i] == events[i];
      VersionedUsable(events[..last], versions);
      if events[last].introduced == "0" {
        ZeroIsValid(events[last].introduced);
      }
    }
  }

  // The events with a version, sorted, or None when the events cannot be ordered.
  method SortEvents(events: seq<OsvEvent>) returns (sorted: Option<seq<OsvEvent>>)
    ensures sorted == if Unsortable(events) then None else Some(SortStable(Versioned(events)))
  {
    hide SplitSemver;
    var collected: seq<OsvEvent> := [];
    for i := 0 to |events|
      invariant collected == Versioned(events[..i]) && !Unsortable(events[..i])
    {
      assert events[..i + 1][..i] == events[..i];
      if events[i].Version() != "" {
        if events[i].introduced != "0" && SplitSemver(events[i].Version()) == None {
          return None;
        }
        collected := collected + [events[i]];
      }
    }
    assert events[..|events|] == events;
    sorted := Some(SortStable(collected));
  }

  // What a range compiles to: the texts of its intervals, or the constraint that matches every
  // version when the events cannot be ordered.
  function IntervalTexts(events: seq<OsvEvent>): seq<string>
  {
    if Unsortable(events) then [ANY] else Finished(AddedAll(SortStable(Versioned(events))))
  }

  method SemverIntervals(events: seq<OsvEvent>) returns (constraints: seq<string>)
    ensures constraints == IntervalTexts(events)
  {
    hide Added, SortStable, Versioned, Unsortable;
    var sorted := SortEvents(events);
    if sorted.None? {
      return [ANY];
    }
    var builder := new IntervalBuilder();
    var es := sorted.value;
    for i := 0 to |es|
      invariant builder.Value() == AddedAll(es[..i])
    {
      assert es[..i + 1][..i] == es[..i];
      builder.Add(es[i]);
    }
    assert es[..|es|] == es;
    constraints := builder.Finish();
  }

  // The intervals of a range, whose events count by their versions.
  function RangeIntervals(events: seq<OsvEvent>, versions: set<string>): seq<Interval<string>>
  {
    OrderIn(versions).Intervals(Meanings(Versioned(events)))
  }

  /**
   The texts of a range are the constraints of the intervals of its events, with usable bounds.
   */
  lemma IntervalTextsMeaning(events: seq<OsvEvent>, versions: set<string>)
    requires WellBehaved(events, versions) && !Unsortable(events)
    ensures IntervalTexts(events) == Constraints(RangeIntervals(events, versions))
    ensures forall i :: 0 <= i < |RangeIntervals(events, versions)| ==> UsableInterval(RangeIntervals(events, versions)[i], versions)
  {
    hide Usable, Valid, OsvEvent.Meaning, Order.Build, Order.Sort, SortStable, Versioned, AddedAll, Added, JoinConstraints;
    VersionedUsable(events, versions);
    var sorted := SortStable(Versioned(events));
    SortStableMeaning(Versioned(events), versions);
    AddedAllMeaning(sorted, versions);
  }

  // ---------- Evaluating a constraint ----------

  datatype Answer = Unknown | Known(ok: bool)

  predicate Applies(operator: string, c: int)
  {
    match operator
    case ">=" => c >= 0
    case "<=" => c <= 0
    case ">" => c > 0
    case "<" => c < 0
    case _ => c == 0
  }

  // Compares version with bound. Versions that only differ in build metadata cannot be ordered.
  function Evaluate(version: string, operator: string, bound: string): Answer
  {
    match CompareSemver(version, bound)
    case None => Unknown
    case Some(c) =>
      if c == 0 && BuildMetadata(version) != BuildMetadata(bound) then Unknown else Known(Applies(operator, c))
  }

  function SatisfiesAny(version: string, constraint: string, operators: seq<string>): Answer
  {
    if operators == [] then Unknown
    else if operators[0] <= constraint then Evaluate(version, operators[0], constraint[|operators[0]|..])
    else SatisfiesAny(version, constraint, operators[1..])
  }

  function Satisfies(version: string, constraint: string): Answer
  {
    SatisfiesAny(version, constraint, OPERATORS)
  }

  // All constraints hold; the first one that cannot be evaluated decides for a match.
  function MatchesAll(version: string, constraints: seq<string>): bool
  {
    if constraints == [] then true
    else match Satisfies(version, constraints[0])
      case Unknown => true
      case Known(ok) => ok && MatchesAll(version, constraints[1..])
  }

  // Whether a feed spec with the vers constraint body matches a package version.
  predicate SpecMatches(body: string, version: string)
  {
    body == ANY || version == "" || MatchesAll(version, Split(body, '|'))
  }

  // ---------- What a constraint matches ----------

  lemma SplitJoined(a: string, b: string, c: char)
    requires c !in a && c !in b
    ensures Split(a, c) == [a] && Split(a + [c] + b, c) == [a, b]
  {
    var s := a + [c] + b;
    assert s[..|a|] == a && s[|a|] == c && s[|a| + 1..] == b;
    IndexOfFirst(s, c, |a|);
    assert Split(b, c) == [b];
  }

  lemma EqualsIsNotValid(v: string)
    requires v != "" && v[0] == '='
    ensures !Valid(v)
  {
    hide TrimRight, IndexOf, CompareStrings;
    assert TrimLeft(v) == v;
    TrimRightKeepsFirst(v);
    var n := NormalizeVersion(v);
    BeforeKeepsFirst(n, '+');
    BeforeKeepsFirst(Before(n, '+'), '-');
    var core := Before(Before(n, '+'), '-');
    BeforeKeepsFirst(core, '.');
    var first := Before(core, '.');
    assert Split(core, '.')[0] == first;
    assert !AllDigits(first) && Atoi(first) == None;
  }

  // A semantic version does not start with an equals sign, which would turn "<" into "<=".
  lemma NoLeadingEquals(v: string)
    requires Valid(v)
    ensures v != "" && v[0] != '='
  {
    hide SplitSemver;
    NotEmpty(v);
    if v[0] == '=' {
      EqualsIsNotValid(v);
    }
  }

  lemma {:induction false} TrimRightKeepsFirst(s: string)
    requires s != "" && !IsSpace(s[0])
    ensures TrimRight(s) != "" && TrimRight(s)[0] == s[0]
  {
    if |s| > 1 {
      TrimRightKeepsFirst(s[..|s| - 1]);
    }
  }

  lemma BeforeKeepsFirst(s: string, c: char)
    requires s != "" && s[0] != c
    ensures Before(s, c) != "" && Before(s, c)[0] == s[0]
  {
  }

  lemma SatisfiesBound(version: string, bound: string)
    requires Valid(bound)
    ensures Satisfies(version, ">=" + bound) == Evaluate(version, ">=", bound)
    ensures Satisfies(version, "<=" + bound) == Evaluate(version, "<=", bound)
    ensures Satisfies(version, "<" + bound) == Evaluate(version, "<", bound)
    ensures Satisfies(version, ">" + bound) == Evaluate(version, ">", bound)
    ensures Satisfies(version, "=" + bound) == Evaluate(version, "=", bound)
  {
    NoLeadingEquals(bound);
    FindsOperator(version, ">=", bound, 0);
    FindsOperator(version, "<=", bound, 1);
    FindsOperator(version, ">", bound, 2);
    FindsOperator(version, "<", bound, 3);
    FindsOperator(version, "=", bound, 4);
  }

  const OPERATORS := [">=", "<=", ">", "<", "="]

  // The operator of a constraint is the first one that it starts with.
  lemma FindsOperator(version: string, operator: string, bound: string, k: nat)
    requires bound != "" && bound[0] != '='
    requires k < |OPERATORS| && OPERATORS[k] == operator
    ensures Satisfies(version, operator + bound) == Evaluate(version, operator, bound)
  {
    hide Evaluate, SatisfiesAny;
    var text := operator + bound;
    assert operator <= text && text[|operator|..] == bound;
    assert text[0] == operator[0] && text[1] == if |operator| > 1 then operator[1] else bound[0];
    assert forall i :: 0 <= i < k ==> !(OPERATORS[i] <= text);
    SkipsOperators(version, text, k);
  }

  lemma {:induction false} SkipsOperators(version: string, text: string, k: nat)
    requires k < |OPERATORS| && OPERATORS[k] <= text && forall i :: 0 <= i < k ==> !(OPERATORS[i] <= text)
    ensures SatisfiesAny(version, text, OPERATORS) == Evaluate(version, OPERATORS[k], text[|OPERATORS[k]|..])
  {
    hide Evaluate;
    var i := k;
    while i > 0
      invariant 0 <= i <= k
      invariant SatisfiesAny(version, text, OPERATORS[i..]) == Evaluate(version, OPERATORS[k], text[|OPERATORS[k]|..])
    {
      i := i - 1;
      assert OPERATORS[i..][0] == OPERATORS[i] && OPERATORS[i..][1..] == OPERATORS[i + 1..];
    }
    assert OPERATORS[0..] == OPERATORS;
  }

  /**
   What each operator means: unknown for versions that equal the bound except for build metadata,
   and else the comparison that it is named after.
   */
  lemma OperatorsMean(version: string, bound: string)
    requires Valid(version) && Valid(bound)
    ensures var c, ambiguous := Cmp(version, bound), Cmp(version, bound) == 0 && BuildMetadata(version) != BuildMetadata(bound);
            && Satisfies(version, ">=" + bound) == (if ambiguous then Unknown else Known(c >= 0))
            && Satisfies(version, "<=" + bound) == (if ambiguous then Unknown else Known(c <= 0))
            && Satisfies(version, ">" + bound) == (if ambiguous then Unknown else Known(c > 0))
            && Satisfies(version, "<" + bound) == (if ambiguous then Unknown else Known(c < 0))
            && Satisfies(version, "=" + bound) == (if ambiguous then Unknown else Known(c == 0))
  {
    hide SplitSemver, Satisfies;
    SatisfiesBound(version, bound);
  }

  /**
   A package without a version, or with one that is no semantic version, matches every constraint.
   */
  lemma UnparsableMatches(body: string, version: string)
    requires !Valid(version)
    ensures SpecMatches(body, version)
  {
    hide SplitSemver;
    var parts := Split(body, '|');
    UnknownVersion(version, parts[0], OPERATORS);
  }

  lemma {:induction false} UnknownVersion(version: string, text: string, operators: seq<string>)
    requires !Valid(version)
    ensures SatisfiesAny(version, text, operators) == Unknown
  {
    hide SplitSemver;
    if operators != [] {
      UnknownVersion(version, text, operators[1..]);
    }
  }

  // v equals the bound except for build metadata.
  predicate OtherMetadata(v: string, bound: string, versions: set<string>)
  {
    CmpIn(v, bound, versions) == 0 && BuildMetadata(v) != BuildMetadata(bound)
  }

  // v reaches a bound of the interval that it equals except for build metadata.
  predicate Ambiguous(v: string, i: Interval<string>, versions: set<string>)
  {
    || (i.lower.Some? && OtherMetadata(v, i.lower.value, versions))
    || ((i.lower.Some? ==> CmpIn(v, i.lower.value, versions) >= 0) && !i.upper.Unbounded? && OtherMetadata(v, i.upper.v, versions))
  }

  lemma EvaluateBound(v: string, operator: string, bound: string, versions: set<string>)
    requires Listed(v, versions) && Usable(bound, versions)
    ensures Evaluate(v, operator, bound)
         == if OtherMetadata(v, bound, versions) then Unknown else Known(Applies(operator, CmpIn(v, bound, versions)))
  {
    hide SplitSemver, CompareParsed;
  }

  lemma MatchesBounds(v: string, a: string, b: string)
    ensures MatchesAll(v, [a]) <==> Satisfies(v, a) == Unknown || Satisfies(v, a) == Known(true)
    ensures MatchesAll(v, [a, b]) <==> Satisfies(v, a) == Unknown || (Satisfies(v, a) == Known(true) && MatchesAll(v, [b]))
  {
    hide Satisfies;
    assert [a][1..] == [] && [a, b][1..] == [b];
  }

  lemma UpperMatches(v: string, upper: Upper<string>, versions: set<string>)
    requires !upper.Unbounded?
    ensures Listed(v, versions) && Usable(upper.v, versions) ==>
              (MatchesAll(v, [UpperText(upper)]) <==>
                 OtherMetadata(v, upper.v, versions) || OrderIn(versions).InInterval(v, Interval(None, upper)))
  {
    hide Valid, CmpIn, Satisfies, Evaluate, OtherMetadata, BuildMetadata;
    if Listed(v, versions) && Usable(upper.v, versions) {
      MatchesBounds(v, UpperText(upper), "");
      SatisfiesBound(v, upper.v);
      EvaluateBound(v, if upper.Below? then "<" else "<=", upper.v, versions);
    }
  }

  lemma LowerMatches(v: string, lower: string, versions: set<string>)
    requires Listed(v, versions) && Usable(lower, versions)
    ensures Satisfies(v, ">=" + lower) ==
            if OtherMetadata(v, lower, versions) then Unknown else Known(CmpIn(v, lower, versions) >= 0)
  {
    hide Valid, CmpIn, Satisfies, Evaluate, OtherMetadata, BuildMetadata;
    SatisfiesBound(v, lower);
    EvaluateBound(v, ">=", lower, versions);
  }

  /**
   The text of an interval, split and evaluated, matches exactly the versions of the interval
   and those that reach one of its bounds except for build metadata.
   */
  lemma ConstraintMatchesInterval(i: Interval<string>, v: string, versions: set<string>)
    requires UsableInterval(i, versions) && Listed(v, versions)
    ensures SpecMatches(Constraint(i), v) <==> OrderIn(versions).InInterval(v, i) || Ambiguous(v, i, versions)
  {
    hide Listed, CmpIn, Satisfies, OtherMetadata, BuildMetadata, IndexOf;
    assert v != "" by { ListedNotEmpty(v, versions); }
    var upper := UpperText(i.upper);
    if i.lower.Some? {
      var l := ">=" + i.lower.value;
      UsableNotEmpty(i.lower.value, versions);
      LowerMatches(v, i.lower.value, versions);
      SplitJoined(l, upper, '|');
      MatchesBounds(v, l, upper);
      assert Constraint(i) == if i.upper.Unbounded? then l else l + ['|'] + upper;
      assert Constraint(i)[0] == '>';
    } else if !i.upper.Unbounded? {
      SplitJoined(upper, "", '|');
      assert Constraint(i) == upper && upper[0] == '<';
    }
    if !i.upper.Unbounded? {
      UpperMatches(v, i.upper, versions);
    }
  }

  lemma ListedNotEmpty(v: string, versions: set<string>)
    requires Listed(v, versions)
    ensures v != ""
  {
    NotEmpty(v);
  }

  ghost predicate Matched(constraints: seq<string>, v: string)
  {
    exists k :: 0 <= k < |constraints| && SpecMatches(constraints[k], v)
  }

  // v equals a bound of some interval, which it reaches, except for build metadata.
  ghost predicate SomeAmbiguous(v: string, intervals: seq<Interval<string>>, versions: set<string>)
  {
    exists k :: 0 <= k < |intervals| && Ambiguous(v, intervals[k], versions)
  }

  // The matched texts of intervals are those of the intervals that hold the version, or whose
  // bounds it equals except for build metadata.
  lemma MatchedMeaning(intervals: seq<Interval<string>>, v: string, versions: set<string>)
    requires Listed(v, versions) && forall i :: 0 <= i < |intervals| ==> UsableInterval(intervals[i], versions)
    ensures Matched(Constraints(intervals), v) <==> OrderIn(versions).InUnion(v, intervals) || SomeAmbiguous(v, intervals, versions)
  {
    hide SpecMatches, Ambiguous, Order.InInterval, Constraint, UsableInterval, Listed;
    forall k | 0 <= k < |intervals|
      ensures SpecMatches(Constraints(intervals)[k], v) <==>
                OrderIn(versions).InInterval(v, intervals[k]) || Ambiguous(v, intervals[k], versions)
    {
      ConstraintMatchesInterval(intervals[k], v, versions);
    }
  }

  /**
   Range matching end to end, from the events of a feed to the answer for a package version, for
   any versions that the comparison orders. A version matches exactly when it is affected and not
   after a range that is lost to a tie, or equals a bound except for build metadata. The events that
   count are exactly those with a version. So no affected
   version is missed when no version is both last affected and introduced. When the events cannot
   be parsed every version matches.
   */
  lemma RangeMatching(events: seq<OsvEvent>, v: string, versions: set<string>)
    requires Ordered(versions) && WellBehaved(events, versions) && Listed(v, versions)
    ensures (exists i :: 0 <= i < |events| && events[i].Version() != "" && events[i].introduced != "0" && !Valid(events[i].Version())) ==>
              Matched(IntervalTexts(events), v)
    ensures forall e :: multiset(Versioned(events))[e] == if e.Version() == "" then 0 else multiset(events)[e]
    ensures (forall i :: 0 <= i < |events| && events[i].Version() != "" && events[i].introduced != "0" ==> Valid(events[i].Version())) ==>
              var order, meanings := OrderIn(versions), Meanings(Versioned(events));
              && (Matched(IntervalTexts(events), v) <==>
                    || (order.Affected(meanings, v) && !exists k: nat :: order.LostAt(order.Sort(meanings), k, v))
                    || SomeAmbiguous(v, order.Intervals(meanings), versions))
              && (!order.Tied(meanings) && order.Affected(meanings, v) ==> Matched(IntervalTexts(events), v))
  {
    hide Matched, SomeAmbiguous, Order.Affected, Order.Tied, Order.InUnion, Order.Intervals, Order.LostAt, OsvEvent.Meaning,
         Usable, UsableInterval, Listed, CmpIn, Versioned, OsvEvent.Version, Valid;
    forall e
      ensures multiset(Versioned(events))[e] == if e.Version() == "" then 0 else multiset(events)[e]
    {
      VersionedExactly(events, e);
    }
    if Unsortable(events) {
      assert Matched([ANY], v) by { AnyMatches(v); }
    } else {
      IntervalTextsMeaning(events, versions);
      VersionsOrdered(versions);
      OrderIn(versions).IntervalsAreAffected(Meanings(Versioned(events)), v);
      MatchedMeaning(RangeIntervals(events, versions), v, versions);
    }
  }

  lemma AnyMatches(v: string)
    ensures Matched([ANY], v)
  {
    assert SpecMatches([ANY][0], v);
  }
}
