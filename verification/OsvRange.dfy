/**
 The compilation of OSV range events into version intervals, over any versions ordered by a
 comparison. The reference is the evaluation of the OSV schema, with a limit treated as a
 closing event: first as a replay of the sorted events, then as a statement about the set of
 events that mentions no order of the events at all.
 */
module OsvRange {
  import opened Options

  // Introduced "0" (spelled v) starts before every version; a limit closes like a fix.
  datatype Event<+V> = Zero(v: V) | Introduced(v: V) | Fixed(v: V) | LastAffected(v: V) {
    predicate Opens() { Zero? || Introduced? }

    // At equal versions exclusive upper bounds come first, then inclusive ones, then introduced.
    function Rank(): int { if Opens() then 2 else if LastAffected? then 1 else 0 }
  }

  datatype Upper<+V> = Unbounded | Below(v: V) | UpTo(v: V)
  datatype Interval<+V> = Interval(lower: Option<V>, upper: Upper<V>)

  // The intervals of the events so far, and the lower bound of the one that is open, if any. A
  // last affected version outside of an interval is remembered for the next event.
  datatype Builder<+V> = Builder(intervals: seq<Interval<V>>, lower: Option<V>, open: bool, pendingLast: Option<V>)

  datatype Order<!V(!new)> = Order(cmp: (V, V) -> int) {

    ghost predicate TotalPreorder()
    {
      && (forall a :: cmp(a, a) == 0)
      && (forall a, b {:trigger cmp(a, b)} :: (cmp(a, b) < 0 <==> cmp(b, a) > 0))
      && (forall a, b, c {:trigger cmp(a, b), cmp(b, c)} :: cmp(a, b) <= 0 && cmp(b, c) <= 0 ==> cmp(a, c) <= 0)
    }

    function Compare(l: Event<V>, r: Event<V>): int
    {
      if l.Zero? && r.Zero? then 0
      else if l.Zero? then -1
      else if r.Zero? then 1
      else
        var c := cmp(l.v, r.v);
        if c != 0 then c else l.Rank() - r.Rank()
    }

    // ---------- The reference ----------

    predicate AtOrAfter(v: V, e: Event<V>) { e.Zero? || cmp(v, e.v) >= 0 }
    predicate StrictlyAfter(v: V, e: Event<V>) { e.Zero? || cmp(v, e.v) > 0 }
    predicate EventBefore(l: Event<V>, r: Event<V>) { !r.Zero? && (l.Zero? || cmp(l.v, r.v) < 0) }

    predicate TurnsOn(e: Event<V>, v: V) { e.Opens() && AtOrAfter(v, e) }

    predicate TurnsOff(e: Event<V>, v: V)
    {
      (e.Fixed? && AtOrAfter(v, e)) || (e.LastAffected? && StrictlyAfter(v, e))
    }

    // Replaying the events in order: on at introduced, off at fixed or limit, off after
    // last_affected.
    function Replay(events: seq<Event<V>>, v: V): bool
    {
      if events == [] then false
      else
        var e := events[|events| - 1];
        if TurnsOn(e, v) then true
        else if TurnsOff(e, v) then false
        else Replay(events[..|events| - 1], v)
    }

    // Event i starts a range that holds v: no event after its version turns v off.
    ghost predicate Starts(events: seq<Event<V>>, i: nat, v: V)
    {
      && i < |events| && TurnsOn(events[i], v)
      && forall j :: 0 <= j < |events| && EventBefore(events[i], events[j]) ==> !TurnsOff(events[j], v)
    }

    // v is affected: some introduced event at or before v is not ended before v.
    ghost predicate Affected(events: seq<Event<V>>, v: V)
    {
      exists i: nat :: Starts(events, i, v)
    }

    // ---------- Sorting ----------

    predicate Sorted(events: seq<Event<V>>)
    {
      forall i, j :: 0 <= i < j < |events| ==> Compare(events[i], events[j]) <= 0
    }

    lemma CompareTransitive(a: Event<V>, b: Event<V>, c: Event<V>)
      requires TotalPreorder() && Compare(a, b) <= 0 && Compare(b, c) <= 0
      ensures Compare(a, c) <= 0
    {
      if !a.Zero? && !b.Zero? && !c.Zero? && cmp(a.v, c.v) == 0 {
        assert cmp(c.v, a.v) == 0;
        assert cmp(c.v, b.v) <= 0 && cmp(b.v, a.v) <= 0;
      }
    }

    // Inserts e behind the events that do not come after it.
    function Insert(sorted: seq<Event<V>>, e: Event<V>): (r: seq<Event<V>>)
      ensures multiset(r) == multiset(sorted) + multiset{e}
    {
      if sorted == [] then [e]
      else
        var last := |sorted| - 1;
        assert sorted == sorted[..last] + [sorted[last]];
        if Compare(sorted[last], e) <= 0 then sorted + [e]
        else Insert(sorted[..last], e) + [sorted[last]]
    }

    lemma {:induction false} InsertSorted(sorted: seq<Event<V>>, e: Event<V>)
      requires TotalPreorder() && Sorted(sorted)
      ensures Sorted(Insert(sorted, e))
    {
      if sorted != [] {
        var last := |sorted| - 1;
        if Compare(sorted[last], e) <= 0 {
          forall i | 0 <= i < |sorted|
            ensures Compare(sorted[i], e) <= 0
          {
            if i < last {
              CompareTransitive(sorted[i], sorted[last], e);
            }
          }
        } else {
          InsertSorted(sorted[..last], e);
          var front := Insert(sorted[..last], e);
          forall i | 0 <= i < |front|
            ensures Compare(front[i], sorted[last]) <= 0
          {
            assert front[i] in multiset(front);
            assert front[i] in sorted[..last] || front[i] == e;
          }
        }
      }
    }

    // The stable sort of the events.
    function Sort(events: seq<Event<V>>): (r: seq<Event<V>>)
      ensures multiset(r) == multiset(events)
    {
      if events == [] then []
      else
        var last := |events| - 1;
        assert events == events[..last] + [events[last]];
        Insert(Sort(events[..last]), events[last])
    }

    lemma {:induction false} SortSorted(events: seq<Event<V>>)
      requires TotalPreorder()
      ensures Sorted(Sort(events))
    {
      if events != [] {
        var last := |events| - 1;
        SortSorted(events[..last]);
        InsertSorted(Sort(events[..last]), events[last]);
      }
    }

    // ---------- Replay of sorted events = affected ----------

    lemma LastOpens(events: seq<Event<V>>, v: V)
      requires TotalPreorder() && Sorted(events) && events != [] && TurnsOn(events[|events| - 1], v)
      ensures Affected(events, v)
    {
      assert forall j :: 0 <= j < |events| - 1 ==> Compare(events[j], events[|events| - 1]) <= 0;
      assert Starts(events, |events| - 1, v);
    }

    lemma LastCloses(events: seq<Event<V>>, v: V)
      requires TotalPreorder() && Sorted(events) && events != [] && TurnsOff(events[|events| - 1], v)
      ensures !Affected(events, v)
    {
      var n := |events| - 1;
      forall i: nat | i < n && events[i].Opens()
        ensures !Starts(events, i, v)
      {
        assert Compare(events[i], events[n]) <= 0;
        assert EventBefore(events[i], events[n]);
      }
    }

    lemma LastIrrelevant(events: seq<Event<V>>, v: V)
      requires events != [] && !TurnsOn(events[|events| - 1], v) && !TurnsOff(events[|events| - 1], v)
      ensures Affected(events, v) <==> Affected(events[..|events| - 1], v)
    {
      var front := events[..|events| - 1];
      assert forall j :: 0 <= j < |front| ==> front[j] == events[j];
      if i: nat :| Starts(front, i, v) {
        assert Starts(events, i, v);
      }
      if i: nat :| Starts(events, i, v) {
        assert Starts(front, i, v);
      }
    }

    /**
     Replaying the sorted events ends vulnerable exactly when some introduced event at or before
     the version is not ended before it.
     */
    lemma {:induction false} ReplayIsAffected(events: seq<Event<V>>, v: V)
      requires TotalPreorder() && Sorted(events)
      ensures Replay(events, v) <==> Affected(events, v)
    {
      if events != [] {
        var e := events[|events| - 1];
        if TurnsOn(e, v) {
          LastOpens(events, v);
        } else if TurnsOff(e, v) {
          LastCloses(events, v);
        } else {
          LastIrrelevant(events, v);
          ReplayIsAffected(events[..|events| - 1], v);
        }
      }
    }

    // Whether a version is affected does not depend on the order of the events.
    lemma AffectedIgnoresOrder(a: seq<Event<V>>, b: seq<Event<V>>, v: V)
      requires multiset(a) == multiset(b) && Affected(a, v)
      ensures Affected(b, v)
    {
      var i: nat :| Starts(a, i, v);
      assert a[i] in multiset(b);
      var k :| 0 <= k < |b| && b[k] == a[i];
      forall j | 0 <= j < |b| && EventBefore(b[k], b[j])
        ensures !TurnsOff(b[j], v)
      {
        assert b[j] in multiset(a);
        var m :| 0 <= m < |a| && a[m] == b[j];
      }
      assert Starts(b, k, v);
    }

    // ---------- Building the intervals ----------

    predicate InInterval(v: V, i: Interval<V>)
    {
      && (i.lower.Some? ==> cmp(v, i.lower.value) >= 0)
      && match i.upper
         case Unbounded => true
         case Below(u) => cmp(v, u) < 0
         case UpTo(u) => cmp(v, u) <= 0
    }

    ghost predicate InUnion(v: V, intervals: seq<Interval<V>>)
    {
      exists i :: 0 <= i < |intervals| && InInterval(v, intervals[i])
    }

    static function Close(b: Builder<V>, upper: Upper<V>): Builder<V>
    {
      b.(intervals := b.intervals + [Interval(b.lower, upper)], open := false)
    }

    // An interval just introduced at the version of a pending last_affected ends there.
    function CloseIfSame(b: Builder<V>, last: Option<V>, v: V): Builder<V>
    {
      if last.Some? && cmp(last.value, v) == 0 then Close(b, UpTo(last.value)) else b
    }

    function Add(b: Builder<V>, e: Event<V>): Builder<V>
    {
      var last := b.pendingLast;
      var b := b.(pendingLast := None);
      match e
      case Zero(v) => if b.open then b else CloseIfSame(b.(lower := None, open := true), last, v)
      case Introduced(v) => if b.open then b else CloseIfSame(b.(lower := Some(v), open := true), last, v)
      case Fixed(v) => if b.open then Close(b, Below(v)) else b
      case LastAffected(v) => if b.open then Close(b, UpTo(v)) else b.(pendingLast := Some(v))
    }

    function Build(events: seq<Event<V>>): Builder<V>
    {
      if events == [] then Builder([], None, false, None)
      else Add(Build(events[..|events| - 1]), events[|events| - 1])
    }

    static function Finish(b: Builder<V>): seq<Interval<V>>
    {
      if b.open then b.intervals + [Interval(b.lower, Unbounded)] else b.intervals
    }

    // The intervals of unsorted events.
    function Intervals(events: seq<Event<V>>): seq<Interval<V>>
    {
      Finish(Build(Sort(events)))
    }

    // ---------- The union of the intervals ----------

    // The versions in the intervals so far, counting an open one as unbounded.
    ghost predicate Holds(b: Builder<V>, v: V)
    {
      InUnion(v, b.intervals) || (b.open && InInterval(v, Interval(b.lower, Unbounded)))
    }

    // Every bound in the builder is the version of an event.
    ghost predicate FromEvents(b: Builder<V>, events: seq<Event<V>>)
    {
      && (forall i :: 0 <= i < |b.intervals| ==>
            match b.intervals[i].upper
            case Unbounded => false
            case Below(u) => Fixed(u) in events
            case UpTo(u) => LastAffected(u) in events)
      && (b.open ==> if b.lower.None? then exists e :: e in events && e.Zero? else Introduced(b.lower.value) in events)
      && (b.pendingLast.Some? ==> LastAffected(b.pendingLast.value) in events)
    }

    // A version is both the last affected one and an introduced one.
    ghost predicate Tied(events: seq<Event<V>>)
    {
      exists i, j :: 0 <= i < |events| && 0 <= j < |events|
                  && events[i].LastAffected? && events[j].Opens() && cmp(events[i].v, events[j].v) == 0
    }

    // Event e comes after all events.
    ghost predicate Follows(events: seq<Event<V>>, e: Event<V>)
    {
      forall x :: x in events ==> Compare(x, e) <= 0
    }

    lemma ClosedBefore(b: Builder<V>, events: seq<Event<V>>, e: Event<V>, v: V)
      requires TotalPreorder() && FromEvents(b, events) && Follows(events, e) && TurnsOff(e, v)
      ensures !InUnion(v, b.intervals)
    {
      forall i | 0 <= i < |b.intervals|
        ensures !InInterval(v, b.intervals[i])
      {
        match b.intervals[i].upper
        case Below(u) => assert Compare(Fixed(u), e) <= 0;
        case UpTo(u) => assert Compare(LastAffected(u), e) <= 0;
      }
    }

    lemma InUnionAppend(v: V, intervals: seq<Interval<V>>, last: Interval<V>)
      ensures InUnion(v, intervals + [last]) <==> InUnion(v, intervals) || InInterval(v, last)
    {
      var all := intervals + [last];
      if i :| 0 <= i < |intervals| && InInterval(v, intervals[i]) {
        assert InInterval(v, all[i]);
      }
      if InInterval(v, last) {
        assert InInterval(v, all[|intervals|]);
      }
    }

    lemma AddOpens(b: Builder<V>, events: seq<Event<V>>, e: Event<V>, v: V)
      requires TotalPreorder() && FromEvents(b, events) && Follows(events, e) && e.Opens()
      ensures TurnsOn(e, v) && b.open ==> Holds(Add(b, e), v)
      ensures Holds(Add(b, e), v) ==> TurnsOn(e, v) || Holds(b, v)
      ensures Holds(b, v) ==> Holds(Add(b, e), v)
      ensures TurnsOn(e, v) && !Tied(events + [e]) ==> Holds(Add(b, e), v)
    {
      if b.open {
        if b.lower.Some? {
          assert Compare(Introduced(b.lower.value), e) <= 0;
        }
      } else if b.pendingLast.Some? && cmp(b.pendingLast.value, e.v) == 0 {
        var last := LastAffected(b.pendingLast.value);
        assert Compare(last, e) <= 0;
        InUnionAppend(v, b.intervals, Interval(Some(e.v), UpTo(last.v)));
        var i :| 0 <= i < |events| && events[i] == last;
        assert (events + [e])[i] == last && (events + [e])[|events|] == e;
      }
    }

    lemma AddCloses(b: Builder<V>, events: seq<Event<V>>, e: Event<V>, v: V)
      requires TotalPreorder() && FromEvents(b, events) && Follows(events, e) && !e.Opens()
      ensures Holds(Add(b, e), v) <==> Holds(b, v) && !TurnsOff(e, v)
    {
      if TurnsOff(e, v) {
        ClosedBefore(b, events, e, v);
      }
      if b.open {
        InUnionAppend(v, b.intervals, Interval(b.lower, if e.Fixed? then Below(e.v) else UpTo(e.v)));
      }
    }

    lemma AddFromEvents(b: Builder<V>, events: seq<Event<V>>, e: Event<V>)
      requires FromEvents(b, events)
      ensures FromEvents(Add(b, e), events + [e])
    {
      assert forall x :: x in events ==> x in events + [e];
      assert e in events + [e];
    }

    lemma FollowsLast(events: seq<Event<V>>)
      requires Sorted(events) && events != []
      ensures Follows(events[..|events| - 1], events[|events| - 1])
    {
      var front := events[..|events| - 1];
      forall x | x in front
        ensures Compare(x, events[|events| - 1]) <= 0
      {
        var i :| 0 <= i < |front| && front[i] == x;
        assert events[i] == x;
      }
    }

    // The intervals of sorted events never hold a version that the replay deems unaffected, and
    // hold all affected ones unless a version is both last affected and introduced.
    lemma {:induction false} BuildReplays(events: seq<Event<V>>, v: V)
      requires TotalPreorder() && Sorted(events)
      ensures FromEvents(Build(events), events)
      ensures Holds(Build(events), v) ==> Replay(events, v)
      ensures !Tied(events) && Replay(events, v) ==> Holds(Build(events), v)
    {
      if events != [] {
        var n := |events| - 1;
        var front, e := events[..n], events[n];
        BuildReplays(front, v);
        assert events == front + [e];
        FollowsLast(events);
        assert Tied(front) ==> Tied(events) by {
          assert forall i :: 0 <= i < n ==> front[i] == events[i];
        }
        AddFromEvents(Build(front), front, e);
        if e.Opens() {
          AddOpens(Build(front), front, e, v);
        } else {
          AddCloses(Build(front), front, e, v);
        }
      }
    }

    // Event k introduces a range at the version of the last_affected event just before it, which
    // found no open interval, and no later event concerns the later version v.
    ghost predicate LostAt(events: seq<Event<V>>, k: nat, v: V)
    {
      && 0 < k < |events| && events[k].Opens() && events[k - 1].LastAffected? && cmp(events[k - 1].v, events[k].v) == 0
      && !Build(events[..k - 1]).open && StrictlyAfter(v, events[k])
      && forall j :: k < j < |events| ==> !TurnsOn(events[j], v) && !TurnsOff(events[j], v)
    }

    lemma PendingLastIs(events: seq<Event<V>>)
      requires events != []
      ensures var n, last := |events| - 1, Build(events).pendingLast;
              && (last.Some? <==> events[n].LastAffected? && !Build(events[..n]).open)
              && (last.Some? ==> last.value == events[n].v)
    {
    }

    predicate TieCloses(b: Builder<V>, e: Event<V>)
    {
      !b.open && b.pendingLast.Some? && cmp(b.pendingLast.value, e.v) == 0
    }

    lemma OpensHolds(b: Builder<V>, events: seq<Event<V>>, e: Event<V>, v: V)
      requires TotalPreorder() && FromEvents(b, events) && Follows(events, e) && TurnsOn(e, v)
      requires b.pendingLast.Some? ==> Follows(events, LastAffected(b.pendingLast.value))
      ensures Holds(Add(b, e), v) <==> !(TieCloses(b, e) && StrictlyAfter(v, e))
    {
      AddOpens(b, events, e, v);
      if TieCloses(b, e) {
        var last := b.pendingLast.value;
        assert Compare(LastAffected(last), e) <= 0;
        InUnionAppend(v, b.intervals, Interval(Some(e.v), UpTo(last)));
        if StrictlyAfter(v, e) {
          ClosedBefore(b, events, LastAffected(last), v);
        }
      }
    }

    lemma PendingFollows(events: seq<Event<V>>)
      requires TotalPreorder() && Sorted(events) && Build(events).pendingLast.Some?
      ensures Follows(events, LastAffected(Build(events).pendingLast.value))
    {
      var n := |events| - 1;
      PendingLastIs(events);
      FollowsLast(events);
      assert events == events[..n] + [events[n]];
    }

    lemma TieClosesIff(events: seq<Event<V>>)
      requires events != []
      ensures var n := |events| - 1;
              TieCloses(Build(events[..n]), events[n])
              <==> 0 < n && events[n - 1].LastAffected? && !Build(events[..n - 1]).open && cmp(events[n - 1].v, events[n].v) == 0
    {
      var n := |events| - 1;
      if 0 < n {
        PendingLastIs(events[..n]);
        assert events[..n][..n - 1] == events[..n - 1];
      }
    }

    // An event that turns v on leaves it out of the intervals exactly when the range is lost.
    lemma OpensLost(events: seq<Event<V>>, v: V)
      requires TotalPreorder() && Sorted(events) && events != [] && TurnsOn(events[|events| - 1], v)
      ensures Holds(Build(events), v) <==> !LostAt(events, |events| - 1, v)
    {
      var n := |events| - 1;
      var front := events[..n];
      BuildReplays(front, v);
      FollowsLast(events);
      if Build(front).pendingLast.Some? {
        PendingFollows(front);
      }
      OpensHolds(Build(front), front, events[n], v);
      TieClosesIff(events);
    }

    lemma AddIrrelevant(b: Builder<V>, events: seq<Event<V>>, e: Event<V>, v: V)
      requires TotalPreorder() && FromEvents(b, events) && Follows(events, e) && !TurnsOn(e, v) && !TurnsOff(e, v)
      ensures Holds(Add(b, e), v) <==> Holds(b, v)
    {
      if e.Opens() {
        AddOpens(b, events, e, v);
      } else {
        AddCloses(b, events, e, v);
      }
    }

    lemma LostPrefix(events: seq<Event<V>>, k: nat, v: V)
      requires events != [] && !TurnsOn(events[|events| - 1], v) && !TurnsOff(events[|events| - 1], v)
      ensures LostAt(events, k, v) <==> LostAt(events[..|events| - 1], k, v)
    {
      var front := events[..|events| - 1];
      if 0 < k < |front| {
        assert front[..k - 1] == events[..k - 1];
      }
      assert forall j :: 0 <= j < |front| ==> front[j] == events[j];
    }

    // The affected versions that the intervals of sorted events leave out are exactly the lost
    // ones.
    lemma {:induction false} LostExactly(events: seq<Event<V>>, v: V)
      requires TotalPreorder() && Sorted(events)
      ensures Replay(events, v) && !Holds(Build(events), v) <==> exists k: nat :: LostAt(events, k, v)
    {
      if events != [] {
        var n := |events| - 1;
        if TurnsOn(events[n], v) {
          OpensLost(events, v);
        } else if !TurnsOff(events[n], v) {
          LostExactly(events[..n], v);
          BuildReplays(events[..n], v);
          FollowsLast(events);
          AddIrrelevant(Build(events[..n]), events[..n], events[n], v);
          forall k: nat
            ensures LostAt(events, k, v) <==> LostAt(events[..n], k, v)
          {
            LostPrefix(events, k, v);
          }
        }
      }
    }

    lemma FinishHolds(b: Builder<V>, v: V)
      ensures InUnion(v, Finish(b)) <==> Holds(b, v)
    {
      if b.open {
        InUnionAppend(v, b.intervals, Interval(b.lower, Unbounded));
      }
    }

    /**
     The intervals of unsorted events: their union is exactly the affected versions when no
     version is both last affected and introduced, and never holds any other version. In general
     it leaves out exactly the versions after a range that is lost to such a tie.
     */
    lemma IntervalsAreAffected(events: seq<Event<V>>, v: V)
      requires TotalPreorder()
      ensures InUnion(v, Intervals(events)) ==> Affected(events, v)
      ensures !Tied(events) && Affected(events, v) ==> InUnion(v, Intervals(events))
      ensures Affected(events, v) <==> Replay(Sort(events), v)
      ensures Affected(events, v) && !InUnion(v, Intervals(events)) <==> exists k: nat :: LostAt(Sort(events), k, v)
    {
      var sorted := Sort(events);
      SortSorted(events);
      LostExactly(sorted, v);
      BuildReplays(sorted, v);
      FinishHolds(Build(sorted), v);
      ReplayIsAffected(sorted, v);
      if Affected(sorted, v) {
        AffectedIgnoresOrder(sorted, events, v);
      }
      if Affected(events, v) {
        AffectedIgnoresOrder(events, sorted, v);
      }
      if Tied(sorted) {
        var i, j :| 0 <= i < |sorted| && 0 <= j < |sorted| && sorted[i].LastAffected? && sorted[j].Opens() && cmp(sorted[i].v, sorted[j].v) == 0;
        assert sorted[i] in multiset(events) && sorted[j] in multiset(events);
      }
    }

    lemma TieIntervals(x: V)
      requires TotalPreorder()
      ensures Intervals([Introduced(x), LastAffected(x)]) == [Interval(Some(x), UpTo(x))]
    {
      var intro, last := [Introduced(x)], [LastAffected(x)];
      assert Sort(intro) == intro by {
        assert intro[..0] == [];
      }
      assert Sort(intro + last) == last + intro by {
        assert (intro + last)[..1] == intro && intro[..0] == [];
        assert Compare(Introduced(x), LastAffected(x)) > 0;
        assert Insert([], LastAffected(x)) == last;
        assert Insert(intro, LastAffected(x)) == last + intro;
      }
      assert Build(last) == Builder([], None, false, Some(x)) by {
        assert last[..0] == [];
      }
      assert Build(last + intro) == Add(Build(last), Introduced(x)) by {
        assert (last + intro)[..1] == last;
      }
      assert intro + last == [Introduced(x), LastAffected(x)];
    }

    /**
     A range introduced at its last affected version x yields the single version x, where the
     replay of the events goes on to deem every later version affected.
     */
    lemma TieIsSingleVersion(x: V, v: V)
      requires TotalPreorder()
      ensures InUnion(v, Intervals([Introduced(x), LastAffected(x)])) <==> cmp(v, x) == 0
      ensures Affected([Introduced(x), LastAffected(x)], v) <==> cmp(v, x) >= 0
    {
      hide Intervals;
      var events: seq<Event<V>> := [Introduced(x), LastAffected(x)];
      var interval := Interval(Some(x), UpTo(x));
      TieIntervals(x);
      assert InUnion(v, [interval]) <==> InInterval(v, interval) by {
        assert [interval][0] == interval;
      }
      if cmp(v, x) >= 0 {
        assert Starts(events, 0, v);
      }
    }
  }
}
