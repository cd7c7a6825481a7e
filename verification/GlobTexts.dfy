/**
 What the parts of a glob pattern mean as they are written: literals, escapes, stars, question
 marks and character classes.
 */
module GlobTexts {
  import opened Options
  import opened RegexFragment
  import opened Glob

  // ---------- Everything but classes ----------

  // The character stands for itself without a backslash.
  predicate Ordinary(c: char)
  {
    c !in "\\*?["
  }

  // One character, with the rest of the pattern for the rest of the text.
  predicate MatchesOne(matches: bool, p: string, t: string)
  {
    t != "" && matches && GlobMatch(p, t[1..])
  }

  /**
   An ordinary character matches itself, and so does any character after a backslash, and a backslash
   at the end. A question mark matches any character but the slash.
   */
  lemma CharactersMean(c: char, p: string, t: string)
    ensures Ordinary(c) ==> (GlobMatch([c] + p, t) <==> MatchesOne(t != "" && t[0] == c, p, t))
    ensures GlobMatch(['\\', c] + p, t) <==> MatchesOne(t != "" && t[0] == c, p, t)
    ensures GlobMatch(['\\'], t) <==> t == ['\\']
    ensures GlobMatch(['?'] + p, t) <==> MatchesOne(t != "" && t[0] != '/', p, t)
    ensures GlobMatch("", t) <==> t == ""
  {
    hide BracketEnd, InBracket;
    assert ([c] + p)[1..] == p && (['\\', c] + p)[2..] == p && (['?'] + p)[1..] == p;
  }

  // The pattern matches what is left of the text after k characters.
  predicate MatchesAfter(p: string, t: string, k: nat, slashes: bool)
  {
    k <= |t| && (slashes || '/' !in t[..k]) && GlobMatch(p, t[k..])
  }

  lemma {:induction false} StarStep(p: string, rest: string, t: string, slashes: bool)
    requires p != "" && NextToken(p) == (if slashes then DoubleStar else Star, rest)
    ensures GlobMatch(p, t) <==> exists k: nat :: MatchesAfter(rest, t, k, slashes)
    decreases |t|
  {
    hide NextToken, InBracket;
    assert t[0..] == t;
    if GlobMatch(rest, t) {
      assert MatchesAfter(rest, t, 0, slashes);
    }
    if t != "" {
      StarStep(p, rest, t[1..], slashes);
      if k: nat :| MatchesAfter(rest, t[1..], k, slashes) {
        assert t[k + 1..] == t[1..][k..] && t[..k + 1] == [t[0]] + t[1..][..k];
        assert slashes || t[0] != '/' ==> MatchesAfter(rest, t, k + 1, slashes);
      }
      if k: nat :| MatchesAfter(rest, t, k, slashes) && k > 0 {
        assert t[k..] == t[1..][k - 1..] && t[..k] == [t[0]] + t[1..][..k - 1];
        assert MatchesAfter(rest, t[1..], k - 1, slashes);
      }
    }
  }

  /**
   A star matches any characters but slashes, and two stars any characters.
   */
  lemma StarsMean(p: string, t: string)
    ensures p == "" || p[0] != '*' ==> (GlobMatch(['*'] + p, t) <==> exists k: nat :: MatchesAfter(p, t, k, false))
    ensures GlobMatch(['*', '*'] + p, t) <==> exists k: nat :: MatchesAfter(p, t, k, true)
  {
    hide GlobMatch;
    assert (['*'] + p)[1..] == p && (['*', '*'] + p)[2..] == p;
    if p == "" || p[0] != '*' {
      StarStep(['*'] + p, p, t, false);
    }
    StarStep(['*', '*'] + p, p, t, true);
  }

  // ---------- Classes ----------

  // A range from lo to hi, each written with a backslash or without.
  datatype Member = Member(lo: char, hi: char, escapedLo: bool, escapedHi: bool) {
    // Brackets, backslashes, dashes and negations need a backslash.
    predicate WellWritten()
    {
      (!escapedLo ==> lo !in "\\]-^!") && (!escapedHi ==> hi !in "\\]-^!") && (lo == hi ==> escapedLo == escapedHi)
    }

    // A single character is written once.
    function Elements(): seq<Elem>
    {
      if lo == hi then [Elem(lo, escapedLo)] else [Elem(lo, escapedLo), Elem('-', false), Elem(hi, escapedHi)]
    }
  }

  function ElementsOf(members: seq<Member>): seq<Elem>
  {
    if members == [] then [] else members[0].Elements() + ElementsOf(members[1..])
  }

  function Written(elems: seq<Elem>): string
  {
    if elems == [] then ""
    else (if elems[0].escaped then ['\\', elems[0].c] else [elems[0].c]) + Written(elems[1..])
  }

  // What is between the brackets, without the negation: a closing bracket may come first without a
  // backslash.
  datatype Body = Body(bracketFirst: bool, members: seq<Member>) {
    function Elements(): seq<Elem>
    {
      (if bracketFirst then [Elem(']', false)] else []) + ElementsOf(members)
    }

    predicate WellWritten()
    {
      (bracketFirst || members != []) && forall i :: 0 <= i < |members| ==> members[i].WellWritten()
    }

    predicate Has(c: char)
    {
      (bracketFirst && c == ']') || exists i :: 0 <= i < |members| && members[i].lo <= c <= members[i].hi
    }
  }

  function ClassText(negation: Option<char>, body: Body): string
  {
    "[" + (if negation.Some? then [negation.value] else "") + (if body.bracketFirst then "]" else "")
    + Written(ElementsOf(body.members)) + "]"
  }

  predicate WellWritten(members: seq<Member>)
  {
    forall i :: 0 <= i < |members| ==> members[i].WellWritten()
  }

  lemma {:induction false} ScanWritten(elems: seq<Elem>, rest: string)
    requires Plain(elems)
    ensures ScanEnd(Written(elems) + "]" + rest) == |Written(elems)|
    ensures ReadElems(Written(elems)) == elems
  {
    var text := Written(elems) + "]" + rest;
    if elems == [] {
      assert text[0] == ']';
    } else {
      var tail := elems[1..];
      ScanWritten(tail, rest);
      var n := if elems[0].escaped then 2 else 1;
      assert Written(elems)[n..] == Written(tail) && text[n..] == Written(tail) + "]" + rest;
      assert elems == [elems[0]] + tail;
    }
  }

  lemma {:induction false} MembersPlain(members: seq<Member>)
    requires WellWritten(members)
    ensures Plain(ElementsOf(members))
    ensures members != [] ==> var elems := ElementsOf(members); elems != [] && (elems[0].escaped || elems[0].c !in "\\]-^!")
    ensures members == [] ==> ElementsOf(members) == []
  {
    if members != [] {
      MembersPlain(members[1..]);
      assert Plain(members[0].Elements());
    }
  }

  predicate SameRanges(ranges: seq<Range>, members: seq<Member>)
  {
    |ranges| == |members| && forall i :: 0 <= i < |members| ==> ranges[i] == (members[i].lo, members[i].hi)
  }

  lemma {:induction false} MembersRead(members: seq<Member>)
    requires WellWritten(members)
    ensures SameRanges(Ranges(ElementsOf(members)), members)
  {
    if members != [] {
      var m, rest := members[0], members[1..];
      MembersRead(rest);
      MembersPlain(rest);
      var elems := ElementsOf(members);
      if m.lo == m.hi {
        assert elems[1..] == ElementsOf(rest);
        assert |elems| >= 2 ==> elems[1] == ElementsOf(rest)[0];
      } else {
        assert elems[3..] == ElementsOf(rest) && elems[1] == Elem('-', false);
      }
    }
  }

  lemma BodyRanges(body: Body)
    requires body.WellWritten()
    ensures Ranges(body.Elements()) == (if body.bracketFirst then [(']', ']')] else []) + Ranges(ElementsOf(body.members))
  {
    hide ElementsOf;
    MembersPlain(body.members);
    var own, elems := ElementsOf(body.members), body.Elements();
    if body.bracketFirst {
      assert elems[1..] == own && (|elems| >= 2 ==> elems[1] == own[0]);
    } else {
      assert elems == own;
    }
  }

  lemma InSameRanges(ranges: seq<Range>, members: seq<Member>, c: char)
    requires SameRanges(ranges, members)
    ensures InRanges(ranges, c) <==> exists i :: 0 <= i < |members| && members[i].lo <= c <= members[i].hi
  {
    assert forall i :: 0 <= i < |members| ==> ranges[i] == (members[i].lo, members[i].hi);
  }

  lemma InMoreRanges(range: Range, ranges: seq<Range>, c: char)
    ensures InRanges([range] + ranges, c) <==> range.0 <= c <= range.1 || InRanges(ranges, c)
  {
    var all := [range] + ranges;
    assert all[0] == range && forall i :: 0 <= i < |ranges| ==> all[i + 1] == ranges[i];
    if InRanges(all, c) {
      var k :| 0 <= k < |all| && all[k].0 <= c <= all[k].1;
      assert k > 0 ==> all[k] == ranges[k - 1];
    }
  }

  lemma RangesAreMembers(body: Body, c: char)
    requires body.WellWritten()
    ensures InRanges(Ranges(body.Elements()), c) <==> body.Has(c)
  {
    hide Ranges, ElementsOf, InRanges, Body.Elements;
    var own := Ranges(ElementsOf(body.members));
    MembersRead(body.members);
    InSameRanges(own, body.members, c);
    BodyRanges(body);
    InMoreRanges((']', ']'), own, c);
    assert [] + own == own;
  }

  lemma WrittenStarts(elems: seq<Elem>)
    requires elems != [] && (elems[0].escaped || elems[0].c !in "\\]-^!")
    ensures Written(elems) != "" && Written(elems)[0] != ']' && !IsNegation(Written(elems)[0])
  {
  }

  // Where the members begin: behind the bracket, the negation and a bracket that comes first.
  function Start(negation: Option<char>, body: Body): nat
  {
    1 + (if negation.Some? then 1 else 0) + (if body.bracketFirst then 1 else 0)
  }

  // The parts of a class in front of the rest of the pattern.
  lemma ClassParts(negation: Option<char>, body: Body, p: string)
    requires body.WellWritten() && (negation.Some? ==> IsNegation(negation.value))
    ensures var text, written := ClassText(negation, body), Written(ElementsOf(body.members));
            var all, n := text + p, Start(negation, body);
            && |text| == n + |written| + 1 && all[..|text|] == text && all[|text|..] == p
            && all[0] == '[' && all[n..] == written + "]" + p
            && (if negation.Some? then all[1] == negation.value else !IsNegation(all[1]))
            && (body.bracketFirst ==> all[n - 1] == ']')
            && (!body.bracketFirst ==> all[n] != ']')
  {
    hide ElementsOf, Written;
    var elems := ElementsOf(body.members);
    MembersPlain(body.members);
    if elems != [] {
      WrittenStarts(elems);
    }
    var written, text := Written(elems), ClassText(negation, body);
    var all, n := text + p, Start(negation, body);
    assert all == text[..n] + (written + "]" + p);
    assert written != "" ==> all[n] == written[0];
  }

  lemma ReadsBracketFirst(written: string)
    ensures ReadElems("]" + written) == [Elem(']', false)] + ReadElems(written)
  {
    assert ("]" + written)[1..] == written;
  }

  // A class is one token, whose members are the written ones.
  lemma ClassReads(negation: Option<char>, body: Body, p: string)
    requires body.WellWritten() && (negation.Some? ==> IsNegation(negation.value))
    ensures var text := ClassText(negation, body);
            && NextToken(text + p) == (Bracket(text), p)
            && |text| >= 2 && IsNegated(text) == negation.Some? && Elems(text) == body.Elements()
  {
    hide ElementsOf, Written, ScanEnd, ReadElems, ClassText;
    var written, text := Written(ElementsOf(body.members)), ClassText(negation, body);
    MembersPlain(body.members);
    ScanWritten(ElementsOf(body.members), p);
    ClassParts(negation, body, p);
    var all, n := text + p, Start(negation, body);
    assert Opening(all) == n && BracketEnd(all) == |text| - 1;
    ClassParts(negation, body, "");
    assert text + "" == text;
    assert |text| == 2 + (if negation.Some? then 1 else 0) ==> written == "" && !body.bracketFirst;
    NotEmptyBody(body);
    var m := if negation.Some? then 2 else 1;
    ReadsBracketFirst(written);
    ClassInner(negation, body);
  }

  lemma ClassInner(negation: Option<char>, body: Body)
    ensures var text, written, m := ClassText(negation, body), Written(ElementsOf(body.members)), if negation.Some? then 2 else 1;
            m <= |text| - 1 && text[m..|text| - 1] == if body.bracketFirst then "]" + written else written
  {
    hide Written, ElementsOf;
    var text, written := ClassText(negation, body), Written(ElementsOf(body.members));
    var inner := if body.bracketFirst then "]" + written else written;
    assert text == (if negation.Some? then ['[', negation.value] else ['[']) + inner + "]";
  }

  lemma NotEmptyBody(body: Body)
    requires body.WellWritten()
    ensures body.bracketFirst || Written(ElementsOf(body.members)) != ""
  {
    MembersPlain(body.members);
  }

  /**
   A class matches one character that is one of its members, and a negated class, with either sign,
   one that is neither a member nor the slash. A closing bracket that comes first is a member.
   */
  lemma ClassesMean(negation: Option<char>, body: Body, p: string, t: string)
    requires body.WellWritten() && (negation.Some? ==> IsNegation(negation.value))
    ensures GlobMatch(ClassText(negation, body) + p, t) <==>
              MatchesOne(t != "" && if negation.Some? then t[0] != '/' && !body.Has(t[0]) else body.Has(t[0]), p, t)
  {
    hide NextToken, Ranges, Elems, ClassText, Body.Elements, Body.WellWritten;
    ClassReads(negation, body, p);
    if t != "" {
      RangesAreMembers(body, t[0]);
    }
    assert ClassText(negation, body) + p != "";
  }

  /**
   A bracket without a closing one stands for itself.
   */
  lemma UnclosedMeans(p: string, t: string)
    requires ']' !in p
    ensures GlobMatch(['['] + p, t) <==> MatchesOne(t != "" && t[0] == '[', p, t)
  {
    hide InBracket;
    var all := ['['] + p;
    assert all[1..] == p;
    assert forall i :: 1 <= i < |all| ==> all[i] == p[i - 1];
  }
}
