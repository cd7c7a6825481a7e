/**
 Glob patterns and their translation to regular expressions. The reference is a matcher that
 reads the pattern directly; the translation is proved to accept the same texts.
 */
module Glob {
  import opened Options
  import opened RegexFragment

  // ---------- Reading a pattern ----------

  datatype Token =
    | Char(c: char)
    | Star             // any characters but the slash
    | DoubleStar       // any characters
    | AnyChar          // one character but the slash
    | Bracket(text: string)  // a class, with its brackets

  predicate IsNegation(c: char)
  {
    c == '^' || c == '!'
  }

  // The position of the first bracket that is not escaped, or -1.
  function ScanEnd(s: string): (e: int)
    ensures -1 <= e < |s|
    ensures e >= 0 ==> s[e] == ']'
  {
    if s == "" then -1
    else if s[0] == '\\' && |s| >= 2 then
      var e := ScanEnd(s[2..]);
      if e < 0 then -1 else e + 2
    else if s[0] == ']' then 0
    else
      var e := ScanEnd(s[1..]);
      if e < 0 then -1 else e + 1
  }

  // The number of characters behind the opening bracket that cannot close the class: a negation
  // and a bracket that comes first.
  function Opening(p: string): (n: nat)
    requires p != ""
    ensures 1 <= n <= |p|
  {
    var n := if |p| > 1 && IsNegation(p[1]) then 2 else 1;
    if n < |p| && p[n] == ']' then n + 1 else n
  }

  // The position of the bracket that closes the class opened by p[0], or -1.
  function BracketEnd(p: string): (e: int)
    requires p != ""
    ensures -1 <= e < |p|
    ensures e >= 0 ==> Opening(p) <= e && p[e] == ']'
  {
    var e := ScanEnd(p[Opening(p)..]);
    if e < 0 then -1 else Opening(p) + e
  }

  function NextToken(p: string): (r: (Token, string))
    requires p != ""
    ensures |r.1| < |p|
  {
    if p[0] == '\\' then (if |p| >= 2 then (Char(p[1]), p[2..]) else (Char('\\'), ""))
    else if p[0] == '*' then (if |p| >= 2 && p[1] == '*' then (DoubleStar, p[2..]) else (Star, p[1..]))
    else if p[0] == '?' then (AnyChar, p[1..])
    else if p[0] == '[' then
      var e := BracketEnd(p);
      if e < 0 then (Char('['), p[1..]) else (Bracket(p[..e + 1]), p[e + 1..])
    else (Char(p[0]), p[1..])
  }

  function Tokens(p: string): (tokens: seq<Token>)
    decreases |p|
  {
    if p == "" then [] else var (token, rest) := NextToken(p); [token] + Tokens(rest)
  }

  // ---------- Reading a class ----------

  datatype Elem = Elem(c: char, escaped: bool)

  function ReadElems(body: string): (elems: seq<Elem>)
  {
    if body == "" then []
    else if body[0] == '\\' && |body| >= 2 then [Elem(body[1], true)] + ReadElems(body[2..])
    else [Elem(body[0], false)] + ReadElems(body[1..])
  }

  predicate IsNegated(text: string)
  {
    |text| > 2 && IsNegation(text[1])
  }

  // The members of a class as written, without its brackets and its negation.
  function Elems(text: string): (elems: seq<Elem>)
    requires |text| >= 2
  {
    ReadElems(text[if IsNegated(text) then 2 else 1..|text| - 1])
  }

  // A member followed by an unescaped dash and another member is a range.
  predicate StartsRange(elems: seq<Elem>)
  {
    |elems| >= 3 && elems[1] == Elem('-', false)
  }

  function Ranges(elems: seq<Elem>): (r: seq<Range>)
  {
    if elems == [] then []
    else if StartsRange(elems) then [(elems[0].c, elems[2].c)] + Ranges(elems[3..])
    else [(elems[0].c, elems[0].c)] + Ranges(elems[1..])
  }

  // A negated class does not match the slash.
  predicate InBracket(text: string, c: char)
    requires |text| >= 2
  {
    if IsNegated(text) then c != '/' && !InRanges(Ranges(Elems(text)), c) else InRanges(Ranges(Elems(text)), c)
  }

  // ---------- Matching ----------

  // The whole text matches the pattern.
  predicate GlobMatch(p: string, t: string)
    decreases |p|, |t|
  {
    if p == "" then t == ""
    else
      var (token, rest) := NextToken(p);
      match token
      case Char(c) => t != "" && t[0] == c && GlobMatch(rest, t[1..])
      case Star => GlobMatch(rest, t) || (t != "" && t[0] != '/' && GlobMatch(p, t[1..]))
      case DoubleStar => GlobMatch(rest, t) || (t != "" && GlobMatch(p, t[1..]))
      case AnyChar => t != "" && t[0] != '/' && GlobMatch(rest, t[1..])
      case Bracket(text) => t != "" && InBracket(text, t[0]) && GlobMatch(rest, t[1..])
  }

  // ---------- Translation ----------

  function EmitElem(e: Elem): (s: string)
    ensures s != ""
  {
    if e.escaped && e.c in "\\]-^" then ['\\', e.c] else [e.c]
  }

  function EmitElems(elems: seq<Elem>): string
  {
    if elems == [] then "" else EmitElem(elems[0]) + EmitElems(elems[1..])
  }

  // A bracket that comes first is a member, and so is a dash that comes first in a negated
  // class, where it follows the inserted slash.
  function EscapeFirst(elems: seq<Elem>, negated: bool): (r: seq<Elem>)
    ensures |r| == |elems|
  {
    if elems != [] && !elems[0].escaped && (elems[0].c == ']' || (negated && elems[0].c == '-'))
    then [Elem(elems[0].c, true)] + elems[1..]
    else elems
  }

  function EmitBracket(text: string): string
    requires |text| >= 2
  {
    "[" + (if IsNegated(text) then "^/" else "") + EmitElems(EscapeFirst(Elems(text), IsNegated(text))) + "]"
  }

  function QuoteAll(s: string): string
  {
    if s == "" then "" else QuoteMeta(s[0]) + QuoteAll(s[1..])
  }

  function Emit(token: Token): string
  {
    match token
    case Char(c) => QuoteMeta(c)
    case Star => "[^/]*"
    case DoubleStar => ".*"
    case AnyChar => "[^/]"
    case Bracket(text) => if |text| >= 2 && ClassCompiles(EmitBracket(text)) then EmitBracket(text) else QuoteAll(text)
  }

  function EmitAll(tokens: seq<Token>): string
  {
    if tokens == [] then "" else Emit(tokens[0]) + EmitAll(tokens[1..])
  }

  // Every class of the pattern compiles.
  predicate Validates(p: string)
  {
    forall i :: 0 <= i < |Tokens(p)| && Tokens(p)[i].Bracket? ==>
      |Tokens(p)[i].text| >= 2 && ClassCompiles(EmitBracket(Tokens(p)[i].text))
  }

  // ---------- Well-formed classes ----------

  // Members that cannot be mistaken for the end of the class or for an escape.
  predicate Plain(elems: seq<Elem>)
  {
    forall i :: 0 <= i < |elems| && !elems[i].escaped ==> elems[i].c != ']' && elems[i].c != '\\'
  }

  lemma {:induction false} ScanPlain(s: string)
    requires ScanEnd(s) >= 0
    ensures Plain(ReadElems(s[..ScanEnd(s)]))
  {
    var e := ScanEnd(s);
    if s[0] == '\\' && |s| >= 2 {
      ScanPlain(s[2..]);
      assert s[..e][2..] == s[2..][..e - 2];
    } else if s[0] != ']' {
      ScanPlain(s[1..]);
      assert s[..e][1..] == s[1..][..e - 1];
    }
  }

  // The members that a class in a pattern has.
  predicate WellFormed(text: string)
  {
    && |text| >= 3 && text[0] == '[' && text[|text| - 1] == ']' && Elems(text) != []
    && Plain(EscapeFirst(Elems(text), IsNegated(text)))
    && (!IsNegated(text) ==> Elems(text)[0].escaped || !IsNegation(Elems(text)[0].c))
  }

  lemma Slices(p: string, n: nat, e: nat)
    requires n <= e < |p|
    ensures p[n..][..e - n] == p[n..e] && p[..e + 1][n..e] == p[n..e]
    ensures n < e ==> p[n..e][1..] == p[n + 1..e]
  {
  }

  // The brackets, the negation and the members of a class in a pattern.
  lemma BracketElems(p: string)
    requires p != "" && p[0] == '[' && BracketEnd(p) >= 0
    ensures var e := BracketEnd(p);
            var text := p[..e + 1];
            && |text| >= 3 && text[0] == '[' && text[|text| - 1] == ']'
            && (IsNegated(text) <==> IsNegation(p[1]))
            && Elems(text) == ReadElems(p[if IsNegation(p[1]) then 2 else 1..e])
  {
    hide ReadElems, ScanEnd;
    Slices(p, if IsNegation(p[1]) then 2 else 1, BracketEnd(p));
  }

  lemma FirstElem(body: string)
    requires body != ""
    ensures ReadElems(body) != []
    ensures body[0] != '\\' ==> ReadElems(body) == [Elem(body[0], false)] + ReadElems(body[1..])
    ensures ReadElems(body)[0].escaped || ReadElems(body)[0].c == body[0]
  {
  }

  lemma PlainEscaped(elems: seq<Elem>, negated: bool)
    requires elems != [] && (Plain(elems) || (elems[0] == Elem(']', false) && Plain(elems[1..])))
    ensures Plain(EscapeFirst(elems, negated))
  {
    var r := EscapeFirst(elems, negated);
    assert forall i :: 1 <= i < |r| ==> r[i] == elems[i] == elems[1..][i - 1];
  }

  lemma BracketWellFormed(p: string)
    requires p != "" && p[0] == '[' && BracketEnd(p) >= 0
    ensures WellFormed(p[..BracketEnd(p) + 1])
  {
    hide ReadElems, Elems, ScanEnd, EscapeFirst, Plain;
    var n, e := Opening(p), BracketEnd(p);
    var start := if IsNegation(p[1]) then 2 else 1;
    BracketElems(p);
    ScanPlain(p[n..]);
    Slices(p, n, e);
    Slices(p, start, e);
    assert start < e;
    FirstElem(p[start..e]);
    PlainEscaped(ReadElems(p[start..e]), IsNegation(p[1]));
  }

  // ---------- Parsing an emitted class ----------

  predicate Ordered(ranges: seq<Range>)
  {
    forall i :: 0 <= i < |ranges| ==> ranges[i].0 <= ranges[i].1
  }

  // Some member starts with "[:", and ":]" follows in the emitted text, which ends in rest.
  predicate PosixIn(elems: seq<Elem>, rest: string)
  {
    elems != [] && (
      || (|elems| >= 2 && elems[0].c == '[' && elems[1].c == ':' && EndsName(EmitElems(elems[2..]) + rest))
      || PosixIn(if StartsRange(elems) then elems[3..] else elems[1..], rest))
  }

  lemma EmitFront(elems: seq<Elem>, rest: string)
    requires elems != []
    ensures EmitElems(elems) + rest == EmitElem(elems[0]) + (EmitElems(elems[1..]) + rest)
  {
  }

  // The parser reads an emitted member back.
  lemma ParseEmittedChar(elems: seq<Elem>, rest: string)
    requires elems != [] && Plain(elems)
    ensures ParseClassChar(EmitElems(elems) + rest) == Some((elems[0].c, EmitElems(elems[1..]) + rest))
    ensures (EmitElems(elems) + rest)[0] != ']'
    ensures (EmitElems(elems) + rest)[0] == '-' <==> elems[0] == Elem('-', false)
    ensures (EmitElems(elems) + rest)[0] == '^' <==> elems[0] == Elem('^', false)
    ensures (EmitElems(elems) + rest)[0] == '[' <==> elems[0].c == '['
    ensures (EmitElems(elems) + rest)[0] == ':' <==> elems[0].c == ':'
    ensures elems[0].c == '[' || elems[0].c == ':' ==> (EmitElems(elems) + rest)[1..] == EmitElems(elems[1..]) + rest
  {
    EmitFront(elems, rest);
    var t := EmitElem(elems[0]) + (EmitElems(elems[1..]) + rest);
    assert t[|EmitElem(elems[0])|..] == EmitElems(elems[1..]) + rest;
  }

  lemma PosixOpensEmitted(elems: seq<Elem>, rest: string)
    requires elems != [] && Plain(elems) && rest != "" && rest[0] == ']'
    ensures PosixOpens(EmitElems(elems) + rest)
        <==> |elems| >= 2 && elems[0].c == '[' && elems[1].c == ':' && EndsName(EmitElems(elems[2..]) + rest)
  {
    var t := EmitElems(elems) + rest;
    ParseEmittedChar(elems, rest);
    if elems[0].c == '[' {
      if |elems| >= 2 {
        ParseEmittedChar(elems[1..], rest);
        if elems[1].c == ':' {
          assert t[2..] == t[1..][1..];
          assert elems[1..][1..] == elems[2..];
        }
      } else {
        assert EmitElems(elems[1..]) + rest == rest;
      }
    }
  }

  lemma RangeEmitted(elems: seq<Elem>, rest: string)
    requires elems != [] && Plain(elems) && rest != "" && rest[0] == ']'
    ensures var t := EmitElems(elems[1..]) + rest;
            (|t| >= 2 && t[0] == '-' && t[1] != ']') <==> StartsRange(elems)
    ensures StartsRange(elems) ==> (EmitElems(elems[1..]) + rest)[1..] == EmitElems(elems[2..]) + rest
  {
    var t := EmitElems(elems[1..]) + rest;
    if |elems| >= 2 {
      ParseEmittedChar(elems[1..], rest);
      if elems[1] == Elem('-', false) {
        EmitFront(elems[1..], rest);
        assert elems[1..][1..] == elems[2..];
        assert t[1..] == EmitElems(elems[2..]) + rest;
        if |elems| >= 3 {
          ParseEmittedChar(elems[2..], rest);
        } else {
          assert EmitElems(elems[2..]) + rest == rest;
        }
      }
    } else {
      assert t == rest;
    }
  }

  /**
   Parsing the emitted members of a class gives their ranges, unless a range is reversed or the
   text looks like a POSIX named class.
   */
  lemma {:induction false} ParseEmitted(elems: seq<Elem>, rest: string, first: bool)
    requires Plain(elems) && rest != "" && rest[0] == ']' && (elems == [] ==> !first)
    ensures ParseMembers(EmitElems(elems) + rest, first)
         == if Ordered(Ranges(elems)) && !PosixIn(elems, rest) then Some((Ranges(elems), rest[1..])) else None
    decreases |elems|
  {
    hide Escapable, EndsName, EmitElem, IsMeta;
    if elems == [] {
      assert EmitElems(elems) + rest == rest;
    } else {
      ParseEmittedChar(elems, rest);
      PosixOpensEmitted(elems, rest);
      RangeEmitted(elems, rest);
      var size := if StartsRange(elems) then 3 else 1;
      if size == 3 {
        ParseEmittedChar(elems[2..], rest);
        assert elems[2..][1..] == elems[3..];
      }
      ParseEmitted(elems[size..], rest, false);
      RangesOrdered(elems);
    }
  }

  lemma RangesOrdered(elems: seq<Elem>)
    requires elems != []
    ensures var size := if StartsRange(elems) then 3 else 1;
            Ordered(Ranges(elems)) <==> elems[0].c <= elems[size - 1].c && Ordered(Ranges(elems[size..]))
  {
    var size := if StartsRange(elems) then 3 else 1;
    var tail := Ranges(elems[size..]);
    assert Ranges(elems) == [(elems[0].c, elems[size - 1].c)] + tail;
    var all := Ranges(elems);
    assert all[0] == (elems[0].c, elems[size - 1].c);
    assert forall i :: 0 <= i < |tail| ==> all[i + 1] == tail[i];
    assert forall i :: 0 < i < |all| ==> all[i] == tail[i - 1];
  }

  // ---------- The emitted class as a whole ----------

  lemma EscapeFirstKeepsRanges(elems: seq<Elem>, negated: bool)
    ensures Ranges(EscapeFirst(elems, negated)) == Ranges(elems)
  {
    if elems != [] {
      var r := EscapeFirst(elems, negated);
      assert r[1..] == elems[1..];
      if |elems| >= 3 {
        assert r[3..] == elems[3..];
      }
    }
  }

  function BracketItem(text: string): Item
    requires |text| >= 2
  {
    var ranges := Ranges(Elems(text));
    Item(Class(IsNegated(text), if IsNegated(text) then [('/', '/')] + ranges else ranges), false)
  }

  // The members that the emitted class has.
  function Emitted(text: string): seq<Elem>
    requires |text| >= 2
  {
    var elems := EscapeFirst(Elems(text), IsNegated(text));
    if IsNegated(text) then [Elem('/', false)] + elems else elems
  }

  // A slash in front is emitted as it is, and is a member of its own.
  lemma SlashInFront(elems: seq<Elem>)
    requires Plain(elems) && (elems != [] && !elems[0].escaped ==> elems[0].c != '-')
    ensures Plain([Elem('/', false)] + elems) && Ranges([Elem('/', false)] + elems) == [('/', '/')] + Ranges(elems)
    ensures EmitElems([Elem('/', false)] + elems) == "/" + EmitElems(elems)
  {
    var r := [Elem('/', false)] + elems;
    assert r[1..] == elems;
    hide Ranges, EmitElems;
    assert Plain(r);
    assert Ranges(r) == [('/', '/')] + Ranges(elems) by { SlashRange(elems); }
    assert EmitElems(r) == "/" + EmitElems(elems) by { SlashEmitted(elems); }
  }

  lemma SlashRange(elems: seq<Elem>)
    requires elems != [] && !elems[0].escaped ==> elems[0].c != '-'
    ensures Ranges([Elem('/', false)] + elems) == [('/', '/')] + Ranges(elems)
  {
    var r := [Elem('/', false)] + elems;
    assert r[1..] == elems && !StartsRange(r);
  }

  lemma SlashEmitted(elems: seq<Elem>)
    ensures EmitElems([Elem('/', false)] + elems) == "/" + EmitElems(elems)
  {
    var r := [Elem('/', false)] + elems;
    assert r[1..] == elems;
  }

  lemma SlashRegrouped(rest: string)
    ensures "[" + "^/" + rest == "[" + "^" + ("/" + rest)
  {
  }

  lemma EmittedRanges(text: string)
    requires WellFormed(text)
    ensures Plain(Emitted(text)) && Ranges(Emitted(text)) == BracketItem(text).chars.ranges
    ensures EmitBracket(text) == "[" + (if IsNegated(text) then "^" else "") + EmitElems(Emitted(text)) + "]"
  {
    hide Elems, Ranges, EmitElems, Plain;
    var elems := EscapeFirst(Elems(text), IsNegated(text));
    EscapeFirstKeepsRanges(Elems(text), IsNegated(text));
    if IsNegated(text) {
      SlashInFront(elems);
      SlashRegrouped(EmitElems(elems));
    }
  }

  lemma EmitBracketText(text: string, rest: string)
    requires WellFormed(text)
    ensures EmitBracket(text) + rest != "" && (EmitBracket(text) + rest)[0] == '['
    ensures (EmitBracket(text) + rest)[1..]
         == (if IsNegated(text) then "^" else "") + (EmitElems(Emitted(text)) + ("]" + rest))
  {
    hide Elems, EscapeFirst, EmitElem, EmitElems, Emitted, EmitBracket, WellFormed, BracketItem, Plain;
    EmittedRanges(text);
  }

  lemma ParseClassBody(negated: bool, body: string)
    requires body != "" && body[0] != '^'
    ensures ParseClass((if negated then "^" else "") + body)
         == match ParseMembers(body, true)
            case None => None
            case Some((ranges, rest)) => Some((Class(negated, ranges), rest))
  {
    hide ParseMembers;
    var t := (if negated then "^" else "") + body;
    assert (if negated then t[1..] else t) == body;
  }

  // The class parser reads the emitted class back, unless a range is reversed or the text looks
  // like a POSIX named class.
  lemma ParseEmittedBracket(text: string, rest: string)
    requires WellFormed(text)
    ensures EmitBracket(text) + rest != "" && (EmitBracket(text) + rest)[0] == '['
    ensures ParseClass((EmitBracket(text) + rest)[1..])
         == if Ordered(BracketItem(text).chars.ranges) && !PosixIn(Emitted(text), "]" + rest)
            then Some((BracketItem(text).chars, rest)) else None
  {
    hide EmitElem, EmitElems, Emitted, EmitBracket, PosixIn, Ordered, Ranges, ParseMembers, ParseClass, Plain;
    EmitBracketText(text, rest);
    EmittedRanges(text);
    FirstEmitted(text, "]" + rest);
    ParseClassBody(IsNegated(text), EmitElems(Emitted(text)) + ("]" + rest));
    ParseEmitted(Emitted(text), "]" + rest, true);
    assert ("]" + rest)[1..] == rest;
  }

  lemma FirstEmitted(text: string, rest: string)
    requires WellFormed(text)
    ensures Emitted(text) != [] && Plain(Emitted(text))
    ensures var t := EmitElems(Emitted(text)) + rest; t != "" && t[0] != '^'
  {
    EmittedRanges(text);
    ParseEmittedChar(Emitted(text), rest);
  }

  // ---------- The expression as a whole ----------

  const NOT_SLASH: CharSet := Class(true, [('/', '/')])

  function TokenItem(token: Token): Item
    requires token.Bracket? ==> |token.text| >= 2
  {
    match token
    case Char(c) => Item(Lit(c), false)
    case Star => Item(NOT_SLASH, true)
    case DoubleStar => Item(Dot, true)
    case AnyChar => Item(NOT_SLASH, false)
    case Bracket(text) => BracketItem(text)
  }

  predicate Good(token: Token)
  {
    token.Bracket? ==> WellFormed(token.text) && ClassCompiles(EmitBracket(token.text))
  }

  predicate AllGood(tokens: seq<Token>)
  {
    forall i :: 0 <= i < |tokens| ==> Good(tokens[i])
  }

  function Items(tokens: seq<Token>): (items: seq<Item>)
    requires AllGood(tokens)
  {
    if tokens == [] then [] else [TokenItem(tokens[0])] + Items(tokens[1..])
  }

  // The text of a class with what follows it looks like a POSIX named class.
  predicate Spans(tokens: seq<Token>)
    requires AllGood(tokens)
  {
    tokens != [] && (
      || (tokens[0].Bracket? && PosixIn(Emitted(tokens[0].text), "]" + EmitAll(tokens[1..])))
      || Spans(tokens[1..]))
  }

  lemma GoodIffCompiles(text: string)
    requires WellFormed(text)
    ensures ClassCompiles(EmitBracket(text)) <==> Ordered(BracketItem(text).chars.ranges) && !PosixIn(Emitted(text), "]")
  {
    hide PosixIn, Ordered, Ranges, ParseMembers, ParseClass, EmitBracket, Emitted, Plain, BracketItem;
    ParseEmittedBracket(text, "");
    assert EmitBracket(text) + "" == EmitBracket(text) && "]" + "" == "]";
  }

  // No emitted token starts with a star, which would apply to the one before it, or with a
  // closing bracket.
  lemma EmitStart(tokens: seq<Token>)
    requires AllGood(tokens)
    ensures tokens != [] ==> EmitAll(tokens) != ""
    ensures EmitAll(tokens) != "" ==> EmitAll(tokens)[0] != '*' && EmitAll(tokens)[0] != ']'
  {
    hide PosixIn, Ranges, ParseMembers, ParseClass, Plain, ClassCompiles;
    if tokens != [] {
      assert Good(tokens[0]);
      assert EmitAll(tokens) == Emit(tokens[0]) + EmitAll(tokens[1..]);
    }
  }

  lemma NotSlashParses(rest: string)
    ensures ParseAtom("[^/]" + rest) == Some((NOT_SLASH, rest))
  {
    hide EndsName;
    var s := "[^/]" + rest;
    assert s[1..] == "^/]" + rest && s[1..][1..] == "/]" + rest;
    assert ("/]" + rest)[1..] == "]" + rest && ("]" + rest)[1..] == rest;
    assert ParseMembers("]" + rest, false) == Some(([], rest));
    assert ParseClassChar("/]" + rest) == Some(('/', "]" + rest));
    var slash: seq<Range>, none: seq<Range> := [('/', '/')], [];
    assert slash + none == slash;
    assert ParseMembers("/]" + rest, true) == Some(([('/', '/')], rest));
  }

  lemma CharParses(c: char, rest: string)
    ensures ParseAtom(QuoteMeta(c) + rest) == Some((Lit(c), rest))
  {
    var s := QuoteMeta(c) + rest;
    assert s[|QuoteMeta(c)|..] == rest;
  }

  // One token: its item, and the parser goes on behind it.
  lemma TokenParses(token: Token, rest: string)
    requires Good(token) && (rest != "" ==> rest[0] != '*')
    ensures Emit(token) + rest != ""
    ensures var r := ParseAtom(Emit(token) + rest);
            if token.Bracket? && PosixIn(Emitted(token.text), "]" + rest) then r == None
            else r == Some((TokenItem(token).chars, if TokenItem(token).star then "*" + rest else rest))
  {
    hide PosixIn, Ordered, Ranges, ParseMembers, ParseClass, EmitBracket, Emitted, Plain, ClassCompiles, IsMeta, Escapable;
    match token
    case Char(c) => CharParses(c, rest);
    case Star =>
      NotSlashParses("*" + rest);
      assert "[^/]*" + rest == "[^/]" + ("*" + rest);
    case DoubleStar => assert (".*" + rest)[1..] == "*" + rest;
    case AnyChar => NotSlashParses(rest);
    case Bracket(text) =>
      assert |text| >= 2;
      GoodIffCompiles(text);
      ParseEmittedBracket(text, rest);
  }

  /**
   Parsing a translated pattern gives the items of its tokens, unless its text looks like a
   POSIX named class.
   */
  lemma {:induction false} ParseEmitAll(tokens: seq<Token>)
    requires AllGood(tokens)
    ensures ParseRegex(EmitAll(tokens)) == if Spans(tokens) then None else Some(Items(tokens))
  {
    hide PosixIn, ParseAtom, Emit, Emitted, WellFormed, TokenItem, Good;
    if tokens != [] {
      var rest := EmitAll(tokens[1..]);
      EmitStart(tokens[1..]);
      TokenParses(tokens[0], rest);
      ParseEmitAll(tokens[1..]);
      assert ("*" + rest)[1..] == rest;
    }
  }

  // ---------- When the expression compiles ----------

  // Some member of the class, or start of a range, is "[" followed by ":".
  predicate OpensName(elems: seq<Elem>)
  {
    elems != [] && (
      || (|elems| >= 2 && elems[0].c == '[' && elems[1].c == ':')
      || OpensName(if StartsRange(elems) then elems[3..] else elems[1..]))
  }

  // The last member of the class is ":".
  predicate ClosesName(elems: seq<Elem>)
  {
    elems != [] && elems[|elems| - 1].c == ':'
  }

  lemma {:induction false} EndsNameAppend(a: string, b: string)
    ensures EndsName(a + b) <==>
              EndsName(a) || EndsName(b) || (a != "" && b != "" && a[|a| - 1] == ':' && b[0] == ']')
    decreases |a|
  {
    if a == "" {
      assert a + b == b;
    } else {
      EndsNameAppend(a[1..], b);
      assert (a + b)[1..] == a[1..] + b;
    }
  }

  // Emitted members hold no ":]", and end in a colon exactly when the last one is a colon.
  lemma {:induction false} EmitElemsEndsName(elems: seq<Elem>)
    requires Plain(elems)
    ensures !EndsName(EmitElems(elems))
    ensures EmitElems(elems) != "" <==> elems != []
    ensures elems != [] ==> (EmitElems(elems)[|EmitElems(elems)| - 1] == ':' <==> ClosesName(elems))
    ensures EmitElems(elems) != "" ==> EmitElems(elems)[0] != ']'
  {
    if elems != [] {
      EmitElemsEndsName(elems[1..]);
      EndsNameAppend(EmitElem(elems[0]), EmitElems(elems[1..]));
      assert EmitElem(elems[0])[1..] == "" || EmitElem(elems[0])[1..] == [elems[0].c];
      if elems[1..] == [] {
        assert EmitElems(elems) == EmitElem(elems[0]);
      }
    }
  }

  lemma ClassEndsName(elems: seq<Elem>, rest: string)
    requires Plain(elems)
    ensures EndsName(EmitElems(elems) + ("]" + rest)) <==> ClosesName(elems) || EndsName(rest)
  {
    EmitElemsEndsName(elems);
    EndsNameAppend(EmitElems(elems), "]" + rest);
    EndsNameAppend("]", rest);
  }

  lemma {:induction false} PosixInSplits(elems: seq<Elem>, rest: string)
    requires Plain(elems)
    ensures PosixIn(elems, "]" + rest) <==> PosixIn(elems, "]" + "") || (OpensName(elems) && EndsName(rest))
    decreases |elems|
  {
    hide EmitElems, EndsName, ClosesName;
    if elems != [] {
      PosixInSplits(if StartsRange(elems) then elems[3..] else elems[1..], rest);
      if |elems| >= 2 {
        ClassEndsName(elems[2..], rest);
        ClassEndsName(elems[2..], "");
        assert !EndsName("") by {
          EmitElemsEndsName([]);
        }
      }
    }
  }

  // ":]" in a translated pattern is the end of a class whose last member is a colon.
  lemma {:induction false} EmitAllEndsName(tokens: seq<Token>)
    requires AllGood(tokens)
    ensures EndsName(EmitAll(tokens)) <==> ClosedIn(tokens)
  {
    if tokens != [] {
      var rest := EmitAll(tokens[1..]);
      EmitAllEndsName(tokens[1..]);
      EmitStart(tokens[1..]);
      TokenEndsName(tokens[0], rest);
      assert forall j :: 0 < j < |tokens| ==> tokens[j] == tokens[1..][j - 1];
    }
  }

  lemma TokenEndsName(token: Token, rest: string)
    requires Good(token) && (rest != "" ==> rest[0] != ']')
    ensures EndsName(Emit(token) + rest) <==> (token.Bracket? && ClosesName(Elems(token.text))) || EndsName(rest)
  {
    hide PosixIn, Ranges, ParseMembers, ParseClass, ClassCompiles;
    EndsNameAppend(Emit(token), rest);
    if token.Bracket? {
      assert !EndsName(Emit(token)) || ClosesName(Elems(token.text)) by {
        BracketEndsName(token.text);
      }
      BracketEndsName(token.text);
    } else {
      NoColonEndsName(Emit(token));
    }
  }

  // A text without a colon before its end holds no ":]".
  lemma {:induction false} NoColonEndsName(s: string)
    requires forall i :: 0 <= i < |s| - 1 ==> s[i] != ':'
    ensures !EndsName(s)
  {
    if s != "" {
      NoColonEndsName(s[1..]);
    }
  }

  function BracketOpening(text: string): string
  {
    if IsNegated(text) then "[^/" else "["
  }

  lemma BracketText(text: string)
    requires |text| >= 2
    ensures EmitBracket(text) == BracketOpening(text) + (EmitElems(EscapeFirst(Elems(text), IsNegated(text))) + "]")
  {
    hide EmitElems, EscapeFirst, Elems;
    ConcatAssociates(BracketOpening(text), EmitElems(EscapeFirst(Elems(text), IsNegated(text))), "]");
    assert "[" + "^/" == "[^/" && "[" + "" == "[";
  }

  lemma BracketEndsName(text: string)
    requires WellFormed(text)
    ensures EndsName(EmitBracket(text)) <==> ClosesName(Elems(text))
  {
    hide Plain, Elems, ReadElems, EndsName, EmitElems, EmitBracket;
    var elems := EscapeFirst(Elems(text), IsNegated(text));
    ClassEndsName(elems, "");
    EmitElemsEndsName(elems);
    NoColonEndsName("");
    NoColonEndsName(BracketOpening(text));
    BracketText(text);
    assert "]" + "" == "]";
    EndsNameAppend(BracketOpening(text), EmitElems(elems) + "]");
  }

  lemma EscapeFirstKeepsName(elems: seq<Elem>, negated: bool)
    ensures OpensName(EscapeFirst(elems, negated)) <==> OpensName(elems)
  {
    if elems != [] {
      var r := EscapeFirst(elems, negated);
      assert r[1..] == elems[1..];
      if |elems| >= 3 {
        assert r[3..] == elems[3..];
      }
    }
  }

  lemma EmittedOpensName(text: string)
    requires WellFormed(text)
    ensures OpensName(Emitted(text)) <==> OpensName(Elems(text))
  {
    EscapeFirstKeepsName(Elems(text), IsNegated(text));
    if IsNegated(text) {
      assert Emitted(text)[1..] == EscapeFirst(Elems(text), true);
    }
  }

  // A class opens a POSIX name and a later class closes it.
  ghost predicate NameAcross(tokens: seq<Token>, i: int, j: int)
  {
    && 0 <= i < j < |tokens| && tokens[i].Bracket? && tokens[j].Bracket?
    && |tokens[i].text| >= 2 && |tokens[j].text| >= 2
    && OpensName(Elems(tokens[i].text)) && ClosesName(Elems(tokens[j].text))
  }

  ghost predicate ClosedIn(tokens: seq<Token>)
    requires AllGood(tokens)
  {
    exists j :: 0 <= j < |tokens| && tokens[j].Bracket? && ClosesName(Elems(tokens[j].text))
  }

  lemma NameAcrossCons(tokens: seq<Token>)
    requires AllGood(tokens) && tokens != []
    ensures (exists i, j :: NameAcross(tokens, i, j)) <==>
              || (tokens[0].Bracket? && OpensName(Elems(tokens[0].text)) && ClosedIn(tokens[1..]))
              || exists i, j :: NameAcross(tokens[1..], i, j)
  {
    hide OpensName, ClosesName, Elems, ClassCompiles, Plain;
    var tail := tokens[1..];
    assert forall k :: 0 < k < |tokens| ==> tokens[k] == tail[k - 1];
    if i, j :| NameAcross(tail, i, j) {
      assert NameAcross(tokens, i + 1, j + 1);
    }
    if i, j :| NameAcross(tokens, i, j) {
      if 0 < i {
        assert NameAcross(tail, i - 1, j - 1);
      } else {
        assert tail[j - 1] == tokens[j];
      }
    }
    if tokens[0].Bracket? && OpensName(Elems(tokens[0].text)) && ClosedIn(tail) {
      var j :| 0 <= j < |tail| && tail[j].Bracket? && ClosesName(Elems(tail[j].text));
      assert Good(tail[j]) && Good(tokens[0]);
      assert NameAcross(tokens, 0, j + 1);
    }
  }

  lemma {:induction false} SpansIff(tokens: seq<Token>)
    requires AllGood(tokens)
    ensures Spans(tokens) <==> exists i, j :: NameAcross(tokens, i, j)
  {
    hide PosixIn, EmitAll, OpensName, ClosedIn, Elems, Emitted, NameAcross, Good;
    if tokens != [] {
      SpansIff(tokens[1..]);
      NameAcrossCons(tokens);
      if tokens[0].Bracket? {
        FirstSpansIff(tokens);
      }
    } else {
      assert forall i, j :: !NameAcross([], i, j) by {
        forall i, j
          ensures !NameAcross([], i, j)
        {
          NameAcrossEmpty(i, j);
        }
      }
    }
  }

  lemma NameAcrossEmpty(i: int, j: int)
    ensures !NameAcross([], i, j)
  {
  }

  lemma FirstSpansIff(tokens: seq<Token>)
    requires AllGood(tokens) && tokens != [] && tokens[0].Bracket?
    ensures PosixIn(Emitted(tokens[0].text), "]" + EmitAll(tokens[1..])) <==>
              OpensName(Elems(tokens[0].text)) && ClosedIn(tokens[1..])
  {
    hide PosixIn, OpensName, ClosesName, Elems, Emitted, EndsName, Plain, Ranges, BracketItem;
    var text, rest := tokens[0].text, EmitAll(tokens[1..]);
    assert Good(tokens[0]);
    GoodIffCompiles(text);
    EmittedRanges(text);
    PosixInSplits(Emitted(text), rest);
    assert "]" + "" == "]";
    EmittedOpensName(text);
    EmitAllEndsName(tokens[1..]);
  }

  // ---------- The translation accepts what the glob matches ----------

  lemma {:induction false} TokensWellFormed(p: string)
    ensures forall i :: 0 <= i < |Tokens(p)| && Tokens(p)[i].Bracket? ==> WellFormed(Tokens(p)[i].text)
    decreases |p|
  {
    hide WellFormed, BracketEnd;
    if p != "" {
      TokensWellFormed(NextToken(p).1);
      if p[0] == '[' && BracketEnd(p) >= 0 {
        BracketWellFormed(p);
      }
    }
  }

  lemma ValidatesGood(p: string)
    requires Validates(p)
    ensures AllGood(Tokens(p))
  {
    hide ClassCompiles, WellFormed;
    TokensWellFormed(p);
  }

  lemma TokenMember(token: Token, c: char)
    requires Good(token) && c != '\n'
    ensures Member(TokenItem(token).chars, c) <==>
              match token
              case Char(d) => c == d
              case Star => c != '/'
              case DoubleStar => true
              case AnyChar => c != '/'
              case Bracket(text) => InBracket(text, c)
  {
    hide ClassCompiles, Ranges, Elems;
    var slash: seq<Range> := [('/', '/')];
    assert InRanges(slash, c) <==> c == '/' by {
      assert slash[0] == ('/', '/');
    }
    if token.Bracket? && IsNegated(token.text) {
      var ranges := Ranges(Elems(token.text));
      var all := slash + ranges;
      assert InRanges(all, c) <==> c == '/' || InRanges(ranges, c) by {
        assert all[0] == ('/', '/');
        assert forall i :: 0 <= i < |ranges| ==> all[i + 1] == ranges[i];
        assert forall i :: 0 < i < |all| ==> all[i] == ranges[i - 1];
      }
    }
  }

  lemma {:induction false} ItemsMatch(p: string, t: string)
    requires AllGood(Tokens(p)) && '\n' !in t
    ensures Matches(Items(Tokens(p)), t) <==> GlobMatch(p, t)
    decreases |p|, |t|
  {
    hide Member, ClassCompiles, Plain, NextToken, InBracket;
    if p != "" {
      var (token, rest) := NextToken(p);
      assert Good(Tokens(p)[0]);
      assert Tokens(p)[0] == token && Tokens(p)[1..] == Tokens(rest);
      assert Items(Tokens(p))[0] == TokenItem(token) && Items(Tokens(p))[1..] == Items(Tokens(rest));
      ItemsMatch(rest, t);
      if t != "" {
        TokenMember(token, t[0]);
        ItemsMatch(rest, t[1..]);
        ItemsMatch(p, t[1..]);
      }
    }
  }

  /**
   The translation of every valid pattern: it compiles exactly when no class opens a POSIX name
   that a later class closes, and then it accepts exactly the newline-free texts that the glob
   matches.
   */
  lemma TranslationMatches(p: string, t: string)
    requires Validates(p) && '\n' !in t
    ensures ParseRegex(EmitAll(Tokens(p))).None? <==> exists i, j :: NameAcross(Tokens(p), i, j)
    ensures ParseRegex(EmitAll(Tokens(p))).Some? ==>
              (Matches(ParseRegex(EmitAll(Tokens(p))).value, t) <==> GlobMatch(p, t))
  {
    hide Validates, Tokens, EmitAll, ParseRegex, Items, Matches, GlobMatch, Spans, NameAcross;
    ValidatesGood(p);
    ParseEmitAll(Tokens(p));
    SpansIff(Tokens(p));
    ItemsMatch(p, t);
  }

  // ---------- The scanning loops ----------

  // The position of the bracket that ends a class whose members are read from idx on.
  function EndFrom(runes: string, idx: nat): int
    requires idx <= |runes|
  {
    var e := ScanEnd(runes[idx..]);
    if e < 0 then -1 else idx + e
  }

  lemma EndFromStep(runes: string, idx: nat)
    requires idx < |runes|
    ensures runes[idx] == '\\' && idx + 1 < |runes| ==> EndFrom(runes, idx) == EndFrom(runes, idx + 2)
    ensures runes[idx] == ']' ==> EndFrom(runes, idx) == idx
    ensures !(runes[idx] == '\\' && idx + 1 < |runes|) && runes[idx] != ']' ==> EndFrom(runes, idx) == EndFrom(runes, idx + 1)
  {
    var s := runes[idx..];
    assert s[1..] == runes[idx + 1..];
    if idx + 1 < |runes| {
      assert s[2..] == runes[idx + 2..];
    }
  }

  method FindBracketEnd(runes: string, start: nat) returns (end: int)
    requires start < |runes| && runes[start] == '['
    ensures end == var e := BracketEnd(runes[start..]); if e < 0 then -1 else start + e
  {
    hide ScanEnd;
    var idx := start + 1;
    if idx < |runes| && IsNegation(runes[idx]) {
      idx := idx + 1;
    }
    if idx < |runes| && runes[idx] == ']' {
      idx := idx + 1;
    }
    ghost var first := idx;
    assert first == start + Opening(runes[start..]);
    assert runes[start..][Opening(runes[start..])..] == runes[first..];
    while idx < |runes|
      invariant first <= idx <= |runes| && EndFrom(runes, idx) == EndFrom(runes, first)
    {
      EndFromStep(runes, idx);
      if runes[idx] == '\\' && idx + 1 < |runes| {
        idx := idx + 2;
      } else if runes[idx] == ']' {
        return idx;
      } else {
        idx := idx + 1;
      }
    }
    assert ScanEnd("") < 0;
    assert runes[idx..] == "";
    end := -1;
  }

  // The translation of the members of a class from start on, with the closing bracket.
  function EmitFrom(runes: string, start: nat): string
    requires start <= |runes| - 1
  {
    EmitElems(ReadElems(runes[start..|runes| - 1])) + "]"
  }

  lemma EmitFromStep(runes: string, idx: nat)
    requires idx < |runes| - 1
    ensures EmitFrom(runes, idx)
         == if runes[idx] == '\\' && idx + 1 < |runes| - 1
            then EmitElem(Elem(runes[idx + 1], true)) + EmitFrom(runes, idx + 2)
            else [runes[idx]] + EmitFrom(runes, idx + 1)
  {
    var body := runes[idx..|runes| - 1];
    assert body[1..] == runes[idx + 1..|runes| - 1];
    if idx + 1 < |runes| - 1 {
      assert body[2..] == runes[idx + 2..|runes| - 1];
    }
    EmitFront(ReadElems(body), "]");
    assert ReadElems(body)[1..] == ReadElems(if runes[idx] == '\\' && idx + 1 < |runes| - 1 then body[2..] else body[1..]);
  }

  // The opening of a class, with a first member that needs an escape escaped, and the index
  // behind it.
  function ClassOpening(runes: string): (string, nat)
    requires |runes| >= 3
  {
    if IsNegated(runes) then
      if runes[2] == '-' then ("[^/\\-", 3)
      else if runes[2] == ']' && |runes| > 3 then ("[^/\\]", 3)
      else ("[^/", 2)
    else if runes[1] == ']' then ("[\\]", 2)
    else ("[", 1)
  }

  lemma OpeningInside(runes: string)
    requires WellFormed(runes)
    ensures IsNegated(runes) ==> |runes| > 3
    ensures ClassOpening(runes).1 <= |runes| - 1
  {
    hide Plain;
  }

  lemma EmitOpening(runes: string)
    requires WellFormed(runes) && ClassOpening(runes).1 <= |runes| - 1
    ensures EmitBracket(runes) == ClassOpening(runes).0 + EmitFrom(runes, ClassOpening(runes).1)
  {
    hide EmitBracket, Plain, ReadElems, EmitElems, EmitElem;
    OpeningInside(runes);
    BracketText(runes);
    var start := if IsNegated(runes) then 2 else 1;
    var elems, first := Elems(runes), EscapeFirst(Elems(runes), IsNegated(runes));
    var body := runes[start..|runes| - 1];
    assert body[1..] == runes[start + 1..|runes| - 1];
    FirstElem(body);
    if first != elems {
      EmitEscaped(first[0].c);
      EmitFront(first, "]");
      assert first[1..] == elems[1..] == ReadElems(body[1..]);
      ConcatAssociates(BracketOpening(runes), EmitElem(first[0]), EmitFrom(runes, start + 1));
      assert BracketOpening(runes) + EmitElem(first[0]) == ClassOpening(runes).0;
    } else {
      assert ClassOpening(runes) == (BracketOpening(runes), start);
    }
  }

  // Behind the first member of a class an unescaped bracket ends it.
  lemma NoSecondBracket(runes: string)
    requires WellFormed(runes) && IsNegated(runes) && runes[2] == '-'
    ensures |runes| == 4 || runes[3] != ']'
  {
    var body, elems := runes[2..|runes| - 1], Elems(runes);
    assert elems == [Elem('-', false)] + ReadElems(body[1..]);
    if |runes| > 4 {
      assert body[1] == runes[3];
      assert EscapeFirst(elems, true)[1] == elems[1] == ReadElems(body[1..])[0];
      if body[1] != '\\' {
        assert ReadElems(body[1..])[0] == Elem(body[1], false);
      }
    }
  }

  // Writes the opening of a class and returns the index of the first member not written yet.
  method WriteClassOpening(runes: string) returns (written: string, start: nat)
    requires WellFormed(runes)
    ensures (written, start) == ClassOpening(runes)
  {
    hide Plain, ReadElems, Elems;
    OpeningInside(runes);
    written, start := "[", 1;
    if |runes| > 2 && IsNegation(runes[1]) {
      written, start := written + "^/", 2;
      if start < |runes| - 1 && runes[start] == '-' {
        NoSecondBracket(runes);
        written, start := written + "\\-", start + 1;
      }
    }
    if start < |runes| - 1 && runes[start] == ']' {
      written, start := written + "\\]", start + 1;
    }
    assert "[" + "^/" == "[^/" && "[^/" + "\\-" == "[^/\\-" && "[^/" + "\\]" == "[^/\\]" && "[" + "\\]" == "[\\]";
  }

  // Writes the members of a class from start on, consuming its backslashes.
  method EscapeMembers(runes: string, start: nat) returns (converted: string)
    requires start <= |runes| - 1 && runes[|runes| - 1] == ']'
    ensures converted == EmitFrom(runes, start)
  {
    hide *;
    converted := "";
    var idx := start;
    while idx < |runes| - 1
      invariant idx <= |runes| - 1 && converted + EmitFrom(runes, idx) == EmitFrom(runes, start)
    {
      EmitFromStep(runes, idx);
      var piece, next := [runes[idx]], idx + 1;
      if runes[idx] == '\\' && idx + 1 < |runes| - 1 {
        EmitEscaped(runes[idx + 1]);
        var ch := runes[idx + 1];
        piece, next := if ch == '\\' || ch == ']' || ch == '-' || ch == '^' then ['\\', ch] else [ch], idx + 2;
      }
      ConcatAssociates(converted, piece, EmitFrom(runes, next));
      converted, idx := converted + piece, next;
    }
    EmitFromEnd(runes);
    converted := converted + [runes[|runes| - 1]];
  }

  method EscapeCharClass(runes: string) returns (converted: string)
    requires WellFormed(runes)
    ensures converted == EmitBracket(runes)
  {
    hide Elems, EscapeFirst, EmitBracket, EmitFrom, ClassOpening, Plain;
    OpeningInside(runes);
    EmitOpening(runes);
    var opening, start := WriteClassOpening(runes);
    var members := EscapeMembers(runes, start);
    converted := opening + members;
  }

  lemma ConcatAssociates(a: string, b: string, c: string)
    ensures a + (b + c) == (a + b) + c
  {
  }

  lemma EmitEscaped(c: char)
    ensures EmitElem(Elem(c, true)) == if c == '\\' || c == ']' || c == '-' || c == '^' then ['\\', c] else [c]
  {
  }

  lemma EmitFromEnd(runes: string)
    requires runes != ""
    ensures EmitFrom(runes, |runes| - 1) == "]"
  {
    assert runes[|runes| - 1..|runes| - 1] == "";
  }

  method ConvertBracketExpr(runes: string, idx: nat) returns (converted: string, end: int)
    requires idx < |runes| && runes[idx] == '['
    ensures var e := BracketEnd(runes[idx..]);
            if e < 0 then converted == QuoteMeta('[') && end == idx
            else end == idx + e && converted == Emit(Bracket(runes[idx..end + 1]))
  {
    hide Elems, EscapeFirst, EmitBracket, ClassCompiles, Plain, BracketEnd, QuoteAll;
    end := FindBracketEnd(runes, idx);
    if end < 0 {
      return QuoteMeta('['), idx;
    }
    var text := runes[idx..end + 1];
    assert runes[idx..][..end - idx + 1] == text;
    BracketWellFormed(runes[idx..]);
    converted := EscapeCharClass(text);
    if !ClassCompiles(converted) {
      converted := QuoteAll(text);
    }
  }

  // One step of the translation: the token at idx, its text, and the index behind it.
  method ConvertNext(runes: string, idx: nat) returns (converted: string, next: nat)
    requires idx < |runes|
    ensures idx < next <= |runes|
    ensures (Emit(NextToken(runes[idx..]).0), NextToken(runes[idx..]).1) == (converted, runes[next..])
  {
    hide BracketEnd, EmitBracket, ClassCompiles, IsMeta, QuoteAll;
    ghost var p := runes[idx..];
    next := idx + 1;
    assert p[1..] == runes[idx + 1..] && (|p| >= 2 ==> p[2..] == runes[idx + 2..]);
    match runes[idx]
    case '\\' =>
      if idx + 1 < |runes| {
        return QuoteMeta(runes[idx + 1]), idx + 2;
      }
      converted := QuoteMeta('\\');
    case '*' =>
      if idx + 1 < |runes| && runes[idx + 1] == '*' {
        return ".*", idx + 2;
      }
      converted := "[^/]*";
    case '?' =>
      converted := "[^/]";
    case '[' =>
      var end;
      converted, end := ConvertBracketExpr(runes, idx);
      next := end + 1;
      assert BracketEnd(p) >= 0 ==> p[..BracketEnd(p) + 1] == runes[idx..next] && p[BracketEnd(p) + 1..] == runes[next..];
    case _ =>
      converted := QuoteMeta(runes[idx]);
  }

  method ToRegex(pattern: string) returns (regex: string)
    ensures regex == EmitAll(Tokens(pattern))
  {
    hide NextToken, Emit;
    regex := "";
    var idx := 0;
    assert pattern[0..] == pattern;
    while idx < |pattern|
      invariant idx <= |pattern| && regex + EmitAll(Tokens(pattern[idx..])) == EmitAll(Tokens(pattern))
    {
      var converted, next := ConvertNext(pattern, idx);
      ConcatAssociates(regex, converted, EmitAll(Tokens(pattern[next..])));
      EmitAllNext(pattern[idx..]);
      regex, idx := regex + converted, next;
    }
    assert pattern[idx..] == "";
  }

  lemma EmitAllNext(p: string)
    requires p != ""
    ensures EmitAll(Tokens(p)) == Emit(NextToken(p).0) + EmitAll(Tokens(NextToken(p).1))
  {
    hide Emit, NextToken;
    assert Tokens(p)[1..] == Tokens(NextToken(p).1);
  }

  // ---------- Validation ----------

  predicate ClassOk(text: string)
  {
    |text| >= 2 && ClassCompiles(EmitBracket(text))
  }

  lemma ValidatesNext(p: string)
    requires p != ""
    ensures Validates(p) <==>
              (NextToken(p).0.Bracket? ==> ClassOk(NextToken(p).0.text)) && Validates(NextToken(p).1)
  {
    hide NextToken, ClassCompiles, EmitBracket;
    var tokens, tail := Tokens(p), Tokens(NextToken(p).1);
    assert tokens[0] == NextToken(p).0;
    assert forall i :: 0 <= i < |tail| ==> tail[i] == tokens[i + 1];
    assert forall i :: 0 < i < |tokens| ==> tokens[i] == tail[i - 1];
  }

  // A single star, also as the first half of two, does not matter for validity.
  lemma ValidatesSkip(p: string)
    requires p != "" && p[0] != '\\' && (p[0] == '[' ==> BracketEnd(p) < 0)
    ensures Validates(p) <==> Validates(p[1..])
  {
    hide Validates, BracketEnd, ClassOk;
    ValidatesNext(p);
    if p[0] == '*' && |p| >= 2 && p[1] == '*' {
      assert p[1..][1..] == p[2..];
      ValidatesSkipStar(p[1..]);
    }
  }

  lemma ValidatesSkipStar(p: string)
    requires p != "" && p[0] == '*'
    ensures Validates(p) <==> Validates(p[1..])
    decreases |p|
  {
    hide Validates, BracketEnd, ClassOk;
    ValidatesNext(p);
    if |p| >= 2 && p[1] == '*' {
      assert p[1..][1..] == p[2..];
      ValidatesSkipStar(p[1..]);
    }
  }

  // Reports whether every class of the pattern compiles.
  method Validate(pattern: string) returns (ok: bool)
    ensures ok == Validates(pattern)
  {
    hide Validates, BracketEnd, ClassCompiles, EmitBracket, WellFormed;
    var idx := 0;
    assert pattern[0..] == pattern;
    while idx < |pattern|
      invariant idx <= |pattern| && (Validates(pattern[idx..]) <==> Validates(pattern))
    {
      ghost var p := pattern[idx..];
      assert p[1..] == pattern[idx + 1..] && (|p| >= 2 ==> p[2..] == pattern[idx + 2..]);
      if pattern[idx] == '\\' {
        ValidatesNext(p);
        idx := if idx + 1 < |pattern| then idx + 2 else idx + 1;
      } else if pattern[idx] == '[' {
        var end := FindBracketEnd(pattern, idx);
        if end < 0 {
          ValidatesSkip(p);
          idx := idx + 1;
        } else {
          ValidatesNext(p);
          BracketWellFormed(p);
          assert p[..end - idx + 1] == pattern[idx..end + 1] && p[end - idx + 1..] == pattern[end + 1..];
          var converted := EscapeCharClass(pattern[idx..end + 1]);
          if !ClassCompiles(converted) {
            return false;
          }
          idx := end + 1;
        }
      } else {
        ValidatesSkip(p);
        idx := idx + 1;
      }
    }
    assert pattern[idx..] == "";
    ValidatesEmpty();
    ok := true;
  }

  lemma ValidatesEmpty()
    ensures Validates("")
  {
  }

  // ---------- Consequences ----------

  function Slashes(t: string): nat
  {
    if t == "" then 0 else (if t[0] == '/' then 1 else 0) + Slashes(t[1..])
  }

  function SlashTokens(tokens: seq<Token>): nat
  {
    if tokens == [] then 0 else (if tokens[0] == Char('/') then 1 else 0) + SlashTokens(tokens[1..])
  }

  // The token can only match the slash by naming it.
  predicate Segmental(token: Token)
  {
    match token
    case DoubleStar => false
    case Bracket(text) => |text| >= 2 && (IsNegated(text) || !InRanges(Ranges(Elems(text)), '/'))
    case _ => true
  }

  /**
   Stars, question marks and negated classes never cross a path segment: a text that matches a
   pattern without "**" and without a class that names the slash has exactly the slashes of the
   pattern.
   */
  lemma {:induction false} SlashesAreNamed(p: string, t: string)
    requires GlobMatch(p, t) && forall i :: 0 <= i < |Tokens(p)| ==> Segmental(Tokens(p)[i])
    ensures Slashes(t) == SlashTokens(Tokens(p))
    decreases |p|, |t|
  {
    hide NextToken, Elems, Ranges;
    if p != "" {
      var (token, rest) := NextToken(p);
      assert Tokens(p)[0] == token && Tokens(p)[1..] == Tokens(rest);
      assert forall i :: 0 <= i < |Tokens(rest)| ==> Tokens(rest)[i] == Tokens(p)[i + 1];
      assert Segmental(token);
      if token.Star? {
        if GlobMatch(rest, t) {
          SlashesAreNamed(rest, t);
        } else {
          SlashesAreNamed(p, t[1..]);
        }
      } else {
        SlashesAreNamed(rest, t[1..]);
      }
    }
  }

  lemma {:induction false} ReadPlain(s: string)
    requires '\\' !in s
    ensures |ReadElems(s)| == |s| && forall i :: 0 <= i < |s| ==> ReadElems(s)[i] == Elem(s[i], false)
  {
    if s != "" {
      ReadPlain(s[1..]);
    }
  }

  lemma {:induction false} ScanEndAt(s: string, e: nat)
    requires e < |s| && s[e] == ']' && forall i :: 0 <= i < e ==> s[i] != ']' && s[i] != '\\'
    ensures ScanEnd(s) == e
  {
    if e > 0 {
      ScanEndAt(s[1..], e - 1);
    }
  }

  // A class of three members a, b and c, none of them special.
  lemma ThreeMembers(text: string)
    requires |text| == 5 && text[0] == '[' && text[4] == ']' && !IsNegation(text[1])
    requires forall i :: 1 <= i < 4 ==> text[i] != '\\' && text[i] != ']' && text[i] != '-'
    requires text[3] != ':' || text[1] != '['
    ensures Elems(text) == [Elem(text[1], false), Elem(text[2], false), Elem(text[3], false)]
    ensures WellFormed(text) && ClassCompiles(EmitBracket(text))
  {
    var e := [Elem(text[1], false), Elem(text[2], false), Elem(text[3], false)];
    ReadPlain(text[1..4]);
    assert Elems(text) == e && Emitted(text) == e;
    assert e[1..] == [e[1], e[2]] && e[2..] == [e[2]] && e[1..][1..] == [e[2]] && [e[2]][1..] == [];
    assert EmitElems([e[2]]) == [text[3]] && EmitElems([]) == "";
    assert Ranges([e[2]]) == [(text[3], text[3])];
    assert Ranges([e[1], e[2]]) == [(text[2], text[2])] + Ranges([e[2]]);
    assert Ranges(e) == [(text[1], text[1])] + Ranges([e[1], e[2]]);
    assert text[3] != ':' ==> !EndsName([text[3]] + "]") by {
      assert ([text[3]] + "]")[1..] == "]";
    }
    assert !EndsName("" + "]");
    assert !PosixIn([e[2]], "]") && !PosixIn([e[1], e[2]], "]") && !PosixIn(e, "]");
    GoodIffCompiles(text);
  }

  lemma ThreeMembersToken(p: string)
    requires |p| >= 5 && p[0] == '[' && p[4] == ']' && !IsNegation(p[1])
    requires forall i :: 1 <= i < 4 ==> p[i] != '\\' && p[i] != ']'
    ensures NextToken(p) == (Bracket(p[..5]), p[5..])
  {
    ScanEndAt(p[1..], 3);
    assert Opening(p) == 1 && BracketEnd(p) == 4;
  }

  lemma TwoBrackets(p: string, a: string, b: string)
    requires p != "" && b != "" && NextToken(p) == (Bracket(a), b) && NextToken(b) == (Bracket(b), "")
    ensures Tokens(p) == [Bracket(a), Bracket(b)]
  {
    hide NextToken;
    assert Tokens("") == [];
    assert Tokens(b) == [Bracket(b)];
  }

  lemma BothValidate(p: string, a: string, b: string)
    requires Tokens(p) == [Bracket(a), Bracket(b)] && ClassOk(a) && ClassOk(b)
    ensures Validates(p)
  {
    hide ClassCompiles, EmitBracket, Tokens;
  }

  // The two classes of the pattern below.
  predicate OpenAndClose(a: string, b: string)
  {
    && |a| == 5 && a[0] == '[' && a[1] == '[' && a[2] == ':' && a[3] == 'a' && a[4] == ']'
    && |b| == 5 && b[0] == '[' && b[1] == 'x' && b[2] == 'y' && b[3] == ':' && b[4] == ']'
  }

  lemma OpenAndCloseName(a: string, b: string)
    requires OpenAndClose(a, b)
    ensures ClassOk(a) && ClassOk(b) && OpensName(Elems(a)) && ClosesName(Elems(b))
    ensures NextToken(a + b) == (Bracket(a), b) && NextToken(b) == (Bracket(b), "")
  {
    hide ClassCompiles, EmitBracket, WellFormed, Elems, NextToken;
    ThreeMembers(a);
    ThreeMembers(b);
    ThreeMembersToken(a + b);
    ThreeMembersToken(b);
    assert (a + b)[..5] == a && (a + b)[5..] == b && b[..5] == b && b[5..] == "";
  }

  /**
   Validation accepts patterns whose translation does not compile: both classes of
   "[[:a][xy:]" compile, but the expression looks like the POSIX class name "[:a][xy:]".
   */
  lemma ValidatedButNotCompiled(a: string, b: string)
    requires a == "[[:a]" && b == "[xy:]"
    ensures Validates(a + b) && ParseRegex(EmitAll(Tokens(a + b))) == None
  {
    hide ClassCompiles, EmitBracket, NextToken, Elems, EmitAll, ParseRegex, Tokens, OpensName, ClosesName, Validates;
    OpenAndCloseName(a, b);
    TwoBrackets(a + b, a, b);
    BothValidate(a + b, a, b);
    assert NameAcross([Bracket(a), Bracket(b)], 0, 1);
    TranslationMatches(a + b, "");
  }
}
