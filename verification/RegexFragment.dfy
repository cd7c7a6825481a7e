/**
 The fragment of Go's regular expression syntax that translated globs use: literals (escaped or
 not), the dot, bracketed character classes, and the star. Everything else is rejected, as is
 text that Go does not compile. The class parser follows regexp/syntax, including its lookahead
 for POSIX named classes: an opening "[:" inside a class with a ":]" anywhere behind it in the
 expression. Such a lookahead makes the class end inside the name or the name invalid, so in the
 texts parsed here it always means that the expression does not compile.
 */
module RegexFragment {
  import opened Options

  type Range = (char, char)

  datatype CharSet =
    | Lit(c: char)
    | Dot
    | Class(negated: bool, ranges: seq<Range>)

  datatype Item = Item(chars: CharSet, star: bool)

  // ---------- Meaning ----------

  predicate InRanges(ranges: seq<Range>, c: char)
  {
    exists i :: 0 <= i < |ranges| && ranges[i].0 <= c <= ranges[i].1
  }

  predicate Member(chars: CharSet, c: char)
  {
    match chars
    case Lit(d) => c == d
    case Dot => c != '\n'
    case Class(negated, ranges) => negated != InRanges(ranges, c)
  }

  // The whole text matches the concatenation of the items.
  predicate Matches(items: seq<Item>, text: string)
    decreases |items|, |text|
  {
    if items == [] then text == ""
    else if items[0].star then
      Matches(items[1..], text) || (text != "" && Member(items[0].chars, text[0]) && Matches(items, text[1..]))
    else text != "" && Member(items[0].chars, text[0]) && Matches(items[1..], text[1..])
  }

  // ---------- Syntax ----------

  predicate IsMeta(c: char)
  {
    c in "\\.+*?()|[]{}^$"
  }

  function QuoteMeta(c: char): (s: string)
    ensures s != ""
  {
    if IsMeta(c) then ['\\', c] else [c]
  }

  // The characters that a backslash makes literal: ASCII, neither letters nor digits.
  predicate Escapable(c: char)
  {
    c < '\U{80}' && !('0' <= c <= '9' || 'a' <= c <= 'z' || 'A' <= c <= 'Z')
  }

  // The text holds ":]", the end of a POSIX named class.
  predicate EndsName(s: string)
  {
    |s| >= 2 && ((s[0] == ':' && s[1] == ']') || EndsName(s[1..]))
  }

  // A POSIX named class is recognized at the start of t.
  predicate PosixOpens(t: string)
  {
    |t| > 2 && t[0] == '[' && t[1] == ':' && EndsName(t[2..])
  }

  function ParseClassChar(t: string): (r: Option<(char, string)>)
    ensures r.Some? ==> |r.value.1| < |t|
  {
    if t == "" then None
    else if t[0] != '\\' then Some((t[0], t[1..]))
    else if |t| >= 2 && Escapable(t[1]) then Some((t[1], t[2..]))
    else None
  }

  // The members of a class and the text behind its closing bracket. A bracket that comes first
  // is a member.
  function ParseMembers(t: string, first: bool): (r: Option<(seq<Range>, string)>)
    ensures r.Some? ==> |r.value.1| < |t|
    decreases |t|
  {
    if t == "" then None
    else if t[0] == ']' && !first then Some(([], t[1..]))
    else if PosixOpens(t) then None
    else match ParseClassChar(t)
      case None => None
      case Some((lo, t)) =>
        if |t| >= 2 && t[0] == '-' && t[1] != ']' then
          match ParseClassChar(t[1..])
          case None => None
          case Some((hi, t)) => if hi < lo then None else Prepend((lo, hi), ParseMembers(t, false))
        else Prepend((lo, lo), ParseMembers(t, false))
  }

  function Prepend(range: Range, r: Option<(seq<Range>, string)>): Option<(seq<Range>, string)>
  {
    match r
    case None => None
    case Some((ranges, rest)) => Some(([range] + ranges, rest))
  }

  // The class after its opening bracket.
  function ParseClass(t: string): (r: Option<(CharSet, string)>)
    ensures r.Some? ==> |r.value.1| < |t|
  {
    var negated := t != "" && t[0] == '^';
    match ParseMembers(if negated then t[1..] else t, true)
    case None => None
    case Some((ranges, rest)) => Some((Class(negated, ranges), rest))
  }

  function ParseAtom(s: string): (r: Option<(CharSet, string)>)
    requires s != ""
    ensures r.Some? ==> |r.value.1| < |s|
  {
    if s[0] == '\\' then
      if |s| >= 2 && Escapable(s[1]) then Some((Lit(s[1]), s[2..])) else None
    else if s[0] == '.' then Some((Dot, s[1..]))
    else if s[0] == '[' then ParseClass(s[1..])
    else if IsMeta(s[0]) then None
    else Some((Lit(s[0]), s[1..]))
  }

  function ParseRegex(s: string): (r: Option<seq<Item>>)
    decreases |s|
  {
    if s == "" then Some([])
    else match ParseAtom(s)
      case None => None
      case Some((chars, rest)) =>
        var star := rest != "" && rest[0] == '*';
        match ParseRegex(if star then rest[1..] else rest)
        case None => None
        case Some(items) => Some([Item(chars, star)] + items)
  }

  // regexp.Compile on the text of a single class.
  predicate ClassCompiles(text: string)
  {
    text != "" && text[0] == '[' && ParseClass(text[1..]).Some? && ParseClass(text[1..]).value.1 == ""
  }
}
