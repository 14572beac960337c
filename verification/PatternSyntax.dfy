/** What glob patterns mean, element by element, and how their text is cut into elements. */
module PatternSyntax {
  import opened Basics

  datatype Elem =
    | Literal(text: string)
    | AnyChar
    | CommonChar
    | CharSet(ranges: string)
    | NegSet(ranges: string)
    | NumRange(lo: int, up: int)
    | AnySeq
    | CommonSeq
    | End

  // ---------- meaning ----------

  predicate IsDigit(c: char) { '0' <= c <= '9' }

  function DigitCount(s: string): (n: nat)
    ensures n <= |s| && (forall i :: 0 <= i < n ==> IsDigit(s[i])) && (n < |s| ==> !IsDigit(s[n]))
  {
    if s != "" && IsDigit(s[0]) then 1 + DigitCount(s[1..]) else 0
  }

  function Number(s: string): int {
    if s == "" then 0 else 10 * Number(s[..|s| - 1]) + (s[|s| - 1] as int - '0' as int)
  }

  /** -1 stands for a bound that was left out. */
  predicate InRange(n: int, lo: int, up: int) { (lo >= 0 ==> lo <= n) && (up >= 0 ==> n <= up) }

  /** The characters of ranges come in pairs, each the ends of a range. */
  predicate InSet(c: char, ranges: string) {
    exists i :: 0 <= i < |ranges| / 2 && ranges[2 * i] <= c <= ranges[2 * i + 1]
  }

  /** The line matches the elements; a numeric range takes all the digits there are. */
  predicate Matches(es: seq<Elem>, s: string)
    decreases |es|
  {
    if es == [] then s == ""
    else
      match es[0]
      case Literal(l) => l <= s && Matches(es[1..], s[|l|..])
      case AnyChar => s != "" && Matches(es[1..], s[1..])
      case CommonChar => s != "" && s[0] != '.' && Matches(es[1..], s[1..])
      case CharSet(r) => s != "" && InSet(s[0], r) && Matches(es[1..], s[1..])
      case NegSet(r) => s != "" && !InSet(s[0], r) && Matches(es[1..], s[1..])
      case NumRange(lo, up) =>
        var n := DigitCount(s);
        n > 0 && InRange(Number(s[..n]), lo, up) && Matches(es[1..], s[n..])
      case AnySeq => exists i :: 0 <= i <= |s| && Matches(es[1..], s[i..])
      case CommonSeq => exists i :: 0 <= i <= |s| && '.' !in s[..i] && Matches(es[1..], s[i..])
      case End => false
  }

  lemma {:induction false} SequenceMatches(es: seq<Elem>, s: string)
    requires es != []
    ensures es[0] == AnySeq || es[0] == CommonSeq ==> (Matches(es, s) <==>
      exists i :: 0 <= i <= |s| && (es[0] == CommonSeq ==> '.' !in s[..i]) && Matches(es[1..], s[i..]))
  {
  }

  lemma {:induction false} NothingMatches(s: string)
    ensures Matches([], s) <==> s == ""
  {
  }

  predicate EndsWith(s: string, l: string) { |l| <= |s| && s[|s| - |l|..] == l }

  /** After a trailing ** anything may follow. */
  lemma {:induction false} TrailingAnySeq(s: string)
    ensures Matches([AnySeq], s)
  {
    assert Matches([], s[|s|..]);
  }

  /** After a trailing ** and a literal, all that counts is the end of the line. */
  lemma {:induction false} TrailingLiteral(l: string, s: string)
    ensures Matches([AnySeq, Literal(l)], s) <==> EndsWith(s, l)
  {
    forall i | 0 <= i <= |s| ensures Matches([Literal(l)], s[i..]) <==> s[i..] == l {
      assert Matches([Literal(l)], s[i..]) <==> l <= s[i..] && Matches([], s[i..][|l|..]);
    }
    assert [AnySeq, Literal(l)][1..] == [Literal(l)];
    if EndsWith(s, l) { assert Matches([Literal(l)], s[|s| - |l|..]); }
  }

  /** A line that matches elements ending in a literal ends in it. */
  lemma {:induction false} LastLiteral(es: seq<Elem>, s: string)
    requires es != [] && es[|es| - 1].Literal? && Matches(es, s)
    ensures EndsWith(s, es[|es| - 1].text)
    decreases |es|
  {
    if |es| == 1 {
      assert Matches([], s[|es[0].text|..]);
    } else {
      assert es[1..][|es[1..]| - 1] == es[|es| - 1];
      var i := match es[0]
        case Literal(l) => |l|
        case NumRange(_, _) => DigitCount(s)
        case AnySeq => var i :| 0 <= i <= |s| && Matches(es[1..], s[i..]); i
        case CommonSeq => var i :| 0 <= i <= |s| && '.' !in s[..i] && Matches(es[1..], s[i..]); i
        case _ => 1;
      LastLiteral(es[1..], s[i..]);
      assert s[i..][|s[i..]| - |es[|es| - 1].text|..] == s[|s| - |es[|es| - 1].text|..];
    }
  }

  /** So its last two characters are those of the literal. */
  lemma LastTwo(es: seq<Elem>, s: string)
    requires es != [] && es[|es| - 1].Literal? && |es[|es| - 1].text| >= 2 && Matches(es, s)
    ensures var l := es[|es| - 1].text;
      |s| >= 2 && s[|s| - 1] == l[|l| - 1] && s[|s| - 2] == l[|l| - 2]
  {
    LastLiteral(es, s);
    var l := es[|es| - 1].text;
    assert s[|s| - |l|..][|l| - 1] == s[|s| - 1] && s[|s| - |l|..][|l| - 2] == s[|s| - 2];
  }

  // ---------- cutting text into elements ----------

  /** An element's content and the text behind it, or the two ways for text to be malformed: a
      set that is not closed, a backslash with nothing behind it. */
  datatype Parsed<T> = Parsed(value: T, rest: string) | Unmatched | Dangling

  predicate Starts(s: string, t: string) { t <= s }

  datatype Bounds = Bounds(lo: int, up: int)

  /** A run of digits is a bound, no digits are an open one. */
  function BoundAt(s: string): int { if DigitCount(s) > 0 then Number(s[..DigitCount(s)]) else -1 }

  /** A range `n..m` behind the opening character of s; the rest starts with the closing one. */
  function NumRangeAt(s: string, closing: char): Option<(Bounds, string)>
    requires s != ""
  {
    var t := s[1..];
    var u := t[DigitCount(t)..];
    if !Starts(u, "..") then None
    else
      var v := u[2..];
      var w := v[DigitCount(v)..];
      if Starts(w, [closing]) then Some((Bounds(BoundAt(t), BoundAt(v)), w)) else None
  }

  lemma NumRangeShortens(s: string, closing: char)
    requires s != "" && NumRangeAt(s, closing).Some?
    ensures 0 < |NumRangeAt(s, closing).value.1| < |s|
  {
  }

  /** Does literal text end before s? */
  predicate LiteralEnds(s: string) { s == "" || s[0] == '?' || s[0] == '{' || s[0] == '*' }

  /** Literal text: a backslash quotes the next character; a bracket that starts a numeric range
      is the last character of the text, and still stands before the rest. */
  function LiteralAt(s: string): (p: Parsed<string>)
    ensures p.Parsed? ==> |p.rest| <= |s| && (!LiteralEnds(s) ==> |p.rest| < |s| || Bracket(s))
    ensures p.Parsed? && !LiteralEnds(s) ==> p.value != ""
    decreases |s|
  {
    if LiteralEnds(s) then Parsed("", s)
    else
      var t := if s[0] == '\\' then s[1..] else s;
      if t == "" then Dangling
      else if Bracket(t) then Parsed([t[0]], t)
      else
        match LiteralAt(t[1..])
        case Parsed(v, rest) => Parsed([t[0]] + v, rest)
        case Unmatched => Unmatched
        case Dangling => Dangling
  }

  predicate Bracket(s: string) { s != "" && s[0] == '[' && NumRangeAt(s, ']').Some? }

  /** The ranges of a set up to the closing brace, which may be the first character. */
  function RangesAt(s: string, first: bool): (p: Parsed<string>)
    ensures p.Parsed? ==> |p.rest| <= |s| && |p.value| % 2 == 0
    decreases |s|
  {
    if s == "" then Unmatched
    else if s[0] == '}' && !first then Parsed("", s[1..])
    else
      var range := |s| > 2 && s[1] == '-' && s[2] != '}';
      match RangesAt(if range then s[3..] else s[1..], false)
      case Parsed(v, rest) => Parsed([s[0], if range then s[2] else s[0]] + v, rest)
      case Unmatched => Unmatched
      case Dangling => Dangling
  }

  function SetAt(s: string): (p: Parsed<Elem>)
    requires s != ""
    ensures p.Parsed? ==> |p.rest| < |s| && (p.value.CharSet? || p.value.NegSet?) && |p.value.ranges| % 2 == 0
  {
    var negated := |s| > 1 && s[1] == '^';
    match RangesAt(if negated then s[2..] else s[1..], true)
    case Parsed(v, rest) => Parsed(if negated then NegSet(v) else CharSet(v), rest)
    case Unmatched => Unmatched
    case Dangling => Dangling
  }

  /** The element s starts with; afterLiteral: the one before it is a literal. */
  function ElemAt(s: string, afterLiteral: bool, dotted: bool): (p: Parsed<Elem>)
    requires s != ""
    ensures p.Parsed? ==> |p.rest| < |s| || (p.rest == s && !afterLiteral && p.value.Literal?)
    ensures p.Parsed? ==> !p.value.End? && (p.value.CharSet? || p.value.NegSet? ==> |p.value.ranges| % 2 == 0)
  {
    if s[0] == '?' then Parsed(if dotted then CommonChar else AnyChar, s[1..])
    else if s[0] == '{' && NumRangeAt(s, '}').Some? then
      var (b, rest) := NumRangeAt(s, '}').value;
      Parsed(NumRange(b.lo, b.up), rest[1..])
    else if s[0] == '{' then SetAt(s)
    else if s[0] == '*' then
      if Starts(s, "**") then Parsed(AnySeq, s[2..]) else Parsed(if dotted then CommonSeq else AnySeq, s[1..])
    else if s[0] == '[' && afterLiteral && NumRangeAt(s, ']').Some? then
      var (b, rest) := NumRangeAt(s, ']').value;
      Parsed(NumRange(b.lo, b.up), rest)
    else
      match LiteralAt(s)
      case Parsed(v, rest) => Parsed(Literal(v), rest)
      case Unmatched => Unmatched
      case Dangling => Dangling
  }

  function Prepend<T>(v: seq<T>, p: Parsed<seq<T>>): Parsed<seq<T>> {
    match p
    case Parsed(w, rest) => Parsed(v + w, rest)
    case Unmatched => Unmatched
    case Dangling => Dangling
  }

  lemma PrependNothing<T>(p: Parsed<seq<T>>)
    ensures Prepend([], p) == p
  {
    if p.Parsed? { assert [] + p.value == p.value; }
  }

  lemma TokensWhole<T>(v: seq<T>, p: Parsed<seq<T>>)
    requires p.Parsed? && p.value == []
    ensures Prepend(v, p) == Parsed(v, p.rest)
  {
    assert v + [] == v;
  }

  lemma PrependTwice<T>(v: seq<T>, w: seq<T>, p: Parsed<seq<T>>)
    ensures Prepend(v, Prepend(w, p)) == Prepend(v + w, p)
  {
    if p.Parsed? { assert v + (w + p.value) == v + w + p.value; }
  }

  /** All elements of a text. A literal may stop without using up a bracket, but not twice. */
  function Tokens(s: string, afterLiteral: bool, dotted: bool): Parsed<seq<Elem>>
    decreases 2 * |s| + if afterLiteral then 0 else 1
  {
    if s == "" then Parsed([], "")
    else
      match ElemAt(s, afterLiteral, dotted)
      case Parsed(e, rest) => Prepend([e], Tokens(rest, e.Literal?, dotted))
      case Unmatched => Unmatched
      case Dangling => Dangling
  }

  /** A substring match has ** at both ends, unless already there. */
  function Bordered(es: seq<Elem>): seq<Elem> {
    var back := if es == [] || es[|es| - 1] != AnySeq then es + [AnySeq] else es;
    if back[0] != AnySeq then [AnySeq] + back else back
  }

  function Patterned(es: seq<Elem>, fullstring: bool): seq<Elem> { if fullstring then es else Bordered(es) }

  // ---------- patterns without wildcards ----------

  predicate ContainsWildcards(p: string) {
    '?' in p || '*' in p || '\\' in p || '{' in p || exists i :: 0 <= i <= |p| && Starts(p[i..], "..")
  }

  lemma NoWildcardsBehind(p: string, n: nat)
    requires !ContainsWildcards(p) && n <= |p|
    ensures !ContainsWildcards(p[n..])
  {
    forall i | 0 <= i <= |p[n..]| ensures !Starts(p[n..][i..], "..") {
      assert p[n..][i..] == p[n + i..];
      assert !Starts(p[n + i..], "..");
    }
  }

  lemma NoRange(p: string, closing: char)
    requires !ContainsWildcards(p) && p != ""
    ensures NumRangeAt(p, closing) == None
  {
    var i := 1 + DigitCount(p[1..]);
    assert p[1..][DigitCount(p[1..])..] == p[i..];
    assert !Starts(p[i..], "..");
  }

  lemma {:induction false} PlainLiteral(p: string)
    requires !ContainsWildcards(p)
    ensures LiteralAt(p) == Parsed(p, "")
    decreases |p|
  {
    if p != "" {
      assert p[0] in p;
      NoRange(p, ']');
      NoWildcardsBehind(p, 1);
      PlainLiteral(p[1..]);
      assert [p[0]] + p[1..] == p;
    }
  }

  lemma {:induction false} LiteralMatchesItself(p: string, dotted: bool, line: string)
    ensures Prepend([Literal(p)], Tokens("", true, dotted)) == Parsed([Literal(p)], "")
    ensures Matches([Literal(p)], line) <==> line == p
  {
    assert Tokens("", true, dotted) == Parsed([], "");
    assert [Literal(p)] + [] == [Literal(p)];
    assert Matches([Literal(p)], line) <==> p <= line && Matches([], line[|p|..]);
  }

  /** A text without wildcards is matched by itself alone. */
  lemma {:induction false} PlainMatchesItself(p: string, dotted: bool, line: string)
    requires !ContainsWildcards(p)
    ensures Tokens(p, false, dotted) == Parsed(if p == "" then [] else [Literal(p)], "")
    ensures Matches(Tokens(p, false, dotted).value, line) <==> line == p
  {
    if p != "" {
      assert p[0] in p;
      PlainLiteral(p);
      assert ElemAt(p, false, dotted) == Parsed(Literal(p), "");
      LiteralMatchesItself(p, dotted, line);
    }
  }

  // ---------- quoted text ----------

  /** The text with a backslash before every character. */
  function Quoted(p: string): string {
    if p == "" then "" else ['\\', p[0]] + Quoted(p[1..])
  }

  /** Where every character is quoted, no numeric range starts, whatever the characters are. */
  lemma {:induction false} NoQuotedRange(c: char, p: string, closing: char)
    ensures NumRangeAt([c] + Quoted(p), closing) == None
  {
    var t := Quoted(p);
    assert ([c] + t)[1..] == t;
    assert DigitCount(t) == 0 && t[0..] == t;
    assert !Starts(t, "..");
  }

  lemma {:induction false} QuotedChar(c: char, rest: string)
    requires NumRangeAt([c] + rest, ']') == None
    ensures LiteralAt(['\\', c] + rest) == Prepend([c], LiteralAt(rest))
  {
    hide NumRangeAt;
    var s, t := ['\\', c] + rest, [c] + rest;
    assert s[0] == '\\' && s[1..] == t && t[0] == c && t[1..] == rest;
    assert !LiteralEnds(s) && !Bracket(t);
  }

  lemma {:induction false} QuotedLiteral(p: string)
    ensures LiteralAt(Quoted(p)) == Parsed(p, "")
    decreases |p|
  {
    if p != "" {
      hide LiteralAt, NumRangeAt;
      NoQuotedRange(p[0], p[1..], ']');
      QuotedChar(p[0], Quoted(p[1..]));
      QuotedLiteral(p[1..]);
      assert [p[0]] + p[1..] == p;
    }
  }

  /** Quoting every character makes a pattern that is matched by the text itself alone. */
  lemma {:induction false} QuotedMatchesItself(p: string, dotted: bool, line: string)
    ensures Tokens(Quoted(p), false, dotted) == Parsed(if p == "" then [] else [Literal(p)], "")
    ensures Matches(Tokens(Quoted(p), false, dotted).value, line) <==> line == p
  {
    if p != "" {
      QuotedLiteral(p);
      assert ElemAt(Quoted(p), false, dotted) == Parsed(Literal(p), "");
      LiteralMatchesItself(p, dotted, line);
    }
  }

  // ---------- substring matches ----------

  /** Elements that take the same text wherever it stands: all but numeric ranges, which take all the
      digits there are. */
  predicate NoRanges(es: seq<Elem>) { forall i :: 0 <= i < |es| ==> !es[i].NumRange? }

  /** The element takes exactly this text. */
  predicate Takes(e: Elem, t: string) {
    match e
    case Literal(l) => t == l
    case AnyChar => |t| == 1
    case CommonChar => |t| == 1 && t[0] != '.'
    case CharSet(r) => |t| == 1 && InSet(t[0], r)
    case NegSet(r) => |t| == 1 && !InSet(t[0], r)
    case AnySeq => true
    case CommonSeq => '.' !in t
    case _ => false
  }

  /** The first element takes n characters, and the others the rest. */
  predicate SplitsAt(es: seq<Elem>, s: string, n: int) {
    es != [] && 0 <= n <= |s| && Takes(es[0], s[..n]) && Matches(es[1..], s[n..])
  }

  lemma {:induction false} MatchesSplit(es: seq<Elem>, s: string)
    requires es != [] && !es[0].NumRange?
    ensures Matches(es, s) <==> exists n :: SplitsAt(es, s, n)
  {
    if Matches(es, s) {
      var n := match es[0]
        case Literal(l) => |l|
        case AnySeq => var i :| 0 <= i <= |s| && Matches(es[1..], s[i..]); i
        case CommonSeq => var i :| 0 <= i <= |s| && '.' !in s[..i] && Matches(es[1..], s[i..]); i
        case _ => 1;
      assert SplitsAt(es, s, n);
    }
    if n :| SplitsAt(es, s, n) {
      assert n > 0 ==> s[..n][0] == s[0];
    }
  }

  /** Some beginning of the line matches. */
  predicate SomePrefix(es: seq<Elem>, s: string) { exists j :: 0 <= j <= |s| && Matches(es, s[..j]) }

  lemma SplitPrefix(es: seq<Elem>, s: string, j: int, n: int)
    requires 0 <= n <= j <= |s|
    ensures SplitsAt(es, s[..j], n) <==> es != [] && Takes(es[0], s[..n]) && Matches(es[1..], s[n..][..j - n])
  {
    assert s[..j][..n] == s[..n] && s[..j][n..] == s[n..][..j - n];
  }

  /** With ** behind, a beginning of the line is all that has to match. */
  lemma {:induction false} OpenEnd(es: seq<Elem>, s: string)
    requires NoRanges(es)
    ensures Matches(es + [AnySeq], s) <==> SomePrefix(es, s)
    decreases |es|
  {
    if es == [] {
      TrailingAnySeq(s);
      assert Matches([], s[..0]);
    } else {
      var fs := es + [AnySeq];
      assert fs[0] == es[0] && fs[1..] == es[1..] + [AnySeq] && NoRanges(es[1..]);
      MatchesSplit(fs, s);
      hide Matches, Takes, InSet;
      if Matches(fs, s) {
        var n :| SplitsAt(fs, s, n);
        OpenEnd(es[1..], s[n..]);
        var j :| 0 <= j <= |s[n..]| && Matches(es[1..], s[n..][..j]);
        SplitPrefix(es, s, n + j, n);
        MatchesSplit(es, s[..n + j]);
      }
      if SomePrefix(es, s) {
        var j :| 0 <= j <= |s| && Matches(es, s[..j]);
        MatchesSplit(es, s[..j]);
        var n :| SplitsAt(es, s[..j], n);
        SplitPrefix(es, s, j, n);
        OpenEnd(es[1..], s[n..]);
        assert Matches(es[1..], s[n..][..j - n]);
        assert SplitsAt(fs, s, n);
      }
    }
  }

  /** Elements that end in ** match a line as soon as they match a beginning of it. */
  lemma {:induction false} OpenAlready(es: seq<Elem>, s: string)
    requires NoRanges(es) && es != [] && es[|es| - 1] == AnySeq
    ensures Matches(es, s) <==> SomePrefix(es, s)
  {
    var fs := es[..|es| - 1];
    assert es == fs + [AnySeq] && s[..|s|] == s;
    OpenEnd(fs, s);
    hide Matches;
    if j :| 0 <= j <= |s| && Matches(es, s[..j]) {
      OpenEnd(fs, s[..j]);
      var i :| 0 <= i <= |s[..j]| && Matches(fs, s[..j][..i]);
      assert s[..j][..i] == s[..i];
    }
  }

  /** Some part of the line matches. */
  predicate SomePart(es: seq<Elem>, s: string) { exists i :: 0 <= i <= |s| && SomePrefix(es, s[i..]) }

  /** Elements without numeric ranges match as a substring if and only if some part of the line
      matches them. */
  lemma {:induction false} SubstringIsSomePart(es: seq<Elem>, s: string)
    requires NoRanges(es)
    ensures Matches(Bordered(es), s) <==> SomePart(es, s)
  {
    var back := if es == [] || es[|es| - 1] != AnySeq then es + [AnySeq] else es;
    forall i | 0 <= i <= |s| ensures Matches(back, s[i..]) <==> SomePrefix(es, s[i..]) {
      if back == es { OpenAlready(es, s[i..]); } else { OpenEnd(es, s[i..]); }
    }
    SequenceMatches([AnySeq] + back, s);
    assert ([AnySeq] + back)[1..] == back;
    if back[0] == AnySeq {
      StartsOpen(back, s);
      assert Bordered(es) == back;
    }
    hide Matches, SomePrefix;
  }

  /** A second ** in front changes nothing. */
  lemma {:induction false} StartsOpen(es: seq<Elem>, s: string)
    requires es != [] && es[0] == AnySeq
    ensures Matches(es, s) <==> exists i :: 0 <= i <= |s| && Matches(es, s[i..])
  {
    SequenceMatches(es, s);
    assert s[0..] == s;
    if i :| 0 <= i <= |s| && Matches(es, s[i..]) {
      SequenceMatches(es, s[i..]);
      var j :| 0 <= j <= |s[i..]| && Matches(es[1..], s[i..][j..]);
      assert s[i..][j..] == s[i + j..];
    }
  }

  /** With a numeric range it is not so: a part of the digits matches, but the range takes them all. */
  lemma RangesTakeAllDigits()
    ensures var es := [NumRange(1, 1)];
      SomePart(es, "12") && !Matches(Bordered(es), "12")
  {
    var e := NumRange(1, 1);
    assert Matches([e], "1") by {
      assert DigitCount("1") == 1 && "1"[..1] == "1" && Number("1") == 1;
      assert Matches([], "1"[1..]);
    }
    assert "12"[0..][..1] == "1";
    var back := [e] + [AnySeq];
    assert Bordered([e]) == [AnySeq] + back && ([AnySeq] + back)[1..] == back;
    SequenceMatches([AnySeq] + back, "12");
    forall i | 0 <= i <= 2 ensures !Matches(back, "12"[i..]) {
      DigitsOf12(i);
    }
  }

  lemma DigitsOf12(i: nat)
    requires i <= 2
    ensures var s := "12"[i..]; DigitCount(s) == 2 - i && (i < 2 ==> Number(s[..2 - i]) > 1)
  {
    assert "12"[0..] == "12" && "12"[1..] == "2" && "12"[2..] == "2"[1..] == "";
    assert DigitCount("") == 0 && DigitCount("2") == 1 && DigitCount("12") == 2;
    assert "12"[..2] == "12" && "12"[..1] == "1" && "1"[..0] == "2"[..0] == "" && "2"[..1] == "2";
    assert Number("") == 0 && Number("1") == 1 && Number("2") == 2 && Number("12") == 12;
  }
}
