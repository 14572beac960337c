/** PatternMatcher: glob patterns set from text and matched against lines, case-sensitively. */
module PatternMatchers {
  import opened Basics
  import opened PatternSyntax

  datatype Outcome = Done | UnmatchedBrace | DanglingBackslash

  class PatternMatcher {
    var pattern: seq<Elem>

    /** The elements are closed by the only End; sets hold pairs of characters. */
    predicate Valid()
      reads this
    {
      pattern != [] && pattern[|pattern| - 1].End? && WellFormed(Body())
    }

    static predicate WellFormed(es: seq<Elem>) {
      forall i :: 0 <= i < |es| ==>
        !es[i].End? && (es[i].CharSet? || es[i].NegSet? ==> |es[i].ranges| % 2 == 0)
    }

    function Body(): seq<Elem>
      requires pattern != []
      reads this
    {
      pattern[..|pattern| - 1]
    }

    constructor ()
      ensures pattern == []
    {
      pattern := [];
    }

    static method SkipDigits(s: string) returns (rest: string)
      ensures rest == s[DigitCount(s)..]
    {
      rest := s;
      while rest != "" && IsDigit(rest[0])
        invariant |rest| <= |s| && rest == s[|s| - |rest|..]
        invariant rest[DigitCount(rest)..] == s[DigitCount(s)..]
        decreases |rest|
      {
        rest := rest[1..];
      }
    }

    /** Try to parse a numeric range; the rest starts with the closing character. */
    static method ParseNumRange(str: string, closing: char) returns (ok: bool, lo: int, up: int, rest: string)
      requires str != ""
      ensures ok == NumRangeAt(str, closing).Some?
      ensures if ok then NumRangeAt(str, closing) == Some((Bounds(lo, up), rest)) else rest == str
    {
      ok, lo, up, rest := false, -1, -1, str;
      var s := str[1..];
      if s != "" && IsDigit(s[0]) {
        lo := Number(s[..DigitCount(s)]);
        s := SkipDigits(s);
      }
      if !Starts(s, "..") {
        return;
      }
      s := s[2..];
      if s != "" && IsDigit(s[0]) {
        up := Number(s[..DigitCount(s)]);
        s := SkipDigits(s);
      }
      if !Starts(s, [closing]) {
        return;
      }
      ok, rest := true, s;
    }

    /** Read literal text up to a wildcard or a bracketed range. */
    static method ParseLiteralString(str: string) returns (p: Parsed<string>)
      ensures p == LiteralAt(str)
    {
      var s, text := str, "";
      PrependNothing(LiteralAt(s));
      while s != "" && s[0] != '?' && s[0] != '{' && s[0] != '*'
        invariant LiteralAt(str) == Prepend(text, LiteralAt(s))
        decreases |s|
      {
        PrependTwice(text, [if s[0] == '\\' && |s| > 1 then s[1] else s[0]],
                     LiteralAt(if s[0] == '\\' && |s| > 1 then s[2..] else s[1..]));
        if s[0] == '\\' {
          s := s[1..];
          if s == "" {
            return Dangling;
          }
        }
        text := text + [s[0]];
        if s[0] == '[' {
          var ok, _, _, _ := ParseNumRange(s, ']');
          if ok {
            return Parsed(text, s);
          }
        }
        s := s[1..];
      }
      assert text + "" == text;
      p := Parsed(text, s);
    }

    /** Read a set; a closing brace right behind the opening one belongs to it. */
    static method ParseSet(str: string) returns (p: Parsed<Elem>)
      requires str != ""
      ensures p == SetAt(str)
    {
      var s, negated := str[1..], false;
      if s != "" && s[0] == '^' {
        negated, s := true, s[1..];
      }
      var sbeg, ranges := s, "";
      PrependNothing(RangesAt(s, true));
      while s != "" && (s[0] != '}' || s == sbeg)
        invariant |s| <= |sbeg| && (|s| == |sbeg| ==> s == sbeg)
        invariant RangesAt(sbeg, true) == Prepend(ranges, RangesAt(s, s == sbeg))
        decreases |s|
      {
        ghost var before, range := s, |s| > 2 && s[1] == '-' && s[2] != '}';
        PrependTwice(ranges, [s[0], if range then s[2] else s[0]], RangesAt(if range then s[3..] else s[1..], false));
        if |s| > 2 && s[1] == '-' && s[2] != '}' {
          ranges, s := ranges + [s[0], s[2]], s[3..];
        } else {
          ranges, s := ranges + [s[0], s[0]], s[1..];
        }
      }
      if s == "" {
        return Unmatched;
      }
      assert ranges + "" == ranges;
      s := s[1..];
      p := Parsed(if negated then NegSet(ranges) else CharSet(ranges), s);
    }

    /** The element at the start of the text. */
    method ParseElem(s: string, dottedpath: bool) returns (p: Parsed<Elem>)
      requires s != ""
      ensures p == ElemAt(s, pattern != [] && pattern[|pattern| - 1].Literal?, dottedpath)
    {
      hide NumRangeAt, SetAt, LiteralAt;
      var ok, lo, up, rest := false, -1, -1, s;
      if s[0] == '?' {
        return Parsed(if dottedpath then CommonChar else AnyChar, s[1..]);
      } else if s[0] == '[' {
        if pattern != [] && pattern[|pattern| - 1].Literal? {
          ok, lo, up, rest := ParseNumRange(s, ']');
        }
        if ok {
          return Parsed(NumRange(lo, up), rest);
        }
      } else if s[0] == '{' {
        ok, lo, up, rest := ParseNumRange(s, '}');
        if ok {
          NumRangeShortens(s, '}');
          return Parsed(NumRange(lo, up), rest[1..]);
        }
        p := ParseSet(s);
        return;
      } else if s[0] == '*' {
        if |s| > 1 && s[1] == '*' {
          return Parsed(AnySeq, s[2..]);
        }
        return Parsed(if dottedpath then CommonSeq else AnySeq, s[1..]);
      }
      var text := ParseLiteralString(s);
      match text
      case Parsed(v, r) => p := Parsed(Literal(v), r);
      case Unmatched => p := Unmatched;
      case Dangling => p := Dangling;
    }

    /** Cut the text into the elements of the pattern. */
    method SetPattern(patt: string, dottedpath: bool, fullstring: bool) returns (r: Outcome)
      modifies this
      ensures r == match Tokens(patt, false, dottedpath)
                   case Parsed(_, _) => Done
                   case Unmatched => UnmatchedBrace
                   case Dangling => DanglingBackslash
      ensures r == Done ==> Valid() && Body() == Patterned(Tokens(patt, false, dottedpath).value, fullstring)
    {
      pattern := [];
      var s := patt;
      PrependNothing(Tokens(s, false, dottedpath));
      hide ElemAt;
      while s != ""
        invariant WellFormed(pattern)
        invariant Tokens(patt, false, dottedpath) ==
          Prepend(pattern, Tokens(s, pattern != [] && pattern[|pattern| - 1].Literal?, dottedpath))
        decreases 2 * |s| + if pattern != [] && pattern[|pattern| - 1].Literal? then 0 else 1
      {
        var e := ParseElem(s, dottedpath);
        match e
        case Parsed(v, rest) =>
          PrependTwice(pattern, [v], Tokens(rest, v.Literal?, dottedpath));
          pattern, s := pattern + [v], rest;
        case Unmatched => return UnmatchedBrace;
        case Dangling => return DanglingBackslash;
      }
      TokensWhole(pattern, Tokens(s, pattern != [] && pattern[|pattern| - 1].Literal?, dottedpath));
      hide Tokens;
      Close(fullstring);
      return Done;
    }

    /** A substring match gets ** at both ends; then the pattern ends. */
    method Close(fullstring: bool)
      requires WellFormed(pattern)
      modifies this
      ensures Valid() && Body() == Patterned(old(pattern), fullstring)
    {
      if !fullstring {
        if pattern == [] || pattern[|pattern| - 1] != AnySeq {
          pattern := pattern + [AnySeq];
        }
        if pattern[0] != AnySeq {
          pattern := [AnySeq] + pattern;
        }
      }
      pattern := pattern + [End];
    }

    static method IsInSet(c: char, ranges: string) returns (b: bool)
      requires |ranges| % 2 == 0
      ensures b <==> InSet(c, ranges)
    {
      var i := 0;
      while i < |ranges| / 2
        invariant i <= |ranges| / 2 && forall j :: 0 <= j < i ==> !(ranges[2 * j] <= c <= ranges[2 * j + 1])
      {
        if ranges[2 * i] <= c <= ranges[2 * i + 1] {
          return true;
        }
        i := i + 1;
      }
      return false;
    }

    /** What an element that is no sequence takes off the line. */
    method Take(e: Elem, s: string, ghost es: seq<Elem>) returns (ok: bool, rest: string)
      requires es != [] && es[0] == e && !e.AnySeq? && !e.CommonSeq? && !e.End?
      requires e.CharSet? || e.NegSet? ==> |e.ranges| % 2 == 0
      ensures Matches(es, s) <==> ok && Matches(es[1..], rest)
    {
      hide InSet, Number;
      ok, rest := false, s;
      if e.Literal? {
        if e.text <= s {
          ok, rest := true, s[|e.text|..];
        }
      } else if e.NumRange? {
        if s != "" && IsDigit(s[0]) {
          var num := Number(s[..DigitCount(s)]);
          rest := SkipDigits(s);
          ok := InRange(num, e.lo, e.up);
        }
      } else if s != "" {
        rest := s[1..];
        if e.AnyChar? {
          ok := true;
        } else if e.CommonChar? {
          ok := s[0] != '.';
        } else {
          var inside := IsInSet(s[0], e.ranges);
          ok := inside == e.CharSet?;
        }
      }
    }

    /** Match a line against the elements from place k on. */
    method DoMatch(line: string, from: nat) returns (b: bool)
      requires Valid() && from < |pattern|
      ensures b <==> Matches(Body()[from..], line)
      decreases |pattern| - from, 0
    {
      hide Matches;
      var s, k := line, from;
      while pattern[k] != End
        invariant k < |pattern| && (Matches(Body()[from..], line) <==> Matches(Body()[k..], s))
        decreases |pattern| - k
      {
        var e := pattern[k];
        ghost var es := Body()[k..];
        assert es[0] == e && es[1..] == Body()[k + 1..];
        if e == AnySeq {
          b := MatchAnySeq(s, k);
          return;
        } else if e == CommonSeq {
          SequenceMatches(es, s);
          b := Split(s, k + 1, true);
          return;
        }
        var ok;
        ok, s := Take(e, s, es);
        if !ok {
          return false;
        }
        k := k + 1;
      }
      assert Body()[k..] == [];
      NothingMatches(s);
      return s == "";
    }

    /** A ** at place k: at the end of the pattern, or before a literal at its end, a look at the
        end of the line is enough. */
    method MatchAnySeq(s: string, k: nat) returns (b: bool)
      requires Valid() && k < |pattern| && pattern[k] == AnySeq
      ensures b <==> Matches(Body()[k..], s)
      decreases |pattern| - k - 1, 2
    {
      hide Matches;
      ghost var es := Body()[k..];
      if k == |pattern| - 2 {
        TrailingAnySeq(s);
        assert es == [AnySeq];
        return true;
      }
      if k == |pattern| - 3 && pattern[k + 1].Literal? {
        TrailingLiteral(pattern[k + 1].text, s);
        assert es == [AnySeq, pattern[k + 1]];
        return EndsWith(s, pattern[k + 1].text);
      }
      assert es[0] == AnySeq && es[1..] == Body()[k + 1..];
      SequenceMatches(es, s);
      b := Split(s, k + 1, false);
    }

    /** Try the rest of the pattern behind ever more of the line: all of it, or up to a dot. */
    method Split(line: string, k: nat, common: bool) returns (b: bool)
      requires Valid() && k < |pattern|
      ensures b <==> exists i :: 0 <= i <= |line| && (common ==> '.' !in line[..i]) && Matches(Body()[k..], line[i..])
      decreases |pattern| - k, 1
    {
      var s := line;
      ghost var n := 0;
      while true
        invariant n <= |line| && s == line[n..] && (common ==> '.' !in line[..n])
        invariant forall i :: 0 <= i < n ==> !Matches(Body()[k..], line[i..])
        decreases |s|
      {
        b := DoMatch(s, k);
        if b {
          return;
        }
        if s == "" || (common && s[0] == '.') {
          return false;
        }
        s, n := s[1..], n + 1;
      }
    }

    /** Does the line match the pattern? A look at the last two characters comes first. */
    method MatchesLine(line: string) returns (b: bool)
      requires Valid()
      ensures b <==> Matches(Body(), line)
    {
      if |pattern| >= 2 {
        var e := pattern[|pattern| - 2];
        if e.Literal? {
          var m, n := |e.text|, |line|;
          if m >= 2 && n >= 2 && (line[n - 1] != e.text[m - 1] || line[n - 2] != e.text[m - 2]) {
            if Matches(Body(), line) {
              LastTwo(Body(), line);
            }
            return false;
          }
        }
      }
      assert Body()[0..] == Body();
      b := DoMatch(line, 0);
    }
  }
}
