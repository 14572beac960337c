/** What the text of a pattern accepts: patterns spelled out of literal text and wildcards are read back
    piece by piece, and each piece accepts what its spelling is documented to mean. */
module PatternMeaning {
  import opened Basics
  import opened PatternSyntax

  // ---------- patterns as they are meant, and their spelling ----------

  /** A character of literal text, with or without a backslash before it. */
  datatype Glyph = Glyph(c: char, quoted: bool)

  /** A character of a set, or a range of them. */
  datatype Item = Single(c: char) | Range(lo: char, hi: char)

  /** lo and up are the digits of the bounds; no digits leave a bound open. */
  datatype Piece =
    | Text(glyphs: seq<Glyph>)
    | One
    | Star
    | Stars
    | Set(negated: bool, items: seq<Item>)
    | Between(lo: string, up: string)

  function Chars(gs: seq<Glyph>): string {
    if gs == [] then "" else [gs[0].c] + Chars(gs[1..])
  }

  function SpellGlyph(g: Glyph): string { if g.quoted then ['\\', g.c] else [g.c] }

  function SpellText(gs: seq<Glyph>): string { if gs == [] then "" else SpellGlyph(gs[0]) + SpellText(gs[1..]) }

  function SpellItem(i: Item): string {
    match i
    case Single(c) => [c]
    case Range(lo, hi) => [lo, '-', hi]
  }

  function SpellItems(items: seq<Item>): string {
    if items == [] then "" else SpellItem(items[0]) + SpellItems(items[1..])
  }

  function Spell(p: Piece): string {
    match p
    case Text(gs) => SpellText(gs)
    case One => "?"
    case Star => "*"
    case Stars => "**"
    case Set(negated, items) => (if negated then "{^" else "{") + SpellItems(items) + "}"
    case Between(lo, up) => "{" + lo + ".." + up + "}"
  }

  function SpellAll(ps: seq<Piece>): string { if ps == [] then "" else Spell(ps[0]) + SpellAll(ps[1..]) }

  predicate Digits(s: string) { forall i :: 0 <= i < |s| ==> IsDigit(s[i]) }

  /** Does a range of numbers with its closing character stand here? */
  ghost predicate RangeText(s: string, closing: char) {
    exists lo, up :: Digits(lo) && Digits(up) && lo + ".." + up + [closing] <= s
  }

  /** Characters that mean something are quoted, and no bracket, quoted or not, starts a numeric range. */
  ghost predicate GlyphOk(gs: seq<Glyph>, i: nat)
    requires i < |gs|
  {
    var c := gs[i].c;
    (!gs[i].quoted ==> c != '?' && c != '*' && c != '{' && c != '\\') &&
    (c == '[' ==> !RangeText(SpellText(gs[i + 1..]), ']'))
  }

  ghost predicate TextOk(gs: seq<Glyph>) { forall i :: 0 <= i < |gs| ==> GlyphOk(gs, i) }

  /** A closing brace comes first or ends a set, a caret in front would negate it, and a minus between two
      characters makes a range of them. */
  predicate ItemsOk(items: seq<Item>, first: bool) {
    items != [] ==>
      (first || SpellItem(items[0])[0] != '}') && ItemsOk(items[1..], false) &&
      match items[0]
      case Single(c) => |items| > 1 && SpellItem(items[1])[0] == '-' ==> items[1..] == [Single('-')]
      case Range(lo, hi) => hi != '}'
  }

  ghost predicate SetOk(negated: bool, items: seq<Item>) {
    items != [] && ItemsOk(items, true) &&
    (negated || (SpellItem(items[0])[0] != '^' && !RangeText(SpellItems(items) + "}", '}')))
  }

  ghost predicate PieceOk(p: Piece) {
    match p
    case Text(gs) => gs != [] && TextOk(gs)
    case Set(negated, items) => SetOk(negated, items)
    case Between(lo, up) => Digits(lo) && Digits(up)
    case _ => true
  }

  /** The pieces are spelled apart: no text next to text, and no single star before a star. */
  ghost predicate WellSpelled(ps: seq<Piece>) {
    (forall i :: 0 <= i < |ps| ==> PieceOk(ps[i])) &&
    forall i :: 0 < i < |ps| ==>
      !(ps[i - 1].Text? && ps[i].Text?) && !(ps[i - 1].Star? && (ps[i].Star? || ps[i].Stars?))
  }

  // ---------- what they accept ----------

  predicate InItem(c: char, i: Item) {
    match i
    case Single(x) => c == x
    case Range(lo, hi) => lo <= c <= hi
  }

  predicate InItems(c: char, items: seq<Item>) { exists i :: 0 <= i < |items| && InItem(c, items[i]) }

  /** The piece accepts just this text. In dotted mode single wildcards do not accept dots. */
  predicate Fits(p: Piece, t: string, dotted: bool) {
    match p
    case Text(gs) => t == Chars(gs)
    case One => |t| == 1 && (dotted ==> t[0] != '.')
    case Star => dotted ==> '.' !in t
    case Stars => true
    case Set(negated, items) => |t| == 1 && negated != InItems(t[0], items)
    case Between(lo, up) =>
      t != "" && Digits(t) && (lo != "" ==> Number(lo) <= Number(t)) && (up != "" ==> Number(t) <= Number(up))
  }

  /** A numeric range takes all the digits there are. */
  predicate Stops(p: Piece, s: string, n: nat)
    requires n <= |s|
  {
    p.Between? && n < |s| ==> !IsDigit(s[n])
  }

  /** The line can be cut into parts that the pieces accept in turn. */
  predicate Accepts(ps: seq<Piece>, s: string, dotted: bool)
    decreases |ps|
  {
    if ps == [] then s == ""
    else
      exists n :: 0 <= n <= |s| && Fits(ps[0], s[..n], dotted) && Stops(ps[0], s, n) && Accepts(ps[1..], s[n..], dotted)
  }

  // ---------- the elements they are read as ----------

  function Pairs(items: seq<Item>): string {
    if items == [] then ""
    else
      (match items[0]
       case Single(c) => [c, c]
       case Range(lo, hi) => [lo, hi]) + Pairs(items[1..])
  }

  function Bound(digits: string): int { if digits == "" then -1 else Number(digits) }

  function ElemOf(p: Piece, dotted: bool): Elem {
    match p
    case Text(gs) => Literal(Chars(gs))
    case One => if dotted then CommonChar else AnyChar
    case Star => if dotted then CommonSeq else AnySeq
    case Stars => AnySeq
    case Set(negated, items) => if negated then NegSet(Pairs(items)) else CharSet(Pairs(items))
    case Between(lo, up) => NumRange(Bound(lo), Bound(up))
  }

  function ElemsOf(ps: seq<Piece>, dotted: bool): seq<Elem> {
    if ps == [] then [] else [ElemOf(ps[0], dotted)] + ElemsOf(ps[1..], dotted)
  }

  // ---------- literal text ----------

  lemma {:induction false} DigitsCounted(d: string, rest: string)
    requires Digits(d) && (rest == "" || !IsDigit(rest[0]))
    ensures DigitCount(d + rest) == |d|
    decreases |d|
  {
    if d == "" {
      assert d + rest == rest;
    } else {
      assert (d + rest)[1..] == d[1..] + rest;
      DigitsCounted(d[1..], rest);
    }
  }

  lemma ReadsRange(open: char, lo: string, up: string, closing: char, rest: string)
    requires Digits(lo) && Digits(up) && !IsDigit(closing)
    ensures NumRangeAt([open] + lo + ".." + up + [closing] + rest, closing) ==
            Some((Bounds(Bound(lo), Bound(up)), [closing] + rest))
  {
    var s := [open] + lo + ".." + up + [closing] + rest;
    var t, v, w := lo + (".." + up + [closing] + rest), up + ([closing] + rest), [closing] + rest;
    assert s[1..] == t;
    DigitsCounted(lo, ".." + up + [closing] + rest);
    assert t[|lo|..] == ".." + up + [closing] + rest && t[..|lo|] == lo;
    assert t[|lo|..][2..] == v;
    DigitsCounted(up, w);
    assert v[|up|..] == w && v[..|up|] == up;
  }

  /** A numeric range is read exactly where one stands. */
  lemma RangeRead(c: char, s: string, closing: char)
    requires !IsDigit(closing)
    ensures NumRangeAt([c] + s, closing).Some? <==> RangeText(s, closing)
  {
    hide NumRangeAt, DigitCount, Number;
    if NumRangeAt([c] + s, closing).Some? { RangeSeen(c, s, closing); }
    if lo, up :| Digits(lo) && Digits(up) && lo + ".." + up + [closing] <= s {
      var rest := s[|lo| + 2 + |up| + 1..];
      ReadsRange(c, lo, up, closing, rest);
      assert [c] + s == [c] + lo + ".." + up + [closing] + rest;
    }
  }

  lemma RangeJoined(lo: string, up: string, closing: char, s: string)
    requires lo <= s && ".." <= s[|lo|..] && up <= s[|lo|..][2..] && [closing] <= s[|lo|..][2..][|up|..]
    ensures lo + ".." + up + [closing] <= s
  {
    var u := s[|lo|..];
    var v := u[2..];
    var w := v[|up|..];
    assert v == up + w && w == [closing] + w[1..];
    assert s == lo + ".." + up + [closing] + w[1..];
  }

  lemma RangeSeen(c: char, s: string, closing: char)
    requires NumRangeAt([c] + s, closing).Some?
    ensures RangeText(s, closing)
  {
    hide Number;
    assert ([c] + s)[1..] == s;
    var lo := s[..DigitCount(s)];
    var v := s[|lo|..][2..];
    var up := v[..DigitCount(v)];
    hide DigitCount, NumRangeAt;
    RangeJoined(lo, up, closing, s);
    assert Digits(lo) && Digits(up);
  }

  /** What ranges are made of. */
  lemma RangeChars(lo: string, up: string, closing: char)
    requires Digits(lo) && Digits(up)
    ensures var r := lo + ".." + up + [closing];
      forall i :: 0 <= i < |r| ==> if i < |r| - 1 then IsDigit(r[i]) || r[i] == '.' else r[i] == closing
  {
    var r := lo + ".." + up + [closing];
    forall i | 0 <= i < |r| - 1 ensures IsDigit(r[i]) || r[i] == '.' {
      if i < |lo| { assert r[i] == lo[i]; }
      if |lo| + 2 <= i { assert r[i] == up[i - |lo| - 2]; }
    }
  }

  /** What stands behind a text makes no range of it, unless it starts with what ranges are made of. */
  lemma RangeStays(s: string, rest: string, closing: char)
    requires rest == "" || (!IsDigit(rest[0]) && rest[0] != '.' && rest[0] != closing)
    requires RangeText(s + rest, closing)
    ensures RangeText(s, closing)
  {
    var lo, up :| Digits(lo) && Digits(up) && lo + ".." + up + [closing] <= s + rest;
    var r := lo + ".." + up + [closing];
    RangeChars(lo, up, closing);
    assert forall i :: 0 <= i < |r| ==> r[i] == (s + rest)[i];
    assert rest != "" ==> (s + rest)[|s|] == rest[0];
    assert r <= s;
  }

  /** The first closing character closes the range. */
  lemma RangeCloses(s: string, rest: string, closing: char)
    requires !IsDigit(closing) && closing != '.'
    requires RangeText(s + [closing] + rest, closing)
    ensures RangeText(s + [closing], closing)
  {
    var lo, up :| Digits(lo) && Digits(up) && lo + ".." + up + [closing] <= s + [closing] + rest;
    var r := lo + ".." + up + [closing];
    RangeChars(lo, up, closing);
    assert forall i :: 0 <= i < |r| ==> r[i] == (s + [closing] + rest)[i];
    assert (s + [closing] + rest)[|s|] == closing;
    assert r <= s + [closing];
  }

  lemma TextTail(gs: seq<Glyph>)
    requires gs != [] && TextOk(gs)
    ensures TextOk(gs[1..])
  {
    forall i | 0 <= i < |gs[1..]| ensures GlyphOk(gs[1..], i) {
      assert GlyphOk(gs, i + 1) && gs[1..][i + 1..] == gs[i + 2..];
    }
  }

  /** Text ends before a wildcard, or before a bracket that starts a numeric range, which it takes along. */
  predicate TextEnds(rest: string) { LiteralEnds(rest) || Bracket(rest) }

  /** The text and what it takes along of the rest. */
  function Taken(gs: seq<Glyph>, rest: string): string { Chars(gs) + if LiteralEnds(rest) then "" else "[" }

  lemma {:induction false} ReadsNoText(rest: string)
    requires TextEnds(rest)
    ensures LiteralAt(rest) == Parsed(Taken([], rest), rest)
  {
    hide NumRangeAt;
    assert Taken([], rest) == if LiteralEnds(rest) then "" else "[";
    if Bracket(rest) { assert [rest[0]] == "["; }
  }

  lemma {:induction false} ReadsText(gs: seq<Glyph>, rest: string)
    requires TextOk(gs) && TextEnds(rest)
    ensures LiteralAt(SpellText(gs) + rest) == Parsed(Taken(gs, rest), rest)
    decreases |gs|
  {
    hide LiteralAt, NumRangeAt, GlyphOk, TextEnds, LiteralEnds;
    if gs == [] {
      assert SpellText(gs) + rest == rest;
      ReadsNoText(rest);
    } else {
      TextTail(gs);
      ReadsText(gs[1..], rest);
      ReadsGlyph(gs, rest);
      assert [gs[0].c] + Taken(gs[1..], rest) == Taken(gs, rest);
    }
  }

  lemma {:induction false} GlyphAt(g: Glyph, u: string)
    requires !Bracket([g.c] + u)
    requires !g.quoted ==> g.c != '\\' && !LiteralEnds([g.c])
    ensures LiteralAt(SpellGlyph(g) + u) == Prepend([g.c], LiteralAt(u))
  {
    hide NumRangeAt, Bracket;
    var s, t := SpellGlyph(g) + u, [g.c] + u;
    assert t[0] == g.c && t[1..] == u;
    if g.quoted { assert s[0] == '\\' && s[1..] == t; } else { assert s == t; }
    assert !LiteralEnds(s);
  }

  lemma {:induction false} ReadsGlyph(gs: seq<Glyph>, rest: string)
    requires gs != [] && TextOk(gs) && TextEnds(rest)
    ensures LiteralAt(SpellText(gs) + rest) == Prepend([gs[0].c], LiteralAt(SpellText(gs[1..]) + rest))
  {
    hide LiteralAt, NumRangeAt, Bracket, TextEnds, SpellGlyph;
    assert GlyphOk(gs, 0);
    NoBracket(gs, rest);
    GlyphAt(gs[0], SpellText(gs[1..]) + rest);
    assert SpellText(gs) + rest == SpellGlyph(gs[0]) + (SpellText(gs[1..]) + rest);
  }

  lemma NoBracket(gs: seq<Glyph>, rest: string)
    requires gs != [] && TextOk(gs) && TextEnds(rest)
    ensures !Bracket([gs[0].c] + (SpellText(gs[1..]) + rest))
  {
    hide NumRangeAt, RangeText;
    assert GlyphOk(gs, 0);
    var s := SpellText(gs[1..]);
    RangeRead(gs[0].c, s + rest, ']');
    if RangeText(s + rest, ']') { RangeStays(s, rest, ']'); }
  }

  // ---------- sets ----------

  lemma ReadsSingle(c: char, u: string, first: bool, v: string, rest: string)
    requires u != "" && (first || c != '}') && (u[0] == '-' ==> |u| > 1 && u[1] == '}')
    requires RangesAt(u, false) == Parsed(v, rest)
    ensures RangesAt([c] + u, first) == Parsed([c, c] + v, rest)
  {
    var s := [c] + u;
    assert s[0] == c && s[1] == u[0] && s[1..] == u && (|u| > 1 ==> s[2] == u[1]);
  }

  lemma ReadsRangeItem(lo: char, hi: char, u: string, first: bool, v: string, rest: string)
    requires (first || lo != '}') && hi != '}' && RangesAt(u, false) == Parsed(v, rest)
    ensures RangesAt([lo, '-', hi] + u, first) == Parsed([lo, hi] + v, rest)
  {
    var s := [lo, '-', hi] + u;
    assert s[0] == lo && s[1] == '-' && s[2] == hi && s[3..] == u;
  }

  lemma {:induction false} ReadsItems(items: seq<Item>, rest: string, first: bool)
    requires ItemsOk(items, first)
    requires items == [] ==> !first
    ensures RangesAt(SpellItems(items) + "}" + rest, first) == Parsed(Pairs(items), rest)
    decreases |items|
  {
    if items == [] {
      var s := SpellItems(items) + "}" + rest;
      assert s == "}" + rest && s[1..] == rest;
    } else {
      hide RangesAt;
      var u, v := SpellItems(items[1..]) + "}" + rest, Pairs(items[1..]);
      assert SpellItems(items) + "}" + rest == SpellItem(items[0]) + u;
      ReadsItems(items[1..], rest, false);
      match items[0]
      case Single(c) => ReadsSingle(c, u, first, v, rest);
      case Range(lo, hi) => ReadsRangeItem(lo, hi, u, first, v, rest);
    }
  }

  lemma InSetTail(c: char, a: char, b: char, q: string)
    ensures InSet(c, [a, b] + q) <==> a <= c <= b || InSet(c, q)
  {
    var r := [a, b] + q;
    if i :| 0 <= i < |r| / 2 && r[2 * i] <= c <= r[2 * i + 1] {
      if i > 0 { assert q[2 * (i - 1)] <= c <= q[2 * (i - 1) + 1]; }
    }
    if a <= c <= b { assert r[2 * 0] <= c <= r[2 * 0 + 1]; }
    if i :| 0 <= i < |q| / 2 && q[2 * i] <= c <= q[2 * i + 1] { assert r[2 * (i + 1)] <= c <= r[2 * (i + 1) + 1]; }
  }

  lemma InItemsTail(c: char, items: seq<Item>)
    requires items != []
    ensures InItems(c, items) <==> InItem(c, items[0]) || InItems(c, items[1..])
  {
    hide InItem;
    if i :| 0 <= i < |items| && InItem(c, items[i]) {
      if i > 0 { assert InItem(c, items[1..][i - 1]); }
    }
    if i :| 0 <= i < |items[1..]| && InItem(c, items[1..][i]) { assert InItem(c, items[i + 1]); }
  }

  lemma {:induction false} InPairs(c: char, items: seq<Item>)
    ensures |Pairs(items)| % 2 == 0 && (InSet(c, Pairs(items)) <==> InItems(c, items))
    decreases |items|
  {
    if items != [] {
      hide InSet, InItems;
      InPairs(c, items[1..]);
      InItemsTail(c, items);
      var (a, b) := match items[0]
        case Single(x) => (x, x)
        case Range(lo, hi) => (lo, hi);
      InSetTail(c, a, b, Pairs(items[1..]));
    }
  }

  /** What does not read like a numeric range is not taken for one. */
  lemma NoRangeInSet(t: string, rest: string)
    requires !RangeText(t + "}", '}')
    ensures NumRangeAt("{" + t + "}" + rest, '}') == None
  {
    hide NumRangeAt, RangeText;
    RangeRead('{', t + "}" + rest, '}');
    assert "{" + t + "}" + rest == ['{'] + (t + "}" + rest);
    if RangeText(t + "}" + rest, '}') { RangeCloses(t, rest, '}'); }
  }

  lemma NoRangeNegated(u: string)
    ensures NumRangeAt("{^" + u, '}') == None
  {
    var t := ("{^" + u)[1..];
    assert t[0] == '^' && DigitCount(t) == 0 && t[0..] == t;
    assert !Starts(t, "..");
  }

  lemma SetRead(negated: bool, u: string, v: string, rest: string)
    requires u != "" && RangesAt(u, true) == Parsed(v, rest) && (negated || u[0] != '^')
    ensures SetAt((if negated then "{^" else "{") + u) == Parsed(if negated then NegSet(v) else CharSet(v), rest)
  {
    hide RangesAt;
    var s := (if negated then "{^" else "{") + u;
    if negated { assert s[1] == '^' && s[2..] == u; } else { assert s[1] == u[0] && s[1..] == u; }
  }

  lemma ReadsSet(negated: bool, items: seq<Item>, rest: string, afterLiteral: bool, dotted: bool)
    requires PieceOk(Set(negated, items))
    ensures ElemAt(Spell(Set(negated, items)) + rest, afterLiteral, dotted) ==
            Parsed(ElemOf(Set(negated, items), dotted), rest)
  {
    hide RangesAt, RangeText, NumRangeAt, SetAt;
    var s, t := Spell(Set(negated, items)) + rest, SpellItems(items);
    var u := t + "}" + rest;
    assert s == (if negated then "{^" else "{") + u;
    assert u[0] == SpellItem(items[0])[0];
    ReadsItems(items, rest, true);
    SetRead(negated, u, Pairs(items), rest);
    if negated {
      NoRangeNegated(u);
    } else {
      NoRangeInSet(t, rest);
      assert s == "{" + t + "}" + rest;
    }
  }

  // ---------- numeric ranges ----------

  lemma ReadsBetween(lo: string, up: string, rest: string, afterLiteral: bool, dotted: bool)
    requires Digits(lo) && Digits(up)
    ensures ElemAt(Spell(Between(lo, up)) + rest, afterLiteral, dotted) ==
            Parsed(ElemOf(Between(lo, up), dotted), rest)
  {
    hide NumRangeAt, DigitCount, Bound, Digits, SetAt, LiteralAt;
    var s := Spell(Between(lo, up)) + rest;
    ReadsRange('{', lo, up, '}', rest);
    assert s == ['{'] + lo + ".." + up + ['}'] + rest && s[0] == '{';
    assert (['}'] + rest)[1..] == rest;
  }

  // ---------- any piece ----------

  /** What may stand behind a piece for it to end where it is meant to. */
  predicate Behind(p: Piece, rest: string) {
    (p.Text? ==> LiteralEnds(rest)) && (p.Star? ==> rest == "" || rest[0] != '*')
  }

  lemma ReadsPiece(p: Piece, rest: string, afterLiteral: bool, dotted: bool)
    requires PieceOk(p) && Behind(p, rest)
    ensures Spell(p) != "" && ElemAt(Spell(p) + rest, afterLiteral, dotted) == Parsed(ElemOf(p, dotted), rest)
  {
    var s := Spell(p) + rest;
    match p
    case Text(gs) =>
      assert GlyphOk(gs, 0) && s[0] == if gs[0].quoted then '\\' else gs[0].c;
      ReadsText(gs, rest);
      assert Chars(gs) + "" == Chars(gs);
      hide LiteralAt;
    case One => assert s[0] == '?' && s[1..] == rest;
    case Star => assert s[0] == '*' && s[1..] == rest && !Starts(s, "**");
    case Stars => assert s[0] == '*' && s[2..] == rest && Starts(s, "**");
    case Set(negated, items) => ReadsSet(negated, items, rest, afterLiteral, dotted);
    case Between(lo, up) => ReadsBetween(lo, up, rest, afterLiteral, dotted);
  }

  lemma WellSpelledTail(ps: seq<Piece>)
    requires ps != [] && WellSpelled(ps)
    ensures PieceOk(ps[0]) && WellSpelled(ps[1..])
    ensures |ps| > 1 ==> SpellAll(ps[1..]) != "" && Behind(ps[0], SpellAll(ps[1..]))
  {
    var qs := ps[1..];
    assert PieceOk(ps[0]);
    forall i | 0 <= i < |qs| ensures PieceOk(qs[i]) { assert PieceOk(ps[i + 1]); }
    forall i | 0 < i < |qs|
      ensures !(qs[i - 1].Text? && qs[i].Text?) && !(qs[i - 1].Star? && (qs[i].Star? || qs[i].Stars?))
    {
      assert qs[i] == ps[i + 1] && qs[i - 1] == ps[i + 1 - 1];
    }
    if qs != [] {
      assert qs[0] == ps[1] && ps[0] == ps[1 - 1] && PieceOk(qs[0]);
      StartsWith(qs[0]);
      assert SpellAll(qs)[0] == Spell(qs[0])[0];
    }
  }

  lemma StartsWith(p: Piece)
    requires PieceOk(p)
    ensures Spell(p) != "" && (p.Text? || LiteralEnds(Spell(p)))
    ensures Spell(p)[0] == '*' ==> p.Star? || p.Stars?
  {
    if p.Text? { assert GlyphOk(p.glyphs, 0); }
  }

  /** Is the last element read before the rest a literal? */
  predicate LiteralBefore(ps: seq<Piece>, afterLiteral: bool) {
    if ps == [] then afterLiteral else ps[|ps| - 1].Text?
  }

  lemma {:induction false} ReadsFirst(ps: seq<Piece>, rest: string, afterLiteral: bool, dotted: bool)
    requires ps != [] && PieceOk(ps[0]) && Behind(ps[0], SpellAll(ps[1..]) + rest)
    ensures Tokens(SpellAll(ps) + rest, afterLiteral, dotted) ==
            Prepend([ElemOf(ps[0], dotted)], Tokens(SpellAll(ps[1..]) + rest, ps[0].Text?, dotted))
  {
    hide ElemAt, Spell, PieceOk, Behind;
    ReadsPiece(ps[0], SpellAll(ps[1..]) + rest, afterLiteral, dotted);
    assert SpellAll(ps) + rest == Spell(ps[0]) + (SpellAll(ps[1..]) + rest);
  }

  /** The text of a pattern is read back as the elements it was spelled from, and then the rest is read. */
  lemma {:induction false} ReadsAll(ps: seq<Piece>, rest: string, afterLiteral: bool, dotted: bool)
    requires WellSpelled(ps) && (ps != [] ==> Behind(ps[|ps| - 1], rest))
    ensures Tokens(SpellAll(ps) + rest, afterLiteral, dotted) ==
            Prepend(ElemsOf(ps, dotted), Tokens(rest, LiteralBefore(ps, afterLiteral), dotted))
    decreases |ps|
  {
    hide Tokens, Spell, PieceOk, Behind, ElemOf;
    if ps == [] {
      assert SpellAll(ps) + rest == rest;
      PrependNothing(Tokens(rest, afterLiteral, dotted));
    } else {
      var s := SpellAll(ps[1..]);
      WellSpelledTail(ps);
      if |ps| > 1 {
        StillBehind(ps[0], s, rest);
        assert ps[1..][|ps[1..]| - 1] == ps[|ps| - 1];
      } else {
        assert s + rest == rest;
      }
      ReadsFirst(ps, rest, afterLiteral, dotted);
      hide WellSpelled;
      ReadsAll(ps[1..], rest, ps[0].Text?, dotted);
      PrependTwice([ElemOf(ps[0], dotted)], ElemsOf(ps[1..], dotted),
                   Tokens(rest, LiteralBefore(ps, afterLiteral), dotted));
    }
  }

  lemma StillBehind(p: Piece, s: string, rest: string)
    requires s != "" && Behind(p, s)
    ensures Behind(p, s + rest)
  {
  }

  // ---------- the elements accept what the pieces mean ----------

  lemma {:induction false} NumberNonnegative(s: string)
    requires Digits(s)
    ensures Number(s) >= 0
    decreases |s|
  {
    if s != "" { NumberNonnegative(s[..|s| - 1]); }
  }

  /** All but numeric ranges take a text as their pieces do. */
  lemma TakesFits(p: Piece, t: string, dotted: bool)
    requires !p.Between?
    ensures Takes(ElemOf(p, dotted), t) <==> Fits(p, t, dotted)
  {
    if p.Set? && |t| == 1 { InPairs(t[0], p.items); }
  }

  lemma {:induction false} BoundsMean(lo: string, up: string, n: int)
    requires Digits(lo) && Digits(up)
    ensures InRange(n, Bound(lo), Bound(up)) <==> (lo != "" ==> Number(lo) <= n) && (up != "" ==> n <= Number(up))
  {
    NumberNonnegative(lo);
    NumberNonnegative(up);
  }

  /** Where the digits end is where a numeric range stops. */
  lemma {:induction false} StopsAtCount(s: string, n: nat)
    requires 0 < n <= |s| && Digits(s[..n]) && (n < |s| ==> !IsDigit(s[n]))
    ensures n == DigitCount(s)
  {
    assert forall i :: 0 <= i < n ==> IsDigit(s[..n][i]) && s[..n][i] == s[i];
  }

  lemma {:induction false} ElemsAccept(ps: seq<Piece>, s: string, dotted: bool)
    requires WellSpelled(ps)
    ensures Matches(ElemsOf(ps, dotted), s) <==> Accepts(ps, s, dotted)
    decreases |ps|
  {
    if ps != [] {
      var p, es := ps[0], ElemsOf(ps, dotted);
      WellSpelledTail(ps);
      forall n | 0 <= n <= |s| ensures Matches(es[1..], s[n..]) <==> Accepts(ps[1..], s[n..], dotted) {
        ElemsAccept(ps[1..], s[n..], dotted);
      }
      if p.Between? {
        BetweenAccepts(ps, s, dotted);
      } else {
        MatchesSplit(es, s);
        hide Matches, Takes, Fits, ElemOf;
        if Matches(es, s) {
          var n :| SplitsAt(es, s, n);
          TakesFits(p, s[..n], dotted);
        }
        if Accepts(ps, s, dotted) {
          var n :| 0 <= n <= |s| && Fits(p, s[..n], dotted) && Stops(p, s, n) && Accepts(ps[1..], s[n..], dotted);
          TakesFits(p, s[..n], dotted);
          assert SplitsAt(es, s, n);
        }
      }
    }
  }

  lemma {:induction false} BetweenAccepts(ps: seq<Piece>, s: string, dotted: bool)
    requires ps != [] && ps[0].Between? && PieceOk(ps[0])
    requires forall n :: 0 <= n <= |s| ==>
        (Matches(ElemsOf(ps, dotted)[1..], s[n..]) <==> Accepts(ps[1..], s[n..], dotted))
    ensures Matches(ElemsOf(ps, dotted), s) <==> Accepts(ps, s, dotted)
  {
    var p, es, n := ps[0], ElemsOf(ps, dotted), DigitCount(s);
    BoundsMean(p.lo, p.up, Number(s[..n]));
    assert Digits(s[..n]) && Stops(p, s, n);
    if Accepts(ps, s, dotted) {
      var k :| 0 <= k <= |s| && Fits(p, s[..k], dotted) && Stops(p, s, k) && Accepts(ps[1..], s[k..], dotted);
      StopsAtCount(s, k);
    }
    if Matches(es, s) { assert Fits(p, s[..n], dotted); }
  }

  lemma {:induction false} NothingBehind(ps: seq<Piece>, dotted: bool)
    ensures SpellAll(ps) + "" == SpellAll(ps)
    ensures forall b :: Prepend(ElemsOf(ps, dotted), Tokens("", b, dotted)) == Parsed(ElemsOf(ps, dotted), "")
  {
    forall b ensures Prepend(ElemsOf(ps, dotted), Tokens("", b, dotted)) == Parsed(ElemsOf(ps, dotted), "") {
      TokensWhole(ElemsOf(ps, dotted), Tokens("", b, dotted));
    }
  }

  /** A pattern accepts a line if and only if its pieces do, in turn. */
  lemma {:induction false} PatternAccepts(ps: seq<Piece>, dotted: bool, line: string)
    requires WellSpelled(ps)
    ensures Tokens(SpellAll(ps), false, dotted).Parsed?
    ensures Matches(Tokens(SpellAll(ps), false, dotted).value, line) <==> Accepts(ps, line, dotted)
  {
    hide Tokens, Matches, Accepts, PieceOk;
    ReadsAll(ps, "", false, dotted);
    NothingBehind(ps, dotted);
    ElemsAccept(ps, line, dotted);
  }

  lemma {:induction false} NeverClosed(t: string, first: bool)
    requires '}' !in t
    ensures RangesAt(t, first) == Unmatched
    decreases |t|
  {
    if t != "" {
      NeverClosed(t[1..], false);
      if |t| > 2 { NeverClosed(t[3..], false); }
    }
  }

  lemma InWhole(s: string, t: string)
    requires s <= t
    ensures forall c :: c in s ==> c in t
  {
    assert t == s + t[|s|..];
  }

  lemma NeverARange(t: string)
    requires '}' !in t
    ensures !RangeText(t, '}')
  {
    forall lo, up | Digits(lo) && Digits(up) ensures !(lo + ".." + up + ['}'] <= t) {
      var r := lo + ".." + up + ['}'];
      assert r[|r| - 1] == '}';
      if r <= t { InWhole(r, t); }
    }
  }

  lemma UnclosedSet(t: string, afterLiteral: bool, dotted: bool)
    requires '}' !in t
    ensures ElemAt(['{'] + t, afterLiteral, dotted) == Unmatched
  {
    hide RangesAt, NumRangeAt;
    var s := ['{'] + t;
    assert s[1..] == t;
    RangeRead('{', t, '}');
    NeverARange(t);
    NeverClosed(t, true);
    if t != "" {
      assert s[2..] == t[1..];
      NeverClosed(t[1..], true);
    }
  }

  /** A set that is not closed is refused, whatever comes before it. */
  lemma {:induction false} UnclosedIsRefused(ps: seq<Piece>, t: string, dotted: bool)
    requires WellSpelled(ps) && '}' !in t
    ensures Tokens(SpellAll(ps) + (['{'] + t), false, dotted) == Unmatched
  {
    hide ElemAt;
    ReadsAll(ps, ['{'] + t, false, dotted);
    UnclosedSet(t, LiteralBefore(ps, false), dotted);
  }

  /** So is a backslash with nothing behind it to quote. */
  lemma {:induction false} DanglingIsRefused(ps: seq<Piece>, dotted: bool)
    requires WellSpelled(ps) && (ps != [] ==> !ps[|ps| - 1].Text?)
    ensures Tokens(SpellAll(ps) + "\\", false, dotted) == Dangling
  {
    ReadsAll(ps, "\\", false, dotted);
    assert "\\"[1..] == "";
  }

  // ---------- single wildcards ----------

  /** The text is a pattern that accepts the line, all of it. */
  predicate Matched(text: string, dotted: bool, line: string) {
    Tokens(text, false, dotted).Parsed? && Matches(Tokens(text, false, dotted).value, line)
  }

  lemma OnePiece(p: Piece, dotted: bool, line: string)
    requires PieceOk(p)
    ensures Matched(Spell(p), dotted, line) <==> Fits(p, line, dotted)
  {
    var ps := [p];
    PatternAccepts(ps, dotted, line);
    assert SpellAll(ps) == Spell(p) + "" == Spell(p);
    assert line[..|line|] == line && line[|line|..] == "";
    assert Accepts(ps[1..], line[|line|..], dotted);
    hide Fits, Spell;
    if n :| 0 <= n <= |line| && Fits(p, line[..n], dotted) && Stops(p, line, n) && Accepts(ps[1..], line[n..], dotted) {
      assert n == |line|;
    }
  }

  lemma DashNoRange(x: char, y: char)
    ensures !RangeText([x, '-', y] + "}", '}')
  {
    var t := [x, '-', y] + "}";
    forall lo, up | Digits(lo) && Digits(up) ensures !(lo + ".." + up + ['}'] <= t) {
      RangeChars(lo, up, '}');
      assert t[1] == '-';
    }
  }

  lemma OneItem(c: char, i: Item)
    ensures InItems(c, [i]) <==> InItem(c, i)
  {
    InItemsTail(c, [i]);
  }

  /** {x-y} accepts the characters from x to y, {^x-y} all others. */
  lemma SetMatches(x: char, y: char, dotted: bool, line: string)
    requires x != '^' && y != '}'
    ensures Matched(['{', x, '-', y, '}'], dotted, line) <==> |line| == 1 && x <= line[0] <= y
    ensures Matched(['{', '^', x, '-', y, '}'], dotted, line) <==> |line| == 1 && !(x <= line[0] <= y)
  {
    hide Matched, RangeText, InItems;
    var items := [Range(x, y)];
    assert items[1..] == [] && SpellItems(items) == [x, '-', y];
    DashNoRange(x, y);
    assert ItemsOk(items, true) && SetOk(false, items) && SetOk(true, items);
    assert Spell(Set(false, items)) == ['{', x, '-', y, '}'];
    assert Spell(Set(true, items)) == ['{', '^', x, '-', y, '}'];
    OnePiece(Set(false, items), dotted, line);
    OnePiece(Set(true, items), dotted, line);
    if |line| == 1 { OneItem(line[0], items[0]); }
  }

  /** ? accepts one character, * any text, in dotted mode neither a dot; ** accepts any text. */
  lemma WildcardsMatch(dotted: bool, line: string)
    ensures Matched("?", dotted, line) <==> |line| == 1 && (dotted ==> line != ".")
    ensures Matched("*", dotted, line) <==> (dotted ==> '.' !in line)
    ensures Matched("**", dotted, line)
  {
    OnePiece(One, dotted, line);
    OnePiece(Star, dotted, line);
    OnePiece(Stars, dotted, line);
  }

  /** {lo..up} accepts the digits of the numbers from lo to up, where a bound left out is no bound. */
  lemma {:induction false} RangeMatches(lo: string, up: string, dotted: bool, line: string)
    requires Digits(lo) && Digits(up)
    ensures Matched("{" + lo + ".." + up + "}", dotted, line) <==>
            line != "" && Digits(line) && (lo == "" || Number(lo) <= Number(line)) &&
            (up == "" || Number(line) <= Number(up))
  {
    OnePiece(Between(lo, up), dotted, line);
  }

  // ---------- ranges in brackets ----------

  lemma {:induction false} TokensStep(s: string, afterLiteral: bool, dotted: bool, e: Elem, rest: string, es: seq<Elem>)
    requires s != "" && ElemAt(s, afterLiteral, dotted) == Parsed(e, rest)
    requires Tokens(rest, e.Literal?, dotted) == Parsed(es, "")
    ensures Tokens(s, afterLiteral, dotted) == Parsed([e] + es, "")
  {
  }

  lemma {:induction false} ClosingBracket(dotted: bool)
    ensures Tokens("]", false, dotted) == Parsed([Literal("]")], "")
  {
    GlyphAt(Glyph(']', false), "");
    assert ["]"[0]] == "]" && "]" + "" == "]" && LiteralAt("]") == Prepend("]", LiteralAt(""));
    hide LiteralAt, NumRangeAt;
    assert LiteralAt("") == Parsed("", "") by { ReadsNoText(""); }
    TokensStep("]", false, dotted, Literal("]"), "", []);
    assert [Literal("]")] + [] == [Literal("]")];
  }

  /** The opening bracket ends the literal text in front of the range. */
  lemma {:induction false} TextElem(gs: seq<Glyph>, r: string, dotted: bool)
    requires TextOk(gs) && Bracket(r)
    ensures SpellText(gs) + r != ""
    ensures ElemAt(SpellText(gs) + r, false, dotted) == Parsed(Literal(Chars(gs) + "["), r)
  {
    hide LiteralAt, NumRangeAt;
    var s := SpellText(gs) + r;
    ReadsText(gs, r);
    assert Taken(gs, r) == Chars(gs) + "[";
    if gs == [] {
      assert s == r;
    } else {
      assert GlyphOk(gs, 0) && s[0] == SpellGlyph(gs[0])[0];
    }
  }

  lemma {:induction false} BracketTokens(gs: seq<Glyph>, lo: string, up: string, dotted: bool)
    requires TextOk(gs) && Digits(lo) && Digits(up)
    ensures Tokens(SpellText(gs) + ("[" + lo + ".." + up + "]"), false, dotted) ==
            Parsed([Literal(Chars(gs) + "["), NumRange(Bound(lo), Bound(up)), Literal("]")], "")
  {
    hide NumRangeAt, TextOk, LiteralAt, Bound, Tokens;
    var r := "[" + lo + ".." + up + "]";
    var l, e, k := Literal(Chars(gs) + "["), NumRange(Bound(lo), Bound(up)), Literal("]");
    assert r == ['['] + lo + ".." + up + [']'] + "" && [']'] + "" == "]";
    ReadsRange('[', lo, up, ']', "");
    TextElem(gs, r, dotted);
    ClosingBracket(dotted);
    assert [l] + [e, k] == [l, e, k] && [e] + [k] == [e, k];
    TokensStep(r, true, dotted, e, "]", [k]);
    TokensStep(SpellText(gs) + r, false, dotted, l, r, [e, k]);
  }

  lemma {:induction false} RangeAndBracket(lo: int, up: int, s: string)
    ensures var n := DigitCount(s); Matches([NumRange(lo, up), Literal("]")], s) <==>
            n > 0 && InRange(Number(s[..n]), lo, up) && s[n..] == "]"
  {
    hide Number, InRange;
    var e, k, n := NumRange(lo, up), Literal("]"), DigitCount(s);
    assert [e, k][1..] == [k] && [k][1..] == [];
    assert Matches([k], s[n..]) <==> s[n..] == "]";
  }

  /** Digits and a closing bracket are what a range and the bracket accept. */
  lemma {:induction false} ClosedRange(lo: string, up: string, dotted: bool, s: string)
    requires Digits(lo) && Digits(up)
    ensures Matches([NumRange(Bound(lo), Bound(up)), Literal("]")], s) <==>
            EndsWith(s, "]") && Fits(Between(lo, up), s[..|s| - 1], dotted)
  {
    hide Matches, Number, Bound, InRange, DigitCount;
    var n := DigitCount(s);
    RangeAndBracket(Bound(lo), Bound(up), s);
    BoundsMean(lo, up, Number(s[..n]));
    if EndsWith(s, "]") {
      var t := s[..|s| - 1];
      assert s == t + "]";
      if Digits(t) { DigitsCounted(t, "]"); }
    }
  }

  lemma InBrackets(front: string, line: string)
    ensures forall t :: line == front + t + "]" <==>
        front <= line && EndsWith(line[|front|..], "]") && t == line[|front|..|line| - 1]
  {
    if front <= line {
      var s := line[|front|..];
      assert EndsWith(s, "]") ==> line == front + s[..|s| - 1] + "]" && s[..|s| - 1] == line[|front|..|line| - 1];
    }
    forall t | line == front + t + "]"
      ensures front <= line && EndsWith(line[|front|..], "]") && t == line[|front|..|line| - 1]
    {
      assert line == front + (t + "]") && line[|front|..] == t + "]";
    }
  }

  /** A numeric range in brackets behind literal text: the brackets stand for themselves. */
  lemma {:induction false} BracketsMatch(gs: seq<Glyph>, lo: string, up: string, dotted: bool, line: string)
    requires TextOk(gs) && Digits(lo) && Digits(up)
    ensures Matched(SpellText(gs) + ("[" + lo + ".." + up + "]"), dotted, line) <==>
            exists t :: line == Chars(gs) + "[" + t + "]" && Fits(Between(lo, up), t, dotted)
  {
    hide Fits, Digits, TextOk, Bound, Tokens;
    var front := Chars(gs) + "[";
    var l, e, k := Literal(front), NumRange(Bound(lo), Bound(up)), Literal("]");
    BracketTokens(gs, lo, up, dotted);
    assert [l, e, k][1..] == [e, k];
    assert Matches([l, e, k], line) <==> front <= line && Matches([e, k], line[|front|..]);
    hide Matches;
    InBrackets(front, line);
    if front <= line {
      var s := line[|front|..];
      ClosedRange(lo, up, dotted, s);
      assert s != "" ==> s[..|s| - 1] == line[|front|..|line| - 1];
    }
  }
}
