/**
 * The part of `JSON.parse` the older parser relies on: a JSON text that is an
 * array of strings (RFC 8259, sections 2, 5 and 7). Any other text is a parse
 * failure, the counterpart of `JSON.parse` throwing. `Render` writes such an
 * array back, and parsing what it writes gives the strings back. An escaped
 * surrogate pair reads as the one character it encodes; a lone surrogate
 * escape, which a Dafny `char` cannot hold, is a parse failure.
 */
module JsonArray {
  import opened Wrappers
  import opened Text

  /** The insignificant white space of RFC 8259, section 2. */
  predicate IsJsonSpace(c: char) {
    c == ' ' || c == '\t' || c == '\n' || c == '\r'
  }

  function SkipSpace(s: string): (r: string)
    ensures |r| <= |s|
  {
    StripLeading(s, IsJsonSpace)
  }

  /** The character a one-letter escape `\x` stands for. */
  function SimpleEscape(c: char): Option<char> {
    match c
    case '"' => Some('"')
    case '\\' => Some('\\')
    case '/' => Some('/')
    case 'b' => Some('\U{8}')
    case 'f' => Some('\U{C}')
    case 'n' => Some('\n')
    case 'r' => Some('\r')
    case 't' => Some('\t')
    case _ => None
  }

  function HexValue(c: char): (r: Option<nat>)
    ensures r.Some? ==> r.value < 16
  {
    if '0' <= c <= '9' then Some(c as int - '0' as int)
    else if 'a' <= c <= 'f' then Some(c as int - 'a' as int + 10)
    else if 'A' <= c <= 'F' then Some(c as int - 'A' as int + 10)
    else None
  }

  /** The number four hexadecimal digits `h` write, if they are all digits. */
  function HexCode(h: string): (r: Option<nat>)
    requires |h| == 4
    ensures r.Some? ==> r.value < 0x10000
  {
    match (HexValue(h[0]), HexValue(h[1]), HexValue(h[2]), HexValue(h[3]))
    case (Some(a), Some(b), Some(c), Some(d)) => Some(4096 * a + 256 * b + 16 * c + d)
    case _ => None
  }

  predicate IsHighSurrogate(v: nat) {
    0xD800 <= v < 0xDC00
  }

  predicate IsLowSurrogate(v: nat) {
    0xDC00 <= v < 0xE000
  }

  /** The character of a `\uXXXX` escape whose four digits are `h`, when it is not a surrogate half. */
  function UnicodeEscape(h: string): (r: Option<char>)
    requires |h| == 4
    ensures r.Some? ==> r.value as int < 0x10000 && HexCode(h) == Some(r.value as nat)
  {
    match HexCode(h)
    case Some(v) => if v < 0xD800 || 0xE000 <= v then Some(v as char) else None
    case None => None
  }

  /** The character a high and a low surrogate half stand for together (UTF-16). */
  function PairChar(hi: nat, lo: nat): (c: char)
    requires IsHighSurrogate(hi) && IsLowSurrogate(lo)
    ensures 0x10000 <= c as int
  {
    (0x10000 + (hi - 0xD800) * 0x400 + (lo - 0xDC00)) as char
  }

  /** The number a six-character escape `\\uXXXX` writes. */
  function EscapeCode(e: string): (r: Option<nat>)
    requires |e| == 6
  {
    if e[0] == '\\' && e[1] == 'u' then HexCode(e[2..]) else None
  }

  /**
   * The character an escaped surrogate pair `\\uHHHH\\uLLLL` stands for, read
   * from its twelve characters `e`.
   */
  function PairEscape(e: string): (r: Option<char>)
    requires |e| == 12
  {
    match (EscapeCode(e[..6]), EscapeCode(e[6..]))
    case (Some(hi), Some(lo)) =>
      if IsHighSurrogate(hi) && IsLowSurrogate(lo) then Some(PairChar(hi, lo)) else None
    case _ => None
  }

  /**
   * The characters of a string literal after its opening quote: the value and
   * the text after the closing quote. A surrogate half that is not part of a
   * pair has no character to stand for and is refused.
   */
  function ParseChars(s: string): (r: Option<(string, string)>)
    ensures r.Some? ==> |r.value.1| < |s|
    decreases |s|
  {
    if s == [] then None
    else if s[0] == '"' then Some(("", s[1..]))
    else if s[0] == '\\' then
      if |s| >= 2 && SimpleEscape(s[1]).Some? then
        Prepend(SimpleEscape(s[1]).value, ParseChars(s[2..]))
      else if |s| >= 6 && s[1] == 'u' && UnicodeEscape(s[2..6]).Some? then
        Prepend(UnicodeEscape(s[2..6]).value, ParseChars(s[6..]))
      else if |s| >= 12 && PairEscape(s[..12]).Some? then
        Prepend(PairEscape(s[..12]).value, ParseChars(s[12..]))
      else None
    else if s[0] < ' ' then None
    else Prepend(s[0], ParseChars(s[1..]))
  }

  function Prepend(c: char, r: Option<(string, string)>): Option<(string, string)> {
    match r
    case Some((v, rest)) => Some(([c] + v, rest))
    case None => None
  }

  /** The items of the array from the opening quote of its first item on. */
  function ParseItems(t: string): Option<seq<string>>
    decreases |t|, 1
  {
    if t == [] || t[0] != '"' then None
    else
      match ParseChars(t[1..])
      case None => None
      case Some((v, rest)) => ItemsAfter(v, rest)
  }

  /** What follows an item `v` whose closing quote is followed by `rest`: more items or the end of the array. */
  function ItemsAfter(v: string, rest: string): Option<seq<string>>
    decreases |rest|, 0
  {
    var r := SkipSpace(rest);
    if r != [] && r[0] == ',' then
      match ParseItems(SkipSpace(r[1..]))
      case Some(vs) => Some([v] + vs)
      case None => None
    else if r != [] && r[0] == ']' && SkipSpace(r[1..]) == [] then Some([v])
    else None
  }

  /** `JSON.parse` on the texts that are arrays of strings; `None` where it would throw or give something else. */
  function Parse(s: string): Option<seq<string>> {
    var t := SkipSpace(s);
    if t == [] || t[0] != '[' then None
    else
      var u := SkipSpace(t[1..]);
      if u != [] && u[0] == ']' then
        if SkipSpace(u[1..]) == [] then Some([]) else None
      else ParseItems(u)
  }

  // ---------------------------------------------------------------------------
  // Writing arrays back

  const HexDigits: string := "0123456789abcdef"

  /** The letter of the two-character escape `JSON.stringify` writes for `c`, if it writes one. */
  function EscapeLetter(c: char): Option<char> {
    match c
    case '"' => Some('"')
    case '\\' => Some('\\')
    case '\U{8}' => Some('b')
    case '\U{C}' => Some('f')
    case '\n' => Some('n')
    case '\r' => Some('r')
    case '\t' => Some('t')
    case _ => None
  }

  /** How `JSON.stringify` writes one character inside a string literal. */
  function EscapeChar(c: char): string {
    if EscapeLetter(c).Some? then ['\\', EscapeLetter(c).value]
    else if c < ' ' then "\\u00" + [HexDigits[c as int / 16], HexDigits[c as int % 16]]
    else [c]
  }

  function Escape(x: string): string {
    if x == [] then "" else EscapeChar(x[0]) + Escape(x[1..])
  }

  function Quote(x: string): string {
    "\"" + Escape(x) + "\""
  }

  function RenderItems(xs: seq<string>): string {
    if xs == [] then ""
    else if |xs| == 1 then Quote(xs[0])
    else Quote(xs[0]) + "," + RenderItems(xs[1..])
  }

  /** `JSON.stringify` of an array of strings. */
  function Render(xs: seq<string>): string {
    "[" + RenderItems(xs) + "]"
  }

  lemma HexDigitsValue(n: nat)
    requires n < 16
    ensures HexValue(HexDigits[n]) == Some(n)
  {
  }

  /** The two-character escapes read back as the characters they were written for. */
  lemma EscapeLetterInverse(c: char)
    requires EscapeLetter(c).Some?
    ensures SimpleEscape(EscapeLetter(c).value) == Some(c)
  {
  }

  lemma TwoCharStep(c: char, letter: char, tail: string)
    requires SimpleEscape(letter) == Some(c)
    ensures ParseChars(['\\', letter] + tail) == Prepend(c, ParseChars(tail))
  {
    var s := ['\\', letter] + tail;
    assert s[0] == '\\' && s[1] == letter && s[2..] == tail;
  }

  lemma UnicodeStep(c: char, tail: string)
    requires c < ' '
    ensures ParseChars("\\u00" + [HexDigits[c as int / 16], HexDigits[c as int % 16]] + tail) == Prepend(c, ParseChars(tail))
  {
    var hi, lo := c as int / 16, c as int % 16;
    var s := "\\u00" + [HexDigits[hi], HexDigits[lo]] + tail;
    HexDigitsValue(hi);
    HexDigitsValue(lo);
    assert s[0] == '\\' && s[1] == 'u';
    assert s[2..6] == ['0', '0', HexDigits[hi], HexDigits[lo]];
    assert HexValue('0') == Some(0);
    assert UnicodeEscape(s[2..6]) == Some(c);
    assert s[6..] == tail;
  }

  lemma PlainStep(c: char, tail: string)
    requires ' ' <= c && c != '"' && c != '\\'
    ensures ParseChars([c] + tail) == Prepend(c, ParseChars(tail))
  {
    var s := [c] + tail;
    assert s[0] == c && s[1..] == tail;
  }

  /** Reading one written character back. */
  lemma ParseCharsStep(c: char, tail: string)
    ensures ParseChars(EscapeChar(c) + tail) == Prepend(c, ParseChars(tail))
  {
    if EscapeLetter(c).Some? {
      EscapeLetterInverse(c);
      TwoCharStep(c, EscapeLetter(c).value, tail);
    } else if c < ' ' {
      UnicodeStep(c, tail);
    } else {
      PlainStep(c, tail);
    }
  }

  /** A written string literal reads back as its value, leaving the text after it. */
  lemma {:induction false} ParseCharsEscape(x: string, rest: string)
    ensures ParseChars(Escape(x) + "\"" + rest) == Some((x, rest))
  {
    if x == [] {
      assert Escape(x) + "\"" + rest == "\"" + rest;
    } else {
      ParseCharsEscape(x[1..], rest);
      assert Escape(x) + "\"" + rest == EscapeChar(x[0]) + (Escape(x[1..]) + "\"" + rest);
      ParseCharsStep(x[0], Escape(x[1..]) + "\"" + rest);
      assert [x[0]] + x[1..] == x;
    }
  }

  // ---------------------------------------------------------------------------
  // Escaped surrogate pairs, which `JSON.stringify` never writes but `JSON.parse` reads

  /** Four lower-case hexadecimal digits for `n`. */
  function Hex4(n: nat): (h: string)
    requires n < 0x10000
    ensures |h| == 4
  {
    [HexDigits[n / 16 / 16 / 16], HexDigits[n / 16 / 16 % 16], HexDigits[n / 16 % 16], HexDigits[n % 16]]
  }

  lemma Hex4Code(n: nat)
    requires n < 0x10000
    ensures HexCode(Hex4(n)) == Some(n)
  {
    var m1 := n / 16;
    var m2 := m1 / 16;
    assert n == 16 * m1 + n % 16;
    assert m1 == 16 * m2 + m1 % 16;
    assert m2 == 16 * (m2 / 16) + m2 % 16;
    HexDigitsValue(m2 / 16);
    HexDigitsValue(m2 % 16);
    HexDigitsValue(m1 % 16);
    HexDigitsValue(n % 16);
  }

  /** The high and the low surrogate half UTF-16 writes for a character outside the Basic Multilingual Plane. */
  function HighHalf(c: char): (v: nat)
    requires 0x10000 <= c as int
    ensures IsHighSurrogate(v)
  {
    0xD800 + (c as int - 0x10000) / 0x400
  }

  function LowHalf(c: char): (v: nat)
    requires 0x10000 <= c as int
    ensures IsLowSurrogate(v)
  {
    0xDC00 + (c as int - 0x10000) % 0x400
  }

  /** The two halves of a character put together give the character back. */
  lemma PairCharHalves(c: char)
    requires 0x10000 <= c as int
    ensures PairChar(HighHalf(c), LowHalf(c)) == c
  {
    var k := c as int - 0x10000;
    assert (k / 0x400) * 0x400 + k % 0x400 == k;
  }

  /** The escape `\\uXXXX` for `n`. */
  function UnitEscape(n: nat): (e: string)
    requires n < 0x10000
    ensures |e| == 6
  {
    "\\u" + Hex4(n)
  }

  lemma UnitEscapeCode(n: nat)
    requires n < 0x10000
    ensures EscapeCode(UnitEscape(n)) == Some(n)
  {
    Hex4Code(n);
    assert UnitEscape(n)[2..] == Hex4(n);
  }

  /** The twelve characters of a surrogate pair escape. */
  function PairText(c: char): (e: string)
    requires 0x10000 <= c as int
    ensures |e| == 12
  {
    UnitEscape(HighHalf(c)) + UnitEscape(LowHalf(c))
  }

  lemma PairTextDecodes(c: char)
    requires 0x10000 <= c as int
    ensures PairEscape(PairText(c)) == Some(c)
  {
    var e := PairText(c);
    UnitEscapeCode(HighHalf(c));
    UnitEscapeCode(LowHalf(c));
    PairCharHalves(c);
    assert e[..6] == UnitEscape(HighHalf(c)) && e[6..] == UnitEscape(LowHalf(c));
  }

  lemma PairBranch(s: string)
    requires |s| >= 12 && s[0] == '\\' && s[1] == 'u'
    requires UnicodeEscape(s[2..6]).None? && PairEscape(s[..12]).Some?
    ensures ParseChars(s) == Prepend(PairEscape(s[..12]).value, ParseChars(s[12..]))
  {
  }

  /** A character escaped as a surrogate pair reads back as that character. */
  lemma PairStep(c: char, tail: string)
    requires 0x10000 <= c as int
    ensures ParseChars(PairText(c) + tail) == Prepend(c, ParseChars(tail))
  {
    var s := PairText(c) + tail;
    var hi := HighHalf(c);
    Hex4Code(hi);
    PairTextDecodes(c);
    assert s[..6] == UnitEscape(hi);
    assert s[0] == '\\' && s[1] == 'u' && s[2..6] == Hex4(hi);
    assert s[..12] == PairText(c) && s[12..] == tail;
    PairBranch(s);
  }

  lemma SkipSpaceStops(s: string)
    requires s != [] && !IsJsonSpace(s[0])
    ensures SkipSpace(s) == s
  {
  }

  /** An item written by `Quote` reads back, whatever follows it. */
  lemma ParseItemsQuote(x: string, after: string)
    ensures ParseItems(Quote(x) + after) == ItemsAfter(x, after)
  {
    var t := Quote(x) + after;
    assert t[0] == '"';
    assert t[1..] == Escape(x) + "\"" + after;
    ParseCharsEscape(x, after);
  }

  /** A closing bracket followed only by white space ends the array after `v`. */
  lemma ItemsAfterEnd(v: string, after: string)
    requires after != [] && after[0] == ']' && SkipSpace(after[1..]) == []
    ensures ItemsAfter(v, after) == Some([v])
  {
    SkipSpaceStops(after);
  }

  /** A comma followed by an item continues the array after `v`. */
  lemma ItemsAfterComma(v: string, after: string)
    requires |after| >= 2 && after[0] == ',' && after[1] == '"'
    ensures ItemsAfter(v, after)
         == if ParseItems(after[1..]).Some? then Some([v] + ParseItems(after[1..]).value) else None
  {
    SkipSpaceStops(after);
    SkipSpaceStops(after[1..]);
  }

  lemma ParseItemsLast(x: string, tail: string)
    requires SkipSpace(tail) == []
    ensures ParseItems(Quote(x) + "]" + tail) == Some([x])
  {
    var after := "]" + tail;
    assert after[0] == ']' && after[1..] == tail;
    assert Quote(x) + "]" + tail == Quote(x) + after;
    ParseItemsQuote(x, after);
    ItemsAfterEnd(x, after);
  }

  lemma ParseItemsNext(x: string, more: string)
    requires more != [] && more[0] == '"'
    ensures ParseItems(Quote(x) + "," + more)
         == if ParseItems(more).Some? then Some([x] + ParseItems(more).value) else None
  {
    var after := "," + more;
    assert after[0] == ',' && after[1..] == more;
    assert Quote(x) + "," + more == Quote(x) + after;
    ParseItemsQuote(x, after);
    ItemsAfterComma(x, after);
  }

  lemma RenderItemsStart(xs: seq<string>)
    requires xs != []
    ensures RenderItems(xs) != [] && RenderItems(xs)[0] == '"'
  {
  }

  lemma HeadTail(xs: seq<string>)
    requires xs != []
    ensures [xs[0]] + xs[1..] == xs
  {
  }

  lemma RenderItemsCons(xs: seq<string>, tail: string)
    requires |xs| >= 2
    ensures RenderItems(xs) + "]" + tail == Quote(xs[0]) + "," + (RenderItems(xs[1..]) + "]" + tail)
  {
  }

  lemma {:induction false} ParseItemsRender(xs: seq<string>, tail: string)
    requires xs != []
    requires SkipSpace(tail) == []
    ensures ParseItems(RenderItems(xs) + "]" + tail) == Some(xs)
  {
    if |xs| == 1 {
      assert RenderItems(xs) == Quote(xs[0]);
      ParseItemsLast(xs[0], tail);
      assert xs == [xs[0]];
    } else {
      var more := RenderItems(xs[1..]) + "]" + tail;
      ParseItemsRender(xs[1..], tail);
      RenderItemsStart(xs[1..]);
      ParseItemsNext(xs[0], more);
      RenderItemsCons(xs, tail);
      HeadTail(xs);
    }
  }

  /** After the opening bracket, any text that does not start with space or `]` is read as items. */
  lemma ParseOpen(body: string)
    requires body != [] && !IsJsonSpace(body[0]) && body[0] != ']'
    ensures Parse("[" + body) == ParseItems(body)
  {
    var s := "[" + body;
    SkipSpaceStops(s);
    assert s[1..] == body;
    SkipSpaceStops(body);
  }

  /** Parsing a written array gives back its strings. */
  lemma ParseRender(xs: seq<string>)
    ensures Parse(Render(xs)) == Some(xs)
  {
    if xs == [] {
      var s := Render(xs);
      assert s == "[]";
      SkipSpaceStops(s);
      assert s[1..] == "]";
      SkipSpaceStops(s[1..]);
    } else {
      var body := RenderItems(xs) + "]" + "";
      assert Render(xs) == "[" + body;
      RenderItemsStart(xs);
      ParseOpen(body);
      ParseItemsRender(xs, "");
    }
  }
}
