/**
 * The JavaScript string operations the services rely on: `trim`, leading
 * character-class stripping (the `replace(/^[...]+/, '')` idiom), `split`
 * on one character, `includes` and `toLowerCase`.
 */
module Text {

  import opened Seqs

  /** JavaScript's `\s` class, which is also the set `trim` removes: WhiteSpace and LineTerminator. */
  predicate IsSpace(c: char) {
    || c == '\t' || c == '\n' || c == '\U{B}' || c == '\U{C}' || c == '\r' || c == ' '
    || c == '\U{A0}' || c == '\U{1680}' || ('\U{2000}' <= c <= '\U{200A}')
    || c == '\U{2028}' || c == '\U{2029}' || c == '\U{202F}' || c == '\U{205F}'
    || c == '\U{3000}' || c == '\U{FEFF}'
  }

  /** JavaScript's `\d` without the `u` flag: the ASCII digits only. */
  predicate IsAsciiDigit(c: char) {
    '0' <= c <= '9'
  }

  /** Removes the longest prefix whose characters all satisfy `p` (`replace(/^[class]+/, '')`). */
  function StripLeading(s: string, p: char -> bool): (r: string)
    ensures |r| <= |s| && r == s[|s| - |r|..]
    ensures forall i :: 0 <= i < |s| - |r| ==> p(s[i])
    ensures r != [] ==> !p(r[0])
  {
    if s != [] && p(s[0]) then StripLeading(s[1..], p) else s
  }

  /** Removes the longest suffix whose characters all satisfy `p`. */
  function StripTrailing(s: string, p: char -> bool): (r: string)
    ensures |r| <= |s| && r == s[..|r|]
    ensures forall i :: |r| <= i < |s| ==> p(s[i])
    ensures r != [] ==> !p(r[|r| - 1])
  {
    if s != [] && p(s[|s| - 1]) then StripTrailing(s[..|s| - 1], p) else s
  }

  /** Stripping stops at once at a character outside the class, and takes one step past one inside it. */
  lemma StripLeadingStops(s: string, p: char -> bool)
    requires s != [] && !p(s[0])
    ensures StripLeading(s, p) == s
  {
  }

  lemma StripLeadingStep(s: string, p: char -> bool)
    requires s != [] && p(s[0])
    ensures StripLeading(s, p) == StripLeading(s[1..], p)
  {
  }

  lemma StripTrailingStops(s: string, p: char -> bool)
    requires s != [] && !p(s[|s| - 1])
    ensures StripTrailing(s, p) == s
  {
  }

  lemma StripTrailingStep(s: string, p: char -> bool)
    requires s != [] && p(s[|s| - 1])
    ensures StripTrailing(s, p) == StripTrailing(s[..|s| - 1], p)
  {
  }

  /** `String.prototype.trim`. */
  function Trim(s: string): (r: string)
  {
    StripTrailing(StripLeading(s, IsSpace), IsSpace)
  }

  /** A trimmed string neither starts nor ends with white space. */
  lemma TrimEnds(s: string)
    ensures var t := Trim(s); t != [] ==> !IsSpace(t[0]) && !IsSpace(t[|t| - 1])
  {
    StripTrailingFirst(StripLeading(s, IsSpace), IsSpace);
  }

  /** `trim` keeps a contiguous slice of its input and cuts only white space off either end. */
  lemma TrimSlice(s: string) returns (k: nat)
    ensures k + |Trim(s)| <= |s| && Trim(s) == s[k..k + |Trim(s)|]
    ensures forall i :: 0 <= i < k ==> IsSpace(s[i])
    ensures forall i :: k + |Trim(s)| <= i < |s| ==> IsSpace(s[i])
  {
    var a := StripLeading(s, IsSpace);
    k := |s| - |a|;
    assert a == s[k..];
    StripTrailingSlice(s, k, IsSpace);
    assert Trim(s) == StripTrailing(a, IsSpace) == StripTrailing(s[k..], IsSpace);
  }

  /** After stripping a class `p`, no leading character of a smaller class `q` remains to strip. */
  lemma StripLeadingSubclass(s: string, p: char -> bool, q: char -> bool)
    requires forall c :: q(c) ==> p(c)
    ensures StripLeading(StripLeading(s, p), q) == StripLeading(s, p)
  {
    var a := StripLeading(s, p);
    assert a != [] ==> !q(a[0]);
  }

  /** Stripping the end keeps the first character. */
  lemma StripTrailingFirst(s: string, q: char -> bool)
    ensures var r := StripTrailing(s, q); r != [] ==> r[0] == s[0]
  {
  }

  /** Stripping the end of a suffix `s[k..]` keeps a slice of `s` and cuts only class `q` off. */
  lemma StripTrailingSlice(s: string, k: nat, q: char -> bool)
    requires k <= |s|
    ensures var r := StripTrailing(s[k..], q);
      && k + |r| <= |s| && r == s[k..k + |r|]
      && forall i :: k + |r| <= i < |s| ==> q(s[i])
  {
    var a := s[k..];
    var r := StripTrailing(a, q);
    assert r == a[..|r|];
    forall i | k + |r| <= i < |s| ensures q(s[i]) {
      assert s[i] == a[i - k];
    }
  }

  /** Trimming twice is trimming once. */
  lemma TrimIdempotent(s: string)
    ensures Trim(Trim(s)) == Trim(s)
  {
    var t := Trim(s);
    TrimEnds(s);
    assert StripLeading(t, IsSpace) == t;
  }

  /** A string trims to nothing exactly when every character is white space. */
  lemma TrimEmptyIff(s: string)
    ensures Trim(s) == "" <==> forall i :: 0 <= i < |s| ==> IsSpace(s[i])
  {
    var a := StripLeading(s, IsSpace);
    assert a == s[|s| - |a|..];
    if Trim(s) == "" {
      forall i | 0 <= i < |s| ensures IsSpace(s[i]) {
        if i >= |s| - |a| {
          assert s[i] == a[i - (|s| - |a|)];
        }
      }
    }
  }

  /** `s.split(sep)` for a one-character separator: never empty, no piece holds `sep`. */
  function Split(s: string, sep: char): (r: seq<string>)
    ensures |r| >= 1
    ensures forall i :: 0 <= i < |r| ==> sep !in r[i]
    ensures Join(r, sep) == s
  {
    if s == [] then [""]
    else
      var rest := Split(s[1..], sep);
      if s[0] == sep then
        assert Join([""] + rest, sep) == "" + [sep] + Join(rest, sep);
        [""] + rest
      else
        var r := [[s[0]] + rest[0]] + rest[1..];
        assert |rest| > 1 ==> Join(rest, sep) == rest[0] + [sep] + Join(rest[1..], sep);
        assert r[1..] == rest[1..];
        r
  }

  /** `pieces.join(sep)`, the inverse of `Split`. */
  function Join(pieces: seq<string>, sep: char): string
  {
    if |pieces| == 0 then ""
    else if |pieces| == 1 then pieces[0]
    else pieces[0] + [sep] + Join(pieces[1..], sep)
  }

  lemma {:induction false} JoinHasSep(pieces: seq<string>, sep: char)
    requires |pieces| > 1
    ensures sep in Join(pieces, sep)
  {
    var j := Join(pieces, sep);
    assert j[|pieces[0]|] == sep;
  }

  lemma {:induction false} JoinNoSep(pieces: seq<string>, sep: char)
    requires |pieces| == 1
    ensures Join(pieces, sep) == pieces[0]
  {
  }

  lemma SepSplitUnique(a: string, x: string, b: string, y: string, sep: char)
    requires sep !in a && sep !in b
    requires a + [sep] + x == b + [sep] + y
    ensures a == b && x == y
  {
    var u := a + [sep] + x;
    assert u[|a|] == sep && u[|b|] == sep;
    assert |a| == |b|;
    assert a == u[..|a|] == b;
    assert x == u[|a| + 1..] == y;
  }

  /** Separator-free pieces are determined by their join. */
  lemma {:induction false} JoinInjective(ps: seq<string>, qs: seq<string>, sep: char)
    requires |ps| >= 1 && |qs| >= 1
    requires forall i :: 0 <= i < |ps| ==> sep !in ps[i]
    requires forall i :: 0 <= i < |qs| ==> sep !in qs[i]
    requires Join(ps, sep) == Join(qs, sep)
    ensures ps == qs
  {
    if |ps| == 1 {
      if |qs| > 1 {
        JoinHasSep(qs, sep);
        assert false;
      }
    } else {
      if |qs| == 1 {
        JoinHasSep(ps, sep);
        assert false;
      }
      SepSplitUnique(ps[0], Join(ps[1..], sep), qs[0], Join(qs[1..], sep), sep);
      JoinInjective(ps[1..], qs[1..], sep);
      assert ps == [ps[0]] + ps[1..];
      assert qs == [qs[0]] + qs[1..];
    }
  }

  /** Splitting a join of separator-free pieces gives the pieces back. */
  lemma SplitJoin(ps: seq<string>, sep: char)
    requires |ps| >= 1
    requires forall i :: 0 <= i < |ps| ==> sep !in ps[i]
    ensures Split(Join(ps, sep), sep) == ps
  {
    JoinInjective(Split(Join(ps, sep), sep), ps, sep);
  }

  /** The first field of a split is the text before the first separator; the rest is split from after it. */
  lemma {:induction false} SplitAtFirst(s: string, sep: char)
    requires sep in s
    ensures |Split(s, sep)| >= 2
    ensures Split(s, sep)[0] == s[..FirstIndex(s, sep)]
    ensures Split(s, sep)[1..] == Split(s[FirstIndex(s, sep) + 1..], sep)
  {
    var k := FirstIndex(s, sep);
    var tail := Split(s[k + 1..], sep);
    var q := [s[..k]] + tail;
    assert q[1..] == tail;
    assert s == s[..k] + [sep] + s[k + 1..];
    assert Join(q, sep) == s;
    JoinInjective(Split(s, sep), q, sep);
  }

  /** A field followed by the separator comes off the front of the split. */
  lemma SplitCons(a: string, rest: string, sep: char)
    requires sep !in a
    ensures Split(a + [sep] + rest, sep) == [a] + Split(rest, sep)
  {
    var s := a + [sep] + rest;
    assert s[|a|] == sep && s[..|a|] == a;
    assert FirstIndex(s, sep) == |a|;
    SplitAtFirst(s, sep);
    assert s[|a| + 1..] == rest;
    var r := Split(s, sep);
    assert r == [r[0]] + r[1..];
  }

  /** A string without the separator splits into itself alone. */
  lemma SplitNoSep(s: string, sep: char)
    requires sep !in s
    ensures Split(s, sep) == [s]
  {
    SplitJoin([s], sep);
  }

  predicate OccursAt(s: string, t: string, i: int) {
    0 <= i && i + |t| <= |s| && s[i..i + |t|] == t
  }

  /** `s.includes(t)`. */
  function Contains(s: string, t: string): (r: bool)
    ensures r <==> exists i :: OccursAt(s, t, i)
    decreases |s|
  {
    if |t| > |s| then false
    else if s[..|t|] == t then
      assert OccursAt(s, t, 0);
      true
    else
      var r := Contains(s[1..], t);
      assert forall i :: OccursAt(s[1..], t, i) ==> OccursAt(s, t, i + 1);
      assert forall i :: OccursAt(s, t, i) ==> i == 0 || OccursAt(s[1..], t, i - 1);
      r
  }

  /** Looking for a one-character string is looking for the character. */
  lemma ContainsChar(s: string, c: char)
    ensures Contains(s, [c]) <==> c in s
  {
    if c in s {
      var i :| 0 <= i < |s| && s[i] == c;
      assert OccursAt(s, [c], i);
    }
    if Contains(s, [c]) {
      var i :| OccursAt(s, [c], i);
      assert s[i] == s[i..i + 1][0];
    }
  }

  /** `toLowerCase` on the Basic Latin and Cyrillic capitals; every other character is kept. */
  function LowerChar(c: char): char {
    if 'A' <= c <= 'Z' then (c as int + 32) as char
    else if '\U{410}' <= c <= '\U{42F}' then (c as int + 0x20) as char
    else if '\U{400}' <= c <= '\U{40F}' then (c as int + 0x50) as char
    else c
  }

  function Lower(s: string): (r: string)
    ensures |r| == |s|
  {
    seq(|s|, i requires 0 <= i < |s| => LowerChar(s[i]))
  }
}
