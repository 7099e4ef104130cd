/** The string operations of the modelled code that several modules share, over Dafny's
    Unicode characters: whitespace, stripping, splitting and decimal integers. */
module Text {
  datatype Option<+T> = None | Some(value: T)

  /** The characters that Python's `str.isspace` (and so `strip`, `split` and `\s`) accepts. */
  predicate IsSpace(c: char) {
    var n := c as int;
    9 <= n <= 13 || 28 <= n <= 32 || n == 0x85 || n == 0xA0 || n == 0x1680 || 0x2000 <= n <= 0x200A
    || n == 0x2028 || n == 0x2029 || n == 0x202F || n == 0x205F || n == 0x3000
  }

  lemma {:induction false} SpacesAre(c: char)
    ensures IsSpace(c)
            <==> c in {'\t', '\n', '\U{000B}', '\U{000C}', '\r', '\U{001C}', '\U{001D}', '\U{001E}', '\U{001F}', ' ',
                       '\U{0085}', '\U{00A0}', '\U{1680}', '\U{2000}', '\U{2001}', '\U{2002}', '\U{2003}', '\U{2004}',
                       '\U{2005}', '\U{2006}', '\U{2007}', '\U{2008}', '\U{2009}', '\U{200A}', '\U{2028}', '\U{2029}',
                       '\U{202F}', '\U{205F}', '\U{3000}'}
  {
  }

  predicate NoSpace(s: string) {
    forall i | 0 <= i < |s| :: !IsSpace(s[i])
  }

  function LStrip(s: string): (r: string)
    ensures |r| <= |s|
    ensures r == "" || !IsSpace(r[0])
  {
    if s != "" && IsSpace(s[0]) then LStrip(s[1..]) else s
  }

  function RStrip(s: string): (r: string)
    ensures |r| <= |s|
    ensures r == "" || !IsSpace(r[|r| - 1])
  {
    if s != "" && IsSpace(s[|s| - 1]) then RStrip(s[..|s| - 1]) else s
  }

  /** `str.strip()`. */
  function Strip(s: string): (r: string)
    ensures |r| <= |s|
  {
    RStrip(LStrip(s))
  }

  /** `str.rstrip(".")`. */
  function RStripDots(s: string): (r: string)
    ensures |r| <= |s|
    ensures r == "" || r[|r| - 1] != '.'
  {
    if s != "" && s[|s| - 1] == '.' then RStripDots(s[..|s| - 1]) else s
  }

  /** The longest prefix without whitespace. */
  function Word(s: string): (w: string)
    ensures |w| <= |s| && NoSpace(w)
    ensures |w| == |s| || IsSpace(s[|w|])
  {
    if s == "" || IsSpace(s[0]) then "" else [s[0]] + Word(s[1..])
  }

  /** `str.split(None, n)`: n words, then whatever follows them without its leading whitespace. */
  function SplitN(s: string, n: nat): seq<string>
    decreases |s|
  {
    var t := LStrip(s);
    if t == "" then [] else if n == 0 then [t] else [Word(t)] + SplitN(t[|Word(t)|..], n - 1)
  }

  /** `str.split()`. */
  function Fields(s: string): seq<string>
    decreases |s|
  {
    var t := LStrip(s);
    if t == "" then [] else [Word(t)] + Fields(t[|Word(t)|..])
  }

  lemma {:induction false} WordStops(w: string, rest: string)
    requires NoSpace(w)
    requires rest == "" || IsSpace(rest[0])
    ensures Word(w + rest) == w
  {
    if w == "" {
      assert w + rest == rest;
    } else {
      WordStops(w[1..], rest);
      assert (w + rest)[1..] == w[1..] + rest;
    }
  }

  lemma {:induction false} FieldsWord(w: string)
    requires w != "" && NoSpace(w)
    ensures Fields(w) == [w]
  {
    WordStops(w, "");
    assert w + "" == w;
    assert w[|w|..] == "";
    assert Fields("") == [];
  }

  lemma {:induction false} FieldsCons(w: string, rest: string)
    requires w != "" && NoSpace(w)
    ensures Fields(w + " " + rest) == [w] + Fields(rest)
  {
    var s := w + " " + rest;
    assert s == w + (" " + rest);
    WordStops(w, " " + rest);
    assert s[|w|..] == " " + rest;
    assert (" " + rest)[1..] == rest;
    assert LStrip(" " + rest) == LStrip(rest);
    assert LStrip(s) == s;
    FieldsOfLStrip(" " + rest);
    FieldsOfLStrip(rest);
  }

  lemma {:induction false} FieldsOfLStrip(s: string)
    ensures Fields(s) == Fields(LStrip(s))
  {
    assert LStrip(LStrip(s)) == LStrip(s);
  }

  lemma {:induction false} SplitNWord(w: string, tail: string, n: nat)
    requires w != "" && NoSpace(w) && n > 0
    requires tail == "" || IsSpace(tail[0])
    ensures SplitN(w + tail, n) == [w] + SplitN(tail, n - 1)
  {
    var s := w + tail;
    WordStops(w, tail);
    assert LStrip(s) == s && s[|w|..] == tail;
  }

  lemma {:induction false} SplitNOfLStrip(s: string, t: string, n: nat)
    requires LStrip(s) == LStrip(t)
    ensures SplitN(s, n) == SplitN(t, n)
  {
  }

  lemma {:induction false} SplitNCons(w: string, rest: string, n: nat)
    requires w != "" && NoSpace(w) && n > 0
    ensures SplitN(w + " " + rest, n) == [w] + SplitN(rest, n - 1)
  {
    var tail := " " + rest;
    assert w + " " + rest == w + tail;
    SplitNWord(w, tail, n);
    assert tail[1..] == rest;
    SplitNOfLStrip(tail, rest, n - 1);
  }

  ghost predicate AreWords(words: seq<string>) {
    forall i | 0 <= i < |words| :: words[i] != "" && NoSpace(words[i])
  }

  lemma {:induction false} FieldsAreWords(s: string)
    ensures AreWords(Fields(s))
    decreases |s|
  {
    var t := LStrip(s);
    if t != "" {
      var w := Word(t);
      var rest := t[|w|..];
      assert w != "";
      FieldsAreWords(rest);
      assert Fields(s) == [w] + Fields(rest);
    }
  }

  predicate IsDigit(c: char) { '0' <= c <= '9' }

  /** `str.isdigit`, for ASCII digits. */
  predicate AllDigits(s: string) {
    s != "" && forall i | 0 <= i < |s| :: IsDigit(s[i])
  }

  function DigitChar(d: nat): (c: char)
    requires d < 10
    ensures IsDigit(c) && c as int - '0' as int == d
  {
    ('0' as int + d) as char
  }

  function NatText(n: nat): (s: string)
    ensures AllDigits(s)
  {
    if n < 10 then [DigitChar(n)] else NatText(n / 10) + [DigitChar(n % 10)]
  }

  function IntText(n: int): (s: string)
    ensures s != "" && NoSpace(s)
  {
    if n < 0 then "-" + NatText(-n) else NatText(n)
  }

  /** The digits of an integer literal, single underscores between digits allowed. */
  function DigitsValue(s: string): Option<nat> {
    if s == "" || !IsDigit(s[|s| - 1]) then None
    else
      var d := s[|s| - 1] as int - '0' as int;
      if |s| == 1 then Some(d)
      else
        var cut := if s[|s| - 2] == '_' then |s| - 2 else |s| - 1;
        match DigitsValue(s[..cut])
        case None => None
        case Some(v) => Some(10 * v + d)
  }

  /** Python's `int(text)` for ASCII text without surrounding whitespace; None is a ValueError. */
  function ParseInt(s: string): Option<int> {
    if s != "" && s[0] == '-' then
      match DigitsValue(s[1..]) case None => None case Some(v) => var value: int := v; Some(-value)
    else
      match DigitsValue(if s != "" && s[0] == '+' then s[1..] else s)
      case None => None
      case Some(v) => var value: int := v; Some(value)
  }

  lemma {:induction false} DigitsOfNatText(n: nat)
    ensures DigitsValue(NatText(n)) == Some(n)
  {
    if n >= 10 {
      DigitsOfNatText(n / 10);
      var s := NatText(n);
      assert s[..|s| - 1] == NatText(n / 10);
      assert IsDigit(s[|s| - 2]);
    }
  }

  /** Printing an integer and reading it back is the identity. */
  lemma {:induction false} IntRoundTrip(n: int)
    ensures ParseInt(IntText(n)) == Some(n)
  {
    hide NatText, DigitsValue;
    if n < 0 {
      DigitsOfNatText(-n);
      assert IntText(n)[1..] == NatText(-n);
    } else {
      DigitsOfNatText(n);
      assert IsDigit(NatText(n)[0]);
    }
  }

  /** A plus sign changes nothing, a minus sign turns the number round, and an underscore may stand between digits. */
  lemma {:induction false} IntForms(n: nat, s: string, c: char)
    requires DigitsValue(s).Some? && IsDigit(c)
    ensures ParseInt("+" + NatText(n)) == Some(n) && ParseInt("-" + NatText(n)) == Some(0 - n)
    ensures DigitsValue(s + [c]) == DigitsValue(s + "_" + [c])
            == Some(10 * DigitsValue(s).value + (c as int - '0' as int))
  {
    DigitsOfNatText(n);
    assert ("+" + NatText(n))[1..] == NatText(n) && ("-" + NatText(n))[1..] == NatText(n);
    var plain, cut := s + [c], s + "_" + [c];
    assert plain[..|plain| - 1] == s && cut[..|cut| - 2] == s;
    assert cut[|cut| - 2] == '_' && plain[|plain| - 2] == s[|s| - 1];
  }

  /** A smaller set has fewer elements. */
  lemma {:induction false} Fewer<T>(a: set<T>, b: set<T>)
    requires a <= b
    ensures |a| <= |b|
  {
    assert b == a + (b - a);
  }
}
