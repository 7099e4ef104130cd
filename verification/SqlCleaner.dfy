/** The chunked cleaner of MySQL dumps (daemon/cpanel_import.py:611-643, 694-727) against the one that sees
    whole lines: it removes leading CREATE DATABASE, USE and DROP DATABASE statements and copies the rest. */
module SqlCleaner {
  import opened Text

  /** Which characters belong to a word; the only other thing a word boundary depends on is the end of the text. */
  type Words = char -> bool

  /** A letter of a keyword, ignoring case; the long s folds to s. */
  predicate SameLetter(c: char, lower: char) {
    c == lower || c as int == lower as int - 32 || (lower == 's' && c as int == 0x17F)
  }

  predicate Has(s: string, i: nat, w: string) {
    i + |w| <= |s| && forall j | 0 <= j < |w| :: SameLetter(s[i + j], w[j])
  }

  /** The first position from `i` on that is not whitespace. */
  function Spaces(s: string, i: nat): (r: nat)
    requires i <= |s|
    ensures i <= r <= |s|
    decreases |s| - i
  {
    if i < |s| && IsSpace(s[i]) then Spaces(s, i + 1) else i
  }

  /** Where the keywords of a database selector that `s` starts with end, before the word boundary is looked at. */
  function KeywordsEnd(s: string): (r: Option<nat>)
    ensures r.Some? ==> 0 < r.value <= |s|
  {
    var i := Spaces(s, 0);
    if Has(s, i, "use") then Some(i + 3)
    else
      var j := if Has(s, i, "create") then i + 6 else if Has(s, i, "drop") then i + 4 else i;
      if j == i then None
      else
        var k := Spaces(s, j);
        if k > j && Has(s, k, "database") then Some(k + 8) else None
  }

  /** The selector prefix of a line: keywords that end at a word boundary. */
  function SelectorEnd(word: Words, s: string): (r: Option<nat>)
    ensures r.Some? ==> 0 < r.value <= |s|
  {
    var r := KeywordsEnd(s);
    if r.Some? && (r.value == |s| || !word(s[r.value])) then r else None
  }

  function Semicolon(s: string, i: nat): (r: Option<nat>)
    requires i <= |s|
    ensures r.Some? ==> i <= r.value < |s| && s[r.value] == ';' && ';' !in s[i..r.value]
    ensures r.None? ==> ';' !in s[i..]
    decreases |s| - i
  {
    if i == |s| then None
    else if s[i] == ';' then Some(i)
    else
      var r := Semicolon(s, i + 1);
      assert s[i..] == [s[i]] + s[i + 1..];
      assert r.Some? ==> s[i..r.value] == [s[i]] + s[i + 1..r.value];
      r
  }

  /** Where the complete directive that `s` starts with ends, its semicolon included. */
  function DirectiveEnd(word: Words, s: string): (r: Option<nat>)
    ensures r.Some? ==> 0 < r.value <= |s|
  {
    match SelectorEnd(word, s)
    case None => None
    case Some(i) => match Semicolon(s, i) case None => None case Some(j) => Some(j + 1)
  }

  /** What is left of a line when every leading directive is gone. */
  function Stripped(word: Words, s: string): string
    decreases |s|
  {
    match DirectiveEnd(word, s) case None => s case Some(e) => Stripped(word, s[e..])
  }

  /** The first `k` characters of `s` are complete leading directives. */
  predicate Leading(word: Words, s: string, k: nat)
    decreases |s|
  {
    k == 0 || match DirectiveEnd(word, s) case None => false case Some(e) => e <= k && Leading(word, s[e..], k - e)
  }

  // What a directive is, on the text itself.

  /** The keyword in any mixture of small and capital letters; the long s counts as an s. */
  ghost predicate Keyword(s: string, small: string, capital: string)
    requires |small| == |capital|
  {
    |s| == |small|
    && forall i | 0 <= i < |s| :: Letter(s[i], small[i], capital[i])
  }

  ghost predicate Letter(c: char, small: char, capital: char) {
    c == small || c == capital || (small == 's' && c == '\U{017F}')
  }

  ghost predicate White(s: string) { forall i | 0 <= i < |s| :: IsSpace(s[i]) }

  /** USE, or CREATE or DROP and then DATABASE, as whole words after any whitespace, and what follows them up to the
      first semicolon: a verb in d[i..j], whitespace in d[j..k] and a noun in d[k..r]. */
  ghost predicate Parts(word: Words, d: string, i: nat, j: nat, k: nat, r: nat) {
    i <= j <= k <= r < |d| && White(d[..i])
    && ((Keyword(d[i..j], "use", "USE") && j == r)
        || ((Keyword(d[i..j], "create", "CREATE") || Keyword(d[i..j], "drop", "DROP"))
            && j < k && White(d[j..k]) && Keyword(d[k..r], "database", "DATABASE")))
    && !word(d[r]) && ';' !in d[r..|d| - 1] && d[|d| - 1] == ';'
  }

  ghost predicate IsDirective(word: Words, d: string) {
    exists i: nat, j: nat, k: nat, r: nat :: Parts(word, d, i, j, k, r)
  }

  /** Nothing but directives, one behind the other. */
  ghost predicate Directives(word: Words, t: string)
    decreases |t|
  {
    t == "" || exists e | 0 < e <= |t| :: IsDirective(word, t[..e]) && Directives(word, t[e..])
  }

  ghost predicate NoDirective(word: Words, t: string) { forall e | 0 <= e <= |t| :: !IsDirective(word, t[..e]) }

  lemma {:induction false} SpacesStop(s: string, i: nat)
    requires i <= |s|
    ensures White(s[i..Spaces(s, i)]) && (Spaces(s, i) < |s| ==> !IsSpace(s[Spaces(s, i)]))
    decreases |s| - i
  {
    hide IsSpace;
    if i < |s| && IsSpace(s[i]) {
      SpacesStop(s, i + 1);
      assert s[i..Spaces(s, i)] == [s[i]] + s[i + 1..Spaces(s, i)];
    }
  }

  lemma {:induction false} SpacesOver(s: string, i: nat, r: nat)
    requires i <= r <= |s| && White(s[i..r]) && (r < |s| ==> !IsSpace(s[r]))
    ensures Spaces(s, i) == r
    decreases r - i
  {
    hide IsSpace;
    if i < r {
      assert s[i..r][0] == s[i] && s[i..r][1..] == s[i + 1..r];
      SpacesOver(s, i + 1, r);
    }
  }

  lemma {:induction false} HasExactly(s: string, i: nat)
    ensures Has(s, i, "use") <==> i + 3 <= |s| && Keyword(s[i..i + 3], "use", "USE")
    ensures Has(s, i, "create") <==> i + 6 <= |s| && Keyword(s[i..i + 6], "create", "CREATE")
    ensures Has(s, i, "drop") <==> i + 4 <= |s| && Keyword(s[i..i + 4], "drop", "DROP")
    ensures Has(s, i, "database") <==> i + 8 <= |s| && Keyword(s[i..i + 8], "database", "DATABASE")
  {
    hide SameLetter;
    LettersExactly();
    KeywordAt(s, i, "use", "USE");
    KeywordAt(s, i, "create", "CREATE");
    KeywordAt(s, i, "drop", "DROP");
    KeywordAt(s, i, "database", "DATABASE");
  }

  ghost predicate Capitals(small: string, capital: string)
    requires |small| == |capital|
  {
    forall i | 0 <= i < |small| :: capital[i] as int == small[i] as int - 32
  }

  lemma {:induction false} LettersExactly()
    ensures Capitals("use", "USE") && Capitals("create", "CREATE") && Capitals("drop", "DROP")
    ensures Capitals("database", "DATABASE")
  {
  }

  lemma {:induction false} KeywordAt(s: string, i: nat, small: string, capital: string)
    requires |small| == |capital| && Capitals(small, capital)
    ensures Has(s, i, small) <==> i + |small| <= |s| && Keyword(s[i..i + |small|], small, capital)
  {
    if i + |small| <= |s| {
      forall j | 0 <= j < |small|
        ensures SameLetter(s[i + j], small[j]) <==> Letter(s[i..i + |small|][j], small[j], capital[j]) {
      }
    }
  }

  lemma {:induction false} SameSlices(s: string, e: nat, i: nat, j: nat, k: nat, r: nat)
    requires i <= j <= k <= r < e <= |s|
    ensures s[..e][..i] == s[0..i] && s[..e][i..j] == s[i..j] && s[..e][j..k] == s[j..k] && s[..e][k..r] == s[k..r]
    ensures s[..e][r..e - 1] == s[r..e - 1]
  {
  }

  /** What is taken for a directive is one. */
  lemma {:induction false} DirectiveIs(word: Words, s: string)
    ensures DirectiveEnd(word, s).Some? ==> IsDirective(word, s[..DirectiveEnd(word, s).value])
  {
    hide Spaces, Has, Keyword, White, IsSpace;
    if DirectiveEnd(word, s).Some? {
      var i, e := Spaces(s, 0), DirectiveEnd(word, s).value;
      var r := KeywordsEnd(s).value;
      SpacesStop(s, 0);
      HasExactly(s, i);
      var d := s[..e];
      if Has(s, i, "use") {
        SameSlices(s, e, i, r, r, r);
        assert Parts(word, d, i, r, r, r);
      } else {
        var j := if Has(s, i, "create") then i + 6 else i + 4;
        var k := Spaces(s, j);
        SpacesStop(s, j);
        HasExactly(s, k);
        SameSlices(s, e, i, j, k, r);
        assert Parts(word, d, i, j, k, r);
      }
    }
  }

  lemma {:induction false} FirstLetter(s: string, small: string, capital: string)
    requires |small| == |capital| > 0 && Keyword(s, small, capital) && 'a' <= small[0] <= 'z'
    requires 'A' <= capital[0] <= 'Z'
    ensures s != "" && !IsSpace(s[0])
  {
  }

  lemma {:induction false} VerbStarts(verb: string)
    requires Keyword(verb, "use", "USE") || Keyword(verb, "create", "CREATE") || Keyword(verb, "drop", "DROP")
    ensures verb != "" && !IsSpace(verb[0])
  {
    hide Keyword, IsSpace;
    if Keyword(verb, "use", "USE") {
      FirstLetter(verb, "use", "USE");
    } else if Keyword(verb, "create", "CREATE") {
      FirstLetter(verb, "create", "CREATE");
    } else {
      FirstLetter(verb, "drop", "DROP");
    }
  }

  /** The directive that a text starts with is found. */
  lemma {:induction false} DirectiveFound(word: Words, s: string, e: nat)
    requires e <= |s| && IsDirective(word, s[..e])
    ensures DirectiveEnd(word, s) == Some(e)
  {
    hide Spaces, Has, Keyword, White, IsSpace, Semicolon, KeywordsEnd;
    var d := s[..e];
    var i: nat, j: nat, k: nat, r: nat :| Parts(word, d, i, j, k, r);
    SameSlices(s, e, i, j, k, r);
    KeywordsFound(s, i, j, k, r);
    SemicolonAfter(s, r, e - 1);
  }

  lemma {:induction false} KeywordsFound(s: string, i: nat, j: nat, k: nat, r: nat)
    requires i <= j <= k <= r < |s| && White(s[0..i])
    requires (Keyword(s[i..j], "use", "USE") && j == r)
             || ((Keyword(s[i..j], "create", "CREATE") || Keyword(s[i..j], "drop", "DROP"))
                 && j < k && White(s[j..k]) && Keyword(s[k..r], "database", "DATABASE"))
    ensures KeywordsEnd(s) == Some(r)
  {
    hide Spaces, Has, Keyword, White, IsSpace;
    VerbStarts(s[i..j]);
    SpacesOver(s, 0, i);
    HasExactly(s, i);
    HasFits(s, i);
    KeywordLength(s[i..j], s[k..r]);
    if j < k {
      FirstLetter(s[k..r], "database", "DATABASE");
      SpacesOver(s, j, k);
      HasExactly(s, k);
    }
  }

  lemma {:induction false} KeywordLength(verb: string, noun: string)
    ensures Keyword(verb, "use", "USE") ==> |verb| == 3
    ensures Keyword(verb, "create", "CREATE") ==> |verb| == 6
    ensures Keyword(verb, "drop", "DROP") ==> |verb| == 4
    ensures Keyword(noun, "database", "DATABASE") ==> |noun| == 8
  {
  }

  lemma {:induction false} SemicolonAfter(s: string, i: nat, j: nat)
    requires i <= j < |s| && ';' !in s[i..j] && s[j] == ';'
    ensures Semicolon(s, i) == Some(j)
    decreases j - i
  {
    if i < j {
      assert s[i] in s[i..j] && forall c | c in s[i + 1..j] :: c in s[i..j];
      SemicolonAfter(s, i + 1, j);
    }
  }

  /** What is taken for leading directives is nothing but directives. */
  lemma {:induction false} LeadingIs(word: Words, s: string, k: nat)
    requires Leading(word, s, k) && k <= |s|
    ensures Directives(word, s[..k])
    decreases |s|
  {
    hide DirectiveEnd, IsDirective;
    if k > 0 {
      var e := DirectiveEnd(word, s).value;
      DirectiveIs(word, s);
      LeadingBound(word, s[e..], k - e);
      LeadingIs(word, s[e..], k - e);
      assert s[..k][..e] == s[..e] && s[..k][e..] == s[e..][..k - e];
    }
  }

  /** What is left has no directive in front. */
  lemma {:induction false} StrippedIs(word: Words, s: string)
    ensures NoDirective(word, Stripped(word, s))
    decreases |s|
  {
    hide DirectiveEnd, IsDirective;
    if DirectiveEnd(word, s).Some? {
      StrippedIs(word, s[DirectiveEnd(word, s).value..]);
    } else {
      forall e | 0 <= e <= |s| ensures !IsDirective(word, s[..e]) {
        if IsDirective(word, s[..e]) {
          DirectiveFound(word, s, e);
        }
      }
    }
  }

  /** A line: a newline only at its end, if at all. */
  predicate IsLine(l: string) { l != "" && '\n' !in l[..|l| - 1] }

  predicate Ended(l: string) { l != "" && l[|l| - 1] == '\n' }

  function Content(l: string): string { if Ended(l) then l[..|l| - 1] else l }

  predicate Blank(l: string) { LStrip(l) == "" }

  /** How many characters the line that `s` starts with has. */
  function LineLength(s: string): (n: nat)
    ensures n <= |s| && (s != "" ==> n > 0 && IsLine(s[..n]) && (n < |s| ==> Ended(s[..n])))
  {
    if s == "" then 0
    else if s[0] == '\n' then 1
    else
      var n := LineLength(s[1..]);
      assert n > 0 ==> s[..n + 1] == [s[0]] + s[1..][..n];
      n + 1
  }

  function Lines(s: string): seq<string> {
    if s == "" then [] else [s[..LineLength(s)]] + Lines(s[LineLength(s)..])
  }

  function Join(lines: seq<string>): string {
    if lines == [] then "" else lines[0] + Join(lines[1..])
  }

  /** `_strip_dump_database_context`: strip each line, drop the blank ones. */
  function StripContext(word: Words, lines: seq<string>): seq<string> {
    if lines == [] then []
    else
      var rest := StripContext(word, lines[1..]);
      var line := Stripped(word, Content(lines[0]));
      if Blank(line) then rest else [line] + rest
  }

  function NonBlank(lines: seq<string>): seq<string> {
    if lines == [] then []
    else if Blank(Content(lines[0])) then NonBlank(lines[1..])
    else [Content(lines[0])] + NonBlank(lines[1..])
  }

  /** Every line without the first `cuts` characters. */
  function Cut(lines: seq<string>, cuts: seq<nat>): string
    requires |lines| == |cuts| && forall i | 0 <= i < |lines| :: cuts[i] <= |lines[i]|
  {
    if lines == [] then "" else lines[0][cuts[0]..] + Cut(lines[1..], cuts[1..])
  }

  // Directives of a prefix and of the whole line are the same, as far as the prefix goes.

  lemma {:induction false} SpacesOfPrefix(p: string, s: string, i: nat)
    requires p <= s && i <= |p|
    ensures Spaces(s, i) == Spaces(p, i) || (Spaces(p, i) == |p| && Spaces(s, i) >= |p|)
    decreases |p| - i
  {
    if i < |p| && IsSpace(p[i]) {
      SpacesOfPrefix(p, s, i + 1);
    }
  }

  lemma {:induction false} HasInPrefix(p: string, s: string, i: nat, w: string)
    requires p <= s
    ensures Has(p, i, w) <==> Has(s, i, w) && i + |w| <= |p|
  {
  }

  lemma {:induction false} KeywordsOfPrefix(p: string, s: string, k: nat)
    requires p <= s && k <= |p|
    ensures KeywordsEnd(p) == Some(k) <==> KeywordsEnd(s) == Some(k)
  {
    hide Spaces, Has;
    var i := Spaces(p, 0);
    SpacesOfPrefix(p, s, 0);
    HasInPrefix(p, s, i, "use");
    HasInPrefix(p, s, i, "create");
    HasInPrefix(p, s, i, "drop");
    var j := if Has(p, i, "create") then i + 6 else i + 4;
    HasFits(p, i);
    HasFits(s, Spaces(s, 0));
    if j <= |p| {
      SpacesOfPrefix(p, s, j);
      HasInPrefix(p, s, Spaces(p, j), "database");
    }
  }

  lemma {:induction false} HasFits(s: string, i: nat)
    ensures Has(s, i, "use") ==> i + 3 <= |s|
    ensures Has(s, i, "create") ==> i + 6 <= |s| && !Has(s, i, "use")
    ensures Has(s, i, "drop") ==> i + 4 <= |s| && !Has(s, i, "use") && !Has(s, i, "create")
  {
    assert forall w: string | |w| > 0 && Has(s, i, w) :: SameLetter(s[i + 0], w[0]);
  }

  lemma {:induction false} SelectorOfPrefix(word: Words, p: string, s: string, k: nat)
    requires p <= s && k < |p|
    ensures SelectorEnd(word, p) == Some(k) <==> SelectorEnd(word, s) == Some(k)
  {
    hide KeywordsEnd;
    KeywordsOfPrefix(p, s, k);
  }

  lemma {:induction false} SemicolonOfPrefix(p: string, s: string, i: nat, j: nat)
    requires p <= s && i <= |p| && j < |p|
    ensures Semicolon(p, i) == Some(j) <==> Semicolon(s, i) == Some(j)
    decreases |p| - i
  {
    if i < |p| && p[i] != ';' {
      SemicolonOfPrefix(p, s, i + 1, j);
    }
  }

  lemma {:induction false} DirectiveOfPrefix(word: Words, p: string, s: string, e: nat)
    requires p <= s && e <= |p|
    ensures DirectiveEnd(word, p) == Some(e) <==> DirectiveEnd(word, s) == Some(e)
  {
    hide SelectorEnd;
    match SelectorEnd(word, p) {
      case Some(k) =>
        if k < |p| {
          SelectorOfPrefix(word, p, s, k);
          if e > 0 {
            SemicolonOfPrefix(p, s, k, e - 1);
          }
        } else {
          match SelectorEnd(word, s) {
            case Some(m) => if m < |p| { SelectorOfPrefix(word, p, s, m); }
            case None =>
          }
        }
      case None =>
        match SelectorEnd(word, s) {
          case Some(m) => if m < |p| { SelectorOfPrefix(word, p, s, m); }
          case None =>
        }
    }
  }

  lemma {:induction false} LeadingOfPrefix(word: Words, p: string, s: string, k: nat)
    requires p <= s && Leading(word, p, k)
    ensures k <= |p| && Leading(word, s, k)
    decreases |p|
  {
    hide DirectiveEnd;
    if k > 0 {
      var e := DirectiveEnd(word, p).value;
      DirectiveOfPrefix(word, p, s, e);
      assert p[e..] <= s[e..];
      LeadingOfPrefix(word, p[e..], s[e..], k - e);
    }
  }

  lemma {:induction false} LeadingBound(word: Words, s: string, k: nat)
    requires Leading(word, s, k)
    ensures k <= |s| && (k > 0 ==> s[k - 1] == ';')
    decreases |s|
  {
    if k > 0 {
      LeadingBound(word, s[DirectiveEnd(word, s).value..], k - DirectiveEnd(word, s).value);
    }
  }

  lemma {:induction false} LeadingMore(word: Words, s: string, k: nat)
    requires Leading(word, s, k) && k <= |s|
    ensures match DirectiveEnd(word, s[k..])
            case None => Stripped(word, s) == s[k..]
            case Some(e) => Leading(word, s, k + e)
    decreases |s|
  {
    hide DirectiveEnd;
    if k == 0 {
      assert s[0..] == s;
      if DirectiveEnd(word, s).Some? {
        assert Leading(word, s[DirectiveEnd(word, s).value..], 0);
      }
    } else {
      var e := DirectiveEnd(word, s).value;
      LeadingMore(word, s[e..], k - e);
      assert s[e..][k - e..] == s[k..];
    }
  }

  /** The newline at its end changes nothing for a line. */
  lemma {:induction false} StrippedContent(word: Words, c: string)
    ensures Stripped(word, c + "\n") == Stripped(word, c) + "\n"
    decreases |c|
  {
    var l := c + "\n";
    if DirectiveEnd(word, l).Some? {
      var e := DirectiveEnd(word, l).value;
      LeadingBound(word, l, e);
      assert Leading(word, l[e..], 0);
      assert l[e - 1] == ';';
      DirectiveOfPrefix(word, c, l, e);
      assert l[e..] == c[e..] + "\n";
      StrippedContent(word, c[e..]);
    } else if DirectiveEnd(word, c).Some? {
      DirectiveOfPrefix(word, c, l, DirectiveEnd(word, c).value);
    }
  }

  // Lines and cuts.

  ghost predicate AreLines(lines: seq<string>) {
    (forall i | 0 <= i < |lines| :: IsLine(lines[i])) && forall i | 0 <= i < |lines| - 1 :: Ended(lines[i])
  }

  /** Only complete leading directives are cut off, and all of them when the line fits one read. */
  ghost predicate CutsLeading(word: Words, chunk: nat, lines: seq<string>, cuts: seq<nat>) {
    |lines| == |cuts|
    && forall i | 0 <= i < |lines| ::
         cuts[i] <= |lines[i]| && Leading(word, lines[i], cuts[i])
         && (|lines[i]| <= chunk ==> lines[i][cuts[i]..] == Stripped(word, lines[i]))
  }

  /** Each line loses some directives in front and nothing else, all of them when the line fits one read. */
  ghost predicate Cleans(word: Words, chunk: nat, lines: seq<string>, cuts: seq<nat>) {
    |lines| == |cuts|
    && forall i | 0 <= i < |lines| ::
         cuts[i] <= |lines[i]| && Directives(word, lines[i][..cuts[i]])
         && (|lines[i]| <= chunk ==> NoDirective(word, lines[i][cuts[i]..]))
  }

  lemma {:induction false} CutsClean(word: Words, chunk: nat, lines: seq<string>, cuts: seq<nat>)
    requires CutsLeading(word, chunk, lines, cuts)
    ensures Cleans(word, chunk, lines, cuts)
  {
    hide Directives, NoDirective, Leading, Stripped;
    forall i | 0 <= i < |lines|
      ensures cuts[i] <= |lines[i]| && Directives(word, lines[i][..cuts[i]])
      ensures |lines[i]| <= chunk ==> NoDirective(word, lines[i][cuts[i]..]) {
      LeadingIs(word, lines[i], cuts[i]);
      StrippedIs(word, lines[i]);
    }
  }

  lemma {:induction false} JoinMore(lines: seq<string>, l: string)
    ensures Join(lines + [l]) == Join(lines) + l
  {
    if lines == [] {
      assert (lines + [l])[1..] == [];
    } else {
      JoinMore(lines[1..], l);
      assert (lines + [l])[1..] == lines[1..] + [l];
    }
  }

  lemma {:induction false} CutMore(lines: seq<string>, cuts: seq<nat>, l: string, k: nat)
    requires |lines| == |cuts| && k <= |l| && forall i | 0 <= i < |lines| :: cuts[i] <= |lines[i]|
    ensures Cut(lines + [l], cuts + [k]) == Cut(lines, cuts) + l[k..]
  {
    if lines == [] {
      assert (lines + [l])[1..] == [] && (cuts + [k])[1..] == [];
    } else {
      CutMore(lines[1..], cuts[1..], l, k);
      assert (lines + [l])[1..] == lines[1..] + [l] && (cuts + [k])[1..] == cuts[1..] + [k];
    }
  }

  lemma {:induction false} FirstLine(l: string, rest: string)
    requires IsLine(l) && (Ended(l) || rest == "")
    ensures LineLength(l + rest) == |l|
    decreases |l|
  {
    var s := l + rest;
    var n := LineLength(s);
    forall i | 0 <= i < n - 1 ensures s[i] != '\n' {
      assert s[..n][..n - 1][i] == s[i];
    }
    forall i | 0 <= i < |l| - 1 ensures s[i] != '\n' {
      assert l[..|l| - 1][i] == s[i];
    }
    assert n < |s| ==> s[..n][n - 1] == s[n - 1];
    assert s[|l| - 1] == l[|l| - 1];
  }

  lemma {:induction false} LinesOfJoin(lines: seq<string>)
    requires AreLines(lines)
    ensures Lines(Join(lines)) == lines
  {
    if lines != [] {
      var rest := Join(lines[1..]);
      FirstLine(lines[0], rest);
      LinesOfJoin(lines[1..]);
      assert (lines[0] + rest)[..|lines[0]|] == lines[0] && (lines[0] + rest)[|lines[0]|..] == rest;
    }
  }

  /** A line cut as the line-at-a-time filter cuts it is the line that filter leaves, if anything is left. */
  lemma {:induction false} KeptLine(word: Words, l: string, k: nat)
    requires IsLine(l) && Leading(word, l, k) && k <= |l| && l[k..] == Stripped(word, l)
    ensures l[k..] != "" ==>
              IsLine(l[k..]) && (Ended(l[k..]) <==> Ended(l)) && Content(l[k..]) == Stripped(word, Content(l))
    ensures l[k..] == "" ==> !Ended(l) && Stripped(word, Content(l)) == ""
  {
    hide Stripped, Leading;
    LeadingBound(word, l, k);
    if Ended(l) {
      assert l == Content(l) + "\n";
      StrippedContent(word, Content(l));
    }
    if l[k..] != "" {
      assert l[k..][..|l| - k - 1] == l[..|l| - 1][k..];
    }
  }

  /** With every line cut as the line-at-a-time filter cuts it, the two leave the same lines that are not blank. */
  lemma {:induction false} SameNonBlankLines(word: Words, chunk: nat, lines: seq<string>, cuts: seq<nat>)
    requires AreLines(lines) && CutsLeading(word, chunk, lines, cuts)
    requires forall i | 0 <= i < |lines| :: |lines[i]| <= chunk
    ensures NonBlank(Lines(Cut(lines, cuts))) == StripContext(word, lines)
  {
    if lines != [] {
      hide Stripped, LineLength, Leading, IsLine, Ended, Content, Blank, LStrip;
      var l, k := lines[0], cuts[0];
      var kept, rest := l[k..], Cut(lines[1..], cuts[1..]);
      SameNonBlankLines(word, chunk, lines[1..], cuts[1..]);
      KeptLine(word, l, k);
      assert Ended(l) || lines[1..] == [];
      if kept != "" {
        FirstLine(kept, rest);
        assert (kept + rest)[..|kept|] == kept && (kept + rest)[|kept|..] == rest;
      } else {
        EmptyIsBlank();
      }
    }
  }

  lemma {:induction false} EmptyIsBlank()
    ensures Blank("")
  {
  }

  // The stream.

  /** Where `readline(left)` from `pos` stops: after a newline, or after `left` characters. */
  method ReadLine(text: string, pos: nat, size: nat) returns (fragment: string)
    requires pos <= |text| && size > 0
    ensures pos + |fragment| <= |text| && fragment == text[pos..pos + |fragment|] && |fragment| <= size
    ensures fragment == "" <==> pos == |text|
    ensures fragment != "" ==> IsLine(fragment) && (Ended(fragment) || |fragment| == size || pos + |fragment| == |text|)
  {
    var end := pos;
    while end < |text| && end - pos < size && (end == pos || text[end - 1] != '\n')
      invariant pos <= end <= |text| && end - pos <= size
      invariant forall i | pos <= i < end - 1 :: text[i] != '\n'
    {
      end := end + 1;
    }
    fragment := text[pos..end];
    forall i | 0 <= i < |fragment| - 1 ensures fragment[i] != '\n' {
      assert fragment[i] == text[pos + i];
    }
    assert fragment != "" ==> fragment[|fragment| - 1] == text[end - 1];
  }

  /** `_stream_clean_mysql_dump` for any size of read: what it writes is every line of the dump without some of
      its complete leading directives, without all of them if the line fits one read; what it holds back
      stays below two reads; and then it leaves what the line-at-a-time filter leaves. */
  method StreamClean(word: Words, text: string, chunk: nat) returns (cleaned: string, held: nat, ghost cuts: seq<nat>)
    requires chunk > 0
    ensures CutsLeading(word, chunk, Lines(text), cuts) && cleaned == Cut(Lines(text), cuts)
    ensures Join(Lines(text)) == text && AreLines(Lines(text)) && Cleans(word, chunk, Lines(text), cuts)
    ensures held < 2 * chunk
    ensures (forall l | l in Lines(text) :: |l| <= chunk) ==>
              NonBlank(Lines(cleaned)) == StripContext(word, Lines(text))
  {
    hide DirectiveEnd, SelectorEnd, Midway, LineLength, Lines, Stripped, Leading, CutsLeading, Cleans;
    ghost var lines: seq<string>, p: string, k: nat := [], "", 0;
    var pos, prefix, passthrough := 0, "", false;
    cleaned, held, cuts := "", 0, [];
    Beginning(word, chunk, |text| > 0);
    while true
      invariant pos <= |text|
      invariant Midway(word, chunk, text[..pos], pos < |text|, lines, cuts, p, k, prefix, passthrough, cleaned)
      invariant held < 2 * chunk
      decreases |text| - pos
    {
      var fragment := ReadLine(text, pos, chunk);
      if fragment == "" {
        assert text[..pos] == text;
        Finished(word, chunk, text, lines, cuts, p, k, prefix, passthrough, cleaned);
        if prefix != "" {
          cleaned := cleaned + prefix;
        }
        if p != "" {
          lines, cuts := lines + [p], cuts + [k];
        }
        CutsClean(word, chunk, lines, cuts);
        if forall l | l in Lines(text) :: |l| <= chunk {
          SameNonBlankLines(word, chunk, lines, cuts);
        }
        return;
      }
      Extended(word, chunk, text, pos, fragment, lines, cuts, p, k, prefix, passthrough, cleaned);
      pos, p := pos + |fragment|, p + fragment;
      var longest;
      prefix, passthrough, cleaned, longest, lines, cuts, p, k :=
        Turn(word, chunk, text, pos, fragment, lines, cuts, p, k, prefix, passthrough, cleaned);
      held := if held < longest then longest else held;
    }
  }

  /** What one fragment does, once it is read: `p` is the line begun, with it. */
  method Turn(word: Words, chunk: nat, ghost text: string, ghost pos: nat, fragment: string, ghost lines: seq<string>,
              ghost cuts: seq<nat>, ghost p: string, ghost k: nat, prefix: string, passthrough: bool, cleaned: string)
    returns (rest: string, through: bool, out: string, held: nat,
             ghost lines': seq<string>, ghost cuts': seq<nat>, ghost p': string, ghost k': nat)
    requires 0 < chunk && pos <= |text| && 0 < |fragment| <= chunk
    requires Opened(word, chunk, text[..pos], lines, cuts, p, k)
    requires (Ended(p) <==> Ended(fragment)) && (!Ended(p) ==> |fragment| == chunk || pos == |text|)
    requires |fragment| <= |p|
    requires if passthrough then cleaned + fragment == Cut(lines, cuts) + p[k..] && |p| > chunk && prefix == ""
             else cleaned == Cut(lines, cuts) && prefix + fragment == p[k..] && |prefix| < chunk
    ensures Midway(word, chunk, text[..pos], pos < |text|, lines', cuts', p', k', rest, through, out)
    ensures held < 2 * chunk
  {
    hide DirectiveEnd, SelectorEnd, Midway, Stripped, Leading, CutsLeading, Opened, IsLine;
    rest, through, out, held, k' := "", passthrough, cleaned + fragment, 0, k;
    if !passthrough {
      rest := prefix + fragment;
      held := |rest|;
      OpenedFacts(word, chunk, text[..pos], lines, cuts, p, k);
      rest, k' := TakeDirectives(word, p, k, rest);
      OpenedAt(word, chunk, text[..pos], lines, cuts, p, k, k');
      var incomplete := SelectorEnd(word, rest).Some? && ';' !in rest;
      if incomplete && !Ended(fragment) && |rest| < chunk {
        Kept(word, chunk, text, pos, lines, cuts, p, k', rest, false, cleaned);
        out, lines', cuts', p' := cleaned, lines, cuts, p;
        return;
      }
      out := cleaned + rest;
      rest := "";
      through := true;
    }
    if Ended(fragment) {
      LineDone(word, chunk, text, pos, lines, cuts, p, k', out);
      through, lines', cuts', p', k' := false, lines + [p], cuts + [k'], "", 0;
    } else {
      Kept(word, chunk, text, pos, lines, cuts, p, k', rest, through, out);
      lines', cuts', p' := lines, cuts, p;
    }
  }

  /** The inner loop: cut off the complete directives in front. */
  method TakeDirectives(word: Words, ghost p: string, ghost k: nat, prefix: string)
    returns (rest: string, ghost k': nat)
    requires k <= |p| && Leading(word, p, k) && prefix == p[k..]
    ensures k <= k' <= |p| && Leading(word, p, k') && rest == p[k'..] && DirectiveEnd(word, rest).None?
  {
    hide DirectiveEnd, Leading, Stripped;
    rest, k' := prefix, k;
    while DirectiveEnd(word, rest).Some?
      invariant k <= k' <= |p| && Leading(word, p, k') && rest == p[k'..]
      decreases |rest|
    {
      var e := DirectiveEnd(word, rest).value;
      LeadingMore(word, p, k');
      rest, k' := rest[e..], k' + e;
    }
  }

  /** What was read is whole lines, cut, and then `p`, not yet done with. */
  ghost predicate Opened(word: Words, chunk: nat, read: string, lines: seq<string>, cuts: seq<nat>, p: string, k: nat) {
    read == Join(lines) + p && IsLine(p) && k <= |p| && Leading(word, p, k) && CutsLeading(word, chunk, lines, cuts)
    && forall i | 0 <= i < |lines| :: IsLine(lines[i]) && Ended(lines[i])
  }

  lemma {:induction false} OpenedFacts(word: Words, chunk: nat, read: string, lines: seq<string>, cuts: seq<nat>,
                                       p: string, k: nat)
    requires Opened(word, chunk, read, lines, cuts, p, k)
    ensures k <= |p| && Leading(word, p, k)
  {
  }

  lemma {:induction false} OpenedAt(word: Words, chunk: nat, read: string, lines: seq<string>, cuts: seq<nat>,
                                    p: string, k: nat, k': nat)
    requires Opened(word, chunk, read, lines, cuts, p, k) && k' <= |p| && Leading(word, p, k')
    ensures Opened(word, chunk, read, lines, cuts, p, k')
  {
  }

  /** Between two reads: `lines` are done with and `p` is the line begun, `k` characters of it being directives.
      Its rest is either held back in `prefix` or already written. */
  ghost predicate Midway(word: Words, chunk: nat, read: string, more: bool, lines: seq<string>, cuts: seq<nat>,
                         p: string, k: nat, prefix: string, passthrough: bool, cleaned: string) {
    Lined(read, lines, p) && CutsLeading(word, chunk, lines, cuts) && k <= |p| && Leading(word, p, k)
    && (more && p != "" ==> |p| >= chunk)
    && (if passthrough then
          p != "" && cleaned == Cut(lines, cuts) + p[k..] && prefix == ""
          && (|p| <= chunk ==> DirectiveEnd(word, p[k..]).None?)
        else
          cleaned == Cut(lines, cuts) && prefix == p[k..] && |prefix| < chunk && DirectiveEnd(word, prefix).None?)
  }

  /** What was read is whole lines and the begin of one. */
  ghost predicate Lined(read: string, lines: seq<string>, p: string) {
    read == Join(lines) + p && '\n' !in p && forall i | 0 <= i < |lines| :: IsLine(lines[i]) && Ended(lines[i])
  }

  lemma {:induction false} Beginning(word: Words, chunk: nat, more: bool)
    requires chunk > 0
    ensures Midway(word, chunk, "", more, [], [], "", 0, "", false, "")
  {
    hide DirectiveEnd;
  }

  /** Reading on keeps the directives found. */
  lemma {:induction false} Extended(word: Words, chunk: nat, text: string, pos: nat, fragment: string,
                                    lines: seq<string>, cuts: seq<nat>, p: string, k: nat, prefix: string,
                                    passthrough: bool, cleaned: string)
    requires pos < |text| && Midway(word, chunk, text[..pos], true, lines, cuts, p, k, prefix, passthrough, cleaned)
    requires fragment != "" && IsLine(fragment) && pos + |fragment| <= |text| && fragment == text[pos..pos + |fragment|]
    ensures var q := p + fragment;
            Opened(word, chunk, text[..pos + |fragment|], lines, cuts, q, k) && (Ended(q) <==> Ended(fragment))
            && k <= |q|
            && (if passthrough then cleaned + fragment == Cut(lines, cuts) + q[k..] && |q| > chunk && prefix == ""
                else cleaned == Cut(lines, cuts) && prefix + fragment == q[k..] && |prefix| < chunk)
  {
    hide DirectiveEnd, Leading, Stripped, Join, Cut, CutsLeading, IsLine, Ended;
    LeadingOfPrefix(word, p, p + fragment, k);
    ReadOn(text, pos, fragment, Join(lines), p);
    LineGrows(p, fragment);
    CutsFit(word, chunk, lines, cuts);
    CutOn(Cut(lines, cuts), p, fragment, k);
  }

  lemma {:induction false} CutsFit(word: Words, chunk: nat, lines: seq<string>, cuts: seq<nat>)
    requires CutsLeading(word, chunk, lines, cuts)
    ensures |lines| == |cuts| && forall i | 0 <= i < |lines| :: cuts[i] <= |lines[i]|
  {
    hide Leading, Stripped;
  }

  lemma {:induction false} CutOn(cleaned: string, p: string, fragment: string, k: nat)
    requires k <= |p|
    ensures (p + fragment)[k..] == p[k..] + fragment
    ensures (cleaned + p[k..]) + fragment == cleaned + (p[k..] + fragment)
  {
  }

  lemma {:induction false} ReadOn(text: string, pos: nat, fragment: string, joined: string, p: string)
    requires pos + |fragment| <= |text| && fragment == text[pos..pos + |fragment|] && text[..pos] == joined + p
    ensures text[..pos + |fragment|] == joined + (p + fragment)
  {
    assert text[..pos + |fragment|] == text[..pos] + fragment;
  }

  lemma {:induction false} LineGrows(p: string, fragment: string)
    requires '\n' !in p && IsLine(fragment)
    ensures IsLine(p + fragment) && (Ended(p + fragment) <==> Ended(fragment))
  {
    var q := p + fragment;
    assert q[..|q| - 1] == p + fragment[..|fragment| - 1];
  }

  lemma {:induction false} Kept(word: Words, chunk: nat, text: string, pos: nat, lines: seq<string>, cuts: seq<nat>,
                                p: string, k: nat, prefix: string, passthrough: bool, cleaned: string)
    requires pos <= |text| && Opened(word, chunk, text[..pos], lines, cuts, p, k) && !Ended(p)
    requires pos == |text| || |p| >= chunk
    requires passthrough ==>
              cleaned == Cut(lines, cuts) + p[k..] && prefix == "" && (|p| > chunk || DirectiveEnd(word, p[k..]).None?)
    requires !passthrough ==>
              cleaned == Cut(lines, cuts) && prefix == p[k..] && |prefix| < chunk && DirectiveEnd(word, prefix).None?
    ensures Midway(word, chunk, text[..pos], pos < |text|, lines, cuts, p, k, prefix, passthrough, cleaned)
  {
    hide DirectiveEnd, Leading, Stripped;
    assert p == p[..|p| - 1] + [p[|p| - 1]];
  }

  lemma {:induction false} CutsWith(word: Words, chunk: nat, lines: seq<string>, cuts: seq<nat>, p: string, k: nat)
    requires CutsLeading(word, chunk, lines, cuts) && k <= |p| && Leading(word, p, k)
    requires |p| > chunk || DirectiveEnd(word, p[k..]).None?
    ensures CutsLeading(word, chunk, lines + [p], cuts + [k])
    ensures Cut(lines + [p], cuts + [k]) == Cut(lines, cuts) + p[k..] && Join(lines + [p]) == Join(lines) + p
  {
    hide DirectiveEnd, Leading, Stripped;
    LeadingMore(word, p, k);
    CutMore(lines, cuts, p, k);
    JoinMore(lines, p);
  }

  lemma {:induction false} LineDone(word: Words, chunk: nat, text: string, pos: nat, lines: seq<string>, cuts: seq<nat>,
                                    p: string, k: nat, cleaned: string)
    requires chunk > 0 && pos <= |text| && Opened(word, chunk, text[..pos], lines, cuts, p, k) && Ended(p)
    requires cleaned == Cut(lines, cuts) + p[k..]
    requires |p| > chunk || DirectiveEnd(word, p[k..]).None?
    ensures Midway(word, chunk, text[..pos], pos < |text|, lines + [p], cuts + [k], "", 0, "", false, cleaned)
  {
    hide DirectiveEnd, Stripped;
    CutsWith(word, chunk, lines, cuts, p, k);
  }

  /** At the end of the dump a line begun is a line. */
  lemma {:induction false} Finished(word: Words, chunk: nat, text: string, lines: seq<string>, cuts: seq<nat>,
                                    p: string, k: nat, prefix: string, passthrough: bool, cleaned: string)
    requires Midway(word, chunk, text, false, lines, cuts, p, k, prefix, passthrough, cleaned)
    ensures var all := if p == "" then lines else lines + [p];
            var every := if p == "" then cuts else cuts + [k];
            Lines(text) == all && Join(all) == text && AreLines(all) && CutsLeading(word, chunk, all, every)
            && cleaned + prefix == Cut(all, every)
  {
    hide DirectiveEnd, Leading, Stripped, Lines;
    if p != "" {
      CutsWith(word, chunk, lines, cuts, p, k);
      assert IsLine(p);
      LinesOfJoin(lines + [p]);
    } else {
      assert Join(lines) + p == Join(lines) && cleaned + prefix == cleaned;
      LinesOfJoin(lines);
    }
  }
}
