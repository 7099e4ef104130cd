/** What a value says, and what a Cloudflare record has to store to hold it, field by field
    (daemon/cloudflare.py:266-370): the two directions of the translation meet exactly there. */
module CloudflareMeaning {
  import opened Text
  import opened CloudflareValues

  datatype Meant = Host(name: string) | Line(text: string) | Mail(priority: int, host: string)
                 | Service(priority: int, weight: int, port: int, host: string)
                 | Authority(flags: int, tag: string, text: string) | Plain(text: string)

  ghost predicate NoDot(h: string) { h == "" || h[|h| - 1] != '.' }

  /** `v` is the host and nothing but dots behind it. */
  ghost predicate DotsAfter(v: string, h: string) {
    NoDot(h) && |h| <= |v| && v[..|h|] == h && forall i | |h| <= i < |v| :: v[i] == '.'
  }

  ghost predicate Blank(s: string) { forall i | 0 <= i < |s| :: IsSpace(s[i]) }

  /** `v` is a text in double quotes, whitespace around it. */
  ghost predicate Framed(v: string, before: string, inner: string, after: string) {
    Blank(before) && Blank(after) && v == before + ("\"" + inner + "\"") + after
  }

  /** One layer of quotes and escapes off `v`, if it has one, leaves `s`. */
  ghost predicate Unquotes(v: string, s: string) {
    (exists before, inner, after :: Framed(v, before, inner, after) && Unescape(inner) == s)
    || (s == v && forall before, inner, after :: !Framed(v, before, inner, after))
  }

  /** The fields a record of the type has. */
  ghost predicate Fits(t: RType, x: Meant) {
    match t
    case CNAME | NS | PTR => x.Host? && NoDot(x.name)
    case TXT => x.Line?
    case MX => x.Mail? && x.priority >= 0 && NoSpace(x.host) && NoDot(x.host)
    case SRV => x.Service? && NoSpace(x.host) && NoDot(x.host)
    case CAA => x.Authority? && x.tag != "" && NoSpace(x.tag)
    case _ => x.Plain?
  }

  /** How the panel writes it. */
  function Spelled(x: Meant): string {
    match x
    case Host(h) => h + "."
    case Line(s) => "\"" + Escape(s) + "\""
    case Mail(p, h) => IntText(p) + " " + (h + ".")
    case Service(p, w, n, h) => IntText(p) + " " + (IntText(w) + " " + (IntText(n) + " " + (h + ".")))
    case Authority(f, tag, s) => IntText(f) + " " + (tag + " " + ("\"" + Escape(s) + "\""))
    case Plain(s) => s
  }

  /** What a value of the type says, however it is spaced, dotted and quoted. */
  ghost predicate Says(t: RType, v: string, x: Meant) {
    match t
    case CNAME | NS | PTR => x.Host? && DotsAfter(v, x.name)
    case TXT => x.Line? && exists once :: Unquotes(v, once) && Unquotes(once, x.text)
    case MX =>
      x.Mail? && |Fields(v)| == 2 && AllDigits(Fields(v)[0]) && ParseInt(Fields(v)[0]) == Some(x.priority)
      && DotsAfter(Fields(v)[1], x.host)
    case SRV =>
      x.Service? && |Fields(v)| == 4 && ParseInt(Fields(v)[0]) == Some(x.priority)
      && ParseInt(Fields(v)[1]) == Some(x.weight) && ParseInt(Fields(v)[2]) == Some(x.port)
      && DotsAfter(Fields(v)[3], x.host)
    case CAA =>
      x.Authority? && |SplitN(v, 2)| == 3 && ParseInt(SplitN(v, 2)[0]) == Some(x.flags) && SplitN(v, 2)[1] == x.tag
      && Unquotes(SplitN(v, 2)[2], x.text)
    case _ => x == Plain(v)
  }

  /** The record holds it, field by field. An SRV or CAA record without a data object holds it as its text. */
  ghost predicate Stores(t: RType, b: Body, x: Meant) {
    match t
    case CNAME | NS | PTR => x.Host? && DotsAfter(b.content, x.name)
    case TXT => x.Line? && Unquotes(b.content, x.text)
    case MX => x.Mail? && b.priority == x.priority && DotsAfter(b.content, x.host)
    case SRV =>
      x.Service?
      && (match b.data
          case NoData => b.content == Spelled(x)
          case SrvData(p, w, n, target) =>
            p == x.priority && w == x.weight && n == x.port && DotsAfter(target, x.host)
          case CaaData(_, _, _) => x == Service(0, 0, 0, ""))
    case CAA =>
      x.Authority?
      && (match b.data
          case NoData => b.content == Spelled(x)
          case CaaData(f, tag, s) => x == Authority(f, tag, s)
          case SrvData(_, _, _, _) => x == Authority(0, "", ""))
    case _ => x == Plain(b.content)
  }

  // ----- dots and quotes -----

  lemma {:induction false} DotsStripped(v: string, h: string)
    ensures DotsAfter(v, h) <==> RStripDots(v) == h
    decreases |v|
  {
    RStripDotsPrefix(v);
    if v != "" && v[|v| - 1] == '.' {
      var front := v[..|v| - 1];
      DotsStripped(front, h);
      assert |h| <= |front| ==> front[..|h|] == v[..|h|];
      assert DotsAfter(v, h) ==> |h| < |v|;
    } else {
      assert DotsAfter(v, h) ==> |h| == |v|;
      assert v[..|v|] == v;
    }
  }

  lemma {:induction false} LStripSplits(s: string) returns (before: string)
    ensures Blank(before) && s == before + LStrip(s)
  {
    if s != "" && IsSpace(s[0]) {
      var rest := LStripSplits(s[1..]);
      before := [s[0]] + rest;
    } else {
      before := "";
    }
  }

  lemma {:induction false} RStripSplits(s: string) returns (after: string)
    ensures Blank(after) && s == RStrip(s) + after
  {
    if s != "" && IsSpace(s[|s| - 1]) {
      var rest := RStripSplits(s[..|s| - 1]);
      after := rest + [s[|s| - 1]];
    } else {
      after := "";
    }
  }

  lemma {:induction false} LStripOff(before: string, s: string)
    requires Blank(before) && (s == "" || !IsSpace(s[0]))
    ensures LStrip(before + s) == s
  {
    if before == "" {
      assert before + s == s;
    } else {
      assert (before + s)[1..] == before[1..] + s;
      LStripOff(before[1..], s);
    }
  }

  lemma {:induction false} RStripOff(s: string, after: string)
    requires Blank(after) && (s == "" || !IsSpace(s[|s| - 1]))
    ensures RStrip(s + after) == s
  {
    if after == "" {
      assert s + after == s;
    } else {
      assert (s + after)[..|s + after| - 1] == s + after[..|after| - 1];
      RStripOff(s, after[..|after| - 1]);
    }
  }

  lemma {:induction false} FramedStrips(v: string, before: string, inner: string, after: string)
    requires Framed(v, before, inner, after)
    ensures Strip(v) == "\"" + inner + "\"" && Wrapped(v) && UnquoteTxt(v) == Unescape(inner)
  {
    var t := "\"" + inner + "\"";
    assert v == before + (t + after);
    LStripOff(before, t + after);
    RStripOff(t, after);
    assert t[1..|t| - 1] == inner;
  }

  lemma {:induction false} WrappedFrames(v: string) returns (before: string, inner: string, after: string)
    requires Wrapped(v)
    ensures Framed(v, before, inner, after)
  {
    hide LStrip, RStrip, IsSpace, Blank;
    var t := Strip(v);
    before := LStripSplits(v);
    after := RStripSplits(LStrip(v));
    inner := t[1..|t| - 1];
    assert t == "\"" + inner + "\"";
  }

  /** Taking a layer of quotes off is what `UnquoteTxt` does. */
  lemma {:induction false} UnquotesExactly(v: string, s: string)
    ensures Unquotes(v, s) <==> UnquoteTxt(v) == s
  {
    hide Unescape, Strip;
    if Wrapped(v) {
      var before, inner, after := WrappedFrames(v);
      FramedStrips(v, before, inner, after);
      forall b, i, a | Framed(v, b, i, a) ensures Unescape(i) == UnquoteTxt(v) {
        FramedStrips(v, b, i, a);
      }
    } else {
      forall b, i, a ensures !Framed(v, b, i, a) {
        if Framed(v, b, i, a) {
          FramedStrips(v, b, i, a);
        }
      }
    }
  }

  // ----- words -----

  lemma {:induction false} SameWord(a: string, b: string, c: string, d: string)
    requires NoSpace(a) && NoSpace(c) && a + " " + b == c + " " + d
    ensures a == c && b == d
  {
    var s := a + " " + b;
    assert s[|a|] == ' ' && s[|c|] == ' ';
    assert forall i | 0 <= i < |a| :: s[i] == a[i] != ' ';
    assert forall i | 0 <= i < |c| :: s[i] == c[i] != ' ';
    assert a == s[..|a|] && c == s[..|c|] && b == s[|a| + 1..] && d == s[|c| + 1..];
  }

  lemma {:induction false} SameInt(p: int, b: string, q: int, d: string)
    requires IntText(p) + " " + b == IntText(q) + " " + d
    ensures p == q && b == d
  {
    SameWord(IntText(p), b, IntText(q), d);
    IntRoundTrip(p);
    IntRoundTrip(q);
  }

  lemma {:induction false} SameDotted(a: string, b: string)
    requires a + "." == b + "."
    ensures a == b
  {
    assert a == (a + ".")[..|a|] && b == (b + ".")[..|b|];
  }

  lemma {:induction false} EscapeCons(s: string)
    requires s != ""
    ensures Escape(s) == (if s[0] == '\\' then "\\\\" else if s[0] == '"' then "\\\"" else [s[0]]) + Escape(s[1..])
  {
    var head := if s[0] == '\\' then "\\\\" else [s[0]];
    ReplaceCharConcat(head, ReplaceChar(s[1..], '\\', "\\\\"), '"', "\\\"");
    if s[0] == '\\' {
      assert head[1..] == "\\";
      assert ReplaceChar("\\", '"', "\\\"") == "\\";
      assert ReplaceChar(head, '"', "\\\"") == "\\\\";
    } else if s[0] == '"' {
      assert ReplaceChar(head, '"', "\\\"") == "\\\"";
    } else {
      assert ReplaceChar(head, '"', "\\\"") == head;
    }
  }

  /** In an escaped text a double quote always has a backslash before it. */
  lemma {:induction false} QuotesEscaped(s: string, i: nat)
    requires i < |Escape(s)| && Escape(s)[i] == '"'
    ensures i > 0 && Escape(s)[i - 1] == '\\'
    decreases |s|
  {
    if s == "" {
      assert false;
    } else {
      EscapeCons(s);
      var n := |Escape(s)| - |Escape(s[1..])|;
      if i >= n {
        assert Escape(s)[i] == Escape(s[1..])[i - n];
        QuotesEscaped(s[1..], i - n);
      }
    }
  }

  lemma {:induction false} QuotedInside(s: string, i: nat)
    requires 0 < i < |QuoteTxt(s)| - 1 && QuoteTxt(s)[i] == '"'
    ensures QuoteTxt(s)[i - 1] == '\\'
  {
    assert Escape(s)[i - 1] == QuoteTxt(s)[i];
    QuotesEscaped(s, i - 1);
    assert Escape(s)[i - 2] == QuoteTxt(s)[i - 1];
  }

  lemma {:induction false} SameQuoted(more: string, v: string, s: string)
    ensures QuoteTxt(s) != more + " " + QuoteTxt(v)
  {
    hide Escape;
    if QuoteTxt(s) == more + " " + QuoteTxt(v) {
      var q, i := QuoteTxt(s), |more| + 1;
      assert q[i] == QuoteTxt(v)[0] && q[i - 1] == ' ';
      QuotedInside(s, i);
      assert false;
    }
  }

  /** A tag and a quoted text are told apart, whatever the first tag holds. */
  lemma {:induction false} SameTag(a: string, v: string, tag: string, s: string)
    requires a + " " + QuoteTxt(v) == tag + " " + QuoteTxt(s) && NoSpace(tag)
    ensures a == tag && v == s
  {
    hide QuoteTxt, IsSpace;
    var whole := a + " " + QuoteTxt(v);
    assert ' ' == whole[|a|] == whole[|tag|];
    if |a| < |tag| {
      assert tag[|a|] == whole[|a|];
      NoSpaceIn(tag, |a|);
    } else if |a| > |tag| {
      var more := a[|tag| + 1..];
      assert whole[|tag| + 1..] == more + " " + QuoteTxt(v);
      assert whole[|tag| + 1..] == QuoteTxt(s);
      SameQuoted(more, v, s);
    } else {
      assert a == whole[..|a|] == tag;
      assert QuoteTxt(v) == whole[|a| + 1..] == QuoteTxt(s);
      QuoteInjective(v, s);
    }
  }

  lemma {:induction false} NoSpaceIn(s: string, i: nat)
    requires NoSpace(s) && i < |s|
    ensures s[i] != ' '
  {
  }

  // ----- the two directions -----

  /** A stored record reads as the panel's text exactly when its fields hold what the text says. */
  lemma {:induction false} ReadsExactly(t: RType, b: Body, x: Meant)
    requires Fits(t, x)
    ensures FromBody(t, b) == Spelled(x) <==> Stores(t, b, x)
  {
    hide Unquotes, DotsAfter, Escape, IntText, RStripDots, Unescape, UnquoteTxt;
    match t
    case CNAME => HostReads(b.content, x.name);
    case NS => HostReads(b.content, x.name);
    case PTR => HostReads(b.content, x.name);
    case TXT =>
      QuoteInjective(UnquoteTxt(b.content), x.text);
      UnquotesExactly(b.content, x.text);
    case MX => MailReads(b.priority, b.content, x);
    case SRV => ServiceReads(b, x);
    case CAA => AuthorityReads(b, x);
    case _ =>
  }

  lemma {:induction false} HostReads(content: string, h: string)
    ensures RStripDots(content) + "." == h + "." <==> DotsAfter(content, h)
  {
    hide DotsAfter, RStripDots;
    DotsStripped(content, h);
    if RStripDots(content) + "." == h + "." {
      SameDotted(RStripDots(content), h);
    }
  }

  lemma {:induction false} MailReads(p: int, content: string, x: Meant)
    requires x.Mail?
    ensures MxText(p, content) == Spelled(x) <==> p == x.priority && DotsAfter(content, x.host)
  {
    hide DotsAfter, RStripDots, IntText;
    HostReads(content, x.host);
    if MxText(p, content) == Spelled(x) {
      SameInt(p, RStripDots(content) + ".", x.priority, x.host + ".");
    }
  }

  lemma {:induction false} ServiceText(p: int, w: int, n: int, target: string, x: Meant)
    requires x.Service?
    ensures SrvText(p, w, n, target) == Spelled(x)
            <==> p == x.priority && w == x.weight && n == x.port && DotsAfter(target, x.host)
  {
    hide DotsAfter, RStripDots, IntText;
    HostReads(target, x.host);
    if SrvText(p, w, n, target) == Spelled(x) {
      var end, end' := RStripDots(target) + ".", x.host + ".";
      SameInt(p, IntText(w) + " " + (IntText(n) + " " + end),
              x.priority, IntText(x.weight) + " " + (IntText(x.port) + " " + end'));
      SameInt(w, IntText(n) + " " + end, x.weight, IntText(x.port) + " " + end');
      SameInt(n, end, x.port, end');
    }
  }

  lemma {:induction false} ServiceReads(b: Body, x: Meant)
    requires Fits(SRV, x)
    ensures FromBody(SRV, b) == Spelled(x) <==> Stores(SRV, b, x)
  {
    hide DotsAfter, RStripDots, IntText, SrvText, Spelled;
    match b.data
    case NoData =>
    case SrvData(p, w, n, target) => ServiceText(p, w, n, target, x);
    case CaaData(_, _, _) =>
      ServiceText(0, 0, 0, "", x);
      OnlyEmpty(x.host);
  }

  lemma {:induction false} OnlyEmpty(h: string)
    ensures DotsAfter("", h) <==> h == ""
  {
  }

  lemma {:induction false} AuthorityText(f: int, tag: string, s: string, x: Meant)
    requires x.Authority? && NoSpace(x.tag)
    ensures CaaText(f, tag, s) == Spelled(x) <==> x == Authority(f, tag, s)
  {
    hide IntText, Escape;
    assert Spelled(x) == CaaText(x.flags, x.tag, x.text);
    if CaaText(f, tag, s) == Spelled(x) {
      SameInt(f, tag + " " + QuoteTxt(s), x.flags, x.tag + " " + QuoteTxt(x.text));
      SameTag(tag, s, x.tag, x.text);
    }
  }

  lemma {:induction false} AuthorityReads(b: Body, x: Meant)
    requires Fits(CAA, x)
    ensures FromBody(CAA, b) == Spelled(x) <==> Stores(CAA, b, x)
  {
    hide IntText, CaaText, Spelled;
    match b.data
    case NoData =>
    case CaaData(f, tag, s) => AuthorityText(f, tag, s, x);
    case SrvData(_, _, _, _) => AuthorityText(0, "", "", x);
  }

  lemma {:induction false} StrippedTwice(v: string, h: string)
    ensures DotsAfter(RStripDots(v), h) <==> DotsAfter(v, h)
  {
    hide DotsAfter;
    RStripDotsIdempotent(v);
    DotsStripped(v, h);
    DotsStripped(RStripDots(v), h);
  }

  /** A value says only what a record of the type can hold. */
  lemma {:induction false} SaidFits(t: RType, v: string, x: Meant)
    requires Says(t, v, x)
    ensures Fits(t, x) && ToWire(t, v).Some?
  {
    hide Unquotes, UnquoteTxt;
    match t
    case MX =>
      FieldsAreWords(v);
      AllDigitsParse(Fields(v)[0]);
    case SRV => FieldsAreWords(v);
    case CAA => SplitNSecond(v);
    case _ =>
  }

  /** The record created for an accepted value holds exactly what the value says. */
  lemma {:induction false} CreatedHolds(t: RType, v: string, x: Meant)
    requires ToWire(t, v).Some?
    ensures Stores(t, NewBody(ToWire(t, v).value), x) <==> Says(t, v, x)
  {
    hide Unquotes, UnquoteTxt, DotsAfter, RStripDots, Fields, SplitN, ParseInt, AllDigits;
    match t
    case CNAME => if x.Host? { StrippedTwice(v, x.name); }
    case NS => if x.Host? { StrippedTwice(v, x.name); }
    case PTR => if x.Host? { StrippedTwice(v, x.name); }
    case TXT =>
      forall once ensures Unquotes(v, once) <==> UnquoteTxt(v) == once {
        UnquotesExactly(v, once);
      }
    case MX => if x.Mail? { StrippedTwice(Fields(v)[1], x.host); }
    case SRV => if x.Service? { StrippedTwice(Fields(v)[3], x.host); }
    case CAA => if x.Authority? { UnquotesExactly(SplitN(v, 2)[2], x.text); }
    case _ =>
  }

  /** What a value says decides its canonical form, which is the panel's way of writing it; values are refused exactly
      when they say nothing. */
  lemma {:induction false} SaysExactly(t: RType, v: string, x: Meant)
    ensures Says(t, v, x) <==> Fits(t, x) && Canonical(t, v) == Some(Spelled(x))
  {
    hide Says, Fits, Spelled, ToWire, FromBody, Stores;
    if ToWire(t, v).Some? {
      CreatedHolds(t, v, x);
      if Fits(t, x) {
        ReadsExactly(t, NewBody(ToWire(t, v).value), x);
      }
    }
    if Says(t, v, x) {
      SaidFits(t, v, x);
    }
  }

  lemma {:induction false} Understood(t: RType, v: string) returns (x: Meant)
    requires ToWire(t, v).Some?
    ensures Says(t, v, x)
  {
    hide Unquotes, DotsAfter, RStripDots, Fields, SplitN, ParseInt, AllDigits, UnquoteTxt;
    var b := NewBody(ToWire(t, v).value);
    match t {
      case CNAME => x := Host(RStripDots(v)); DotsStripped(v, x.name);
      case NS => x := Host(RStripDots(v)); DotsStripped(v, x.name);
      case PTR => x := Host(RStripDots(v)); DotsStripped(v, x.name);
      case TXT =>
        x := Line(UnquoteTxt(UnquoteTxt(v)));
        UnquotesExactly(v, UnquoteTxt(v));
        UnquotesExactly(UnquoteTxt(v), x.text);
      case MX => x := Mail(b.priority, b.content); DotsStripped(Fields(v)[1], x.host);
      case SRV =>
        x := Service(b.data.priority, b.data.weight, b.data.port, b.data.target);
        DotsStripped(Fields(v)[3], x.host);
      case CAA =>
        x := Authority(b.data.flags, b.data.tag, b.data.value);
        UnquotesExactly(SplitN(v, 2)[2], x.text);
      case _ => x := Plain(v);
    }
  }

  /** What the panel writes says what it was written for; a TXT text only if it is not itself in quotes. */
  lemma {:induction false} SpelledSays(t: RType, x: Meant)
    requires Fits(t, x)
    ensures Says(t, Spelled(x), x) <==> t != TXT || forall before, inner, after :: !Framed(x.text, before, inner, after)
  {
    hide Unquotes, Framed, Escape, IntText, Fields, SplitN, ParseInt, AllDigits, UnquoteTxt, RStripDots;
    match t
    case TXT => LineSays(x.text);
    case MX =>
      MxReparses(x.priority, x.host);
      SpelledHost(x.host);
      FieldsOfTwo(IntText(x.priority), x.host + ".");
      IntRoundTrip(x.priority);
      NatTextIsIntText(x.priority);
    case SRV =>
      SpelledHost(x.host);
      FieldsOfFour(IntText(x.priority), IntText(x.weight), IntText(x.port), x.host + ".");
      IntRoundTrip(x.priority);
      IntRoundTrip(x.weight);
      IntRoundTrip(x.port);
    case CAA =>
      QuoteIsWrapped(x.text);
      SplitNOfThree(IntText(x.flags), x.tag, QuoteTxt(x.text));
      IntRoundTrip(x.flags);
      UnquoteQuote(x.text);
      UnquotesExactly(QuoteTxt(x.text), x.text);
    case _ =>
  }

  lemma {:induction false} SpelledHost(h: string)
    requires NoSpace(h)
    ensures h + "." != "" && NoSpace(h + ".")
  {
  }

  lemma {:induction false} LineSays(s: string)
    ensures Says(TXT, Spelled(Line(s)), Line(s)) <==> forall before, inner, after :: !Framed(s, before, inner, after)
  {
    hide Framed, Escape, UnquoteTxt;
    UnquoteQuote(s);
    forall once ensures Unquotes(QuoteTxt(s), once) <==> once == s {
      UnquotesExactly(QuoteTxt(s), once);
    }
    UnquotesExactly(s, s);
    if before, inner, after :| Framed(s, before, inner, after) {
      FramedStrips(s, before, inner, after);
    }
  }

  /** Two values share a canonical form only if they say the same. */
  lemma {:induction false} SameCanonical(t: RType, v: string, w: string, x: Meant, y: Meant)
    requires Says(t, v, x) && Says(t, w, y)
    ensures Canonical(t, v) == Canonical(t, w) <==> x == y
  {
    hide Says, Fits, Spelled, Canonical;
    SaysExactly(t, v, x);
    SaysExactly(t, w, y);
    if Spelled(x) == Spelled(y) {
      SpelledApart(t, x, y);
    }
  }

  lemma {:induction false} SpelledApart(t: RType, x: Meant, y: Meant)
    requires Fits(t, x) && Fits(t, y) && Spelled(x) == Spelled(y)
    ensures x == y
  {
    hide Escape, IntText;
    match x
    case Host(h) => SameDotted(h, y.name);
    case Line(s) => QuoteInjective(s, y.text);
    case Mail(p, h) =>
      SameInt(p, h + ".", y.priority, y.host + ".");
      SameDotted(h, y.host);
    case Service(p, w, n, h) =>
      SameInt(p, IntText(w) + " " + (IntText(n) + " " + (h + ".")),
              y.priority, IntText(y.weight) + " " + (IntText(y.port) + " " + (y.host + ".")));
      SameInt(w, IntText(n) + " " + (h + "."), y.weight, IntText(y.port) + " " + (y.host + "."));
      SameInt(n, h + ".", y.port, y.host + ".");
      SameDotted(h, y.host);
    case Authority(f, tag, s) =>
      SameInt(f, tag + " " + QuoteTxt(s), y.flags, y.tag + " " + QuoteTxt(y.text));
      SameTag(tag, s, y.tag, y.text);
    case Plain(_) =>
  }

  // ----- lists of values -----

  /** The values say `xs`, one each. */
  ghost predicate SayAll(t: RType, values: seq<string>, xs: seq<Meant>) {
    |xs| == |values| && forall i | 0 <= i < |xs| :: Says(t, values[i], xs[i])
  }

  ghost function Spellings(xs: seq<Meant>): (vs: seq<string>)
    ensures |vs| == |xs| && forall i | 0 <= i < |xs| :: vs[i] == Spelled(xs[i])
  {
    seq(|xs|, i requires 0 <= i < |xs| => Spelled(xs[i]))
  }

  lemma {:induction false} AllUnderstood(t: RType, values: seq<string>) returns (xs: seq<Meant>)
    requires forall i | 0 <= i < |values| :: ToWire(t, values[i]).Some?
    ensures SayAll(t, values, xs)
  {
    hide Says, ToWire;
    if values == [] {
      xs := [];
    } else {
      var n := |values| - 1;
      var front := AllUnderstood(t, values[..n]);
      var x := Understood(t, values[n]);
      xs := front + [x];
    }
  }
}
