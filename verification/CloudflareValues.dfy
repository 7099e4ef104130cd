/** Record names and values on their way between the panel's PowerDNS-style text and
    Cloudflare's record fields (daemon/cloudflare.py:266-370, daemon/dns_zone_lookup.py:23-26). */
module CloudflareValues {
  import opened Text

  datatype RType = A | AAAA | CNAME | NS | PTR | TXT | MX | SRV | CAA | SOA | OTHER(tag: string)

  predicate Proxyable(t: RType) { t.A? || t.AAAA? || t.CNAME? }

  /** The structured `data` object of SRV and CAA records. */
  datatype Data = NoData
                | SrvData(priority: int, weight: int, port: int, target: string)
                | CaaData(flags: int, tag: string, value: string)

  /** The value-bearing fields that a request body sets; None is a field it does not mention. */
  datatype Wire = Wire(content: Option<string>, priority: Option<int>, data: Data)

  /** The value-bearing fields of a stored record; an absent field reads as "" or 0. */
  datatype Body = Body(content: string, priority: int, data: Data)

  // ----- TXT quoting -----

  function Unescape(s: string): (r: string)
    ensures |r| <= |s|
  {
    if |s| >= 2 && s[0] == '\\' then [s[1]] + Unescape(s[2..])
    else if s == "" then ""
    else [s[0]] + Unescape(s[1..])
  }

  method UnescapeText(inner: string) returns (out: string)
    ensures out == Unescape(inner)
  {
    out := "";
    var i := 0;
    while i < |inner|
      invariant 0 <= i <= |inner|
      invariant out + Unescape(inner[i..]) == Unescape(inner)
    {
      var rest := inner[i..];
      if inner[i] == '\\' && i + 1 < |inner| {
        assert rest[2..] == inner[i + 2..];
        out := out + [inner[i + 1]];
        i := i + 2;
      } else {
        assert rest[1..] == inner[i + 1..];
        out := out + [inner[i]];
        i := i + 1;
      }
    }
    assert inner[i..] == "";
  }

  /** `s.replace(c, repl)` for a one-character pattern. */
  function ReplaceChar(s: string, c: char, repl: string): string {
    if s == "" then "" else (if s[0] == c then repl else [s[0]]) + ReplaceChar(s[1..], c, repl)
  }

  function Escape(s: string): string {
    ReplaceChar(ReplaceChar(s, '\\', "\\\\"), '"', "\\\"")
  }

  function QuoteTxt(s: string): string { "\"" + Escape(s) + "\"" }

  predicate Wrapped(v: string) {
    var t := Strip(v);
    |t| >= 2 && t[0] == '"' && t[|t| - 1] == '"'
  }

  function UnquoteTxt(v: string): (r: string)
    ensures Wrapped(v) ==> |r| < |v|
  {
    var t := Strip(v);
    if Wrapped(v) then Unescape(t[1..|t| - 1]) else v
  }

  lemma {:induction false} ReplaceCharConcat(a: string, b: string, c: char, repl: string)
    ensures ReplaceChar(a + b, c, repl) == ReplaceChar(a, c, repl) + ReplaceChar(b, c, repl)
  {
    if a == "" {
      assert a + b == b;
    } else {
      assert (a + b)[1..] == a[1..] + b;
      ReplaceCharConcat(a[1..], b, c, repl);
    }
  }

  lemma {:induction false} UnescapeEscape(s: string)
    ensures Unescape(Escape(s)) == s
  {
    if s != "" {
      var head := if s[0] == '\\' then "\\\\" else [s[0]];
      ReplaceCharConcat(head, ReplaceChar(s[1..], '\\', "\\\\"), '"', "\\\"");
      UnescapeEscape(s[1..]);
      var tail := Escape(s[1..]);
      if s[0] == '\\' {
        assert head[1..] == "\\";
        assert ReplaceChar("\\", '"', "\\\"") == "\\";
        assert ReplaceChar(head, '"', "\\\"") == "\\\\";
        assert Escape(s) == "\\\\" + tail;
      } else if s[0] == '"' {
        assert ReplaceChar(head, '"', "\\\"") == "\\\"";
        assert Escape(s) == "\\\"" + tail;
      } else {
        assert ReplaceChar(head, '"', "\\\"") == head;
        assert Escape(s) == head + tail;
      }
      assert Escape(s)[if s[0] == '\\' || s[0] == '"' then 2 else 1..] == tail;
    }
  }

  lemma {:induction false} QuoteIsWrapped(s: string)
    ensures Wrapped(QuoteTxt(s)) && Strip(QuoteTxt(s)) == LStrip(QuoteTxt(s)) == QuoteTxt(s)
  {
  }

  lemma {:induction false} Inside(first: string, inner: string, last: string)
    ensures (first + inner + last)[|first|..|first| + |inner|] == inner
  {
  }

  lemma {:induction false} UnquoteOnce(v: string, inner: string)
    requires v == "\"" + inner + "\"" && Strip(v) == v
    ensures UnquoteTxt(v) == Unescape(inner)
  {
    Inside("\"", inner, "\"");
  }

  /** Quoting any text and unquoting it gives the text back. */
  lemma {:induction false} UnquoteQuote(s: string)
    ensures UnquoteTxt(QuoteTxt(s)) == s
  {
    QuoteIsWrapped(s);
    UnquoteOnce(QuoteTxt(s), Escape(s));
    UnescapeEscape(s);
  }

  /** The text below every layer of quotes. */
  function UnwrapAll(v: string): (r: string)
    ensures !Wrapped(r) && |r| <= |v|
    ensures Wrapped(v) ==> |r| < |v|
    decreases |v|
  {
    if Wrapped(v) then UnwrapAll(UnquoteTxt(v)) else v
  }

  // ----- translation -----

  /** One PowerDNS-style value as request fields; None where the code raises. */
  function ToWire(t: RType, value: string): Option<Wire> {
    match t
    case CNAME | NS | PTR => Some(Wire(Some(RStripDots(value)), None, NoData))
    case TXT => Some(Wire(Some(UnquoteTxt(value)), None, NoData))
    case MX =>
      var parts := Fields(value);
      if |parts| != 2 || !AllDigits(parts[0]) then None
      else (match ParseInt(parts[0])
            case None => None
            case Some(p) => Some(Wire(Some(RStripDots(parts[1])), Some(p), NoData)))
    case SRV =>
      var parts := Fields(value);
      if |parts| != 4 then None
      else (match (ParseInt(parts[0]), ParseInt(parts[1]), ParseInt(parts[2]))
            case (Some(p), Some(w), Some(n)) => Some(Wire(None, None, SrvData(p, w, n, RStripDots(parts[3]))))
            case _ => None)
    case CAA =>
      var parts := SplitN(value, 2);
      if |parts| != 3 then None
      else (match ParseInt(parts[0])
            case None => None
            case Some(f) => Some(Wire(None, None, CaaData(f, parts[1], UnquoteTxt(parts[2])))))
    case _ => Some(Wire(Some(value), None, NoData))
  }

  /** One stored record as the PowerDNS-style value. */
  function FromBody(t: RType, b: Body): string {
    match t
    case CNAME | NS | PTR => RStripDots(b.content) + "."
    case TXT => QuoteTxt(UnquoteTxt(b.content))
    case MX => MxText(b.priority, b.content)
    case SRV => (match b.data
                 case NoData => b.content
                 case SrvData(p, w, n, target) => SrvText(p, w, n, target)
                 case CaaData(_, _, _) => SrvText(0, 0, 0, ""))
    case CAA => (match b.data
                 case NoData => b.content
                 case SrvData(_, _, _, _) => CaaText(0, "", "")
                 case CaaData(f, tag, v) => CaaText(f, tag, v))
    case _ => b.content
  }

  function MxText(priority: int, host: string): string {
    IntText(priority) + " " + (RStripDots(host) + ".")
  }

  function SrvText(p: int, w: int, n: int, target: string): string {
    IntText(p) + " " + (IntText(w) + " " + (IntText(n) + " " + (RStripDots(target) + ".")))
  }

  function CaaText(flags: int, tag: string, value: string): string {
    IntText(flags) + " " + (tag + " " + QuoteTxt(value))
  }

  /** A record freshly created from request fields. */
  function NewBody(w: Wire): Body {
    Body(match w.content { case Some(c) => c case None => "" },
         match w.priority { case Some(p) => p case None => 0 }, w.data)
  }

  /** A stored record after an update: fields the request does not mention stay. */
  function PatchedBody(b: Body, w: Wire): Body {
    Body(match w.content { case Some(c) => c case None => b.content },
         match w.priority { case Some(p) => p case None => b.priority },
         if w.data.NoData? then b.data else w.data)
  }

  /** `_canonical_value`; None where the value is refused. */
  function Canonical(t: RType, value: string): Option<string> {
    match ToWire(t, value)
    case None => None
    case Some(w) => Some(FromBody(t, NewBody(w)))
  }

  /** Updating any record of the type with a value's fields makes it read as that value's canonical form. */
  lemma {:induction false} PatchReadsCanonical(t: RType, value: string, b: Body)
    requires ToWire(t, value).Some?
    ensures FromBody(t, PatchedBody(b, ToWire(t, value).value)) == Canonical(t, value).value
  {
  }

  lemma {:induction false} RStripDotsIdempotent(s: string)
    ensures RStripDots(RStripDots(s)) == RStripDots(s)
    ensures RStripDots(RStripDots(s) + ".") == RStripDots(s)
  {
    var r := RStripDots(s);
    assert (r + ".")[..|r|] == r;
  }

  lemma {:induction false} RStripDotsPrefix(s: string)
    ensures RStripDots(s) == s[..|RStripDots(s)|]
  {
    if s != "" && s[|s| - 1] == '.' {
      RStripDotsPrefix(s[..|s| - 1]);
    }
  }

  lemma {:induction false} DotWord(h: string)
    requires NoSpace(h)
    ensures RStripDots(h) + "." != "" && NoSpace(RStripDots(h) + ".")
  {
    RStripDotsPrefix(h);
  }

  lemma {:induction false} FieldsOfTwo(a: string, b: string)
    requires AreWords([a, b])
    ensures Fields(a + " " + b) == [a, b]
  {
    assert [a, b][0] == a && [a, b][1] == b;
    FieldsWord(b);
    FieldsCons(a, b);
  }

  lemma {:induction false} FieldsOfFour(a: string, b: string, c: string, d: string)
    requires AreWords([a, b, c, d])
    ensures Fields(a + " " + (b + " " + (c + " " + d))) == [a, b, c, d]
  {
    assert [a, b, c, d][0] == a && [a, b, c, d][1] == b && [a, b, c, d][2] == c && [a, b, c, d][3] == d;
    FieldsOfTwo(c, d);
    FieldsCons(b, c + " " + d);
    FieldsCons(a, b + " " + (c + " " + d));
  }

  lemma {:induction false} NatTextIsIntText(p: nat)
    ensures AllDigits(IntText(p))
  {
  }

  lemma {:induction false} MxReparses(p: nat, h: string)
    requires NoSpace(h)
    ensures ToWire(MX, MxText(p, h)) == Some(Wire(Some(RStripDots(h)), Some(p), NoData))
  {
    var text, host := IntText(p), RStripDots(h) + ".";
    DotWord(h);
    IntRoundTrip(p);
    NatTextIsIntText(p);
    RStripDotsIdempotent(h);
    FieldsOfTwo(text, host);
    MxWire(MxText(p, h), text, host, p);
  }

  lemma {:induction false} MxWire(value: string, a: string, b: string, p: int)
    requires Fields(value) == [a, b] && AllDigits(a) && ParseInt(a) == Some(p)
    ensures ToWire(MX, value) == Some(Wire(Some(RStripDots(b)), Some(p), NoData))
  {
  }

  lemma {:induction false} SrvReparses(p: int, w: int, n: int, target: string)
    requires NoSpace(target)
    ensures ToWire(SRV, SrvText(p, w, n, target)) == Some(Wire(None, None, SrvData(p, w, n, RStripDots(target))))
  {
    var a, b, c, host := IntText(p), IntText(w), IntText(n), RStripDots(target) + ".";
    DotWord(target);
    IntRoundTrip(p);
    IntRoundTrip(w);
    IntRoundTrip(n);
    RStripDotsIdempotent(target);
    FieldsOfFour(a, b, c, host);
    SrvWire(SrvText(p, w, n, target), a, b, c, host, p, w, n);
  }

  lemma {:induction false} SrvWire(value: string, a: string, b: string, c: string, d: string, p: int, w: int, n: int)
    requires Fields(value) == [a, b, c, d]
    requires ParseInt(a) == Some(p) && ParseInt(b) == Some(w) && ParseInt(c) == Some(n)
    ensures ToWire(SRV, value) == Some(Wire(None, None, SrvData(p, w, n, RStripDots(d))))
  {
  }

  lemma {:induction false} CaaReparses(f: int, tag: string, v: string)
    requires tag != "" && NoSpace(tag)
    ensures ToWire(CAA, CaaText(f, tag, v)) == Some(Wire(None, None, CaaData(f, tag, v)))
  {
    var a, q := IntText(f), QuoteTxt(v);
    IntRoundTrip(f);
    QuoteIsWrapped(v);
    SplitNOfThree(a, tag, q);
    UnquoteQuote(v);
    CaaWire(CaaText(f, tag, v), a, tag, q, f);
  }

  lemma {:induction false} SplitNOfThree(a: string, b: string, rest: string)
    requires AreWords([a, b])
    requires rest != "" && LStrip(rest) == rest
    ensures SplitN(a + " " + (b + " " + rest), 2) == [a, b, rest]
  {
    assert [a, b][0] == a && [a, b][1] == b;
    assert SplitN(rest, 0) == [rest];
    SplitNCons(b, rest, 1);
    SplitNCons(a, b + " " + rest, 2);
  }

  lemma {:induction false} CaaWire(value: string, a: string, tag: string, q: string, f: int)
    requires SplitN(value, 2) == [a, tag, q] && ParseInt(a) == Some(f)
    ensures ToWire(CAA, value) == Some(Wire(None, None, CaaData(f, tag, UnquoteTxt(q))))
  {
  }

  /** The values whose canonical form is not a fixed point. */
  predicate KeepsQuotes(t: RType, value: string) {
    t.TXT? && Wrapped(UnquoteTxt(UnquoteTxt(value)))
  }

  lemma {:induction false} AllDigitsParse(s: string)
    requires AllDigits(s) && ParseInt(s).Some?
    ensures ParseInt(s).value >= 0
  {
  }

  lemma {:induction false} SplitNSecond(s: string)
    requires |SplitN(s, 2)| == 3
    ensures SplitN(s, 2)[1] != "" && NoSpace(SplitN(s, 2)[1])
  {
    var t := LStrip(s);
    var rest := t[|Word(t)|..];
    assert SplitN(s, 2) == [Word(t)] + SplitN(rest, 1);
    SplitNFirst(rest, 1);
  }

  lemma {:induction false} SplitNFirst(s: string, n: nat)
    requires n > 0 && SplitN(s, n) != []
    ensures SplitN(s, n)[0] != "" && NoSpace(SplitN(s, n)[0])
  {
    var t := LStrip(s);
    assert SplitN(s, n)[0] == Word(t);
    assert Word(t) != "";
  }

  lemma {:induction false} TxtCanonical(value: string)
    ensures Canonical(TXT, value) == Some(QuoteTxt(UnquoteTxt(UnquoteTxt(value))))
    ensures UnquoteTxt(Canonical(TXT, value).value) == UnquoteTxt(UnquoteTxt(value))
  {
    UnquoteQuote(UnquoteTxt(UnquoteTxt(value)));
  }

  lemma {:induction false} QuoteInjective(a: string, b: string)
    ensures QuoteTxt(a) == QuoteTxt(b) <==> a == b
  {
    UnquoteQuote(a);
    UnquoteQuote(b);
  }

  lemma {:induction false} TxtIdempotent(value: string)
    ensures Canonical(TXT, Canonical(TXT, value).value) == Canonical(TXT, value) <==> !KeepsQuotes(TXT, value)
  {
    var u := UnquoteTxt(UnquoteTxt(value));
    TxtCanonical(value);
    TxtCanonical(Canonical(TXT, value).value);
    QuoteInjective(UnquoteTxt(u), u);
  }

  lemma {:induction false} MxIdempotent(value: string)
    requires Canonical(MX, value).Some?
    ensures Canonical(MX, Canonical(MX, value).value) == Canonical(MX, value)
  {
    var parts := Fields(value);
    var host := RStripDots(parts[1]);
    FieldsAreWords(value);
    AllDigitsParse(parts[0]);
    RStripDotsIdempotent(parts[1]);
    RStripDotsPrefix(parts[1]);
    MxReparses(ParseInt(parts[0]).value, host);
  }

  lemma {:induction false} SrvIdempotent(value: string)
    requires Canonical(SRV, value).Some?
    ensures Canonical(SRV, Canonical(SRV, value).value) == Canonical(SRV, value)
  {
    var parts := Fields(value);
    var p, w, n := ParseInt(parts[0]), ParseInt(parts[1]), ParseInt(parts[2]);
    var target := RStripDots(parts[3]);
    FieldsAreWords(value);
    RStripDotsPrefix(parts[3]);
    RStripDotsIdempotent(parts[3]);
    assert Canonical(SRV, value).value == SrvText(p.value, w.value, n.value, target);
    SrvReparses(p.value, w.value, n.value, target);
  }

  lemma {:induction false} CaaIdempotent(value: string)
    requires Canonical(CAA, value).Some?
    ensures Canonical(CAA, Canonical(CAA, value).value) == Canonical(CAA, value)
  {
    var parts := SplitN(value, 2);
    SplitNSecond(value);
    CaaReparses(ParseInt(parts[0]).value, parts[1], UnquoteTxt(parts[2]));
  }

  /** Canonicalising twice equals canonicalising once, for every accepted value of every type,
      except exactly the TXT values that are still wrapped in quotes after two unquotes. */
  lemma {:induction false} CanonicalIdempotent(t: RType, value: string)
    requires Canonical(t, value).Some?
    ensures Canonical(t, Canonical(t, value).value) == Canonical(t, value) <==> !KeepsQuotes(t, value)
  {
    match t
    case CNAME => RStripDotsIdempotent(RStripDots(value)); RStripDotsIdempotent(value);
    case NS => RStripDotsIdempotent(RStripDots(value)); RStripDotsIdempotent(value);
    case PTR => RStripDotsIdempotent(RStripDots(value)); RStripDotsIdempotent(value);
    case TXT => TxtIdempotent(value);
    case MX => MxIdempotent(value);
    case SRV => SrvIdempotent(value);
    case CAA => CaaIdempotent(value);
    case _ =>
  }

  /** A TXT value, whatever its text, whose canonical form loses one more layer of quotes each time. */
  lemma {:induction false} TripleQuotedCounterexample(text: string)
    ensures var v := QuoteTxt(QuoteTxt(QuoteTxt(text)));
            KeepsQuotes(TXT, v) && Canonical(TXT, Canonical(TXT, v).value) != Canonical(TXT, v)
  {
    var inner := QuoteTxt(text);
    UnquoteQuote(QuoteTxt(inner));
    UnquoteQuote(inner);
    QuoteIsWrapped(text);
    TxtIdempotent(QuoteTxt(QuoteTxt(inner)));
  }

  // ----- the meaning of a value -----

  /** What a value stands for whichever store holds it: canonical, and a TXT value without any
      of its layers of quotes. Values that Cloudflare refuses stand for themselves. */
  function Meaning(t: RType, value: string): string {
    if t.TXT? then QuoteTxt(UnwrapAll(value))
    else match Canonical(t, value) case Some(c) => c case None => value
  }

  lemma {:induction false} UnwrapAllUnquote(v: string)
    ensures UnwrapAll(UnquoteTxt(v)) == UnwrapAll(v)
  {
  }

  /** A trip through the translation never changes what a value means. */
  lemma {:induction false} MeaningSurvives(t: RType, value: string)
    requires Canonical(t, value).Some?
    ensures Meaning(t, Canonical(t, value).value) == Meaning(t, value)
  {
    if t.TXT? {
      TxtCanonical(value);
      UnwrapAllUnquote(Canonical(t, value).value);
      UnwrapAllUnquote(UnquoteTxt(value));
      UnwrapAllUnquote(value);
    } else {
      CanonicalIdempotent(t, value);
    }
  }

  /** For every accepted value outside the exception, the meaning is the canonical value. */
  lemma {:induction false} MeaningIsCanonical(t: RType, value: string)
    requires Canonical(t, value).Some?
    ensures Meaning(t, value) == Canonical(t, value).value <==> !KeepsQuotes(t, value)
  {
    if t.TXT? {
      TxtCanonical(value);
      var u := UnquoteTxt(UnquoteTxt(value));
      UnwrapAllUnquote(UnquoteTxt(value));
      UnwrapAllUnquote(value);
      QuoteInjective(UnwrapAll(value), u);
    }
  }

  // ----- names -----

  function LabelWithinZone(name: string, zone: string): string {
    if name == zone then "@" else name[..if |name| > |zone| then |name| - |zone| - 1 else 0]
  }

  function RecordName(zone: string, sub: string): string {
    if sub == "" || sub == "@" then zone else sub + "." + zone
  }

  /** A name that the zone can hold: the apex, or a proper label in front of it. */
  predicate InZone(name: string, zone: string) {
    name == zone
    || (|name| > |zone| + 1 && name[|name| - |zone| - 1..] == "." + zone && name[..|name| - |zone| - 1] != "@")
  }

  /** Taking the label of a name and rebuilding the name is the identity exactly for names in the zone. */
  lemma {:induction false} LabelRoundTrip(name: string, zone: string)
    ensures RecordName(zone, LabelWithinZone(name, zone)) == name <==> InZone(name, zone)
    ensures LabelWithinZone(zone, zone) == "@"
  {
    if name != zone {
      var sub := LabelWithinZone(name, zone);
      if InZone(name, zone) {
        assert name == sub + name[|name| - |zone| - 1..];
        assert name == sub + "." + zone;
      } else {
        assert sub != "" && sub != "@" ==> (sub + "." + zone)[|sub|..] == "." + zone;
      }
    }
  }
}
