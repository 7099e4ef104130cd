/** The crontab editor (daemon/cron.py): a table of lines in which markers name the job line that follows them,
    edited in place, against the list of jobs that reading the table gives. */
module Cron {
  import opened Text

  datatype Job = Job(id: string, name: string, schedule: string, command: string)

  datatype Outcome = Edited | Invalid | NotFound

  // Reading and writing the table's text.

  /** The characters at which `str.splitlines` breaks. */
  predicate IsBreak(c: char) {
    var n := c as int;
    10 <= n <= 13 || 28 <= n <= 30 || n == 0x85 || n == 0x2028 || n == 0x2029
  }

  predicate Clean(s: string) { forall i | 0 <= i < |s| :: !IsBreak(s[i]) }

  ghost predicate AllClean(lines: seq<string>) { forall l | l in lines :: Clean(l) }

  /** The first break from the start, or the length. */
  function FirstBreak(s: string): (n: nat)
    ensures n <= |s| && Clean(s[..n]) && (n < |s| ==> IsBreak(s[n]))
  {
    if s == "" || IsBreak(s[0]) then 0
    else
      var n := FirstBreak(s[1..]);
      assert s[..n + 1] == [s[0]] + s[1..][..n];
      n + 1
  }

  /** `str.splitlines()`. */
  function SplitLines(s: string): seq<string>
    decreases |s|
  {
    if s == "" then []
    else
      var n := FirstBreak(s);
      if n == |s| then [s]
      else [s[..n]] + SplitLines(s[if s[n] == '\r' && n + 1 < |s| && s[n + 1] == '\n' then n + 2 else n + 1..])
  }

  function JoinLines(lines: seq<string>): string {
    if lines == [] then "" else if |lines| == 1 then lines[0] else lines[0] + "\n" + JoinLines(lines[1..])
  }

  /** What `_write_raw` installs. */
  function Content(lines: seq<string>): string {
    var c := JoinLines(lines);
    if c == "" || c[|c| - 1] == '\n' then c else c + "\n"
  }

  /** One empty line at the end is lost. */
  function Kept(lines: seq<string>): seq<string> {
    if lines != [] && lines[|lines| - 1] == "" then lines[..|lines| - 1] else lines
  }

  function Terminated(lines: seq<string>): string {
    if lines == [] then "" else lines[0] + "\n" + Terminated(lines[1..])
  }

  // Markers and job lines.

  predicate IsId(s: string) {
    |s| == 36 && forall i | 0 <= i < 36 :: '0' <= s[i] <= '9' || 'a' <= s[i] <= 'f' || s[i] == '-'
  }

  /** The id and label of a marker line that was stripped. */
  function ParseMarker(s: string): Option<(string, string)> {
    if s == "" || s[0] != '#' then None
    else
      var t := LStrip(s[1..]);
      if !("boron:id=" <= t) || |t| < 45 || !IsId(t[9..45]) then None
      else
        var rest := t[45..];
        var u := LStrip(rest);
        if rest == "" then Some((t[9..45], ""))
        else if |u| < |rest| && "label=" <= u then Some((t[9..45], u[6..]))
        else None
  }

  function Marker(line: string): Option<(string, string)> { ParseMarker(Strip(line)) }

  /** How many words a schedule has: one if it is a nickname. */
  function ScheduleWords(line: string): nat { if LStrip(line) != "" && LStrip(line)[0] == '@' then 1 else 5 }

  function JoinWords(words: seq<string>): string {
    if words == [] then "" else if |words| == 1 then words[0] else words[0] + " " + JoinWords(words[1..])
  }

  /** The schedule, its whitespace normalised, and the command of a job line. */
  function JobLine(line: string): Option<(string, string)> {
    var n := ScheduleWords(line);
    var parts := SplitN(line, n);
    if |parts| == n + 1 then Some((JoinWords(parts[..n]), parts[n])) else None
  }

  /** `parse_jobs`. */
  function Parse(lines: seq<string>): seq<Job> {
    if lines == [] then []
    else if Marker(lines[0]).Some? && |lines| > 1 then
      (match JobLine(lines[1])
       case Some(pair) => [Job(Marker(lines[0]).value.0, Marker(lines[0]).value.1, pair.0, pair.1)]
       case None => []) + Parse(lines[2..])
    else Parse(lines[1..])
  }

  /** The lines that belong to no job. */
  function Others(lines: seq<string>): seq<string> {
    if lines == [] then []
    else if Marker(lines[0]).Some? && |lines| > 1 then Others(lines[2..])
    else [lines[0]] + Others(lines[1..])
  }

  /** The edit scanner: put `lines'` in the place of each marker of `id` and its job line. */
  function Edit(lines: seq<string>, id: string, lines': seq<string>): seq<string> {
    if lines == [] then []
    else if Marker(lines[0]).Some? && Marker(lines[0]).value.0 == id && |lines| > 1 then
      lines' + Edit(lines[2..], id, lines')
    else [lines[0]] + Edit(lines[1..], id, lines')
  }

  predicate Finds(lines: seq<string>, id: string) {
    lines != [] && ((Marker(lines[0]).Some? && Marker(lines[0]).value.0 == id && |lines| > 1) || Finds(lines[1..], id))
  }

  /** The same edit on the list of jobs. */
  function Replaced(jobs: seq<Job>, id: string, jobs': seq<Job>): seq<Job> {
    if jobs == [] then [] else (if jobs[0].id == id then jobs' else [jobs[0]]) + Replaced(jobs[1..], id, jobs')
  }

  /** Every marker is followed by a job line that is no marker. */
  predicate WellFormed(lines: seq<string>) {
    if lines == [] then true
    else if Marker(lines[0]).Some? then
      |lines| > 1 && Marker(lines[1]).None? && JobLine(lines[1]).Some? && WellFormed(lines[2..])
    else WellFormed(lines[1..])
  }

  function MarkerLine(id: string, name: string): string { "# boron:id=" + id + " label=" + name }

  // What the scanners look for, on the text itself.

  lemma {:induction false} BreaksAre(c: char)
    ensures IsBreak(c)
            <==> c in {'\n', '\r', '\U{000B}', '\U{000C}', '\U{001C}', '\U{001D}', '\U{001E}', '\U{0085}', '\U{2028}',
                       '\U{2029}'}
  {
  }

  ghost predicate White(s: string) { forall i | 0 <= i < |s| :: IsSpace(s[i]) }

  /** An id in the form of a UUID's characters. */
  ghost predicate IdText(s: string) { |s| == 36 && forall c | c in s :: c in "0123456789abcdef-" }

  /** A hash sign, "boron:id=" and an id, and nothing behind it or "label=" and the label, whitespace between them. */
  ghost predicate MarkerText(s: string, id: string, tag: string, i: nat, k: nat) {
    1 <= i && i + 45 <= |s| && s[0] == '#' && White(s[1..i]) && s[i..i + 9] == "boron:id=" && s[i + 9..i + 45] == id
    && IdText(id)
    && (if |s| == i + 45 then tag == ""
        else i + 45 < k <= |s| - 6 && White(s[i + 45..k]) && s[k..k + 6] == "label=" && s[k + 6..] == tag)
  }

  lemma {:induction false} IdExactly(s: string)
    ensures IsId(s) <==> IdText(s)
  {
    forall i | 0 <= i < |s|
      ensures s[i] in "0123456789abcdef-" <==> '0' <= s[i] <= '9' || 'a' <= s[i] <= 'f' || s[i] == '-' {
      IdCharacter(s[i]);
    }
    assert forall i | 0 <= i < |s| :: s[i] in s;
  }

  lemma {:induction false} IdCharacter(c: char)
    ensures c in "0123456789abcdef-" <==> '0' <= c <= '9' || 'a' <= c <= 'f' || c == '-'
  {
    var all := "0123456789abcdef-";
    if '0' <= c <= '9' {
      assert all[c as int - '0' as int] == c;
    }
    if 'a' <= c <= 'f' {
      assert all[c as int - 'a' as int + 10] == c;
    }
    if c == '-' {
      assert all[16] == c;
    }
  }

  lemma {:induction false} LStripAt(s: string) returns (i: nat)
    ensures i <= |s| && White(s[..i]) && LStrip(s) == s[i..]
  {
    if s != "" && IsSpace(s[0]) {
      var j := LStripAt(s[1..]);
      i := j + 1;
      assert s[..i] == [s[0]] + s[1..][..j] && s[1..][j..] == s[i..];
    } else {
      i := 0;
    }
  }

  lemma {:induction false} LStripTo(s: string, i: nat)
    requires i <= |s| && White(s[..i]) && (i < |s| ==> !IsSpace(s[i]))
    ensures LStrip(s) == s[i..]
  {
    hide IsSpace;
    if i > 0 {
      assert s[..i][0] == s[0] && s[1..][..i - 1] == s[..i][1..] && s[1..][i - 1..] == s[i..];
      LStripTo(s[1..], i - 1);
    }
  }

  /** What a parsed marker consists of. */
  lemma {:induction false} MarkerParts(s: string, id: string, tag: string)
    requires ParseMarker(s) == Some((id, tag))
    ensures s != "" && s[0] == '#'
    ensures var t := LStrip(s[1..]);
            |t| >= 45 && "boron:id=" <= t && t[9..45] == id && IsId(id)
            && if t[45..] == "" then tag == ""
               else |LStrip(t[45..])| < |t[45..]| && "label=" <= LStrip(t[45..]) && LStrip(t[45..])[6..] == tag
  {
    hide LStrip, IsId;
  }

  lemma {:induction false} MarkerFound(s: string, id: string, tag: string)
    requires ParseMarker(s) == Some((id, tag))
    ensures exists i: nat, k: nat :: MarkerText(s, id, tag, i, k)
  {
    MarkerParts(s, id, tag);
    hide IsSpace, LStrip, IsId, IdText, White, ParseMarker, MarkerText;
    var n := LStripAt(s[1..]);
    var i, t := n + 1, LStrip(s[1..]);
    InTwo(s, 1, n);
    assert t == s[i..];
    IdExactly(id);
    if t[45..] == "" {
      BareMarker(s, id, i);
    } else {
      var m := LStripAt(t[45..]);
      LabelledMarker(s, id, tag, i, i + 45 + m);
    }
  }

  lemma {:induction false} InTwo(s: string, a: nat, n: nat)
    requires a + n <= |s|
    ensures s[a..][..n] == s[a..a + n] && s[a..][n..] == s[a + n..]
  {
  }

  lemma {:induction false} BareMarker(s: string, id: string, i: nat)
    requires 1 <= i && i + 45 == |s| && s[0] == '#' && White(s[1..i]) && "boron:id=" <= s[i..] && s[i..][9..45] == id
    requires IdText(id)
    ensures MarkerText(s, id, "", i, 0)
  {
    hide IsSpace, White, IdText;
    assert s[i..i + 9] == s[i..][..9] && s[i + 9..i + 45] == s[i..][9..45];
  }

  lemma {:induction false} LabelledMarker(s: string, id: string, tag: string, i: nat, k: nat)
    requires 1 <= i && i + 45 < k <= |s| && s[0] == '#' && White(s[1..i]) && "boron:id=" <= s[i..]
    requires s[i..][9..45] == id && IdText(id) && White(s[i..][45..][..k - i - 45])
    requires "label=" <= s[i..][45..][k - i - 45..] && s[i..][45..][k - i - 45..][6..] == tag
    ensures MarkerText(s, id, tag, i, k)
  {
    hide IsSpace, White, IdText;
    assert s[i..i + 9] == s[i..][..9] && s[i + 9..i + 45] == s[i..][9..45];
    InTwo(s, i, 45);
    InTwo(s, i + 45, k - i - 45);
    InTwo(s, k, 6);
  }

  lemma {:induction false} MarkerTaken(s: string, id: string, tag: string, i: nat, k: nat)
    requires MarkerText(s, id, tag, i, k)
    ensures ParseMarker(s) == Some((id, tag))
  {
    MarkerHead(s, id, tag, i, k);
    hide LStrip, IsId, IdText, ParseMarker, IsSpace, White;
    IdExactly(id);
    var t := s[i..];
    if |s| == i + 45 {
      BareParsed(s, t, id);
    } else {
      MarkerTail(s, id, tag, i, k);
      MarkerParsed(s, t, id, t[45..], s[k..], tag);
    }
  }

  lemma {:induction false} MarkerHead(s: string, id: string, tag: string, i: nat, k: nat)
    requires MarkerText(s, id, tag, i, k)
    ensures LStrip(s[1..]) == s[i..] && "boron:id=" <= s[i..] && |s[i..]| >= 45 && s[i..][9..45] == id
  {
    hide IdText, LStrip;
    assert s[1..][..i - 1] == s[1..i] && s[1..][i - 1..] == s[i..];
    assert s[i..i + 9][0] == 'b' == s[i];
    LStripTo(s[1..], i - 1);
    assert s[i..][..9] == s[i..i + 9] && s[i..][9..45] == s[i + 9..i + 45];
  }

  lemma {:induction false} MarkerTail(s: string, id: string, tag: string, i: nat, k: nat)
    requires MarkerText(s, id, tag, i, k) && |s| != i + 45
    ensures s[i..][45..] != "" && LStrip(s[i..][45..]) == s[k..] && |s[k..]| < |s[i..][45..]|
    ensures "label=" <= s[k..] && s[k..][6..] == tag
  {
    hide IdText, LStrip;
    var rest, m := s[i..][45..], k - i - 45;
    assert rest[..m] == s[i + 45..k] && rest[m..] == s[k..];
    assert s[k..k + 6][0] == 'l' == s[k] && rest[m] == s[k];
    LStripTo(rest, m);
    assert s[k..][..6] == s[k..k + 6] && s[k..][6..] == s[k + 6..];
  }

  lemma {:induction false} BareParsed(s: string, t: string, id: string)
    requires s != "" && s[0] == '#' && LStrip(s[1..]) == t && "boron:id=" <= t && |t| == 45
    requires t[9..45] == id && IsId(id)
    ensures ParseMarker(s) == Some((id, ""))
  {
    hide LStrip, IsId;
    assert t[45..] == "";
  }

  /** A stripped line is a marker exactly when it has that form. */
  lemma {:induction false} MarkerExactly(s: string, id: string, tag: string)
    ensures ParseMarker(s) == Some((id, tag)) <==> exists i: nat, k: nat :: MarkerText(s, id, tag, i, k)
  {
    hide ParseMarker, MarkerText;
    if ParseMarker(s) == Some((id, tag)) {
      MarkerFound(s, id, tag);
    }
    if i: nat, k: nat :| MarkerText(s, id, tag, i, k) {
      MarkerTaken(s, id, tag, i, k);
    }
  }

  // Writing and reading back.

  lemma {:induction false} SplitOfTerminated(lines: seq<string>)
    requires AllClean(lines)
    ensures SplitLines(Terminated(lines)) == lines
  {
    if lines != [] {
      var l, rest := lines[0], Terminated(lines[1..]);
      var s := l + "\n" + rest;
      NewlineBreaks();
      BreakAt(l, '\n', rest);
      SplitOfTerminated(lines[1..]);
      assert s[..|l|] == l && s[|l| + 1..] == rest && s[|l|] == '\n';
    }
  }

  /** A line ends at its first break, a carriage return taking a newline behind it along; what has none is one line. */
  lemma {:induction false} LinesEnd(l: string, c: char, rest: string)
    requires Clean(l) && IsBreak(c)
    ensures SplitLines(l) == if l == "" then [] else [l]
    ensures c == '\r' && rest != "" && rest[0] == '\n' ==> SplitLines(l + [c] + rest) == [l] + SplitLines(rest[1..])
    ensures !(c == '\r' && rest != "" && rest[0] == '\n') ==> SplitLines(l + [c] + rest) == [l] + SplitLines(rest)
  {
    var s := l + [c] + rest;
    BreakAt(l, c, rest);
    assert s[..|l|] == l && s[|l|] == c && s[|l| + 1..] == rest;
    if rest != "" {
      assert s[|l| + 1] == rest[0] && s[|l| + 2..] == rest[1..];
    }
    var n := FirstBreak(l);
    assert n == |l| && l[..n] == l;
  }

  lemma {:induction false} BreakAt(l: string, c: char, rest: string)
    requires Clean(l) && IsBreak(c)
    ensures FirstBreak(l + [c] + rest) == |l|
  {
    var s := l + [c] + rest;
    var n := FirstBreak(s);
    forall i | 0 <= i < n ensures !IsBreak(s[i]) {
      assert s[..n][i] == s[i];
    }
    forall i | 0 <= i < |l| ensures !IsBreak(s[i]) {
      assert s[i] == l[i];
    }
    assert IsBreak(s[|l|]);
  }

  lemma {:induction false} NewlineBreaks()
    ensures IsBreak('\n')
  {
  }

  lemma {:induction false} ContentIsTerminated(lines: seq<string>)
    requires AllClean(lines)
    ensures Content(lines) == Terminated(Kept(lines))
  {
    hide IsBreak;
    if |lines| == 1 {
      if lines[0] != "" {
        var l := lines[0];
        NewlineBreaks();
        assert l in lines && !IsBreak(l[|l| - 1]);
        assert lines[1..] == [] && Terminated(lines) == l + "\n" + "";
      }
    } else if |lines| > 1 {
      ContentIsTerminated(lines[1..]);
      assert Kept(lines)[0] == lines[0] && Kept(lines)[1..] == Kept(lines[1..]);
      var c, d := JoinLines(lines), JoinLines(lines[1..]);
      assert c == lines[0] + "\n" + d;
      if d == "" {
        assert c[|c| - 1] == '\n';
      } else {
        assert c[|c| - 1] == d[|d| - 1];
      }
    }
  }

  lemma {:induction false} SplitLinesAreClean(s: string)
    ensures AllClean(SplitLines(s))
    decreases |s|
  {
    if s != "" {
      var n := FirstBreak(s);
      if n < |s| {
        SplitLinesAreClean(s[if s[n] == '\r' && n + 1 < |s| && s[n + 1] == '\n' then n + 2 else n + 1..]);
      } else {
        assert s[..n] == s;
      }
    }
  }

  /** A table is read back as it was written, but for one empty line at its end, exactly when no line holds any
      of the characters at which lines are split. */
  lemma {:induction false} RereadExactly(lines: seq<string>)
    ensures SplitLines(Content(lines)) == Kept(lines) <==> AllClean(lines)
  {
    if AllClean(lines) {
      ContentIsTerminated(lines);
      SplitOfTerminated(Kept(lines));
    } else {
      SplitLinesAreClean(Content(lines));
      var l :| l in lines && !Clean(l);
      var i :| 0 <= i < |lines| && lines[i] == l;
      assert l != "";
      assert i < |Kept(lines)| && Kept(lines)[i] == l;
    }
  }

  // A job line that was just written.

  lemma {:induction false} StripFixed(s: string)
    requires s != "" && !IsSpace(s[0]) && !IsSpace(s[|s| - 1])
    ensures LStrip(s) == s && Strip(s) == s
  {
  }

  lemma {:induction false} StripEnds(s: string)
    requires Strip(s) != ""
    ensures !IsSpace(Strip(s)[0]) && !IsSpace(Strip(s)[|Strip(s)| - 1])
  {
    RStripKeepsFirst(LStrip(s));
  }

  lemma {:induction false} RStripKeepsFirst(s: string)
    requires s != "" && !IsSpace(s[0])
    ensures RStrip(s) != "" && RStrip(s)[0] == s[0]
    decreases |s|
  {
    if IsSpace(s[|s| - 1]) {
      RStripKeepsFirst(s[..|s| - 1]);
    }
  }

  lemma {:induction false} LStripThen(s: string, rest: string)
    ensures LStrip(s + rest) == if LStrip(s) == "" then LStrip(rest) else LStrip(s) + rest
  {
    if s == "" {
      assert s + rest == rest;
    } else if IsSpace(s[0]) {
      LStripThen(s[1..], rest);
      assert (s + rest)[1..] == s[1..] + rest;
    }
  }

  lemma {:induction false} WordThen(s: string, rest: string)
    requires rest == "" || IsSpace(rest[0])
    ensures Word(s + rest) == Word(s)
  {
    if s == "" {
      assert s + rest == rest;
    } else if !IsSpace(s[0]) {
      WordThen(s[1..], rest);
      assert (s + rest)[1..] == s[1..] + rest;
    }
  }

  /** Splitting off `n` words takes the words of the schedule first, then those of what follows it. */
  lemma {:induction false} SplitThen(s: string, tail: string, n: nat)
    requires tail != "" && IsSpace(tail[0]) && |Fields(s)| <= n
    ensures SplitN(s + tail, n) == Fields(s) + SplitN(tail, n - |Fields(s)|)
    decreases |s|
  {
    hide IsSpace, LStrip, Word, SplitN, Fields;
    var t := LStrip(s);
    LStripThen(s, tail);
    FieldsStep(s);
    if t == "" {
      SplitNOfLStrip(s + tail, tail, n);
    } else {
      WordThen(t, tail);
      var rest := t[|Word(t)|..];
      assert (t + tail)[|Word(t)|..] == rest + tail;
      SplitThen(rest, tail, n - 1);
      SplitNStep(s + tail, t + tail, n);
    }
  }

  lemma {:induction false} FieldsStep(s: string)
    ensures Fields(s) == if LStrip(s) == "" then [] else [Word(LStrip(s))] + Fields(LStrip(s)[|Word(LStrip(s))|..])
    ensures LStrip(s) != "" ==> |Word(LStrip(s))| > 0
  {
  }

  lemma {:induction false} SplitNStep(s: string, t: string, n: nat)
    requires t == LStrip(s) && t != "" && n > 0
    ensures SplitN(s, n) == [Word(t)] + SplitN(t[|Word(t)|..], n - 1)
  {
  }

  lemma {:induction false} FieldsOfJoin(words: seq<string>)
    requires AreWords(words)
    ensures Fields(JoinWords(words)) == words
  {
    if |words| == 1 {
      FieldsWord(words[0]);
    } else if words != [] {
      FieldsOfJoin(words[1..]);
      FieldsCons(words[0], JoinWords(words[1..]));
    }
  }

  lemma {:induction false} PartsAreWords(s: string, n: nat)
    ensures forall i | 0 <= i < n && i < |SplitN(s, n)| :: SplitN(s, n)[i] != "" && NoSpace(SplitN(s, n)[i])
    decreases |s|
  {
    var t := LStrip(s);
    if t != "" && n > 0 {
      PartsAreWords(t[|Word(t)|..], n - 1);
    }
  }

  /** A schedule and a command are read back as they were given, the schedule's whitespace normalised, exactly
      when the schedule has five fields, or is a single nickname. */
  lemma {:induction false} JobLineRoundTrip(schedule: string, command: string)
    requires schedule != "" && Strip(schedule) == schedule && command != "" && Strip(command) == command
    ensures JobLine(schedule + " " + command) == Some((JoinWords(Fields(schedule)), command))
            <==> |Fields(schedule)| == if schedule[0] == '@' then 1 else 5
  {
    StripEnds(schedule);
    StripEnds(command);
    var line, n := schedule + " " + command, if schedule[0] == '@' then 1 else 5;
    StartsLike(schedule, " " + command);
    assert line == schedule + (" " + command);
    assert ScheduleWords(line) == n;
    hide SplitN, Fields, LStrip, Strip, ScheduleWords, JobLine, JoinWords, IsSpace;
    var words := Fields(schedule);
    FieldsAreWords(schedule);
    if |words| == n {
      SplitThen(schedule, " " + command, n);
      CommandPart(command);
      JobLineOf(line, n, words, command);
    } else if JobLine(line) == Some((JoinWords(words), command)) {
      JobLineParts(line, n);
      PartsAreWords(line, n);
      FieldsOfJoin(SplitN(line, n)[..n]);
      FieldsOfJoin(words);
    }
  }

  lemma {:induction false} JobLineOf(line: string, n: nat, words: seq<string>, command: string)
    requires ScheduleWords(line) == n == |words| && SplitN(line, n) == words + [command]
    ensures JobLine(line) == Some((JoinWords(words), command))
  {
    hide SplitN, ScheduleWords, JoinWords;
    assert (words + [command])[..n] == words;
  }

  lemma {:induction false} JobLineParts(line: string, n: nat)
    requires ScheduleWords(line) == n && JobLine(line).Some?
    ensures |SplitN(line, n)| == n + 1 && JobLine(line).value.0 == JoinWords(SplitN(line, n)[..n])
  {
    hide SplitN, ScheduleWords, JoinWords;
  }

  lemma {:induction false} StartsLike(s: string, rest: string)
    requires s != "" && !IsSpace(s[0])
    ensures LStrip(s + rest) == s + rest && (s + rest)[0] == s[0]
  {
  }

  lemma {:induction false} CommandPart(command: string)
    requires command != "" && !IsSpace(command[0])
    ensures SplitN(" " + command, 0) == [command]
  {
    LStripSpace(command);
    SplitNOfLStrip(" " + command, command, 0);
    assert LStrip(command) == command;
  }

  lemma {:induction false} LStripSpace(s: string)
    requires s != "" && !IsSpace(s[0])
    ensures LStrip(" " + s) == s
  {
    assert (" " + s)[1..] == s;
    assert LStrip(s) == s;
  }

  lemma {:induction false} MarkerRoundTrip(id: string, name: string)
    requires IsId(id) && Strip(name) == name
    ensures Marker(MarkerLine(id, name)) == Some((id, name))
  {
    hide LStrip, Strip, IsId, IsSpace, ParseMarker;
    var head, tag := "boron:id=", "label=" + name;
    var rest, t := " " + tag, head + id + (" " + tag);
    assert IsId(id) ==> |id| == 36 by { IdLength(id); }
    assert MarkerLine(id, name) == "#" + (" " + t);
    MarkerStripped(id, name);
    Slices("#", " " + t, "");
    assert "#" + (" " + t) == "#" + (" " + t) + "";
    Letters();
    LStripSpace(t);
    LStripSpace(tag);
    Slices(head, id, rest);
    Slices("label=", name, "");
    assert tag == "label=" + name + "" && t == head + id + rest;
    MarkerParsed("#" + (" " + t), t, id, rest, tag, name);
  }

  lemma {:induction false} MarkerParsed(s: string, t: string, id: string, rest: string, tag: string, name: string)
    requires s != "" && s[0] == '#' && LStrip(s[1..]) == t && "boron:id=" <= t && |t| >= 45 && IsId(t[9..45])
    requires t[9..45] == id && t[45..] == rest != "" && LStrip(rest) == tag && |tag| < |rest|
    requires "label=" <= tag && tag[6..] == name
    ensures ParseMarker(s) == Some((id, name))
  {
    hide LStrip, IsId;
  }

  lemma {:induction false} Slices(a: string, b: string, c: string)
    ensures var s := a + b + c;
            a <= s && s[|a|..|a| + |b|] == b && s[|a| + |b|..] == c && s[|a|..] == b + c && (c == "" ==> s[|a|..] == b)
  {
  }

  lemma {:induction false} IdLength(id: string)
    requires IsId(id)
    ensures |id| == 36
  {
  }

  lemma {:induction false} Letters()
    ensures !IsSpace('b') && !IsSpace('l') && !IsSpace('#') && !IsSpace('=')
  {
  }

  lemma {:induction false} MarkerStripped(id: string, name: string)
    requires Strip(name) == name
    ensures Strip(MarkerLine(id, name)) == MarkerLine(id, name)
  {
    var line := MarkerLine(id, name);
    if name != "" {
      StripEnds(name);
      assert line[|line| - 1] == name[|name| - 1];
    }
    StripFixed(line);
  }

  // Editing the table is editing the list.

  function IsJob(lines: seq<string>, j: Job): bool {
    |lines| == 2 && Marker(lines[0]) == Some((j.id, j.name)) && Marker(lines[1]).None?
    && JobLine(lines[1]) == Some((j.schedule, j.command))
  }

  lemma {:induction false} PairThen(pair: seq<string>, j: Job, rest: seq<string>)
    requires IsJob(pair, j)
    ensures Parse(pair + rest) == [j] + Parse(rest) && Others(pair + rest) == Others(rest)
    ensures WellFormed(rest) ==> WellFormed(pair + rest)
  {
    assert (pair + rest)[2..] == rest;
  }

  /** On a table in which every marker has its job line an update replaces and a delete removes exactly the jobs of
      that id in the parsed list, though the edit scanner steps line by line, and all other lines stay as they are
      and in order. */
  lemma {:induction false} EditRefines(lines: seq<string>, id: string, lines': seq<string>, j: Job)
    requires WellFormed(lines) && j.id == id && (lines' == [] || IsJob(lines', j))
    ensures var after := Edit(lines, id, lines');
            WellFormed(after) && Parse(after) == Replaced(Parse(lines), id, if lines' == [] then [] else [j])
            && Others(after) == Others(lines)
    ensures Finds(lines, id) <==> exists i :: 0 <= i < |Parse(lines)| && Parse(lines)[i].id == id
    decreases |lines|
  {
    hide Marker, JobLine;
    if lines != [] {
      if Marker(lines[0]).Some? {
        EditRefines(lines[2..], id, lines', j);
        EditPairStep(lines, id, lines', j);
      } else {
        EditRefines(lines[1..], id, lines', j);
        assert Edit(lines, id, lines')[1..] == Edit(lines[1..], id, lines');
      }
    }
  }

  /** A job's two lines come out as the new ones, or as they are; the second one is no marker to the scanner. */
  lemma {:induction false} EditPairStep(lines: seq<string>, id: string, lines': seq<string>, j: Job)
    requires WellFormed(lines) && lines != [] && Marker(lines[0]).Some? && j.id == id
    requires lines' == [] || IsJob(lines', j)
    requires var after := Edit(lines[2..], id, lines');
             WellFormed(after) && Parse(after) == Replaced(Parse(lines[2..]), id, if lines' == [] then [] else [j])
             && Others(after) == Others(lines[2..])
    requires Finds(lines[2..], id) <==> exists i :: 0 <= i < |Parse(lines[2..])| && Parse(lines[2..])[i].id == id
    ensures var after := Edit(lines, id, lines');
            WellFormed(after) && Parse(after) == Replaced(Parse(lines), id, if lines' == [] then [] else [j])
            && Others(after) == Others(lines)
    ensures Finds(lines, id) <==> exists i :: 0 <= i < |Parse(lines)| && Parse(lines)[i].id == id
  {
    var first := PairJob(lines);
    EditOfPair(lines, id, lines');
    hide Marker, JobLine, Edit, Finds, Parse, Others, WellFormed;
    var rest := Edit(lines[2..], id, lines');
    assert lines == lines[..2] + lines[2..];
    PairThen(lines[..2], first, lines[2..]);
    FoundIn([first], Parse(lines[2..]), id);
    if first.id == id {
      if lines' != [] {
        PairThen(lines', j, rest);
      } else {
        assert lines' + rest == rest;
      }
    } else {
      PairThen(lines[..2], first, rest);
    }
  }

  /** The job that a well-formed table starting with a marker starts with. */
  ghost function PairJob(lines: seq<string>): (j: Job)
    requires WellFormed(lines) && lines != [] && Marker(lines[0]).Some?
    ensures IsJob(lines[..2], j)
  {
    Job(Marker(lines[0]).value.0, Marker(lines[0]).value.1, JobLine(lines[1]).value.0, JobLine(lines[1]).value.1)
  }

  lemma {:induction false} EditOfPair(lines: seq<string>, id: string, lines': seq<string>)
    requires WellFormed(lines) && lines != [] && Marker(lines[0]).Some?
    ensures Edit(lines, id, lines')
            == (if PairJob(lines).id == id then lines' else lines[..2]) + Edit(lines[2..], id, lines')
    ensures Finds(lines, id) <==> PairJob(lines).id == id || Finds(lines[2..], id)
    ensures WellFormed(lines[2..])
  {
    hide Marker, JobLine;
    assert lines[1..][1..] == lines[2..] && lines[1..][0] == lines[1];
    if PairJob(lines).id != id {
      assert Edit(lines, id, lines') == [lines[0]] + ([lines[1]] + Edit(lines[2..], id, lines'));
    }
  }

  lemma {:induction false} FoundIn(first: seq<Job>, rest: seq<Job>, id: string)
    requires |first| == 1
    ensures (exists i :: 0 <= i < |first + rest| && (first + rest)[i].id == id)
            <==> first[0].id == id || exists i :: 0 <= i < |rest| && rest[i].id == id
  {
    if i :| 0 <= i < |rest| && rest[i].id == id {
      assert (first + rest)[i + 1].id == id;
    }
    if first[0].id == id {
      assert (first + rest)[0].id == id;
    }
  }

  lemma {:induction false} AddRefines(lines: seq<string>, pair: seq<string>, j: Job)
    requires WellFormed(lines) && IsJob(pair, j)
    ensures WellFormed(lines + pair) && Parse(lines + pair) == Parse(lines) + [j]
    ensures Others(lines + pair) == Others(lines)
    decreases |lines|
  {
    hide Marker, JobLine;
    if lines == [] {
      PairThen(pair, j, []);
      assert lines + pair == pair && pair + [] == pair;
    } else {
      var n := if Marker(lines[0]).Some? then 2 else 1;
      AddRefines(lines[n..], pair, j);
      assert (lines + pair)[n..] == lines[n..] + pair;
    }
  }

  /** Losing an empty line at the end loses no job. */
  lemma {:induction false} KeptRefines(lines: seq<string>)
    requires WellFormed(lines)
    ensures WellFormed(Kept(lines)) && Parse(Kept(lines)) == Parse(lines)
    ensures Others(lines) == Others(Kept(lines)) + if Kept(lines) == lines then [] else [""]
    decreases |lines|
  {
    if lines != [] && Kept(lines) != lines {
      EmptyLine();
      hide Marker, JobLine;
      if |lines| == 1 {
        assert lines == [""];
      } else {
        var n := if Marker(lines[0]).Some? then 2 else 1;
        if n < |lines| {
          KeptRefines(lines[n..]);
          KeptTail(lines, n);
          hide Kept;
        }
      }
    }
  }

  lemma {:induction false} KeptTail(lines: seq<string>, n: nat)
    requires n < |lines|
    ensures Kept(lines)[n..] == Kept(lines[n..]) && Kept(lines)[..n] == lines[..n] && |Kept(lines)| >= |lines| - 1
  {
    var m := |lines| - 1;
    assert lines[n..][m - n] == lines[m];
    assert lines[..m][n..] == lines[n..m] == lines[n..][..m - n];
  }

  lemma {:induction false} EmptyLine()
    ensures Marker("").None? && JobLine("").None?
  {
  }

  /** What installing a well-formed table without stray breaks gives when it is read again. */
  lemma {:induction false} InstalledRefines(lines: seq<string>)
    requires WellFormed(lines) && AllClean(lines)
    ensures var after := SplitLines(Content(lines));
            WellFormed(after) && Parse(after) == Parse(lines)
            && Others(lines) == Others(after) + if after == lines then [] else [""]
  {
    RereadExactly(lines);
    KeptRefines(lines);
  }

  // Where the two scanners disagree.

  ghost predicate Known(jobs: seq<Job>, id: string) { exists j :: j in jobs && j.id == id }

  /** The parser looks at line `k` as a possible marker: it does not skip it as the line below one. */
  predicate Visited(lines: seq<string>, k: nat) {
    k == 0 || (lines != [] && (if Marker(lines[0]).Some? && |lines| > 1 then k >= 2 && Visited(lines[2..], k - 2)
                               else Visited(lines[1..], k - 1)))
  }

  /** A marker of `id` that has a line below it: what the edit scanner looks for. */
  predicate MarkerAt(lines: seq<string>, i: nat, id: string) {
    i + 1 < |lines| && Marker(lines[i]).Some? && Marker(lines[i]).value.0 == id
  }

  /** The parser visits the marker and finds a job line below it. */
  predicate JobAt(lines: seq<string>, k: nat, id: string) {
    MarkerAt(lines, k, id) && Visited(lines, k) && JobLine(lines[k + 1]).Some?
  }

  /** Every marker with a line below it heads a job, or has the id of one that does. */
  ghost predicate Covered(lines: seq<string>) {
    forall i | 0 <= i < |lines| - 1 && Marker(lines[i]).Some? ::
      exists k: nat :: JobAt(lines, k, Marker(lines[i]).value.0)
  }

  lemma {:induction false} FindsAt(lines: seq<string>, id: string)
    ensures Finds(lines, id) <==> exists i: nat :: MarkerAt(lines, i, id)
  {
    hide Marker;
    if lines != [] {
      FindsAt(lines[1..], id);
      if MarkerAt(lines, 0, id) {
      } else if i: nat :| MarkerAt(lines, i, id) {
        assert MarkerAt(lines[1..], i - 1, id);
      }
      if i: nat :| MarkerAt(lines[1..], i, id) {
        assert MarkerAt(lines, i + 1, id);
      }
    }
  }

  lemma {:induction false} KnownAt(lines: seq<string>, id: string)
    ensures Known(Parse(lines), id) <==> exists k: nat :: JobAt(lines, k, id)
    decreases |lines|
  {
    hide Marker, JobLine, Known, JobAt;
    if lines == [] {
      assert !Known(Parse([]), id) by { NobodyKnown(id); }
      if k: nat :| JobAt(lines, k, id) {
        JobIsInside(lines, k, id);
      }
    } else {
      hide Parse;
      var n := if Marker(lines[0]).Some? && |lines| > 1 then 2 else 1;
      KnownAt(lines[n..], id);
      KnownStep(lines, n, id);
      forall k: nat ensures JobAt(lines, k + n, id) <==> JobAt(lines[n..], k, id) {
        JobAtStep(lines, n, k, id);
      }
      if k: nat :| JobAt(lines, k, id) && k != 0 {
        JobIsInside(lines, k, id);
        JobAtStep(lines, n, k - n, id);
        assert JobAt(lines[n..], k - n, id);
      }
      if k: nat :| JobAt(lines[n..], k, id) {
        assert JobAt(lines, k + n, id);
      }
    }
  }

  /** A job's marker is on a visited line, with a line below it. */
  lemma {:induction false} JobIsInside(lines: seq<string>, k: nat, id: string)
    requires JobAt(lines, k, id)
    ensures k < |lines| - 1
    ensures k == 0 || k >= (if Marker(lines[0]).Some? && |lines| > 1 then 2 else 1)
  {
    hide Marker, JobLine;
  }

  lemma {:induction false} JobAtStep(lines: seq<string>, n: nat, k: nat, id: string)
    requires lines != [] && n == if Marker(lines[0]).Some? && |lines| > 1 then 2 else 1
    ensures JobAt(lines, k + n, id) <==> JobAt(lines[n..], k, id)
  {
    hide Marker, JobLine;
  }

  lemma {:induction false} NobodyKnown(id: string)
    ensures !Known(Parse([]), id)
  {
  }

  lemma {:induction false} KnownStep(lines: seq<string>, n: nat, id: string)
    requires lines != [] && n == if Marker(lines[0]).Some? && |lines| > 1 then 2 else 1
    ensures Known(Parse(lines), id) <==> JobAt(lines, 0, id) || Known(Parse(lines[n..]), id)
  {
    hide Marker, JobLine;
    if JobAt(lines, 0, id) {
      assert Parse(lines)[0] in Parse(lines);
    }
    forall j | j in Parse(lines[n..]) ensures j in Parse(lines) {
    }
  }

  lemma {:induction false} CoveredAgrees(lines: seq<string>, id: string)
    requires Covered(lines)
    ensures Finds(lines, id) <==> Known(Parse(lines), id)
  {
    hide Finds, Parse, Visited;
    FindsAt(lines, id);
    KnownAt(lines, id);
    if i: nat :| MarkerAt(lines, i, id) {
      assert exists k: nat :: JobAt(lines, k, Marker(lines[i]).value.0);
    }
    if k: nat :| JobAt(lines, k, id) {
      assert MarkerAt(lines, k, id);
    }
  }

  lemma {:induction false} AgreeingIsCovered(lines: seq<string>, i: nat)
    requires i < |lines| - 1 && Marker(lines[i]).Some?
    requires Finds(lines, Marker(lines[i]).value.0) ==> Known(Parse(lines), Marker(lines[i]).value.0)
    ensures exists k: nat :: JobAt(lines, k, Marker(lines[i]).value.0)
  {
    hide Finds, Parse, Visited;
    var id := Marker(lines[i]).value.0;
    FindsAt(lines, id);
    KnownAt(lines, id);
    assert MarkerAt(lines, i, id);
  }

  /** Whatever the id, the edit scanner finds it exactly when the list has it. */
  ghost predicate Agree(lines: seq<string>) { forall id :: Finds(lines, id) <==> Known(Parse(lines), id) }

  /** The scanners agree exactly when every marker with a line below it heads a job of the list or has the id of one
      that does. */
  lemma {:induction false} ScannersAgree(lines: seq<string>)
    ensures Agree(lines) <==> Covered(lines)
  {
    hide Marker, Finds, Parse, Known, JobAt;
    if Agree(lines) {
      forall i | 0 <= i < |lines| - 1 && Marker(lines[i]).Some?
        ensures exists k: nat :: JobAt(lines, k, Marker(lines[i]).value.0) {
        AgreeingIsCovered(lines, i);
      }
    } else {
      var id :| !(Finds(lines, id) <==> Known(Parse(lines), id));
      if Covered(lines) {
        CoveredAgrees(lines, id);
      }
    }
  }

  /** A first input on which they disagree: a marker whose line below is no job line is found, and no job. */
  lemma {:induction false} BarrenMarkerCounterexample(a: string, line: string)
    requires IsId(a) && JobLine(line).None?
    ensures var lines := [MarkerLine(a, ""), line];
            Finds(lines, a) && Parse(lines) == [] && !Covered(lines)
  {
    MarkerRoundTrip(a, "");
    var lines := [MarkerLine(a, ""), line];
    hide Marker, JobLine, MarkerLine, IsId, Covered;
    assert lines[2..] == [];
    assert Parse(lines) == [];
    ScannersAgree(lines);
    assert Finds(lines, a) && !Known([], a);
  }

  /** A second: after two markers in a row, the job below the second one is found by its id but is not in the list. */
  lemma {:induction false} AdjacentMarkersCounterexample(a: string, b: string, line: string)
    requires IsId(a) && IsId(b) && Marker(line).None?
    ensures var lines := [MarkerLine(a, ""), MarkerLine(b, ""), line];
            Finds(lines, b) && Parse(lines) == [] && !Covered(lines)
  {
    hide Marker, JobLine, MarkerLine, IsId, Covered;
    MarkerRoundTrip(a, "");
    MarkerRoundTrip(b, "");
    var m := MarkerLine(b, "");
    var lines := [MarkerLine(a, ""), m, line];
    assert lines[1..][0] == m && lines[1..][1..] == [line];
    MarkerIsNoJob(b);
    LastLine(line);
    TwoThen(MarkerLine(a, ""), m, [line]);
    assert lines == [MarkerLine(a, ""), m] + [line] && Parse(lines) == [];
    ScannersAgree(lines);
    assert Finds(lines, b) && !Known([], b);
  }

  lemma {:induction false} LastLine(line: string)
    ensures Parse([line]) == []
  {
    assert [line][1..] == [];
  }

  lemma {:induction false} MarkerIsNoJob(id: string)
    requires IsId(id)
    ensures JobLine(MarkerLine(id, "")).None?
  {
    hide IsSpace, IsId, JobLine, NoSpace;
    var two, one := "boron:id=" + id, "label=";
    MarkerWords(id);
    FewWords("#", two, one);
    assert MarkerLine(id, "") == "#" + " " + (two + " " + one);
  }

  lemma {:induction false} MarkerWords(id: string)
    requires IsId(id)
    ensures NoSpace("#") && NoSpace("boron:id=" + id) && NoSpace("label=")
  {
    assert NoSpace("boron:id=") && NoSpace(id);
  }

  lemma {:induction false} FewWords(a: string, b: string, c: string)
    requires a != "" && NoSpace(a) && b != "" && NoSpace(b) && c != "" && NoSpace(c) && a[0] != '@'
    ensures JobLine(a + " " + (b + " " + c)).None?
  {
    hide NoSpace, IsSpace;
    var line := a + " " + (b + " " + c);
    SplitNCons(a, b + " " + c, 5);
    SplitNCons(b, c, 4);
    assert c + "" == c;
    SplitNWord(c, "", 3);
    assert SplitN("", 2) == [];
    WordAtStart(a, " " + (b + " " + c));
    assert line == a + (" " + (b + " " + c));
    assert LStrip(line) == line && line[0] == a[0];
  }

  // Which tables can be edited as their list.

  /** Every marker that the parser visits with a line below it has a job line there, and if that line is a marker too,
      with a line below, it has the same id. */
  predicate Paired(lines: seq<string>) {
    if lines == [] then true
    else if Marker(lines[0]).Some? && |lines| > 1 then
      JobLine(lines[1]).Some? && (SecondMarker(lines) ==> Marker(lines[1]).value.0 == Marker(lines[0]).value.0)
      && Paired(lines[2..])
    else Paired(lines[1..])
  }

  /** The second line is a marker to the edit scanner. */
  predicate SecondMarker(lines: seq<string>) { |lines| > 2 && Marker(lines[1]).Some? }

  /** The parser ends on a marker with no line below it. */
  predicate OpenEnd(lines: seq<string>) {
    if lines == [] then false
    else if Marker(lines[0]).Some? then |lines| == 1 || OpenEnd(lines[2..])
    else OpenEnd(lines[1..])
  }

  /** The jobs of a marker and the line below it. */
  function Two(marker: string, line: string): seq<Job>
    requires Marker(marker).Some?
  {
    match JobLine(line)
    case Some(pair) => [Job(Marker(marker).value.0, Marker(marker).value.1, pair.0, pair.1)]
    case None => []
  }

  lemma {:induction false} TwoThen(marker: string, line: string, rest: seq<string>)
    requires Marker(marker).Some?
    ensures Parse([marker, line] + rest) == Two(marker, line) + Parse(rest)
    ensures Others([marker, line] + rest) == Others(rest)
  {
    hide Marker, JobLine;
    assert ([marker, line] + rest)[2..] == rest;
  }

  /** The edit passes over two lines of which neither is a marker of the id to it. */
  lemma {:induction false} PassedOver(lines: seq<string>, id: string, lines': seq<string>)
    requires |lines| > 1 && Marker(lines[0]).Some? && Marker(lines[0]).value.0 != id
    requires SecondMarker(lines) ==> Marker(lines[1]).value.0 != id
    ensures Edit(lines, id, lines') == [lines[0], lines[1]] + Edit(lines[2..], id, lines')
  {
    hide Marker;
    assert lines[1..][0] == lines[1] && lines[1..][1..] == lines[2..];
    var rest := Edit(lines[2..], id, lines');
    assert Edit(lines[1..], id, lines') == [lines[1]] + rest;
    assert [lines[0]] + ([lines[1]] + rest) == [lines[0], lines[1]] + rest;
  }

  lemma {:induction false} Matched(lines: seq<string>, id: string, lines': seq<string>)
    requires |lines| > 1 && Marker(lines[0]).Some? && Marker(lines[0]).value.0 == id
    ensures Edit(lines, id, lines') == lines' + Edit(lines[2..], id, lines')
  {
  }

  /** A marker in front of one of the id takes the new marker for its job line. */
  lemma {:induction false} Taken(lines: seq<string>, id: string, pair: seq<string>)
    requires SecondMarker(lines) && Marker(lines[1]).value.0 == id && |pair| == 2
    requires Marker(lines[0]).Some? && Marker(lines[0]).value.0 != id
    ensures Edit(lines, id, pair) == [lines[0], pair[0]] + ([pair[1]] + Edit(lines[3..], id, pair))
  {
    hide Marker;
    assert lines[1..][0] == lines[1] && lines[1..][2..] == lines[3..];
    var rest := Edit(lines[3..], id, pair);
    assert Edit(lines[1..], id, pair) == pair + rest && pair == [pair[0], pair[1]];
    assert [lines[0]] + (pair + rest) == [lines[0], pair[0]] + ([pair[1]] + rest);
  }

  lemma {:induction false} OneThen(line: string, rest: seq<string>)
    requires Marker(line).None? || rest == []
    ensures Parse([line] + rest) == Parse(rest) && Others([line] + rest) == [line] + Others(rest)
  {
    hide Marker, JobLine;
    assert ([line] + rest)[1..] == rest;
  }

  /** Updates and deletions of a paired table are those of the list. */
  lemma {:induction false} PairedRefines(lines: seq<string>, id: string, lines': seq<string>, j: Job)
    requires Paired(lines) && j.id == id && (lines' == [] || IsJob(lines', j))
    ensures var after := Edit(lines, id, lines');
            Parse(after) == Replaced(Parse(lines), id, if lines' == [] then [] else [j])
            && Others(after) == Others(lines)
    decreases |lines|
  {
    hide Marker, JobLine;
    if lines != [] {
      if Marker(lines[0]).Some? && |lines| > 1 {
        PairedRefines(lines[2..], id, lines', j);
        PairedStep(lines, id, lines', j);
      } else {
        PairedRefines(lines[1..], id, lines', j);
        OneThen(lines[0], Edit(lines[1..], id, lines'));
        OneThen(lines[0], lines[1..]);
        assert lines == [lines[0]] + lines[1..];
      }
    }
  }

  lemma {:induction false} PairedStep(lines: seq<string>, id: string, lines': seq<string>, j: Job)
    requires |lines| > 1 && Marker(lines[0]).Some? && Paired(lines) && j.id == id && (lines' == [] || IsJob(lines', j))
    requires var after := Edit(lines[2..], id, lines');
             Parse(after) == Replaced(Parse(lines[2..]), id, if lines' == [] then [] else [j])
             && Others(after) == Others(lines[2..])
    ensures var after := Edit(lines, id, lines');
            Parse(after) == Replaced(Parse(lines), id, if lines' == [] then [] else [j])
            && Others(after) == Others(lines)
  {
    hide Marker, JobLine, Parse, Others, Edit, Replaced, IsJob;
    var rest := Edit(lines[2..], id, lines');
    var first := Two(lines[0], lines[1])[0];
    var jobs' := if lines' == [] then [] else [j];
    assert Two(lines[0], lines[1]) == [first] && first.id == Marker(lines[0]).value.0;
    assert SecondMarker(lines) ==> Marker(lines[1]).value.0 == first.id;
    hide Paired, Two, SecondMarker;
    assert Parse(lines) == [first] + Parse(lines[2..]) && Others(lines) == Others(lines[2..]) by {
      assert lines == [lines[0], lines[1]] + lines[2..];
      TwoThen(lines[0], lines[1], lines[2..]);
    }
    ReplacedFirst(first, Parse(lines[2..]), id, jobs');
    if first.id == id {
      Matched(lines, id, lines');
      Inserted(lines', j, rest);
    } else {
      PassedOver(lines, id, lines');
      TwoThen(lines[0], lines[1], rest);
    }
  }

  lemma {:induction false} Inserted(lines': seq<string>, j: Job, rest: seq<string>)
    requires lines' == [] || IsJob(lines', j)
    ensures Parse(lines' + rest) == (if lines' == [] then [] else [j]) + Parse(rest)
    ensures Others(lines' + rest) == Others(rest)
  {
    hide IsJob, Parse, Others;
    if lines' == [] {
      assert lines' + rest == rest && [] + Parse(rest) == Parse(rest);
    } else {
      PairThen(lines', j, rest);
    }
  }

  lemma {:induction false} ReplacedFirst(j: Job, jobs: seq<Job>, id: string, jobs': seq<Job>)
    ensures Replaced([j] + jobs, id, jobs') == (if j.id == id then jobs' else [j]) + Replaced(jobs, id, jobs')
  {
    assert ([j] + jobs)[1..] == jobs;
  }

  lemma {:induction false} KeptPaired(lines: seq<string>)
    requires Paired(lines)
    ensures Parse(Kept(lines)) == Parse(lines)
    ensures Others(lines) == Others(Kept(lines)) + if Kept(lines) == lines then [] else [""]
    decreases |lines|
  {
    if lines != [] && Kept(lines) != lines {
      EmptyLine();
      hide Marker, JobLine;
      if |lines| == 1 {
        assert lines == [""];
      } else {
        var n := if Marker(lines[0]).Some? then 2 else 1;
        if n < |lines| {
          KeptPaired(lines[n..]);
          KeptTail(lines, n);
          hide Kept;
        }
      }
    }
  }

  /** What is read back after an update or a deletion of a paired table. */
  lemma {:induction false} RewrittenPaired(text: string, id: string, lines': seq<string>, j: Job)
    requires Paired(SplitLines(text)) && j.id == id && (lines' == [] || IsJob(lines', j)) && AllClean(lines')
    ensures var lines := SplitLines(text);
            var after := SplitLines(Content(Edit(lines, id, lines')));
            OthersKept(lines, after) && Parse(after) == Replaced(Parse(lines), id, if lines' == [] then [] else [j])
  {
    hide SplitLines, Parse, Others, Paired, Edit, Content;
    var lines := SplitLines(text);
    SplitLinesAreClean(text);
    PairedRefines(lines, id, lines', j);
    EditIsClean(lines, id, lines');
    RereadExactly(Edit(lines, id, lines'));
    PairedStays(lines, id, lines', j);
    KeptPaired(Edit(lines, id, lines'));
  }

  /** A paired table stays one. */
  lemma {:induction false} PairedStays(lines: seq<string>, id: string, lines': seq<string>, j: Job)
    requires Paired(lines) && j.id == id && (lines' == [] || IsJob(lines', j))
    ensures Paired(Edit(lines, id, lines'))
    decreases |lines|
  {
    hide Marker, JobLine;
    if lines != [] {
      if Marker(lines[0]).Some? && |lines| > 1 {
        var rest := Edit(lines[2..], id, lines');
        PairedStays(lines[2..], id, lines', j);
        if Marker(lines[0]).value.0 == id {
          Matched(lines, id, lines');
          if lines' != [] {
            PairedPair(lines'[0], lines'[1], rest);
            assert lines' == [lines'[0], lines'[1]];
          } else {
            assert lines' + rest == rest;
          }
        } else {
          PassedOver(lines, id, lines');
          EditGrows(lines[2..], id, lines');
          PairedPair(lines[0], lines[1], rest);
        }
      } else {
        PairedStays(lines[1..], id, lines', j);
        assert Edit(lines, id, lines')[1..] == Edit(lines[1..], id, lines');
      }
    }
  }

  lemma {:induction false} PairedPair(marker: string, line: string, rest: seq<string>)
    requires Marker(marker).Some? && JobLine(line).Some? && Paired(rest)
    requires rest != [] && Marker(line).Some? ==> Marker(line).value.0 == Marker(marker).value.0
    ensures Paired([marker, line] + rest)
  {
    hide Marker, JobLine;
    assert ([marker, line] + rest)[2..] == rest;
  }

  lemma {:induction false} EditGrows(lines: seq<string>, id: string, lines': seq<string>)
    ensures Edit(lines, id, lines') != [] ==> lines != []
  {
  }

  /** In a paired table the edit scanner finds exactly the jobs of the list. */
  lemma {:induction false} PairedIsCovered(lines: seq<string>)
    requires Paired(lines)
    ensures Covered(lines)
  {
    hide Marker, JobLine, Finds, Parse, Paired, Covered;
    forall id ensures Finds(lines, id) <==> Known(Parse(lines), id) {
      FindsInPaired(lines, id);
    }
    ScannersAgree(lines);
  }

  lemma {:induction false} FindsInPaired(lines: seq<string>, id: string)
    requires Paired(lines)
    ensures Finds(lines, id) <==> Known(Parse(lines), id)
    decreases |lines|
  {
    hide Marker, JobLine;
    if lines != [] {
      var n := if Marker(lines[0]).Some? && |lines| > 1 then 2 else 1;
      FindsInPaired(lines[n..], id);
      hide Parse, Known;
      KnownStep(lines, n, id);
      if n == 2 {
        assert lines[1..][0] == lines[1] && lines[1..][1..] == lines[2..];
      }
    }
  }

  /** A table in which every marker has its job line is paired and closed, though not the only kind: a marker alone on
      the last line does no harm to edits. */
  lemma {:induction false} WellFormedIsPaired(lines: seq<string>)
    requires WellFormed(lines)
    ensures Paired(lines) && !OpenEnd(lines)
    decreases |lines|
  {
    hide Marker, JobLine;
    if lines != [] {
      WellFormedIsPaired(lines[if Marker(lines[0]).Some? then 2 else 1..]);
    }
  }

  ghost predicate UpdatesFaithful(lines: seq<string>) {
    forall pair: seq<string>, j: Job | IsJob(pair, j) ::
      Parse(Edit(lines, j.id, pair)) == Replaced(Parse(lines), j.id, [j])
  }

  ghost predicate AdditionsFaithful(lines: seq<string>) {
    forall pair: seq<string>, j: Job | IsJob(pair, j) :: Parse(lines + pair) == Parse(lines) + [j]
  }

  /** Every update of a table is that update of its list if and only if the table is paired. */
  lemma {:induction false} UpdatesExactly(lines: seq<string>)
    ensures UpdatesFaithful(lines) <==> Paired(lines)
  {
    hide Parse, Edit, Replaced, Paired;
    if Paired(lines) {
      forall pair: seq<string>, j: Job | IsJob(pair, j)
        ensures Parse(Edit(lines, j.id, pair)) == Replaced(Parse(lines), j.id, [j]) {
        PairedRefines(lines, j.id, pair, j);
      }
    } else {
      var n := Longest(lines);
      var id := Betrayed(lines, n);
      var pair, j := LoudPair(id, n);
      BetrayalShows(lines, id, pair, j, n);
    }
  }

  /** Every addition to a table is that addition to its list if and only if the table does not end on a marker. */
  lemma {:induction false} AdditionsExactly(lines: seq<string>)
    ensures AdditionsFaithful(lines) <==> !OpenEnd(lines)
  {
    hide Parse, OpenEnd;
    if OpenEnd(lines) {
      var pair, j := LoudPair(SomeId(), 1);
      OpenEndTakes(lines, pair, j);
    } else {
      forall pair: seq<string>, j: Job | IsJob(pair, j) ensures Parse(lines + pair) == Parse(lines) + [j] {
        AddedToClosed(lines, pair, j);
      }
    }
  }

  function SomeId(): (id: string)
    ensures IsId(id)
  {
    seq(36, _ => '0')
  }

  lemma {:induction false} AddedToClosed(lines: seq<string>, pair: seq<string>, j: Job)
    requires !OpenEnd(lines) && IsJob(pair, j)
    ensures Parse(lines + pair) == Parse(lines) + [j]
    decreases |lines|
  {
    hide Marker, JobLine;
    if lines == [] {
      PairThen(pair, j, []);
      assert lines + pair == pair && pair + [] == pair;
    } else {
      var n := if Marker(lines[0]).Some? then 2 else 1;
      AddedToClosed(lines[n..], pair, j);
      assert (lines + pair)[n..] == lines[n..] + pair;
    }
  }

  lemma {:induction false} OpenEndTakes(lines: seq<string>, pair: seq<string>, j: Job)
    requires OpenEnd(lines) && IsJob(pair, j) && JobLine(pair[0]).Some? && |JobLine(pair[0]).value.1| != |j.command|
    ensures Parse(lines + pair) != Parse(lines) + [j]
    decreases |lines|
  {
    hide Marker, JobLine;
    if |lines| == 1 && Marker(lines[0]).Some? {
      TwoThen(lines[0], pair[0], [pair[1]]);
      assert lines + pair == [lines[0], pair[0]] + [pair[1]];
      OneThen(pair[1], []);
      assert [pair[1]] + [] == [pair[1]] && Parse(lines) == [];
      assert Parse(lines + pair)[0].command != j.command;
    } else {
      var n := if Marker(lines[0]).Some? then 2 else 1;
      OpenEndTakes(lines[n..], pair, j);
      assert (lines + pair)[n..] == lines[n..] + pair;
      var first := if n == 2 then Two(lines[0], lines[1]) else [];
      assert Parse(lines) == first + Parse(lines[n..]) && Parse(lines + pair) == first + Parse(lines[n..] + pair);
      SamePrefix(first, Parse(lines[n..] + pair), Parse(lines[n..]) + [j]);
      assert (first + Parse(lines[n..])) + [j] == first + (Parse(lines[n..]) + [j]);
    }
  }

  lemma {:induction false} SamePrefix(a: seq<Job>, b: seq<Job>, c: seq<Job>)
    requires b != c
    ensures a + b != a + c
  {
    assert (a + b)[|a|..] == b && (a + c)[|a|..] == c;
  }

  /** No line is longer. */
  function Longest(lines: seq<string>): (n: nat)
    ensures forall l | l in lines :: |l| <= n
  {
    if lines == [] then 0
    else if |lines[0]| > Longest(lines[1..]) then |lines[0]| else Longest(lines[1..])
  }

  ghost function Count(jobs: seq<Job>, id: string): nat {
    if jobs == [] then 0 else (if jobs[0].id == id then 1 else 0) + Count(jobs[1..], id)
  }

  /** Some job of another id has a command longer than `n`. */
  ghost predicate Loud(jobs: seq<Job>, id: string, n: nat) { exists j :: j in jobs && j.id != id && |j.command| > n }

  /** Replacing the jobs of `id` in the table by some job whose marker line reads as a job line of more than `n`
      characters: one of another id shows it, or there are more jobs of `id` than before. */
  ghost predicate Betrays(lines: seq<string>, id: string, n: nat) {
    forall pair: seq<string>, j: Job | IsLoud(pair, j, n) && j.id == id ::
      Loud(Parse(Edit(lines, id, pair)), id, n) || Count(Parse(Edit(lines, id, pair)), id) > Count(Parse(lines), id)
  }

  ghost predicate IsLoud(pair: seq<string>, j: Job, n: nat) {
    IsJob(pair, j) && JobLine(pair[0]).Some? && |JobLine(pair[0]).value.1| > n
  }

  lemma {:induction false} CountOne(j: Job, id: string)
    ensures Count([j], id) == if j.id == id then 1 else 0
  {
  }

  lemma {:induction false} CountJoin(a: seq<Job>, b: seq<Job>, id: string)
    ensures Count(a + b, id) == Count(a, id) + Count(b, id)
  {
    if a == [] {
      assert a + b == b;
    } else {
      CountJoin(a[1..], b, id);
      assert (a + b)[1..] == a[1..] + b;
    }
  }

  lemma {:induction false} CountReplaced(jobs: seq<Job>, id: string, j: Job)
    requires j.id == id
    ensures Count(Replaced(jobs, id, [j]), id) == Count(jobs, id)
  {
    if jobs != [] {
      CountReplaced(jobs[1..], id, j);
      CountJoin(if jobs[0].id == id then [j] else [jobs[0]], Replaced(jobs[1..], id, [j]), id);
    }
  }

  lemma {:induction false} FromReplaced(jobs: seq<Job>, id: string, j: Job, x: Job)
    requires x in Replaced(jobs, id, [j])
    ensures x == j || x in jobs
  {
    if jobs != [] {
      if x in Replaced(jobs[1..], id, [j]) {
        FromReplaced(jobs[1..], id, j, x);
      }
    }
  }

  lemma {:induction false} LoudJoin(a: seq<Job>, b: seq<Job>, id: string, n: nat)
    ensures Loud(b, id, n) ==> Loud(a + b, id, n)
    ensures Loud(a, id, n) ==> Loud(a + b, id, n)
  {
    if j :| j in b && j.id != id && |j.command| > n {
      assert j in a + b;
    }
    if j :| j in a && j.id != id && |j.command| > n {
      assert j in a + b;
    }
  }

  /** What betrays the edit shows that it is not that of the list. */
  lemma {:induction false} BetrayalShows(lines: seq<string>, id: string, pair: seq<string>, j: Job, n: nat)
    requires Betrays(lines, id, n) && IsLoud(pair, j, n) && j.id == id && forall l | l in lines :: |l| <= n
    ensures Parse(Edit(lines, id, pair)) != Replaced(Parse(lines), id, [j])
  {
    hide Parse, Edit, Replaced, Count;
    var after := Replaced(Parse(lines), id, [j]);
    CountReplaced(Parse(lines), id, j);
    if Loud(after, id, n) {
      var x :| x in after && x.id != id && |x.command| > n;
      FromReplaced(Parse(lines), id, j, x);
      CommandsFit(lines, n, x);
    }
  }

  lemma {:induction false} CommandsFit(lines: seq<string>, n: nat, x: Job)
    requires (forall l | l in lines :: |l| <= n) && x in Parse(lines)
    ensures |x.command| <= n
    decreases |lines|
  {
    hide Marker, JobLine;
    var m := if Marker(lines[0]).Some? && |lines| > 1 then 2 else 1;
    if x in Parse(lines[m..]) {
      CommandsFit(lines[m..], n, x);
    } else {
      assert lines[1] in lines;
      CommandFits(lines[1]);
    }
  }

  lemma {:induction false} CommandFits(line: string)
    ensures JobLine(line).Some? ==> |JobLine(line).value.1| <= |line|
  {
    PartsFit(line, ScheduleWords(line));
  }

  lemma {:induction false} PartsFit(s: string, n: nat)
    ensures forall i | 0 <= i < |SplitN(s, n)| :: |SplitN(s, n)[i]| <= |s|
    decreases |s|
  {
    var t := LStrip(s);
    if t != "" && n > 0 {
      PartsFit(t[|Word(t)|..], n - 1);
    }
  }

  /** Without misalignment no job of `id` is lost. */
  lemma {:induction false} NoneLost(lines: seq<string>, id: string, pair: seq<string>, j: Job, n: nat)
    requires IsLoud(pair, j, n) && j.id == id
    ensures var after := Parse(Edit(lines, id, pair));
            Loud(after, id, n) || Count(after, id) >= Count(Parse(lines), id)
    decreases |lines|
  {
    hide Marker, JobLine, Loud;
    if lines != [] {
      if Marker(lines[0]).Some? && |lines| > 1 {
        var rest := Edit(lines[2..], id, pair);
        NoneLost(lines[2..], id, pair, j, n);
        assert lines == [lines[0], lines[1]] + lines[2..];
        TwoThen(lines[0], lines[1], lines[2..]);
        CountJoin(Two(lines[0], lines[1]), Parse(lines[2..]), id);
        if Marker(lines[0]).value.0 == id {
          PairThen(pair, j, rest);
          LoudJoin([j], Parse(rest), id, n);
        } else if SecondMarker(lines) && Marker(lines[1]).value.0 == id {
          TakenIsLoud(lines, id, pair, j, n);
        } else {
          PassedOver(lines, id, pair);
          TwoThen(lines[0], lines[1], rest);
          CountJoin(Two(lines[0], lines[1]), Parse(rest), id);
          LoudJoin(Two(lines[0], lines[1]), Parse(rest), id, n);
        }
      } else {
        NoneLost(lines[1..], id, pair, j, n);
        OneThen(lines[0], Edit(lines[1..], id, pair));
        OneThen(lines[0], lines[1..]);
        assert lines == [lines[0]] + lines[1..];
      }
    }
  }

  lemma {:induction false} TakenIsLoud(lines: seq<string>, id: string, pair: seq<string>, j: Job, n: nat)
    requires SecondMarker(lines) && Marker(lines[1]).value.0 == id && IsLoud(pair, j, n)
    requires Marker(lines[0]).Some? && Marker(lines[0]).value.0 != id
    ensures Loud(Parse(Edit(lines, id, pair)), id, n)
  {
    hide Marker, JobLine, Parse, Edit;
    Taken(lines, id, pair);
    var rest := [pair[1]] + Edit(lines[3..], id, pair);
    TwoThen(lines[0], pair[0], rest);
    var first := Two(lines[0], pair[0]);
    assert first[0] in first;
    LoudJoin(first, Parse(rest), id, n);
  }

  /** A table that is not paired has an id whose updates betray it. */
  lemma {:induction false} Betrayed(lines: seq<string>, n: nat) returns (id: string)
    requires !Paired(lines)
    ensures IsId(id) && Betrays(lines, id, n)
    decreases |lines|
  {
    hide JobLine, Loud;
    if Marker(lines[0]).Some? && |lines| > 1 {
      hide Marker;
      MarkerId(lines[0]);
      if SecondMarker(lines) && Marker(lines[1]).value.0 != Marker(lines[0]).value.0 {
        MarkerId(lines[1]);
        id := Marker(lines[1]).value.0;
        forall pair: seq<string>, j: Job | IsLoud(pair, j, n) && j.id == id
          ensures Loud(Parse(Edit(lines, id, pair)), id, n) {
          TakenIsLoud(lines, id, pair, j, n);
        }
      } else if JobLine(lines[1]).None? {
        id := Marker(lines[0]).value.0;
        forall pair: seq<string>, j: Job | IsLoud(pair, j, n) && j.id == id
          ensures Loud(Parse(Edit(lines, id, pair)), id, n)
                  || Count(Parse(Edit(lines, id, pair)), id) > Count(Parse(lines), id) {
          BarrenBetrays(lines, id, pair, j, n);
        }
      } else {
        id := Betrayed(lines[2..], n);
        forall pair: seq<string>, j: Job | IsLoud(pair, j, n) && j.id == id
          ensures Loud(Parse(Edit(lines, id, pair)), id, n)
                  || Count(Parse(Edit(lines, id, pair)), id) > Count(Parse(lines), id) {
          BetrayedLater(lines, id, pair, j, n);
        }
      }
    } else {
      id := Betrayed(lines[1..], n);
      hide Marker;
      assert lines == [lines[0]] + lines[1..];
      OneThen(lines[0], lines[1..]);
      forall pair: seq<string>, j: Job | IsLoud(pair, j, n) && j.id == id
        ensures Parse(Edit(lines, id, pair)) == Parse(Edit(lines[1..], id, pair)) {
        OneThen(lines[0], Edit(lines[1..], id, pair));
      }
    }
  }

  lemma {:induction false} BarrenBetrays(lines: seq<string>, id: string, pair: seq<string>, j: Job, n: nat)
    requires |lines| > 1 && Marker(lines[0]).Some? && Marker(lines[0]).value.0 == id && JobLine(lines[1]).None?
    requires IsLoud(pair, j, n) && j.id == id
    ensures var after := Parse(Edit(lines, id, pair));
            Loud(after, id, n) || Count(after, id) > Count(Parse(lines), id)
  {
    hide Marker, JobLine, Loud, Parse;
    var rest := Edit(lines[2..], id, pair);
    assert lines == [lines[0], lines[1]] + lines[2..];
    TwoThen(lines[0], lines[1], lines[2..]);
    assert [] + Parse(lines[2..]) == Parse(lines[2..]);
    NoneLost(lines[2..], id, pair, j, n);
    PairThen(pair, j, rest);
    LoudJoin([j], Parse(rest), id, n);
    CountJoin([j], Parse(rest), id);
  }

  lemma {:induction false} BetrayedLater(lines: seq<string>, id: string, pair: seq<string>, j: Job, n: nat)
    requires |lines| > 1 && Marker(lines[0]).Some? && JobLine(lines[1]).Some?
    requires SecondMarker(lines) ==> Marker(lines[1]).value.0 == Marker(lines[0]).value.0
    requires IsJob(pair, j) && j.id == id
    requires var after := Parse(Edit(lines[2..], id, pair));
             Loud(after, id, n) || Count(after, id) > Count(Parse(lines[2..]), id)
    ensures var after := Parse(Edit(lines, id, pair));
            Loud(after, id, n) || Count(after, id) > Count(Parse(lines), id)
  {
    hide Loud, Parse, Edit, Count, IsJob, Marker, JobLine;
    var first := Two(lines[0], lines[1]);
    var rest := Edit(lines[2..], id, pair);
    CountOne(first[0], id);
    CountOne(j, id);
    assert lines == [lines[0], lines[1]] + lines[2..];
    TwoThen(lines[0], lines[1], lines[2..]);
    if first[0].id == id {
      Matched(lines, id, pair);
      PairThen(pair, j, rest);
      Lifted([j], first, Parse(rest), Parse(lines[2..]), id, n);
    } else {
      PassedOver(lines, id, pair);
      TwoThen(lines[0], lines[1], rest);
      Lifted(first, first, Parse(rest), Parse(lines[2..]), id, n);
    }
  }

  lemma {:induction false} Lifted(front: seq<Job>, was: seq<Job>, after: seq<Job>, before: seq<Job>, id: string, n: nat)
    requires Count(front, id) == Count(was, id) && (Loud(after, id, n) || Count(after, id) > Count(before, id))
    ensures Loud(front + after, id, n) || Count(front + after, id) > Count(was + before, id)
  {
    hide Loud, Count;
    LoudJoin(front, after, id, n);
    CountJoin(front, after, id);
    CountJoin(was, before, id);
  }

  lemma {:induction false} MarkerId(line: string)
    requires Marker(line).Some?
    ensures IsId(Marker(line).value.0)
  {
  }

  /** A job with a label of words, so that its marker line reads as a job line too. */
  lemma {:induction false} LoudPair(id: string, n: nat) returns (pair: seq<string>, j: Job)
    requires IsId(id)
    ensures IsLoud(pair, j, n) && j.id == id && |j.command| == 1
  {
    var tail := Noise(n + 2);
    hide Marker, JobLine, MarkerLine, Strip, IsId, IsSpace, NoSpace;
    TailStripped(tail);
    var title := "a b c " + tail;
    pair, j := [MarkerLine(id, title), "@daily x"], Job(id, title, "@daily", "x");
    MarkerRoundTrip(id, title);
    DailyJob();
    LongMarker(id, tail);
  }

  function Noise(n: nat): (s: string)
    ensures |s| == n && forall i | 0 <= i < n :: s[i] == 'z'
  {
    seq(n, _ => 'z')
  }

  lemma {:induction false} TailStripped(tail: string)
    requires tail != "" && forall i | 0 <= i < |tail| :: tail[i] == 'z'
    ensures Strip("a b c " + tail) == "a b c " + tail && NoSpace(tail)
  {
    var title := "a b c " + tail;
    assert title[|title| - 1] == tail[|tail| - 1];
    StripFixed(title);
  }

  lemma {:induction false} DailyJob()
    ensures Marker("@daily x").None? && JobLine("@daily x") == Some(("@daily", "x"))
  {
    var s, c := "@daily", "x";
    assert NoSpace(s);
    FieldsWord(s);
    StripFixed(s);
    StripFixed(c);
    JobLineRoundTrip(s, c);
    HashStart(s + " " + c);
    assert s + " " + c == "@daily x";
  }

  lemma {:induction false} LongMarker(id: string, tail: string)
    requires IsId(id) && tail != "" && NoSpace(tail)
    ensures JobLine(MarkerLine(id, "a b c " + tail)).Some? && JobLine(MarkerLine(id, "a b c " + tail)).value.1 == tail
  {
    hide IsSpace, IsId, NoSpace, JobLine;
    MarkerWords(id);
    SmallWords();
    SixWords("#", "boron:id=" + id, "label=a", "b", "c", tail);
    assert MarkerLine(id, "a b c " + tail)
           == "#" + " " + (("boron:id=" + id) + " " + ("label=a" + " " + ("b" + " " + ("c" + " " + tail))));
  }

  lemma {:induction false} SmallWords()
    ensures NoSpace("label=a") && NoSpace("b") && NoSpace("c")
  {
  }

  lemma {:induction false} SixWords(a: string, b: string, c: string, d: string, e: string, f: string)
    requires a != "" && NoSpace(a) && b != "" && NoSpace(b) && c != "" && NoSpace(c) && a[0] != '@'
    requires d != "" && NoSpace(d) && e != "" && NoSpace(e) && f != "" && NoSpace(f)
    ensures var line := a + " " + (b + " " + (c + " " + (d + " " + (e + " " + f))));
            JobLine(line).Some? && JobLine(line).value.1 == f
  {
    hide NoSpace, IsSpace, SplitN, LStrip, Word, JoinWords;
    var rest := b + " " + (c + " " + (d + " " + (e + " " + f)));
    SplitNCons(e, f, 1);
    SplitNCons(d, e + " " + f, 2);
    SplitNCons(c, d + " " + (e + " " + f), 3);
    SplitNCons(b, c + " " + (d + " " + (e + " " + f)), 4);
    SplitNCons(a, rest, 5);
    LastWord(f);
    WordAtStart(a, " " + rest);
    assert a + " " + rest == a + (" " + rest);
  }

  lemma {:induction false} LastWord(f: string)
    requires f != "" && NoSpace(f)
    ensures SplitN(f, 0) == [f]
  {
  }

  lemma {:induction false} WordAtStart(w: string, rest: string)
    requires w != "" && NoSpace(w)
    ensures LStrip(w + rest) == w + rest
  {
  }

  // The MAILTO setting.

  /** The value of a MAILTO line. */
  function MailtoValue(line: string): Option<string> {
    var s := Strip(line);
    if !("MAILTO" <= s) then None
    else
      var t := LStrip(s[6..]);
      if t == "" || t[0] != '=' then None else Some(LStrip(t[1..]))
  }

  /** The setting's name, an equals sign and the value, whitespace around the sign. */
  ghost predicate MailtoText(s: string, v: string, i: nat, j: nat) {
    6 <= i < j <= |s| && s[..6] == "MAILTO" && White(s[6..i]) && s[i] == '=' && White(s[i + 1..j]) && s[j..] == v
    && (v == "" || !IsSpace(v[0]))
  }

  /** A line sets MAILTO exactly when, stripped, it has that form. */
  lemma {:induction false} MailtoExactly(line: string, v: string)
    ensures MailtoValue(line) == Some(v) <==> exists i: nat, j: nat :: MailtoText(Strip(line), v, i, j)
  {
    hide MailtoText, MailtoValue;
    if MailtoValue(line) == Some(v) {
      MailtoFound(line, v);
    }
    if i: nat, j: nat :| MailtoText(Strip(line), v, i, j) {
      MailtoTaken(line, v, i, j);
    }
  }

  lemma {:induction false} MailtoFound(line: string, v: string)
    requires MailtoValue(line) == Some(v)
    ensures exists i: nat, j: nat :: MailtoText(Strip(line), v, i, j)
  {
    hide IsSpace, LStrip, RStrip, White, Strip;
    var s := Strip(line);
    var n := LStripAt(s[6..]);
    var i := 6 + n;
    var t := s[i..];
    assert s[6..][n..] == t && s[6..][..n] == s[6..i];
    var m := LStripAt(t[1..]);
    var j := i + 1 + m;
    assert t[1..][m..] == s[j..] && t[1..][..m] == s[i + 1..j];
    assert "MAILTO" == s[..6];
    assert MailtoText(s, v, i, j);
  }

  lemma {:induction false} MailtoTaken(line: string, v: string, i: nat, j: nat)
    requires MailtoText(Strip(line), v, i, j)
    ensures MailtoValue(line) == Some(v)
  {
    hide LStrip, RStrip, Strip;
    var s := Strip(line);
    assert s[6..][..i - 6] == s[6..i] && s[6..][i - 6..] == s[i..];
    LStripTo(s[6..], i - 6);
    var t := s[i..];
    assert t[1..][..j - i - 1] == s[i + 1..j] && t[1..][j - i - 1..] == s[j..];
    LStripTo(t[1..], j - i - 1);
  }

  function WithoutMailto(lines: seq<string>): seq<string> {
    if lines == [] then [] else (if MailtoValue(lines[0]).Some? then [] else [lines[0]]) + WithoutMailto(lines[1..])
  }

  /** The value that holds: the first line's. */
  function Mailto(lines: seq<string>): string {
    if lines == [] then "" else if MailtoValue(lines[0]).Some? then MailtoValue(lines[0]).value else Mailto(lines[1..])
  }

  /** No job line reads as a MAILTO setting. */
  predicate JobsAreNoMailto(lines: seq<string>) {
    if lines == [] then true
    else if Marker(lines[0]).Some? && |lines| > 1 then MailtoValue(lines[1]).None? && JobsAreNoMailto(lines[2..])
    else JobsAreNoMailto(lines[1..])
  }

  lemma {:induction false} MarkerIsNoMailto(line: string)
    requires Marker(line).Some?
    ensures MailtoValue(line).None?
  {
  }

  lemma {:induction false} MailtoRemoved(lines: seq<string>)
    requires WellFormed(lines) && JobsAreNoMailto(lines)
    ensures var after := WithoutMailto(lines);
            WellFormed(after) && Parse(after) == Parse(lines) && Others(after) == WithoutMailto(Others(lines))
            && Mailto(after) == ""
    decreases |lines|
  {
    if lines != [] {
      if Marker(lines[0]).Some? {
        MarkerIsNoMailto(lines[0]);
        hide Marker, JobLine, MailtoValue;
        MailtoRemoved(lines[2..]);
        assert lines == lines[..2] + lines[2..];
        PairWithoutMailto(lines[..2], lines[2..]);
      } else {
        hide Marker, JobLine, MailtoValue;
        MailtoRemoved(lines[1..]);
        if MailtoValue(lines[0]).None? {
          assert WithoutMailto(lines)[1..] == WithoutMailto(lines[1..]);
        } else {
          assert WithoutMailto(lines) == WithoutMailto(lines[1..]);
        }
        assert Others(lines)[1..] == Others(lines[1..]);
      }
    }
  }

  lemma {:induction false} PairWithoutMailto(pair: seq<string>, rest: seq<string>)
    requires |pair| == 2 && Marker(pair[0]).Some? && Marker(pair[1]).None? && JobLine(pair[1]).Some?
    requires MailtoValue(pair[0]).None? && MailtoValue(pair[1]).None?
    ensures WithoutMailto(pair + rest) == pair + WithoutMailto(rest) && Mailto(pair + rest) == Mailto(rest)
    ensures Parse(pair + WithoutMailto(rest))[1..] == Parse(WithoutMailto(rest))
    ensures Parse(pair + rest)[1..] == Parse(rest)
    ensures Parse(pair + WithoutMailto(rest))[0] == Parse(pair + rest)[0]
    ensures Others(pair + WithoutMailto(rest)) == Others(WithoutMailto(rest)) && Others(pair + rest) == Others(rest)
    ensures WellFormed(WithoutMailto(rest)) ==> WellFormed(pair + WithoutMailto(rest))
    ensures Mailto(pair + WithoutMailto(rest)) == Mailto(WithoutMailto(rest))
  {
    hide Marker, JobLine, MailtoValue;
    var j := Job(Marker(pair[0]).value.0, Marker(pair[0]).value.1, JobLine(pair[1]).value.0, JobLine(pair[1]).value.1);
    PairThen(pair, j, rest);
    PairThen(pair, j, WithoutMailto(rest));
    forall tail: seq<string> ensures (pair + tail)[1..][0] == pair[1] && (pair + tail)[1..][1..] == tail {
    }
  }

  lemma {:induction false} MailtoLine(address: string)
    requires address != "" && Strip(address) == address
    ensures MailtoValue("MAILTO=" + address) == Some(address) && Marker("MAILTO=" + address).None?
  {
    var line, rest := "MAILTO=" + address, "=" + address;
    StripEnds(address);
    assert line[|line| - 1] == address[|address| - 1];
    StripFixed(line);
    assert line[6..] == rest;
    StripFixed(address);
    assert rest[1..] == address;
    assert LStrip(rest) == rest;
  }

  // The editor.

  /** The words of a schedule, one space between any two. */
  function Normal(schedule: string): string { JoinWords(Fields(schedule)) }

  /** What the validators accept; `valid` is the cron library's judgement of a schedule. */
  predicate Accepts(valid: string -> bool, schedule: string, command: string, name: string) {
    valid(Strip(schedule)) && Strip(command) != "" && |Strip(command)| <= 1000 && |Strip(name)| <= 200
    && '\n' !in Strip(command) && '\r' !in Strip(command) && '\n' !in Strip(name) && '\r' !in Strip(name)
  }

  /** Five fields or one nickname, and none of the rarer characters that split lines. */
  predicate Recoverable(schedule: string, command: string, name: string) {
    var s := Strip(schedule);
    s != "" && |Fields(s)| == (if s[0] == '@' then 1 else 5) && Clean(s) && Clean(Strip(command)) && Clean(Strip(name))
  }

  function Pair(id: string, schedule: string, command: string, name: string): seq<string> {
    [MarkerLine(id, Strip(name)), Strip(schedule) + " " + Strip(command)]
  }

  /** What a request has to satisfy, on its trimmed texts: a schedule the cron library takes, a command of 1 to 1000
      characters and a label of at most 200, both without newlines and carriage returns. */
  ghost predicate Allowed(valid: string -> bool, schedule: string, command: string, name: string) {
    valid(Strip(schedule)) && 1 <= |Strip(command)| <= 1000 && |Strip(name)| <= 200
    && forall c | c in Strip(command) + Strip(name) :: c != '\n' && c != '\r'
  }

  lemma {:induction false} AllowedExactly(valid: string -> bool, schedule: string, command: string, name: string)
    ensures Allowed(valid, schedule, command, name) <==> Accepts(valid, schedule, command, name)
  {
    hide Strip;
    assert forall c :: c in Strip(command) + Strip(name) <==> c in Strip(command) || c in Strip(name);
  }

  /** Its only whitespace is single spaces between words. */
  ghost predicate SingleSpaced(s: string) {
    forall i | 0 <= i < |s| && IsSpace(s[i]) :: s[i] == ' ' && 0 < i < |s| - 1 && !IsSpace(s[i + 1])
  }

  /** A schedule that is spaced as the panel writes it is stored as it is. */
  lemma {:induction false} NormalFixed(s: string)
    requires SingleSpaced(s)
    ensures Normal(s) == s
    decreases |s|
  {
    hide JoinWords, Fields, Word;
    JoinOne(s);
    if s == "" {
      assert Fields("") == [] by { NoFields(); }
    } else {
      var w := Word(s);
      WordIsStart(s);
      assert w != "" by { FirstWord(s); }
      if |w| == |s| {
        assert w == s;
        FieldsWord(s);
      } else {
        var more := s[|w| + 1..];
        assert s[|w|] == ' ' && s == w + " " + more;
        forall i | 0 <= i < |more| && IsSpace(more[i])
          ensures more[i] == ' ' && 0 < i < |more| - 1 && !IsSpace(more[i + 1]) {
          assert more[i] == s[|w| + 1 + i];
        }
        NormalFixed(more);
        FieldsCons(w, more);
        JoinMore(w, Fields(more));
      }
    }
  }

  lemma {:induction false} NoFields()
    ensures Fields("") == []
  {
  }

  lemma {:induction false} FirstWord(s: string)
    requires s != "" && !IsSpace(s[0])
    ensures Word(s) != ""
  {
  }

  lemma {:induction false} WordIsStart(s: string)
    ensures Word(s) == s[..|Word(s)|]
  {
    if s != "" && !IsSpace(s[0]) {
      WordIsStart(s[1..]);
    }
  }

  lemma {:induction false} JoinOne(w: string)
    ensures JoinWords([w]) == w && JoinWords([]) == ""
  {
  }

  lemma {:induction false} JoinMore(w: string, words: seq<string>)
    requires words != []
    ensures JoinWords([w] + words) == w + " " + JoinWords(words)
  {
    assert ([w] + words)[1..] == words;
  }

  lemma {:induction false} StripTwice(s: string)
    ensures Strip(Strip(s)) == Strip(s)
  {
    if Strip(s) != "" {
      StripEnds(s);
      StripFixed(Strip(s));
    }
  }

  lemma {:induction false} HashStart(line: string)
    requires line != "" && !IsSpace(line[0]) && line[0] != '#'
    ensures Marker(line).None?
  {
    assert LStrip(line) == line;
    RStripKeepsFirst(line);
  }

  lemma {:induction false} PairIsJob(valid: string -> bool, id: string, schedule: string, command: string, name: string)
    requires IsId(id) && Accepts(valid, schedule, command, name) && Recoverable(schedule, command, name)
    requires Strip(schedule)[0] != '#'
    ensures IsJob(Pair(id, schedule, command, name), Job(id, Strip(name), Normal(Strip(schedule)), Strip(command)))
    ensures AllClean(Pair(id, schedule, command, name))
  {
    hide Strip, LStrip, IsSpace, IsBreak;
    var s, c := Strip(schedule), Strip(command);
    StripTwice(schedule);
    StripTwice(command);
    StripTwice(name);
    MarkerRoundTrip(id, Strip(name));
    JobLineRoundTrip(s, c);
    StripEnds(schedule);
    HashStart(s + " " + c);
    CleanPair(id, s, c, Strip(name));
  }

  lemma {:induction false} CleanPair(id: string, s: string, c: string, name: string)
    requires IsId(id) && Clean(s) && Clean(c) && Clean(name)
    ensures Clean(MarkerLine(id, name)) && Clean(s + " " + c)
  {
    var a, b := "# boron:id=", " label=";
    assert Clean(a) && Clean(b) && Clean(id) && Clean(" ");
    assert MarkerLine(id, name) == a + id + b + name;
  }

  lemma {:induction false} FoundIsId(lines: seq<string>, id: string)
    requires Finds(lines, id)
    ensures IsId(id)
  {
    if !(Marker(lines[0]).Some? && Marker(lines[0]).value.0 == id && |lines| > 1) {
      FoundIsId(lines[1..], id);
    }
  }

  lemma {:induction false} EditIsClean(lines: seq<string>, id: string, lines': seq<string>)
    requires AllClean(lines) && AllClean(lines')
    ensures AllClean(Edit(lines, id, lines'))
    decreases |lines|
  {
    hide Marker, Clean;
    if lines != [] {
      if Marker(lines[0]).Some? && Marker(lines[0]).value.0 == id && |lines| > 1 {
        EditIsClean(lines[2..], id, lines');
      } else {
        EditIsClean(lines[1..], id, lines');
      }
    }
  }

  method ParseJobs(lines: seq<string>) returns (jobs: seq<Job>)
    ensures jobs == Parse(lines)
  {
    hide Marker, JobLine, Parse;
    jobs := [];
    var i := 0;
    assert lines[0..] == lines;
    while i < |lines|
      invariant i <= |lines| && Parse(lines) == jobs + Parse(lines[i..])
    {
      ParseAt(lines, i);
      var m := Marker(lines[i]);
      if m.Some? && i + 1 < |lines| {
        var pair := JobLine(lines[i + 1]);
        Gather(jobs, Two(lines[i], lines[i + 1]), Parse(lines[i + 2..]));
        if pair.Some? {
          jobs := jobs + [Job(m.value.0, m.value.1, pair.value.0, pair.value.1)];
        }
        i := i + 2;
      } else {
        i := i + 1;
      }
    }
    assert lines[i..] == [];
    NoLines();
  }

  lemma {:induction false} NoLines()
    ensures Parse([]) == []
  {
  }

  lemma {:induction false} ParseAt(lines: seq<string>, i: nat)
    requires i < |lines|
    ensures Parse(lines[i..])
            == if Marker(lines[i]).Some? && i + 1 < |lines| then Two(lines[i], lines[i + 1]) + Parse(lines[i + 2..])
               else Parse(lines[i + 1..])
  {
    hide Marker, JobLine;
    assert lines[i..][0] == lines[i];
    assert lines[i..] == [lines[i]] + lines[i + 1..];
    if Marker(lines[i]).Some? && i + 1 < |lines| {
      assert lines[i..] == [lines[i], lines[i + 1]] + lines[i + 2..];
      TwoThen(lines[i], lines[i + 1], lines[i + 2..]);
    }
  }

  lemma {:induction false} Gather(a: seq<Job>, b: seq<Job>, c: seq<Job>)
    ensures a + (b + c) == (a + b) + c && a + [] == a
  {
  }

  lemma {:induction false} Regroup(a: seq<string>, b: seq<string>, c: seq<string>)
    ensures a + (b + c) == (a + b) + c
  {
  }

  lemma {:induction false} EditAt(lines: seq<string>, id: string, lines': seq<string>, i: nat)
    requires i < |lines|
    ensures var here := Marker(lines[i]).Some? && Marker(lines[i]).value.0 == id && i + 1 < |lines|;
            Edit(lines[i..], id, lines')
            == (if here then lines' + Edit(lines[i + 2..], id, lines')
                else [lines[i]] + Edit(lines[i + 1..], id, lines'))
            && (Finds(lines[i..], id) <==> here || Finds(lines[i + 1..], id))
  {
    hide Marker;
    assert lines[i..][0] == lines[i] && lines[i..][1..] == lines[i + 1..];
    if i + 1 < |lines| {
      assert lines[i..][2..] == lines[i + 2..];
    }
  }

  lemma {:induction false} EditAtEnd(id: string, lines': seq<string>)
    ensures Edit([], id, lines') == [] && !Finds([], id)
  {
  }

  /** The scan of `update_job` and `delete_job`. */
  method EditLines(lines: seq<string>, id: string, lines': seq<string>) returns (found: bool, after: seq<string>)
    ensures after == Edit(lines, id, lines') && found == Finds(lines, id)
  {
    hide Marker, Edit, Finds, MarkerAt;
    after, found := [], false;
    var i := 0;
    assert lines[0..] == lines;
    while i < |lines|
      invariant i <= |lines| && Edit(lines, id, lines') == after + Edit(lines[i..], id, lines')
      invariant Finds(lines, id) == (found || Finds(lines[i..], id))
    {
      EditAt(lines, id, lines', i);
      var m := Marker(lines[i]);
      if m.Some? && m.value.0 == id && i + 1 < |lines| {
        Regroup(after, lines', Edit(lines[i + 2..], id, lines'));
        after, found := after + lines', true;
        i := i + 2;
      } else {
        Regroup(after, [lines[i]], Edit(lines[i + 1..], id, lines'));
        after := after + [lines[i]];
        i := i + 1;
      }
    }
    assert lines[i..] == [];
    EditAtEnd(id, lines');
  }

  /** What the panel asks for. */
  datatype Request = Add(id: string, schedule: string, command: string, name: string)
                   | Update(id: string, schedule: string, command: string, name: string)
                   | Remove(id: string)

  function Stored(r: Request): Job
    requires !r.Remove?
  {
    Job(r.id, Strip(r.name), Normal(Strip(r.schedule)), Strip(r.command))
  }

  /** The same request on the list of jobs. */
  function Step(valid: string -> bool, jobs: seq<Job>, r: Request): seq<Job> {
    if r.Remove? then Replaced(jobs, r.id, [])
    else if !Accepts(valid, r.schedule, r.command, r.name) then jobs
    else if r.Add? then jobs + [Stored(r)]
    else Replaced(jobs, r.id, [Stored(r)])
  }

  function Steps(valid: string -> bool, jobs: seq<Job>, requests: seq<Request>): seq<Job> {
    if requests == [] then jobs
    else Step(valid, Steps(valid, jobs, requests[..|requests| - 1]), requests[|requests| - 1])
  }

  /** What is accepted can be read back. */
  predicate ReadsBack(valid: string -> bool, r: Request) {
    !r.Remove? && Accepts(valid, r.schedule, r.command, r.name) ==> Recoverable(r.schedule, r.command, r.name)
  }

  lemma {:induction false} NotFoundIsNoStep(lines: seq<string>, id: string, jobs': seq<Job>)
    requires WellFormed(lines) && !Finds(lines, id)
    ensures Replaced(Parse(lines), id, jobs') == Parse(lines)
  {
    hide Marker, JobLine, Parse, Finds, WellFormed;
    EditRefines(lines, id, [], Job(id, "", "", ""));
    NothingReplaced(Parse(lines), id, jobs');
  }

  lemma {:induction false} NothingReplaced(jobs: seq<Job>, id: string, jobs': seq<Job>)
    requires forall i | 0 <= i < |jobs| :: jobs[i].id != id
    ensures Replaced(jobs, id, jobs') == jobs
  {
    if jobs != [] {
      NothingReplaced(jobs[1..], id, jobs');
    }
  }

  /** One account's crontab. */
  class Crontab {
    var text: string

    ghost function Table(): seq<string>
      reads this
    {
      SplitLines(text)
    }

    method ListJobs() returns (jobs: seq<Job>)
      ensures jobs == Parse(Table())
    {
      jobs := ParseJobs(SplitLines(text));
    }

    /** `add_job`; the cron library accepts no empty schedule and none that looks like a comment. */
    method AddJob(valid: string -> bool, id: string, schedule: string, command: string, name: string)
      returns (r: Outcome)
      requires IsId(id) && forall s :: valid(s) ==> s != "" && s[0] != '#'
      modifies this
      ensures !r.NotFound? && (r.Edited? <==> Allowed(valid, schedule, command, name))
      ensures r.Invalid? ==> text == old(text)
      ensures r.Edited? ==> text == Content(old(Table()) + Pair(id, schedule, command, name))
      ensures r.Edited? && WellFormed(old(Table())) && Recoverable(schedule, command, name) ==>
                WellFormed(Table()) && Others(Table()) == Others(old(Table()))
                && Parse(Table()) == Parse(old(Table())) + [Stored(Add(id, schedule, command, name))]
    {
      hide Strip, LStrip, Fields, Content, SplitLines, Parse, Others, WellFormed, Allowed;
      AllowedExactly(valid, schedule, command, name);
      if !Accepts(valid, schedule, command, name) {
        return Invalid;
      }
      var lines := SplitLines(text);
      var pair := Pair(id, schedule, command, name);
      text := Content(lines + pair);
      if WellFormed(lines) && Recoverable(schedule, command, name) {
        PairIsJob(valid, id, schedule, command, name);
        SplitLinesAreClean(old(text));
        AddRefines(lines, pair, Job(id, Strip(name), Normal(Strip(schedule)), Strip(command)));
        InstalledRefines(lines + pair);
        RereadExactly(lines + pair);
      }
      return Edited;
    }

    /** `update_job`. */
    method UpdateJob(valid: string -> bool, id: string, schedule: string, command: string, name: string)
      returns (r: Outcome)
      requires forall s :: valid(s) ==> s != "" && s[0] != '#'
      modifies this
      ensures r == if !Allowed(valid, schedule, command, name) then Invalid
                   else if !Finds(old(Table()), id) then NotFound else Edited
      ensures text == if r.Edited? then Content(Edit(old(Table()), id, Pair(id, schedule, command, name)))
                      else old(text)
      ensures r.Edited? && WellFormed(old(Table())) && Recoverable(schedule, command, name) ==>
                WellFormed(Table()) && OthersKept(old(Table()), Table())
                && Parse(Table()) == Replaced(Parse(old(Table())), id, [Stored(Update(id, schedule, command, name))])
      ensures r.Edited? && Paired(old(Table())) && Recoverable(schedule, command, name) ==>
                Parse(Table()) == Replaced(Parse(old(Table())), id, [Stored(Update(id, schedule, command, name))])
    {
      hide Strip, LStrip, Fields, Content, SplitLines, Parse, Others, WellFormed, Edit, Finds, Paired, Allowed;
      AllowedExactly(valid, schedule, command, name);
      if !Accepts(valid, schedule, command, name) {
        return Invalid;
      }
      var lines := SplitLines(text);
      var pair := Pair(id, schedule, command, name);
      var found, after := EditLines(lines, id, pair);
      if !found {
        return NotFound;
      }
      text := Content(after);
      if Recoverable(schedule, command, name) {
        FoundIsId(lines, id);
        PairIsJob(valid, id, schedule, command, name);
        if WellFormed(lines) {
          Rewritten(old(text), id, pair, Job(id, Strip(name), Normal(Strip(schedule)), Strip(command)));
        }
        if Paired(lines) {
          RewrittenPaired(old(text), id, pair, Job(id, Strip(name), Normal(Strip(schedule)), Strip(command)));
        }
      }
      return Edited;
    }

    /** `delete_job`. */
    method DeleteJob(id: string) returns (r: Outcome)
      modifies this
      ensures r == if Finds(old(Table()), id) then Edited else NotFound
      ensures text == if r.Edited? then Content(Edit(old(Table()), id, [])) else old(text)
      ensures r.Edited? && WellFormed(old(Table())) ==>
                WellFormed(Table()) && OthersKept(old(Table()), Table())
                && Parse(Table()) == Replaced(Parse(old(Table())), id, [])
      ensures r.Edited? && Paired(old(Table())) ==> Parse(Table()) == Replaced(Parse(old(Table())), id, [])
    {
      hide SplitLines, Parse, Others, WellFormed, Edit, Finds, Content, Paired;
      var lines := SplitLines(text);
      var found, after := EditLines(lines, id, []);
      if !found {
        return NotFound;
      }
      text := Content(after);
      if WellFormed(lines) {
        Rewritten(old(text), id, [], Job(id, "", "", ""));
      }
      if Paired(lines) {
        RewrittenPaired(old(text), id, [], Job(id, "", "", ""));
      }
      return Edited;
    }

    /** One request of the panel. */
    method Perform(valid: string -> bool, r: Request)
      requires (forall s :: valid(s) ==> s != "" && s[0] != '#') && (r.Add? ==> IsId(r.id))
      modifies this
      ensures WellFormed(old(Table())) && ReadsBack(valid, r) ==>
                WellFormed(Table()) && Parse(Table()) == Step(valid, Parse(old(Table())), r)
    {
      hide SplitLines, Parse, WellFormed, Edit, Finds, Content, Accepts, Recoverable, Others, OthersKept, Replaced;
      hide Allowed;
      if !r.Remove? {
        AllowedExactly(valid, r.schedule, r.command, r.name);
      }
      if WellFormed(Table()) && !r.Add? && !Finds(Table(), r.id) {
        NotFoundIsNoStep(Table(), r.id, if r.Remove? then [] else [Stored(r)]);
      }
      var done;
      match r {
        case Add(id, schedule, command, name) => done := AddJob(valid, id, schedule, command, name);
        case Update(id, schedule, command, name) => done := UpdateJob(valid, id, schedule, command, name);
        case Remove(id) => done := DeleteJob(id);
      }
    }

    /** Over every run of requests on a table in which every marker has its job line, the table is edited and read
        back as the list of jobs would be. */
    method Run(valid: string -> bool, requests: seq<Request>) returns (jobs: seq<Job>)
      requires (forall s :: valid(s) ==> s != "" && s[0] != '#') && forall r | r in requests && r.Add? :: IsId(r.id)
      modifies this
      ensures jobs == Parse(Table())
      ensures WellFormed(old(Table())) && (forall r | r in requests :: ReadsBack(valid, r)) ==>
                WellFormed(Table()) && jobs == Steps(valid, Parse(old(Table())), requests)
    {
      hide SplitLines, Parse, WellFormed, Step, ReadsBack, IsId;
      for i := 0 to |requests|
        invariant WellFormed(old(Table())) && (forall r | r in requests :: ReadsBack(valid, r)) ==>
                    WellFormed(Table()) && Parse(Table()) == Steps(valid, Parse(old(Table())), requests[..i])
      {
        assert requests[i] in requests;
        assert requests[..i + 1][..i] == requests[..i];
        Perform(valid, requests[i]);
      }
      assert requests[..|requests|] == requests;
      jobs := ListJobs();
    }

    /** `set_mailto`, for an address that passed validation: nothing but the MAILTO lines changes. */
    method SetMailto(address: string)
      requires Strip(address) == address && Clean(address)
      modifies this
      ensures text == Content((if address == "" then [] else ["MAILTO=" + address]) + WithoutMailto(old(Table())))
      ensures WellFormed(old(Table())) && JobsAreNoMailto(old(Table())) ==>
                WellFormed(Table()) && Parse(Table()) == Parse(old(Table())) && Mailto(Table()) == address
    {
      hide SplitLines, Parse, Others, WellFormed, Content, Strip, Clean, WithoutMailto, MailtoValue, JobsAreNoMailto;
      hide Mailto;
      var lines := SplitLines(text);
      var after := [];
      var i := 0;
      while i < |lines|
        invariant i <= |lines| && WithoutMailto(lines) == after + WithoutMailto(lines[i..])
      {
        WithoutFirst(lines[i..]);
        assert lines[i..][0] == lines[i] && lines[i..][1..] == lines[i + 1..];
        if MailtoValue(lines[i]).None? {
          after := after + [lines[i]];
        }
        i := i + 1;
      }
      WithoutNone(lines[i..]);
      assert after == WithoutMailto(lines);
      if address != "" {
        after := ["MAILTO=" + address] + after;
      }
      assert after == (if address == "" then [] else ["MAILTO=" + address]) + WithoutMailto(lines);
      text := Content(after);
      if WellFormed(lines) && JobsAreNoMailto(lines) {
        MailtoInstalled(old(text), address, after);
      }
    }
  }

  /** The lines outside jobs stay, in order, but for an empty one at the very end. */
  ghost predicate OthersKept(before: seq<string>, after: seq<string>) {
    Others(before) == Others(after) || Others(before) == Others(after) + [""]
  }

  lemma {:induction false} Rewritten(text: string, id: string, lines': seq<string>, j: Job)
    requires WellFormed(SplitLines(text)) && j.id == id && (lines' == [] || IsJob(lines', j)) && AllClean(lines')
    ensures var lines := SplitLines(text);
            var after := SplitLines(Content(Edit(lines, id, lines')));
            WellFormed(after) && OthersKept(lines, after)
            && Parse(after) == Replaced(Parse(lines), id, if lines' == [] then [] else [j])
  {
    hide SplitLines, Parse, Others, WellFormed, Edit, Content;
    var lines := SplitLines(text);
    SplitLinesAreClean(text);
    EditRefines(lines, id, lines', j);
    EditIsClean(lines, id, lines');
    InstalledRefines(Edit(lines, id, lines'));
  }

  lemma {:induction false} WithoutFirst(lines: seq<string>)
    requires lines != []
    ensures WithoutMailto(lines) == (if MailtoValue(lines[0]).Some? then [] else [lines[0]]) + WithoutMailto(lines[1..])
  {
  }

  lemma {:induction false} WithoutNone(lines: seq<string>)
    requires lines == []
    ensures WithoutMailto(lines) == []
  {
  }

  lemma {:induction false} WithoutIsClean(lines: seq<string>)
    requires AllClean(lines)
    ensures AllClean(WithoutMailto(lines))
  {
    hide MailtoValue, Clean;
    if lines != [] {
      WithoutIsClean(lines[1..]);
    }
  }

  lemma {:induction false} KeptMailto(lines: seq<string>)
    ensures Mailto(Kept(lines)) == Mailto(lines)
  {
    if lines != [] && Kept(lines) != lines {
      if |lines| == 1 {
        assert lines == [""] && MailtoValue("").None?;
      } else {
        KeptMailto(lines[1..]);
        assert Kept(lines)[1..] == Kept(lines[1..]);
      }
    }
  }

  lemma {:induction false} MailtoInstalled(text: string, address: string, after: seq<string>)
    requires WellFormed(SplitLines(text)) && JobsAreNoMailto(SplitLines(text)) && Strip(address) == address
    requires Clean(address)
    requires after == (if address == "" then [] else ["MAILTO=" + address]) + WithoutMailto(SplitLines(text))
    ensures var table := SplitLines(Content(after));
            WellFormed(table) && Parse(table) == Parse(SplitLines(text)) && Mailto(table) == address
  {
    var rest := WithoutMailto(SplitLines(text));
    MailtoRemoved(SplitLines(text));
    SplitLinesAreClean(text);
    WithoutIsClean(SplitLines(text));
    if address != "" {
      MailtoLine(address);
      assert after[0] == "MAILTO=" + address && after[1..] == rest;
      assert Clean("MAILTO=") && Clean(after[0]);
    } else {
      assert after == rest;
    }
    hide SplitLines, Content, WithoutMailto, MailtoValue, Marker, JobLine, Clean;
    InstalledRefines(after);
    RereadExactly(after);
    KeptMailto(after);
  }
}
