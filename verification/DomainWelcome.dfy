/** The new-domain placeholder (daemon/domain_welcome.py): created only where nothing is, and removed by moving it
    into a private directory first, while the tenant who owns the document root does as they please. */
module DomainWelcome {
  import opened Text

  /** A name in the document root, elsewhere in the tenant's reach, or in a private directory of the daemon. */
  datatype Loc = Root(name: string) | Elsewhere(name: string) | In(dir: nat, name: string)

  /** A file as it is now; inode numbers are used again once a file is gone. */
  datatype File = File(inode: nat, regular: bool, content: string)

  /** What the daemon wrote down about a placeholder; its digest stands for the content. */
  datatype Record = Record(inode: nat, content: string)

  /** A step of the tenant: no private name is within reach, and a name is opened afresh to be written. */
  datatype Act = Create(loc: Loc, file: File) | Write(loc: Loc, content: string) | Rename(loc: Loc, to: Loc)
               | Link(loc: Loc, to: Loc) | Unlink(loc: Loc) | RemoveDir(dir: nat)

  /** What happened to the names, step by step: the tenant acted, or the daemon created a file, renamed one,
      unlinked one that matched a record, or made a directory. */
  datatype Step = ByTenant(act: Act) | Place(loc: Loc, file: File) | Move(loc: Loc, to: Loc)
                | Remove(loc: Loc, record: Record) | MakeDir

  datatype Snap = Snap(names: Names, files: Files, serial: nat)

  datatype Entry = Entry(step: Step, after: Snap)

  datatype Event = Ensure(content: string, inode: nat) | Retire(installed: bool) | Tenant(act: Act)

  /** Every file that ever was has its own number here, whatever its inode. */
  type Names = map<Loc, nat>
  type Files = map<nat, File>

  const NAME := "welcome.html"

  function NamesOf(names: Names, f: nat): set<Loc> { set l | l in names && names[l] == f }

  predicate Open(l: Loc) { !l.In? }

  /** Some name is there for the file. */
  ghost predicate Named(names: Names, f: nat) { exists l :: l in names && names[l] == f }

  /** The name is there, and its file has no other. */
  ghost predicate OnlyName(names: Names,
                           l: Loc) { l in names && forall m | m in names && names[m] == names[l] :: m == l }

  lemma {:induction false} NamedExactly(names: Names, f: nat)
    ensures Named(names, f) <==> NamesOf(names, f) != {}
  {
    assert forall l :: l in NamesOf(names, f) <==> l in names && names[l] == f;
  }

  lemma {:induction false} OnlyExactly(names: Names, l: Loc)
    requires l in names
    ensures OnlyName(names, l) <==> NamesOf(names, names[l]) == {l}
  {
    assert forall m :: m in NamesOf(names, names[l]) <==> m in names && names[m] == names[l];
  }

  /** All names of `f`, and it has some, are private. */
  ghost predicate Hidden(names: Names, f: nat) {
    NamesOf(names, f) != {} && forall l | l in NamesOf(names, f) :: l.In?
  }

  /** Private names stay as they are, and so do the files that have no other name. */
  ghost predicate OutOfReach(names: Names, files: Files, after: Names, later: Files) {
    (forall l: Loc | l.In? :: (l in names <==> l in after) && (l in names && l in after ==> names[l] == after[l]))
    && (forall f | f in files && Hidden(names, f) ::
         f in later && later[f] == files[f] && NamesOf(after, f) == NamesOf(names, f))
  }

  /** The names after a step of the tenant. */
  function Acted(names: Names, act: Act, serial: nat): Names {
    match act
    case Create(l, _) => if Open(l) && l !in names then names[l := serial] else names
    case Rename(l, to) =>
      if Open(l) && Open(to) && l in names && !(to in names && names[to] == names[l]) then (names - {l})[to := names[l]]
      else names
    case Link(l, to) => if Open(l) && Open(to) && l in names && to !in names then names[to := names[l]] else names
    case Unlink(l) => if Open(l) then names - {l} else names
    case Write(_, _) => names
    case RemoveDir(_) => names
  }

  /** The files after a step of the tenant. */
  function Stored(names: Names, files: Files, act: Act, serial: nat): Files {
    match act
    case Create(l, file) => if Open(l) && l !in names then files[serial := file] else files
    case Write(l, content) =>
      if Open(l) && l in names && names[l] in files && files[names[l]].regular
      then files[names[l] := files[names[l]].(content := content)] else files
    case _ => files
  }

  /** `_matches`: one name, a regular file, the recorded inode and content. */
  ghost predicate Matching(names: Names, files: Files, l: Loc, r: Record) {
    OnlyName(names, l) && names[l] in files && files[names[l]] == File(r.inode, true, r.content)
  }

  /** The placeholder is where the record says, unchanged and with no other name. */
  ghost predicate Placeholder(names: Names, files: Files, r: Record) {
    Matching(names, files, Root("welcome.html"), r)
  }

  /** A site is there: its first page is a regular file. */
  ghost predicate SiteThere(names: Names, files: Files) {
    exists page :: page in {"index.html", "index.php"} && Root(page) in names && names[Root(page)] in files
                   && files[names[Root(page)]].regular
  }

  lemma {:induction false} SiteExactly(names: Names, files: Files)
    ensures SiteThere(names, files) <==> HasIndex(names, files)
  {
    assert "index.html" in {"index.html", "index.php"} && "index.php" in {"index.html", "index.php"};
  }

  ghost predicate EmptyRoot(names: Names) { forall l | l in names :: !l.Root? }

  /** The file is there now under the placeholder's name, and nothing else changed. */
  ghost predicate Added(names: Names, files: Files, after: Names, later: Files, file: File) {
    exists f: nat :: f !in files && after == names[Root("welcome.html") := f] && later == files[f := file]
  }

  /** What an event does while the tenant leaves the daemon's calls alone and none of them fails: a placeholder goes
      into an empty root, and comes out again once a site is there, if it is as it was put; a changed one is left alone
      and forgotten. */
  ghost predicate QuietStep(event: Event, a: Snap, r: Option<Record>, b: Snap, r': Option<Record>) {
    match event
    case Tenant(act) =>
      r' == r && b.names == Acted(a.names, act, a.serial) && b.files == Stored(a.names, a.files, act, a.serial)
    case Ensure(content, inode) =>
      if EmptyRoot(a.names) then
        r' == Some(Record(inode, content)) && Added(a.names, a.files, b.names, b.files, File(inode, true, content))
      else r' == r && b.names == a.names && b.files == a.files
    case Retire(installed) =>
      b.files == a.files
      && if r == None then r' == None && b.names == a.names
         else if !Placeholder(a.names, a.files, r.value) then r' == None && b.names == a.names
         else if installed || SiteThere(a.names, a.files) then
           r' == None && b.names == a.names - {Root("welcome.html")}
         else r' == r && b.names == a.names
  }

  datatype Moment = Moment(snap: Snap, record: Option<Record>)

  ghost predicate AllQuiet(events: seq<Event>, trace: seq<Moment>) {
    |trace| == |events| + 1
    && forall i | 0 <= i < |events| ::
         QuietStep(events[i], trace[i].snap, trace[i].record, trace[i + 1].snap, trace[i + 1].record)
  }

  /** The name that something set aside gets back: its own, or one that says so. */
  ghost predicate NameBack(n: string) {
    n == "welcome.html" || exists token: string :: n == "welcome-preserved-" + token + ".html"
  }

  predicate HasIndex(names: Names, files: Files) {
    (Root("index.html") in names && names[Root("index.html")] in files && files[names[Root("index.html")]].regular)
    || (Root("index.php") in names && names[Root("index.php")] in files && files[names[Root("index.php")]].regular)
  }

  /** The private names. */
  function Private(names: Names): set<Loc> { set l | l in names && l.In? }

  /** The steps there are. The daemon's never replace a name, and take only the last name of a regular file with
      the inode and the content of a record, once that name is private. */
  ghost predicate Legal(s: Snap, step: Step, t: Snap) {
    match step
    case ByTenant(act) =>
      t == Snap(Acted(s.names, act, s.serial), Stored(s.names, s.files, act, s.serial), s.serial + 1)
    case Place(l, file) =>
      l !in s.names && !l.In? && t == Snap(s.names[l := s.serial], s.files[s.serial := file], s.serial + 1)
    case Move(l, to) => l in s.names && to !in s.names && t == s.(names := (s.names - {l})[to := s.names[l]])
    case Remove(l, r) =>
      l.In? && OnlyName(s.names, l) && s.names[l] in s.files
      && s.files[s.names[l]] == File(r.inode, true, r.content) && t == s.(names := s.names - {l})
    case MakeDir => t == s.(serial := s.serial + 1)
  }

  function Now(history: seq<Entry>): Snap {
    if history == [] then Snap(map[], map[], 0) else history[|history| - 1].after
  }

  ghost predicate Chronicle(history: seq<Entry>) {
    forall i | 0 <= i < |history| :: Legal(Now(history[..i]), history[i].step, history[i].after)
  }

  /** What the tenant did. */
  ghost function ActsOf(history: seq<Entry>): seq<Act> {
    if history == [] then []
    else ActsOf(history[..|history| - 1])
         + match history[|history| - 1].step { case ByTenant(act) => [act] case _ => [] }
  }

  /** The records by which the daemon removed something. */
  ghost function RemovalsOf(history: seq<Entry>): seq<Record> {
    if history == [] then []
    else RemovalsOf(history[..|history| - 1])
         + match history[|history| - 1].step { case Remove(_, r) => [r] case _ => [] }
  }

  /** A step of the tenant took the last name of `f`. */
  ghost predicate TakenByTenant(history: seq<Entry>, f: nat) {
    exists i :: 0 <= i < |history| && TookLast(history, i, f) && history[i].step.ByTenant?
  }

  ghost predicate TookLast(history: seq<Entry>, i: nat, f: nat)
    requires i < |history|
  {
    Named(Now(history[..i]).names, f) && !Named(history[i].after.names, f)
  }

  /** The daemon removed `f`, which had the recorded inode and content then. */
  ghost predicate RemovedAsRecorded(history: seq<Entry>, f: nat) {
    exists i :: 0 <= i < |history| && TookLast(history, i, f) && history[i].step.Remove? && f in Now(history[..i]).files
                && Now(history[..i]).files[f]
                   == File(history[i].step.record.inode, true, history[i].step.record.content)
  }

  ghost predicate Sound(s: Snap) {
    (forall l | l in s.names :: s.names[l] in s.files) && forall f | f in s.files :: f < s.serial
  }

  lemma {:induction false} ChronicleIsSound(history: seq<Entry>)
    requires Chronicle(history)
    ensures Sound(Now(history))
  {
    if history != [] {
      var n := |history| - 1;
      hide Legal, Sound, Chronicle;
      ShorterChronicle(history);
      ChronicleIsSound(history[..n]);
      LegalIsSound(Now(history[..n]), history[n].step, Now(history));
    } else {
      assert Sound(Snap(map[], map[], 0));
    }
  }

  lemma {:induction false} LegalIsSound(s: Snap, step: Step, t: Snap)
    requires Sound(s) && Legal(s, step, t)
    ensures Sound(t)
  {
  }

  lemma {:induction false} ShorterChronicle(history: seq<Entry>)
    requires Chronicle(history) && history != []
    ensures Chronicle(history[..|history| - 1])
    ensures Legal(Now(history[..|history| - 1]), history[|history| - 1].step, Now(history))
  {
    hide Legal;
    var n := |history| - 1;
    forall i | 0 <= i < n ensures Legal(Now(history[..n][..i]), history[..n][i].step, history[..n][i].after) {
      assert history[..n][..i] == history[..i];
    }
  }

  lemma {:induction false} ChronicleMore(history: seq<Entry>, e: Entry)
    requires Chronicle(history) && Legal(Now(history), e.step, e.after)
    ensures Chronicle(history + [e]) && Now(history + [e]) == e.after
    ensures ActsOf(history + [e]) == ActsOf(history) + match e.step { case ByTenant(act) => [act] case _ => [] }
    ensures RemovalsOf(history + [e]) == RemovalsOf(history) + match e.step { case Remove(_, r) => [r] case _ => [] }
  {
    hide Legal;
    var more := history + [e];
    forall i | 0 <= i < |more| ensures Legal(Now(more[..i]), more[i].step, more[i].after) {
      assert more[..i] == if i < |history| then history[..i] else history;
    }
    assert more[..|more| - 1] == history;
  }

  lemma {:induction false} TookLastBefore(history: seq<Entry>, i: nat, f: nat)
    requires i < |history| - 1
    ensures TookLast(history[..|history| - 1], i, f) <==> TookLast(history, i, f)
    ensures Now(history[..|history| - 1][..i]) == Now(history[..i]) && history[..|history| - 1][i] == history[i]
  {
    assert history[..|history| - 1][..i] == history[..i];
  }

  /** A file that no name refers to gets its first name. */
  lemma {:induction false} NewName(names: Names, l: Loc, f: nat)
    requires l !in names && !l.In? && forall m | m in names :: names[m] < f
    ensures Private(names[l := f]) == Private(names) && NamesOf(names[l := f], f) == {l}
  {
  }

  lemma {:induction false} DirLegal(s: Snap)
    ensures Legal(s, Step.MakeDir, s.(serial := s.serial + 1))
  {
  }

  lemma {:induction false} PlacedLegal(s: Snap, l: Loc, file: File)
    requires l !in s.names && !l.In?
    ensures Legal(s, Step.Place(l, file), Snap(s.names[l := s.serial], s.files[s.serial := file], s.serial + 1))
  {
  }

  /** Every file that has no name left lost its last one to a step of the tenant, or was removed by the daemon
      with the recorded inode and content. */
  lemma {:induction false} FateOfFile(history: seq<Entry>, f: nat)
    requires Chronicle(history) && f in Now(history).files && !Named(Now(history).names, f)
    ensures TakenByTenant(history, f) || RemovedAsRecorded(history, f)
  {
    var n := |history| - 1;
    var s, t, step := Now(history[..n]), Now(history), history[n].step;
    ShorterChronicle(history);
    ChronicleIsSound(history[..n]);
    StepTakes(s, step, t, f);
    if f in s.files && !Named(s.names, f) {
      FateOfFile(history[..n], f);
      forall i | 0 <= i < n ensures TookLast(history[..n], i, f) <==> TookLast(history, i, f)
                            ensures Now(history[..n][..i]) == Now(history[..i]) {
        TookLastBefore(history, i, f);
      }
    } else {
      assert TookLast(history, n, f);
    }
  }

  /** Only the tenant's steps and verified removals take a file's last name. */
  lemma {:induction false} StepTakes(s: Snap, step: Step, t: Snap, f: nat)
    requires Sound(s) && Legal(s, step, t) && f in t.files && !Named(t.names, f)
    ensures f in s.files
    ensures Named(s.names, f) ==>
              step.ByTenant? || (step.Remove? && s.files[f] == File(step.record.inode, true, step.record.content))
  {
    assert forall l | l in t.names :: l in NamesOf(t.names, t.names[l]);
    NamedExactly(s.names, f);
    NamedExactly(t.names, f);
    match step
    case ByTenant(act) =>
      assert act.Create? && Open(act.loc) && act.loc !in s.names ==> act.loc in NamesOf(t.names, s.serial);
    case Place(l, _) => assert l in NamesOf(t.names, s.serial) && NamesOf(s.names, f) <= NamesOf(t.names, f);
    case Move(l, to) =>
      assert to in NamesOf(t.names, s.names[l]); assert NamesOf(s.names, f) - {l} <= NamesOf(t.names, f);
    case Remove(l, _) => assert NamesOf(s.names, f) - {l} <= NamesOf(t.names, f);
    case MakeDir =>
  }

  // What the tenant does between two system calls.

  function Flat(gaps: seq<seq<Act>>): seq<Act> {
    if gaps == [] then [] else gaps[0] + Flat(gaps[1..])
  }

  /** From one moment to a later one the tenant did exactly what the gaps used up in between say. */
  ghost predicate Consumed(gaps: seq<seq<Act>>, acts: seq<Act>, rest: seq<seq<Act>>, later: seq<Act>) {
    |rest| <= |gaps| && rest == gaps[|gaps| - |rest|..] && later == acts + Flat(gaps[..|gaps| - |rest|])
  }

  lemma {:induction false} ConsumedNothing(gaps: seq<seq<Act>>, acts: seq<Act>)
    ensures Consumed(gaps, acts, gaps, acts)
  {
    assert acts + Flat(gaps[..0]) == acts;
  }

  lemma {:induction false} ItIsAdded(names: Names, files: Files, after: Names, later: Files, f: nat, file: File)
    requires f !in files && after == names[Root(NAME) := f] && later == files[f := file]
    ensures Added(names, files, after, later, file) && Root("welcome.html") in after
  {
  }

  lemma {:induction false} NoneToConsume(acts: seq<Act>, rest: seq<seq<Act>>, later: seq<Act>)
    requires Consumed([], acts, rest, later)
    ensures rest == []
  {
  }

  lemma {:induction false} ConsumedOne(gaps: seq<seq<Act>>, acts: seq<Act>)
    ensures gaps != [] ==> Consumed(gaps, acts, gaps[1..], acts + gaps[0])
  {
    if gaps != [] {
      assert gaps[..1][0] == gaps[0] && gaps[..1][1..] == [];
    }
  }

  lemma {:induction false} Associates(a: seq<Act>, b: seq<Act>, c: seq<Act>)
    ensures a + (b + c) == (a + b) + c
  {
  }

  lemma {:induction false} FlatFirst(a: seq<seq<Act>>)
    requires a != []
    ensures Flat(a) == a[0] + Flat(a[1..])
  {
  }

  lemma {:induction false} FlatJoin(a: seq<seq<Act>>, b: seq<seq<Act>>)
    ensures Flat(a + b) == Flat(a) + Flat(b)
  {
    if a == [] {
      assert a + b == b;
    } else {
      hide Flat;
      FlatJoin(a[1..], b);
      assert (a + b)[0] == a[0] && (a + b)[1..] == a[1..] + b;
      FlatFirst(a + b);
      FlatFirst(a);
      Associates(a[0], Flat(a[1..]), Flat(b));
    }
  }

  lemma {:induction false} ConsumedTwice(g0: seq<seq<Act>>, a0: seq<Act>, g1: seq<seq<Act>>, a1: seq<Act>,
                                         g2: seq<seq<Act>>, a2: seq<Act>)
    requires Consumed(g0, a0, g1, a1) && Consumed(g1, a1, g2, a2)
    ensures Consumed(g0, a0, g2, a2)
  {
    FlatOfSuffix(g0, g1, g2);
    hide Flat;
    assert (a0 + Flat(g0[..|g0| - |g1|])) + Flat(g1[..|g1| - |g2|])
           == a0 + (Flat(g0[..|g0| - |g1|]) + Flat(g1[..|g1| - |g2|]));
  }

  lemma {:induction false} ActIsOutOfReach(names: Names, files: Files, act: Act, serial: nat)
    requires serial !in files && forall l | l in names :: names[l] in files
    ensures OutOfReach(names, files, Acted(names, act, serial), Stored(names, files, act, serial))
  {
    var after, later := Acted(names, act, serial), Stored(names, files, act, serial);
    forall f | f in files && Hidden(names, f)
      ensures f in later && later[f] == files[f] && NamesOf(after, f) == NamesOf(names, f)
    {
      assert forall l | l in names && Open(l) :: l in NamesOf(names, names[l]) && names[l] != f;
      assert NamesOf(after, f) == NamesOf(names, f);
    }
  }

  /** The tenant's freedom: any name within reach can be made a new file, taken away, moved over any other, given a
      second time, and its file rewritten. */
  lemma {:induction false} TenantCan(names: Names, files: Files, serial: nat, l: Loc, to: Loc, file: File)
    requires !l.In? && !to.In?
    ensures l !in names ==>
              Acted(names, Create(l, file), serial) == names[l := serial]
              && Stored(names, files, Create(l, file), serial) == files[serial := file]
    ensures Acted(names, Unlink(l), serial) == names - {l}
    ensures l in names && (to !in names || names[to] != names[l]) ==>
              Acted(names, Rename(l, to), serial) == (names - {l})[to := names[l]]
    ensures l in names && to !in names ==> Acted(names, Link(l, to), serial) == names[to := names[l]]
    ensures l in names && names[l] in files && files[names[l]].regular ==>
              Stored(names, files, Write(l, file.content), serial)
              == files[names[l] := files[names[l]].(content := file.content)]
  {
    assert Acted(names, Unlink(l), serial) == names - {l};
  }

  lemma {:induction false} ReachTwice(a: Names, fa: Files, b: Names, fb: Files, c: Names, fc: Files)
    requires OutOfReach(a, fa, b, fb) && OutOfReach(b, fb, c, fc)
    ensures OutOfReach(a, fa, c, fc)
  {
    forall f | f in fa && Hidden(a, f) ensures f in fc && fc[f] == fa[f] && NamesOf(c, f) == NamesOf(a, f) {
      assert Hidden(b, f);
    }
  }

  lemma {:induction false} ReachNothing(names: Names, files: Files)
    ensures OutOfReach(names, files, names, files)
  {
  }

  lemma {:induction false} StillThere(names: Names, files: Files, after: Names, later: Files, l: Loc)
    requires OutOfReach(names, files, after, later) && l.In? && OnlyName(names, l) && names[l] in files
    ensures OnlyName(after, l) && after[l] == names[l] && names[l] in later
    ensures later[names[l]] == files[names[l]]
  {
    OnlyExactly(names, l);
    assert Hidden(names, names[l]);
    OnlyExactly(after, l);
  }

  lemma {:induction false} MovedPlaceholder(names: Names, files: Files, r: Record, l: Loc)
    requires Root(NAME) in names && l !in names && l.In?
    ensures var after := (names - {Root(NAME)})[l := names[Root(NAME)]];
            Private(after) == Private(names) + {l}
            && (Placeholder(names, files, r) ==> Matching(after, files, l, r) && after - {l} == names - {Root(NAME)})
  {
  }

  lemma {:induction false} NotPrivate(names: Names, l: Loc, place: string, after: Names)
    requires l.In? && l in names && after == (names - {l})[Root(place) := names[l]]
    ensures Private(after) == Private(names) - {l}
  {
  }

  lemma {:induction false} UnlinkedPrivate(names: Names, l: Loc)
    requires l.In?
    ensures Private(names - {l}) == Private(names) - {l}
  {
  }

  /** A directory with a file in it is there, and its number is taken. */
  ghost predicate Kept(names: Names, dirs: set<nat>, serial: nat) {
    (forall l | l in names && l.In? :: l.dir in dirs) && forall d | d in dirs :: d < serial
  }

  lemma {:induction false} KeptOn(names: Names, dirs: set<nat>, serial: nat, after: Names, later: nat)
    requires Kept(names, dirs, serial) && serial <= later && Private(after) <= Private(names)
    ensures Kept(after, dirs, later)
  {
    assert forall l | l in after && l.In? :: l in Private(after);
  }

  lemma {:induction false} KeptWithout(names: Names, dirs: set<nat>, serial: nat, d: nat)
    requires Kept(names, dirs, serial) && forall l | l in names && l.In? :: l.dir != d
    ensures Kept(names, dirs - {d}, serial)
  {
  }

  lemma {:induction false} SamePrivate(names: Names, act: Act, serial: nat)
    ensures Private(Acted(names, act, serial)) == Private(names)
  {
  }

  lemma {:induction false} PrivateStays(names: Names, files: Files, after: Names, later: Files)
    requires OutOfReach(names, files, after, later)
    ensures Private(after) == Private(names)
    ensures forall l: Loc | l.In? && l in names :: l in after && after[l] == names[l]
  {
  }

  /** At most one private name is new, and then it is the placeholder's in some private directory. */
  ghost predicate OneMore(before: set<Loc>, after: set<Loc>) {
    exists d: nat :: after <= before + {In(d, NAME)}
  }

  /** Some random part makes the name for a preserved upload a free one. */
  lemma {:induction false} TokenExists(names: Names)
    ensures exists token: string :: Root(PreservedName(token)) !in names
  {
    var n := LongestName(names, names.Keys);
    var token := seq(n + 1, i => 'a');
    assert |PreservedName(token)| > n;
  }

  function PreservedName(token: string): string { "welcome-preserved-" + token + ".html" }

  lemma {:induction false} LongestName(names: Names, locs: set<Loc>) returns (n: nat)
    ensures forall l | l in locs :: |l.name| <= n
  {
    n := 0;
    var left := locs;
    while left != {}
      invariant left <= locs && forall l | l in locs && l !in left :: |l.name| <= n
    {
      var l :| l in left;
      left := left - {l};
      n := if |l.name| > n then |l.name| else n;
    }
  }

  class Site {
    var names: Names
    var files: Files
    var dirs: set<nat>
    var serial: nat
    var record: Option<Record>
    /** What the tenant does between the daemon's system calls, which private directory an open of the new
        one's name finds, and which calls fail. */
    var gaps: seq<seq<Act>>
    var found: seq<nat>
    var script: seq<bool>
    /** Every step since the beginning, those of the tenant among them, and the removals. */
    ghost var history: seq<Entry>
    ghost var acts: seq<Act>
    ghost var removals: seq<Record>

    /** The site is what its history of legal steps has made it. */
    ghost predicate Valid()
      reads this`names, this`files, this`dirs, this`serial, this`history, this`acts, this`removals
    {
      Chronicle(history) && Now(history) == Snap(names, files, serial) && acts == ActsOf(history)
      && removals == RemovalsOf(history)
      && Kept(names, dirs, serial)
    }

    constructor ()
      ensures Valid() && names == map[] && files == map[] && history == [] && record == None
    {
      names, files, dirs, serial, record, gaps, found, script := map[], map[], {}, 0, None, [], [], [];
      history, acts, removals := [], [], [];
    }

    ghost function Here(): Moment
      reads this
    {
      Moment(Snap(names, files, serial), record)
    }

    method Call() returns (ok: bool)
      modifies this`script
      ensures false !in old(script) ==> ok && false !in script
    {
      ok := script == [] || script[0];
      script := if script == [] then [] else script[1..];
    }

    lemma {:induction false} NamesAreStored()
      requires Valid()
      ensures forall l | l in names :: names[l] in files && (l.In? ==> l.dir in dirs && l.dir < serial)
      ensures forall f | f in files :: f < serial
    {
      ChronicleIsSound(history);
    }

    /** One step of the tenant. */
    method Perform(act: Act)
      requires Valid()
      modifies this`names, this`files, this`dirs, this`serial, this`history, this`acts, this`removals
      ensures Valid() && OutOfReach(old(names), old(files), names, files) && dirs <= old(dirs)
      ensures acts == old(acts) + [act] && removals == old(removals) && old(history) <= history
      ensures names == Acted(old(names), act, old(serial)) && files == Stored(old(names), old(files), act, old(serial))
      ensures act.RemoveDir? && (forall l | l in old(names) && l.In? :: l.dir != act.dir) ==>
                dirs == old(dirs) - {act.dir}
    {
      hide Chronicle, Kept, OutOfReach, Legal, Acted, Stored, ActsOf, RemovalsOf, Now, Private;
      if act.RemoveDir? {
        RemoveEmpty(act.dir);
      }
      TenantStep(act);
      ghost var after := Snap(Acted(names, act, serial), Stored(names, files, act, serial), serial + 1);
      Chronicled(ByTenant(act), after);
      names, files, serial := Acted(names, act, serial), Stored(names, files, act, serial), serial + 1;
    }

    lemma {:induction false} TenantStep(act: Act)
      requires Valid()
      ensures var after, later := Acted(names, act, serial), Stored(names, files, act, serial);
              OutOfReach(names, files, after, later)
              && Legal(Snap(names, files, serial), ByTenant(act), Snap(after, later, serial + 1))
              && Kept(after, dirs, serial + 1) && Private(after) == Private(names)
    {
      NamesAreStored();
      ActIsOutOfReach(names, files, act, serial);
      SamePrivate(names, act, serial);
      KeptOn(names, dirs, serial, Acted(names, act, serial), serial + 1);
    }

    /** Removing a directory works only while it is empty. */
    method RemoveEmpty(d: nat)
      requires Valid()
      modifies this`dirs
      ensures Valid() && dirs <= old(dirs)
      ensures (forall l | l in names && l.In? :: l.dir != d) ==> dirs == old(dirs) - {d}
    {
      hide Chronicle, ActsOf, RemovalsOf;
      if forall l :: l in names && l.In? ==> l.dir != d {
        KeptWithout(names, dirs, serial, d);
        dirs := dirs - {d};
      }
    }

    /** Write a step that is about to be taken into the history. */
    ghost method Chronicled(step: Step, after: Snap)
      requires Chronicle(history) && Now(history) == Snap(names, files, serial) && Legal(Now(history), step, after)
      requires acts == ActsOf(history) && removals == RemovalsOf(history)
      modifies this`history, this`acts, this`removals
      ensures Chronicle(history) && Now(history) == after && history == old(history) + [Entry(step, after)]
      ensures acts == ActsOf(history) == old(acts) + match step { case ByTenant(act) => [act] case _ => [] }
      ensures removals == RemovalsOf(history) == old(removals) + match step { case Remove(_, r) => [r] case _ => [] }
    {
      ChronicleMore(history, Entry(step, after));
      history := history + [Entry(step, after)];
      acts, removals := ActsOf(history), RemovalsOf(history);
    }

    /** The tenant is busy between two system calls: exactly what the next gap says. */
    method Meanwhile()
      requires Valid()
      modifies this`names, this`files, this`dirs, this`serial, this`history, this`acts, this`removals, this`gaps
      ensures Valid() && OutOfReach(old(names), old(files), names, files) && dirs <= old(dirs)
      ensures Consumed(old(gaps), old(acts), gaps, acts) && removals == old(removals) && old(history) <= history
      ensures old(gaps) == [] ==> names == old(names) && files == old(files) && dirs == old(dirs) && gaps == []
    {
      hide Valid, OutOfReach;
      var todo := if gaps == [] then [] else gaps[0];
      ConsumedNothing(gaps, acts);
      ConsumedOne(gaps, acts);
      gaps := if gaps == [] then [] else gaps[1..];
      ReachNothing(names, files);
      for i := 0 to |todo|
        invariant Valid() && OutOfReach(old(names), old(files), names, files) && dirs <= old(dirs)
        invariant acts == old(acts) + todo[..i] && removals == old(removals) && old(history) <= history
        invariant todo == [] ==> names == old(names) && files == old(files) && dirs == old(dirs)
        invariant gaps == if old(gaps) == [] then [] else old(gaps)[1..]
      {
        ghost var before, stored := names, files;
        Perform(todo[i]);
        ReachTwice(old(names), old(files), before, stored, names, files);
        assert todo[..i + 1] == todo[..i] + [todo[i]];
      }
      assert todo[..|todo|] == todo && old(acts) + [] == old(acts);
    }

    /** `renameat2` without replacing; it can fail although nothing is in the way. */
    method RenameNoReplace(l: Loc, to: Loc) returns (ok: bool)
      requires Valid() && (to.In? ==> to.dir in dirs)
      modifies this`names, this`script, this`history, this`acts, this`removals
      ensures Valid() && acts == old(acts) && removals == old(removals) && old(history) <= history
      ensures ok ==> l in old(names) && to !in old(names)
      ensures names == if ok then (old(names) - {l})[to := old(names)[l]] else old(names)
      ensures false !in old(script) ==> (ok <==> l in old(names) && to !in old(names)) && false !in script
    {
      hide Chronicle, Kept, ActsOf, RemovalsOf;
      ok := Call();
      ok := ok && l in names && to !in names;
      if ok {
        ghost var after := (names - {l})[to := names[l]];
        KeptMoved(names, dirs, serial, l, to);
        Chronicled(Move(l, to), Snap(after, files, serial));
        names := (names - {l})[to := names[l]];
      }
    }

    /** `_matches` at a private name: one link, the recorded inode, and, read after that, the recorded content. */
    method MatchesPrivate(l: Loc, r: Record) returns (ok: bool)
      requires Valid() && l.In?
      modifies this`names, this`files, this`dirs, this`serial, this`history, this`acts, this`removals, this`gaps
      modifies this`script
      ensures Valid() && OutOfReach(old(names), old(files), names, files) && dirs <= old(dirs)
      ensures Consumed(old(gaps), old(acts), gaps, acts) && removals == old(removals) && old(history) <= history
      ensures ok ==> Matching(names, files, l, r)
      ensures false !in old(script) ==> false !in script
      ensures old(gaps) == [] && false !in old(script) ==>
                names == old(names) && files == old(files) && dirs == old(dirs) && gaps == []
                && (ok <==> Matching(names, files, l, r))
    {
      ReachNothing(names, files);
      ConsumedNothing(gaps, acts);
      hide Valid, OutOfReach, Consumed;
      var entered := Call();
      if !entered || l !in names {
        return false;
      }
      var f := names[l];
      NamesAreStored();
      OnlyExactly(names, l);
      if NamesOf(names, f) != {l} || !files[f].regular || files[f].inode != r.inode {
        return false;
      }
      ghost var before, stored := names, files;
      Meanwhile();
      StillThere(before, stored, names, files, l);
      ok := files[f].content == r.content;
    }

    /** Unlinking a private name that is the only one its file has. */
    method Unlink(l: Loc, ghost r: Record)
      requires Valid() && l.In? && Matching(names, files, l, r)
      modifies this`names, this`history, this`acts, this`removals
      ensures Valid() && names == old(names) - {l} && removals == old(removals) + [r] && acts == old(acts)
      ensures old(history) <= history
    {
      hide Chronicle, Kept, ActsOf, RemovalsOf;
      KeptOn(names, dirs, serial, names - {l}, serial);
      Chronicled(Step.Remove(l, r), Snap(names - {l}, files, serial));
      names := names - {l};
    }

    /** Quarantine, check, and only then unlink. Whatever else was there goes back, under another name if the old
        one is taken; it stays in the private directory only if a call failed, and then that is raised. */
    method QuarantineAndCheck(l: Loc, r: Record) returns (gone: bool, raised: bool)
      requires Valid() && l.In? && l.name == NAME
      modifies this`names, this`files, this`dirs, this`serial, this`history, this`acts, this`removals, this`gaps
      modifies this`script
      ensures Valid() && !(gone && raised) && old(history) <= history
      ensures Consumed(old(gaps), old(acts), gaps, acts) && removals == old(removals) + if gone then [r] else []
      ensures Private(names) <= Private(old(names)) + if raised then {l} else {}
      ensures false !in old(script) ==>
                false !in script && Private(names) <= Private(old(names)) && (raised ==> l in old(names))
      ensures !gone && !raised && Root(NAME) in old(names) && l.dir in old(dirs) ==>
                exists n :: NameBack(n) && Root(n) in names && names[Root(n)] == old(names)[Root(NAME)]
      ensures (old(gaps) == [] && false !in old(script) && l.dir in old(dirs) && l !in old(names)
               && Placeholder(old(names), old(files), r)) ==>
                gone && names == old(names) - {Root(NAME)} && files == old(files)
    {
      ConsumedNothing(gaps, acts);
      hide Valid, OutOfReach, Consumed, Kept, Private;
      assert removals + [] == removals;
      if Root(NAME) !in names || l.dir !in dirs {
        return false, false;
      }
      var moved := RenameNoReplace(Root(NAME), l);
      if !moved {
        return false, true;
      }
      MovedPlaceholder(old(names), old(files), r, l);
      label Moved:
      var matches := MatchesPrivate(l, r);
      PrivateStays(old@Moved(names), old@Moved(files), names, files);
      label Looked:
      Meanwhile();
      ConsumedTwice(old(gaps), old(acts), old@Looked(gaps), old@Looked(acts), gaps, acts);
      PrivateStays(old@Looked(names), old@Looked(files), names, files);
      if matches {
        StillThere(old@Looked(names), old@Looked(files), names, files, l);
        var unlinked := Call();
        if !unlinked {
          return false, true;
        }
        label Unlinking:
        Unlink(l, r);
        UnlinkedPrivate(old@Unlinking(names), l);
        return true, false;
      }
      ghost var place := NAME;
      label Back:
      var back := RenameNoReplace(l, Root(NAME));
      if !back && Root(NAME) in names {
        TokenExists(names);
        var token: string :| Root(PreservedName(token)) !in names;
        place := PreservedName(token);
        back := RenameNoReplace(l, Root(PreservedName(token)));
      }
      if back {
        NotPrivate(old@Back(names), l, place, names);
      }
      assert back ==> NameBack(place) && Root(place) in names && names[Root(place)] == old(names)[Root(NAME)];
      return false, !back;
    }

    /** A new private directory is empty, for its number is new. */
    method MakeDir() returns (d: nat)
      requires Valid()
      modifies this`dirs, this`serial, this`history, this`acts, this`removals
      ensures Valid() && d in dirs && In(d, NAME) !in names && dirs == old(dirs) + {d}
      ensures acts == old(acts) && removals == old(removals) && old(history) <= history
    {
      hide Chronicle, ActsOf, RemovalsOf, NamesOf, Now, Legal;
      NamesAreStored();
      d := serial;
      dirs := dirs + {d};
      DirLegal(Now(history));
      Chronicled(Step.MakeDir, Snap(names, files, serial + 1));
      serial := serial + 1;
    }

    /** Make a private directory and open it: `missing` is the error that the tenant removed it in between, and what
        is found under its name may be another private directory. */
    method Enter() returns (entered: bool, d: nat, missing: bool)
      requires Valid()
      modifies this`names, this`files, this`dirs, this`serial, this`history, this`acts, this`removals, this`gaps
      modifies this`script, this`found
      ensures Valid() && old(history) <= history && removals == old(removals)
      ensures Consumed(old(gaps), old(acts), gaps, acts) && Private(names) <= Private(old(names))
      ensures (entered ==> d in dirs) && (missing ==> !entered && old(gaps) != [])
      ensures false !in old(script) ==> false !in script
      ensures old(gaps) == [] ==> gaps == [] && names == old(names) && files == old(files)
      ensures old(gaps) == [] && false !in old(script) && old(found) == [] ==> entered && In(d, NAME) !in names
      ensures old(found) == [] ==> found == []
    {
      ConsumedNothing(gaps, acts);
      hide Valid, OutOfReach, Consumed, Kept, Private;
      entered, d, missing := false, 0, false;
      var made := Call();
      if !made {
        return;
      }
      d := MakeDir();
      Meanwhile();
      PrivateStays(old(names), old(files), names, files);
      entered := Call();
      if entered && found == [] && d !in dirs {
        return false, d, true;
      }
      if found != [] {
        d, found := found[0], found[1..];
      }
      entered := entered && d in dirs;
    }

    /** `_remove_verified`: one file goes, the recorded one, or none; whatever else was moved aside is back unless
        the error that kept it is raised. `missing` is the error that the tenant removed the new directory before it
        was entered. */
    method RemoveVerified(r: Record) returns (gone: bool, raised: bool, missing: bool)
      requires Valid()
      modifies this`names, this`files, this`dirs, this`serial, this`history, this`acts, this`removals, this`gaps
      modifies this`script, this`found
      ensures Valid() && !(gone && raised) && old(history) <= history
      ensures Consumed(old(gaps), old(acts), gaps, acts) && removals == old(removals) + if gone then [r] else []
      ensures !raised || missing ==> Private(names) <= Private(old(names))
      ensures missing ==> raised && old(gaps) != []
      ensures OneMore(Private(old(names)), Private(names))
      ensures false !in old(script) ==> false !in script && Private(names) <= Private(old(names))
      ensures old(gaps) == [] && false !in old(script) && old(found) == [] && Placeholder(old(names), old(files), r) ==>
                gone && names == old(names) - {Root("welcome.html")} && files == old(files)
      ensures old(found) == [] ==> found == []
    {
      hide Valid, OutOfReach, Consumed, Kept, Placeholder, Private;
      gone, raised := false, true;
      var entered, d;
      entered, d, missing := Enter();
      if !entered {
        assert Private(names) <= Private(old(names)) + {In(0, NAME)} && removals + [] == removals;
        return;
      }
      label Entered:
      Meanwhile();
      ConsumedTwice(old(gaps), old(acts), old@Entered(gaps), old@Entered(acts), gaps, acts);
      PrivateStays(old@Entered(names), old@Entered(files), names, files);
      label Ready:
      gone, raised := QuarantineAndCheck(In(d, NAME), r);
      ConsumedTwice(old(gaps), old(acts), old@Ready(gaps), old@Ready(acts), gaps, acts);
      assert Private(names) <= Private(old(names)) + {In(d, NAME)};
      var tidied := Call();
      if tidied {
        RemoveEmpty(d);
      }
    }

    /** The first check: the placeholder is where it was put, unchanged. */
    method LooksRight(r: Record) returns (right: bool)
      requires Valid()
      ensures right <==> Placeholder(names, files, r)
    {
      NamesAreStored();
      if Root(NAME) in names {
        OnlyExactly(names, Root(NAME));
      }
      right := Root(NAME) in names && NamesOf(names, names[Root(NAME)]) == {Root(NAME)}
               && files[names[Root(NAME)]] == File(r.inode, true, r.content);
    }

    /** `retire_welcome`. Whatever the tenant does between the system calls, only the recorded inode with the
        recorded content is removed, and nothing is left out of the tenant's reach unless a call failed and the
        record is kept (it is forgotten when the new directory is missing); left alone, an unchanged placeholder goes
        once a site is there. */
    method RetireWelcome(installed: bool) returns (gone: bool)
      requires Valid()
      modifies this
      ensures Valid() && old(history) <= history && Consumed(old(gaps), old(acts), gaps, acts)
      ensures gone ==> old(record).Some? && removals == old(removals) + [old(record).value]
      ensures !gone ==> removals == old(removals)
      ensures record == old(record) || record == None
      ensures record == None ==> Private(names) <= Private(old(names))
      ensures OneMore(Private(old(names)), Private(names))
      ensures false !in old(script) ==> false !in script && Private(names) <= Private(old(names))
      ensures old(gaps) == [] && false !in old(script) && old(found) == [] && old(record).Some?
              && Placeholder(old(names), old(files), old(record).value)
              && (installed || SiteThere(old(names), old(files))) ==>
                gone && record == None && names == old(names) - {Root("welcome.html")} && files == old(files)
      ensures old(gaps) == [] && !installed && !SiteThere(old(names), old(files)) ==>
                !gone && names == old(names) && files == old(files)
      ensures old(gaps) == [] && false !in old(script) && old(found) == [] ==>
                gaps == [] && found == []
                && QuietStep(Retire(installed), old(Snap(names, files, serial)), old(record),
                             Snap(names, files, serial), record)
    {
      ConsumedNothing(gaps, acts);
      hide Valid, OutOfReach, Consumed, SiteThere, Placeholder;
      assert Private(names) <= Private(old(names)) + {In(0, NAME)};
      if record.None? {
        return false;
      }
      var r := record.value;
      Meanwhile();
      PrivateStays(old(names), old(files), names, files);
      assert Private(names) <= Private(old(names)) + {In(0, NAME)};
      var looked := Call();
      if !looked {
        return false;
      }
      var right := LooksRight(r);
      if !right {
        record := None;
        return false;
      }
      if !installed {
        label Looked:
        Meanwhile();
        ConsumedTwice(old(gaps), old(acts), old@Looked(gaps), old@Looked(acts), gaps, acts);
        PrivateStays(old@Looked(names), old@Looked(files), names, files);
        assert Private(names) <= Private(old(names)) + {In(0, NAME)};
        SiteExactly(names, files);
        if !HasIndex(names, files) {
          return false;
        }
      }
      label Sure:
      var raised, missing;
      gone, raised, missing := RemoveVerified(r);
      ConsumedTwice(old(gaps), old(acts), old@Sure(gaps), old@Sure(acts), gaps, acts);
      if old(gaps) == [] {
        NoneToConsume(old(acts), gaps, acts);
      }
      if !raised || missing {
        record := None;
      }
    }

    /** Opening a name exclusively: nothing is there before. */
    method PlaceFile(l: Loc, file: File)
      requires Valid() && l !in names && !l.In?
      modifies this`names, this`files, this`serial, this`history, this`acts, this`removals
      ensures Valid() && names == old(names)[l := old(serial)] && files == old(files)[old(serial) := file]
      ensures NamesOf(names, names[l]) == {l} && old(serial) !in old(files)
      ensures acts == old(acts) && removals == old(removals) && old(history) <= history
      ensures Private(names) == Private(old(names))
    {
      hide Chronicle, Kept, ActsOf, RemovalsOf, Private, NamesOf, Legal, Now;
      ghost var after := names[l := serial];
      assert Private(after) == Private(names) && NamesOf(after, serial) == {l} && serial !in files by {
        NamesAreStored();
        NewName(names, l, serial);
      }
      KeptOn(names, dirs, serial, after, serial + 1);
      PlacedLegal(Now(history), l, file);
      Chronicled(Step.Place(l, file), Snap(after, files[serial := file], serial + 1));
      names, files, serial := names[l := serial], files[serial := file], serial + 1;
    }

    /** `ensure_welcome`: only an empty document root gets a placeholder, and only where no name is. */
    method EnsureWelcome(content: string, inode: nat) returns (created: bool)
      requires Valid()
      modifies this
      ensures Valid() && old(history) <= history && Consumed(old(gaps), old(acts), gaps, acts)
      ensures removals == old(removals) && Private(names) == Private(old(names))
      ensures false !in old(script) ==> false !in script
      ensures record == if created then Some(Record(inode, content)) else old(record)
      ensures old(gaps) == [] ==> gaps == [] && found == old(found)
      ensures old(gaps) == [] && created ==>
                EmptyRoot(old(names)) && Placeholder(names, files, Record(inode, content))
                && Added(old(names), old(files), names, files, File(inode, true, content))
      ensures old(gaps) == [] && false !in old(script) ==>
                if EmptyRoot(old(names)) then created else names == old(names) && files == old(files)
    {
      ConsumedNothing(gaps, acts);
      hide Valid, OutOfReach, Consumed, Private, Added, NamesOf;
      Meanwhile();
      PrivateStays(old(names), old(files), names, files);
      if exists l :: l in names && l.Root? {
        return false;
      }
      label Empty:
      Meanwhile();
      ConsumedTwice(old(gaps), old(acts), old@Empty(gaps), old@Empty(acts), gaps, acts);
      PrivateStays(old@Empty(names), old@Empty(files), names, files);
      var entered := Call();
      if !entered || Root(NAME) in names {
        return false;
      }
      label Placing:
      PlaceFile(Root(NAME), File(inode, true, content));
      OnlyExactly(names, Root(NAME));
      ItIsAdded(old@Placing(names), old@Placing(files), names, files, old@Placing(serial), File(inode, true, content));
      label Placed:
      Meanwhile();
      ConsumedTwice(old(gaps), old(acts), old@Placed(gaps), old@Placed(acts), gaps, acts);
      PrivateStays(old@Placed(names), old@Placed(files), names, files);
      var recorded := Call();
      if recorded {
        record := Some(Record(inode, content));
      }
      return recorded;
    }

    /** Over every interleaving, with the tenant doing exactly what the events and the gaps used up say: a file
        without a name lost its last one to a step of the tenant, or was removed with the inode and the content
        of a record of its creation; while no call fails every file with a name has one in the tenant's reach; and if
        also the tenant never acts between the daemon's calls, each event does exactly what it should (`trace`). */
    method Run(events: seq<Event>) returns (ghost trace: seq<Moment>)
      requires Valid()
      modifies this
      ensures Valid() && old(history) <= history && |gaps| <= |old(gaps)| && gaps == old(gaps)[|old(gaps)| - |gaps|..]
      ensures multiset(acts)
              == multiset(old(acts)) + multiset(ActsIn(events)) + multiset(Flat(old(gaps)[..|old(gaps)| - |gaps|]))
      ensures forall f | f in files && !Named(names, f) ::
                TakenByTenant(history, f) || RemovedAsRecorded(history, f)
      ensures Known(removals, record, old(removals), old(record), events)
      ensures false !in old(script) && Private(old(names)) == {} ==> forall l | l in names :: !l.In?
      ensures |trace| == |events| + 1 && trace[0] == old(Here()) && trace[|events|] == Here()
      ensures old(gaps) == [] && false !in old(script) && old(found) == [] ==> AllQuiet(events, trace)
    {
      hide Valid, TakenByTenant, RemovedAsRecorded, Between, ActsIn, Flat, NamesOf, Named, Private, QuietStep;
      trace := [Here()];
      NothingDone(gaps, acts);
      for i := 0 to |events|
        invariant Valid() && old(history) <= history && Between(old(gaps), old(acts), events[..i], gaps, acts)
        invariant Known(removals, record, old(removals), old(record), events)
        invariant false !in old(script) ==> false !in script && Private(names) <= Private(old(names))
        invariant |trace| == i + 1 && trace[0] == old(Here()) && trace[i] == Here()
        invariant old(gaps) == [] && false !in old(script) && old(found) == [] ==>
                  gaps == [] && found == [] && AllQuiet(events[..i], trace)
      {
        ghost var g, a := gaps, acts;
        Handle(events[i], old(removals), old(record), events);
        trace := trace + [Here()];
        OneEvent(old(gaps), old(acts), events[..i], events[i], g, a, gaps, acts);
        assert events[..i] + [events[i]] == events[..i + 1];
      }
      assert events[..|events|] == events;
      AllAccounted();
      BetweenFacts(old(gaps), old(acts), events, gaps, acts);
      NonePrivate(names);
    }

    /** One event; with the tenant leaving its calls alone and none of them failing, exactly what it should do. */
    method Handle(event: Event, ghost removals0: seq<Record>, ghost record0: Option<Record>, ghost events: seq<Event>)
      requires Valid() && event in events && Known(removals, record, removals0, record0, events)
      modifies this
      ensures Valid() && old(history) <= history && Known(removals, record, removals0, record0, events)
      ensures if event.Tenant? then gaps == old(gaps) && acts == old(acts) + [event.act]
              else Consumed(old(gaps), old(acts), gaps, acts)
      ensures false !in old(script) ==> false !in script && Private(names) <= Private(old(names))
      ensures old(gaps) == [] && false !in old(script) && old(found) == [] ==>
                gaps == [] && found == []
                && QuietStep(event, old(Snap(names, files, serial)), old(record), Snap(names, files, serial), record)
    {
      hide Valid, Consumed, Private, Placeholder, SiteThere, Added, Acted, Stored, OutOfReach;
      match event {
        case Ensure(content, inode) => var created := EnsureWelcome(content, inode);
        case Retire(installed) => var gone := RetireWelcome(installed);
        case Tenant(act) =>
          Perform(act);
          PrivateStays(old(names), old(files), names, files);
      }
    }

    lemma {:induction false} AllAccounted()
      requires Valid()
      ensures forall f | f in files && !Named(names, f) ::
                TakenByTenant(history, f) || RemovedAsRecorded(history, f)
    {
      hide Chronicle, TakenByTenant, RemovedAsRecorded, NamesOf, Named;
      forall f | f in files && !Named(names, f)
        ensures TakenByTenant(history, f) || RemovedAsRecorded(history, f) {
        FateOfFile(history, f);
      }
    }
  }

  /** The tenant's own events. */
  function ActsIn(events: seq<Event>): seq<Act> {
    if events == [] then []
    else ActsIn(events[..|events| - 1]) + match events[|events| - 1] { case Tenant(act) => [act] case _ => [] }
  }

  /** Since the gaps were `gaps` and the acts `acts`, the tenant has done what the events and the gaps say. */
  ghost predicate Between(gaps: seq<seq<Act>>, acts: seq<Act>, events: seq<Event>, rest: seq<seq<Act>>,
                          later: seq<Act>) {
    |rest| <= |gaps| && rest == gaps[|gaps| - |rest|..]
    && multiset(later) == multiset(acts) + multiset(ActsIn(events)) + multiset(Flat(gaps[..|gaps| - |rest|]))
  }

  /** Each record was there before, or a creation among the events made it. */
  ghost predicate Known(removals: seq<Record>, record: Option<Record>, removals0: seq<Record>, record0: Option<Record>,
                        events: seq<Event>) {
    (forall r | r in removals :: r in removals0 || record0 == Some(r) || Ensure(r.content, r.inode) in events)
    && (record.Some? ==> record == record0 || Ensure(record.value.content, record.value.inode) in events)
  }

  lemma {:induction false} NonePrivate(names: Names)
    ensures Private(names) == {} ==> forall l | l in names :: !l.In?
  {
    assert forall l | l in names && l.In? :: l in Private(names);
  }

  lemma {:induction false} BetweenFacts(gaps: seq<seq<Act>>, acts: seq<Act>, events: seq<Event>, rest: seq<seq<Act>>,
                                        later: seq<Act>)
    requires Between(gaps, acts, events, rest, later)
    ensures |rest| <= |gaps| && rest == gaps[|gaps| - |rest|..]
    ensures multiset(later) == multiset(acts) + multiset(ActsIn(events)) + multiset(Flat(gaps[..|gaps| - |rest|]))
  {
  }

  lemma {:induction false} NothingDone(gaps: seq<seq<Act>>, acts: seq<Act>)
    ensures Between(gaps, acts, [], gaps, acts)
  {
    assert gaps[..0] == [];
  }

  lemma {:induction false} OneEvent(gaps: seq<seq<Act>>, acts: seq<Act>, events: seq<Event>, event: Event,
                                    g: seq<seq<Act>>, a: seq<Act>, rest: seq<seq<Act>>, later: seq<Act>)
    requires Between(gaps, acts, events, g, a)
    requires if event.Tenant? then rest == g && later == a + [event.act] else Consumed(g, a, rest, later)
    ensures Between(gaps, acts, events + [event], rest, later)
  {
    ActsInMore(events, event);
    hide Flat, ActsIn;
    if event.Tenant? {
      assert multiset(later) == multiset(a) + multiset([event.act]);
    } else {
      FlatOfSuffix(gaps, g, rest);
      assert multiset(later) == multiset(a) + multiset(Flat(g[..|g| - |rest|]));
    }
  }

  lemma {:induction false} ActsInMore(events: seq<Event>, event: Event)
    ensures multiset(ActsIn(events + [event]))
            == multiset(ActsIn(events)) + if event.Tenant? then multiset([event.act]) else multiset{}
  {
    assert (events + [event])[..|events|] == events;
    assert !event.Tenant? ==> ActsIn(events + [event]) == ActsIn(events);
  }

  lemma {:induction false} FlatOfSuffix(gaps: seq<seq<Act>>, g: seq<seq<Act>>, rest: seq<seq<Act>>)
    requires |rest| <= |g| <= |gaps| && g == gaps[|gaps| - |g|..] && rest == g[|g| - |rest|..]
    ensures rest == gaps[|gaps| - |rest|..]
    ensures Flat(gaps[..|gaps| - |rest|]) == Flat(gaps[..|gaps| - |g|]) + Flat(g[..|g| - |rest|])
  {
    var m, n := |gaps| - |g|, |g| - |rest|;
    FlatJoin(gaps[..m], g[..n]);
    assert gaps[..m] + g[..n] == gaps[..m + n];
  }

  lemma {:induction false} KeptMoved(names: Names, dirs: set<nat>, serial: nat, l: Loc, to: Loc)
    requires Kept(names, dirs, serial) && l in names && (to.In? ==> to.dir in dirs)
    ensures Kept((names - {l})[to := names[l]], dirs, serial)
  {
  }
}
