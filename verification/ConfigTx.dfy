/** The configuration transaction engine (daemon/configtx.py): several files validated, backed up, replaced,
    reloaded and verified together, and put back together when the service does not take them. */
module ConfigTx {
  import opened Text

  /** A configuration file, the temporary file beside it, or a private backup. */
  datatype Path = Live(name: string) | Temp(name: string) | Backup(id: nat)

  /** What a validate, reload or verify callable does. */
  datatype Answer = Good | Bad | Raises

  /** Raised: reload or verify raised with the new files in place; RaisedAfterRollback: the second reload did. */
  datatype Result = Unchanged | Invalid | Applied | RolledBack | Raised | RaisedAfterRollback

  /** One transaction and the answers its callables give, `again` being the reload of a rollback. */
  datatype Transaction = Transaction(names: seq<string>, contents: map<string, string>,
                                     validate: Answer, reload: Answer, verify: Answer, again: Answer)

  type Files = map<Path, string>

  function Get(files: Files, q: Path): Option<string> { if q in files then Some(files[q]) else None }

  predicate IsOk(r: Result) { r.Unchanged? || r.Applied? }

  /** The new contents are in place: the transaction succeeded, or a raised error left them there. */
  predicate Took(r: Result) { IsOk(r) || r.Raised? }

  /** Targets are distinct and each has its contents. */
  ghost predicate WellFormed(t: Transaction) {
    (forall i, j | 0 <= i < j < |t.names| :: t.names[i] != t.names[j]) && forall n | n in t.names :: n in t.contents
  }

  /** What a service sees when it reads its configuration. */
  ghost function Visible(files: Files): Files { map q | q in files && q.Live? :: files[q] }

  ghost function Updated(visible: Files, t: Transaction): Files
    requires WellFormed(t)
  {
    map q: Path | q in visible.Keys + (set n | n in t.names :: Live(n)) ::
      if q.Live? && q.name in t.names then t.contents[q.name] else visible[q]
  }

  /** The configuration after a run: exactly the transactions that took, in order, each as a whole. */
  ghost function Replay(visible: Files, ts: seq<Transaction>, rs: seq<Result>): Files
    requires |ts| == |rs| && forall i | 0 <= i < |ts| :: WellFormed(ts[i])
  {
    if ts == [] then visible
    else
      var before := Replay(visible, ts[..|ts| - 1], rs[..|ts| - 1]);
      if Took(rs[|ts| - 1]) then Updated(before, ts[|ts| - 1]) else before
  }

  /** The expected result of a transaction whose targets do not already have their contents. */
  function Fate(t: Transaction): Result {
    if !t.validate.Good? then Invalid
    else if t.reload.Raises? || (t.reload.Good? && t.verify.Raises?) then Raised
    else if t.reload.Good? && t.verify.Good? then Applied
    else if t.again.Raises? then RaisedAfterRollback
    else RolledBack
  }

  /** The single-file writer does not reload when it removes a file that did not exist before. */
  function FateOfOne(t: Transaction, existed: bool): Result {
    if Fate(t).RaisedAfterRollback? && !existed then RolledBack else Fate(t)
  }

  /** The transaction leaves the service on other files than are there: a reload raised with the new files in place,
      or the service took them, failed verification, and was not reloaded well with the old ones. A reload that
      does not answer well leaves the service on what it ran on. */
  predicate Strays(t: Transaction, reloadsOld: bool) {
    t.validate.Good?
    && (t.reload.Raises? || (t.reload.Good? && t.verify.Bad? && !(reloadsOld && t.again.Good?)))
  }

  /** During a transaction the targets `replaced` have new contents and the targets `staged` a temporary
      file; no other target has one, and every other configuration file is as it was. */
  ghost predicate Underway(files: Files, before: Files, t: Transaction, replaced: set<string>, staged: set<string>,
                           cleared: set<string>)
    requires WellFormed(t)
  {
    replaced <= (set n | n in t.names) && staged <= (set n | n in t.names)
    && (forall n :: Get(files, Live(n)) == if n in replaced then Some(t.contents[n]) else Get(before, Live(n)))
    && (forall n ::
         Get(files, Temp(n)) == if n in staged then Some(t.contents[n])
                                else if n in cleared then None else Get(before, Temp(n)))
  }

  /** Every copy in `copies` holds what its target had before, and every target that existed has one. */
  ghost predicate BackedUp(files: Files, before: Files, copies: map<string, nat>, names: set<string>) {
    (forall n | n in copies ::
      n in names && Live(n) in before && Get(files, Backup(copies[n])) == Some(before[Live(n)]))
    && (forall n | n in names && Live(n) in before :: n in copies)
  }

  function Names(s: seq<string>, i: nat): (r: set<string>)
    requires i <= |s|
  {
    set n | n in s[..i]
  }

  lemma {:induction false} NextName(t: Transaction, i: nat)
    requires WellFormed(t) && i < |t.names|
    ensures t.names[i] !in Names(t.names, i) && Names(t.names, i + 1) == Names(t.names, i) + {t.names[i]}
    ensures Names(t.names, i + 1) <= Names(t.names, |t.names|)
  {
    assert t.names[..i + 1] == t.names[..i] + [t.names[i]];
  }

  /** Copying one target, if it exists, under a fresh name. */
  lemma {:induction false} CopyStep(files: Files, before: Files, t: Transaction, i: nat, copies: map<string, nat>,
                                    id: nat)
    requires WellFormed(t) && i < |t.names| && Backup(id) !in files
    requires Underway(files, before, t, {}, Names(t.names, |t.names|), {})
    requires BackedUp(files, before, copies, Names(t.names, i))
    ensures Live(t.names[i]) !in files ==> BackedUp(files, before, copies, Names(t.names, i + 1))
    ensures Live(t.names[i]) in files ==>
              var after := files[Backup(id) := files[Live(t.names[i])]];
              BackedUp(after, before, copies[t.names[i] := id], Names(t.names, i + 1))
              && Underway(after, before, t, {}, Names(t.names, |t.names|), {})
  {
    hide Names;
    NextName(t, i);
    var n := t.names[i];
    assert Get(files, Live(n)) == Get(before, Live(n));
    if Live(n) in files {
      var after := files[Backup(id) := files[Live(n)]];
      forall q | q != Backup(id) ensures Get(after, q) == Get(files, q) {
      }
      OneMoreCopy(files, after, before, copies, Names(t.names, i), n, id);
      hide Get, BackedUp;
    }
  }

  lemma {:induction false} OneMoreCopy(files: Files, after: Files, before: Files, copies: map<string, nat>,
                                       names: set<string>, n: string, id: nat)
    requires BackedUp(files, before, copies, names) && Backup(id) !in files
    requires (forall q | q != Backup(id) :: Get(after, q) == Get(files, q)) && Live(n) in before
    requires Get(after, Backup(id)) == Some(before[Live(n)])
    ensures BackedUp(after, before, copies[n := id], names + {n})
  {
    forall m | m in copies ensures copies[m] != id {
      assert Get(files, Backup(copies[m])).Some?;
    }
    hide Get;
  }

  lemma {:induction false} HadCopy(files: Files, before: Files, t: Transaction, copies: map<string, nat>)
    requires WellFormed(t) && |t.names| == 1 && BackedUp(files, before, copies, Names(t.names, |t.names|))
    ensures t.names[0] in copies <==> Live(t.names[0]) in before
  {
    assert t.names[..1][0] in Names(t.names, 1);
  }

  lemma {:induction false} UnstageStep(files: Files, before: Files, t: Transaction, i: nat)
    requires WellFormed(t) && i < |t.names|
    requires Underway(files, before, t, {}, Names(t.names, |t.names|) - Names(t.names, i), Names(t.names, i))
    ensures Underway(files - {Temp(t.names[i])}, before, t, {}, Names(t.names, |t.names|) - Names(t.names, i + 1),
                     Names(t.names, i + 1))
  {
    hide Names;
    NextName(t, i);
    var after := files - {Temp(t.names[i])};
    forall q ensures Get(after, q) == if q == Temp(t.names[i]) then None else Get(files, q) {
    }
    hide Get;
  }

  lemma {:induction false} NoNames(t: Transaction)
    ensures Names(t.names, 0) == {} && Names(t.names, |t.names|) - {} == Names(t.names, |t.names|)
    ensures Names(t.names, |t.names|) - Names(t.names, |t.names|) == {}
  {
  }

  lemma {:induction false} CopiesStay(files: Files, after: Files, before: Files, copies: map<string, nat>,
                                      names: set<string>)
    requires BackedUp(files, before, copies, names) && forall q: Path | q.Backup? :: Get(after, q) == Get(files, q)
    ensures BackedUp(after, before, copies, names)
  {
  }

  /** Moving one temporary file onto its target. */
  lemma {:induction false} RenameStep(files: Files, before: Files, t: Transaction, i: nat, copies: map<string, nat>)
    requires WellFormed(t) && i < |t.names| && BackedUp(files, before, copies, Names(t.names, |t.names|))
    requires Underway(files, before, t, Names(t.names, i), Names(t.names, |t.names|) - Names(t.names, i),
                      Names(t.names, i))
    ensures Temp(t.names[i]) in files
    ensures var after := (files - {Temp(t.names[i])})[Live(t.names[i]) := files[Temp(t.names[i])]];
            BackedUp(after, before, copies, Names(t.names, |t.names|))
            && Underway(after, before, t, Names(t.names, i + 1), Names(t.names, |t.names|) - Names(t.names, i + 1),
                        Names(t.names, i + 1))
  {
    hide Names;
    NextName(t, i);
    var n := t.names[i];
    assert Get(files, Temp(n)) == Some(t.contents[n]);
    MoveGets(files, Temp(n), Live(n));
    var after := (files - {Temp(n)})[Live(n) := files[Temp(n)]];
    CopiesStay(files, after, before, copies, Names(t.names, |t.names|));
    hide Get, BackedUp, WellFormed;
    assert Get(after, Live(n)) == Some(t.contents[n]);
    assert Names(t.names, i + 1) == Names(t.names, i) + {n};
  }

  lemma {:induction false} MoveGets(files: Files, l: Path, to: Path)
    requires l in files && l != to
    ensures var after := (files - {l})[to := files[l]];
            forall q :: Get(after, q) == if q == l then None else if q == to then Get(files, l) else Get(files, q)
  {
  }

  /** Copying one backup back, or removing a target that did not exist. */
  lemma {:induction false} RestoreStep(files: Files, before: Files, t: Transaction, i: nat, copies: map<string, nat>)
    requires WellFormed(t) && i < |t.names| && BackedUp(files, before, copies, Names(t.names, |t.names|))
    requires Underway(files, before, t, Names(t.names, |t.names|) - Names(t.names, i), {}, Names(t.names, |t.names|))
    ensures var n := t.names[i];
            (n in copies ==> Backup(copies[n]) in files)
            && var after := if n in copies then files[Live(n) := files[Backup(copies[n])]] else files - {Live(n)};
               BackedUp(after, before, copies, Names(t.names, |t.names|))
               && Underway(after, before, t, Names(t.names, |t.names|) - Names(t.names, i + 1), {},
                           Names(t.names, |t.names|))
  {
    hide Names;
    NextName(t, i);
    var n := t.names[i];
    assert n in copies ==> Get(files, Backup(copies[n])) == Some(before[Live(n)]);
    var after := if n in copies then files[Live(n) := files[Backup(copies[n])]] else files - {Live(n)};
    forall q ensures Get(after, q) == if q == Live(n) then Get(before, q) else Get(files, q) {
    }
    CopiesStay(files, after, before, copies, Names(t.names, |t.names|));
    hide Get, BackedUp;
  }

  class Host {
    var files: Files
    var next: nat
    /** The files there were at each reload, and at the last one that the service answered well: what it runs on. */
    ghost var reloads: seq<Files>
    ghost var running: Files

    /** The last reload was asked for with exactly the files that are there. */
    ghost predicate Reloaded()
      reads this
    {
      reloads != [] && reloads[|reloads| - 1] == Visible(files)
    }

    /** The service runs on exactly the files that are there. */
    ghost predicate InService()
      reads this
    {
      running == Visible(files)
    }

    ghost predicate Valid()
      reads this
    {
      forall q | q in files && q.Backup? :: q.id < next
    }

    method Reload(answer: Answer) returns (r: Answer)
      modifies this`reloads, this`running
      ensures r == answer && reloads == old(reloads) + [Visible(files)]
      ensures running == if answer.Good? then Visible(files) else old(running)
    {
      reloads := reloads + [Visible(files)];
      if answer.Good? {
        running := Visible(files);
      }
      r := answer;
    }

    method Stage(t: Transaction)
      requires Valid() && WellFormed(t)
      modifies this`files
      ensures Valid() && Underway(files, old(files), t, {}, Names(t.names, |t.names|), {})
    {
      for i := 0 to |t.names|
        invariant Valid() && Underway(files, old(files), t, {}, Names(t.names, i), {})
      {
        NextName(t, i);
        files := files[Temp(t.names[i]) := t.contents[t.names[i]]];
      }
    }

    method Unstage(t: Transaction, ghost before: Files)
      requires Valid() && WellFormed(t) && Underway(files, before, t, {}, Names(t.names, |t.names|), {})
      modifies this`files
      ensures Valid() && Underway(files, before, t, {}, {}, Names(t.names, |t.names|))
    {
      NoNames(t);
      hide Names, Underway, BackedUp;
      for i := 0 to |t.names|
        invariant Valid()
        invariant Underway(files, before, t, {}, Names(t.names, |t.names|) - Names(t.names, i), Names(t.names, i))
      {
        UnstageStep(files, before, t, i);
        files := files - {Temp(t.names[i])};
      }
    }

    method BackUp(t: Transaction, ghost before: Files) returns (copies: map<string, nat>)
      requires Valid() && WellFormed(t) && Underway(files, before, t, {}, Names(t.names, |t.names|), {})
      modifies this`files, this`next
      ensures Valid() && Underway(files, before, t, {}, Names(t.names, |t.names|), {})
      ensures BackedUp(files, before, copies, Names(t.names, |t.names|))
    {
      copies := map[];
      for i := 0 to |t.names|
        invariant Valid() && Underway(files, before, t, {}, Names(t.names, |t.names|), {})
        invariant BackedUp(files, before, copies, Names(t.names, i))
      {
        hide BackedUp, Underway, Names;
        var n := t.names[i];
        CopyStep(files, before, t, i, copies, next);
        if Live(n) in files {
          files := files[Backup(next) := files[Live(n)]];
          copies := copies[n := next];
          next := next + 1;
        }
      }
    }

    method Replace(t: Transaction, copies: map<string, nat>, ghost before: Files)
      requires Valid() && WellFormed(t) && Underway(files, before, t, {}, Names(t.names, |t.names|), {})
      requires BackedUp(files, before, copies, Names(t.names, |t.names|))
      modifies this`files
      ensures Valid() && Underway(files, before, t, Names(t.names, |t.names|), {}, Names(t.names, |t.names|))
      ensures BackedUp(files, before, copies, Names(t.names, |t.names|))
    {
      NoNames(t);
      hide Names, Underway, BackedUp;
      for i := 0 to |t.names|
        invariant Valid() && BackedUp(files, before, copies, Names(t.names, |t.names|))
        invariant Underway(files, before, t, Names(t.names, i), Names(t.names, |t.names|) - Names(t.names, i),
                           Names(t.names, i))
      {
        var n := t.names[i];
        RenameStep(files, before, t, i, copies);
        files := (files - {Temp(n)})[Live(n) := files[Temp(n)]];
      }
    }

    method Restore(t: Transaction, copies: map<string, nat>, ghost before: Files)
      requires Valid() && WellFormed(t)
      requires Underway(files, before, t, Names(t.names, |t.names|), {}, Names(t.names, |t.names|))
      requires BackedUp(files, before, copies, Names(t.names, |t.names|))
      modifies this`files
      ensures Valid() && Underway(files, before, t, {}, {}, Names(t.names, |t.names|))
    {
      NoNames(t);
      hide Names, Underway, BackedUp;
      for i := 0 to |t.names|
        invariant Valid() && BackedUp(files, before, copies, Names(t.names, |t.names|))
        invariant Underway(files, before, t, Names(t.names, |t.names|) - Names(t.names, i), {},
                           Names(t.names, |t.names|))
      {
        var n := t.names[i];
        RestoreStep(files, before, t, i, copies);
        if n in copies {
          files := files[Live(n) := files[Backup(copies[n])]];
        } else {
          files := files - {Live(n)};
        }
      }
    }

    /** `_prune_backups` may remove any backups and nothing else. */
    method Prune(t: Transaction, replaced: set<string>, ghost before: Files)
      requires Valid() && WellFormed(t) && Underway(files, before, t, replaced, {}, Names(t.names, |t.names|))
      modifies this`files
      ensures Valid() && Underway(files, before, t, replaced, {}, Names(t.names, |t.names|))
    {
      var doomed: set<Path> := *;
      var all := set q | q in files && q.Backup?;
      files := files - (doomed * all);
    }

    /** Every target exists with its contents already. */
    method Same(t: Transaction) returns (same: bool)
      requires WellFormed(t)
      ensures same <==> Updated(Visible(files), t) == Visible(files)
    {
      hide Get, Updated, Visible;
      same := true;
      for i := 0 to |t.names|
        invariant same <==> forall k | 0 <= k < i :: Get(files, Live(t.names[k])) == Some(t.contents[t.names[k]])
      {
        same := same && Get(files, Live(t.names[i])) == Some(t.contents[t.names[i]]);
      }
      SameMeansUpdated(files, t);
    }

    /** `ConfigWriterMulti._apply`. */
    method Apply(t: Transaction) returns (result: Result)
      requires Valid() && WellFormed(t)
      modifies this
      ensures Valid() && Visible(files) == if Took(result) then Updated(Visible(old(files)), t) else Visible(old(files))
      ensures result == if Updated(Visible(old(files)), t) == Visible(old(files)) then Unchanged else Fate(t)
      ensures forall n | n in t.names && Temp(n) in files :: result.Unchanged? && Temp(n) in old(files)
      ensures forall n | n !in t.names :: Get(files, Temp(n)) == Get(old(files), Temp(n))
      ensures |reloads| > |old(reloads)| || old(Reloaded()) ==> Reloaded()
      ensures result.Applied? ==> InService()
      ensures old(InService()) ==> (InService() <==> result.Unchanged? || !Strays(t, true))
    {
      hide Underway, BackedUp, Names, Updated, Visible, Get;
      var same := Same(t);
      if same {
        return Unchanged;
      }
      ghost var before := files;
      Stage(t);
      if !t.validate.Good? {
        Unstage(t, before);
        Settled(files, before, t, {});
        return Invalid;
      }
      var copies := BackUp(t, before);
      Replace(t, copies, before);
      Settled(files, before, t, Names(t.names, |t.names|));
      var reload := Reload(t.reload);
      if reload.Raises? {
        return Raised;
      }
      var verify := Bad;
      if reload.Good? {
        if t.verify.Raises? {
          return Raised;
        }
        verify := t.verify;
      }
      if reload.Good? && verify.Good? {
        Prune(t, Names(t.names, |t.names|), before);
        Settled(files, before, t, Names(t.names, |t.names|));
        return Applied;
      }
      Restore(t, copies, before);
      Settled(files, before, t, {});
      var again := Reload(t.again);
      if again.Raises? {
        return RaisedAfterRollback;
      }
      Prune(t, {}, before);
      Settled(files, before, t, {});
      return RolledBack;
    }

    /** `ConfigWriter._apply`, the single-file writer: a rollback without a prior file does not reload. */
    method ApplyOne(t: Transaction) returns (result: Result)
      requires Valid() && WellFormed(t) && |t.names| == 1
      modifies this
      ensures Valid() && Visible(files) == if Took(result) then Updated(Visible(old(files)), t) else Visible(old(files))
      ensures result == if Updated(Visible(old(files)), t) == Visible(old(files)) then Unchanged
                        else FateOfOne(t, Live(t.names[0]) in old(files))
      ensures Temp(t.names[0]) in files ==> result.Unchanged? && Temp(t.names[0]) in old(files)
      ensures old(Reloaded()) ==> (Reloaded() <==> !(result.RolledBack? && Live(t.names[0]) !in old(files)))
      ensures result.Applied? ==> InService()
      ensures old(InService()) ==> (InService() <==> result.Unchanged? || !Strays(t, Live(t.names[0]) in old(files)))
    {
      hide Underway, BackedUp, Names, Updated, Visible, Get;
      SameMeansUpdated(files, t);
      var n := t.names[0];
      if Get(files, Live(n)) == Some(t.contents[n]) {
        return Unchanged;
      }
      ghost var before := files;
      Stage(t);
      if !t.validate.Good? {
        Unstage(t, before);
        Settled(files, before, t, {});
        return Invalid;
      }
      var copies := BackUp(t, before);
      Replace(t, copies, before);
      Settled(files, before, t, Names(t.names, |t.names|));
      var reload := Reload(t.reload);
      if reload.Raises? || (reload.Good? && t.verify.Raises?) {
        return Raised;
      }
      if reload.Good? && t.verify.Good? {
        Prune(t, Names(t.names, |t.names|), before);
        Settled(files, before, t, Names(t.names, |t.names|));
        return Applied;
      }
      HadCopy(files, before, t, copies);
      Restore(t, copies, before);
      Settled(files, before, t, {});
      if n in copies {
        var again := Reload(t.again);
        if again.Raises? {
          return RaisedAfterRollback;
        }
      }
      Prune(t, {}, before);
      Settled(files, before, t, {});
      return RolledBack;
    }

    /** Over every run of multi-file transactions, whatever the callables answer, the configuration is exactly
        what the transactions that took have made it; the last reload was asked for with it; and the service runs on
        it unless some transaction strayed, and at any rate if the last one that changed anything was applied. */
    method RunAll(ts: seq<Transaction>) returns (results: seq<Result>)
      requires Valid() && Reloaded() && InService() && forall i | 0 <= i < |ts| :: WellFormed(ts[i])
      modifies this
      ensures Valid() && Reloaded() && |results| == |ts|
      ensures Visible(files) == Replay(Visible(old(files)), ts, results)
      ensures forall i | 0 <= i < |ts| :: results[i].Unchanged? || results[i] == Fate(ts[i])
      ensures (forall i | 0 <= i < |ts| :: results[i].Unchanged? || !Strays(ts[i], true)) ==> InService()
      ensures forall i | 0 <= i < |ts| && results[i].Applied? && (forall j | i < j < |ts| :: results[j].Unchanged?) ::
                InService()
    {
      hide Updated, Visible, Strays, Fate, Took, WellFormed, Valid, Reloaded, InService;
      results := [];
      for n := 0 to |ts|
        invariant Valid() && Reloaded() && |results| == n
        invariant (forall i | 0 <= i < n :: results[i].Unchanged? || !Strays(ts[i], true)) ==> InService()
        invariant forall i | 0 <= i < n && results[i].Applied? && (forall j | i < j < n :: results[j].Unchanged?) ::
                  InService()
        invariant Visible(files) == Replay(Visible(old(files)), ts[..n], results)
        invariant forall i | 0 <= i < n :: results[i].Unchanged? || results[i] == Fate(ts[i])
      {
        var r := Apply(ts[n]);
        assert ts[..n + 1][..n] == ts[..n] && (results + [r])[..n] == results;
        results := results + [r];
      }
      assert ts[..|ts|] == ts;
    }
  }

  lemma {:induction false} SameMeansUpdated(files: Files, t: Transaction)
    requires WellFormed(t)
    ensures Updated(Visible(files), t) == Visible(files)
            <==> forall k | 0 <= k < |t.names| :: Get(files, Live(t.names[k])) == Some(t.contents[t.names[k]])
  {
    var v := Visible(files);
    if Updated(v, t) == v {
      forall k | 0 <= k < |t.names| ensures Get(files, Live(t.names[k])) == Some(t.contents[t.names[k]]) {
        assert t.names[k] in t.names;
        assert Live(t.names[k]) in Updated(v, t);
      }
    }
    if forall k | 0 <= k < |t.names| :: Get(files, Live(t.names[k])) == Some(t.contents[t.names[k]]) {
      forall n | n in t.names ensures Live(n) in v && v[Live(n)] == t.contents[n] {
        var k :| 0 <= k < |t.names| && t.names[k] == n;
      }
      assert Updated(v, t) == v;
    }
  }

  /** With all targets replaced the configuration is the updated one, with none it is the old one. */
  lemma {:induction false} Settled(files: Files, before: Files, t: Transaction, replaced: set<string>)
    requires WellFormed(t) && Underway(files, before, t, replaced, {}, Names(t.names, |t.names|))
    requires replaced == {} || replaced == Names(t.names, |t.names|)
    ensures replaced == {} ==> Visible(files) == Visible(before)
    ensures replaced == Names(t.names, |t.names|) ==> Visible(files) == Updated(Visible(before), t)
    ensures forall n | n in t.names :: Temp(n) !in files
    ensures forall n | n !in t.names :: Get(files, Temp(n)) == Get(before, Temp(n))
  {
    hide Visible, Updated;
    assert t.names[..|t.names|] == t.names;
    var all := Names(t.names, |t.names|);
    assert forall n :: n in all <==> n in t.names;
    hide Names;
    forall n | n in t.names ensures Temp(n) !in files {
      assert Get(files, Temp(n)) == None;
    }
    forall q ensures replaced == {} ==> Get(Visible(files), q) == Get(Visible(before), q)
             ensures replaced == all ==> Get(Visible(files), q) == Get(Updated(Visible(before), t), q) {
      SettledAt(files, before, t, replaced, q);
    }
    if replaced == {} {
      SameMap(Visible(files), Visible(before));
    }
    if replaced == all {
      SameMap(Visible(files), Updated(Visible(before), t));
    }
  }

  lemma {:induction false} SettledAt(files: Files, before: Files, t: Transaction, replaced: set<string>, q: Path)
    requires WellFormed(t) && Underway(files, before, t, replaced, {}, Names(t.names, |t.names|))
    requires forall n :: n in Names(t.names, |t.names|) <==> n in t.names
    ensures replaced == {} ==> Get(Visible(files), q) == Get(Visible(before), q)
    ensures replaced == Names(t.names, |t.names|) ==> Get(Visible(files), q) == Get(Updated(Visible(before), t), q)
  {
    hide Names;
    if q.Live? {
      assert Get(files, Live(q.name))
             == if q.name in replaced then Some(t.contents[q.name]) else Get(before, Live(q.name));
    }
  }

  lemma {:induction false} SameMap(a: Files, b: Files)
    requires forall q :: Get(a, q) == Get(b, q)
    ensures a == b
  {
    forall q ensures q in a <==> q in b {
      assert Get(a, q) == Get(b, q);
    }
    forall q | q in a ensures a[q] == b[q] {
      assert Get(a, q) == Get(b, q);
    }
  }

  // Which old backups stay.

  const MAX_FILES := 32
  const MAX_BYTES := 64 * 1024 * 1024

  /** A backup file: its modification time, name and size. */
  datatype Candidate = Candidate(mtime: nat, name: string, size: nat)

  function Bytes(files: seq<Candidate>): nat {
    if files == [] then 0 else Bytes(files[..|files| - 1]) + files[|files| - 1].size
  }

  /** What is kept of a list, newest first: a preserved file always, another one if it fits both budgets
      beside all kept so far. */
  function KeptOf(files: seq<Candidate>, preserve: set<string>): seq<Candidate> {
    if files == [] then []
    else
      var front, c := KeptOf(files[..|files| - 1], preserve), files[|files| - 1];
      if c.name in preserve || (|front| < MAX_FILES && Bytes(front) + c.size <= MAX_BYTES) then front + [c] else front
  }

  /** The loop of `_prune_backups`, with its running counters; what is not kept is removed. */
  method PruneBackups(files: seq<Candidate>, preserve: set<string>) returns (kept: seq<Candidate>)
    ensures kept == KeptOf(files, preserve)
  {
    kept := [];
    var keptFiles, keptBytes := 0, 0;
    for i := 0 to |files|
      invariant kept == KeptOf(files[..i], preserve) && keptFiles == |kept| && keptBytes == Bytes(kept)
    {
      var c := files[i];
      assert files[..i + 1][..i] == files[..i];
      if c.name in preserve || (keptFiles < MAX_FILES && keptBytes + c.size <= MAX_BYTES) {
        assert (kept + [c])[..|kept|] == kept;
        keptFiles, keptBytes, kept := keptFiles + 1, keptBytes + c.size, kept + [c];
      }
    }
    assert files[..|files|] == files;
  }

  /** With nothing to preserve both budgets hold: 32 files and 64 MiB. */
  lemma {:induction false} WithinBudgets(files: seq<Candidate>)
    ensures |KeptOf(files, {})| <= 32 && Bytes(KeptOf(files, {})) <= 67_108_864
  {
    if files != [] {
      var front, c := KeptOf(files[..|files| - 1], {}), files[|files| - 1];
      WithinBudgets(files[..|files| - 1]);
      assert (front + [c])[..|front|] == front;
    }
  }

  /** The newest files are all kept as long as they fit together, and so is everything to preserve. */
  lemma {:induction false} NewestAreKept(files: seq<Candidate>, preserve: set<string>, n: nat)
    requires n <= |files| && n <= 32 && Bytes(files[..n]) <= 67_108_864
    ensures files[..n] <= KeptOf(files, preserve)
    ensures forall c | c in files && c.name in preserve :: c in KeptOf(files, preserve)
  {
    if files != [] {
      var last := |files| - 1;
      assert files == files[..last] + [files[last]];
      if n == |files| {
        assert files[..n][..last] == files[..last] == files[..last][..last];
        NewestAreKept(files[..last], preserve, last);
        KeptIsShorter(files[..last], preserve);
        assert KeptOf(files[..last], preserve) == files[..last] && files[..n] == files;
      } else {
        assert files[..last][..n] == files[..n];
        NewestAreKept(files[..last], preserve, n);
      }
    }
  }

  lemma {:induction false} KeptIsShorter(files: seq<Candidate>, preserve: set<string>)
    ensures |KeptOf(files, preserve)| <= |files|
  {
    if files != [] {
      KeptIsShorter(files[..|files| - 1], preserve);
    }
  }
}
