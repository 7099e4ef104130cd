/** Backup and restore admission, job progress and retention (daemon/backup.py:321-433, 836-903, 1017-1076).
    Admission and retention hold the queue lock; the workers' own steps happen between any two sections. */
module BackupQueue {
  import opened Text

  datatype Status = Pending | Running | Completed | Failed | Expired

  /** A shelf is what retention counts within: one account's backups of one kind on one destination. */
  datatype Shelf = Shelf(account: nat, destination: nat, kind: string)

  datatype Backup = Backup(shelf: Shelf, status: Status, completedAt: nat)

  datatype Restore = Restore(account: nat, backup: nat, status: Status)

  /** When a backup completed, on which shelf. */
  datatype Completion = Completion(shelf: Shelf, stamp: nat)

  /** A worker's own step. Publish stores the artifact under a fresh name; a backup can fail even after it
      completed, when its retention pass raises. */
  datatype Activity = StartBackup(id: nat) | Publish(id: nat) | Complete(id: nat) | FailBackup(id: nat)
                    | StartRestore(id: nat) | EndRestore(id: nat, ok: bool)

  datatype Event = AdmitBackup(shelf: Shelf, busy: bool) | AdmitRestore(account: nat, backup: nat, busy: bool)
                 | Act(activity: Activity) | Retain(job: nat, count: nat)

  type Backups = map<nat, Backup>
  type Restores = map<nat, Restore>

  /** Everything a worker can change. */
  datatype Books = Books(backups: Backups, restores: Restores, artifacts: set<nat>, clock: nat)

  /** The books with what retention did and what is left of the gaps. */
  datatype Ledger = Ledger(books: Books, done: map<nat, Completion>, deleted: set<nat>, lost: set<nat>,
                           gaps: seq<seq<Activity>>)

  predicate Active(s: Status) { s.Pending? || s.Running? }

  function BusyBackups(backups: Backups, account: nat): set<nat> {
    set b | b in backups && backups[b].shelf.account == account && Active(backups[b].status)
  }

  function BusyRestores(restores: Restores, account: nat): set<nat> {
    set r | r in restores && restores[r].account == account && Active(restores[r].status)
  }

  /** The active restores of one backup. */
  function Readers(restores: Restores, backup: nat): set<nat> {
    set r | r in restores && restores[r].backup == backup && Active(restores[r].status)
  }

  /** At most one backup or restore of an account is pending or running. */
  ghost predicate OneAtATime(backups: Backups, restores: Restores) {
    forall a: nat :: |BusyBackups(backups, a)| + |BusyRestores(restores, a)| <= 1
  }

  // The same on the rows themselves.

  ghost predicate UnderWay(s: Status) { s == Pending || s == Running }

  ghost predicate Idle(backups: Backups, restores: Restores, account: nat) {
    (forall b | b in backups && backups[b].shelf.account == account :: !UnderWay(backups[b].status))
    && forall r | r in restores && restores[r].account == account :: !UnderWay(restores[r].status)
  }

  /** No two jobs of one account are pending or running. */
  ghost predicate Alone(backups: Backups, restores: Restores) {
    (forall b, c | b in backups && c in backups && UnderWay(backups[b].status) && UnderWay(backups[c].status)
                   && backups[b].shelf.account == backups[c].shelf.account :: b == c)
    && (forall r, q | r in restores && q in restores && UnderWay(restores[r].status) && UnderWay(restores[q].status)
                      && restores[r].account == restores[q].account :: r == q)
    && forall b, r | b in backups && r in restores && UnderWay(backups[b].status) && UnderWay(restores[r].status) ::
         backups[b].shelf.account != restores[r].account
  }

  lemma {:induction false} IdleExactly(backups: Backups, restores: Restores, account: nat)
    ensures Idle(backups, restores, account)
            <==> BusyBackups(backups, account) == {} && BusyRestores(restores, account) == {}
  {
    forall b ensures b in BusyBackups(backups, account)
                     <==> b in backups && backups[b].shelf.account == account && UnderWay(backups[b].status) {
    }
    forall r ensures r in BusyRestores(restores, account)
                     <==> r in restores && restores[r].account == account && UnderWay(restores[r].status) {
    }
  }

  lemma {:induction false} AtMostOne(s: set<nat>, a: nat, b: nat)
    requires |s| <= 1 && a in s && b in s
    ensures a == b
  {
    if a != b {
      Fewer({a, b}, s);
    }
  }

  lemma {:induction false} NotBoth(s: set<nat>, t: set<nat>, a: nat, b: nat)
    requires |s| + |t| <= 1
    ensures a !in s || b !in t
  {
    if a in s {
      Fewer({a}, s);
    }
  }

  lemma {:induction false} AloneExactly(backups: Backups, restores: Restores)
    requires OneAtATime(backups, restores)
    ensures Alone(backups, restores)
  {
    forall b, c | b in backups && c in backups && UnderWay(backups[b].status) && UnderWay(backups[c].status)
                  && backups[b].shelf.account == backups[c].shelf.account
      ensures b == c {
      AtMostOne(BusyBackups(backups, backups[b].shelf.account), b, c);
    }
    forall r, q | r in restores && q in restores && UnderWay(restores[r].status) && UnderWay(restores[q].status)
                  && restores[r].account == restores[q].account
      ensures r == q {
      AtMostOne(BusyRestores(restores, restores[r].account), r, q);
    }
    forall b, r | b in backups && r in restores && UnderWay(backups[b].status) && UnderWay(restores[r].status)
      ensures backups[b].shelf.account != restores[r].account {
      var a := restores[r].account;
      NotBoth(BusyBackups(backups, a), BusyRestores(restores, a), b, r);
    }
  }

  /** What an active restore reads is a completed backup, exactly if its row did not fail late, and its artifact
      is there, exactly if no retention pass died between deleting it and saying so. */
  ghost predicate ReadersServed(backups: Backups, restores: Restores, artifacts: set<nat>, late: set<nat>,
                                lost: set<nat>) {
    forall r | r in restores && Active(restores[r].status) :: Served(backups, restores, artifacts, late, lost, r)
  }

  /** A completed row has its artifact, but for those a retention pass deleted and has not recorded. */
  ghost predicate RowsHonest(backups: Backups, artifacts: set<nat>, done: map<nat, Completion>, gone: set<nat>,
                             late: set<nat>) {
    (forall b | b in backups && backups[b].status.Completed? ::
       b in done && done[b] == Completion(backups[b].shelf, backups[b].completedAt) && b !in late
       && (b in artifacts <==> b !in gone))
    && (forall b | b in backups && Active(backups[b].status) :: b !in done && b !in late && b !in gone)
  }

  /** The backups of the same shelf that completed after `b`. */
  ghost function Newer(done: map<nat, Completion>, b: nat): set<nat>
    requires b in done
  {
    set j | j in done && done[j].shelf == done[b].shelf && done[j].stamp > done[b].stamp
  }

  /** Retention deleted only backups with at least `floor` newer ones; every other completed one has its artifact. */
  ghost predicate NewestSurvive(artifacts: set<nat>, done: map<nat, Completion>, deleted: set<nat>, floor: nat) {
    (forall b | b in deleted :: b in done && |Newer(done, b)| >= floor)
    && (forall b | b in done :: b in artifacts <==> b !in deleted)
  }

  ghost predicate Stamped(done: map<nat, Completion>, clock: nat) {
    (forall b | b in done :: done[b].stamp < clock)
    && (forall b, c | b in done && c in done && done[b].stamp == done[c].stamp :: b == c)
  }

  ghost predicate IdsBelow(backups: Backups, restores: Restores, artifacts: set<nat>, done: map<nat, Completion>,
                           late: set<nat>, next: nat) {
    (forall b | b in backups || b in artifacts || b in done || b in late :: b < next)
    && forall r | r in restores :: r < next
  }

  /** Workers only move their own jobs on: no row comes or goes, and no restore becomes active. */
  ghost predicate Progress(backups: Backups, restores: Restores, after: Backups, later: Restores) {
    after.Keys == backups.Keys && later.Keys == restores.Keys
    && (forall b | b in backups ::
         after[b].shelf == backups[b].shelf && (Active(after[b].status) ==> Active(backups[b].status)))
    && (forall r | r in restores :: later[r].account == restores[r].account && later[r].backup == restores[r].backup
                                    && (Active(later[r].status) ==> Active(restores[r].status)))
  }

  /** What one step of a worker does; a step that its job's status does not allow does nothing. */
  function After(k: Books, a: Activity): Books {
    match a
    case StartBackup(id) =>
      if id in k.backups && k.backups[id].status.Pending? then k.(backups := WithStatus(k.backups, id, Running)) else k
    case Publish(id) =>
      if id in k.backups && k.backups[id].status.Running? then k.(artifacts := k.artifacts + {id}) else k
    case Complete(id) =>
      if !Completes(k, a) then k
      else k.(backups := k.backups[id := Backup(k.backups[id].shelf, Completed, k.clock)], clock := k.clock + 1)
    case FailBackup(id) =>
      if id in k.backups && !k.backups[id].status.Failed? then k.(backups := WithStatus(k.backups, id, Failed)) else k
    case StartRestore(id) =>
      if id in k.restores && k.restores[id].status.Pending?
      then k.(restores := k.restores[id := k.restores[id].(status := Running)]) else k
    case EndRestore(id, ok) =>
      if id in k.restores && Active(k.restores[id].status)
      then k.(restores := k.restores[id := k.restores[id].(status := if ok then Completed else Failed)]) else k
  }

  function WithStatus(backups: Backups, id: nat, status: Status): Backups
    requires id in backups
  {
    backups[id := backups[id].(status := status)]
  }

  /** The step is the completion of a running backup whose artifact is stored. */
  predicate Completes(k: Books, a: Activity) {
    a.Complete? && a.id in k.backups && k.backups[a.id].status.Running? && a.id in k.artifacts
  }

  function DoneAfter(k: Books, done: map<nat, Completion>, a: Activity): map<nat, Completion> {
    if Completes(k, a) then done[a.id := Completion(k.backups[a.id].shelf, k.clock)] else done
  }

  /** The backup whose row the step fails although it completed. */
  function HitBy(k: Books, a: Activity): set<nat> {
    if a.FailBackup? && a.id in k.backups && k.backups[a.id].status.Completed? then {a.id} else {}
  }

  function AfterAll(k: Books, acts: seq<Activity>): Books {
    if acts == [] then k else After(AfterAll(k, acts[..|acts| - 1]), acts[|acts| - 1])
  }

  function HitByAll(k: Books, acts: seq<Activity>): set<nat> {
    if acts == [] then {}
    else HitByAll(k, acts[..|acts| - 1]) + HitBy(AfterAll(k, acts[..|acts| - 1]), acts[|acts| - 1])
  }

  /** The backups that some step in the gaps, or some event, fails. */
  function FailedIn(gaps: seq<seq<Activity>>): set<nat> {
    set i, j | 0 <= i < |gaps| && 0 <= j < |gaps[i]| && gaps[i][j].FailBackup? :: gaps[i][j].id
  }

  function FailedBy(events: seq<Event>): set<nat> {
    set i | 0 <= i < |events| && events[i].Act? && events[i].activity.FailBackup? :: events[i].activity.id
  }

  /** The jobs of the retention passes among the events. */
  function JobsOf(events: seq<Event>, raised: seq<nat>): set<nat> {
    set i | i in raised && i < |events| && events[i].Retain? :: events[i].job
  }

  lemma {:induction false} HitsAreFailures(k: Books, acts: seq<Activity>, gaps: seq<seq<Activity>>)
    requires gaps != [] && acts <= gaps[0]
    ensures HitByAll(k, acts) <= FailedIn(gaps)
  {
    if acts != [] {
      var n := |acts| - 1;
      assert gaps[0][..n] == acts[..n];
      HitsAreFailures(k, acts[..n], gaps);
      assert gaps[0][n] == acts[n];
    }
  }

  lemma {:induction false} FailedLater(gaps: seq<seq<Activity>>, rest: seq<seq<Activity>>)
    requires |rest| <= |gaps| && rest == gaps[|gaps| - |rest|..]
    ensures FailedIn(rest) <= FailedIn(gaps)
  {
    forall x | x in FailedIn(rest) ensures x in FailedIn(gaps) {
      var i, j :| 0 <= i < |rest| && 0 <= j < |rest[i]| && rest[i][j].FailBackup? && rest[i][j].id == x;
      assert gaps[|gaps| - |rest| + i] == rest[i];
    }
  }

  lemma {:induction false} ProgressKeepsOneAtATime(backups: Backups, restores: Restores, after: Backups,
                                                   later: Restores)
    requires OneAtATime(backups, restores) && Progress(backups, restores, after, later)
    ensures OneAtATime(after, later)
  {
    forall a: nat ensures |BusyBackups(after, a)| + |BusyRestores(later, a)| <= 1 {
      Fewer(BusyBackups(after, a), BusyBackups(backups, a));
      Fewer(BusyRestores(later, a), BusyRestores(restores, a));
    }
  }

  lemma {:induction false} AdmissionKeepsOneAtATime(backups: Backups, restores: Restores, after: Backups,
                                                    later: Restores, account: nat, id: nat)
    requires OneAtATime(backups, restores) && BusyBackups(backups, account) == {}
    requires BusyRestores(restores, account) == {}
    requires (exists b: Backup ::
                after == backups[id := b] && later == restores && b.shelf.account == account && id !in backups)
             || (exists r: Restore ::
                   later == restores[id := r] && after == backups && r.account == account && id !in restores)
    ensures OneAtATime(after, later)
  {
    forall a: nat ensures |BusyBackups(after, a)| + |BusyRestores(later, a)| <= 1 {
      assert |BusyBackups(backups, a)| + |BusyRestores(restores, a)| <= 1;
      if a == account {
        assert BusyBackups(after, a) <= {id} && BusyRestores(later, a) <= {id};
        Fewer(BusyBackups(after, a), {id});
        Fewer(BusyRestores(later, a), {id});
      } else {
        assert BusyBackups(after, a) == BusyBackups(backups, a) && BusyRestores(later, a) == BusyRestores(restores, a);
      }
    }
  }

  lemma {:induction false} IdsStay(backups: Backups, restores: Restores, after: Backups, later: Restores,
                                   artifacts: set<nat>, done: map<nat, Completion>, late: set<nat>, next: nat)
    requires IdsBelow(backups, restores, artifacts, done, late, next) && Progress(backups, restores, after, later)
    ensures IdsBelow(after, later, artifacts, done, late, next)
  {
  }

  lemma {:induction false} IdBelow(backups: Backups, restores: Restores, artifacts: set<nat>,
                                   done: map<nat, Completion>, late: set<nat>, next: nat, id: nat)
    requires IdsBelow(backups, restores, artifacts, done, late, next) && id in backups
    ensures id < next
  {
  }

  lemma {:induction false} IdsWith(backups: Backups, restores: Restores, artifacts: set<nat>,
                                   done: map<nat, Completion>, late: set<nat>, next: nat, id: nat, c: Completion)
    requires IdsBelow(backups, restores, artifacts, done, late, next) && id < next
    ensures IdsBelow(backups, restores, artifacts, done[id := c], late, next)
  {
  }

  lemma {:induction false} IdsLate(backups: Backups, restores: Restores, artifacts: set<nat>,
                                   done: map<nat, Completion>, late: set<nat>, next: nat, id: nat)
    requires IdsBelow(backups, restores, artifacts, done, late, next) && id < next
    ensures IdsBelow(backups, restores, artifacts, done, late + {id}, next)
  {
  }

  /** A completion takes no backup's newer ones away. */
  lemma {:induction false} OneMoreDone(artifacts: set<nat>, done: map<nat, Completion>, deleted: set<nat>, floor: nat,
                                       id: nat, shelf: Shelf, clock: nat)
    requires NewestSurvive(artifacts, done, deleted, floor) && id !in done && id in artifacts
    ensures NewestSurvive(artifacts, done[id := Completion(shelf, clock)], deleted, floor)
  {
    var after := done[id := Completion(shelf, clock)];
    forall b | b in deleted ensures b in after && |Newer(after, b)| >= floor {
      Fewer(Newer(done, b), Newer(after, b));
    }
  }

  class Daemon {
    /** No retention pass keeps fewer than `floor`. */
    ghost const floor: nat
    var backups: Backups
    var restores: Restores
    var artifacts: set<nat>
    var next: nat
    var clock: nat
    /** What the workers do in the gaps of a retention pass, and the fate of the calls it makes. */
    var gaps: seq<seq<Activity>>
    var script: seq<bool>
    /** Every backup that ever completed; those whose artifact retention deleted; the one deleted and not yet
        recorded; those a pass died on before recording it; those whose row failed after completing. */
    ghost var done: map<nat, Completion>
    ghost var deleted: set<nat>
    ghost var unlinked: set<nat>
    ghost var lost: set<nat>
    ghost var late: set<nat>

    ghost predicate Valid()
      reads this`backups, this`restores, this`artifacts, this`next, this`clock
      reads this`done, this`deleted, this`unlinked, this`lost, this`late
    {
      OneAtATime(backups, restores) && ReadersServed(backups, restores, artifacts, late, lost)
      && RowsHonest(backups, artifacts, done, unlinked + lost, late) && NewestSurvive(artifacts, done, deleted, floor)
      && Stamped(done, clock) && IdsBelow(backups, restores, artifacts, done, late, next)
      && lost <= deleted && unlinked <= deleted && late <= done.Keys
      && forall r | r in unlinked :: Readers(restores, r) == {}
    }

    ghost function Now(): Books
      reads this`backups, this`restores, this`artifacts, this`clock
    {
      Books(backups, restores, artifacts, clock)
    }

    ghost function Whole(): Ledger
      reads this`backups, this`restores, this`artifacts, this`clock, this`done, this`deleted, this`lost, this`gaps
    {
      Ledger(Now(), done, deleted, lost, gaps)
    }

    constructor (ghost floor: nat)
      ensures Valid() && this.floor == floor && backups == map[] && restores == map[] && artifacts == {}
      ensures unlinked == {} && lost == {} && late == {} && deleted == {} && done == map[]
    {
      this.floor := floor;
      backups, restores, artifacts, next, clock, gaps, script := map[], map[], {}, 0, 0, [], [];
      done, deleted, unlinked, lost, late := map[], {}, {}, {}, {};
      new;
      forall a: nat ensures BusyBackups(backups, a) == {} && BusyRestores(restores, a) == {} {
      }
    }

    /** `_trigger_backup_locked`; `busy` says that a snapshot job of the account is active. */
    method AdmitBackup(shelf: Shelf, busy: bool) returns (admitted: Option<nat>)
      requires Valid() && unlinked == {}
      modifies this`backups, this`next
      ensures Valid()
      ensures admitted.Some? <==> !busy && Idle(old(backups), restores, shelf.account)
      ensures admitted.Some? ==>
                admitted.value !in old(backups) && backups == old(backups)[admitted.value := Backup(shelf, Pending, 0)]
      ensures admitted.None? ==> backups == old(backups)
    {
      hide OneAtATime, Stamped, Idle;
      IdleExactly(backups, restores, shelf.account);
      if busy || BusyRestores(restores, shelf.account) != {} || BusyBackups(backups, shelf.account) != {} {
        return None;
      }
      AdmissionKeepsOneAtATime(backups, restores, backups[next := Backup(shelf, Pending, 0)], restores, shelf.account,
          next);
      admitted := Some(next);
      backups := backups[next := Backup(shelf, Pending, 0)];
      next := next + 1;
    }

    /** `_trigger_restore_locked`. */
    method AdmitRestore(account: nat, backup: nat, busy: bool) returns (admitted: Option<nat>)
      requires Valid() && unlinked == {}
      modifies this`restores, this`next
      ensures Valid()
      ensures admitted.Some? <==>
                backup in backups && backups[backup].shelf.account == account && backups[backup].status.Completed?
                && !busy && Idle(backups, old(restores), account)
      ensures admitted.Some? ==> admitted.value !in old(restores)
                                 && restores == old(restores)[admitted.value := Restore(account, backup, Pending)]
      ensures admitted.None? ==> restores == old(restores)
    {
      hide OneAtATime, NewestSurvive, Stamped, Idle;
      IdleExactly(backups, restores, account);
      if backup !in backups || backups[backup].shelf.account != account || !backups[backup].status.Completed? {
        return None;
      }
      if busy || BusyBackups(backups, account) != {} || BusyRestores(restores, account) != {} {
        return None;
      }
      AdmissionKeepsOneAtATime(backups, restores, backups, restores[next := Restore(account, backup, Pending)], account,
          next);
      admitted := Some(next);
      restores := restores[next := Restore(account, backup, Pending)];
      next := next + 1;
    }

    /** A worker moves a backup that it has not finished to another status. */
    method Move(id: nat, status: Status)
      requires Valid() && id in backups && Active(backups[id].status) && !status.Completed? && !status.Pending?
      modifies this`backups
      ensures Valid() && backups == old(backups)[id := old(backups)[id].(status := status)]
      ensures Progress(old(backups), restores, backups, restores)
    {
      hide OneAtATime, NewestSurvive, Stamped, IdsBelow;
      backups := backups[id := backups[id].(status := status)];
      ProgressKeepsOneAtATime(old(backups), restores, backups, restores);
      assert IdsBelow(backups, restores, artifacts, done, late, next) by {
        IdsStay(old(backups), restores, backups, restores, artifacts, done, late, next);
      }
    }

    /** The artifact is stored under a name nothing else uses. */
    method Store(id: nat)
      requires Valid() && id in backups && backups[id].status.Running?
      modifies this`artifacts
      ensures Valid() && artifacts == old(artifacts) + {id}
    {
      hide OneAtATime, Stamped;
      artifacts := artifacts + {id};
    }

    method Finish(id: nat)
      requires Valid() && id in backups && backups[id].status.Running? && id in artifacts
      modifies this`backups, this`clock, this`done
      ensures Valid() && backups == old(backups)[id := Backup(old(backups)[id].shelf, Completed, old(clock))]
      ensures done == old(done)[id := Completion(backups[id].shelf, old(clock))] && clock == old(clock) + 1
      ensures Progress(old(backups), restores, backups, restores)
    {
      hide OneAtATime, NewestSurvive, IdsBelow;
      assert id < next by { IdBelow(backups, restores, artifacts, done, late, next, id); }
      OneMoreDone(artifacts, done, deleted, floor, id, backups[id].shelf, clock);
      done := done[id := Completion(backups[id].shelf, clock)];
      backups := backups[id := backups[id].(status := Completed, completedAt := clock)];
      clock := clock + 1;
      ProgressKeepsOneAtATime(old(backups), restores, backups, restores);
      IdsStay(old(backups), restores, backups, restores, artifacts, old(done), late, next);
      IdsWith(backups, restores, artifacts, old(done), late, next, id, done[id]);
    }

    /** A job that completed is marked failed after all, because its worker raised later on. */
    method FailLate(id: nat)
      requires Valid() && id in backups && backups[id].status in {Completed, Expired}
      modifies this`backups, this`late
      ensures Valid() && backups == old(backups)[id := old(backups)[id].(status := Failed)]
      ensures late == if old(backups)[id].status.Completed? then old(late) + {id} else old(late)
      ensures Progress(old(backups), restores, backups, restores)
    {
      hide OneAtATime, NewestSurvive, Stamped, IdsBelow;
      assert id < next by { IdBelow(backups, restores, artifacts, done, late, next, id); }
      if backups[id].status.Completed? {
        late := late + {id};
      }
      backups := backups[id := backups[id].(status := Failed)];
      ProgressKeepsOneAtATime(old(backups), restores, backups, restores);
      IdsStay(old(backups), restores, backups, restores, artifacts, done, old(late), next);
      IdsLate(backups, restores, artifacts, done, old(late), next, id);
    }

    method MoveRestore(id: nat, status: Status)
      requires Valid() && id in restores && Active(restores[id].status) && !status.Pending?
      modifies this`restores
      ensures Valid() && restores == old(restores)[id := old(restores)[id].(status := status)]
      ensures Progress(backups, old(restores), backups, restores)
    {
      hide OneAtATime, NewestSurvive, Stamped, IdsBelow, RowsHonest;
      restores := restores[id := restores[id].(status := status)];
      ProgressKeepsOneAtATime(backups, old(restores), backups, restores);
      IdsStay(backups, old(restores), backups, restores, artifacts, done, late, next);
      forall b | b in unlinked ensures Readers(restores, b) == {} {
        assert Readers(restores, b) <= Readers(old(restores), b);
      }
    }

    /** One step of a worker. */
    method Perform(a: Activity) returns (ghost hit: set<nat>)
      requires Valid()
      modifies this`backups, this`restores, this`artifacts, this`clock, this`done, this`late
      ensures Valid() && Now() == After(old(Now()), a) && done == DoneAfter(old(Now()), old(done), a)
      ensures hit == HitBy(old(Now()), a) && late == old(late) + hit
      ensures Progress(old(backups), old(restores), backups, restores) && Kept(old(done), done)
    {
      hide OneAtATime, NewestSurvive, Stamped, IdsBelow, RowsHonest, ReadersServed;
      hit := HitBy(Now(), a);
      match a
      case StartBackup(id) => if id in backups && backups[id].status.Pending? { Move(id, Running); }
      case Publish(id) => if id in backups && backups[id].status.Running? { Store(id); }
      case Complete(id) =>
        if id in backups && backups[id].status.Running? && id in artifacts { NotYetDone(id); Finish(id); }
      case FailBackup(id) =>
        if id in backups && Active(backups[id].status) {
          Move(id, Failed);
        } else if id in backups && backups[id].status in {Completed, Expired} {
          FailLate(id);
        }
      case StartRestore(id) => if id in restores && restores[id].status.Pending? { MoveRestore(id, Running); }
      case EndRestore(id, ok) =>
        if id in restores && Active(restores[id].status) { MoveRestore(id, if ok then Completed else Failed); }
    }

    lemma {:induction false} NotYetDone(id: nat)
      requires Valid() && id in backups && Active(backups[id].status)
      ensures id !in done
    {
    }

    /** What the other workers do while a retention pass is between two of its steps: exactly the next gap. */
    method Meanwhile() returns (ghost hits: set<nat>)
      requires Valid()
      modifies this`backups, this`restores, this`artifacts, this`clock, this`done, this`late, this`gaps
      ensures Valid() && gaps == (if old(gaps) == [] then [] else old(gaps)[1..])
      ensures var acts := if old(gaps) == [] then [] else old(gaps)[0];
              Now() == AfterAll(old(Now()), acts) && hits == HitByAll(old(Now()), acts)
      ensures late == old(late) + hits && hits <= FailedIn(old(gaps))
      ensures Progress(old(backups), old(restores), backups, restores) && Kept(old(done), done)
    {
      hide Valid, After, HitBy, DoneAfter, FailedIn;
      var acts := if gaps == [] then [] else gaps[0];
      gaps := if gaps == [] then [] else gaps[1..];
      hits := {};
      for i := 0 to |acts|
        invariant Valid() && Progress(old(backups), old(restores), backups, restores) && Kept(old(done), done)
        invariant Now() == AfterAll(old(Now()), acts[..i]) && hits == HitByAll(old(Now()), acts[..i])
        invariant late == old(late) + hits
        invariant gaps == (if old(gaps) == [] then [] else old(gaps)[1..])
      {
        assert acts[..i + 1][..i] == acts[..i];
        var hit := Perform(acts[i]);
        hits := hits + hit;
      }
      assert acts[..|acts|] == acts;
      if old(gaps) != [] {
        HitsAreFailures(old(Now()), acts, old(gaps));
      }
    }

    method Call() returns (ok: bool)
      modifies this`script
      ensures false !in old(script) ==> ok && false !in script
      ensures ok == (old(script) == [] || old(script)[0])
      ensures script == (if old(script) == [] then [] else old(script)[1..])
    {
      ok := script == [] || script[0];
      script := if script == [] then [] else script[1..];
    }

    method Unlink(v: nat)
      requires Valid() && unlinked == {} && v in done && v in artifacts && |Newer(done, v)| >= floor
      requires Readers(restores, v) == {}
      modifies this`artifacts, this`deleted, this`unlinked
      ensures Valid() && unlinked == {v} && artifacts == old(artifacts) - {v} && deleted == old(deleted) + {v}
    {
      hide OneAtATime, Stamped, Newer;
      artifacts, deleted, unlinked := artifacts - {v}, deleted + {v}, {v};
      forall r | r in restores && Active(restores[r].status) ensures restores[r].backup != v {
        assert r in Readers(restores, restores[r].backup);
      }
    }

    /** Say so: the row goes, or stays as expired history when a restore refers to it. */
    method Record(v: nat)
      requires Valid() && unlinked == {v} && v in done && v !in artifacts && v !in lost
      modifies this`backups, this`unlinked
      ensures Valid() && unlinked == {}
      ensures forall b | b != v :: b in backups <==> b in old(backups)
      ensures forall b | b != v && b in backups :: backups[b] == old(backups)[b]
      ensures v in backups ==> v in old(backups) && backups[v] == old(backups)[v].(status := Expired)
      ensures v in backups <==> v in old(backups) && Cited(restores, v)
    {
      hide Stamped, NewestSurvive, OneAtATime;
      unlinked := {};
      forall r | r in restores && Active(restores[r].status) ensures restores[r].backup != v {
        assert r in Readers(restores, restores[r].backup);
      }
      if v in backups {
        var citing := set r | r in restores && restores[r].backup == v;
        CitedOrNot(restores, v, citing);
        if citing != {} {
          backups := backups[v := backups[v].(status := Expired)];
        } else {
          backups := backups - {v};
        }
        SameBusy(old(backups), restores, backups, v);
      }
    }

    /** One expired backup of a retention pass; it raises when the row cannot be updated. */
    method Expire(v: nat) returns (raised: bool, ghost hits: set<nat>)
      requires Valid() && unlinked == {} && v in done && |Newer(done, v)| >= floor
      modifies this
      ensures Valid() && unlinked == {} && WentOn(old(Whole()), Whole()) && deleted <= old(deleted) + {v}
      ensures late == old(late) + hits && hits <= FailedIn(old(gaps))
      ensures if raised then v in deleted - old(deleted) && lost == old(lost) + {v} else lost == old(lost)
      ensures false !in old(script) ==> !raised && false !in script && (v in deleted || Cited(restores, v))
      ensures (old(gaps) == [] && Readers(old(restores), v) == {} && v in old(artifacts)
               && DiesRecording(old(script))) ==>
                raised && backups == old(backups) && restores == old(restores)
    {
      hide Valid, Newer, Progress, Readers, Cited, FailedIn, After, HitBy, DiesRecording, WentOn, NoneStarted, Kept;
      hide Rest;
      hits := Aside(v);
      if Readers(restores, v) != {} {
        ReaderCites(restores, v);
        return false, hits;
      }
      label Checked:
      ghost var more;
      raised, more := Discard(v);
      hits := hits + more;
      Onwards(old(Whole()), old@Checked(Whole()), Whole());
    }

    /** The deletion of an artifact nobody reads, and its record. */
    method Discard(v: nat) returns (raised: bool, ghost hits: set<nat>)
      requires Valid() && unlinked == {} && v in done && |Newer(done, v)| >= floor && Readers(restores, v) == {}
      modifies this
      ensures Valid() && unlinked == {} && WentOn(old(Whole()), Whole()) && deleted <= old(deleted) + {v}
      ensures late == old(late) + hits && hits <= FailedIn(old(gaps))
      ensures if raised then v in deleted - old(deleted) && lost == old(lost) + {v} else lost == old(lost)
      ensures false !in old(script) ==> !raised && false !in script && v in deleted
      ensures old(gaps) == [] && v in old(artifacts) && DiesRecording(old(script)) ==>
                raised && backups == old(backups) && restores == old(restores)
    {
      hide Valid, Newer, Progress, Readers, Cited, FailedIn, After, HitBy, DiesRecording, WentOn, NoneStarted, Kept;
      hide Rest;
      Dying(script);
      hits := Aside(v);
      raised := false;
      Whereabouts(v);
      var ok := Call();
      if !ok || v !in artifacts {
        return;
      }
      label Unlinking:
      Unlink(v);
      Onwards(old(Whole()), old@Unlinking(Whole()), Whole());
      label Gone:
      ghost var more := Aside(v);
      hits := hits + more;
      Onwards(old(Whole()), old@Gone(Whole()), Whole());
      Whereabouts(v);
      label Reporting:
      raised := Report(v);
      Onwards(old(Whole()), old@Reporting(Whole()), Whole());
    }

    /** Say that the artifact of `v` is gone, or die before. */
    method Report(v: nat) returns (raised: bool)
      requires Valid() && unlinked == {v} && v in done && v !in artifacts && v !in lost
      modifies this`backups, this`unlinked, this`lost, this`script
      ensures Valid() && unlinked == {} && WentOn(old(Whole()), Whole())
      ensures raised <==> old(script) != [] && !old(script)[0]
      ensures script == (if old(script) == [] then [] else old(script)[1..])
      ensures lost == (if raised then old(lost) + {v} else old(lost)) && (raised ==> backups == old(backups))
    {
      hide Valid, Newer, Readers, Cited;
      var ok := Call();
      raised := !ok;
      if raised {
        Lose(v);
      } else {
        Record(v);
        RowGone(old(Whole()), Whole(), v);
      }
    }

    /** The other workers' turn while a pass has `v` in hand. */
    method Aside(v: nat) returns (ghost hits: set<nat>)
      requires Valid() && v in done && |Newer(done, v)| >= floor
      modifies this`backups, this`restores, this`artifacts, this`clock, this`done, this`late, this`gaps
      ensures Valid() && WentOn(old(Whole()), Whole()) && v in done && |Newer(done, v)| >= floor
      ensures late == old(late) + hits && hits <= FailedIn(old(gaps)) && FailedIn(gaps) <= FailedIn(old(gaps))
      ensures old(gaps) == [] ==> gaps == [] && Now() == old(Now())
      ensures Readers(old(restores), v) == {} ==> Readers(restores, v) == {}
    {
      hide Valid, Newer, Progress, Readers, Cited, NoneStarted, FailedIn, After, HitBy, Rest;
      hits := Meanwhile();
      RestOf(old(gaps), gaps, gaps);
      Follows(old(backups), old(restores), backups, restores, old(done), done, v);
    }

    /** The pass dies between deleting an artifact and recording it. */
    ghost method Lose(v: nat)
      requires Valid() && unlinked == {v}
      modifies this`lost, this`unlinked
      ensures Valid() && unlinked == {} && lost == old(lost) + {v}
    {
      hide OneAtATime, Stamped, NewestSurvive;
      forall r | r in restores && Active(restores[r].status) ensures restores[r].backup != v {
        assert r in Readers(restores, restores[r].backup);
      }
      lost, unlinked := lost + {v}, {};
    }

    lemma {:induction false} Whereabouts(v: nat)
      requires Valid() && v in done
      ensures v in artifacts <==> v !in deleted
      ensures lost <= deleted
    {
    }

    /** `_enforce_retention_locked`, with other workers busy in every gap: whatever the calls do, only backups
        with `count` newer ones on their shelf go, and without failures all of them go that no restore cites. If it
        raises it has lost track of one of them, and its own job, completed though it is, is marked failed. */
    method EnforceRetention(job: nat, count: nat) returns (raised: bool, ghost hits: set<nat>, ghost victim: nat)
      requires Valid() && unlinked == {} && floor <= count
      modifies this
      ensures Valid() && unlinked == {} && WentOn(old(Whole()), Whole())
      ensures late == old(late) + hits && hits <= FailedIn(old(gaps)) + (if raised then {job} else {})
      ensures forall v | v in deleted - old(deleted) :: job in old(backups) && v in Selected(old(backups), job, count)
      ensures if raised then victim in deleted - old(deleted) && lost == old(lost) + {victim} else lost == old(lost)
      ensures raised ==> victim in done && |Newer(done, victim)| >= count
      ensures false !in old(script) ==> !raised && false !in script
      ensures false !in old(script) && job in old(backups) ==>
                forall v | v in Selected(old(backups), job, count) :: v in deleted || Cited(restores, v)
      ensures old(gaps) == [] && job in old(backups) && Selected(old(backups), job, count) != {}
              && DiesRecording(old(script))
              && (forall v | v in Selected(old(backups), job, count) ::
                   v in old(artifacts) && Readers(old(restores), v) == {}) ==>
                raised && restores == old(restores) && forall b | b != job :: Same(old(backups), backups, b)
    {
      hide Valid, Newer, NewerRows, Progress, Readers, Cited, FailedIn, DiesRecording, Finished, WentOn, After, HitBy;
      hits, victim := {}, job;
      StaysPut(Whole());
      if job !in backups {
        return false, {}, job;
      }
      var shelf := backups[job].shelf;
      StampsDiffer(shelf);
      var order := NewestFirst(Finished(backups, shelf));
      var victims := if count <= |order| then order[count..] else [];
      SelectedAreOld(order, victims, shelf, count);
      SelectedIs(backups, job, count);
      raised, hits, victim := ExpireAll(victims);
      if raised {
        StillNewer(old(Whole()), Whole(), victim);
        label Raised:
        var hit := Perform(FailBackup(job));
        hits := hits + hit;
        JobFailed(old@Raised(Whole()), Whole(), job);
        Onwards(old(Whole()), old@Raised(Whole()), Whole());
      }
    }

    method ExpireAll(victims: seq<nat>) returns (raised: bool, ghost hits: set<nat>, ghost victim: nat)
      requires Valid() && unlinked == {} && forall v | v in victims :: v in done && |Newer(done, v)| >= floor
      modifies this
      ensures Valid() && unlinked == {} && WentOn(old(Whole()), Whole())
      ensures late == old(late) + hits && hits <= FailedIn(old(gaps))
      ensures forall v | v in deleted - old(deleted) :: v in victims
      ensures if raised then victim in deleted - old(deleted) && lost == old(lost) + {victim} else lost == old(lost)
      ensures false !in old(script) ==>
                !raised && false !in script && forall v | v in victims :: v in deleted || Cited(restores, v)
      ensures old(gaps) == [] && victims != [] && DiesRecording(old(script))
              && victims[0] in old(artifacts) && Readers(old(restores), victims[0]) == {} ==>
                raised && restores == old(restores) && backups == old(backups)
    {
      hide Valid, Newer, Readers, Cited, FailedIn, DiesRecording, WentOn;
      raised, hits, victim := false, {}, 0;
      StaysPut(Whole());
      for i := 0 to |victims|
        invariant Valid() && unlinked == {} && lost == old(lost) && !raised && WentOn(old(Whole()), Whole())
        invariant late == old(late) + hits && hits <= FailedIn(old(gaps))
        invariant false !in old(script) ==> false !in script
        invariant forall v | v in deleted - old(deleted) :: v in victims
        invariant false !in old(script) ==>
                  forall k | 0 <= k < i :: victims[k] in deleted || Cited(restores, victims[k])
        invariant i == 0 ==> script == old(script) && gaps == old(gaps) && Now() == old(Now())
        invariant i > 0 ==> !(old(gaps) == [] && DiesRecording(old(script)) && victims[0] in old(artifacts)
                              && Readers(old(restores), victims[0]) == {})
      {
        var v := victims[i];
        StillNewer(old(Whole()), Whole(), v);
        label Next:
        ghost var hit;
        raised, hit := Expire(v);
        hits := hits + hit;
        Onwards(old(Whole()), old@Next(Whole()), Whole());
        CitedOn(old@Next(Whole()), Whole());
        if raised {
          victim := v;
          return;
        }
      }
    }

    lemma {:induction false} StampsDiffer(shelf: Shelf)
      requires Valid()
      ensures forall b | b in Finished(backups, shelf) :: b in backups
      ensures forall b, c | b in Finished(backups, shelf) && c in Finished(backups, shelf)
                            && backups[b].completedAt == backups[c].completedAt :: b == c
    {
      hide OneAtATime, NewestSurvive, ReadersServed, IdsBelow;
    }

    /** What a pass selects is exactly what has `count` newer completed rows on its shelf. */
    lemma {:induction false} SelectedAreOld(order: seq<nat>, victims: seq<nat>, shelf: Shelf, count: nat)
      requires Valid() && Ordered(order, backups) && Elements(order) == Finished(backups, shelf)
      requires victims == if count <= |order| then order[count..] else []
      ensures forall v :: v in victims <==> v in Finished(backups, shelf) && |NewerRows(backups, v)| >= count
      ensures forall v | v in victims :: v in done && |Newer(done, v)| >= count
    {
      hide OneAtATime, NewestSurvive, ReadersServed, IdsBelow, Stamped;
      forall v ensures v in victims <==> v in Finished(backups, shelf) && |NewerRows(backups, v)| >= count
               ensures v in victims ==> v in done && |Newer(done, v)| >= count {
        if v in Elements(order) {
          var i :| 0 <= i < |order| && order[i] == v;
          RankIsIndex(order, shelf, i);
          assert i >= count ==> victims[i - count] == v;
          assert v in victims ==> exists k :: 0 <= k < |victims| && victims[k] == v;
          Fewer(NewerRows(backups, v), Newer(done, v));
        } else {
          assert v !in order;
        }
      }
    }

    lemma {:induction false} RankIsIndex(order: seq<nat>, shelf: Shelf, i: nat)
      requires Ordered(order, backups) && Elements(order) == Finished(backups, shelf) && i < |order|
      ensures order[i] in Finished(backups, shelf) && |NewerRows(backups, order[i])| == i
    {
      assert order[i] in Elements(order);
      assert NewerRows(backups, order[i]) == Elements(order[..i]) by {
        forall b | b in NewerRows(backups, order[i]) ensures b in Elements(order[..i]) {
          assert b in Elements(order);
          var k :| 0 <= k < |order| && order[k] == b;
          assert k < i;
          assert order[..i][k] == b;
        }
        forall b | b in Elements(order[..i]) ensures b in NewerRows(backups, order[i]) {
          var k :| 0 <= k < i && order[k] == b;
          assert b in Elements(order);
        }
      }
      Distinct(order[..i]);
    }

    /** One event, as it says: an admission adds a row exactly when nothing of the account is under way, a worker's step
        does what it does, and a retention pass deletes what has enough newer ones, all of it but what a restore
        cites while no call fails. */
    method Handle(e: Event) returns (raised: bool, ghost hits: set<nat>, ghost victim: nat)
      requires Valid() && unlinked == {} && (e.Retain? ==> floor <= e.count)
      modifies this
      ensures Valid() && unlinked == {} && Kept(old(done), done) && FailedIn(gaps) <= FailedIn(old(gaps))
      ensures old(deleted) <= deleted && (raised ==> e.Retain? && victim in done && |Newer(done, victim)| >= e.count)
      ensures false !in old(script) ==> !raised && false !in script
      ensures late == old(late) + hits && hits <= FailedAt(e) + FailedIn(old(gaps)) + (if raised then {e.job} else {})
      ensures if raised then victim in deleted - old(deleted) && lost == old(lost) + {victim} else lost == old(lost)
      ensures Stepped(e, old(Whole()), Whole())
      ensures e.Retain? && false !in old(script) && e.job in old(backups) ==>
                forall v | v in Selected(old(backups), e.job, e.count) :: v in deleted || Cited(restores, v)
    {
      hide Valid, FailedIn, NoneStarted, Rest, Selected, Newer, Cited, Readers, DiesRecording, Same, After, Idle;
      raised, hits, victim := false, {}, 0;
      match e {
        case AdmitBackup(shelf, busy) => var id := AdmitBackup(shelf, busy);
        case AdmitRestore(account, backup, busy) => var id := AdmitRestore(account, backup, busy);
        case Act(a) => hits := Perform(a);
        case Retain(job, count) =>
          raised, hits, victim := EnforceRetention(job, count);
          RestOf(old(gaps), gaps, gaps);
      }
    }

    /** Over every run, whatever the workers, the calls and the gaps do, each event does what it says (`trace`): one job
        per account at a time; the newest `floor` backups that ever completed on a shelf keep their artifacts; an active
        restore's backup row is completed and its artifact there, unless a step failed that backup after it had
        completed (`hits`, and then the events or the gaps hold that step, or a pass of its own raised) or a pass
        raised and lost its artifact (`raised` are the events that did, none while no call fails, and `victims` what
        each of them lost). */
    method Run(events: seq<Event>)
      returns (raised: seq<nat>, ghost hits: set<nat>, ghost victims: seq<nat>, ghost trace: seq<Ledger>)
      requires Valid() && unlinked == {}
      requires forall i | 0 <= i < |events| && events[i].Retain? :: floor <= events[i].count
      modifies this
      ensures Valid() && unlinked == {} && Kept(old(done), done)
      ensures |trace| == |events| + 1 && trace[0] == old(Whole()) && trace[|events|] == Whole()
      ensures forall i | 0 <= i < |events| :: Stepped(events[i], trace[i], trace[i + 1])
      ensures Alone(backups, restores)
      ensures forall b | b in done && |Newer(done, b)| < floor :: b in artifacts
      ensures forall i | i in raised :: i < |events| && events[i].Retain?
      ensures false !in old(script) ==> raised == []
      ensures late == old(late) + hits && hits <= FailedBy(events) + FailedIn(old(gaps)) + JobsOf(events, raised)
      ensures lost == old(lost) + Elements(victims) && lost <= deleted
      ensures Lost(events, raised, victims, done, old(deleted), deleted)
      ensures forall r | r in restores && UnderWay(restores[r].status) ::
                Served(backups, restores, artifacts, late, lost, r)
      ensures old(late) == {} && old(lost) == {} && hits == {} && raised == [] ==>
                forall r | r in restores && UnderWay(restores[r].status) ::
                  var b := restores[r].backup; b in backups && backups[b].status.Completed? && b in artifacts
      ensures (old(late) == {} && old(lost) == {} && false !in old(script)
               && FailedBy(events) == {} && FailedIn(old(gaps)) == {}) ==>
                forall r | r in restores && UnderWay(restores[r].status) ::
                  var b := restores[r].backup; b in backups && backups[b].status.Completed? && b in artifacts
    {
      hide Valid, FailedIn, FailedBy, JobsOf, Kept, Served, Newer, FailedAt, BusyBackups, BusyRestores, Lost, Elements,
           Alone, Stepped;
      NoneLost(events, done, deleted);
      raised, hits, victims, trace := [], {}, [], [Whole()];
      KeptTwice(done, done, done);
      for i := 0 to |events|
        invariant Valid() && unlinked == {} && Kept(old(done), done) && FailedIn(gaps) <= FailedIn(old(gaps))
        invariant forall j | j in raised :: j < i && events[j].Retain?
        invariant false !in old(script) ==> false !in script && raised == []
        invariant late == old(late) + hits && hits <= FailedBy(events) + FailedIn(old(gaps)) + JobsOf(events, raised)
        invariant |victims| == |raised| && lost == old(lost) + Elements(victims) && old(deleted) <= deleted
        invariant Lost(events, raised, victims, done, old(deleted), deleted)
        invariant |trace| == i + 1 && trace[0] == old(Whole()) && trace[i] == Whole()
        invariant forall j | 0 <= j < i :: Stepped(events[j], trace[j], trace[j + 1])
      {
        ghost var had, gone := done, deleted;
        ghost var hit, victim;
        var failed: bool;
        failed, hit, victim := Handle(events[i]);
        FailedAmong(events, raised, i);
        StillLost(events, raised, victims, had, done, old(deleted), gone, deleted);
        if failed {
          LostOneMore(events, raised, victims, done, old(deleted), gone, deleted, i, victim);
          raised, victims := raised + [i], victims + [victim];
        }
        KeptTwice(old(done), had, done);
        hits, trace := hits + hit, trace + [Whole()];
      }
      NoJobs(events);
      Promised();
    }

    /** What the invariant promises to the outside. */
    lemma {:induction false} Promised()
      requires Valid()
      ensures Alone(backups, restores)
      ensures forall b | b in done && |Newer(done, b)| < floor :: b in artifacts
      ensures forall r | r in restores && UnderWay(restores[r].status) ::
                Served(backups, restores, artifacts, late, lost, r)
      ensures lost <= deleted
      ensures late == {} && lost == {} ==>
                forall r | r in restores && UnderWay(restores[r].status) ::
                  restores[r].backup in backups && backups[restores[r].backup].status.Completed?
                  && restores[r].backup in artifacts
    {
      hide IdsBelow, Stamped, RowsHonest, BusyBackups, BusyRestores, Newer, Alone, OneAtATime;
      AloneExactly(backups, restores);
    }

    /** A backup from admission to completion. */
    method BackUp(shelf: Shelf) returns (id: nat)
      requires Valid() && unlinked == {} && BusyBackups(backups, shelf.account) == {}
      requires BusyRestores(restores, shelf.account) == {}
      modifies this
      ensures Valid() && id !in old(backups) && backups == old(backups)[id := Backup(shelf, Completed, old(clock))]
      ensures clock == old(clock) + 1
      ensures done == old(done)[id := Completion(shelf, old(clock))] && id in artifacts && id !in late
      ensures restores == old(restores) && unlinked == {} && lost == old(lost) && deleted == old(deleted)
      ensures BusyBackups(backups, shelf.account) == {}
      ensures gaps == old(gaps) && script == old(script)
    {
      hide Valid, BusyRestores, BusyBackups, Newer, Idle;
      IdleExactly(backups, restores, shelf.account);
      var admitted := AdmitBackup(shelf, false);
      id := admitted.value;
      Work(id);
      assert backups == old(backups)[id := Backup(shelf, Completed, old(clock))];
      NotBusy(old(backups), backups, id, shelf.account);
    }

    /** The worker's steps of an admitted backup. */
    method Work(id: nat)
      requires Valid() && id in backups && backups[id].status.Pending?
      modifies this`backups, this`restores, this`artifacts, this`clock, this`done, this`late
      ensures Valid() && backups == old(backups)[id := Backup(old(backups)[id].shelf, Completed, old(clock))]
      ensures clock == old(clock) + 1 && done == old(done)[id := Completion(backups[id].shelf, old(clock))]
      ensures restores == old(restores) && id in artifacts && id !in late
    {
      hide Valid, Progress, Kept, HitBy;
      var hit := Perform(StartBackup(id));
      hit := Perform(Publish(id));
      hit := Perform(Complete(id));
      CompletedIsThere(id);
    }

    lemma {:induction false} CompletedIsThere(id: nat)
      requires Valid() && id in backups && backups[id].status.Completed?
      ensures id !in late && id in done
    {
      hide OneAtATime, NewestSurvive, Stamped, IdsBelow, ReadersServed;
    }

    /** ORDER BY completed_at DESC. */
    method NewestFirst(ids: set<nat>) returns (order: seq<nat>)
      requires forall b | b in ids :: b in backups
      requires forall b, c | b in ids && c in ids && backups[b].completedAt == backups[c].completedAt :: b == c
      ensures Ordered(order, backups) && Elements(order) == ids
    {
      hide Ordered, Elements;
      order := [];
      NoOrder(backups);
      var left := ids;
      while left != {}
        invariant left <= ids && Ordered(order, backups) && Elements(order) == ids - left
      {
        var b :| b in left;
        OrderedOnes(order, backups);
        var at := 0;
        while at < |order| && backups[order[at]].completedAt > backups[b].completedAt
          invariant at <= |order| && forall k | 0 <= k < at :: backups[order[k]].completedAt > backups[b].completedAt
        {
          at := at + 1;
        }
        Inserted(order, backups, at, b);
        InsertedElements(order, at, b);
        order := order[..at] + [b] + order[at..];
        left := left - {b};
      }
    }
  }

  /** The completed rows of the job's shelf that have `count` newer ones. */
  ghost function Selected(backups: Backups, job: nat, count: nat): set<nat>
    requires job in backups
  {
    set v | v in backups && backups[v].shelf == backups[job].shelf && backups[v].status == Completed
            && |NewerRows(backups, v)| >= count
  }

  lemma {:induction false} SelectedIs(backups: Backups, job: nat, count: nat)
    requires job in backups
    ensures forall v ::
              v in Selected(backups, job, count)
              <==> v in Finished(backups, backups[job].shelf) && |NewerRows(backups, v)| >= count
  {
  }

  lemma {:induction false} JobFailed(a: Ledger, b: Ledger, job: nat)
    requires b == a.(books := After(a.books, FailBackup(job)))
    ensures WentOn(a, b) && b.books.restores == a.books.restores && HitBy(a.books, FailBackup(job)) <= {job}
    ensures forall b0 | b0 != job :: Same(a.books.backups, b.books.backups, b0)
  {
  }

  /** What is left of the gaps later on. */
  ghost predicate Rest(gaps: seq<seq<Activity>>, rest: seq<seq<Activity>>) {
    |rest| <= |gaps| && rest == gaps[|gaps| - |rest|..]
  }

  lemma {:induction false} RestOf(gaps: seq<seq<Activity>>, rest: seq<seq<Activity>>, later: seq<seq<Activity>>)
    ensures Rest(gaps, if gaps == [] then [] else gaps[1..])
    ensures Rest(gaps, rest) ==> FailedIn(rest) <= FailedIn(gaps)
    ensures Rest(gaps, rest) && Rest(rest, later) ==> Rest(gaps, later)
    ensures Rest(gaps, rest) ==> Rest(gaps, if rest == [] then [] else rest[1..])
  {
    if Rest(gaps, rest) {
      FailedLater(gaps, rest);
    }
  }

  /** The row is as it was, or still absent. */
  ghost predicate Same(backups: Backups, after: Backups, b: nat) {
    (b in backups <==> b in after) && (b in backups ==> after[b] == backups[b])
  }

  /** No job became active; restores keep what they refer to, and rows their shelf. */
  ghost predicate NoneStarted(backups: Backups, restores: Restores, after: Backups, later: Restores) {
    later.Keys == restores.Keys
    && (forall b | b in after ::
         b in backups && after[b].shelf == backups[b].shelf && (Active(after[b].status) ==> Active(backups[b].status)))
    && (forall r | r in restores :: later[r].account == restores[r].account && later[r].backup == restores[r].backup
                                    && (Active(later[r].status) ==> Active(restores[r].status)))
  }

  /** What holds between any two moments of a run: completions stay, no job starts by itself, what is deleted stays
      deleted, and the gaps are used up from the front. */
  ghost predicate WentOn(a: Ledger, b: Ledger) {
    NoneStarted(a.books.backups, a.books.restores, b.books.backups, b.books.restores)
    && Kept(a.done, b.done) && a.deleted <= b.deleted && a.lost <= b.lost && Rest(a.gaps, b.gaps)
  }

  /** What an event leaves behind: an admission adds a row exactly when nothing of the account is under way, a worker's
      step does what it does, and a retention pass deletes only what has enough newer ones on the job's shelf. */
  ghost predicate Stepped(e: Event, a: Ledger, b: Ledger) {
    match e
    case AdmitBackup(shelf, busy) =>
      b.books.restores == a.books.restores && b.books.artifacts == a.books.artifacts && b.deleted == a.deleted
      && if !busy && Idle(a.books.backups, a.books.restores, shelf.account)
         then exists id: nat ::
                id !in a.books.backups && b.books.backups == a.books.backups[id := Backup(shelf, Pending, 0)]
         else b.books.backups == a.books.backups
    case AdmitRestore(account, backup, busy) =>
      b.books.backups == a.books.backups && b.books.artifacts == a.books.artifacts && b.deleted == a.deleted
      && if !busy && Idle(a.books.backups, a.books.restores, account) && backup in a.books.backups
            && a.books.backups[backup].shelf.account == account && a.books.backups[backup].status == Completed
         then exists id: nat ::
                id !in a.books.restores && b.books.restores == a.books.restores[id := Restore(account, backup, Pending)]
         else b.books.restores == a.books.restores
    case Act(activity) => b.books == After(a.books, activity) && b.deleted == a.deleted
    case Retain(job, count) =>
      a.deleted <= b.deleted
      && forall v | v in b.deleted - a.deleted :: job in a.books.backups && v in Selected(a.books.backups, job, count)
  }

  lemma {:induction false} StaysPut(a: Ledger)
    ensures WentOn(a, a)
  {
  }

  lemma {:induction false} Onwards(a: Ledger, b: Ledger, c: Ledger)
    requires WentOn(a, b)
    ensures WentOn(b, c) ==> WentOn(a, c)
    ensures (b.books == c.books.(artifacts := b.books.artifacts) && b.done == c.done && b.deleted <= c.deleted
             && b.lost <= c.lost && b.gaps == c.gaps) ==> WentOn(a, c)
    ensures a.deleted <= b.deleted && (WentOn(b, c) ==> b.deleted <= c.deleted)
    ensures FailedIn(b.gaps) <= FailedIn(a.gaps)
  {
    RestOf(a.gaps, b.gaps, c.gaps);
    RestOf(b.gaps, c.gaps, c.gaps);
  }

  lemma {:induction false} StillNewer(a: Ledger, b: Ledger, v: nat)
    requires WentOn(a, b) && v in a.done
    ensures v in b.done && |Newer(a.done, v)| <= |Newer(b.done, v)|
  {
    KeptNewer(a.done, b.done, v);
  }

  lemma {:induction false} CitedOn(a: Ledger, b: Ledger)
    requires WentOn(a, b)
    ensures forall v | Cited(a.books.restores, v) :: Cited(b.books.restores, v)
  {
    forall v | Cited(a.books.restores, v) ensures Cited(b.books.restores, v) {
      var r :| r in a.books.restores && a.books.restores[r].backup == v;
      assert r in b.books.restores && b.books.restores[r].backup == v;
    }
  }

  lemma {:induction false} RowGone(a: Ledger, b: Ledger, v: nat)
    requires forall b0 | b0 != v :: b0 in b.books.backups <==> b0 in a.books.backups
    requires forall b0 | b0 != v && b0 in b.books.backups :: b.books.backups[b0] == a.books.backups[b0]
    requires v in b.books.backups ==>
              v in a.books.backups && b.books.backups[v] == a.books.backups[v].(status := Expired)
    requires b == a.(books := a.books.(backups := b.books.backups))
    ensures WentOn(a, b)
  {
  }

  /** The next deletion works and the call after it, to record it, does not. */
  ghost predicate DiesRecording(script: seq<bool>) { |script| >= 2 && script[0] && !script[1] }

  lemma {:induction false} Dying(script: seq<bool>)
    ensures DiesRecording(script) ==> script[0] && script != [] && script[1..] != [] && !script[1..][0]
  {
  }

  ghost predicate Cited(restores: Restores, b: nat) { exists r :: r in restores && restores[r].backup == b }

  function Elements(s: seq<nat>): set<nat> { set b | b in s }

  /** The completed rows of a shelf. */
  function Finished(backups: Backups, shelf: Shelf): set<nat> {
    set b | b in backups && backups[b].shelf == shelf && backups[b].status.Completed?
  }

  ghost predicate Kept(done: map<nat, Completion>, later: map<nat, Completion>) {
    forall b | b in done :: b in later && later[b] == done[b]
  }

  /** The completed rows of the same shelf that are newer. */
  ghost function NewerRows(backups: Backups, b: nat): set<nat>
    requires b in backups
  {
    set j | j in backups && backups[j].shelf == backups[b].shelf && backups[j].status.Completed?
            && backups[j].completedAt > backups[b].completedAt
  }

  ghost predicate Ordered(order: seq<nat>, backups: Backups) {
    (forall b | b in order :: b in backups)
    && forall i, j | 0 <= i < j < |order| :: backups[order[i]].completedAt > backups[order[j]].completedAt
  }

  lemma {:induction false} NoOrder(backups: Backups)
    ensures Ordered([], backups) && Elements([]) == {}
  {
  }

  lemma {:induction false} OrderedOnes(order: seq<nat>, backups: Backups)
    requires Ordered(order, backups)
    ensures forall k | 0 <= k < |order| :: order[k] in backups && order[k] in Elements(order)
  {
  }

  lemma {:induction false} Inserted(order: seq<nat>, backups: Backups, at: nat, b: nat)
    requires Ordered(order, backups) && at <= |order| && b in backups
    requires forall k | 0 <= k < at :: backups[order[k]].completedAt > backups[b].completedAt
    requires at < |order| ==> backups[order[at]].completedAt < backups[b].completedAt
    ensures Ordered(order[..at] + [b] + order[at..], backups)
  {
    var more := order[..at] + [b] + order[at..];
    forall i | 0 <= i < |more| ensures more[i] == if i < at then order[i] else if i == at then b else order[i - 1] {
    }
    forall k | 0 <= k < |order| ensures k < at <==> backups[order[k]].completedAt > backups[b].completedAt {
      assert at <= k ==> backups[order[at]].completedAt >= backups[order[k]].completedAt;
    }
  }

  lemma {:induction false} InsertedElements(order: seq<nat>, at: nat, b: nat)
    requires at <= |order|
    ensures Elements(order[..at] + [b] + order[at..]) == Elements(order) + {b}
  {
    assert order == order[..at] + order[at..];
  }

  lemma {:induction false} Distinct(s: seq<nat>)
    requires forall i, j | 0 <= i < j < |s| :: s[i] != s[j]
    ensures |Elements(s)| == |s|
  {
    if s != [] {
      var n := |s| - 1;
      Distinct(s[..n]);
      assert s == s[..n] + [s[n]];
      assert Elements(s) == Elements(s[..n]) + {s[n]};
    }
  }

  lemma {:induction false} KeptNewer(done: map<nat, Completion>, later: map<nat, Completion>, b: nat)
    requires Kept(done, later) && b in done
    ensures b in later && |Newer(done, b)| <= |Newer(later, b)|
  {
    Fewer(Newer(done, b), Newer(later, b));
  }

  lemma {:induction false} CitedOrNot(restores: Restores, v: nat, citing: set<nat>)
    requires citing == set r | r in restores && restores[r].backup == v
    ensures Cited(restores, v) <==> citing != {}
  {
    if citing != {} {
      var r :| r in citing;
      assert r in restores && restores[r].backup == v;
    }
    if Cited(restores, v) {
      var r :| r in restores && restores[r].backup == v;
      assert r in citing;
    }
  }

  lemma {:induction false} SameBusy(backups: Backups, restores: Restores, after: Backups, v: nat)
    requires OneAtATime(backups, restores) && v in backups && !Active(backups[v].status)
    requires after == backups - {v} || after == backups[v := backups[v].(status := Expired)]
    ensures OneAtATime(after, restores)
  {
    forall a: nat ensures |BusyBackups(after, a)| + |BusyRestores(restores, a)| <= 1 {
      assert BusyBackups(after, a) == BusyBackups(backups, a);
    }
  }

  lemma {:induction false} ReaderCites(restores: Restores, v: nat)
    requires Readers(restores, v) != {}
    ensures Cited(restores, v)
  {
    var r :| r in Readers(restores, v);
  }

  /** The workers neither open a backup to a new reader nor drop a citation or a completion. */
  lemma {:induction false} Follows(backups: Backups, restores: Restores, after: Backups, later: Restores,
                                   done: map<nat, Completion>, more: map<nat, Completion>, v: nat)
    requires Progress(backups, restores, after, later) && v in done && Kept(done, more)
    ensures Readers(restores, v) == {} ==> Readers(later, v) == {}
    ensures forall b | Cited(restores, b) :: Cited(later, b)
    ensures |Newer(done, v)| <= |Newer(more, v)|
    ensures NoneStarted(backups, restores, after, later)
  {
    assert Readers(later, v) <= Readers(restores, v);
    Fewer(Newer(done, v), Newer(more, v));
    forall b | Cited(restores, b) ensures Cited(later, b) {
      var r :| r in restores && restores[r].backup == b;
      assert r in later && later[r].backup == b;
    }
  }

  /** A run in which an active restore reads a backup whose row says failed: the worker raised after completing. */
  method LateFailureCounterexample() returns (d: Daemon, r: nat)
    ensures fresh(d) && d.Valid() && r in d.restores && Active(d.restores[r].status)
    ensures d.restores[r].backup in d.backups && d.backups[d.restores[r].backup].status.Failed?
  {
    hide Newer, Daemon.Valid, BusyBackups, BusyRestores, Readers, Progress, Kept, FailedIn;
    d := new Daemon(1);
    NobodyYet(0);
    var b := d.BackUp(Shelf(0, 0, "full"));
    IdleExactly(d.backups, d.restores, 0);
    var admitted := d.AdmitRestore(0, b, false);
    r := admitted.value;
    var hit := d.Perform(FailBackup(b));
  }

  /** A run in which an active restore finds no artifact: the retention pass of the second backup deletes the
      first one's and dies before recording it. */
  method DeadPassCounterexample() returns (d: Daemon, r: nat)
    ensures fresh(d) && d.Valid() && r in d.restores && Active(d.restores[r].status)
    ensures d.restores[r].backup !in d.artifacts
  {
    hide Newer, Daemon.Valid, WentOn, Cited, FailedIn, BusyBackups, BusyRestores, Readers, Selected;
    d := new Daemon(1);
    var shelf := Shelf(0, 0, "full");
    NobodyYet(0);
    var b := d.BackUp(shelf);
    var c := d.BackUp(shelf);
    NoReaders(b);
    d.Whereabouts(b);
    SecondIsNewer(d.backups, b, c);
    d.script := [true, false];
    d.gaps := [];
    label Before:
    var raised, hits, victim := d.EnforceRetention(c, 1);
    assert raised && Same(old@Before(d.backups), d.backups, b);
    StillIdle(old@Before(d.Whole()), d.Whole(), 0);
    d.Whereabouts(b);
    IdleExactly(d.backups, d.restores, 0);
    var admitted := d.AdmitRestore(0, b, false);
    r := admitted.value;
  }

  lemma {:induction false} StillIdle(a: Ledger, b: Ledger, account: nat)
    requires WentOn(a, b) && BusyBackups(a.books.backups, account) == {}
    requires BusyRestores(a.books.restores, account) == {}
    ensures BusyBackups(b.books.backups, account) == {} && BusyRestores(b.books.restores, account) == {}
    ensures Kept(a.done, b.done)
  {
    assert BusyBackups(b.books.backups, account) <= BusyBackups(a.books.backups, account);
    assert BusyRestores(b.books.restores, account) <= BusyRestores(a.books.restores, account);
  }

  lemma {:induction false} NotBusy(backups: Backups, after: Backups, id: nat, account: nat)
    requires BusyBackups(backups, account) == {} && id in after && after == backups[id := after[id]]
    requires !Active(after[id].status)
    ensures BusyBackups(after, account) == {}
  {
    assert BusyBackups(after, account) <= BusyBackups(backups, account);
  }

  lemma {:induction false} NobodyYet(account: nat)
    ensures BusyBackups(map[], account) == {} && BusyRestores(map[], account) == {}
  {
  }

  lemma {:induction false} NoReaders(b: nat)
    ensures Readers(map[], b) == {}
  {
  }

  lemma {:induction false} SecondIsNewer(backups: Backups, b: nat, c: nat)
    requires backups.Keys == {b, c} && b != c && backups[b].status.Completed? && backups[c].status.Completed?
    requires backups[b].shelf == backups[c].shelf && backups[b].completedAt < backups[c].completedAt
    ensures Selected(backups, c, 1) == {b}
  {
    assert NewerRows(backups, b) == {c} && NewerRows(backups, c) == {};
  }

  ghost predicate Served(backups: Backups, restores: Restores, artifacts: set<nat>, late: set<nat>, lost: set<nat>,
                         r: nat)
    requires r in restores
  {
    var b := restores[r].backup;
    b in backups && backups[b].shelf.account == restores[r].account
    && (backups[b].status.Completed? <==> b !in late) && (b in artifacts <==> b !in lost)
  }

  /** What an event fails, should that backup be completed. */
  function FailedAt(e: Event): set<nat> {
    if e.Act? && e.activity.FailBackup? then {e.activity.id} else {}
  }

  lemma {:induction false} FailedAmong(events: seq<Event>, raised: seq<nat>, i: nat)
    requires i < |events|
    ensures FailedAt(events[i]) <= FailedBy(events)
    ensures JobsOf(events, raised) <= JobsOf(events, raised + [i])
    ensures events[i].Retain? ==> events[i].job in JobsOf(events, raised + [i])
  {
    assert (raised + [i])[|raised|] == i;
    forall j | j in raised ensures j in raised + [i] {
    }
  }

  lemma {:induction false} KeptTwice(a: map<nat, Completion>, b: map<nat, Completion>, c: map<nat, Completion>)
    requires Kept(a, b) || a == b
    requires Kept(b, c) || b == c
    ensures Kept(a, c)
  {
  }

  lemma {:induction false} NoJobs(events: seq<Event>)
    ensures JobsOf(events, []) == {}
  {
  }

  /** What the passes that raised lost: one completed backup each, none twice and none that was deleted before, and
      each with as many newer ones on its shelf as its pass was to keep. */
  ghost predicate Lost(events: seq<Event>, raised: seq<nat>, victims: seq<nat>, done: map<nat, Completion>,
                       before: set<nat>, deleted: set<nat>) {
    |victims| == |raised|
    && (forall k | 0 <= k < |raised| ::
          raised[k] < |events| && events[raised[k]].Retain? && victims[k] in deleted - before
          && victims[k] in done && |Newer(done, victims[k])| >= events[raised[k]].count)
    && (forall k, l | 0 <= k < l < |victims| :: victims[k] != victims[l])
  }

  lemma {:induction false} NoneLost(events: seq<Event>, done: map<nat, Completion>, deleted: set<nat>)
    ensures Lost(events, [], [], done, deleted, deleted) && Elements([]) == {}
  {
  }

  lemma {:induction false} StillLost(events: seq<Event>, raised: seq<nat>, victims: seq<nat>,
                                     done: map<nat, Completion>, later: map<nat, Completion>, before: set<nat>,
                                     deleted: set<nat>, deletedLater: set<nat>)
    requires Lost(events, raised, victims, done, before, deleted) && Kept(done, later) && deleted <= deletedLater
    ensures Lost(events, raised, victims, later, before, deletedLater) && forall v | v in victims :: v in deleted
  {
    hide Newer;
    forall k | 0 <= k < |raised|
      ensures victims[k] in later && |Newer(done, victims[k])| <= |Newer(later, victims[k])| {
      KeptNewer(done, later, victims[k]);
    }
  }

  lemma {:induction false} LostOneMore(events: seq<Event>, raised: seq<nat>, victims: seq<nat>,
                                       done: map<nat, Completion>, before: set<nat>, earlier: set<nat>,
                                       deleted: set<nat>, i: nat, v: nat)
    requires Lost(events, raised, victims, done, before, deleted) && i < |events| && events[i].Retain?
    requires before <= earlier
    requires v in deleted - earlier && v in done && |Newer(done, v)| >= events[i].count
    requires forall u | u in victims :: u in earlier
    ensures Lost(events, raised + [i], victims + [v], done, before, deleted)
    ensures Elements(victims + [v]) == Elements(victims) + {v}
  {
    hide Newer;
  }
}
