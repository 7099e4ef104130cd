/** The provenance marker of DNS cluster replication to cPanel and DirectAdmin peers: which remote zones the
    panel may overwrite or delete, with every remote call and every database session its own step, and third
    parties acting between them (daemon/dnscluster.py:420-535, 651-691). */
module ClusterProvenance {

  datatype Owner = Boron | Foreign

  /** The peer's zone of the name in question; `version` counts the changes made to it. */
  datatype Remote = Absent | Present(owner: Owner, version: nat)

  /** `direction` of the zone-state row; Legacy is the old generic marker, which proves nothing. */
  datatype Marker = NoRow | Owned | Skipped | Missing | Legacy

  datatype Kind = CPanel | DirectAdmin

  /** Where the worker stands; `owned` is what it read from the marker when it loaded the job. */
  datatype Worker =
    | Idle
    | Upsert(owned: bool)          // nothing called yet
    | Vanished                     // cPanel: the dump showed that the zone is gone
    | Create                       // cPanel: about to call adddns with allowoverwrite=0
    | Created                      // cPanel: adddns succeeded, marker not written yet
    | Mutate                       // cPanel: removing and adding records
    | Checked                      // DirectAdmin, check and save interleaved: the zone was absent
    | Delete(owned: bool)
    | Report(marker: Marker)       // delivery over; the last session writes the marker

  /** `claimed`: the panel created the zone and has not recorded since then that it is gone. */
  datatype System = System(kind: Kind, remote: Remote, marker: Marker, worker: Worker, claimed: bool)

  datatype Step =
    | LoadUpsert
    | LoadDelete
    | Call(lost: bool)     // one remote call; if lost, its reply is, after the call took effect
    | Fail                 // a call or a session fails without effect, or the daemon dies
    | Session              // one database session
    | MoreRecords(last: bool)  // cPanel: one record removed or added, or none left
    | ForeignCreate
    | ForeignChange
    | ForeignDelete

  predicate IsForeign(step: Step) { step.ForeignCreate? || step.ForeignChange? || step.ForeignDelete? }

  function Bumped(r: Remote): Remote
    requires r.Present?
  {
    r.(version := r.version + 1)
  }

  /** What one remote call does: the zone, the claim and where the worker goes. An error of the peer ends
      the delivery. */
  function Called(s: System, atomicSave: bool): System {
    match (s.kind, s.worker)
    // cPanel upsert: dumpzone on an owned zone, adddns otherwise
    case (CPanel, Upsert(owned)) =>
      if !owned then s.(worker := Create)
      else if s.remote.Absent? then s.(worker := Vanished)
      else s.(worker := Mutate)
    case (CPanel, Create) =>
      if s.remote.Present? then s.(worker := Idle)
      else s.(remote := Present(Boron, 0), claimed := true, worker := Created)
    // DirectAdmin upsert: rawsave, guarded by an existence check unless the zone is owned
    case (DirectAdmin, Upsert(owned)) =>
      if owned then Saved(s)
      else if s.remote.Present? then s.(worker := Report(Skipped))
      else if atomicSave then Saved(s)
      else s.(worker := Checked)
    case (DirectAdmin, Checked) => Saved(s)
    // delete
    case (_, Delete(owned)) =>
      if owned then s.(remote := Absent, worker := Report(NoRow)) else s.(worker := Report(NoRow))
    case _ => s
  }

  /** rawsave creates an absent zone and overwrites an existing one. */
  function Saved(s: System): System {
    if s.remote.Absent? then s.(remote := Present(Boron, 0), claimed := true, worker := Report(Owned))
    else s.(remote := Bumped(s.remote), worker := Report(Owned))
  }

  predicate AwaitsCall(w: Worker) {
    w.Upsert? || w.Create? || w.Checked? || w.Delete?
  }

  /** One step. With `atomicSave`, nothing comes between DirectAdmin's existence check and rawsave. */
  ghost predicate Next(atomicSave: bool, s: System, step: Step, s': System) {
    match step
    case LoadUpsert => s.worker.Idle? && s' == s.(worker := Upsert(s.marker.Owned?))
    case LoadDelete => s.worker.Idle? && s' == s.(worker := Delete(s.marker.Owned?))
    case Call(lost) =>
      AwaitsCall(s.worker)
      && s' == if lost then Called(s, atomicSave).(worker := Idle) else Called(s, atomicSave)
    case Fail => s' == s.(worker := Idle)
    case Session =>
      (match s.worker
       case Vanished =>
         s' == s.(marker := if s.marker.NoRow? then NoRow else Missing, claimed := false, worker := Create)
       case Created => s' == s.(marker := Owned, worker := Mutate)
       case Report(m) => s' == s.(marker := m, claimed := s.claimed && !m.NoRow?, worker := Idle)
       case _ => false)
    case MoreRecords(last) =>
      s.worker.Mutate?
      && s' == if last then s.(worker := Report(Owned))
               else if s.remote.Absent? then s.(worker := Idle)
               else s.(remote := Bumped(s.remote))
    case ForeignCreate => s.remote.Absent? && !s.claimed && s' == s.(remote := Present(Foreign, 0))
    case ForeignChange => s.remote.Present? && s' == s.(remote := Bumped(s.remote))
    case ForeignDelete => s' == s.(remote := Absent)
  }

  /** Before the first delivery: any zone at the peer is foreign, and no marker claims ownership. */
  ghost predicate Initial(s: System) {
    s.worker.Idle? && !s.claimed && !s.marker.Owned? && (s.remote.Present? ==> s.remote.owner.Foreign?)
  }

  /** A zone of a third party is exactly as it was. */
  predicate Spared(s: System, s': System) {
    s.remote.Present? && s.remote.owner.Foreign? ==> s'.remote == s.remote
  }

  /** The worker is past the point where it relies on ownership. */
  predicate ActsAsOwner(w: Worker) {
    (w.Upsert? && w.owned) || w.Vanished? || w.Created? || w.Mutate? || (w.Delete? && w.owned)
    || (w.Report? && w.marker.Owned?)
  }

  ghost predicate Inv(s: System) {
    (s.claimed ==> s.remote.Absent? || s.remote.owner.Boron?)
    && (s.marker.Owned? ==> s.claimed)
    && (ActsAsOwner(s.worker) ==> s.claimed)
    && !s.worker.Checked?
    && (s.worker.Report? && !s.marker.Owned? ==> s.worker.marker in {NoRow, Skipped, Owned})
  }

  lemma {:induction false} InvNext(s: System, step: Step, s': System)
    requires Inv(s) && Next(true, s, step, s')
    ensures Inv(s') && (!IsForeign(step) ==> Spared(s, s'))
  {
  }

  ghost predicate Run(atomicSave: bool, states: seq<System>, steps: seq<Step>) {
    |states| == |steps| + 1 && Initial(states[0])
    && forall i | 0 <= i < |steps| :: Next(atomicSave, states[i], steps[i], states[i + 1])
  }

  lemma {:induction false} InvRun(states: seq<System>, steps: seq<Step>, i: nat)
    requires Run(true, states, steps) && i < |states|
    ensures Inv(states[i])
  {
    hide Next;
    if i > 0 {
      InvRun(states, steps, i - 1);
      assert Next(true, states[i - 1], steps[i - 1], states[i]);
      InvNext(states[i - 1], steps[i - 1], states[i]);
    }
  }

  /** Over every run no step of the panel changes or deletes a zone that it did not create: not on first
      sends, skips, failures after creation, observed deletions or retries. */
  lemma {:induction false} ForeignZonesAreSpared(states: seq<System>, steps: seq<Step>, i: nat)
    requires Run(true, states, steps) && i < |steps| && !IsForeign(steps[i])
    ensures Spared(states[i], states[i + 1])
  {
    InvRun(states, steps, i);
    InvNext(states[i], steps[i], states[i + 1]);
  }

  /** The marker proves creation: while it says owned, some earlier step of the panel created the zone, and
      what the peer holds now is that zone or nothing. */
  lemma {:induction false} OwnedMeansCreated(states: seq<System>, steps: seq<Step>, i: nat)
    requires Run(true, states, steps) && i < |states| && states[i].marker.Owned?
    ensures exists j ::
              0 <= j < i && !IsForeign(steps[j]) && states[j].remote.Absent?
              && states[j + 1].remote == Present(Boron, 0)
    ensures states[i].remote.Absent? || states[i].remote.owner.Boron?
  {
    InvRun(states, steps, i);
    ClaimHasOrigin(states, steps, i);
  }

  lemma {:induction false} ClaimHasOrigin(states: seq<System>, steps: seq<Step>, i: nat)
    requires Run(true, states, steps) && i < |states| && states[i].claimed
    ensures exists j ::
              0 <= j < i && !IsForeign(steps[j]) && states[j].remote.Absent?
              && states[j + 1].remote == Present(Boron, 0)
  {
    if i > 0 && !states[i - 1].claimed {
      assert Next(true, states[i - 1], steps[i - 1], states[i]);
      InvRun(states, steps, i - 1);
      assert states[i - 1].remote.Absent? && states[i].remote == Present(Boron, 0);
    } else if i > 0 {
      ClaimHasOrigin(states, steps, i - 1);
    }
  }

  /** The assumption about DirectAdmin is needed: if a third party may act between the existence check and
      rawsave, its zone is overwritten. */
  lemma {:induction false} InterleavedSaveOverwrites() returns (states: seq<System>, steps: seq<Step>)
    ensures Run(false, states, steps) && |steps| == 4
    ensures !IsForeign(steps[3]) && !Spared(states[3], states[4])
  {
    var s0 := System(DirectAdmin, Absent, NoRow, Idle, false);
    var s1 := s0.(worker := Upsert(false));
    var s2 := s1.(worker := Checked);
    var s3 := s2.(remote := Present(Foreign, 0));
    var s4 := s3.(remote := Present(Foreign, 1), worker := Report(Owned));
    states, steps := [s0, s1, s2, s3, s4], [LoadUpsert, Call(false), ForeignCreate, Call(false)];
    assert Next(false, s0, steps[0], s1) && Next(false, s1, steps[1], s2);
    assert Next(false, s2, steps[2], s3) && Next(false, s3, steps[3], s4);
  }

  // What a delivery does when nothing comes between.

  ghost predicate Path(states: seq<System>, steps: seq<Step>) {
    |states| == |steps| + 1 && forall i | 0 <= i < |steps| :: Next(true, states[i], steps[i], states[i + 1])
  }

  /** Steps of the panel of which none fails or loses its reply. */
  ghost predicate Undisturbed(steps: seq<Step>) {
    forall s | s in steps :: !IsForeign(s) && s != Fail && s != Call(true)
  }

  lemma {:induction false} Further(states: seq<System>, steps: seq<Step>, step: Step, s: System)
    returns (states': seq<System>, steps': seq<Step>)
    requires Path(states, steps) && Undisturbed(steps) && Next(true, states[|steps|], step, s)
    requires !IsForeign(step) && step != Fail && step != Call(true)
    ensures states' == states + [s] && steps' == steps + [step] && Path(states', steps') && Undisturbed(steps')
  {
    hide Next, IsForeign;
    states', steps' := states + [s], steps + [step];
    assert forall t | t in steps' :: t in steps || t == step;
  }

  lemma {:induction false} Start(s: System)
    ensures Path([s], []) && Undisturbed([])
  {
  }

  /** An upsert to a peer without the zone creates it and says so; one to a peer with a third party's zone changes
      nothing there; one to a zone on record as created by the panel writes to it. */
  lemma {:induction false} UpsertDelivered(s: System) returns (states: seq<System>, steps: seq<Step>)
    requires s.worker.Idle? && (s.marker.Owned? ==> s.remote.Present?)
    ensures Path(states, steps) && Undisturbed(steps) && states[0] == s && steps != [] && steps[0] == LoadUpsert
    ensures var t := states[|steps|];
            t.worker.Idle? && t.remote.Present?
            && (s.remote.Absent? ==> t.remote.owner.Boron? && t.marker.Owned?)
            && (s.remote.Present? && !s.marker.Owned? ==>
                  t.remote == s.remote && t.marker == if s.kind.DirectAdmin? then Skipped else s.marker)
            && (s.marker.Owned? ==>
                  t.marker.Owned? && t.remote.owner == s.remote.owner && t.remote.version == s.remote.version + 1)
  {
    hide Path, Undisturbed;
    Start(s);
    states, steps := [s], [];
    var s1 := s.(worker := Upsert(s.marker.Owned?));
    states, steps := Further(states, steps, LoadUpsert, s1);
    var s2 := Called(s1, true);
    states, steps := Further(states, steps, Call(false), s2);
    if s.kind.DirectAdmin? {
      states, steps := Further(states, steps, Session, s2.(marker := s2.worker.marker, worker := Idle));
    } else if s.marker.Owned? {
      var s3 := s2.(remote := Bumped(s2.remote));
      states, steps := Further(states, steps, MoreRecords(false), s3);
      var s4 := s3.(worker := Report(Owned));
      states, steps := Further(states, steps, MoreRecords(true), s4);
      states, steps := Further(states, steps, Session, s4.(marker := Owned, worker := Idle));
    } else {
      var s3 := Called(s2, true);
      states, steps := Further(states, steps, Call(false), s3);
      if s.remote.Absent? {
        var s4 := s3.(marker := Owned, worker := Mutate);
        states, steps := Further(states, steps, Session, s4);
        var s5 := s4.(worker := Report(Owned));
        states, steps := Further(states, steps, MoreRecords(true), s5);
        states, steps := Further(states, steps, Session, s5.(marker := Owned, worker := Idle));
      }
    }
  }

  /** A deletion takes the zone away exactly if it is on record as created by the panel, and forgets it. */
  lemma {:induction false} DeleteDelivered(s: System) returns (states: seq<System>, steps: seq<Step>)
    requires s.worker.Idle?
    ensures Path(states, steps) && Undisturbed(steps) && states[0] == s && steps != [] && steps[0] == LoadDelete
    ensures var t := states[|steps|];
            t.worker.Idle? && t.marker.NoRow? && t.remote == if s.marker.Owned? then Absent else s.remote
  {
    hide Path, Undisturbed;
    Start(s);
    states, steps := [s], [];
    var s1 := s.(worker := Delete(s.marker.Owned?));
    states, steps := Further(states, steps, LoadDelete, s1);
    var s2 := Called(s1, true);
    states, steps := Further(states, steps, Call(false), s2);
    states, steps := Further(states, steps, Session, s2.(marker := NoRow, claimed := false, worker := Idle));
  }
}
