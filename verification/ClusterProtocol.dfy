/** The sending side of DNS cluster replication and the whole protocol: a coalescing outbox row for one
    peer and zone, a worker, a network that loses requests and replies, and the receiver
    (daemon/dnscluster.py:246-257, 595-605, 628-704, 839-843). */
module ClusterProtocol {
  import opened Text
  import opened ClusterReceiver

  datatype JobStatus = Pending | Running | Retry

  datatype Job = Job(message: Message, status: JobStatus, attempts: nat)

  // ----- the outbox row -----

  /** What each session of the sender makes of the row; the class and the protocol share these. */
  function Renewed(m: Message): Job { Job(m, Pending, 0) }

  function Taken(job: Job): Job { job.(status := Running, attempts := job.attempts + 1) }

  function GivenUp(job: Option<Job>): Option<Job> {
    if job.Some? then Some(job.value.(status := Retry)) else None
  }

  function Recovered(job: Option<Job>): Option<Job> {
    if job.Some? && job.value.status.Running? then Some(job.value.(status := Pending)) else job
  }

  /** Completion removes the row only while it still carries the event that was sent. */
  function Completed(job: Option<Job>, event: string): Option<Job> {
    if job.Some? && job.value.message.event == event then None else job
  }

  class Outbox {
    var job: Option<Job>

    constructor ()
      ensures job == None
    {
      job := None;
    }

    /** `_enqueue_for_peer`: a new event replaces whatever the row held. */
    method Enqueue(event: string, action: Action)
      modifies this
      ensures job == Some(Renewed(Message(event, action)))
    {
      if job.None? {
        job := Some(Job(Message(event, action), Pending, 0));
      } else {
        job := Some(job.value.(message := Message(event, action), status := Pending, attempts := 0));
      }
    }

    /** The first session of `process_one`. */
    method Claim() returns (claimed: bool)
      modifies this
      ensures claimed <==> old(job).Some? && !old(job).value.status.Running?
      ensures job == if claimed then Some(Taken(old(job).value)) else old(job)
    {
      claimed := job.Some? && !job.value.status.Running?;
      if claimed {
        job := Some(job.value.(status := Running, attempts := job.value.attempts + 1));
      }
    }

    /** The second session: what will be sent; a row for a disabled peer is dropped. */
    method Load(enabled: bool) returns (message: Option<Message>)
      modifies this
      ensures job == if enabled then old(job) else None
      ensures message == if enabled && job.Some? then Some(job.value.message) else None
    {
      if !enabled {
        job := None;
      }
      message := if job.Some? then Some(job.value.message) else None;
    }

    /** The session after a delivery that the peer confirmed. */
    method Complete(event: string)
      modifies this
      ensures job == Completed(old(job), event)
    {
      if job.Some? && job.value.message.event == event {
        job := None;
      }
    }

    /** The session after a delivery that raised. */
    method GiveUp()
      modifies this
      ensures job == GivenUp(old(job))
    {
      if job.Some? {
        job := Some(job.value.(status := Retry));
      }
    }

    /** `recover_and_start_worker`: a row left running by a dead worker is pending again. */
    method Recover()
      modifies this
      ensures job == Recovered(old(job))
    {
      if job.Some? && job.value.status.Running? {
        job := Some(job.value.(status := Pending));
      }
    }
  }

  // ----- the protocol -----

  datatype Worker = Idle | Claimed | Sending(message: Message, confirmed: bool)

  /** `latest` is the last message enqueued, `used` every event id so far, `sent` every message the worker
      ever put on the wire. */
  datatype System = System(job: Option<Job>, worker: Worker, receiver: Receiver,
                           latest: Option<Message>, used: set<string>, sent: set<Message>)

  datatype Step =
    | Enqueue(event: string, action: Action)
    | Claim
    | Load
    | Deliver(message: Message, reply: Reply, after: Receiver, heard: bool)
    | GiveUp
    | Complete
    | Crash
    | Restart

  /** A new event: it takes the row, and it is the latest. */
  function Newer(s: System, m: Message): System {
    s.(job := Some(Renewed(m)), latest := Some(m), used := s.used + {m.event})
  }

  /** One atomic step. With `late`, any message ever sent may still arrive, in any order and any number of
      times; otherwise only the one that the worker is waiting on. */
  ghost predicate Next(name: string, late: bool, s: System, step: Step, s': System) {
    match step
    case Enqueue(event, action) =>
      event !in s.used
      && s' == Newer(s, Message(event, action))
    case Claim =>
      s.worker.Idle? && s.job.Some? && !s.job.value.status.Running?
      && s' == s.(worker := Claimed, job := Some(Taken(s.job.value)))
    case Load =>
      s.worker.Claimed?
      && s' == if s.job.None? then s.(worker := Idle)
               else s.(worker := Sending(s.job.value.message, false), sent := s.sent + {s.job.value.message})
    case Deliver(m, reply, after, heard) =>
      (if late then m in s.sent else s.worker.Sending? && s.worker.message == m)
      && Handled(name, s.receiver, m, reply, after)
      && (heard ==> s.worker.Sending? && s.worker.message == m && (reply.Applied? || reply.Duplicate?))
      && s' == s.(receiver := after, worker := if heard then Sending(m, true) else s.worker)
    case GiveUp =>
      s.worker.Sending?
      && s' == s.(worker := Idle, job := GivenUp(s.job))
    case Complete =>
      s.worker.Sending? && s.worker.confirmed
      && s' == s.(worker := Idle, job := Completed(s.job, s.worker.message.event))
    case Crash => s' == s.(worker := Idle)
    case Restart =>
      s.worker.Idle?
      && s' == s.(job := Recovered(s.job))
  }

  /** A fresh sender facing a receiver in any state that holds no receipt of its own. */
  ghost predicate Initial(s: System) {
    s.job.None? && s.worker.Idle? && s.latest.None? && s.used == {} && s.sent == {} && s.receiver.receipts == {}
  }

  /** What replication promises: the latest enqueued message is still in the outbox, or the receiver's zone
      holds, record for record, what it says. */
  ghost predicate NothingLost(s: System) {
    s.latest.Some? ==>
      (s.job.Some? && s.job.value.message == s.latest.value) || AsAsked(s.latest.value.action, s.receiver.zone)
  }

  /** Only upserts are enqueued, and their serials never go back. */
  ghost predicate Rising(s: System, step: Step) {
    step.Enqueue? ==>
      step.action.Upsert?
      && (s.latest.Some? && s.latest.value.action.Upsert? ==>
            step.action.payload.serial >= s.latest.value.action.payload.serial)
  }

  /** The inductive invariant. */
  ghost predicate Inv(name: string, late: bool, s: System) {
    (s.job.Some? ==> s.latest == Some(s.job.value.message))
    && (s.latest.Some? ==> s.latest.value.event in s.used)
    && s.receiver.receipts <= s.used
    && (forall m | m in s.sent ::
         m.event in s.used && s.latest.Some? && (m.event == s.latest.value.event ==> m == s.latest.value))
    && (s.worker.Sending? ==> s.worker.message in s.sent)
    && (s.worker.Sending? && s.worker.confirmed ==> s.worker.message.event in s.receiver.receipts)
    && (s.latest.Some? && s.job.None? ==> s.latest.value.event in s.receiver.receipts)
    && (s.latest.Some? && s.latest.value.event in s.receiver.receipts ==>
          Settled(name, s.latest.value.action, s.receiver.zone))
    && (if late then LateInv(name, s) else PromptInv(s))
  }

  /** While the worker waits on a message that is no longer the latest, the latest has not been applied. */
  ghost predicate PromptInv(s: System) {
    s.worker.Sending? && s.latest.Some? && s.worker.message != s.latest.value ==>
      s.latest.value.event !in s.receiver.receipts
  }

  /** No message on the wire is newer than the latest, which is the version on record once it is applied. */
  ghost predicate LateInv(name: string, s: System) {
    (s.latest.Some? ==> s.latest.value.action.Upsert?)
    && (forall m | m in s.sent :: m.action.Upsert? && s.latest.Some?
                                  && m.action.payload.serial <= s.latest.value.action.payload.serial)
    && (s.latest.Some? && s.latest.value.event in s.receiver.receipts ==>
          OnRecord(name, s.latest.value.action.payload, s.receiver.last))
  }

  ghost predicate OnRecord(name: string, p: Payload, last: Option<Last>) {
    Validated(name, p).Some? && last == Some(Last(p.serial, Some(Validated(name, p).value.digest)))
  }

  lemma {:induction false} InvStart(name: string, late: bool, s: System)
    requires Initial(s)
    ensures Inv(name, late, s)
  {
  }

  lemma {:induction false} InvEnqueue(name: string, late: bool, s: System, step: Step, s': System)
    requires Inv(name, late, s) && step.Enqueue? && Next(name, late, s, step, s') && (late ==> Rising(s, step))
    ensures Inv(name, late, s')
  {
    hide Settled;
  }

  lemma {:induction false} InvDeliver(name: string, late: bool, s: System, step: Step, s': System)
    requires Inv(name, late, s) && step.Deliver? && Next(name, late, s, step, s')
    ensures Inv(name, late, s')
  {
    hide Settled, Validated, SoaPart, Admissible;
    var m, latest := step.message, s.latest.value;
    if Admissible(name, s.receiver, m) {
      AdmissibleFacts(name, s.receiver, m);
    }
    if late && latest.event in s.receiver.receipts && Admissible(name, s.receiver, m) {
      OvertakenFacts(name, s.receiver, m, latest.action.payload, step.after.zone);
    }
  }

  lemma {:induction false} AdmissibleFacts(name: string, r: Receiver, m: Message)
    requires Admissible(name, r, m)
    ensures m.event !in r.receipts
    ensures m.action.Upsert? ==> Validated(name, m.action.payload).Some?
                                 && Validated(name, m.action.payload).value.serial == m.action.payload.serial
  {
  }

  /** A message that is not newer than the version on record is only up for application when it asks for the
      same zone under the same serial. */
  lemma {:induction false} OvertakenFacts(name: string, r: Receiver, m: Message, latest: Payload, z: Option<Zone>)
    requires m.action.Upsert? && m.action.payload.serial <= latest.serial
    requires OnRecord(name, latest, r.last) && Admissible(name, r, m)
    ensures m.action.payload.serial == latest.serial
    ensures Validated(name, m.action.payload).value.digest == Validated(name, latest).value.digest
    ensures Settled(name, m.action, z) <==> Settled(name, Upsert(latest), z)
    ensures Settled(name, Upsert(latest), r.zone) ==> r.zone.Some?
  {
    ValidatedDigest(name, latest);
    ValidatedDigest(name, m.action.payload);
  }

  lemma {:induction false} InvWorker(name: string, late: bool, s: System, step: Step, s': System)
    requires Inv(name, late, s) && !step.Enqueue? && !step.Deliver? && Next(name, late, s, step, s')
    ensures Inv(name, late, s')
  {
    hide Settled;
  }

  lemma {:induction false} InvNext(name: string, late: bool, s: System, step: Step, s': System)
    requires Inv(name, late, s) && Next(name, late, s, step, s') && (late ==> Rising(s, step))
    ensures Inv(name, late, s')
  {
    hide Inv, Next, Rising;
    match step
    case Enqueue(_, _) => InvEnqueue(name, late, s, step, s');
    case Deliver(_, _, _, _) => InvDeliver(name, late, s, step, s');
    case _ => InvWorker(name, late, s, step, s');
  }

  /** A run of the protocol from a fresh sender. */
  ghost predicate Run(name: string, late: bool, states: seq<System>, steps: seq<Step>) {
    |states| == |steps| + 1 && Initial(states[0]) && Path(name, late, states, steps)
  }

  ghost predicate Path(name: string, late: bool, states: seq<System>, steps: seq<Step>) {
    |states| == |steps| + 1 && forall i | 0 <= i < |steps| :: Next(name, late, states[i], steps[i], states[i + 1])
  }

  ghost predicate AlwaysRising(states: seq<System>, steps: seq<Step>)
    requires |states| == |steps| + 1
  {
    forall i | 0 <= i < |steps| :: Rising(states[i], steps[i])
  }

  lemma {:induction false} InvRun(name: string, late: bool, states: seq<System>, steps: seq<Step>, i: nat)
    requires Run(name, late, states, steps) && i < |states| && (late ==> AlwaysRising(states, steps))
    ensures Inv(name, late, states[i])
  {
    hide Inv, Next, Rising, Initial;
    if i == 0 {
      InvStart(name, late, states[0]);
    } else {
      InvRun(name, late, states, steps, i - 1);
      InvNext(name, late, states[i - 1], steps[i - 1], states[i]);
    }
  }

  /** No update is lost: through re-enqueues during a send, lost requests and replies, crashes and restarts,
      at every step of every run. Requests do not arrive after the sender has given up on them. */
  lemma {:induction false} NoLostUpdate(name: string, states: seq<System>, steps: seq<Step>, i: nat)
    requires Run(name, false, states, steps) && i < |states|
    ensures NothingLost(states[i])
  {
    hide Settled, AsAsked;
    InvRun(name, false, states, steps, i);
    if states[i].latest.Some? {
      SettledIsAsAsked(name, states[i].latest.value.action, states[i].receiver.zone);
    }
  }

  /** With upserts whose serials never go back, the receiver's serial check protects against late requests too: any
      message ever sent may arrive again at any time, and still no update is lost. */
  lemma {:induction false} NoLostUpdateLate(name: string, states: seq<System>, steps: seq<Step>, i: nat)
    requires Run(name, true, states, steps) && i < |states| && AlwaysRising(states, steps)
    ensures NothingLost(states[i])
  {
    hide Settled, AsAsked;
    InvRun(name, true, states, steps, i);
    if states[i].latest.Some? {
      SettledIsAsAsked(name, states[i].latest.value.action, states[i].receiver.zone);
    }
  }

  // ----- the sender and the receiver as they run -----

  /** The state of the protocol between two turns of the worker. */
  ghost predicate Depicts(s: System, box: Outbox, peer: PeerZone)
    reads box, peer
  {
    s.job == box.job && s.receiver == peer.State() && s.worker.Idle?
  }

  /** `process_one` against a live peer, as steps of the protocol from `s` on. While the request is under way a new
      event may be enqueued (`meanwhile`), and the worker may die before it settles the row. The row goes away only
      when the peer is settled on what it carried, whether or not the request or its reply got lost, and it goes
      away when nothing fails. */
  method ProcessOne(box: Outbox, peer: PeerZone, requestLost: bool, replyLost: bool, permitted: bool, bare: Zone,
                    meanwhile: Option<Message>, dies: bool, ghost s: System)
    returns (worked: bool, ghost states: seq<System>, ghost steps: seq<Step>)
    requires peer.Valid() && Depicts(s, box, peer) && (meanwhile.Some? ==> meanwhile.value.event !in s.used)
    requires box.job.Some? ==> box.job.value.message.event in s.used
    requires box.job.Some? && box.job.value.message.event in peer.receipts ==>
              Settled(peer.name, box.job.value.message.action, peer.zone)
    modifies box, peer
    ensures peer.Valid()
    ensures worked <==> old(box.job).Some? && !old(box.job).value.status.Running?
    ensures worked && box.job == None ==> AsAsked(old(box.job).value.message.action, peer.zone)
    ensures box.job.Some? && Some(box.job.value.message) != meanwhile ==>
              old(box.job).Some? && box.job.value.message == old(box.job).value.message
    ensures worked && !requestLost && !replyLost && permitted && old(false !in peer.script) && meanwhile.None? && !dies
            && EventId(old(box.job).value.message.event)
            && Undotted(peer.name) && old(Welcome(peer.name, peer.State(), box.job.value.message))
            ==> box.job == None
    ensures Path(peer.name, false, states, steps) && states[0] == s && Depicts(states[|steps|], box, peer)
    ensures states[|steps|].latest == (if meanwhile.Some? then meanwhile else s.latest)
    ensures states[|steps|].used == s.used + if meanwhile.Some? then {meanwhile.value.event} else {}
  {
    hide Settled, AsAsked, Validated, HasApexNs, IsEventId, EventId, Welcome, Undotted, PeerZone.Valid, SoaPart, Path,
         Handled, Admissible;
    ghost var now := s;
    states, steps := [s], [];
    PathStart(peer.name, s);
    worked := box.Claim();
    if !worked {
      if meanwhile.Some? {
        box.Enqueue(meanwhile.value.event, meanwhile.value.action);
        states, steps, now := Walk(peer.name, states, steps, now,
            Enqueue(meanwhile.value.event, meanwhile.value.action), Newer(now, meanwhile.value));
      }
      return;
    }
    states, steps, now := Walk(peer.name, states, steps, now, Claim,
        now.(worker := Claimed, job := Some(Taken(now.job.value))));
    var message := box.Load(true);
    var m := message.value;
    states, steps, now := Walk(peer.name, states, steps, now, Load,
        now.(worker := Sending(m, false), sent := now.sent + {m}));
    var confirmed := false;
    if !requestLost {
      var reply := peer.ApplyIncoming(m, permitted, bare);
      confirmed := (reply.Applied? || reply.Duplicate?) && !replyLost;
      HandledFacts(peer.name, now.receiver, m, reply, peer.State());
      states, steps, now := Walk(peer.name, states, steps, now, Deliver(m, reply, peer.State(), confirmed),
                                 now.(receiver := peer.State(), worker := Sending(m, confirmed)));
    }
    if meanwhile.Some? {
      box.Enqueue(meanwhile.value.event, meanwhile.value.action);
      states, steps, now := Walk(peer.name, states, steps, now, Enqueue(meanwhile.value.event, meanwhile.value.action),
          Newer(now, meanwhile.value));
    }
    if dies {
      states, steps, now := Walk(peer.name, states, steps, now, Crash, now.(worker := Idle));
    } else if confirmed {
      SettledIsAsAsked(peer.name, m.action, peer.zone);
      box.Complete(m.event);
      states, steps, now := Walk(peer.name, states, steps, now, Complete,
          now.(worker := Idle, job := Completed(now.job, m.event)));
    } else {
      box.GiveUp();
      states, steps, now := Walk(peer.name, states, steps, now, GiveUp, now.(worker := Idle, job := GivenUp(now.job)));
    }
  }

  lemma {:induction false} PathStart(name: string, s: System)
    ensures Path(name, false, [s], [])
  {
  }

  lemma {:induction false} Walk(name: string, states: seq<System>, steps: seq<Step>, s: System, step: Step,
                                after: System)
    returns (states': seq<System>, steps': seq<Step>, s': System)
    requires Path(name, false, states, steps) && states[|steps|] == s && Next(name, false, s, step, after)
    ensures Path(name, false, states', steps') && states'[|steps'|] == s' && s' == after && states'[0] == states[0]
  {
    hide Path, Next;
    PathPlus(name, false, states, steps, step, after);
    assert |states| == |steps| + 1 by { PathLength(name, states, steps); }
    states', steps', s' := states + [after], steps + [step], after;
  }

  lemma {:induction false} PathLength(name: string, states: seq<System>, steps: seq<Step>)
    requires Path(name, false, states, steps)
    ensures |states| == |steps| + 1
  {
  }

  lemma {:induction false} HandledFacts(name: string, r: Receiver, m: Message, reply: Reply, r': Receiver)
    requires Handled(name, r, m, reply, r')
    ensures reply.Applied? ==> Settled(name, m.action, r'.zone)
    ensures reply.Duplicate? ==> m.event in r.receipts && r' == r
  {
    hide Settled, Admissible;
  }

  /** What happens to the sender: a zone changes, the worker has a turn, or the daemon starts again. */
  datatype Happening = Changed(message: Message) | Restarted
                     | Turn(requestLost: bool, replyLost: bool, permitted: bool, bare: Zone,
                            meanwhile: Option<Message>, dies: bool)

  function Event(h: Happening): Option<Message> {
    match h
    case Changed(m) => Some(m)
    case Turn(_, _, _, _, meanwhile, _) => meanwhile
    case Restarted => None
  }

  /** The last event enqueued. */
  function Latest(hs: seq<Happening>): Option<Message> {
    if hs == [] then None else if Event(hs[|hs| - 1]).Some? then Event(hs[|hs| - 1]) else Latest(hs[..|hs| - 1])
  }

  ghost function Used(hs: seq<Happening>): set<string> {
    if hs == [] then {}
    else Used(hs[..|hs| - 1]) + if Event(hs[|hs| - 1]).Some? then {Event(hs[|hs| - 1]).value.event} else {}
  }

  /** Every event has an id of its own. */
  ghost predicate OwnIds(hs: seq<Happening>) {
    forall i, j | 0 <= i < j < |hs| && Event(hs[i]).Some? && Event(hs[j]).Some? ::
      Event(hs[i]).value.event != Event(hs[j]).value.event
  }

  lemma {:induction false} UnusedId(hs: seq<Happening>, n: nat, i: nat)
    requires OwnIds(hs) && n <= i < |hs| && Event(hs[i]).Some?
    ensures Event(hs[i]).value.event !in Used(hs[..n])
  {
    if n > 0 {
      UnusedId(hs, n - 1, i);
      assert hs[..n][..n - 1] == hs[..n - 1];
    }
  }

  lemma {:induction false} OneMore(hs: seq<Happening>, n: nat)
    requires n < |hs|
    ensures Latest(hs[..n + 1]) == if Event(hs[n]).Some? then Event(hs[n]) else Latest(hs[..n])
    ensures Used(hs[..n + 1]) == Used(hs[..n]) + if Event(hs[n]).Some? then {Event(hs[n]).value.event} else {}
  {
    assert hs[..n + 1][..n] == hs[..n];
  }

  lemma {:induction false} RowIsLatest(name: string, states: seq<System>, steps: seq<Step>)
    requires Run(name, false, states, steps)
    ensures var s := states[|steps|];
            s.job.Some? ==> s.job.value.message.event in s.used
                            && (s.job.value.message.event in s.receiver.receipts ==>
                                  Settled(name, s.job.value.message.action, s.receiver.zone))
  {
    hide Path, Initial, Settled;
    InvRun(name, false, states, steps, |steps|);
  }

  lemma {:induction false} Prolonged(name: string, states: seq<System>, steps: seq<Step>, more: seq<System>,
                                     further: seq<Step>)
    returns (all: seq<System>, every: seq<Step>)
    requires Run(name, false, states, steps) && Path(name, false, more, further) && more[0] == states[|steps|]
    ensures Run(name, false, all, every) && all[|every|] == more[|further|]
  {
    Joined(name, false, states, steps, more, further);
    all, every := states + more[1..], steps + further;
  }

  lemma {:induction false} Started(name: string, s: System)
    requires Initial(s)
    ensures Run(name, false, [s], [])
  {
  }

  /** The sender and the receiver as they run, through any changes, lost messages, enqueues during a request, deaths of
      the worker and restarts: what happens is a run of the protocol, and the last event enqueued is still in the
      outbox unless the receiver holds what it asks for. */
  method Replicate(box: Outbox, peer: PeerZone, hs: seq<Happening>)
    returns (ghost states: seq<System>, ghost steps: seq<Step>)
    requires peer.Valid() && box.job.None? && peer.receipts == {} && OwnIds(hs)
    modifies box, peer
    ensures peer.Valid() && Run(peer.name, false, states, steps) && Depicts(states[|steps|], box, peer)
    ensures Latest(hs).Some? ==> (box.job.Some? && box.job.value.message == Latest(hs).value)
                                 || AsAsked(Latest(hs).value.action, peer.zone)
  {
    hide Settled, AsAsked, PeerZone.Valid, Run, Path, OwnIds, Latest, Used, HasApexNs, IsEventId, EventId, Welcome,
         Undotted, Validated, Admissible, SoaPart;
    states, steps := [System(None, Idle, peer.State(), None, {}, {})], [];
    Started(peer.name, states[0]);
    NoneYet();
    for i := 0 to |hs|
      invariant peer.Valid() && Run(peer.name, false, states, steps) && |states| == |steps| + 1
      invariant Depicts(states[|steps|], box, peer)
      invariant states[|steps|].latest == Latest(hs[..i]) && states[|steps|].used == Used(hs[..i])
    {
      OneMore(hs, i);
      if Event(hs[i]).Some? {
        UnusedId(hs, i, i);
      }
      RowIsLatest(peer.name, states, steps);
      ghost var now, more, further := states[|steps|], [], [];
      PathStart(peer.name, now);
      match hs[i] {
        case Changed(m) =>
          box.Enqueue(m.event, m.action);
          ghost var after;
          more, further, after := Walk(peer.name, [now], [], now, Enqueue(m.event, m.action), Newer(now, m));
        case Turn(requestLost, replyLost, permitted, bare, meanwhile, dies) =>
          var worked;
          worked, more, further := ProcessOne(box, peer, requestLost, replyLost, permitted, bare, meanwhile, dies, now);
        case Restarted =>
          box.Recover();
          ghost var after;
          more, further, after := Walk(peer.name, [now], [], now, Restart, now.(job := Recovered(now.job)));
      }
      states, steps := Prolonged(peer.name, states, steps, more, further);
    }
    assert hs[..|hs|] == hs;
    NoLostUpdate(peer.name, states, steps, |steps|);
  }

  lemma {:induction false} NoneYet()
    ensures Latest([]) == None && Used([]) == {}
  {
  }

  // ----- when late requests do harm -----

  /** The zone that an accepted action leaves at a receiver that had none. */
  function Outcome(name: string, a: Action): Option<Zone>
    requires a.Upsert? ==> Validated(name, a.payload).Some?
  {
    match a
    case Delete => None
    case Upsert(p) => Some(Desired(Validated(name, p).value.rrsets))
  }

  function Version(name: string, a: Action, last: Option<Last>): Option<Last>
    requires a.Upsert? ==> Validated(name, a.payload).Some?
  {
    match a
    case Delete => last
    case Upsert(p) => var c := Validated(name, p).value; Some(Last(c.serial, Some(c.digest)))
  }

  lemma {:induction false} OutcomeSettles(name: string, a: Action, b: Action)
    requires a.Upsert? ==> Validated(name, a.payload).Some?
    requires b.Upsert? ==> Validated(name, b.payload).Some?
    ensures Settled(name, a, Outcome(name, b)) <==> Outcome(name, a) == Outcome(name, b)
  {
    hide Validated, Desired;
    if b.Upsert? {
      DesiredStored(name, b.payload);
      assert NonSoa(Outcome(name, b).value) == Outcome(name, b).value;
    }
  }

  lemma {:induction false} AcceptableIsValid(name: string, a: Action)
    requires a.Upsert? ==> Acceptable(name, a.payload)
    ensures a.Upsert? ==> Validated(name, a.payload).Some?
  {
    hide Acceptable, Validated;
    if a.Upsert? {
      ValidatedExactly(name, a.payload);
    }
  }

  lemma {:induction false} OutcomeIsAsAsked(name: string, a: Action, b: Action)
    requires a.Upsert? ==> Validated(name, a.payload).Some?
    requires b.Upsert? ==> Validated(name, b.payload).Some?
    ensures AsAsked(a, Outcome(name, b)) <==> Outcome(name, a) == Outcome(name, b)
  {
    hide Validated, AsAsked, Settled, Outcome, Acceptable;
    OutcomeSettles(name, a, b);
    if a.Upsert? {
      ValidatedExactly(name, a.payload);
    }
    SettledExactly(name, a, Outcome(name, b));
  }

  lemma {:induction false} PathPlus(name: string, late: bool, states: seq<System>, steps: seq<Step>, step: Step,
                                    after: System)
    requires Path(name, late, states, steps) && Next(name, late, states[|steps|], step, after)
    ensures Path(name, late, states + [after], steps + [step])
  {
    hide Next;
  }

  lemma {:induction false} Joined(name: string, late: bool, states: seq<System>, steps: seq<Step>, more: seq<System>,
                                  further: seq<Step>)
    requires Path(name, late, states, steps) && Path(name, late, more, further) && more[0] == states[|steps|]
    ensures Path(name, late, states + more[1..], steps + further)
    ensures (states + more[1..])[|steps + further|] == more[|further|]
  {
    hide Next;
    var all, every := states + more[1..], steps + further;
    forall i | 0 <= i < |every| ensures Next(name, late, all[i], every[i], all[i + 1]) {
      if i >= |steps| {
        assert all[i] == more[i - |steps|] && all[i + 1] == more[i - |steps| + 1];
      }
    }
  }

  lemma {:induction false} RunPlus(name: string, states: seq<System>, steps: seq<Step>, step: Step, after: System)
    requires Run(name, true, states, steps) && Next(name, true, states[|steps|], step, after)
    ensures Run(name, true, states + [after], steps + [step])
  {
    hide Next, Initial;
  }

  /** The serial rule is needed: for any two valid actions that ask for different zones and break it (a delete
      on either side, or serials that go back), there is a run in which the late first one undoes the
      second, confirmed one. */
  lemma {:induction false} LateRequestUndoes(name: string, first: Action, second: Action, e1: string, e2: string)
    returns (states: seq<System>, steps: seq<Step>)
    requires e1 != e2
    requires first.Upsert? ==> Acceptable(name, first.payload)
    requires second.Upsert? ==> Acceptable(name, second.payload)
    requires forall z :: AsAsked(first, z) ==> !AsAsked(second, z)
    requires !(first.Upsert? && second.Upsert? && first.payload.serial <= second.payload.serial)
    ensures Run(name, true, states, steps) && !NothingLost(states[|steps|])
    ensures forall i | 0 <= i < |steps| && steps[i].Enqueue? :: steps[i].action == first || steps[i].action == second
  {
    hide Run, Validated, Desired, Settled, Handled, SoaPart, NonSoa, AsAsked, Outcome, Version, Acceptable;
    AcceptableIsValid(name, first);
    AcceptableIsValid(name, second);
    OutcomeIsAsAsked(name, first, first);
    var m1, m2 := Message(e1, first), Message(e2, second);
    var r0 := Receiver(None, None, {});
    var r1 := Receiver(Outcome(name, second), Version(name, second, None), {e2});
    var r2 := Receiver(Outcome(name, first), Version(name, first, r1.last), {e2} + {e1});
    AppliedTwice(name, m1, m2, r0, r1, r2);
    states, steps := FirstGivenUp(name, m1, r0);
    states, steps := SecondConfirmed(name, m1, m2, r0, r1, states, steps);
    states, steps := FirstArrives(name, m1, m2, r1, r2, states, steps);
  }

  lemma {:induction false} FirstArrives(name: string, m1: Message, m2: Message, r1: Receiver, r2: Receiver,
                                        states0: seq<System>, steps0: seq<Step>)
    returns (states: seq<System>, steps: seq<Step>)
    requires Run(name, true, states0, steps0) && |steps0| == 9 && |states0| == 10
    requires states0[9] == System(None, Idle, r1, Some(m2), {m1.event} + {m2.event}, {m1} + {m2})
    requires Handled(name, r1, m1, Applied, r2)
    ensures Run(name, true, states, steps) && steps == steps0 + [Deliver(m1, Applied, r2, false)]
    ensures |states| == 11 && states[10] == states0[9].(receiver := r2)
  {
    hide Run, Handled;
    states, steps := Extend(name, states0, steps0, Deliver(m1, Applied, r2, false), states0[9].(receiver := r2));
  }

  lemma {:induction false} FirstGivenUp(name: string, m: Message, r: Receiver)
    returns (states: seq<System>, steps: seq<Step>)
    requires r.receipts == {}
    ensures Run(name, true, states, steps) && steps == [Enqueue(m.event, m.action), Claim, Load, GiveUp]
    ensures |states| == 5
    ensures states[4] == System(Some(Job(m, Retry, 1)), Idle, r, Some(m), {m.event}, {m})
  {
    hide Run, Handled;
    var s0 := System(None, Idle, r, None, {}, {});
    StartRun(name, s0);
    states, steps := [s0], [];
    var s1 := s0.(job := Some(Job(m, Pending, 0)), latest := Some(m), used := {} + {m.event});
    states, steps := Extend(name, states, steps, Enqueue(m.event, m.action), s1);
    var s2 := s1.(worker := Claimed, job := Some(Job(m, Running, 1)));
    states, steps := Extend(name, states, steps, Claim, s2);
    var s3 := s2.(worker := Sending(m, false), sent := {} + {m});
    states, steps := Extend(name, states, steps, Load, s3);
    states, steps := Extend(name, states, steps, GiveUp, s3.(worker := Idle, job := Some(Job(m, Retry, 1))));
  }

  lemma {:induction false} SecondConfirmed(name: string, m1: Message, m2: Message, r0: Receiver, r1: Receiver,
                                           states0: seq<System>, steps0: seq<Step>)
    returns (states: seq<System>, steps: seq<Step>)
    requires Run(name, true, states0, steps0) && |steps0| == 4 && |states0| == 5 && m1.event != m2.event
    requires states0[4] == System(Some(Job(m1, Retry, 1)), Idle, r0, Some(m1), {m1.event}, {m1})
    requires Handled(name, r0, m2, Applied, r1)
    ensures Run(name, true, states, steps) && |states| == 10
    ensures steps == steps0 + [Enqueue(m2.event, m2.action), Claim, Load, Deliver(m2, Applied, r1, true), Complete]
    ensures states[9] == System(None, Idle, r1, Some(m2), {m1.event} + {m2.event}, {m1} + {m2})
  {
    hide Run, Handled;
    states, steps := states0, steps0;
    var s5 := states[4].(job := Some(Job(m2, Pending, 0)), latest := Some(m2), used := {m1.event} + {m2.event});
    states, steps := Extend(name, states, steps, Enqueue(m2.event, m2.action), s5);
    var s6 := s5.(worker := Claimed, job := Some(Job(m2, Running, 1)));
    states, steps := Extend(name, states, steps, Claim, s6);
    var s7 := s6.(worker := Sending(m2, false), sent := {m1} + {m2});
    states, steps := Extend(name, states, steps, Load, s7);
    var s8 := s7.(receiver := r1, worker := Sending(m2, true));
    states, steps := Extend(name, states, steps, Deliver(m2, Applied, r1, true), s8);
    states, steps := Extend(name, states, steps, Complete, s8.(worker := Idle, job := None));
  }

  lemma {:induction false} StartRun(name: string, s: System)
    requires Initial(s)
    ensures Run(name, true, [s], [])
  {
  }

  lemma {:induction false} Extend(name: string, states: seq<System>, steps: seq<Step>, step: Step, after: System)
    returns (states': seq<System>, steps': seq<Step>)
    requires Run(name, true, states, steps) && Next(name, true, states[|steps|], step, after)
    ensures states' == states + [after] && steps' == steps + [step] && Run(name, true, states', steps')
  {
    RunPlus(name, states, steps, step, after);
    states', steps' := states + [after], steps + [step];
  }

  lemma {:induction false} AppliedTwice(name: string, m1: Message, m2: Message, r0: Receiver, r1: Receiver,
                                        r2: Receiver)
    requires m1.event != m2.event && r0 == Receiver(None, None, {})
    requires (m1.action.Upsert? ==> Validated(name, m1.action.payload).Some?)
    requires m2.action.Upsert? ==> Validated(name, m2.action.payload).Some?
    requires !(m1.action.Upsert? && m2.action.Upsert? && m1.action.payload.serial <= m2.action.payload.serial)
    requires r1 == Receiver(Outcome(name, m2.action), Version(name, m2.action, None), {m2.event})
    requires r2 == Receiver(Outcome(name, m1.action), Version(name, m1.action, r1.last), {m2.event} + {m1.event})
    ensures Handled(name, r0, m2, Applied, r1) && Handled(name, r1, m1, Applied, r2)
  {
    hide Desired, NonSoa;
    OutcomeSettles(name, m2.action, m2.action);
    OutcomeSettles(name, m1.action, m1.action);
    if m1.action.Upsert? {
      DesiredStored(name, m1.action.payload);
    }
    if m2.action.Upsert? {
      DesiredStored(name, m2.action.payload);
    }
  }
}
