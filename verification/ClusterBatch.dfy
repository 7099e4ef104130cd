/** Notifications to the DNS cluster, coalesced while a logical change of several records is under way
    (daemon/dnsprovider.py:42-84). */
module ClusterBatch {
  import opened Text

  datatype Action = Upsert | Delete

  datatype Notice = Notice(zone: string, action: Action)

  datatype Event = Notify(notice: Notice) | Enter | Exit

  /** What is pending after these notices: a delete wins over an earlier upsert, and stays. */
  function Coalesced(notices: seq<Notice>): map<string, Action> {
    if notices == [] then map[]
    else
      var front, n := Coalesced(notices[..|notices| - 1]), notices[|notices| - 1];
      front[n.zone := if n.action.Delete? || n.zone !in front then n.action else front[n.zone]]
  }

  /** The last notice of a zone, which is what became of it. */
  function LastOf(notices: seq<Notice>, zone: string): Option<Action> {
    if notices == [] then None
    else
      var n := notices[|notices| - 1];
      if n.zone == zone then Some(n.action) else LastOf(notices[..|notices| - 1], zone)
  }

  /** Every notified zone is pending, and as a deletion exactly if it was deleted at some point. */
  lemma {:induction false} CoalescedIsComplete(notices: seq<Notice>, zone: string)
    ensures zone in Coalesced(notices) <==> LastOf(notices, zone).Some?
    ensures Notice(zone, Delete) in notices <==> zone in Coalesced(notices) && Coalesced(notices)[zone].Delete?
  {
    if notices != [] {
      var n := |notices| - 1;
      CoalescedIsComplete(notices[..n], zone);
      assert notices == notices[..n] + [notices[n]];
      assert Notice(zone, Delete) in notices
             <==> Notice(zone, Delete) in notices[..n] || notices[n] == Notice(zone, Delete);
    }
  }

  lemma {:induction false} LastIsNoticed(notices: seq<Notice>, zone: string)
    requires LastOf(notices, zone).Some?
    ensures Notice(zone, LastOf(notices, zone).value) in notices
  {
    var n := |notices| - 1;
    assert notices == notices[..n] + [notices[n]];
    if notices[n].zone != zone {
      LastIsNoticed(notices[..n], zone);
    } else {
      assert notices[n] == Notice(zone, notices[n].action);
    }
  }

  /** The peers are told what became of a zone, unless it was deleted and is there again at the end: then they
      are told to delete it. */
  lemma {:induction false} ToldWhatHappened(notices: seq<Notice>, zone: string)
    requires zone in Coalesced(notices)
    ensures Some(Coalesced(notices)[zone]) == LastOf(notices, zone)
            <==> !(LastOf(notices, zone) == Some(Upsert) && Notice(zone, Delete) in notices)
  {
    CoalescedIsComplete(notices, zone);
    LastIsNoticed(notices, zone);
    match LastOf(notices, zone).value
    case Delete => assert Notice(zone, Delete) in notices && Coalesced(notices)[zone] == Delete;
    case Upsert => assert Coalesced(notices)[zone] == Upsert <==> Notice(zone, Delete) !in notices;
  }

  /** No caller in the repository deletes and makes a zone again within one batch: the batches of
      daemon/handlers_dns.py:170, daemon/mail_dns.py:188 and daemon/dkim.py:287 write records of zones that stay. */
  lemma {:induction false} RecreatedCounterexample(zone: string)
    ensures var notices := [Notice(zone, Delete), Notice(zone, Upsert)];
            zone in Coalesced(notices) && Coalesced(notices)[zone] == Delete && LastOf(notices, zone) == Some(Upsert)
  {
    var notices := [Notice(zone, Delete), Notice(zone, Upsert)];
    assert notices[..1] == [Notice(zone, Delete)] && notices[..1][..0] == [];
    assert Coalesced(notices[..1]) == map[zone := Delete];
  }

  /** What a batch hands over: each pending zone once, with its action. */
  ghost predicate HandsOver(out: seq<Notice>, pending: map<string, Action>) {
    (forall i, j | 0 <= i < j < |out| :: out[i].zone != out[j].zone)
    && (forall n | n in out :: n.zone in pending && n.action == pending[n.zone])
    && (forall z | z in pending :: Notice(z, pending[z]) in out)
  }

  class Notifier {
    var depth: nat
    var pending: map<string, Action>
    /** What reached the outbox, in order; a storage problem drops a notice. */
    var queue: seq<Notice>
    var script: seq<bool>
    ghost var batch: seq<Notice>

    ghost predicate Valid()
      reads this
    {
      pending == Coalesced(batch) && (depth == 0 ==> batch == [])
    }

    constructor ()
      ensures Valid() && depth == 0 && queue == []
    {
      depth, pending, queue, script, batch := 0, map[], [], [], [];
    }

    method Enqueue(n: Notice)
      modifies this`queue, this`script
      ensures queue == old(queue) || queue == old(queue) + [n]
      ensures false !in old(script) ==> queue == old(queue) + [n] && false !in script
    {
      var ok := script == [] || script[0];
      script := if script == [] then [] else script[1..];
      if ok {
        queue := queue + [n];
      }
    }

    /** `_cluster_notify`. */
    method Notify(n: Notice)
      requires Valid()
      modifies this`queue, this`script, this`pending, this`batch
      ensures Valid()
      ensures depth > 0 ==> batch == old(batch) + [n] && queue == old(queue)
      ensures depth == 0 ==> queue == old(queue) || queue == old(queue) + [n]
      ensures false !in old(script) ==> false !in script && (depth == 0 ==> queue == old(queue) + [n])
    {
      if depth > 0 {
        pending := pending[n.zone := if n.action.Delete? || n.zone !in pending then n.action else pending[n.zone]];
        batch := batch + [n];
        assert batch[..|batch| - 1] == old(batch);
      } else {
        Enqueue(n);
      }
    }

    method Begin()
      requires Valid()
      modifies this`depth, this`pending, this`batch
      ensures Valid() && depth == old(depth) + 1 && batch == old(batch)
    {
      if depth == 0 {
        pending, batch := map[], [];
      }
      depth := depth + 1;
    }

    /** Leaving a batch, by whatever way: an inner one hands nothing over, the outermost one each zone once. */
    method End()
      requires Valid() && depth > 0
      modifies this
      ensures Valid() && depth == old(depth) - 1 && old(queue) <= queue
      ensures depth > 0 ==> queue == old(queue) && batch == old(batch)
      ensures depth == 0 ==>
                forall n | n in queue[|old(queue)|..] ::
                  n.zone in Coalesced(old(batch)) && n.action == Coalesced(old(batch))[n.zone]
      ensures depth == 0 && false !in old(script) ==> HandsOver(queue[|old(queue)|..], Coalesced(old(batch)))
      ensures false !in old(script) ==> false !in script
    {
      depth := depth - 1;
      if depth > 0 {
        return;
      }
      hide HandsOver, Coalesced;
      var todo, all := pending.Keys, pending;
      BatchOver();
      pending, batch := map[], [];
      ghost var out: seq<Notice> := [];
      NothingOver(all);
      while todo != {}
        invariant todo <= all.Keys && Valid() && depth == 0 && queue == old(queue) + out
        invariant forall n | n in out :: n.zone in all && n.action == all[n.zone]
        invariant false !in old(script) ==> false !in script && HandsOver(out, all - todo)
      {
        var z :| z in todo;
        ghost var before := queue;
        Enqueue(Notice(z, all[z]));
        HandOneMore(out, all, todo, z);
        if queue != before {
          out := out + [Notice(z, all[z])];
        }
        todo := todo - {z};
      }
      assert all - todo == all && queue[|old(queue)|..] == out;
    }

    lemma {:induction false} BatchOver()
      ensures Coalesced([]) == map[]
    {
    }

    /** Over every run of notices and nested batches, the storage working: a zone reaches the outbox exactly if it was
        notified, and the last thing said of it there is the last thing notified, but for zones (`remade`) that were
        deleted and then upserted within one batch. */
    method Run(events: seq<Event>) returns (ghost heard: seq<Notice>, ghost remade: set<string>)
      requires Valid() && depth == 0 && queue == [] && false !in script && Nested(events)
      modifies this
      ensures Valid() && depth == 0 && heard == Heard(events)
      ensures forall z :: Agrees(queue, heard, remade, z)
      ensures forall z | z in remade :: Remade(heard, z)
    {
      hide Coalesced, LastOf, HandsOver, Heard, Agrees, Remade;
      heard, remade := [], {};
      ghost var told: seq<Notice> := [];
      NothingHeard();
      for i := 0 to |events|
        invariant Valid() && depth == Depth(events[..i]) && heard == Heard(events[..i]) && false !in script
        invariant heard == told + batch && forall z :: Agrees(queue, told, remade, z)
        invariant forall z | z in remade :: Remade(heard, z)
      {
        OneMoreEvent(events, i);
        ghost var before, had := queue, batch;
        match events[i] {
          case Notify(n) =>
            Notify(n);
            RemadeStays(heard, [n], remade);
            heard := heard + [n];
            if depth == 0 {
              Said(before, told, [n], [n], remade);
              told := told + [n];
            }
          case Enter => Begin();
          case Exit =>
            End();
            if depth == 0 {
              ghost var out := queue[|before|..];
              assert queue == before + out;
              remade := HandedOver(told, had, before, out, remade);
              told := told + had;
            }
        }
      }
      assert events[..|events|] == events && told + batch == told;
    }
  }

  function Heard(events: seq<Event>): seq<Notice> {
    if events == [] then []
    else Heard(events[..|events| - 1])
         + match events[|events| - 1] { case Notify(n) => [n] case _ => [] }
  }

  function Depth(events: seq<Event>): int {
    if events == [] then 0
    else Depth(events[..|events| - 1])
         + match events[|events| - 1] { case Notify(_) => 0 case Enter => 1 case Exit => -1 }
  }

  /** Every batch that is left was entered, and every one entered is left. */
  ghost predicate Nested(events: seq<Event>) {
    Depth(events) == 0 && forall i | 0 <= i <= |events| :: Depth(events[..i]) >= 0
  }

  /** The outbox heard of the zone exactly if there was a notice, and last what was noticed last. */
  ghost predicate Agrees(queue: seq<Notice>, notices: seq<Notice>, remade: set<string>, z: string) {
    (LastOf(queue, z).Some? <==> LastOf(notices, z).Some?)
    && (z !in remade ==> LastOf(queue, z) == LastOf(notices, z))
  }

  /** The zone was deleted and upserted after that. */
  ghost predicate Remade(notices: seq<Notice>, z: string) {
    exists i, j :: 0 <= i < j < |notices| && notices[i] == Notice(z, Delete) && notices[j] == Notice(z, Upsert)
  }

  lemma {:induction false} NothingHeard()
    ensures Heard([]) == [] && Coalesced([]) == map[] && forall z :: Agrees([], [], {}, z)
  {
  }

  lemma {:induction false} OneMoreEvent(events: seq<Event>, i: nat)
    requires i < |events| && Nested(events)
    ensures Heard(events[..i + 1])
            == Heard(events[..i]) + match events[i] { case Notify(n) => [n] case _ => [] }
    ensures Depth(events[..i + 1])
            == Depth(events[..i]) + match events[i] { case Notify(_) => 0 case Enter => 1 case Exit => -1 }
    ensures Depth(events[..i + 1]) >= 0
  {
    assert events[..i + 1][..i] == events[..i];
  }

  lemma {:induction false} RemadeStays(notices: seq<Notice>, more: seq<Notice>, remade: set<string>)
    requires forall z | z in remade :: Remade(notices, z)
    ensures forall z | z in remade :: Remade(notices + more, z)
  {
    forall z | z in remade ensures Remade(notices + more, z) {
      var i, j :| 0 <= i < j < |notices| && notices[i] == Notice(z, Delete) && notices[j] == Notice(z, Upsert);
      assert (notices + more)[i] == notices[i] && (notices + more)[j] == notices[j];
    }
  }

  lemma {:induction false} LastOfJoin(a: seq<Notice>, b: seq<Notice>, z: string)
    ensures LastOf(a + b, z) == if LastOf(b, z).Some? then LastOf(b, z) else LastOf(a, z)
  {
    if b == [] {
      assert a + b == a;
    } else {
      LastOfJoin(a, b[..|b| - 1], z);
      assert (a + b)[..|a + b| - 1] == a + b[..|b| - 1];
    }
  }

  /** What is said in the same words stays in agreement. */
  lemma {:induction false} Said(queue: seq<Notice>, told: seq<Notice>, out: seq<Notice>, more: seq<Notice>,
                                remade: set<string>)
    requires forall z :: Agrees(queue, told, remade, z)
    requires forall z :: Agrees(out, more, remade, z) || out == more
    ensures forall z :: Agrees(queue + out, told + more, remade, z)
  {
    forall z ensures Agrees(queue + out, told + more, remade, z) {
      assert Agrees(queue, told, remade, z) && (Agrees(out, more, remade, z) || out == more);
      LastOfJoin(queue, out, z);
      LastOfJoin(told, more, z);
    }
  }

  /** A batch handed over says last of each zone what the batch coalesced it to. */
  lemma {:induction false} LastHandedOver(out: seq<Notice>, pending: map<string, Action>, z: string)
    requires HandsOver(out, pending)
    ensures LastOf(out, z) == if z in pending then Some(pending[z]) else None
  {
    if LastOf(out, z).Some? {
      LastIsNoticed(out, z);
    } else if z in pending {
      NoticedHasLast(out, Notice(z, pending[z]));
    }
  }

  lemma {:induction false} NoticedHasLast(notices: seq<Notice>, n: Notice)
    requires n in notices
    ensures LastOf(notices, n.zone).Some?
  {
    if notices[|notices| - 1] != n {
      assert notices == notices[..|notices| - 1] + [notices[|notices| - 1]];
      NoticedHasLast(notices[..|notices| - 1], n);
    }
  }

  lemma {:induction false} HandedOver(told: seq<Notice>, batch: seq<Notice>, queue: seq<Notice>, out: seq<Notice>,
                                      remade: set<string>) returns (remade': set<string>)
    requires HandsOver(out, Coalesced(batch)) && forall z :: Agrees(queue, told, remade, z)
    requires forall z | z in remade :: Remade(told + batch, z)
    ensures forall z :: Agrees(queue + out, told + batch, remade', z)
    ensures forall z | z in remade' :: Remade(told + batch, z)
  {
    hide Coalesced, LastOf, HandsOver;
    remade' := remade + set z | z in Coalesced(batch) && LastOf(batch, z) == Some(Upsert) && Notice(z, Delete) in batch;
    forall z ensures Agrees(out, batch, remade', z) && Agrees(queue, told, remade', z) {
      assert Agrees(queue, told, remade, z);
      LastHandedOver(out, Coalesced(batch), z);
      CoalescedIsComplete(batch, z);
      if z in Coalesced(batch) {
        ToldWhatHappened(batch, z);
      }
    }
    Said(queue, told, out, batch, remade');
    forall z | z in remade' ensures Remade(told + batch, z) {
      if z !in remade {
        RemadeWithin(told, batch, z);
      }
    }
  }

  lemma {:induction false} RemadeWithin(told: seq<Notice>, batch: seq<Notice>, z: string)
    requires LastOf(batch, z) == Some(Upsert) && Notice(z, Delete) in batch
    ensures Remade(told + batch, z)
  {
    var i :| 0 <= i < |batch| && batch[i] == Notice(z, Delete);
    var j := LastAt(batch, z);
    assert (told + batch)[|told| + i] == batch[i] && (told + batch)[|told| + j] == batch[j];
  }

  lemma {:induction false} LastAt(notices: seq<Notice>, z: string) returns (j: nat)
    requires LastOf(notices, z).Some?
    ensures j < |notices| && notices[j] == Notice(z, LastOf(notices, z).value)
    ensures forall i | j < i < |notices| :: notices[i].zone != z
  {
    var n := |notices| - 1;
    if notices[n].zone == z {
      j := n;
    } else {
      j := LastAt(notices[..n], z);
    }
  }

  lemma {:induction false} NothingOver(all: map<string, Action>)
    ensures HandsOver([], all - all.Keys)
  {
  }

  lemma {:induction false} HandOneMore(out: seq<Notice>, all: map<string, Action>, todo: set<string>, z: string)
    requires z in todo && z in all
    ensures HandsOver(out, all - todo) ==> HandsOver(out + [Notice(z, all[z])], all - (todo - {z}))
  {
    if HandsOver(out, all - todo) {
      var more := out + [Notice(z, all[z])];
      forall y | y in all - (todo - {z}) ensures Notice(y, all[y]) in more {
        if y != z {
          assert y in all - todo;
          assert Notice(y, all[y]) in out;
        } else {
          assert more[|out|] == Notice(z, all[z]);
        }
      }
    }
  }
}
