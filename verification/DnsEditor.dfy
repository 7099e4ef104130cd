/** The raw zone editor (daemon/dns_editor.py): a diff between the records there and the records wanted, refused
    when it would break a rule, previewed under a fingerprint, and applied to PowerDNS as one batch. */
module DnsEditor {
  import opened Text

  datatype Key = Key(name: string, rtype: string)

  /** `marked` rows carry comments or disabled values and are not touched by the editor. */
  datatype Row = Row(ttl: nat, values: seq<string>, marked: bool)

  type Rows = map<Key, Row>

  /** One line of a preview; no time to live means that the records go. */
  datatype Change = Change(before: seq<string>, after: seq<string>, ttl: Option<nat>)

  type Changes = map<Key, Change>

  datatype Plan = Refused | Planned(changes: Changes)

  /** Failed is a call that raised. */
  datatype Outcome = Stale | Rejected | Unconfirmed | Failed | Done(changes: Changes)

  /** How a fingerprint sees a row: values of editable types up to order and presentation. */
  datatype Shape = Loose(values: multiset<string>) | Exactly(texts: seq<string>)

  datatype Print = Print(ttl: nat, shape: Shape, marked: bool)

  /** The bytes that the quoted strings of a TXT value stand for. */
  type Bytes = string -> string

  const EDITABLE := {"A", "AAAA", "CNAME", "MX", "TXT", "PTR", "NS", "SRV", "CAA"}

  predicate Protected(zone: string, k: Key, row: Row) {
    row.marked || k.rtype !in EDITABLE || (k.rtype == "NS" && k.name == zone)
  }

  function Canonical(bytes: Bytes, rtype: string, values: seq<string>): multiset<string> {
    if rtype == "TXT" then multiset(seq(|values|, i requires 0 <= i < |values| => bytes(values[i])))
    else multiset(values)
  }

  predicate SameRow(bytes: Bytes, rtype: string, a: Row, b: Row) {
    a.ttl == b.ttl && Canonical(bytes, rtype, a.values) == Canonical(bytes, rtype, b.values)
  }

  /** A CNAME is alone at its name (section 3.6.2 of RFC 1034). */
  ghost predicate CnamesAlone(keys: set<Key>) {
    forall c, k | c in keys && k in keys && c.rtype == "CNAME" && k.name == c.name :: k == c
  }

  function Preserved(zone: string, before: Rows): set<Key> { set k | k in before && Protected(zone, k, before[k]) }

  ghost predicate Acceptable(zone: string, before: Rows, desired: Rows) {
    Preserved(zone, before) !! desired.Keys && CnamesAlone(Preserved(zone, before) + desired.Keys)
  }

  /** The result that an edit asks for: what is protected as it was, what is wanted as wanted, nothing else;
      rows that were right already are the very same; CNAMEs alone. */
  ghost predicate AsWanted(bytes: Bytes, zone: string, before: Rows, desired: Rows, after: Rows) {
    after.Keys == Preserved(zone, before) + desired.Keys
    && (forall k | k in Preserved(zone, before) :: k in after && after[k] == before[k])
    && (forall k | k in desired :: k in after && SameRow(bytes, k.rtype, after[k], desired[k]))
    && (forall k | k in desired && k in before && SameRow(bytes, k.rtype, before[k], desired[k]) ::
         k in after && after[k] == before[k])
    && CnamesAlone(after.Keys) && Preserved(zone, after) == Preserved(zone, before)
  }

  // What the editor promises, on the rows themselves.

  ghost predicate Editable(rtype: string) {
    rtype == "A" || rtype == "AAAA" || rtype == "CNAME" || rtype == "MX" || rtype == "TXT" || rtype == "PTR"
    || rtype == "NS" || rtype == "SRV" || rtype == "CAA"
  }

  /** The editor spares marked rows, types it does not know, and the nameservers of the zone itself. */
  ghost predicate Spared(zone: string, k: Key, row: Row) {
    row.marked || !Editable(k.rtype) || (k.rtype == "NS" && k.name == zone)
  }

  ghost function AllBytes(bytes: Bytes, values: seq<string>): seq<string> {
    seq(|values|, i requires 0 <= i < |values| => bytes(values[i]))
  }

  /** The same values in some order, TXT values by the bytes they stand for. */
  ghost predicate Alike(bytes: Bytes, rtype: string, a: seq<string>, b: seq<string>) {
    if rtype == "TXT" then multiset(AllBytes(bytes, a)) == multiset(AllBytes(bytes, b)) else multiset(a) == multiset(b)
  }

  /** A row that is there after an edit: spared as it was, wanted as wanted, or right already and as it was. */
  ghost predicate RightRow(bytes: Bytes, zone: string, before: Rows, desired: Rows, k: Key, row: Row) {
    if k in before && Spared(zone, k, before[k]) then row == before[k]
    else
      k in desired
      && (if k in before && before[k].ttl == desired[k].ttl
             && Alike(bytes, k.rtype, before[k].values, desired[k].values)
          then row == before[k]
          else row == Row(desired[k].ttl, desired[k].values, false))
  }

  /** The edit is made: every spared and every wanted row is there and right, and no other row is. */
  ghost predicate Edited(bytes: Bytes, zone: string, before: Rows, desired: Rows, after: Rows) {
    (forall k | k in before && Spared(zone, k, before[k]) :: k in after)
    && (forall k | k in desired :: k in after)
    && forall k | k in after :: RightRow(bytes, zone, before, desired, k, after[k])
  }

  /** The edit can be made: it wants no spared row, and no CNAME beside another row of its name. */
  ghost predicate Fair(zone: string, before: Rows, desired: Rows) {
    (forall k | k in desired && k in before :: !Spared(zone, k, before[k]))
    && forall c, k | Left(zone, before, desired, c) && Left(zone, before, desired, k) && c.rtype == "CNAME"
                     && k.name == c.name :: k == c
  }

  ghost predicate Left(zone: string, before: Rows, desired: Rows, k: Key) {
    k in desired || (k in before && Spared(zone, k, before[k]))
  }

  /** Two readings that the editor takes for the same: names, types, TTLs and marks, and the values of editable types
      up to order and presentation, those of other types as they are. */
  ghost predicate SameReading(bytes: Bytes, a: Rows, b: Rows) {
    a.Keys == b.Keys
    && forall k | k in a ::
         a[k].ttl == b[k].ttl && a[k].marked == b[k].marked
         && (if Editable(k.rtype) then Alike(bytes, k.rtype, a[k].values, b[k].values) else a[k].values == b[k].values)
  }

  /** What parsing lets through: editable types, and no apex NS. */
  ghost predicate Parsed(zone: string, desired: Rows) {
    forall k | k in desired :: !Spared(zone, k, desired[k])
  }

  /** The changes name the rows that differ, with their values before and after, and no others. */
  ghost predicate Told(bytes: Bytes, zone: string, before: Rows, desired: Rows, changes: Changes) {
    forall k :: (k in changes <==> Differs(bytes, zone, before, desired, k))
                && (k in changes ==>
                      changes[k].before == (if Replaceable(zone, before, k) then before[k].values else [])
                      && changes[k].after == (if k in desired then desired[k].values else [])
                      && changes[k].ttl == (if k in desired then Some(desired[k].ttl) else None))
  }

  ghost predicate Replaceable(zone: string, before: Rows, k: Key) { k in before && !Spared(zone, k, before[k]) }

  ghost predicate Differs(bytes: Bytes, zone: string, before: Rows, desired: Rows, k: Key) {
    if Replaceable(zone, before, k) && k in desired
    then before[k].ttl != desired[k].ttl || !Alike(bytes, k.rtype, before[k].values, desired[k].values)
    else Replaceable(zone, before, k) || k in desired
  }

  lemma {:induction false} ToldExactly(bytes: Bytes, zone: string, before: Rows, desired: Rows, changes: Changes)
    requires ExactlyNeeded(bytes, zone, before, desired, changes)
    ensures Told(bytes, zone, before, desired, changes)
  {
    hide Canonical, Spared, Protected, Alike;
    forall k
      ensures k in changes <==> Differs(bytes, zone, before, desired, k)
      ensures k in changes ==>
                changes[k].before == (if Replaceable(zone, before, k) then before[k].values else [])
                && changes[k].after == (if k in desired then desired[k].values else [])
                && changes[k].ttl == (if k in desired then Some(desired[k].ttl) else None) {
      assert k in changes <==> Needed(bytes, zone, before, desired, k).Some?;
      if k in before {
        SparedExactly(zone, k, before[k]);
        if k in desired {
          AlikeExactly(bytes, k.rtype, before[k].values, desired[k].values);
        }
      }
    }
  }

  lemma {:induction false} SparedExactly(zone: string, k: Key, row: Row)
    ensures Spared(zone, k, row) <==> Protected(zone, k, row)
  {
  }

  lemma {:induction false} AlikeExactly(bytes: Bytes, rtype: string, a: seq<string>, b: seq<string>)
    ensures Alike(bytes, rtype, a, b) <==> Canonical(bytes, rtype, a) == Canonical(bytes, rtype, b)
  {
    assert AllBytes(bytes, a) == seq(|a|, i requires 0 <= i < |a| => bytes(a[i]));
    assert AllBytes(bytes, b) == seq(|b|, i requires 0 <= i < |b| => bytes(b[i]));
  }

  lemma {:induction false} FairExactly(zone: string, before: Rows, desired: Rows)
    ensures Fair(zone, before, desired) <==> Acceptable(zone, before, desired)
  {
    hide Spared, Protected;
    forall k | k in before ensures Spared(zone, k, before[k]) <==> k in Preserved(zone, before) {
      SparedExactly(zone, k, before[k]);
    }
    var all := Preserved(zone, before) + desired.Keys;
    assert forall k :: Left(zone, before, desired, k) <==> k in all;
    if Fair(zone, before, desired) {
      assert CnamesAlone(all);
    }
  }

  /** The planned changes make exactly the edit. */
  lemma {:induction false} EditedExactly(bytes: Bytes, zone: string, before: Rows, desired: Rows, changes: Changes)
    requires Parsed(zone, desired) && Acceptable(zone, before, desired)
    requires ExactlyNeeded(bytes, zone, before, desired, changes)
    ensures Edited(bytes, zone, before, desired, Patched(before, changes))
  {
    hide Canonical, CnamesAlone, Spared, Protected, Acceptable, Alike, Preserved;
    FairExactly(zone, before, desired);
    var after := Patched(before, changes);
    forall k
      ensures k in before && Spared(zone, k, before[k]) ==> k in after
      ensures k in desired ==> k in after
      ensures k in after ==> RightRow(bytes, zone, before, desired, k, after[k]) {
      assert k in changes <==> Needed(bytes, zone, before, desired, k).Some?;
      if k in before {
        SparedExactly(zone, k, before[k]);
        if k in desired {
          AlikeExactly(bytes, k.rtype, before[k].values, desired[k].values);
        }
      }
    }
  }

  lemma {:induction false} ReadingExactly(bytes: Bytes, a: Rows, b: Rows)
    ensures SameReading(bytes, a, b) <==> Fingerprint(bytes, a) == Fingerprint(bytes, b)
  {
    hide Canonical, Alike, Editable;
    assert a.Keys == Fingerprint(bytes, a).Keys && b.Keys == Fingerprint(bytes, b).Keys;
    forall k: Key ensures Editable(k.rtype) <==> k.rtype in EDITABLE {
      EditableExactly(k.rtype);
    }
    forall k | k in a && k in b
      ensures Alike(bytes, k.rtype, a[k].values, b[k].values)
              <==> Canonical(bytes, k.rtype, a[k].values) == Canonical(bytes, k.rtype, b[k].values) {
      AlikeExactly(bytes, k.rtype, a[k].values, b[k].values);
    }
    if SameReading(bytes, a, b) {
      forall k | k in a ensures Fingerprint(bytes, a)[k] == Fingerprint(bytes, b)[k] {
      }
    }
  }

  lemma {:induction false} EditableExactly(rtype: string)
    ensures Editable(rtype) <==> rtype in EDITABLE
  {
  }

  /** The batch that PowerDNS applies: REPLACE or DELETE per changed key. */
  function Patched(rows: Rows, changes: Changes): Rows {
    map k | k in rows.Keys + changes.Keys && (k in changes ==> changes[k].ttl.Some?) ::
      if k in changes then Row(changes[k].ttl.value, changes[k].after, false) else rows[k]
  }

  /** The change a key needs, if any. */
  function Needed(bytes: Bytes, zone: string, before: Rows, desired: Rows, k: Key): Option<Change> {
    var prior := if k in before && !Protected(zone, k, before[k]) then Some(before[k]) else None;
    var after := if k in desired then Some(desired[k]) else None;
    if prior.Some? && after.Some? && SameRow(bytes, k.rtype, prior.value, after.value) then None
    else if prior.None? && after.None? then None
    else Some(Change(match prior { case Some(r) => r.values case None => [] },
                     match after { case Some(r) => r.values case None => [] },
                     match after { case Some(r) => Some(r.ttl) case None => None }))
  }

  ghost predicate ExactlyNeeded(bytes: Bytes, zone: string, before: Rows, desired: Rows, changes: Changes) {
    forall k :: (k in changes <==> Needed(bytes, zone, before, desired, k).Some?)
                && (k in changes ==> Needed(bytes, zone, before, desired, k) == Some(changes[k]))
  }

  function Fingerprint(bytes: Bytes, rows: Rows): map<Key, Print> {
    map k | k in rows ::
      Print(rows[k].ttl,
            if k.rtype in EDITABLE then Loose(Canonical(bytes, k.rtype, rows[k].values)) else Exactly(rows[k].values),
            rows[k].marked)
  }

  /** The same changes but for how the old values are written. */
  ghost predicate SameChanges(bytes: Bytes, a: Changes, b: Changes) {
    a.Keys == b.Keys
    && forall k | k in a :: a[k].after == b[k].after && a[k].ttl == b[k].ttl
                            && Canonical(bytes, k.rtype, a[k].before) == Canonical(bytes, k.rtype, b[k].before)
  }

  /** `_plan`, after the text has been parsed into at most one row per name and type. */
  method MakePlan(bytes: Bytes, zone: string, before: Rows, desired: Rows) returns (plan: Plan)
    ensures plan.Planned? <==> Acceptable(zone, before, desired)
    ensures plan.Planned? ==> ExactlyNeeded(bytes, zone, before, desired, plan.changes)
  {
    hide Needed;
    var preserved := Preserved(zone, before);
    if exists k :: k in preserved && k in desired {
      return Refused;
    }
    var combined := preserved + desired.Keys;
    if exists c, k :: c in combined && k in combined && c.rtype == "CNAME" && k.name == c.name && k.rtype != "CNAME" {
      return Refused;
    }
    forall c, k | c in combined && k in combined && c.rtype == "CNAME" && k.name == c.name ensures k == c {
      assert k.rtype == "CNAME";
    }
    var changes: Changes := map[];
    var left := before.Keys + desired.Keys;
    while left != {}
      invariant left <= before.Keys + desired.Keys
      invariant forall k ::
                k in changes
                <==> k in before.Keys + desired.Keys - left && Needed(bytes, zone, before, desired, k).Some?
      invariant forall k | k in changes :: Needed(bytes, zone, before, desired, k) == Some(changes[k])
    {
      var k :| k in left;
      left := left - {k};
      var needed := Needed(bytes, zone, before, desired, k);
      if needed.Some? {
        changes := changes[k := needed.value];
      }
    }
    NothingElseNeeded(bytes, zone, before, desired);
    return Planned(changes);
  }

  lemma {:induction false} NothingElseNeeded(bytes: Bytes, zone: string, before: Rows, desired: Rows)
    ensures forall k | Needed(bytes, zone, before, desired, k).Some? :: k in before.Keys + desired.Keys
  {
  }

  /** Applying the planned changes gives exactly what was asked for. */
  lemma {:induction false} PatchIsExact(bytes: Bytes, zone: string, before: Rows, desired: Rows, changes: Changes)
    requires Parsed(zone, desired) && Acceptable(zone, before, desired)
    requires ExactlyNeeded(bytes, zone, before, desired, changes)
    ensures AsWanted(bytes, zone, before, desired, Patched(before, changes))
  {
    var after := Patched(before, changes);
    hide Canonical, CnamesAlone, Patched, Needed, SameRow, Preserved, ExactlyNeeded;
    forall k
      ensures k in after <==> k in Preserved(zone, before) || k in desired
      ensures k in Preserved(zone, after) <==> k in Preserved(zone, before)
      ensures k in Preserved(zone, before) ==> k in before && k in after && after[k] == before[k]
      ensures k in desired ==> k in after && SameRow(bytes, k.rtype, after[k], desired[k])
      ensures k in desired && k in before && SameRow(bytes, k.rtype, before[k], desired[k]) ==>
                k in after && after[k] == before[k]
    {
      PatchAt(bytes, zone, before, desired, changes, k);
    }
    assert after.Keys == Preserved(zone, before) + desired.Keys;
    assert Preserved(zone, after) == Preserved(zone, before);
  }

  /** One key of the result. */
  ghost predicate PatchedRight(bytes: Bytes, zone: string, before: Rows, desired: Rows, after: Rows, k: Key) {
    (k in after <==> k in Preserved(zone, before) || k in desired)
    && (k in Preserved(zone, after) <==> k in Preserved(zone, before))
    && (k in Preserved(zone, before) ==> k in before && k in after && after[k] == before[k])
    && (k in desired ==> k in after && SameRow(bytes, k.rtype, after[k], desired[k]))
    && (k in desired && k in before && SameRow(bytes, k.rtype, before[k], desired[k]) ==>
          k in after && after[k] == before[k])
  }

  lemma {:induction false} PatchAt(bytes: Bytes, zone: string, before: Rows, desired: Rows, changes: Changes, k: Key)
    requires Parsed(zone, desired) && Acceptable(zone, before, desired)
    requires ExactlyNeeded(bytes, zone, before, desired, changes)
    ensures PatchedRight(bytes, zone, before, desired, Patched(before, changes), k)
  {
    hide Canonical, CnamesAlone;
    assert k in changes <==> Needed(bytes, zone, before, desired, k).Some?;
    if k in desired {
      SparedExactly(zone, k, desired[k]);
      assert !Protected(zone, k, desired[k]);
    }
  }

  /** What is as wanted needs no change: an edit applied twice writes once. */
  lemma {:induction false} WantedNeedsNothing(bytes: Bytes, zone: string, before: Rows, desired: Rows, after: Rows)
    requires Parsed(zone, desired) && Acceptable(zone, before, desired) && AsWanted(bytes, zone, before, desired, after)
    ensures Acceptable(zone, after, desired) && ExactlyNeeded(bytes, zone, after, desired, map[])
  {
    hide Canonical, CnamesAlone;
    forall k ensures Needed(bytes, zone, after, desired, k).None? {
      assert k in Preserved(zone, after) <==> k in after && Protected(zone, k, after[k]);
    }
  }

  /** Only what the fingerprint shows decides a plan: two readings with the same one give the same changes. */
  lemma {:induction false} FingerprintDecides(bytes: Bytes, zone: string, a: Rows, b: Rows, desired: Rows, ca: Changes,
                                              cb: Changes)
    requires Fingerprint(bytes, a) == Fingerprint(bytes, b)
    requires ExactlyNeeded(bytes, zone, a, desired, ca) && ExactlyNeeded(bytes, zone, b, desired, cb)
    ensures Acceptable(zone, a, desired) <==> Acceptable(zone, b, desired)
    ensures SameChanges(bytes, ca, cb)
  {
    SamePrintSameJudgement(bytes, zone, a, b, desired);
    hide Fingerprint, Acceptable, Needed, Canonical;
    forall k ensures Needed(bytes, zone, a, desired, k).Some? <==> Needed(bytes, zone, b, desired, k).Some?
             ensures Needed(bytes, zone, a, desired, k).Some? ==>
                       SameChange(bytes, k.rtype, Needed(bytes, zone, a, desired, k).value,
                                  Needed(bytes, zone, b, desired, k).value)
    {
      SamePrintSameNeed(bytes, zone, a, b, desired, k);
    }
    forall k ensures k in ca <==> k in cb {
      assert k in ca <==> Needed(bytes, zone, a, desired, k).Some?;
      assert k in cb <==> Needed(bytes, zone, b, desired, k).Some?;
    }
  }

  ghost predicate SameChange(bytes: Bytes, rtype: string, a: Change, b: Change) {
    a.after == b.after && a.ttl == b.ttl && Canonical(bytes, rtype, a.before) == Canonical(bytes, rtype, b.before)
  }

  lemma {:induction false} SamePrintSameNeed(bytes: Bytes, zone: string, a: Rows, b: Rows, desired: Rows, k: Key)
    requires Fingerprint(bytes, a) == Fingerprint(bytes, b)
    ensures var x, y := Needed(bytes, zone, a, desired, k), Needed(bytes, zone, b, desired, k);
            (x.Some? <==> y.Some?) && (x.Some? ==> SameChange(bytes, k.rtype, x.value, y.value))
  {
    hide Canonical;
    assert a.Keys == Fingerprint(bytes, a).Keys == b.Keys;
    if k in a {
      assert Fingerprint(bytes, a)[k] == Fingerprint(bytes, b)[k];
    }
  }

  /** The editor over one PowerDNS zone; others may have replaced the zone's rows before each reading, and `script`
      says which calls raise. */
  class Editor {
    const zone: string
    const bytes: Bytes
    var rrsets: Rows
    var others: seq<Option<Rows>>
    var script: seq<bool>

    constructor (zone: string, bytes: Bytes, rrsets: Rows)
      ensures this.zone == zone && this.bytes == bytes && this.rrsets == rrsets && others == [] && script == []
    {
      this.zone, this.bytes, this.rrsets, others, script := zone, bytes, rrsets, [], [];
    }

    method Call() returns (ok: bool)
      modifies this`script
      ensures ok == (old(script) == [] || old(script)[0])
      ensures script == (if old(script) == [] then [] else old(script)[1..])
      ensures false !in old(script) ==> ok && false !in script
    {
      ok := script == [] || script[0];
      script := if script == [] then [] else script[1..];
    }

    method Read() returns (rows: Rows)
      modifies this`rrsets, this`others
      ensures rows == rrsets && (others == old(others) == [] || (old(others) != [] && others == old(others)[1..]))
      ensures rrsets == if old(others) != [] && old(others)[0].Some? then old(others)[0].value else old(rrsets)
    {
      if others != [] {
        rrsets := match others[0] case Some(r) => r case None => rrsets;
        others := others[1..];
      }
      rows := rrsets;
    }

    method Preview(shown: map<Key, Print>, desired: Rows) returns (outcome: Outcome, ghost seen: Rows)
      modifies this
      ensures !outcome.Failed? ==> (outcome.Stale? <==> Fingerprint(bytes, seen) != shown)
      ensures outcome.Rejected? ==> !Acceptable(zone, seen, desired)
      ensures outcome.Done? ==>
                Acceptable(zone, seen, desired) && ExactlyNeeded(bytes, zone, seen, desired, outcome.changes)
      ensures outcome.Done? ==> Fair(zone, seen, desired) && Told(bytes, zone, seen, desired, outcome.changes)
      ensures outcome.Rejected? ==> !Fair(zone, seen, desired)
      ensures rrsets == seen && !outcome.Unconfirmed?
      ensures false !in old(script) ==> !outcome.Failed? && false !in script
    {
      var before := Read();
      seen := before;
      var answered := Call();
      if !answered {
        return Failed, seen;
      }
      if Fingerprint(bytes, before) != shown {
        return Stale, seen;
      }
      hide Fingerprint, Fair, Acceptable, ExactlyNeeded, Told;
      var plan := MakePlan(bytes, zone, before, desired);
      FairExactly(zone, before, desired);
      if plan.Planned? {
        ToldExactly(bytes, zone, before, desired, plan.changes);
      }
      outcome := match plan case Refused => Rejected case Planned(changes) => Done(changes);
    }

    /** `apply` for PowerDNS: check the fingerprint, plan, read and check again, save the rows read, then write once.
        A failing call leaves the rows as read, unless it is the last one: what is left to do after the write is to
        drop old saved copies, and if that raises the edit is reported as failed although it was made (`wrote`). */
    method Apply(confirmed: bool, shown: map<Key, Print>, desired: Rows)
      returns (outcome: Outcome, ghost seen: Rows, ghost native: Rows, ghost wrote: bool)
      requires Parsed(zone, desired)
      modifies this
      ensures !wrote ==> rrsets == native
      ensures wrote ==> Fingerprint(bytes, seen) == shown == Fingerprint(bytes, native)
      ensures wrote ==> Acceptable(zone, native, desired) && AsWanted(bytes, zone, native, desired, rrsets)
      ensures wrote || outcome.Done? ==> Fair(zone, native, desired) && Edited(bytes, zone, native, desired, rrsets)
      ensures confirmed && false !in old(script) && old(others) == [] && shown == Fingerprint(bytes, old(rrsets))
              && Fair(zone, old(rrsets), desired)
              ==> outcome.Done?
      ensures outcome.Done? ==> Told(bytes, zone, seen, desired, outcome.changes)
      ensures wrote ==> outcome.Done? || outcome.Failed?
      ensures false !in old(script) ==> !outcome.Failed? && false !in script
      ensures LateError(old(script)) && confirmed && old(others) == [] && Fingerprint(bytes, old(rrsets)) == shown
              && Acceptable(zone, old(rrsets), desired) && NeededMap(bytes, zone, old(rrsets), desired) != map[] ==>
                outcome.Failed? && wrote
      ensures outcome.Unconfirmed? <==> !confirmed
      ensures outcome.Unconfirmed? ==> rrsets == old(rrsets)
      ensures outcome.Stale? || outcome.Rejected? ==> rrsets == native
      ensures outcome.Stale? ==> Fingerprint(bytes, native) != shown
      ensures outcome.Rejected? ==> !Acceptable(zone, seen, desired) && Fingerprint(bytes, seen) == shown
      ensures outcome.Done? ==>
                Fingerprint(bytes, seen) == shown == Fingerprint(bytes, native) && Acceptable(zone, native, desired)
      ensures outcome.Done? ==>
                Acceptable(zone, seen, desired) && ExactlyNeeded(bytes, zone, seen, desired, outcome.changes)
      ensures outcome.Done? ==> AsWanted(bytes, zone, native, desired, rrsets)
      ensures outcome.Done? ==> (wrote <==> outcome.changes != map[])
    {
      hide Fingerprint, AsWanted, Acceptable, ExactlyNeeded, Patched, NeededMap, Parsed, Fair, Edited, Told;
      FairExactly(zone, rrsets, desired);
      seen, native, wrote := rrsets, rrsets, false;
      if !confirmed {
        return Unconfirmed, seen, native, false;
      }
      var before := Read();
      seen, native := before, before;
      var answered := Call();
      if !answered {
        return Failed, seen, native, false;
      }
      if Fingerprint(bytes, before) != shown {
        return Stale, seen, native, false;
      }
      var plan := MakePlan(bytes, zone, before, desired);
      if plan.Refused? {
        return Rejected, seen, native, false;
      }
      var changes := plan.changes;
      ToldExactly(bytes, zone, before, desired, changes);
      NeededIs(bytes, zone, before, desired, changes);
      FairExactly(zone, before, desired);
      if changes == map[] {
        NothingNeeded(bytes, zone, before, desired);
        return Done(changes), seen, native, false;
      }
      var again := Read();
      native := again;
      answered := Call();
      if !answered {
        return Failed, seen, native, false;
      }
      if Fingerprint(bytes, again) != shown {
        return Stale, seen, native, false;
      }
      var saved := Call();
      if !saved {
        return Failed, seen, native, false;
      }
      StillExact(bytes, zone, before, again, desired, changes);
      FairExactly(zone, again, desired);
      answered := Call();
      if !answered {
        return Failed, seen, native, false;
      }
      rrsets, wrote := Patched(rrsets, changes), true;
      var tidied := Call();
      outcome := if tidied then Done(changes) else Failed;
    }

    /** The changes previewed are the changes performed, whatever happened to the zone in between. */
    method PreviewThenApply(shown: map<Key, Print>, desired: Rows) returns (previewed: Outcome, applied: Outcome)
      requires Parsed(zone, desired)
      modifies this
      ensures previewed.Done? && applied.Done? ==> SameChanges(bytes, previewed.changes, applied.changes)
      ensures previewed.Done? ==> !applied.Rejected?
      ensures previewed.Rejected? ==> !applied.Done?
    {
      hide AsWanted, Acceptable, Fingerprint, ExactlyNeeded, SameChanges;
      ghost var first, second, native, wrote;
      previewed, first := Preview(shown, desired);
      applied, second, native, wrote := Apply(true, shown, desired);
      if previewed.Done? && applied.Done? {
        FingerprintDecides(bytes, zone, first, second, desired, previewed.changes, applied.changes);
      } else if (previewed.Done? || previewed.Rejected?) && (applied.Rejected? || applied.Done?) {
        SamePrintSameJudgement(bytes, zone, first, second, desired);
      }
    }
  }

  lemma {:induction false} NeededIs(bytes: Bytes, zone: string, before: Rows, desired: Rows, changes: Changes)
    requires ExactlyNeeded(bytes, zone, before, desired, changes)
    ensures changes == NeededMap(bytes, zone, before, desired)
  {
    hide Needed;
    forall k ensures k in changes <==> k in NeededMap(bytes, zone, before, desired) {
    }
  }

  lemma {:induction false} NothingNeeded(bytes: Bytes, zone: string, before: Rows, desired: Rows)
    requires Parsed(zone, desired) && Acceptable(zone, before, desired)
    requires ExactlyNeeded(bytes, zone, before, desired, map[])
    ensures AsWanted(bytes, zone, before, desired, before) && Edited(bytes, zone, before, desired, before)
  {
    hide Canonical, Needed, Protected, Spared, CnamesAlone, RightRow;
    PatchIsExact(bytes, zone, before, desired, map[]);
    EditedExactly(bytes, zone, before, desired, map[]);
    assert Patched(before, map[]) == before;
  }

  /** Every call of an edit works but the one after the write. */
  ghost predicate LateError(script: seq<bool>) { script == [true, true, true, true, false] }

  lemma {:induction false} SamePrintSameJudgement(bytes: Bytes, zone: string, a: Rows, b: Rows, desired: Rows)
    requires Fingerprint(bytes, a) == Fingerprint(bytes, b)
    ensures Acceptable(zone, a, desired) <==> Acceptable(zone, b, desired)
  {
    hide Canonical, CnamesAlone;
    assert a.Keys == Fingerprint(bytes, a).Keys == b.Keys;
    forall k | k in a ensures a[k].marked == b[k].marked {
      assert Fingerprint(bytes, a)[k] == Fingerprint(bytes, b)[k];
    }
    assert Preserved(zone, a) == Preserved(zone, b);
  }

  /** Changes planned from one reading do the same to a later one with the same fingerprint. */
  lemma {:induction false} StillExact(bytes: Bytes, zone: string, before: Rows, again: Rows, desired: Rows,
                                      changes: Changes)
    requires Fingerprint(bytes, before) == Fingerprint(bytes, again)
    requires Parsed(zone, desired) && Acceptable(zone, before, desired)
    requires ExactlyNeeded(bytes, zone, before, desired, changes)
    ensures Acceptable(zone, again, desired) && AsWanted(bytes, zone, again, desired, Patched(again, changes))
    ensures Edited(bytes, zone, again, desired, Patched(again, changes))
  {
    hide AsWanted, Edited, Acceptable, Fingerprint, Needed, SameChanges, Patched, ExactlyNeeded, Parsed;
    var anew := NeededMap(bytes, zone, again, desired);
    FingerprintDecides(bytes, zone, before, again, desired, changes, anew);
    PatchIsExact(bytes, zone, again, desired, anew);
    EditedExactly(bytes, zone, again, desired, anew);
    SamePatch(bytes, again, changes, anew);
  }

  lemma {:induction false} SamePatch(bytes: Bytes, rows: Rows, a: Changes, b: Changes)
    requires SameChanges(bytes, a, b)
    ensures Patched(rows, a) == Patched(rows, b)
  {
    hide Canonical;
    forall k | k in a ensures a[k].after == b[k].after && a[k].ttl == b[k].ttl {
    }
  }

  ghost function NeededMap(bytes: Bytes, zone: string, before: Rows, desired: Rows): (changes: Changes)
    ensures ExactlyNeeded(bytes, zone, before, desired, changes)
  {
    map k | k in before.Keys + desired.Keys && Needed(bytes, zone, before, desired, k).Some? ::
      Needed(bytes, zone, before, desired, k).value
  }

  /** Any acceptable edit of an empty zone can be made and still be reported as failed. */
  method LateErrorCounterexample(zone: string, bytes: Bytes, desired: Rows) returns (editor: Editor, outcome: Outcome)
    requires Parsed(zone, desired) && Acceptable(zone, map[], desired) && desired != map[]
    ensures outcome.Failed? && AsWanted(bytes, zone, map[], desired, editor.rrsets)
  {
    hide AsWanted, Acceptable, Fingerprint, NeededMap, Parsed, ExactlyNeeded;
    editor := new Editor(zone, bytes, map[]);
    editor.script := [true, true, true, true, false];
    AllIsNeeded(bytes, zone, desired);
    ghost var seen, native, wrote;
    outcome, seen, native, wrote := editor.Apply(true, Fingerprint(bytes, map[]), desired);
    OnlyEmpty(bytes, native);
  }

  lemma {:induction false} AllIsNeeded(bytes: Bytes, zone: string, desired: Rows)
    requires desired != map[]
    ensures NeededMap(bytes, zone, map[], desired) != map[]
  {
    var k :| k in desired;
    assert k in NeededMap(bytes, zone, map[], desired);
  }

  lemma {:induction false} OnlyEmpty(bytes: Bytes, rows: Rows)
    ensures Fingerprint(bytes, rows) == Fingerprint(bytes, map[]) ==> rows == map[]
  {
    assert Fingerprint(bytes, rows).Keys == rows.Keys;
  }
}
