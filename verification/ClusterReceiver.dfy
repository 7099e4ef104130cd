/** The receiving side of DNS cluster replication: validation, idempotency receipts, stale-serial
    rejection and the full-zone apply (daemon/dnscluster.py:707-794). */
module ClusterReceiver {
  import opened Text
  import opened CloudflareValues

  /** One rrset of a payload or of a PowerDNS zone; names are fully qualified. */
  datatype RR = RR(name: string, rtype: RType, ttl: int, values: seq<string>)

  datatype RKey = RKey(name: string, rtype: RType)

  datatype Content = Content(ttl: int, values: seq<string>)

  type Zone = map<RKey, Content>

  /** The SHA-256 of a record list, taken to be collision free. */
  datatype Digest = Digest(rrsets: seq<RR>)

  datatype Payload = Payload(version: int, zone: string, rrsets: seq<RR>, serial: int, digest: Option<Digest>)

  /** What `_validate_payload` returns. */
  datatype Clean = Clean(rrsets: seq<RR>, serial: int, digest: Digest)

  datatype Action = Upsert(payload: Payload) | Delete

  datatype Message = Message(event: string, action: Action)

  /** The receiver's last accepted version of the zone. */
  datatype Last = Last(serial: int, digest: Option<Digest>)

  /** Everything the receiver stores about one peer and zone; None is a zone PowerDNS does not have. */
  datatype Receiver = Receiver(zone: Option<Zone>, last: Option<Last>, receipts: set<string>)

  /** Failed is an exception from PowerDNS or a database session; the sender sees it, like Rejected, as an error. */
  datatype Reply = Applied | Duplicate | Rejected | Failed

  // ----- validation -----

  predicate EndsWith(s: string, suffix: string) {
    |suffix| <= |s| && s[|s| - |suffix|..] == suffix
  }

  predicate IsEventId(s: string) {
    |s| == 32 && forall i | 0 <= i < |s| :: IsDigit(s[i]) || 'a' <= s[i] <= 'f'
  }

  /** One record of a payload as it is kept, or None where it is refused. */
  function CleanRecord(zone: string, r: RR): Option<RR> {
    var fqdn := zone + ".";
    var name := if EndsWith(r.name, ".") then r.name else r.name + ".";
    if r.rtype.OTHER? || (name != fqdn && !EndsWith(name, "." + fqdn)) then None
    else if !(60 <= r.ttl <= 2147483647) || r.values == [] || |r.values| > 100 then None
    else if exists i :: 0 <= i < |r.values| && (r.values[i] == "" || |r.values[i]| > 8192) then None
    else Some(RR(name, r.rtype, r.ttl, r.values))
  }

  function CleanRecords(zone: string, rs: seq<RR>): Option<seq<RR>> {
    if rs == [] then Some([])
    else match (CleanRecords(zone, rs[..|rs| - 1]), CleanRecord(zone, rs[|rs| - 1]))
         case (Some(front), Some(r)) => Some(front + [r])
         case _ => None
  }

  /** What `_validate_payload` accepts, and what it makes of it. */
  function Validated(zone: string, p: Payload): Option<Clean> {
    if (p.version != 1 && p.version != 2) || p.zone != zone || |p.rrsets| > 10000 then None
    else match CleanRecords(zone, p.rrsets)
         case None => None
         case Some(clean) =>
           if p.digest.Some? && p.digest.value != Digest(clean) then None
           else Some(Clean(clean, p.serial, Digest(clean)))
  }

  method ValidatePayload(zone: string, p: Payload) returns (result: Option<Clean>)
    ensures result == Validated(zone, p)
  {
    if (p.version != 1 && p.version != 2) || p.zone != zone || |p.rrsets| > 10000 {
      return None;
    }
    hide CleanRecord, CleanRecords;
    var clean := [];
    NoneClean(zone, p.rrsets);
    for i := 0 to |p.rrsets|
      invariant CleanRecords(zone, p.rrsets[..i]) == Some(clean)
    {
      OneMoreClean(zone, p.rrsets, i);
      match CleanRecord(zone, p.rrsets[i])
      case None =>
        NoneStays(zone, p.rrsets, i + 1);
        return None;
      case Some(r) => clean := clean + [r];
    }
    assert p.rrsets[..|p.rrsets|] == p.rrsets;
    if p.digest.Some? && p.digest.value != Digest(clean) {
      return None;
    }
    return Some(Clean(clean, p.serial, Digest(clean)));
  }

  lemma {:induction false} NoneClean(zone: string, rs: seq<RR>)
    ensures CleanRecords(zone, rs[..0]) == Some([])
  {
  }

  lemma {:induction false} OneMoreClean(zone: string, rs: seq<RR>, i: nat)
    requires i < |rs|
    ensures CleanRecords(zone, rs[..i + 1])
            == match (CleanRecords(zone, rs[..i]), CleanRecord(zone, rs[i]))
               case (Some(front), Some(r)) => Some(front + [r])
               case _ => None
  {
    hide CleanRecord;
    assert rs[..i + 1][..i] == rs[..i];
  }

  lemma {:induction false} NoneStays(zone: string, rs: seq<RR>, i: nat)
    requires i <= |rs| && CleanRecords(zone, rs[..i]).None?
    ensures CleanRecords(zone, rs).None?
    decreases |rs|
  {
    if i == |rs| {
      assert rs[..i] == rs;
    } else {
      assert rs[..|rs| - 1][..i] == rs[..i];
      NoneStays(zone, rs[..|rs| - 1], i);
    }
  }

  // What the sender may rely on, on the payload itself.

  ghost predicate EndsInDot(s: string) { s != "" && s[|s| - 1] == '.' }

  ghost function Dotted(s: string): string { if EndsInDot(s) then s else s + "." }

  /** The zone's own dotted name, or one below it. */
  ghost predicate Within(zone: string, name: string) {
    name == zone + "." || exists sub: string :: name == sub + ("." + zone + ".")
  }

  /** A record that a receiver of the zone takes. */
  ghost predicate WellFormed(zone: string, r: RR) {
    !r.rtype.OTHER? && Within(zone, Dotted(r.name)) && 60 <= r.ttl < 0x8000_0000 && 1 <= |r.values| <= 100
    && forall v | v in r.values :: 1 <= |v| <= 8192
  }

  /** The records under dotted names; everything else about them is as sent. */
  ghost function AllDotted(rs: seq<RR>): (r: seq<RR>)
    ensures |r| == |rs|
    ensures forall i | 0 <= i < |rs| :: r[i] == RR(Dotted(rs[i].name), rs[i].rtype, rs[i].ttl, rs[i].values)
  {
    seq(|rs|, i requires 0 <= i < |rs| => RR(Dotted(rs[i].name), rs[i].rtype, rs[i].ttl, rs[i].values))
  }

  ghost predicate AllWellFormed(zone: string, rs: seq<RR>) {
    forall i | 0 <= i < |rs| :: WellFormed(zone, rs[i])
  }

  ghost predicate Acceptable(zone: string, p: Payload) {
    p.version in {1, 2} && p.zone == zone && |p.rrsets| <= 10000 && AllWellFormed(zone, p.rrsets)
    && (p.digest == None || p.digest == Some(Digest(AllDotted(p.rrsets))))
  }

  ghost function KeyOf(r: RR): RKey { RKey(Dotted(r.name), r.rtype) }

  /** The record is the last one of its name and type in the payload. */
  ghost predicate LastOfKey(rs: seq<RR>, i: nat, k: RKey) {
    i < |rs| && KeyOf(rs[i]) == k && forall j | i < j < |rs| :: KeyOf(rs[j]) != k
  }

  /** The zone holds what the message says: nothing at all, or every rrset of the payload but a SOA under its own dotted
      name and type with its own TTL and values, a later record for a name and type taking the place of an earlier one,
      and no other rrset but a SOA. */
  ghost predicate AsAsked(action: Action, zone: Option<Zone>) {
    match action
    case Delete => zone == None
    case Upsert(p) =>
      zone.Some?
      && (forall k: RKey, i: nat | k.rtype != SOA && LastOfKey(p.rrsets, i, k) ::
            k in zone.value && zone.value[k] == Content(p.rrsets[i].ttl, p.rrsets[i].values))
      && forall k | k in zone.value && k.rtype != SOA :: exists i: nat :: LastOfKey(p.rrsets, i, k)
  }

  /** Validation accepts exactly the acceptable payloads, and keeps their records under dotted names. */
  lemma {:induction false} ValidatedExactly(zone: string, p: Payload)
    ensures Validated(zone, p).Some? <==> Acceptable(zone, p)
    ensures Validated(zone, p).Some? ==>
              Validated(zone, p).value == Clean(AllDotted(p.rrsets), p.serial, Digest(AllDotted(p.rrsets)))
  {
    hide CleanRecords, AllDotted, AllWellFormed;
    CleanExactly(zone, p.rrsets);
  }

  lemma {:induction false} CleanExactly(zone: string, rs: seq<RR>)
    ensures CleanRecords(zone, rs) == if AllWellFormed(zone, rs) then Some(AllDotted(rs)) else None
    decreases |rs|
  {
    hide CleanRecord, WellFormed, AllDotted, Dotted;
    if rs != [] {
      var n := |rs| - 1;
      CleanExactly(zone, rs[..n]);
      CleanOne(zone, rs[n]);
      assert AllWellFormed(zone, rs) <==> AllWellFormed(zone, rs[..n]) && WellFormed(zone, rs[n]);
      assert AllDotted(rs) == AllDotted(rs[..n]) + [RR(Dotted(rs[n].name), rs[n].rtype, rs[n].ttl, rs[n].values)];
    } else {
      assert AllDotted(rs) == [];
    }
  }

  lemma {:induction false} CleanOne(zone: string, r: RR)
    ensures CleanRecord(zone, r)
            == if WellFormed(zone, r) then Some(RR(Dotted(r.name), r.rtype, r.ttl, r.values)) else None
  {
    assert EndsWith(r.name, ".") <==> EndsInDot(r.name);
    var name, suffix := Dotted(r.name), "." + (zone + ".");
    assert suffix == "." + zone + ".";
    if EndsWith(name, suffix) {
      assert name == name[..|name| - |suffix|] + suffix;
    }
  }

  /** A kept record lies in the zone and is the record it comes from under its dotted name. */
  ghost predicate KeptAs(zone: string, r: RR, kept: RR) {
    (kept.name == zone + "." || EndsWith(kept.name, "." + (zone + ".")))
    && kept.name == (if EndsInDot(r.name) then r.name else r.name + ".") && kept.rtype == r.rtype && kept.ttl == r.ttl
    && kept.values == r.values != [] && !kept.rtype.OTHER? && 60 <= kept.ttl
  }

  /** Whatever passes validation lies in the zone, has values and keeps its order and number of records. */
  lemma {:induction false} ValidatedInZone(zone: string, rs: seq<RR>)
    requires CleanRecords(zone, rs).Some?
    ensures |CleanRecords(zone, rs).value| == |rs|
    ensures forall i | 0 <= i < |rs| :: KeptAs(zone, rs[i], CleanRecords(zone, rs).value[i])
  {
    hide EndsWith, KeptAs, CleanRecord;
    if rs != [] {
      var front, r := rs[..|rs| - 1], rs[|rs| - 1];
      ValidatedInZone(zone, front);
      var kept := CleanRecords(zone, front).value;
      assert CleanRecords(zone, rs).value == kept + [CleanRecord(zone, r).value];
      KeptRecord(zone, r);
      forall i | 0 <= i < |rs| ensures KeptAs(zone, rs[i], CleanRecords(zone, rs).value[i]) {
        if i < |front| {
          assert front[i] == rs[i];
        }
      }
    }
  }

  lemma {:induction false} KeptRecord(zone: string, r: RR)
    requires CleanRecord(zone, r).Some?
    ensures KeptAs(zone, r, CleanRecord(zone, r).value)
  {
  }

  // ----- the full-zone apply -----

  /** `desired`: the payload's rrsets but the SOA, a later record of a key replacing an earlier one. */
  function Desired(rs: seq<RR>): Zone {
    if rs == [] then map[]
    else
      var front, r := Desired(rs[..|rs| - 1]), rs[|rs| - 1];
      if r.rtype.SOA? then front else front[RKey(r.name, r.rtype) := Content(r.ttl, r.values)]
  }

  datatype Change = Remove(key: RKey) | Replace(key: RKey, content: Content)

  /** PowerDNS applies a list of changes atomically and in order. */
  function Patched(z: Zone, changes: seq<Change>): Zone {
    if changes == [] then z
    else
      var before, c := Patched(z, changes[..|changes| - 1]), changes[|changes| - 1];
      match c
      case Remove(k) => before - {k}
      case Replace(k, content) => if content.values == [] then before - {k} else before[k := content]
  }

  function NonSoa(z: Zone): Zone {
    map k | k in z && !k.rtype.SOA? :: z[k]
  }

  predicate Stored(z: Zone) { forall k | k in z :: z[k].values != [] }

  function SoaPart(z: Zone): Zone {
    map k | k in z && k.rtype.SOA? :: z[k]
  }

  /** The first half of the change list: delete what is not desired. */
  method PlanRemovals(existing: Zone, desired: Zone) returns (changes: seq<Change>)
    ensures Patched(existing, changes) == map k | k in existing && (k.rtype.SOA? || k in desired) :: existing[k]
  {
    changes := [];
    var todo := existing.Keys;
    while todo != {}
      invariant todo <= existing.Keys
      invariant Patched(existing, changes)
                == map k | k in existing && (k in todo || k.rtype.SOA? || k in desired) :: existing[k]
      decreases todo
    {
      var k :| k in todo;
      if !k.rtype.SOA? && k !in desired {
        PatchedStep(existing, changes, Remove(k));
        changes := changes + [Remove(k)];
      }
      todo := todo - {k};
    }
  }

  /** The change list of the apply: delete what is not desired, replace everything that is. Applying it
      leaves exactly the SOA and the desired rrsets, whatever was there before. */
  method PlanChanges(existing: Zone, desired: Zone) returns (changes: seq<Change>)
    requires Stored(desired) && forall k | k in desired :: !k.rtype.SOA?
    ensures SoaPart(Patched(existing, changes)) == SoaPart(existing)
    ensures NonSoa(Patched(existing, changes)) == desired
  {
    hide Patched;
    changes := PlanRemovals(existing, desired);
    var todo := desired.Keys;
    while todo != {}
      invariant todo <= desired.Keys
      invariant SoaPart(Patched(existing, changes)) == SoaPart(existing)
      invariant forall k | k in Patched(existing, changes) && !k.rtype.SOA? :: k in desired
      invariant forall k | k in desired && k !in todo ::
                k in Patched(existing, changes) && Patched(existing, changes)[k] == desired[k]
      decreases todo
    {
      var k :| k in todo;
      PatchedStep(existing, changes, Replace(k, desired[k]));
      changes := changes + [Replace(k, desired[k])];
      todo := todo - {k};
    }
  }

  lemma {:induction false} PatchedStep(z: Zone, changes: seq<Change>, c: Change)
    ensures Patched(z, changes + [c]) == match c {
              case Remove(k) => Patched(z, changes) - {k}
              case Replace(k, content) =>
                if content.values == [] then Patched(z, changes) - {k} else Patched(z, changes)[k := content] }
  {
    assert (changes + [c])[..|changes|] == changes;
  }

  lemma {:induction false} DesiredStored(zone: string, p: Payload)
    requires Validated(zone, p).Some?
    ensures Stored(Desired(Validated(zone, p).value.rrsets))
    ensures forall k | k in Desired(Validated(zone, p).value.rrsets) :: !k.rtype.SOA?
  {
    ValidatedInZone(zone, p.rrsets);
    DesiredFacts(Validated(zone, p).value.rrsets);
  }

  lemma {:induction false} DesiredFacts(rs: seq<RR>)
    requires forall i | 0 <= i < |rs| :: rs[i].values != []
    ensures Stored(Desired(rs)) && forall k | k in Desired(rs) :: !k.rtype.SOA?
  {
    if rs != [] {
      DesiredFacts(rs[..|rs| - 1]);
    }
  }

  // ----- the receiver -----

  /** The zone is what the action asks for. */
  ghost predicate Settled(name: string, action: Action, zone: Option<Zone>) {
    match action
    case Delete => zone.None?
    case Upsert(p) =>
      Validated(name, p).Some? && zone.Some? && NonSoa(zone.value) == Desired(Validated(name, p).value.rrsets)
  }

  lemma {:induction false} DesiredExactly(rs: seq<RR>, k: RKey)
    ensures k in Desired(AllDotted(rs)) <==> k.rtype != SOA && exists i: nat :: LastOfKey(rs, i, k)
    ensures forall i: nat | LastOfKey(rs, i, k) && k.rtype != SOA ::
              Desired(AllDotted(rs))[k] == Content(rs[i].ttl, rs[i].values)
    decreases |rs|
  {
    hide Dotted;
    if rs == [] {
      assert AllDotted(rs) == [];
    } else {
      var n := |rs| - 1;
      assert AllDotted(rs)[..n] == AllDotted(rs[..n]);
      DesiredExactly(rs[..n], k);
      forall i: nat ensures LastOfKey(rs, i, k) <==> if KeyOf(rs[n]) == k then i == n else LastOfKey(rs[..n], i, k) {
        LastOfMore(rs, i, k);
      }
      hide LastOfKey;
      assert KeyOf(rs[n]) == k ==> LastOfKey(rs, n, k);
    }
  }

  lemma {:induction false} LastOfMore(rs: seq<RR>, i: nat, k: RKey)
    requires rs != []
    ensures var n := |rs| - 1;
            LastOfKey(rs, i, k) <==> if KeyOf(rs[n]) == k then i == n else LastOfKey(rs[..n], i, k)
  {
    hide KeyOf;
  }

  /** For an acceptable payload the receiver is settled exactly when its zone holds what the message says. */
  lemma {:induction false} SettledExactly(name: string, action: Action, zone: Option<Zone>)
    requires action.Upsert? ==> Acceptable(name, action.payload)
    ensures Settled(name, action, zone) <==> AsAsked(action, zone)
  {
    hide Validated, Acceptable, Desired, KeyOf;
    if action.Upsert? && zone.Some? {
      var p := action.payload;
      ValidatedExactly(name, p);
      forall k
        ensures k in Desired(AllDotted(p.rrsets)) <==> k.rtype != SOA && exists i: nat :: LastOfKey(p.rrsets, i, k)
        ensures forall i: nat | LastOfKey(p.rrsets, i, k) && k.rtype != SOA ::
                  i < |p.rrsets| && Desired(AllDotted(p.rrsets))[k] == Content(p.rrsets[i].ttl, p.rrsets[i].values) {
        DesiredExactly(p.rrsets, k);
      }
    }
  }

  lemma {:induction false} SettledIsAsAsked(name: string, action: Action, zone: Option<Zone>)
    ensures Settled(name, action, zone) ==> AsAsked(action, zone)
  {
    hide Acceptable, AsAsked;
    if action.Upsert? {
      ValidatedExactly(name, action.payload);
    }
    if action.Upsert? ==> Acceptable(name, action.payload) {
      SettledExactly(name, action, zone);
    }
  }

  /** Neither stale nor in conflict with the last accepted version. */
  predicate Fresh(last: Option<Last>, c: Clean) {
    last.Some? ==> c.serial > last.value.serial
                   || (c.serial == last.value.serial
                       && (last.value.digest == None || last.value.digest == Some(c.digest)))
  }

  predicate HasApexNs(name: string, rs: seq<RR>) {
    exists i :: 0 <= i < |rs| && rs[i].rtype.NS? && RStripDots(rs[i].name) == name && rs[i].values != []
  }

  /** A message is up for application: its event is new and, for an upsert, its payload valid and fresh. */
  ghost predicate Admissible(name: string, r: Receiver, m: Message) {
    m.event !in r.receipts
    && match m.action {
         case Delete => true
         case Upsert(p) => Validated(name, p).Some? && Fresh(r.last, Validated(name, p).value)
       }
  }

  ghost predicate EventId(s: string) { |s| == 32 && forall c | c in s :: c in "0123456789abcdef" }

  ghost predicate Undotted(name: string) { name != "" && name[|name| - 1] != '.' }

  ghost predicate HasNameservers(zone: string, rs: seq<RR>) {
    exists i: nat :: i < |rs| && rs[i].rtype == NS && Dotted(rs[i].name) == zone + "."
  }

  /** What a receiver in this state applies: a new event that deletes, or one with an acceptable payload whose serial is
      higher than the one on record, or the same with the same records, and which names the zone's own nameservers if
      the zone has to be created. */
  ghost predicate Welcome(name: string, r: Receiver, m: Message) {
    m.event !in r.receipts
    && match m.action
       case Delete => true
       case Upsert(p) =>
         Acceptable(name, p)
         && (r.last == None || p.serial > r.last.value.serial
             || (p.serial == r.last.value.serial && r.last.value.digest in {None, Some(Digest(AllDotted(p.rrsets)))}))
         && (r.zone == None ==> HasNameservers(name, p.rrsets))
  }

  lemma {:induction false} ApexExactly(name: string, n: string)
    requires Undotted(name) && Within(name, Dotted(n))
    ensures RStripDots(Dotted(n)) == name <==> Dotted(n) == name + "."
  {
    hide RStripDots, Dotted;
    if Dotted(n) == name + "." {
      OneDotOff(name);
    } else {
      var sub: string :| Dotted(n) == sub + ("." + name + ".");
      var most := sub + "." + name;
      assert Dotted(n) == most + "." && most[|most| - 1] == name[|name| - 1];
      OneDotOff(most);
      assert |most| > |name|;
    }
  }

  lemma {:induction false} OneDotOff(h: string)
    requires h != "" && h[|h| - 1] != '.'
    ensures RStripDots(h + ".") == h
  {
    assert (h + ".")[..|h|] == h;
  }

  lemma {:induction false} WelcomeExactly(name: string, r: Receiver, m: Message)
    requires Undotted(name)
    ensures Welcome(name, r, m)
            <==> Admissible(name, r, m)
                 && (m.action.Upsert? && r.zone.None? ==>
                       HasApexNs(name, Validated(name, m.action.payload).value.rrsets))
  {
    hide Validated, Dotted, Within, Undotted, RStripDots;
    if m.action.Upsert? {
      var p := m.action.payload;
      ValidatedExactly(name, p);
      if Acceptable(name, p) {
        forall i: nat | i < |p.rrsets|
          ensures p.rrsets[i].values != []
          ensures RStripDots(Dotted(p.rrsets[i].name)) == name <==> Dotted(p.rrsets[i].name) == name + "." {
          assert WellFormed(name, p.rrsets[i]);
          ApexExactly(name, p.rrsets[i].name);
        }
      }
    }
  }

  lemma {:induction false} EventIdExactly(s: string)
    ensures IsEventId(s) <==> EventId(s)
  {
    forall i | 0 <= i < |s| ensures s[i] in "0123456789abcdef" <==> IsDigit(s[i]) || 'a' <= s[i] <= 'f' {
      HexDigit(s[i]);
    }
    assert forall i | 0 <= i < |s| :: s[i] in s;
  }

  lemma {:induction false} HexDigit(c: char)
    ensures c in "0123456789abcdef" <==> IsDigit(c) || 'a' <= c <= 'f'
  {
    var hex := "0123456789abcdef";
    if '0' <= c <= '9' {
      assert hex[c as int - '0' as int] == c;
    }
    if 'a' <= c <= 'f' {
      assert hex[c as int - 'a' as int + 10] == c;
    }
  }

  /** What one incoming message may do to the receiver, for each reply. */
  ghost predicate Handled(name: string, r: Receiver, m: Message, reply: Reply, r': Receiver) {
    match reply
    case Applied =>
      Admissible(name, r, m) && r'.receipts == r.receipts + {m.event} && Settled(name, m.action, r'.zone)
      && (r.zone.Some? && r'.zone.Some? ==> SoaPart(r'.zone.value) == SoaPart(r.zone.value))
      && r'.last == (match m.action
                     case Delete => r.last
                     case Upsert(p) => var c := Validated(name, p).value; Some(Last(c.serial, Some(c.digest))))
    case Duplicate => m.event in r.receipts && r' == r
    case Rejected => r' == r
    case Failed =>
      r'.receipts == r.receipts && r'.last == r.last
      && (r'.zone == r.zone || (Admissible(name, r, m) && (Settled(name, m.action, r'.zone) || r.zone.None?)))
  }

  /** The upserts accepted so far never go back in serial, equal serials carry equal content, and the
      last of them is the version on record. */
  ghost predicate Ordered(accepted: seq<Clean>, last: Option<Last>) {
    (forall i, j | 0 <= i < j < |accepted| ::
       accepted[i].serial <= accepted[j].serial
       && (accepted[i].serial == accepted[j].serial ==> accepted[i].rrsets == accepted[j].rrsets))
    && (forall i | 0 <= i < |accepted| :: accepted[i].digest == Digest(accepted[i].rrsets))
    && last == if accepted == [] then None
               else Some(Last(accepted[|accepted| - 1].serial, Some(accepted[|accepted| - 1].digest)))
  }

  lemma {:induction false} OrderedPlus(accepted: seq<Clean>, last: Option<Last>, c: Clean)
    requires Ordered(accepted, last) && Fresh(last, c) && c.digest == Digest(c.rrsets)
    ensures Ordered(accepted + [c], Some(Last(c.serial, Some(c.digest))))
    ensures last.Some? ==> c.serial >= last.value.serial
  {
    var n := |accepted|;
    forall i | 0 <= i < n
      ensures accepted[i].serial <= c.serial && (accepted[i].serial == c.serial ==> accepted[i].rrsets == c.rrsets)
    {
      assert accepted[i].serial <= accepted[n - 1].serial;
    }
  }

  /** A zone at a receiving peer. `script` holds the outcomes of PowerDNS calls and database sessions. */
  class PeerZone {
    const name: string
    var zone: Option<Zone>
    var last: Option<Last>
    var receipts: set<string>
    var script: seq<bool>
    ghost var accepted: seq<Clean>

    ghost predicate Valid()
      reads this
    {
      Ordered(accepted, last)
    }

    constructor (name: string, zone: Option<Zone>)
      ensures Valid() && State() == Receiver(zone, None, {}) && this.name == name && script == [] && accepted == []
    {
      this.name, this.zone, last, receipts, script, accepted := name, zone, None, {}, [], [];
    }

    function State(): Receiver
      reads this
    {
      Receiver(zone, last, receipts)
    }

    method Attempt() returns (ok: bool)
      modifies this`script
      ensures old(false !in script) ==> ok && false !in script
    {
      ok := script == [] || script[0];
      script := if script == [] then [] else script[1..];
    }

    /** `apply_incoming`. `permitted` is the peer's direction and allowlist, `bare` the content PowerDNS
        gives a zone it creates. */
    method ApplyIncoming(m: Message, permitted: bool, bare: Zone) returns (reply: Reply)
      requires Valid()
      modifies this
      ensures Valid() && Handled(name, old(State()), m, reply, State())
      ensures old(accepted) <= accepted
      ensures reply.Applied? && m.action.Upsert? ==>
                accepted == old(accepted) + [Validated(name, m.action.payload).value]
      ensures old(last).Some? ==> last.Some? && last.value.serial >= old(last).value.serial
      ensures reply.Applied? ==> permitted && EventId(m.event) && AsAsked(m.action, zone)
      ensures reply.Applied? && Undotted(name) ==> Welcome(name, old(State()), m)
      ensures !permitted || !EventId(m.event) ==> State() == old(State())
      ensures old(false !in script) && permitted && EventId(m.event) ==>
                (m.event in old(receipts) ==> reply.Duplicate?)
                && (Undotted(name) && Welcome(name, old(State()), m) ==> reply.Applied?)
      ensures old(false !in script) && permitted && IsEventId(m.event) && old(Admissible(name, State(), m))
              && (m.action.Upsert? && old(zone).None? ==>
                    HasApexNs(name, Validated(name, m.action.payload).value.rrsets))
              ==> reply.Applied?
    {
      hide Validated, Desired, HasApexNs, IsEventId, NonSoa, SoaPart, Patched, Ordered;
      hide EventId, AsAsked, Welcome, Undotted, Acceptable;
      EventIdExactly(m.event);
      if Undotted(name) {
        WelcomeExactly(name, State(), m);
      }
      if !IsEventId(m.event) {
        return Rejected;
      }
      var ok := Attempt();
      if !ok {
        return Failed;
      }
      if !permitted {
        return Rejected;
      }
      if m.event in receipts {
        return Duplicate;
      }
      var clean := None;
      match m.action {
        case Delete =>
          ok := Attempt();
          if !ok {
            return Failed;
          }
          zone := None;
        case Upsert(p) =>
          clean := ValidatePayload(name, p);
          if clean.None? || !Fresh(last, clean.value) {
            return Rejected;
          }
          if zone.None? && !HasApexNs(name, clean.value.rrsets) {
            return Rejected;
          }
          ok := Attempt();
          if !ok {
            return Failed;
          }
          DesiredStored(name, p);
          ValidatedExactly(name, p);
          ok := ApplyZone(clean.value, bare);
          if !ok {
            return Failed;
          }
      }
      ok := Attempt();
      if !ok {
        return Failed;
      }
      receipts := receipts + {m.event};
      SettledExactly(name, m.action, zone);
      if clean.Some? {
        ValidatedDigest(name, m.action.payload);
        OrderedPlus(accepted, last, clean.value);
        last := Some(Last(clean.value.serial, Some(clean.value.digest)));
        accepted := accepted + [clean.value];
      }
      return Applied;
    }

    /** Create the zone if PowerDNS does not have it, then apply the whole change list atomically. */
    method ApplyZone(clean: Clean, bare: Zone) returns (ok: bool)
      requires Stored(Desired(clean.rrsets)) && forall k | k in Desired(clean.rrsets) :: !k.rtype.SOA?
      modifies this`zone, this`script
      ensures ok ==> zone.Some? && NonSoa(zone.value) == Desired(clean.rrsets)
      ensures ok && old(zone).Some? ==> SoaPart(zone.value) == SoaPart(old(zone).value)
      ensures !ok ==> zone == old(zone) || old(zone).None?
      ensures old(false !in script) ==> ok && false !in script
    {
      hide Desired, NonSoa, SoaPart, Patched;
      if zone.None? {
        ok := Attempt();
        if !ok {
          return;
        }
        zone := Some(bare);
      }
      var changes := PlanChanges(zone.value, Desired(clean.rrsets));
      ok := Attempt();
      if ok {
        zone := Some(Patched(zone.value, changes));
      }
    }
  }

  lemma {:induction false} ValidatedDigest(name: string, p: Payload)
    requires Validated(name, p).Some?
    ensures Validated(name, p).value.digest == Digest(Validated(name, p).value.rrsets)
  {
  }
}
