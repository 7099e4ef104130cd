/** One Cloudflare zone and the client that emulates an atomic rrset REPLACE over its
    one-object-per-value records (daemon/cloudflare.py:140-150, 305-339, 376-456). */
module CloudflareStore {
  import opened Text
  import opened CloudflareMeaning
  import opened CloudflareValues

  const AUTO_TTL := 1
  const DEFAULT_TTL := 3600

  datatype Key = Key(name: string, rtype: RType)

  datatype Rec = Rec(id: nat, rtype: RType, name: string, ttl: int, proxied: bool, body: Body)

  /** The records of a zone by id. */
  type Records = map<nat, Rec>

  /** A request body; `proxied` is sent only for the types that can be proxied. */
  datatype Payload = Payload(rtype: RType, name: string, ttl: int, proxied: Option<bool>, wire: Wire)

  datatype RRset = RRset(ttl: int, values: seq<string>, proxied: bool)

  function KeyOf(r: Rec): Key { Key(RStripDots(r.name), r.rtype) }

  function Reading(r: Rec): string { FromBody(r.rtype, r.body) }

  function WireTtl(ttl: int, proxied: bool): int {
    if proxied then AUTO_TTL else if ttl < 60 then 60 else ttl
  }

  /** `_to_cf_payload`; None where it raises. The flag only counts for types that can be proxied. */
  function ToPayload(k: Key, value: string, ttl: int, proxied: bool): Option<Payload> {
    var flag := proxied && Proxyable(k.rtype);
    match ToWire(k.rtype, value)
    case None => None
    case Some(w) =>
      Some(Payload(k.rtype, k.name, WireTtl(ttl, flag), if Proxyable(k.rtype) then Some(flag) else None, w))
  }

  function Created(p: Payload, id: nat): Rec {
    Rec(id, p.rtype, p.name, p.ttl, p.proxied == Some(true), NewBody(p.wire))
  }

  function Patched(r: Rec, p: Payload): Rec {
    Rec(r.id, p.rtype, p.name, p.ttl, match p.proxied { case Some(b) => b case None => r.proxied },
        PatchedBody(r.body, p.wire))
  }

  // ----- what a zone's records hold -----

  /** The ids of the records of the rrset `k`. */
  function Ids(m: Records, k: Key): set<nat> {
    set id | id in m && KeyOf(m[id]) == k
  }

  /** Every record outside the rrset `k`. */
  function Others(m: Records, k: Key): Records {
    map id | id in m && KeyOf(m[id]) != k :: m[id]
  }

  /** The values that the records `ids` read as. */
  ghost function Gather(m: Records, ids: set<nat>): multiset<string>
    requires ids <= m.Keys
  {
    if ids == {} then multiset{}
    else var id :| id in ids; multiset{Reading(m[id])} + Gather(m, ids - {id})
  }

  /** The values that the rrset `k` reads as. */
  ghost function Readings(m: Records, k: Key): multiset<string> { Gather(m, Ids(m, k)) }

  /** The canonical forms of the accepted values. */
  function Canonicals(t: RType, values: seq<string>): multiset<string> {
    if values == [] then multiset{}
    else Canonicals(t, values[..|values| - 1])
         + match Canonical(t, values[|values| - 1]) { case Some(c) => multiset{c} case None => multiset{} }
  }

  predicate Accepted(t: RType, values: seq<string>) {
    forall i | 0 <= i < |values| :: ToWire(t, values[i]).Some?
  }

  predicate HasSettings(r: Rec, ttl: int, proxied: bool) {
    var flag := proxied && Proxyable(r.rtype);
    r.ttl == WireTtl(ttl, flag) && (Proxyable(r.rtype) ==> r.proxied == flag)
  }

  /** Every record of the rrset has the requested TTL and proxied flag. */
  ghost predicate Uniform(m: Records, k: Key, ttl: int, proxied: bool) {
    forall id | id in m && KeyOf(m[id]) == k :: HasSettings(m[id], ttl, proxied)
  }

  /** The rrset is exactly what a REPLACE with these arguments asks for. */
  ghost predicate Converged(m: Records, k: Key, values: seq<string>, ttl: int, proxied: bool) {
    Accepted(k.rtype, values) && Readings(m, k) == Canonicals(k.rtype, values) && Uniform(m, k, ttl, proxied)
  }

  /** `m` is on the way from `a` to `b`: it still holds all of `a` or already holds all of `b`, and it holds nothing
      beyond the two. */
  ghost predicate Between(m: multiset<string>, a: multiset<string>, b: multiset<string>) {
    (a <= m || b <= m) && m <= a + (b - a)
  }

  lemma {:induction false} GatherTake(m: Records, ids: set<nat>, id: nat)
    requires ids <= m.Keys && id in ids
    ensures Gather(m, ids) == multiset{Reading(m[id])} + Gather(m, ids - {id})
    decreases ids
  {
    var first :| first in ids && Gather(m, ids) == multiset{Reading(m[first])} + Gather(m, ids - {first});
    if first != id {
      GatherTake(m, ids - {first}, id);
      GatherTake(m, ids - {id}, first);
      assert ids - {first} - {id} == ids - {id} - {first};
    }
  }

  lemma {:induction false} GatherFrame(m: Records, m': Records, ids: set<nat>)
    requires ids <= m.Keys && ids <= m'.Keys
    requires forall id | id in ids :: Reading(m[id]) == Reading(m'[id])
    ensures Gather(m, ids) == Gather(m', ids)
    decreases ids
  {
    if ids != {} {
      var id :| id in ids;
      GatherTake(m, ids, id);
      GatherTake(m', ids, id);
      GatherFrame(m, m', ids - {id});
    }
  }

  lemma {:induction false} GatherHas(m: Records, ids: set<nat>, v: string)
    requires ids <= m.Keys
    ensures v in Gather(m, ids) <==> exists id :: id in ids && Reading(m[id]) == v
    decreases ids
  {
    if ids != {} {
      var id :| id in ids;
      GatherTake(m, ids, id);
      GatherHas(m, ids - {id}, v);
    }
  }

  lemma {:induction false} CreateFacts(m: Records, r: Rec, k: Key)
    requires r.id !in m && KeyOf(r) == k
    ensures Readings(m[r.id := r], k) == Readings(m, k) + multiset{Reading(r)}
    ensures Others(m[r.id := r], k) == Others(m, k)
  {
    hide Gather, Reading;
    var after := m[r.id := r];
    var ids := Ids(m, k);
    assert Ids(after, k) == ids + {r.id};
    GatherTake(after, ids + {r.id}, r.id);
    assert ids + {r.id} - {r.id} == ids;
    GatherFrame(m, after, ids);
  }

  lemma {:induction false} PatchFacts(m: Records, r: Rec, k: Key)
    requires r.id in m && KeyOf(m[r.id]) == KeyOf(r) == k && Reading(m[r.id]) == Reading(r)
    ensures Readings(m[r.id := r], k) == Readings(m, k)
    ensures Others(m[r.id := r], k) == Others(m, k)
  {
    var after := m[r.id := r];
    assert Ids(after, k) == Ids(m, k);
    GatherFrame(m, after, Ids(m, k));
  }

  lemma {:induction false} RemoveFacts(m: Records, id: nat, k: Key)
    requires id in m && KeyOf(m[id]) == k
    ensures Readings(m, k) == Readings(m - {id}, k) + multiset{Reading(m[id])}
    ensures Others(m - {id}, k) == Others(m, k)
  {
    hide Gather, Reading, KeyOf;
    GatherTake(m, Ids(m, k), id);
    assert Ids(m - {id}, k) == Ids(m, k) - {id};
    GatherFrame(m, m - {id}, Ids(m, k) - {id});
    assert Others(m - {id}, k) == Others(m, k);
  }

  lemma {:induction false} CanonicalsPrefix(t: RType, values: seq<string>, i: nat)
    requires i <= |values|
    ensures Canonicals(t, values[..i]) <= Canonicals(t, values)
    decreases |values|
  {
    hide Canonical;
    if i < |values| {
      CanonicalsPrefix(t, values[..|values| - 1], i);
      assert values[..|values| - 1][..i] == values[..i];
    } else {
      assert values[..i] == values;
    }
  }

  lemma {:induction false} TurnFacts(t: RType, values: seq<string>, i: nat)
    requires i < |values|
    ensures Canonicals(t, values[..i + 1]) == Canonicals(t, values[..i])
              + match Canonical(t, values[i]) { case Some(c) => multiset{c} case None => multiset{} }
    ensures Canonicals(t, values[..i]) <= Canonicals(t, values)
    ensures Canonicals(t, values[..i + 1]) <= Canonicals(t, values)
    ensures Accepted(t, values[..i]) && ToWire(t, values[i]).Some? ==> Accepted(t, values[..i + 1])
    ensures Accepted(t, values) ==> ToWire(t, values[i]).Some?
  {
    hide ToWire, Canonical, Canonicals;
    CanonicalsStep(t, values, i);
    CanonicalsPrefix(t, values, i);
    CanonicalsPrefix(t, values, i + 1);
  }

  lemma {:induction false} CanonicalsStep(t: RType, values: seq<string>, i: nat)
    requires i < |values|
    ensures Canonicals(t, values[..i + 1]) == Canonicals(t, values[..i])
              + match Canonical(t, values[i]) { case Some(c) => multiset{c} case None => multiset{} }
  {
    hide Canonical;
    var more := values[..i + 1];
    assert more[..|more| - 1] == values[..i] && more[|more| - 1] == values[i];
  }

  // ----- the reconcile loop -----

  /** `list` holds exactly the records `ids`, each once. */
  ghost predicate Lists(list: seq<Rec>, m: Records, ids: set<nat>) {
    (forall i, j | 0 <= i < j < |list| :: list[i].id != list[j].id)
    && (forall i | 0 <= i < |list| :: list[i].id in ids && list[i].id in m && m[list[i].id] == list[i])
    && (forall id | id in ids :: exists i :: 0 <= i < |list| && list[i].id == id)
  }

  /** The records of `open` that read as `v`. */
  function ReadingAs(m: Records, open: set<nat>, v: string): set<nat> {
    set id | id in open && id in m && Reading(m[id]) == v
  }

  function Bucket(buckets: map<string, seq<Rec>>, v: string): seq<Rec> {
    if v in buckets then buckets[v] else []
  }

  /** The records `open` of the listing `m`, filed under the value they read as. */
  ghost predicate Bucketed(m: Records, open: set<nat>, buckets: map<string, seq<Rec>>) {
    forall v :: Lists(Bucket(buckets, v), m, ReadingAs(m, open, v))
  }

  /** The records `open` are still as listed; every other record of the rrset is settled. */
  ghost predicate Tidy(now: Records, m: Records, open: set<nat>, k: Key, ttl: int, proxied: bool) {
    (forall id | id in open :: id in m && id in now && now[id] == m[id] && KeyOf(m[id]) == k)
    && (forall id | id in now && KeyOf(now[id]) == k && id !in open :: HasSettings(now[id], ttl, proxied))
  }

  lemma {:induction false} NothingListed(m: Records)
    ensures Lists([], m, {})
  {
  }

  lemma {:induction false} ListPlus(list: seq<Rec>, m: Records, ids: set<nat>, r: Rec)
    requires Lists(list, m, ids) && r.id !in ids && r.id in m && m[r.id] == r
    ensures Lists(list + [r], m, ids + {r.id})
  {
    var list' := list + [r];
    assert list'[|list|] == r;
    forall x | x in ids + {r.id} ensures exists i :: 0 <= i < |list'| && list'[i].id == x {
      if x != r.id {
        var i :| 0 <= i < |list| && list[i].id == x;
        assert list'[i].id == x;
      }
    }
  }

  lemma {:induction false} ListMinus(list: seq<Rec>, m: Records, ids: set<nat>)
    requires Lists(list, m, ids) && list != []
    ensures Lists(list[1..], m, ids - {list[0].id})
  {
    forall x | x in ids - {list[0].id} ensures exists i :: 0 <= i < |list[1..]| && list[1..][i].id == x {
      var i :| 0 <= i < |list| && list[i].id == x;
      assert list[1..][i - 1].id == x;
    }
  }

  lemma {:induction false} BucketPush(m: Records, open: set<nat>, buckets: map<string, seq<Rec>>, r: Rec)
    requires Bucketed(m, open, buckets) && r.id !in open && r.id in m && m[r.id] == r
    ensures Bucketed(m, open + {r.id}, buckets[Reading(r) := Bucket(buckets, Reading(r)) + [r]])
  {
    var after := buckets[Reading(r) := Bucket(buckets, Reading(r)) + [r]];
    forall v ensures Lists(Bucket(after, v), m, ReadingAs(m, open + {r.id}, v)) {
      assert Lists(Bucket(buckets, v), m, ReadingAs(m, open, v));
      if v == Reading(r) {
        assert ReadingAs(m, open + {r.id}, v) == ReadingAs(m, open, v) + {r.id};
        ListPlus(Bucket(buckets, v), m, ReadingAs(m, open, v), r);
      } else {
        assert ReadingAs(m, open + {r.id}, v) == ReadingAs(m, open, v);
      }
    }
  }

  lemma {:induction false} BucketPop(m: Records, open: set<nat>, buckets: map<string, seq<Rec>>, v: string)
    requires Bucketed(m, open, buckets) && Bucket(buckets, v) != []
    ensures Bucketed(m, open - {Bucket(buckets, v)[0].id}, buckets[v := Bucket(buckets, v)[1..]])
  {
    var b := Bucket(buckets, v);
    var id, after := b[0].id, buckets[v := b[1..]];
    assert Lists(b, m, ReadingAs(m, open, v));
    forall u ensures Lists(Bucket(after, u), m, ReadingAs(m, open - {id}, u)) {
      assert Lists(Bucket(buckets, u), m, ReadingAs(m, open, u));
      if u == v {
        assert ReadingAs(m, open - {id}, u) == ReadingAs(m, open, u) - {id};
        ListMinus(b, m, ReadingAs(m, open, u));
      } else {
        assert ReadingAs(m, open - {id}, u) == ReadingAs(m, open, u);
      }
    }
  }

  /** A bucket is empty exactly when no open record reads as its value; otherwise its first record does. */
  lemma {:induction false} BucketFirst(m: Records, open: set<nat>, buckets: map<string, seq<Rec>>, v: string)
    requires open <= m.Keys && Bucketed(m, open, buckets)
    ensures var b := Bucket(buckets, v);
            if b == [] then v !in Gather(m, open) else b[0].id in open && m[b[0].id] == b[0] && Reading(b[0]) == v
  {
    assert Lists(Bucket(buckets, v), m, ReadingAs(m, open, v));
    GatherHas(m, open, v);
    if v in Gather(m, open) {
      var id :| id in open && Reading(m[id]) == v;
      assert id in ReadingAs(m, open, v);
    }
  }

  lemma {:induction false} NothingBucketed(m: Records)
    ensures Bucketed(m, {}, map[])
  {
  }

  /** `existing_by_value`: the listed records filed under their readings. */
  method FileByReading(existing: seq<Rec>, ghost m: Records, ghost ids: set<nat>)
    returns (buckets: map<string, seq<Rec>>)
    requires Lists(existing, m, ids)
    ensures Bucketed(m, ids, buckets)
  {
    hide Bucketed, Bucket, Reading;
    buckets := map[];
    ghost var filed: set<nat> := {};
    NothingBucketed(m);
    for i := 0 to |existing|
      invariant forall j | 0 <= j < i :: existing[j].id in filed
      invariant forall j | i <= j < |existing| :: existing[j].id !in filed
      invariant filed <= ids && Bucketed(m, filed, buckets)
    {
      var r := existing[i];
      BucketPush(m, filed, buckets, r);
      buckets := buckets[Reading(r) := Bucket(buckets, Reading(r)) + [r]];
      filed := filed + {r.id};
    }
    assert filed == ids;
  }

  /** The state of the first loop once values with the canonical forms `part` are written: what the
      open records read as is what `part` leaves of the old rrset, and the rrset holds both. */
  ghost predicate Midway(now: Records, m: Records, open: set<nat>, k: Key, part: multiset<string>, ttl: int,
                         proxied: bool) {
    open <= m.Keys && Tidy(now, m, open, k, ttl, proxied)
    && Gather(m, open) == Readings(m, k) - part
    && Readings(now, k) == part + Gather(m, open)
  }

  lemma {:induction false} MidwayStart(m: Records, k: Key, values: seq<string>, ttl: int, proxied: bool)
    ensures values[..0] == [] && Accepted(k.rtype, [])
    ensures Midway(m, m, Ids(m, k), k, Canonicals(k.rtype, []), ttl, proxied)
    ensures Converged(m, k, values, ttl, proxied)
            ==> (Accepted(k.rtype, values) && Uniform(m, k, ttl, proxied)
                 && Readings(m, k) == Canonicals(k.rtype, values))
  {
  }

  /** Partway through, the rrset is between the old one and the new one. */
  lemma {:induction false} MidwayBetween(now: Records, m: Records, open: set<nat>, k: Key, part: multiset<string>,
                                         all: multiset<string>, ttl: int, proxied: bool)
    requires Midway(now, m, open, k, part, ttl, proxied) && part <= all
    ensures Between(Readings(now, k), Readings(m, k), all) && Readings(m, k) <= Readings(now, k)
  {
    BetweenPrefix(Readings(m, k), part, all);
  }

  lemma {:induction false} BetweenPrefix(r0: multiset<string>, part: multiset<string>, all: multiset<string>)
    requires part <= all
    ensures Between(part + (r0 - part), r0, all) && r0 <= part + (r0 - part)
  {
  }

  lemma {:induction false} MidwayFacts(now: Records, m: Records, open: set<nat>, k: Key, part: multiset<string>,
                                       c: string, ttl: int, proxied: bool)
    requires Midway(now, m, open, k, part, ttl, proxied)
    ensures open <= m.Keys && Tidy(now, m, open, k, ttl, proxied)
    ensures part + multiset{c} <= Readings(m, k) ==> c in Gather(m, open)
    ensures Uniform(m, k, ttl, proxied) ==> forall id | id in open :: HasSettings(m[id], ttl, proxied)
  {
    if part + multiset{c} <= Readings(m, k) {
      assert (part + multiset{c})[c] == part[c] + 1;
      assert Readings(m, k)[c] > part[c];
    }
  }

  /** A value that no open record reads as has been created. */
  lemma {:induction false} MidwayCreate(before: Records, now: Records, m: Records, open: set<nat>, k: Key,
                                        part: multiset<string>, c: string, ttl: int, proxied: bool)
    requires Midway(before, m, open, k, part, ttl, proxied) && c !in Gather(m, open)
    requires Tidy(now, m, open, k, ttl, proxied) && Readings(now, k) == Readings(before, k) + multiset{c}
    ensures Midway(now, m, open, k, part + multiset{c}, ttl, proxied)
  {
    hide Gather, Readings, Tidy;
    var left := Gather(m, open);
    assert left[c] == 0;
    assert left == Readings(m, k) - (part + multiset{c});
    assert part + left + multiset{c} == part + multiset{c} + left;
  }

  /** A value has been matched to the open record `id`. */
  lemma {:induction false} MidwayMatch(before: Records, now: Records, m: Records, open: set<nat>, id: nat, k: Key,
                                       part: multiset<string>, ttl: int, proxied: bool)
    requires Midway(before, m, open, k, part, ttl, proxied) && id in open
    requires Tidy(now, m, open - {id}, k, ttl, proxied) && Readings(now, k) == Readings(before, k)
    ensures Midway(now, m, open - {id}, k, part + multiset{Reading(m[id])}, ttl, proxied)
  {
    hide Tidy, Readings, Ids, Gather, Reading;
    GatherTake(m, open, id);
    OneLess(Readings(m, k), part, Gather(m, open), Reading(m[id]), Gather(m, open - {id}));
  }

  lemma {:induction false} OneLess(all: multiset<string>, part: multiset<string>, was: multiset<string>, c: string,
                                   left: multiset<string>)
    requires was == all - part && was == multiset{c} + left
    ensures left == all - (part + multiset{c}) && part + was == part + multiset{c} + left
  {
    assert left == was - multiset{c};
    forall x ensures left[x] == (all - (part + multiset{c}))[x] {
    }
    assert part + (multiset{c} + left) == part + multiset{c} + left;
  }

  /** The state of the second loop: the rrset holds `base` and the records still open. */
  ghost predicate Leftover(now: Records, m: Records, open: set<nat>, k: Key, base: multiset<string>, ttl: int,
                           proxied: bool) {
    open <= m.Keys && Tidy(now, m, open, k, ttl, proxied) && Readings(now, k) == base + Gather(m, open)
  }

  lemma {:induction false} LeftoverStart(m: Records, k: Key)
    ensures Leftover(m, m, Ids(m, k), k, multiset{}, 0, false)
  {
  }

  lemma {:induction false} MidwayLeftover(now: Records, m: Records, open: set<nat>, k: Key, all: multiset<string>,
                                          ttl: int, proxied: bool)
    requires Midway(now, m, open, k, all, ttl, proxied)
    ensures Leftover(now, m, open, k, all, ttl, proxied)
  {
  }

  lemma {:induction false} LeftoverFacts(now: Records, m: Records, open: set<nat>, k: Key, base: multiset<string>,
                                         ttl: int, proxied: bool)
    requires Leftover(now, m, open, k, base, ttl, proxied)
    ensures base <= Readings(now, k)
  {
  }

  /** Removing an open record. */
  lemma {:induction false} LeftoverStep(now: Records, m: Records, open: set<nat>, id: nat, k: Key,
                                        base: multiset<string>, ttl: int, proxied: bool)
    requires Leftover(now, m, open, k, base, ttl, proxied) && id in open
    ensures id in now && Others(now - {id}, k) == Others(now, k)
    ensures Leftover(now - {id}, m, open - {id}, k, base, ttl, proxied)
    ensures base <= Readings(now - {id}, k) <= Readings(now, k) && Readings(now, k) != base
  {
    hide Readings, Others, Gather, FromBody;
    GatherTake(m, open, id);
    RemoveFacts(now, id, k);
    var c, rest := multiset{Reading(m[id])}, Gather(m, open - {id});
    assert Readings(now - {id}, k) + c == (base + rest) + c;
    MultisetCancel(Readings(now - {id}, k), base + rest, c);
    assert Readings(now, k)[Reading(m[id])] > base[Reading(m[id])];
  }

  lemma {:induction false} MultisetCancel(a: multiset<string>, b: multiset<string>, c: multiset<string>)
    requires a + c == b + c
    ensures a == b
  {
    forall v ensures a[v] == b[v] {
      assert (a + c)[v] == (b + c)[v];
    }
  }

  lemma {:induction false} LeftoverDone(now: Records, m: Records, k: Key, base: multiset<string>, ttl: int,
                                        proxied: bool)
    requires Leftover(now, m, {}, k, base, ttl, proxied)
    ensures Readings(now, k) == base && Uniform(now, k, ttl, proxied)
  {
  }

  lemma {:induction false} BetweenRefl(a: multiset<string>, b: multiset<string>)
    ensures Between(a, a, b)
  {
  }

  /** Deleting from a rrset that is between old and new, without going below new, stays between. */
  lemma {:induction false} BetweenBelow(r: multiset<string>, r': multiset<string>, a: multiset<string>,
                                        b: multiset<string>)
    requires Between(r', a, b) && b <= r <= r'
    ensures Between(r, a, b)
  {
  }

  // ----- the records of an rrset, field by field -----

  ghost function FullName(domain: string, sub: string): string {
    if sub == "" || sub == "@" then domain else sub + "." + domain
  }

  /** The record is of the name, written with or without dots behind it, and of the type. */
  ghost predicate Belongs(r: Rec, name: string, t: RType) { r.rtype == t && DotsAfter(r.name, name) }

  /** The record has the TTL and the proxied flag of a write: a proxied one has the automatic TTL, no other has less
      than a minute, and only addresses and aliases can be proxied. */
  ghost predicate SetTo(r: Rec, ttl: int, proxied: bool) {
    if proxied && r.rtype in {A, AAAA, CNAME} then r.ttl == 1 && r.proxied
    else r.ttl == (if ttl >= 60 then ttl else 60) && (r.rtype in {A, AAAA, CNAME} ==> !r.proxied)
  }

  /** The records of the name and type are `ids`, one for each of `xs`, and each stores its own. */
  ghost predicate Carries(m: Records, name: string, t: RType, xs: seq<Meant>, ids: seq<nat>) {
    |ids| == |xs| && (forall i, j | 0 <= i < j < |ids| :: ids[i] != ids[j])
    && (forall i | 0 <= i < |ids| :: ids[i] in m && Belongs(m[ids[i]], name, t) && Stores(t, m[ids[i]].body, xs[i]))
    && (forall id | id in m && Belongs(m[id], name, t) :: id in ids)
  }

  /** The records of the name and type are exactly those that a write of values saying `xs` asks for. */
  ghost predicate WrittenOut(m: Records, name: string, t: RType, xs: seq<Meant>, ttl: int, proxied: bool) {
    (exists ids :: Carries(m, name, t, xs, ids))
    && forall id | id in m && Belongs(m[id], name, t) :: SetTo(m[id], ttl, proxied)
  }

  /** No record changed but those of the name and type. */
  ghost predicate Beside(m: Records, m': Records, name: string, t: RType) {
    (forall id | id in m && !Belongs(m[id], name, t) :: id in m' && m'[id] == m[id])
    && (forall id | id in m' && !Belongs(m'[id], name, t) :: id in m && m'[id] == m[id])
  }

  lemma {:induction false} BelongsExactly(r: Rec, k: Key)
    ensures Belongs(r, k.name, k.rtype) <==> KeyOf(r) == k
  {
    DotsStripped(r.name, k.name);
  }

  lemma {:induction false} NoneLeft(m: Records, k: Key)
    requires Readings(m, k) == multiset{}
    ensures forall id | id in m :: !Belongs(m[id], k.name, k.rtype)
  {
    hide Belongs, KeyOf, Gather;
    forall id | id in m ensures !Belongs(m[id], k.name, k.rtype) {
      BelongsExactly(m[id], k);
      if id in Ids(m, k) {
        GatherTake(m, Ids(m, k), id);
      }
    }
  }

  lemma {:induction false} BesideOthers(m: Records, m': Records, k: Key)
    requires Others(m, k) == Others(m', k)
    ensures Beside(m, m', k.name, k.rtype)
  {
    hide KeyOf, Belongs;
    forall id | id in m ensures Belongs(m[id], k.name, k.rtype) <==> KeyOf(m[id]) == k {
      BelongsExactly(m[id], k);
    }
    forall id | id in m' ensures Belongs(m'[id], k.name, k.rtype) <==> KeyOf(m'[id]) == k {
      BelongsExactly(m'[id], k);
    }
    forall id | id in m && KeyOf(m[id]) != k ensures id in m' && m'[id] == m[id] {
      assert id in Others(m, k);
    }
    forall id | id in m' && KeyOf(m'[id]) != k ensures id in m && m'[id] == m[id] {
      assert id in Others(m', k);
    }
  }

  /** Records that read as the canonical forms of values store what the values say, one each. */
  lemma {:induction false} Matching(m: Records, open: set<nat>, t: RType, values: seq<string>, xs: seq<Meant>)
    returns (ids: seq<nat>)
    requires open <= m.Keys && (forall id | id in open :: m[id].rtype == t) && SayAll(t, values, xs)
    requires Gather(m, open) == Canonicals(t, values)
    ensures |ids| == |xs| && (forall i, j | 0 <= i < j < |ids| :: ids[i] != ids[j])
    ensures forall i | 0 <= i < |ids| :: ids[i] in open && Stores(t, m[ids[i]].body, xs[i])
    ensures forall id | id in open :: id in ids
    decreases |values|
  {
    hide Says, Stores, Canonical, Fits, FromBody, Gather, Spelled;
    if values == [] {
      ids := [];
      forall id | id in open ensures false {
        GatherTake(m, open, id);
      }
    } else {
      var n := |values| - 1;
      var c := Spelled(xs[n]);
      SaysExactly(t, values[n], xs[n]);
      GatherHas(m, open, c);
      var id :| id in open && Reading(m[id]) == c;
      GatherTake(m, open, id);
      MultisetCancel(Gather(m, open - {id}), Canonicals(t, values[..n]), multiset{c});
      var rest := Matching(m, open - {id}, t, values[..n], xs[..n]);
      ReadsExactly(t, m[id].body, xs[n]);
      ids := rest + [id];
    }
  }

  /** A converged rrset is the one that the write asks for, record by record and field by field. */
  lemma {:induction false} ConvergedIsWrittenOut(m: Records, k: Key, values: seq<string>, ttl: int, proxied: bool,
                                                 xs: seq<Meant>)
    requires Converged(m, k, values, ttl, proxied) && SayAll(k.rtype, values, xs)
    ensures WrittenOut(m, k.name, k.rtype, xs, ttl, proxied)
  {
    hide Belongs, KeyOf, Stores, Says, Gather, Canonicals, Accepted;
    forall id | id in m ensures Belongs(m[id], k.name, k.rtype) <==> KeyOf(m[id]) == k {
      BelongsExactly(m[id], k);
    }
    forall id | id in Ids(m, k) ensures m[id].rtype == k.rtype {
      KeyType(m[id]);
    }
    var ids := Matching(m, Ids(m, k), k.rtype, values, xs);
    assert forall i | 0 <= i < |ids| :: ids[i] in Ids(m, k);
    assert Carries(m, k.name, k.rtype, xs, ids);
    forall id | id in m && Belongs(m[id], k.name, k.rtype) ensures SetTo(m[id], ttl, proxied) {
      assert HasSettings(m[id], ttl, proxied);
    }
  }

  lemma {:induction false} AllWrittenOut(m: Records, k: Key, values: seq<string>, ttl: int, proxied: bool)
    requires Converged(m, k, values, ttl, proxied)
    ensures exists xs :: SayAll(k.rtype, values, xs)
    ensures forall xs | SayAll(k.rtype, values, xs) :: WrittenOut(m, k.name, k.rtype, xs, ttl, proxied)
  {
    hide SayAll, WrittenOut, Readings, Canonicals, Uniform, ToWire;
    var some := AllUnderstood(k.rtype, values);
    forall xs | SayAll(k.rtype, values, xs) ensures WrittenOut(m, k.name, k.rtype, xs, ttl, proxied) {
      ConvergedIsWrittenOut(m, k, values, ttl, proxied, xs);
    }
  }

  lemma {:induction false} KeyType(r: Rec)
    ensures KeyOf(r).rtype == r.rtype
  {
  }

  ghost predicate AllFit(t: RType, xs: seq<Meant>) { forall i | 0 <= i < |xs| :: Fits(t, xs[i]) }

  lemma {:induction false} SaidAccepted(t: RType, values: seq<string>, xs: seq<Meant>)
    requires SayAll(t, values, xs)
    ensures Accepted(t, values)
  {
    hide Says, ToWire;
    forall i | 0 <= i < |xs| ensures ToWire(t, values[i]).Some? {
      SaidFits(t, values[i], xs[i]);
    }
  }

  lemma {:induction false} SaidFit(t: RType, values: seq<string>, xs: seq<Meant>)
    requires SayAll(t, values, xs)
    ensures AllFit(t, xs)
  {
    hide Says, Fits;
    forall i | 0 <= i < |xs| ensures Fits(t, xs[i]) {
      SaidFits(t, values[i], xs[i]);
    }
  }

  /** Records that store `xs` read as the panel writes them. */
  lemma {:induction false} CarriedReads(m: Records, t: RType, xs: seq<Meant>, ids: seq<nat>, open: set<nat>)
    requires |ids| == |xs| && (forall i, j | 0 <= i < j < |ids| :: ids[i] != ids[j]) && AllFit(t, xs)
    requires forall i | 0 <= i < |ids| :: ids[i] in m && m[ids[i]].rtype == t && Stores(t, m[ids[i]].body, xs[i])
    requires open <= m.Keys && open == set i | 0 <= i < |ids| :: ids[i]
    ensures Gather(m, open) == multiset(Spellings(xs))
    decreases |ids|
  {
    hide Stores, Fits, FromBody, Spelled, Gather;
    if ids == [] {
      assert Spellings(xs) == [] && open == {};
      GatherNone(m);
    } else {
      var n := |ids| - 1;
      var rest := set i | 0 <= i < n :: ids[i];
      assert open == rest + {ids[n]} && ids[n] !in rest;
      assert open - {ids[n]} == rest;
      assert rest == set i | 0 <= i < |ids[..n]| :: ids[..n][i];
      CarriedReads(m, t, xs[..n], ids[..n], rest);
      GatherTake(m, open, ids[n]);
      ReadsExactly(t, m[ids[n]].body, xs[n]);
      assert Spellings(xs) == Spellings(xs[..n]) + [Spelled(xs[n])];
    }
  }

  // ----- listing -----

  /** One turn of the loop in `list_records`. */
  function AddToGroup(rrsets: map<Key, RRset>, r: Rec): map<Key, RRset> {
    var k := KeyOf(r);
    if k.rtype.SOA? then rrsets
    else
      var entry := if k in rrsets then rrsets[k]
                   else RRset(if r.ttl == AUTO_TTL then DEFAULT_TTL else r.ttl, [], false);
      rrsets[k := RRset(entry.ttl, entry.values + [Reading(r)], entry.proxied || r.proxied)]
  }

  /** `rrsets` is the records `done`, grouped: every rrset but the SOA, with its readings and whether any
      of its records is proxied. */
  ghost predicate Grouped(m: Records, done: set<nat>, rrsets: map<Key, RRset>)
    requires done <= m.Keys
  {
    forall k :: GroupedAt(m, done, rrsets, k)
  }

  ghost predicate GroupedAt(m: Records, done: set<nat>, rrsets: map<Key, RRset>, k: Key)
    requires done <= m.Keys
  {
    (k in rrsets <==> !k.rtype.SOA? && Ids(m, k) * done != {})
    && (k in rrsets ==> multiset(rrsets[k].values) == Gather(m, Ids(m, k) * done))
    && (k in rrsets ==> (rrsets[k].proxied <==> SomeProxied(m, Ids(m, k) * done)))
    && (k in rrsets ==> SomeTtl(m, Ids(m, k) * done, rrsets[k].ttl))
  }

  ghost predicate SomeProxied(m: Records, ids: set<nat>) { exists id :: id in ids && id in m && m[id].proxied }

  /** One of the records has the TTL; the automatic one is shown as an hour. */
  ghost predicate SomeTtl(m: Records, ids: set<nat>, ttl: int) {
    exists id :: id in ids && id in m && ttl == if m[id].ttl == 1 then 3600 else m[id].ttl
  }

  lemma {:induction false} TtlMore(m: Records, ids: set<nat>, id: nat, ttl: int)
    requires id in m
    ensures SomeTtl(m, ids, ttl) ==> SomeTtl(m, ids + {id}, ttl)
    ensures SomeTtl(m, ids + {id}, if m[id].ttl == 1 then 3600 else m[id].ttl)
  {
    if SomeTtl(m, ids, ttl) {
      var one :| one in ids && one in m && ttl == if m[one].ttl == 1 then 3600 else m[one].ttl;
      assert one in ids + {id};
    }
    assert id in ids + {id};
  }

  lemma {:induction false} NoneProxied(m: Records)
    ensures !SomeProxied(m, {})
  {
  }

  lemma {:induction false} ProxiedMore(m: Records, ids: set<nat>, id: nat)
    requires id in m
    ensures SomeProxied(m, ids + {id}) <==> SomeProxied(m, ids) || m[id].proxied
  {
  }

  lemma {:induction false} GroupedStart(m: Records)
    ensures Grouped(m, {}, map[])
  {
  }

  lemma {:induction false} GroupedStep(m: Records, done: set<nat>, r: Rec, rrsets: map<Key, RRset>)
    requires done <= m.Keys && r.id in m && m[r.id] == r && r.id !in done && Grouped(m, done, rrsets)
    ensures Grouped(m, done + {r.id}, AddToGroup(rrsets, r))
  {
    hide AddToGroup, GroupedAt;
    forall k ensures GroupedAt(m, done + {r.id}, AddToGroup(rrsets, r), k) {
      assert GroupedAt(m, done, rrsets, k);
      GroupedStepAt(m, done, r, rrsets, k);
    }
  }

  lemma {:induction false} GroupedStepAt(m: Records, done: set<nat>, r: Rec, rrsets: map<Key, RRset>, k: Key)
    requires done <= m.Keys && r.id in m && m[r.id] == r && r.id !in done && GroupedAt(m, done, rrsets, k)
    ensures GroupedAt(m, done + {r.id}, AddToGroup(rrsets, r), k)
  {
    hide Gather, Reading, SomeProxied, SomeTtl, KeyOf, Ids;
    IdsStep(m, done, r, k);
    if k == KeyOf(r) {
      var ids := Ids(m, k) * done;
      GatherTake(m, ids + {r.id}, r.id);
      GatherNone(m);
      ProxiedMore(m, ids, r.id);
      TtlMore(m, ids, r.id, if k in rrsets then rrsets[k].ttl else 0);
      NoneProxied(m);
      assert r.id in ids + {r.id};
    } else {
      assert Ids(m, k) * (done + {r.id}) == Ids(m, k) * done;
    }
  }

  lemma {:induction false} IdsStep(m: Records, done: set<nat>, r: Rec, k: Key)
    requires r.id in m && m[r.id] == r && r.id !in done
    ensures Ids(m, k) * (done + {r.id}) == Ids(m, k) * done + if k == KeyOf(r) then {r.id} else {}
    ensures Ids(m, k) * done + {r.id} - {r.id} == Ids(m, k) * done && Ids(m, k) <= m.Keys
  {
    hide KeyOf;
  }

  lemma {:induction false} GatherNone(m: Records)
    ensures Gather(m, {}) == multiset{}
  {
  }

  /** The listing shows the rrset that `xs` spell, TTL and flag included; an rrset without values is not shown. */
  ghost predicate ShownAs(rrsets: map<Key, RRset>, name: string, t: RType, xs: seq<Meant>, ttl: int, proxied: bool) {
    var k := Key(name, t);
    if xs == [] then k !in rrsets
    else
      k in rrsets && multiset(rrsets[k].values) == multiset(Spellings(xs))
      && (if proxied && t in {A, AAAA, CNAME} then rrsets[k].ttl == 3600 && rrsets[k].proxied
          else rrsets[k].ttl == (if ttl >= 60 then ttl else 60) && (t in {A, AAAA, CNAME} ==> !rrsets[k].proxied))
  }

  lemma {:induction false} CarriedGathers(m: Records, k: Key, xs: seq<Meant>, ids: seq<nat>)
    requires Carries(m, k.name, k.rtype, xs, ids) && AllFit(k.rtype, xs)
    ensures Gather(m, Ids(m, k)) == multiset(Spellings(xs)) && (Ids(m, k) == {} <==> xs == [])
  {
    hide Belongs, KeyOf, Stores, Gather, Fits, Spelled;
    forall id | id in m ensures Belongs(m[id], k.name, k.rtype) <==> KeyOf(m[id]) == k {
      BelongsExactly(m[id], k);
    }
    forall i | 0 <= i < |ids| ensures m[ids[i]].rtype == k.rtype {
      KeyType(m[ids[i]]);
    }
    assert Ids(m, k) == set i | 0 <= i < |ids| :: ids[i];
    CarriedReads(m, k.rtype, xs, ids, Ids(m, k));
    assert xs != [] ==> ids[0] in Ids(m, k);
  }

  /** What the listing shows of the settings of an rrset whose records all have them. */
  lemma {:induction false} SettingsShown(m: Records, rrsets: map<Key, RRset>, k: Key, ttl: int, proxied: bool)
    requires k in rrsets && SomeTtl(m, Ids(m, k), rrsets[k].ttl)
    requires rrsets[k].proxied <==> SomeProxied(m, Ids(m, k))
    requires forall id | id in m && Belongs(m[id], k.name, k.rtype) :: SetTo(m[id], ttl, proxied)
    ensures if proxied && k.rtype in {A, AAAA, CNAME} then rrsets[k].ttl == 3600 && rrsets[k].proxied
            else rrsets[k].ttl == (if ttl >= 60 then ttl else 60)
                 && (k.rtype in {A, AAAA, CNAME} ==> !rrsets[k].proxied)
  {
    hide Belongs, KeyOf;
    forall id | id in Ids(m, k) ensures SetTo(m[id], ttl, proxied) && m[id].rtype == k.rtype {
      BelongsExactly(m[id], k);
      KeyType(m[id]);
    }
    var one :| one in Ids(m, k) && one in m && rrsets[k].ttl == if m[one].ttl == 1 then 3600 else m[one].ttl;
    assert m[one].proxied ==> SomeProxied(m, Ids(m, k));
  }

  /** What is written out is shown as such. */
  lemma {:induction false} WrittenIsShown(m: Records, rrsets: map<Key, RRset>, name: string, t: RType, xs: seq<Meant>,
                                          ttl: int, proxied: bool)
    requires Grouped(m, m.Keys, rrsets) && WrittenOut(m, name, t, xs, ttl, proxied) && AllFit(t, xs) && t != SOA
    ensures ShownAs(rrsets, name, t, xs, ttl, proxied)
  {
    hide Belongs, Gather, AllFit, Grouped, Carries, Ids, SetTo, SomeProxied, SomeTtl;
    var k := Key(name, t);
    var ids :| Carries(m, name, t, xs, ids);
    CarriedGathers(m, k, xs, ids);
    GroupedFor(m, rrsets, k);
    if k in rrsets {
      SettingsShown(m, rrsets, k, ttl, proxied);
    }
  }

  lemma {:induction false} GroupedFor(m: Records, rrsets: map<Key, RRset>, k: Key)
    requires Grouped(m, m.Keys, rrsets)
    ensures k in rrsets <==> !k.rtype.SOA? && Ids(m, k) != {}
    ensures k in rrsets ==> multiset(rrsets[k].values) == Gather(m, Ids(m, k))
    ensures k in rrsets ==> (rrsets[k].proxied <==> SomeProxied(m, Ids(m, k))) && SomeTtl(m, Ids(m, k), rrsets[k].ttl)
  {
    hide Gather, Ids, SomeProxied, SomeTtl;
    assert GroupedAt(m, m.Keys, rrsets, k);
    IdsInside(m, k);
  }

  ghost predicate Present(m: Records, name: string, t: RType) {
    exists id :: id in m && Belongs(m[id], name, t)
  }

  lemma {:induction false} PresentExactly(m: Records, k: Key)
    ensures Present(m, k.name, k.rtype) <==> Ids(m, k) != {}
  {
    hide Belongs, KeyOf;
    forall id | id in m ensures Belongs(m[id], k.name, k.rtype) <==> id in Ids(m, k) {
      BelongsExactly(m[id], k);
    }
  }

  lemma {:induction false} IdsInside(m: Records, k: Key)
    ensures Ids(m, k) <= m.Keys && Ids(m, k) * m.Keys == Ids(m, k)
  {
  }

  lemma {:induction false} NameFacts(zone: string, sub: string)
    requires zone != "" && zone[|zone| - 1] != '.'
    ensures InZone(RecordName(zone, sub), zone) && RStripDots(RecordName(zone, sub)) == RecordName(zone, sub)
  {
    var name := RecordName(zone, sub);
    if name != zone {
      assert name[|name| - |zone| - 1..] == "." + zone;
      assert name[..|name| - |zone| - 1] == sub;
      assert name[|name| - 1] == zone[|zone| - 1];
    }
  }

  lemma {:induction false} CreatedReads(k: Key, value: string, ttl: int, proxied: bool, p: Payload, id: nat)
    requires ToPayload(k, value, ttl, proxied) == Some(p) && RStripDots(k.name) == k.name
    ensures p.name == k.name && Created(p, id).id == id && KeyOf(Created(p, id)) == k
    ensures Canonical(k.rtype, value).Some? && Reading(Created(p, id)) == Canonical(k.rtype, value).value
    ensures HasSettings(Created(p, id), ttl, proxied)
  {
  }

  /** A record of `open` after the client has dealt with it. */
  lemma {:induction false} SettledTidy(now: Records, m: Records, open: set<nat>, r: Rec, k: Key, ttl: int,
                                       proxied: bool)
    requires Tidy(now, m, open, k, ttl, proxied) && KeyOf(r) == k && HasSettings(r, ttl, proxied)
    ensures Tidy(now[r.id := r], m, open - {r.id}, k, ttl, proxied)
  {
  }

  /** A zone at Cloudflare, with the outcomes of the requests still to come. `script` holds one entry
      per request: false is a request that fails without effect; after the last entry every request
      reaches the server. */
  class Cloudflare {
    const domain: string
    var zone: Option<nat>
    var records: Records
    var nextId: nat
    var script: seq<bool>
    var writes: nat

    /** A domain that is not at Cloudflare. */
    constructor (domain: string)
      requires domain != "" && domain[|domain| - 1] != '.'
      ensures Valid() && Reliable() && this.domain == domain && zone == None && records == map[]
    {
      this.domain, zone, records, nextId, script, writes := domain, None, map[], 0, [], 0;
    }

    ghost predicate Valid()
      reads this
    {
      domain != "" && domain[|domain| - 1] != '.'
      && forall id | id in records :: id < nextId && records[id].id == id && InZone(KeyOf(records[id]).name, domain)
    }

    /** The rrset that a label and a type name. */
    function Target(sub: string, rtype: RType): Key { Key(RecordName(domain, sub), rtype) }

    /** Every request still to come reaches the server. */
    ghost predicate Reliable()
      reads this
    {
      false !in script
    }

    /** One request about the zone `zid`. */
    method Request(zid: nat) returns (ok: bool)
      modifies this`script
      ensures ok ==> zone == Some(zid)
      ensures old(Reliable()) ==> Reliable() && ok == (zone == Some(zid))
    {
      ok := zone == Some(zid);
      if script != [] {
        ok := ok && script[0];
        script := script[1..];
      }
    }

    /** `create_zone`: refused while the domain is already at Cloudflare. */
    method CreateZone() returns (ok: bool, zid: nat)
      requires Valid()
      modifies this`script, this`zone, this`records, this`nextId
      ensures Valid()
      ensures ok ==> old(zone) == None && zone == Some(zid) && records == map[]
      ensures !ok ==> zone == old(zone) && records == old(records)
      ensures old(Reliable()) ==> Reliable() && ok == old(zone).None?
    {
      zid := nextId;
      ok := zone.None? && (script == [] || script[0]);
      script := if script == [] then [] else script[1..];
      if ok {
        zone, records, nextId := Some(zid), map[], nextId + 1;
      }
    }

    /** `delete_zone`: a zone that is already gone counts as deleted. */
    method DeleteZone(zid: nat) returns (ok: bool)
      requires Valid()
      modifies this`script, this`zone, this`records
      ensures Valid()
      ensures ok ==> zone != Some(zid)
      ensures (zone == old(zone) && records == old(records))
              || (ok && old(zone) == Some(zid) && zone == None && records == map[])
      ensures old(Reliable()) ==> Reliable() && ok
    {
      ok := script == [] || script[0];
      script := if script == [] then [] else script[1..];
      if ok && zone == Some(zid) {
        zone, records := None, map[];
      }
    }

    /** The server's enumeration of some of the records, in an order of its own. */
    method Enumerate(ids: set<nat>) returns (list: seq<Rec>)
      requires Valid() && ids <= records.Keys
      ensures Lists(list, records, ids)
    {
      hide Lists;
      list := [];
      var todo := ids;
      NothingListed(records);
      assert ids - todo == {};
      while todo != {}
        invariant todo <= ids
        invariant Lists(list, records, ids - todo)
        decreases todo
      {
        var id :| id in todo;
        ListPlus(list, records, ids - todo, records[id]);
        assert ids - todo + {id} == ids - (todo - {id});
        list, todo := list + [records[id]], todo - {id};
      }
      assert ids - todo == ids;
    }

    /** `_paged`, for all records or those of one rrset; a page holds 100 records. */
    method Paged(zid: nat, filter: Option<Key>) returns (ok: bool, results: seq<Rec>)
      requires Valid()
      modifies this`script
      ensures ok ==> zone == Some(zid)
      ensures ok ==> Lists(results, records, match filter { case None => records.Keys case Some(k) => Ids(records, k) })
      ensures old(Reliable()) ==> Reliable() && ok == (zone == Some(zid))
    {
      hide Lists;
      results := [];
      var all := Enumerate(match filter { case None => records.Keys case Some(k) => Ids(records, k) });
      var page, total := 1, if all == [] then 1 else (|all| + 99) / 100;
      while true
        invariant 1 <= page <= total
        invariant results == all[..100 * (page - 1)]
        invariant old(Reliable()) ==> Reliable()
        decreases total - page
      {
        ok := Request(zid);
        if !ok {
          return;
        }
        if page >= total {
          results := results + all[100 * (page - 1)..];
          assert results == all;
          return;
        }
        results := results + all[100 * (page - 1)..100 * page];
        page := page + 1;
      }
    }

    method Post(zid: nat, p: Payload) returns (ok: bool)
      requires Valid() && InZone(RStripDots(p.name), domain)
      modifies this`script, this`records, this`nextId, this`writes
      ensures Valid() && writes == old(writes) + 1
      ensures records == if ok then old(records)[old(nextId) := Created(p, old(nextId))] else old(records)
      ensures old(Reliable()) ==> Reliable() && ok == (zone == Some(zid))
    {
      writes := writes + 1;
      ok := Request(zid);
      if ok {
        records := records[nextId := Created(p, nextId)];
        nextId := nextId + 1;
      }
    }

    method Patch(zid: nat, id: nat, p: Payload) returns (ok: bool)
      requires Valid() && InZone(RStripDots(p.name), domain)
      modifies this`script, this`records, this`writes
      ensures Valid() && writes == old(writes) + 1
      ensures ok ==> id in old(records)
      ensures records == if ok then old(records)[id := Patched(old(records)[id], p)] else old(records)
      ensures old(Reliable()) ==> Reliable() && ok == (zone == Some(zid) && id in old(records))
    {
      writes := writes + 1;
      ok := Request(zid);
      ok := ok && id in records;
      if ok {
        records := records[id := Patched(records[id], p)];
      }
    }

    method Remove(zid: nat, id: nat) returns (ok: bool)
      requires Valid()
      modifies this`script, this`records, this`writes
      ensures Valid() && writes == old(writes) + 1
      ensures ok ==> id in old(records)
      ensures records == if ok then old(records) - {id} else old(records)
      ensures old(Reliable()) ==> Reliable() && ok == (zone == Some(zid) && id in old(records))
    {
      writes := writes + 1;
      ok := Request(zid);
      ok := ok && id in records;
      if ok {
        records := records - {id};
      }
    }

    /** The value is missing: create a record for it. */
    method CreateValue(zid: nat, k: Key, value: string, p: Payload, ttl: int, proxied: bool, ghost m: Records,
                       ghost open: set<nat>)
      returns (ok: bool)
      requires Valid() && InZone(k.name, domain) && RStripDots(k.name) == k.name
      requires ToPayload(k, value, ttl, proxied) == Some(p) && Tidy(records, m, open, k, ttl, proxied)
      modifies this`script, this`records, this`nextId, this`writes
      ensures Valid() && Others(records, k) == Others(old(records), k) && Tidy(records, m, open, k, ttl, proxied)
      ensures Readings(records, k)
              == Readings(old(records), k) + if ok then multiset{Canonical(k.rtype, value).value} else multiset{}
      ensures old(Reliable()) ==> Reliable() && ok == (zone == Some(zid))
    {
      hide Readings, Others, InZone, Canonical, Reading, HasSettings;
      CreatedReads(k, value, ttl, proxied, p, nextId);
      hide ToPayload, Created;
      ok := Post(zid, p);
      if ok {
        CreateFacts(old(records), Created(p, old(nextId)), k);
      }
    }

    /** The value is there: bring its record's TTL and flag up to date if they differ. */
    method SettleRecord(zid: nat, k: Key, value: string, p: Payload, ttl: int, proxied: bool, r: Rec, ghost m: Records,
                        ghost open: set<nat>)
      returns (ok: bool)
      requires Valid() && InZone(k.name, domain) && RStripDots(k.name) == k.name
      requires ToPayload(k, value, ttl, proxied) == Some(p) && Tidy(records, m, open, k, ttl, proxied)
      requires r.id in open && m[r.id] == r && Reading(r) == Canonical(k.rtype, value).value
      modifies this`script, this`records, this`writes
      ensures Valid() && Others(records, k) == Others(old(records), k)
      ensures Readings(records, k) == Readings(old(records), k)
      ensures ok ==> Tidy(records, m, open - {r.id}, k, ttl, proxied)
      ensures HasSettings(r, ttl, proxied) ==> ok && records == old(records) && writes == old(writes)
      ensures old(Reliable()) ==> Reliable()
      ensures old(Reliable()) && zone == Some(zid) ==> ok
    {
      ok := true;
      var proxiedChanged := Proxyable(k.rtype) && r.proxied != (p.proxied == Some(true));
      if r.ttl != p.ttl || proxiedChanged {
        ok := Patch(zid, r.id, p);
        if ok {
          PatchReadsCanonical(k.rtype, value, r.body);
          PatchFacts(old(records), Patched(r, p), k);
          SettledTidy(old(records), m, open, Patched(r, p), k, ttl, proxied);
        }
      } else {
        SettledTidy(records, m, open, r, k, ttl, proxied);
        assert records[r.id := r] == records;
      }
    }

    /** One value of the reconcile loop: create it, or match the first record that reads as it. */
    method WriteValue(zid: nat, k: Key, value: string, ttl: int, proxied: bool, buckets: map<string, seq<Rec>>,
                      ghost m: Records, ghost open: set<nat>, ghost part: multiset<string>)
      returns (ok: bool, buckets': map<string, seq<Rec>>, matched: set<nat>)
      requires Valid() && InZone(k.name, domain) && RStripDots(k.name) == k.name
      requires Bucketed(m, open, buckets) && Midway(records, m, open, k, part, ttl, proxied)
      modifies this`script, this`records, this`nextId, this`writes
      ensures Valid() && Others(records, k) == Others(old(records), k)
      ensures !ok ==> Readings(records, k) == Readings(old(records), k)
      ensures ok ==> Canonical(k.rtype, value).Some? && Bucketed(m, open - matched, buckets')
      ensures ok ==>
                Midway(records, m, open - matched, k, part + multiset{Canonical(k.rtype, value).value}, ttl, proxied)
      ensures Canonical(k.rtype, value).Some? && part + multiset{Canonical(k.rtype, value).value} <= Readings(m, k)
              && Uniform(m, k, ttl, proxied)
              ==> ok && records == old(records) && writes == old(writes)
      ensures old(Reliable()) ==> Reliable()
      ensures old(Reliable()) && zone == Some(zid) && ToWire(k.rtype, value).Some? ==> ok
    {
      hide Bucketed, Tidy, Gather, Others, Ids, Readings, Midway, Uniform, HasSettings, ToWire, FromBody;
      buckets', matched := buckets, {};
      var payload := ToPayload(k, value, ttl, proxied);
      if payload.None? {
        ok := false;
        return;
      }
      ghost var c := Canonical(k.rtype, value).value;
      var bucket := Bucket(buckets, Canonical(k.rtype, value).value);
      MidwayFacts(records, m, open, k, part, c, ttl, proxied);
      BucketFirst(m, open, buckets, c);
      if bucket == [] {
        ok := CreateValue(zid, k, value, payload.value, ttl, proxied, m, open);
        if ok {
          assert open - matched == open;
          MidwayCreate(old(records), records, m, open, k, part, c, ttl, proxied);
        }
        return;
      }
      var r := bucket[0];
      BucketPop(m, open, buckets, c);
      buckets', matched := buckets[Reading(r) := bucket[1..]], {r.id};
      ok := SettleRecord(zid, k, value, payload.value, ttl, proxied, r, m, open);
      if ok {
        MidwayMatch(old(records), records, m, open, r.id, k, part, ttl, proxied);
      }
    }

    /** The first loop of `upsert_record`: after some of the values the rrset holds, value by value, the
        larger of what it held and what those values ask for. */
    method WriteValues(zid: nat, k: Key, values: seq<string>, ttl: int, proxied: bool, existing: seq<Rec>)
      returns (ok: bool, matched: set<nat>)
      requires Valid() && InZone(k.name, domain) && RStripDots(k.name) == k.name
      requires Lists(existing, records, Ids(records, k))
      modifies this`script, this`records, this`nextId, this`writes
      ensures Valid() && Others(records, k) == Others(old(records), k)
      ensures Between(Readings(records, k), Readings(old(records), k), Canonicals(k.rtype, values))
      ensures Readings(old(records), k) <= Readings(records, k)
      ensures ok ==> Accepted(k.rtype, values)
      ensures ok ==>
                Midway(records, old(records), Ids(old(records), k) - matched, k, Canonicals(k.rtype, values), ttl,
                       proxied)
      ensures Converged(old(records), k, values, ttl, proxied) ==>
                ok && records == old(records) && writes == old(writes)
      ensures old(Reliable()) ==> Reliable()
      ensures old(Reliable()) && zone == Some(zid) && Accepted(k.rtype, values) ==> ok
    {
      hide Bucketed, Gather, Others, Ids, Readings, Midway, Uniform, Accepted, Converged, Between, InZone, Lists;
      hide ToWire, FromBody;
      ghost var m, ids := records, Ids(records, k);
      ghost var all := Canonicals(k.rtype, values);
      var buckets := FileByReading(existing, m, ids);
      matched := {};
      ok := true;
      MidwayStart(m, k, values, ttl, proxied);
      assert ids - matched == ids;
      for i := 0 to |values|
        invariant Valid() && Others(records, k) == Others(m, k)
        invariant Bucketed(m, ids - matched, buckets) && Accepted(k.rtype, values[..i])
        invariant Midway(records, m, ids - matched, k, Canonicals(k.rtype, values[..i]), ttl, proxied)
        invariant Converged(m, k, values, ttl, proxied) ==> records == m && writes == old(writes)
        invariant old(Reliable()) ==> Reliable()
      {
        ghost var part, before := Canonicals(k.rtype, values[..i]), records;
        TurnFacts(k.rtype, values, i);
        MidwayBetween(before, m, ids - matched, k, part, all, ttl, proxied);
        ghost var open := ids - matched;
        var hit;
        ok, buckets, hit := WriteValue(zid, k, values[i], ttl, proxied, buckets, m, open, part);
        if !ok {
          return;
        }
        assert open - hit == ids - (matched + hit);
        matched := matched + hit;
      }
      assert values[..|values|] == values;
      MidwayBetween(records, m, ids - matched, k, all, all, ttl, proxied);
    }

    /** The second loop: delete the listed records that no value matched. */
    method DeleteExtras(zid: nat, k: Key, existing: seq<Rec>, matched: set<nat>, ghost m: Records,
                        ghost base: multiset<string>, ghost ttl: int, ghost proxied: bool)
      returns (ok: bool)
      requires Valid() && Lists(existing, m, Ids(m, k))
      requires Leftover(records, m, Ids(m, k) - matched, k, base, ttl, proxied)
      modifies this`script, this`records, this`writes
      ensures Valid() && Others(records, k) == Others(old(records), k)
      ensures base <= Readings(records, k) <= Readings(old(records), k)
      ensures ok ==> Readings(records, k) == base && Uniform(records, k, ttl, proxied)
      ensures Readings(old(records), k) == base ==> ok && records == old(records) && writes == old(writes)
      ensures old(Reliable()) ==> Reliable()
      ensures old(Reliable()) && zone == Some(zid) ==> ok
    {
      hide Gather, Others, Ids, Readings, Uniform, Tidy, InZone, Leftover, FromBody;
      ghost var todo := Ids(m, k);
      ok := true;
      LeftoverFacts(records, m, todo - matched, k, base, ttl, proxied);
      for j := 0 to |existing|
        invariant Valid() && Others(records, k) == Others(old(records), k)
        invariant todo == set i | j <= i < |existing| :: existing[i].id
        invariant Leftover(records, m, todo - matched, k, base, ttl, proxied)
        invariant base <= Readings(records, k) <= Readings(old(records), k)
        invariant Readings(old(records), k) == base ==> records == old(records) && writes == old(writes)
        invariant old(Reliable()) ==> Reliable()
      {
        var r := existing[j];
        ghost var rest := set i | j + 1 <= i < |existing| :: existing[i].id;
        assert todo == rest + {r.id} && r.id !in rest;
        if r.id in matched {
          assert rest - matched == todo - matched;
        } else {
          assert rest - matched == todo - matched - {r.id};
          LeftoverStep(records, m, todo - matched, r.id, k, base, ttl, proxied);
          ok := Remove(zid, r.id);
          if !ok {
            return;
          }
        }
        todo := rest;
      }
      assert todo - matched == {};
      LeftoverDone(records, m, k, base, ttl, proxied);
    }

    /** `upsert_record`: REPLACE of one rrset over records that each hold one value. */
    method Upsert(zid: nat, sub: string, rtype: RType, values: seq<string>, ttl: int, proxied: bool) returns (ok: bool)
      requires Valid()
      modifies this`script, this`records, this`nextId, this`writes
      ensures Valid()
      ensures Others(records, Target(sub, rtype)) == Others(old(records), Target(sub, rtype))
      ensures Beside(old(records), records, FullName(domain, sub), rtype)
      ensures ok ==> zone == Some(zid) && Converged(records, Target(sub, rtype), values, ttl, proxied)
      ensures ok ==> exists xs :: SayAll(rtype, values, xs)
      ensures ok ==> forall xs | SayAll(rtype, values, xs) ::
                WrittenOut(records, FullName(domain, sub), rtype, xs, ttl, proxied)
      ensures Between(Readings(records, Target(sub, rtype)), Readings(old(records), Target(sub, rtype)),
                      Canonicals(rtype, values))
      ensures Readings(old(records), Target(sub, rtype)) <= Readings(records, Target(sub, rtype))
              || Accepted(rtype, values)
      ensures Converged(old(records), Target(sub, rtype), values, ttl, proxied) ==>
                records == old(records) && writes == old(writes)
      ensures old(Reliable()) ==> Reliable()
      ensures old(Reliable()) && zone == Some(zid) && Accepted(rtype, values) ==> ok
    {
      hide Others, Readings, Ids, Gather, Accepted, Uniform, Midway, Leftover, Lists, InZone, Tidy, Canonicals, Beside,
           SayAll, WrittenOut;
      var k := Target(sub, rtype);
      NameFacts(domain, sub);
      BetweenRefl(Readings(records, k), Canonicals(rtype, values));
      BesideOthers(records, records, k);
      var existing;
      ok, existing := Paged(zid, Some(k));
      if !ok {
        return;
      }
      ghost var m, all := records, Canonicals(rtype, values);
      var matched;
      ok, matched := WriteValues(zid, k, values, ttl, proxied, existing);
      if ok {
        ghost var now := records;
        MidwayLeftover(now, m, Ids(m, k) - matched, k, all, ttl, proxied);
        ok := DeleteExtras(zid, k, existing, matched, m, all, ttl, proxied);
        BetweenBelow(Readings(records, k), Readings(now, k), Readings(m, k), all);
      }
      BesideOthers(m, records, k);
      if ok {
        AllWrittenOut(records, k, values, ttl, proxied);
      }
    }

    /** `delete_record`: remove every record of one rrset. */
    method Delete(zid: nat, sub: string, rtype: RType) returns (ok: bool)
      requires Valid()
      modifies this`script, this`records, this`writes
      ensures Valid()
      ensures Others(records, Target(sub, rtype)) == Others(old(records), Target(sub, rtype))
      ensures Readings(records, Target(sub, rtype)) <= Readings(old(records), Target(sub, rtype))
      ensures ok ==> zone == Some(zid) && Readings(records, Target(sub, rtype)) == multiset{}
      ensures Beside(old(records), records, FullName(domain, sub), rtype)
      ensures ok ==> forall id | id in records :: !Belongs(records[id], FullName(domain, sub), rtype)
      ensures Readings(old(records), Target(sub, rtype)) == multiset{} ==>
                records == old(records) && writes == old(writes)
      ensures old(Reliable()) ==> Reliable()
      ensures old(Reliable()) && zone == Some(zid) ==> ok
    {
      hide Others, Readings, Ids, Gather, Uniform, Leftover, Lists, InZone, Tidy, Beside, Belongs;
      var k := Target(sub, rtype);
      BesideOthers(records, records, k);
      var existing;
      ok, existing := Paged(zid, Some(k));
      if !ok {
        return;
      }
      LeftoverStart(records, k);
      assert Ids(records, k) - {} == Ids(records, k);
      ok := DeleteExtras(zid, k, existing, {}, records, multiset{}, 0, false);
      BesideOthers(old(records), records, k);
      if ok {
        NoneLeft(records, k);
      }
    }

    /** `list_records`: the records grouped into rrsets, without the SOA. */
    method ListRecords(zid: nat) returns (ok: bool, rrsets: map<Key, RRset>)
      requires Valid()
      modifies this`script
      ensures ok ==> zone == Some(zid) && Grouped(records, records.Keys, rrsets)
      ensures ok ==> forall k :: k in rrsets <==> k.rtype != SOA && Present(records, k.name, k.rtype)
      ensures ok ==> forall k, xs, ids | k in rrsets && Carries(records, k.name, k.rtype, xs, ids)
                                        && AllFit(k.rtype, xs) ::
                multiset(rrsets[k].values) == multiset(Spellings(xs))
      ensures old(Reliable()) ==> Reliable() && ok == (zone == Some(zid))
    {
      hide Readings, Ids, Gather, InZone, FromBody, Grouped, Present, Carries, AllFit;
      rrsets := map[];
      var all;
      ok, all := Paged(zid, None);
      if !ok {
        return;
      }
      ghost var done: set<nat> := {};
      GroupedStart(records);
      for i := 0 to |all|
        invariant done == set j | 0 <= j < i :: all[j].id
        invariant done <= records.Keys && Grouped(records, done, rrsets)
        invariant ok && zone == Some(zid) && (old(Reliable()) ==> Reliable())
      {
        var r := all[i];
        GroupedStep(records, done, r, rrsets);
        rrsets := AddToGroup(rrsets, r);
        done := done + {r.id};
      }
      assert done == records.Keys;
      forall k ensures k in rrsets <==> k.rtype != SOA && Present(records, k.name, k.rtype) {
        GroupedFor(records, rrsets, k);
        PresentExactly(records, k);
      }
      forall k, xs, ids | k in rrsets && Carries(records, k.name, k.rtype, xs, ids) && AllFit(k.rtype, xs)
        ensures multiset(rrsets[k].values) == multiset(Spellings(xs)) {
        CarriedGathers(records, k, xs, ids);
        GroupedFor(records, rrsets, k);
      }
    }

    /** What a completed REPLACE wrote is what a listing after it shows: the values as the panel spells what they say,
        under their own TTL and flag. */
    method WriteThenList(zid: nat, sub: string, rtype: RType, values: seq<string>, ttl: int, proxied: bool)
      returns (written: bool, listed: bool, rrsets: map<Key, RRset>)
      requires Valid()
      modifies this`script, this`records, this`nextId, this`writes
      ensures Valid()
      ensures written && listed && rtype != SOA ==>
                forall xs | SayAll(rtype, values, xs) ::
                  ShownAs(rrsets, FullName(domain, sub), rtype, xs, ttl, proxied)
      ensures old(Reliable()) && zone == Some(zid) && (exists xs :: SayAll(rtype, values, xs)) ==> written && listed
    {
      hide Readings, Accepted, Uniform, Between, SayAll, WrittenOut, ShownAs, Grouped, Beside, AllFit, InZone;
      if xs :| SayAll(rtype, values, xs) {
        SaidAccepted(rtype, values, xs);
      }
      written := Upsert(zid, sub, rtype, values, ttl, proxied);
      listed, rrsets := ListRecords(zid);
      if written && listed && rtype != SOA {
        forall xs | SayAll(rtype, values, xs) ensures ShownAs(rrsets, FullName(domain, sub), rtype, xs, ttl, proxied) {
          SaidFit(rtype, values, xs);
          WrittenIsShown(records, rrsets, FullName(domain, sub), rtype, xs, ttl, proxied);
        }
      }
    }

    /** Stopping a REPLACE anywhere and running it again: once a run completes the rrset is what was asked
        for, nothing else changed in either run, and a run after a completed one writes nothing. */
    method Rerun(zid: nat, sub: string, rtype: RType, values: seq<string>, ttl: int, proxied: bool)
      returns (first: bool, second: bool, ghost writesBetween: nat)
      requires Valid()
      modifies this`script, this`records, this`nextId, this`writes
      ensures Valid() && Others(records, Target(sub, rtype)) == Others(old(records), Target(sub, rtype))
      ensures first || second ==> Converged(records, Target(sub, rtype), values, ttl, proxied)
      ensures first ==> writes == writesBetween
      ensures old(Reliable()) && zone == Some(zid) && Accepted(rtype, values) ==> first && second
    {
      hide Others, Readings, Accepted, Uniform, Converged, Between, Valid;
      first := Upsert(zid, sub, rtype, values, ttl, proxied);
      writesBetween := writes;
      second := Upsert(zid, sub, rtype, values, ttl, proxied);
    }
  }
}
