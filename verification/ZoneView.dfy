/** What a zone's records mean, whichever of the two providers holds them: the abstract record map that
    the provider lifecycle refines (daemon/cloudflare_ops.py:407-456, daemon/dnsprovider.py:171-207). */
module ZoneView {
  import opened Text
  import opened CloudflareMeaning
  import opened CloudflareValues
  import opened CloudflareStore

  /** A rrset as PowerDNS stores it. */
  datatype LocalSet = LocalSet(ttl: int, values: seq<string>)

  /** For each rrset that crosses providers, the meanings of its values. */
  type View = imap<Key, multiset<string>>

  /** `_is_apex_ns`, and the SOA that neither listing shows: what never crosses providers. */
  predicate Tracked(domain: string, k: Key) {
    !k.rtype.SOA? && !(k.rtype.NS? && k.name == domain)
  }

  ghost function Meanings(t: RType, m: multiset<string>): multiset<string> {
    if m == multiset{} then multiset{}
    else var v :| v in m; multiset{Meaning(t, v)} + Meanings(t, m - multiset{v})
  }

  lemma {:induction false} Regroup(a: multiset<string>, b: multiset<string>, c: multiset<string>)
    ensures a + (b + c) == b + (a + c)
  {
  }

  lemma {:induction false} MeaningsTake(t: RType, m: multiset<string>, v: string)
    requires v in m
    ensures Meanings(t, m) == multiset{Meaning(t, v)} + Meanings(t, m - multiset{v})
    decreases m
  {
    hide Meaning;
    var first :| first in m && Meanings(t, m) == multiset{Meaning(t, first)} + Meanings(t, m - multiset{first});
    if first != v {
      var rest := m - multiset{first} - multiset{v};
      assert m - multiset{v} - multiset{first} == rest;
      MeaningsTake(t, m - multiset{first}, v);
      MeaningsTake(t, m - multiset{v}, first);
      Regroup(multiset{Meaning(t, first)}, multiset{Meaning(t, v)}, Meanings(t, rest));
    }
  }

  lemma {:induction false} MeaningsAdd(t: RType, a: multiset<string>, b: multiset<string>)
    ensures Meanings(t, a + b) == Meanings(t, a) + Meanings(t, b)
    decreases b
  {
    hide Meaning;
    if b == multiset{} {
      assert a + b == a;
    } else {
      var v :| v in b;
      var rest := b - multiset{v};
      assert a + b - multiset{v} == a + rest;
      MeaningsTake(t, b, v);
      MeaningsTake(t, a + b, v);
      MeaningsAdd(t, a, rest);
      Regroup(multiset{Meaning(t, v)}, Meanings(t, a), Meanings(t, rest));
    }
  }

  lemma {:induction false} MeaningsMonotone(t: RType, a: multiset<string>, b: multiset<string>)
    requires a <= b
    ensures Meanings(t, a) <= Meanings(t, b)
  {
    assert b == a + (b - a);
    MeaningsAdd(t, a, b - a);
  }

  lemma {:induction false} MeaningsOne(t: RType, v: string)
    ensures Meanings(t, multiset{v}) == multiset{Meaning(t, v)}
  {
    hide Meaning;
    MeaningsTake(t, multiset{v}, v);
    assert multiset{v} - multiset{v} == multiset{};
  }

  /** Canonicalising accepted values keeps what they mean; refused ones only drop out. */
  lemma {:induction false} MeaningsOfCanonicals(t: RType, values: seq<string>)
    ensures Meanings(t, Canonicals(t, values)) <= Meanings(t, multiset(values))
    ensures Accepted(t, values) ==> Meanings(t, Canonicals(t, values)) == Meanings(t, multiset(values))
  {
    hide Meaning, ToWire, Canonical, Meanings, Canonicals;
    if values != [] {
      var front, v := values[..|values| - 1], values[|values| - 1];
      MeaningsOfCanonicals(t, front);
      MeaningsStep(t, values);
    } else {
      CanonicalsNone(t);
      assert multiset(values) == multiset{};
    }
  }

  lemma {:induction false} CanonicalsNone(t: RType)
    ensures Canonicals(t, []) == multiset{}
  {
  }

  /** One more value adds its meaning, if it is accepted. */
  lemma {:induction false} MeaningsStep(t: RType, values: seq<string>)
    requires values != []
    ensures var front, v := values[..|values| - 1], values[|values| - 1];
            Meanings(t, multiset(values)) == Meanings(t, multiset(front)) + multiset{Meaning(t, v)}
            && Meanings(t, Canonicals(t, values))
               == Meanings(t, Canonicals(t, front))
                  + (if ToWire(t, v).Some? then multiset{Meaning(t, v)} else multiset{})
            && (Accepted(t, values) <==> Accepted(t, front) && ToWire(t, v).Some?)
  {
    var front, v := values[..|values| - 1], values[|values| - 1];
    assert values == front + [v];
    hide Meaning, ToWire, Meanings, Canonicals, Canonical;
    assert multiset(values) == multiset(front) + multiset{v};
    MeaningsAdd(t, multiset(front), multiset{v});
    MeaningsOne(t, v);
    AddedCanonical(t, front, v);
    AcceptedMore(t, front, v);
  }

  lemma {:induction false} AcceptedMore(t: RType, front: seq<string>, v: string)
    ensures Accepted(t, front + [v]) <==> Accepted(t, front) && ToWire(t, v).Some?
  {
    hide ToWire;
    var values := front + [v];
    assert values[|front|] == v && forall i | 0 <= i < |front| :: values[i] == front[i];
  }

  lemma {:induction false} AddedCanonical(t: RType, front: seq<string>, v: string)
    ensures Meanings(t, Canonicals(t, front + [v]))
            == Meanings(t, Canonicals(t, front)) + if ToWire(t, v).Some? then multiset{Meaning(t, v)} else multiset{}
  {
    hide Meaning, ToWire, Meanings, Canonicals, FromBody;
    var values := front + [v];
    assert values[..|front| + 1] == values && values[..|front|] == front;
    CanonicalsStep(t, values, |front|);
    if ToWire(t, v).Some? {
      var c := Canonical(t, v).value;
      MeaningsAdd(t, Canonicals(t, front), multiset{c});
      MeaningsOne(t, c);
      MeaningSurvives(t, v);
    } else {
      assert Canonicals(t, values) == Canonicals(t, front);
    }
  }

  /** The view that PowerDNS's rrsets give. */
  ghost function LocalView(domain: string, local: map<Key, LocalSet>): View {
    imap k: Key | Tracked(domain, k) ::
      Meanings(k.rtype, multiset(Listed(local, k)))
  }

  /** The view that Cloudflare's records give. */
  ghost function CloudView(domain: string, records: Records): View {
    imap k: Key | Tracked(domain, k) :: Meanings(k.rtype, Readings(records, k))
  }

  /** The values that a store lists for a rrset. */
  function Listed(local: map<Key, LocalSet>, k: Key): seq<string> {
    if k in local then local[k].values else []
  }

  /** Cloudflare holds exactly what PowerDNS holds, TTLs included, apart from apex NS and SOA. */
  ghost predicate Mirrored(domain: string, local: map<Key, LocalSet>, records: Records) {
    forall k: Key | Tracked(domain, k) :: MirroredAt(local, records, k)
  }

  ghost predicate MirroredAt(local: map<Key, LocalSet>, records: Records, k: Key) {
    if k in local then Converged(records, k, local[k].values, local[k].ttl, false)
    else Readings(records, k) == multiset{}
  }

  /** PowerDNS holds exactly what Cloudflare reads as, under a TTL of one of its records, apart from apex NS and SOA. */
  ghost predicate Copied(domain: string, local: map<Key, LocalSet>, records: Records) {
    forall k: Key | Tracked(domain, k) :: CopiedAt(local, records, k)
  }

  ghost predicate CopiedAt(local: map<Key, LocalSet>, records: Records, k: Key) {
    multiset(Listed(local, k)) == Readings(records, k)
    && (k in local ==> SomeTtl(records, Ids(records, k), local[k].ttl))
  }

  lemma {:induction false} MirrorKeepsView(domain: string, local: map<Key, LocalSet>, records: Records)
    requires Mirrored(domain, local, records)
    ensures CloudView(domain, records) == LocalView(domain, local)
  {
    hide Meanings, Readings, Canonicals, Uniform;
    forall k: Key | Tracked(domain, k)
      ensures Meanings(k.rtype, Readings(records, k))
              == Meanings(k.rtype, multiset(Listed(local, k)))
    {
      assert MirroredAt(local, records, k);
      if k in local {
        MeaningsOfCanonicals(k.rtype, local[k].values);
      }
    }
  }

  lemma {:induction false} CopyKeepsView(domain: string, local: map<Key, LocalSet>, records: Records)
    requires Copied(domain, local, records)
    ensures LocalView(domain, local) == CloudView(domain, records)
  {
    hide Meanings, Readings, SomeTtl;
    forall k: Key | Tracked(domain, k)
      ensures multiset(Listed(local, k)) == Readings(records, k)
    {
      assert CopiedAt(local, records, k);
    }
  }

  // ----- what crosses providers, field by field -----

  /** Everything does but a SOA and the NS rrset of the zone itself; the delegation of a name below it does. */
  ghost predicate Crosses(domain: string, name: string, t: RType) { t != SOA && (t == NS ==> name != domain) }

  /** Cloudflare's records are, rrset by rrset, those that a write of PowerDNS's values and TTL asks for. */
  ghost predicate SameOut(domain: string, local: map<Key, LocalSet>, records: Records) {
    forall k: Key | Crosses(domain, k.name, k.rtype) :: SameOutAt(local, records, k)
  }

  ghost predicate SameOutAt(local: map<Key, LocalSet>, records: Records, k: Key) {
    if k !in local then !Present(records, k.name, k.rtype)
    else
      (exists xs :: SayAll(k.rtype, local[k].values, xs))
      && forall xs | SayAll(k.rtype, local[k].values, xs) ::
           WrittenOut(records, k.name, k.rtype, xs, local[k].ttl, false)
  }

  /** PowerDNS's rrsets are what Cloudflare's records read as: where these store `xs`, as the panel spells them, with
      the TTL of one of them, the automatic one being an hour. */
  ghost predicate SameIn(domain: string, local: map<Key, LocalSet>, records: Records) {
    forall k: Key | Crosses(domain, k.name, k.rtype) :: SameInAt(local, records, k)
  }

  ghost predicate SameInAt(local: map<Key, LocalSet>, records: Records, k: Key) {
    if !Present(records, k.name, k.rtype) then Listed(local, k) == []
    else
      k in local && multiset(local[k].values) == Readings(records, k)
      && forall xs, ids | Carries(records, k.name, k.rtype, xs, ids) && AllFit(k.rtype, xs) ::
           multiset(local[k].values) == multiset(Spellings(xs))
           && exists i :: 0 <= i < |ids|
                          && local[k].ttl == if records[ids[i]].ttl == 1 then 3600 else records[ids[i]].ttl
  }

  /** The SOA and the NS records of the zone itself are as they were. */
  ghost predicate Spared(domain: string, m: Records, m': Records) {
    (forall id | id in m && Stays(domain, m[id]) :: id in m' && m'[id] == m[id])
    && (forall id | id in m' && Stays(domain, m'[id]) :: id in m && m'[id] == m[id])
  }

  ghost predicate Stays(domain: string, r: Rec) { r.rtype == SOA || (r.rtype == NS && DotsAfter(r.name, domain)) }

  /** The same for PowerDNS. */
  ghost predicate SparedLocal(domain: string, local: map<Key, LocalSet>, local': map<Key, LocalSet>) {
    forall k: Key | !Crosses(domain, k.name, k.rtype) ::
      (k in local <==> k in local') && (k in local ==> local'[k] == local[k])
  }

  lemma {:induction false} MirroredIsSame(domain: string, local: map<Key, LocalSet>, records: Records)
    requires Mirrored(domain, local, records)
    ensures SameOut(domain, local, records)
  {
    hide SayAll, WrittenOut, Present, Converged, Readings;
    forall k: Key | Crosses(domain, k.name, k.rtype) ensures SameOutAt(local, records, k) {
      assert MirroredAt(local, records, k);
      if k in local {
        AllWrittenOut(records, k, local[k].values, local[k].ttl, false);
      } else {
        PresentExactly(records, k);
        ReadingsEmpty(records, k);
      }
    }
  }

  lemma {:induction false} CopiedIsSame(domain: string, local: map<Key, LocalSet>, records: Records)
    requires Copied(domain, local, records)
    ensures SameIn(domain, local, records)
  {
    hide Carries, Present, AllFit, Gather, Ids, SomeTtl;
    forall k: Key | Crosses(domain, k.name, k.rtype) ensures SameInAt(local, records, k) {
      assert CopiedAt(local, records, k);
      PresentExactly(records, k);
      ReadingsEmpty(records, k);
      assert Listed(local, k) == [] <==> multiset(Listed(local, k)) == multiset{} by { NoneListed(Listed(local, k)); }
      forall xs, ids | Carries(records, k.name, k.rtype, xs, ids) && AllFit(k.rtype, xs)
        ensures Readings(records, k) == multiset(Spellings(xs))
        ensures k in local ==>
                  exists i :: 0 <= i < |ids| && ids[i] in records
                              && local[k].ttl == if records[ids[i]].ttl == 1 then 3600 else records[ids[i]].ttl {
        CarriedGathers(records, k, xs, ids);
        if k in local {
          CarriedTtl(records, k, xs, ids, local[k].ttl);
        }
      }
    }
  }

  lemma {:induction false} CarriedTtl(m: Records, k: Key, xs: seq<Meant>, ids: seq<nat>, ttl: int)
    requires Carries(m, k.name, k.rtype, xs, ids) && SomeTtl(m, Ids(m, k), ttl)
    ensures exists i :: 0 <= i < |ids| && ids[i] in m && ttl == if m[ids[i]].ttl == 1 then 3600 else m[ids[i]].ttl
  {
    hide Belongs, Stores, KeyOf;
    var id :| id in Ids(m, k) && id in m && ttl == if m[id].ttl == 1 then 3600 else m[id].ttl;
    BelongsExactly(m[id], k);
    assert id in ids;
  }

  lemma {:induction false} NoneListed(vs: seq<string>)
    ensures vs == [] <==> multiset(vs) == multiset{}
  {
    if vs != [] {
      assert vs[0] in multiset(vs);
    }
  }

  lemma {:induction false} UntrackedSpared(domain: string, m: Records, m': Records)
    requires Untracked(domain, m) == Untracked(domain, m')
    ensures Spared(domain, m, m')
  {
    hide DotsAfter, RStripDots;
    forall r: Rec ensures Stays(domain, r) <==> !Tracked(domain, KeyOf(r)) {
      DotsStripped(r.name, domain);
    }
    forall id | id in m && Stays(domain, m[id]) ensures id in m' && m'[id] == m[id] {
      assert id in Untracked(domain, m);
    }
    forall id | id in m' && Stays(domain, m'[id]) ensures id in m && m'[id] == m[id] {
      assert id in Untracked(domain, m');
    }
  }

  lemma {:induction false} RestSpared(domain: string, local: map<Key, LocalSet>, local': map<Key, LocalSet>)
    requires LocalRest(domain, local) == LocalRest(domain, local')
    ensures SparedLocal(domain, local, local')
  {
    forall k: Key | !Crosses(domain, k.name, k.rtype)
      ensures (k in local <==> k in local') && (k in local ==> local'[k] == local[k]) {
      assert k in local <==> k in LocalRest(domain, local);
      assert k in local' <==> k in LocalRest(domain, local');
    }
  }

  // ----- what values mean -----

  /** Values whose meaning is the spelling of `xs`, one each: they say it, a TXT value below all its quotes. */
  ghost predicate MeanAll(t: RType, vs: seq<string>, xs: seq<Meant>) {
    |vs| == |xs| && forall i | 0 <= i < |vs| :: Means(t, vs[i], xs[i])
  }

  ghost predicate Means(t: RType, v: string, x: Meant) {
    if t == TXT then x == Line(UnwrapAll(v)) else Says(t, v, x)
  }

  lemma {:induction false} MeansExactly(t: RType, v: string, x: Meant)
    ensures Means(t, v, x) <==> Fits(t, x) && Meaning(t, v) == Spelled(x)
  {
    hide Says, ToWire, FromBody, UnwrapAll, Escape;
    if t == TXT {
      if x.Line? {
        QuoteInjective(UnwrapAll(v), x.text);
      }
    } else {
      SaysExactly(t, v, x);
      if Fits(t, x) && v == Spelled(x) {
        SpelledSays(t, x);
      }
    }
  }

  lemma {:induction false} MeaningsSpelled(t: RType, vs: seq<string>, xs: seq<Meant>)
    requires MeanAll(t, vs, xs)
    ensures Meanings(t, multiset(vs)) == multiset(Spellings(xs))
    decreases |vs|
  {
    hide Means, Meaning, Spelled, Meanings, Fits;
    if vs == [] {
      assert multiset(vs) == multiset{} && Spellings(xs) == [];
      MeaningsNone(t);
    } else {
      var n := |vs| - 1;
      MeaningsSpelled(t, vs[..n], xs[..n]);
      assert vs == vs[..n] + [vs[n]] && Spellings(xs) == Spellings(xs[..n]) + [Spelled(xs[n])];
      assert multiset(vs) == multiset(vs[..n]) + multiset{vs[n]};
      MeaningsAdd(t, multiset(vs[..n]), multiset{vs[n]});
      MeaningsOne(t, vs[n]);
      MeansExactly(t, vs[n], xs[n]);
    }
  }

  lemma {:induction false} MeaningsNone(t: RType)
    ensures Meanings(t, multiset{}) == multiset{}
  {
  }

  ghost function Without(xs: seq<Meant>, j: nat): seq<Meant>
    requires j < |xs|
  {
    xs[..j] + xs[j + 1..]
  }

  lemma {:induction false} WithoutFacts(t: RType, xs: seq<Meant>, j: nat)
    requires j < |xs| && AllFit(t, xs)
    ensures multiset(xs) == multiset(Without(xs, j)) + multiset{xs[j]} && AllFit(t, Without(xs, j))
    ensures multiset(Spellings(xs)) == multiset(Spellings(Without(xs, j))) + multiset{Spelled(xs[j])}
  {
    hide Spelled, Fits;
    Dropped(xs, j);
    Dropped(Spellings(xs), j);
    assert Spellings(Without(xs, j)) == Spellings(xs)[..j] + Spellings(xs)[j + 1..];
  }

  lemma {:induction false} Dropped<T>(s: seq<T>, j: nat)
    requires j < |s|
    ensures multiset(s) == multiset(s[..j] + s[j + 1..]) + multiset{s[j]}
  {
    assert s == s[..j] + [s[j]] + s[j + 1..];
  }

  /** The last value means what one of `xs` spells, and the values before it what the others do. */
  lemma {:induction false} LastMeaning(t: RType, ws: seq<string>, xs: seq<Meant>) returns (j: nat)
    requires Meanings(t, multiset(ws)) == multiset(Spellings(xs)) && AllFit(t, xs) && ws != []
    ensures j < |xs| && Spelled(xs[j]) == Meaning(t, ws[|ws| - 1])
    ensures Meanings(t, multiset(ws[..|ws| - 1])) == multiset(Spellings(Without(xs, j)))
  {
    hide Meaning, Spelled, Meanings, Fits, Without;
    var front, w := ws[..|ws| - 1], ws[|ws| - 1];
    assert ws == front + [w];
    assert multiset(ws) == multiset(front) + multiset{w};
    MeaningsAdd(t, multiset(front), multiset{w});
    MeaningsOne(t, w);
    var c := Meaning(t, w);
    assert c in multiset(Spellings(xs));
    j :| 0 <= j < |xs| && Spellings(xs)[j] == c;
    WithoutFacts(t, xs, j);
    MultisetCancel(Meanings(t, multiset(front)), multiset(Spellings(Without(xs, j))), multiset{c});
  }

  /** Values that together mean what `xs` spell mean `xs` one by one, in some order. */
  lemma {:induction false} MeaningsMatch(t: RType, ws: seq<string>, xs: seq<Meant>) returns (ys: seq<Meant>)
    requires Meanings(t, multiset(ws)) == multiset(Spellings(xs)) && AllFit(t, xs)
    ensures MeanAll(t, ws, ys) && multiset(ys) == multiset(xs)
    decreases |ws|
  {
    hide Means, Meaning, Spelled, Meanings, Fits, Without;
    if ws == [] {
      MeaningsNone(t);
      NoneListed(Spellings(xs));
      ys := [];
    } else {
      var j := LastMeaning(t, ws, xs);
      WithoutFacts(t, xs, j);
      assert Fits(t, xs[j]);
      var rest := MeaningsMatch(t, ws[..|ws| - 1], Without(xs, j));
      MeansExactly(t, ws[|ws| - 1], xs[j]);
      ys := rest + [xs[j]];
    }
  }

  /** Changing one rrset leaves every other rrset as it was. */
  lemma {:induction false} OthersFrame(m: Records, m': Records, k: Key, other: Key)
    requires Others(m, k) == Others(m', k) && other != k
    ensures Ids(m, other) == Ids(m', other)
    ensures forall id | id in Ids(m, other) :: m[id] == m'[id]
    ensures Readings(m, other) == Readings(m', other)
  {
    hide Gather;
    forall id | id in Ids(m, other) ensures id in Ids(m', other) && m[id] == m'[id] {
      assert id in Others(m, k);
    }
    forall id | id in Ids(m', other) ensures id in Ids(m, other) {
      assert id in Others(m', k);
    }
    GatherFrame(m, m', Ids(m, other));
  }

  lemma {:induction false} MirroredFrame(local: map<Key, LocalSet>, m: Records, m': Records, k: Key, other: Key)
    requires Others(m, k) == Others(m', k) && other != k
    ensures MirroredAt(local, m, other) == MirroredAt(local, m', other)
  {
    hide Readings, Accepted, Canonicals;
    OthersFrame(m, m', k, other);
    forall id | id in m && KeyOf(m[id]) == other ensures id in m' && m'[id] == m[id] {
      assert id in Ids(m, other);
    }
    forall id | id in m' && KeyOf(m'[id]) == other ensures id in m && m'[id] == m[id] {
      assert id in Ids(m', other);
    }
  }

  /** Writing one rrset at Cloudflare changes the view there and nowhere else. */
  lemma {:induction false} CloudViewUpdate(domain: string, m: Records, m': Records, k: Key)
    requires Others(m, k) == Others(m', k)
    ensures CloudView(domain, m')
            == if Tracked(domain, k) then CloudView(domain, m)[k := Meanings(k.rtype, Readings(m', k))]
                                     else CloudView(domain, m)
  {
    hide Meanings, Readings, Others;
    forall other | other != k ensures Readings(m, other) == Readings(m', other) {
      OthersFrame(m, m', k, other);
    }
  }

  /** The records that never cross providers. */
  function Untracked(domain: string, m: Records): Records {
    map id | id in m && !Tracked(domain, KeyOf(m[id])) :: m[id]
  }

  /** The same for PowerDNS. */
  function LocalRest(domain: string, local: map<Key, LocalSet>): map<Key, LocalSet> {
    map k | k in local && !Tracked(domain, k) :: local[k]
  }

  lemma {:induction false} UntrackedFrame(domain: string, m: Records, m': Records, k: Key)
    requires Others(m, k) == Others(m', k) && Tracked(domain, k)
    ensures Untracked(domain, m) == Untracked(domain, m')
  {
    forall id | id in Untracked(domain, m) ensures id in Untracked(domain, m') && m[id] == m'[id] {
      assert id in Others(m, k);
    }
    forall id | id in Untracked(domain, m') ensures id in Untracked(domain, m) {
      assert id in Others(m', k);
    }
  }

  lemma {:induction false} ReadingsEmpty(m: Records, k: Key)
    ensures Readings(m, k) == multiset{} <==> Ids(m, k) == {}
  {
    if Ids(m, k) != {} {
      var id :| id in Ids(m, k);
      GatherTake(m, Ids(m, k), id);
    }
  }

  /** A write of one rrset as the view sees it: done, it holds what the values mean; failed, it still holds all it
      held or already holds all that the values mean, and nothing beyond the two; every other rrset is as it was. */
  ghost predicate Written(domain: string, before: View, after: View, k: Key, values: seq<string>, ok: bool) {
    if !Tracked(domain, k) then after == before
    else k in before && k in after && after == before[k := after[k]]
         && (if ok then after[k] == Meanings(k.rtype, multiset(values))
             else after[k] <= before[k] + Meanings(k.rtype, multiset(values))
                  && (before[k] <= after[k] || Meanings(k.rtype, multiset(values)) <= after[k]))
  }

  lemma {:induction false} CloudWritten(domain: string, m: Records, m': Records, k: Key, values: seq<string>, ok: bool)
    requires Others(m, k) == Others(m', k)
    requires if ok then Accepted(k.rtype, values) && Readings(m', k) == Canonicals(k.rtype, values)
             else Readings(m', k) <= Readings(m, k) + Canonicals(k.rtype, values)
                  && (Readings(m, k) <= Readings(m', k)
                      || (Accepted(k.rtype, values) && Canonicals(k.rtype, values) <= Readings(m', k)))
    ensures Written(domain, CloudView(domain, m), CloudView(domain, m'), k, values, ok)
  {
    hide Meanings, Readings, Others, Canonicals, Accepted;
    assert Tracked(domain, k) ==> k in CloudView(domain, m);
    CloudViewUpdate(domain, m, m', k);
    MeaningsOfCanonicals(k.rtype, values);
    if !ok {
      var r, c := Readings(m, k), Canonicals(k.rtype, values);
      MeaningsMonotone(k.rtype, Readings(m', k), r + c);
      MeaningsAdd(k.rtype, r, c);
      if r <= Readings(m', k) {
        MeaningsMonotone(k.rtype, r, Readings(m', k));
      } else {
        MeaningsMonotone(k.rtype, c, Readings(m', k));
      }
    }
  }

  lemma {:induction false} LocalViewUpdate(domain: string, local: map<Key, LocalSet>, local': map<Key, LocalSet>,
                                           k: Key)
    requires forall other | other != k :: Listed(local, other) == Listed(local', other)
    ensures LocalView(domain, local')
            == if Tracked(domain, k) then LocalView(domain, local)[k := Meanings(k.rtype, multiset(Listed(local', k)))]
                                         else LocalView(domain, local)
  {
    hide Meanings, Listed;
  }

  lemma {:induction false} ListedFrame(local: map<Key, LocalSet>, local': map<Key, LocalSet>, k: Key, other: Key)
    requires local - {k} == local' - {k} && other != k
    ensures Listed(local, other) == Listed(local', other)
  {
    assert Listed(local, other) == Listed(local - {k}, other);
    assert Listed(local', other) == Listed(local' - {k}, other);
  }

  lemma {:induction false} LocalWritten(domain: string, local: map<Key, LocalSet>, local': map<Key, LocalSet>, k: Key,
                                        values: seq<string>)
    requires local - {k} == local' - {k} && Listed(local', k) == values
    ensures Written(domain, LocalView(domain, local), LocalView(domain, local'), k, values, true)
  {
    hide Meanings, Listed;
    forall other | other != k ensures Listed(local, other) == Listed(local', other) {
      ListedFrame(local, local', k, other);
    }
    LocalViewUpdate(domain, local, local', k);
  }

  lemma {:induction false} NotWritten(domain: string, v: View, k: Key, values: seq<string>)
    requires Tracked(domain, k) ==> k in v
    ensures Written(domain, v, v, k, values, false)
  {
    hide Meanings;
  }
}
