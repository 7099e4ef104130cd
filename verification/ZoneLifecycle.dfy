/** The two DNS providers of one domain: routing by the zone row's status, the transitions between the
    providers with their resyncs, and staged migrations (daemon/dnsprovider.py:171-207,
    daemon/cloudflare_ops.py:415-648, daemon/dnssetup.py:185-274). */
module ZoneLifecycle {
  import opened Text
  import opened CloudflareMeaning
  import opened CloudflareValues
  import opened CloudflareStore
  import opened ZoneView

  datatype Status = Pending | Active

  /** The domain's row in `cloudflare_zones`. */
  datatype Row = Row(status: Status, zid: nat)

  datatype Provider = ToCloudflare | ToLocal | ToCluster

  datatype Stage = WaitingForDelegation | WaitingForCluster | Staged | Completed

  datatype Migration = Migration(source: Provider, target: Provider, stage: Stage)

  /** The panel's side of one domain. `cf` is the domain at Cloudflare with its own outcomes; `script`
      holds the outcomes of the panel's PowerDNS calls and database sessions, false being a failure
      without effect. */
  class Panel {
    const cf: Cloudflare
    var local: map<Key, LocalSet>
    var row: Option<Row>
    var migration: Option<Migration>
    var script: seq<bool>

    /** A domain served by PowerDNS only. */
    constructor (cf: Cloudflare, local: map<Key, LocalSet>)
      requires cf.Valid() && forall k | k in local :: InZone(k.name, cf.domain) && local[k].values != []
      ensures Valid() && this.cf == cf && this.local == local && row == None && migration == None && script == []
    {
      this.cf, this.local, row, migration, script := cf, local, None, None, [];
    }

    ghost predicate Valid()
      reads this, cf
    {
      cf.Valid() && (forall k | k in local :: InZone(k.name, cf.domain) && local[k].values != [])
      && (migration.Some? ==> migration.value.source != migration.value.target)
    }

    ghost predicate Reliable()
      reads this, cf
    {
      false !in script && cf.Reliable()
    }

    /** Cloudflare would accept every value that PowerDNS holds. */
    ghost predicate AllAccepted()
      reads this
    {
      forall k | k in local :: Accepted(k.rtype, local[k].values)
    }

    /** Reads and writes are routed to Cloudflare. */
    predicate Routed()
      reads this
    {
      row.Some? && row.value.status.Active?
    }

    /** Routed to a Cloudflare zone that no longer exists. */
    ghost predicate Stranded()
      reads this, cf
    {
      Routed() && cf.zone != Some(row.value.zid)
    }

    /** The one record map that the pair of stores stands for. */
    ghost function TheView(): View
      reads this, cf
    {
      if Routed() && !Stranded() then CloudView(cf.domain, cf.records) else LocalView(cf.domain, local)
    }

    /** A PowerDNS call or a database session. */
    method Attempt() returns (ok: bool)
      modifies this`script
      ensures old(false !in script) ==> ok && false !in script
    {
      ok := script == [] || script[0];
      script := if script == [] then [] else script[1..];
    }

    /** `powerdns.upsert_record`: an atomic REPLACE. */
    method LocalReplace(sub: string, rtype: RType, values: seq<string>, ttl: int) returns (ok: bool)
      requires Valid()
      modifies this`script, this`local
      ensures Valid()
      ensures var k := cf.Target(sub, rtype);
              local == if !ok then old(local)
                       else if values == [] then old(local) - {k} else old(local)[k := LocalSet(ttl, values)]
      ensures old(false !in script) ==> ok && false !in script
    {
      ok := Attempt();
      if ok {
        var k := cf.Target(sub, rtype);
        NameFacts(cf.domain, sub);
        local := if values == [] then local - {k} else local[k := LocalSet(ttl, values)];
      }
    }

    /** `powerdns.delete_record`: an atomic DELETE. */
    method LocalDelete(sub: string, rtype: RType) returns (ok: bool)
      requires Valid()
      modifies this`script, this`local
      ensures Valid()
      ensures local == if ok then old(local) - {cf.Target(sub, rtype)} else old(local)
      ensures old(false !in script) ==> ok && false !in script
    {
      ok := Attempt();
      if ok {
        local := local - {cf.Target(sub, rtype)};
      }
    }

    /** First half of the outward resync: REPLACE every tracked rrset at Cloudflare. */
    method PushAll(zid: nat) returns (ok: bool)
      requires Valid()
      modifies cf`script, cf`records, cf`nextId, cf`writes
      ensures Valid() && Untracked(cf.domain, cf.records) == Untracked(cf.domain, old(cf.records))
      ensures ok ==> forall k | k in local && Tracked(cf.domain, k) :: MirroredAt(local, cf.records, k)
      ensures Mirrored(cf.domain, local, old(cf.records)) ==>
                cf.records == old(cf.records) && cf.writes == old(cf.writes)
      ensures old(Reliable()) ==> Reliable()
      ensures old(Reliable()) && cf.zone == Some(zid) && AllAccepted() ==> ok
    {
      hide InZone, Untracked, MirroredAt, Converged, Accepted, Others, Between, Readings, Cloudflare.Valid;
      hide SayAll, WrittenOut, Beside;
      var todo := local.Keys;
      ok := true;
      while todo != {}
        invariant Valid() && Untracked(cf.domain, cf.records) == Untracked(cf.domain, old(cf.records))
        invariant todo <= local.Keys
        invariant forall k | k in local && Tracked(cf.domain, k) && k !in todo :: MirroredAt(local, cf.records, k)
        invariant Mirrored(cf.domain, local, old(cf.records)) ==>
                  cf.records == old(cf.records) && cf.writes == old(cf.writes)
        invariant old(Reliable()) ==> Reliable()
        decreases todo
      {
        var k :| k in todo;
        if Tracked(cf.domain, k) {
          ghost var before := cf.records;
          LabelRoundTrip(k.name, cf.domain);
          ok := cf.Upsert(zid, LabelWithinZone(k.name, cf.domain), k.rtype, local[k].values, local[k].ttl, false);
          PushedFacts(cf.domain, local, before, cf.records, k);
          if !ok {
            return;
          }
        }
        todo := todo - {k};
      }
    }

    /** Second half: delete the tracked rrsets that PowerDNS does not hold. */
    method PruneCloud(zid: nat) returns (ok: bool)
      requires Valid()
      requires forall k | k in local && Tracked(cf.domain, k) :: MirroredAt(local, cf.records, k)
      modifies cf`script, cf`records, cf`writes
      ensures Valid() && Untracked(cf.domain, cf.records) == Untracked(cf.domain, old(cf.records))
      ensures ok ==> cf.zone == Some(zid) && Mirrored(cf.domain, local, cf.records)
      ensures Mirrored(cf.domain, local, old(cf.records)) ==>
                cf.records == old(cf.records) && cf.writes == old(cf.writes)
      ensures old(Reliable()) ==> Reliable()
      ensures old(Reliable()) && cf.zone == Some(zid) ==> ok
    {
      hide InZone, Untracked, Converged, Others, Readings, Ids, Gather, Grouped;
      hide Present, Carries, AllFit, Belongs, Beside, SomeTtl;
      var rrsets;
      ok, rrsets := cf.ListRecords(zid);
      if !ok {
        return;
      }
      UnlistedFacts(cf.domain, cf.records, rrsets);
      var todo := rrsets.Keys;
      while todo != {}
        invariant Valid() && Untracked(cf.domain, cf.records) == Untracked(cf.domain, old(cf.records))
        invariant forall k | k in todo :: k in rrsets && InZone(k.name, cf.domain)
        invariant forall k | Tracked(cf.domain, k) && (k in local || k !in todo) :: MirroredAt(local, cf.records, k)
        invariant Mirrored(cf.domain, local, old(cf.records)) ==>
                  cf.records == old(cf.records) && cf.writes == old(cf.writes)
        invariant old(Reliable()) ==> Reliable()
        decreases todo
      {
        var k :| k in todo;
        if Tracked(cf.domain, k) && k !in local {
          ghost var before := cf.records;
          LabelRoundTrip(k.name, cf.domain);
          ok := cf.Delete(zid, LabelWithinZone(k.name, cf.domain), k.rtype);
          PrunedFacts(cf.domain, local, before, cf.records, k);
          if !ok {
            return;
          }
        }
        todo := todo - {k};
      }
    }

    /** `_resync_powerdns_to_cloudflare`: afterwards Cloudflare mirrors PowerDNS, whatever it held before. */
    method ResyncOut(zid: nat) returns (ok: bool)
      requires Valid()
      modifies this`script, cf`script, cf`records, cf`nextId, cf`writes
      ensures Valid() && Untracked(cf.domain, cf.records) == Untracked(cf.domain, old(cf.records))
      ensures ok ==> cf.zone == Some(zid) && Mirrored(cf.domain, local, cf.records)
      ensures ok ==> SameOut(cf.domain, local, cf.records)
      ensures Spared(cf.domain, old(cf.records), cf.records)
      ensures Mirrored(cf.domain, local, old(cf.records)) ==>
                cf.records == old(cf.records) && cf.writes == old(cf.writes)
      ensures old(Reliable()) ==> Reliable()
      ensures old(Reliable()) && cf.zone == Some(zid) && AllAccepted() ==> ok
    {
      hide Untracked, Accepted, MirroredAt, Cloudflare.Valid, SameOut, Spared;
      ok := Attempt();
      if ok {
        ok := PushAll(zid);
      }
      if ok {
        ok := PruneCloud(zid);
      }
      UntrackedSpared(cf.domain, old(cf.records), cf.records);
      if ok {
        MirroredIsSame(cf.domain, local, cf.records);
      }
    }

    /** First half of the inward resync: REPLACE in PowerDNS every tracked rrset that Cloudflare lists. */
    method PullAll(rrsets: map<Key, RRset>) returns (ok: bool)
      requires Valid() && ListsCloud(rrsets)
      modifies this`script, this`local
      ensures Valid() && LocalRest(cf.domain, local) == LocalRest(cf.domain, old(local))
      ensures ok ==> forall k | k in rrsets && Tracked(cf.domain, k) :: k in local && CopiedAt(local, cf.records, k)
      ensures Copied(cf.domain, old(local), cf.records) ==> Copied(cf.domain, local, cf.records)
      ensures old(Reliable()) ==> ok && Reliable()
    {
      hide InZone, Readings, LocalRest, CopiedAt, Copied, SomeTtl, Ids, Cloudflare.Valid;
      var todo := rrsets.Keys;
      ok := true;
      while todo != {}
        invariant Valid() && LocalRest(cf.domain, local) == LocalRest(cf.domain, old(local))
        invariant todo <= rrsets.Keys
        invariant forall k | k in rrsets && Tracked(cf.domain, k) && k !in todo ::
                  k in local && CopiedAt(local, cf.records, k)
        invariant Copied(cf.domain, old(local), cf.records) ==> Copied(cf.domain, local, cf.records)
        invariant old(Reliable()) ==> Reliable()
        decreases todo
      {
        var k :| k in todo;
        if Tracked(cf.domain, k) {
          LabelRoundTrip(k.name, cf.domain);
          PulledFacts(cf.domain, local, cf.records, k, LocalSet(rrsets[k].ttl, rrsets[k].values));
          ok := LocalReplace(LabelWithinZone(k.name, cf.domain), k.rtype, rrsets[k].values, rrsets[k].ttl);
          if !ok {
            return;
          }
        }
        todo := todo - {k};
      }
    }

    /** Second half: delete from PowerDNS the tracked rrsets that Cloudflare does not list. */
    method PruneLocal(rrsets: map<Key, RRset>) returns (ok: bool)
      requires Valid() && ListsCloud(rrsets)
      requires forall k | k in rrsets && Tracked(cf.domain, k) :: k in local && CopiedAt(local, cf.records, k)
      modifies this`script, this`local
      ensures Valid() && LocalRest(cf.domain, local) == LocalRest(cf.domain, old(local))
      ensures ok ==> Copied(cf.domain, local, cf.records)
      ensures Copied(cf.domain, old(local), cf.records) ==> Copied(cf.domain, local, cf.records)
      ensures old(Reliable()) ==> ok && Reliable()
    {
      hide InZone, Readings, LocalRest, CopiedAt, Copied, SomeTtl, Ids, Cloudflare.Valid;
      ok := Attempt();
      if !ok {
        return;
      }
      var todo := local.Keys;
      while todo != {}
        invariant Valid() && LocalRest(cf.domain, local) == LocalRest(cf.domain, old(local))
        invariant local.Keys <= old(local).Keys
        invariant forall k | k in rrsets && Tracked(cf.domain, k) :: k in local && CopiedAt(local, cf.records, k)
        invariant forall k | k in local && Tracked(cf.domain, k) && k !in rrsets :: k in todo
        invariant Copied(cf.domain, old(local), cf.records) ==> Copied(cf.domain, local, cf.records)
        invariant old(Reliable()) ==> Reliable()
        decreases todo
      {
        var k :| k in todo;
        if k in local && Tracked(cf.domain, k) && k !in rrsets {
          LabelRoundTrip(k.name, cf.domain);
          DroppedFacts(cf.domain, local, cf.records, k);
          ok := LocalDelete(LabelWithinZone(k.name, cf.domain), k.rtype);
          if !ok {
            return;
          }
        }
        todo := todo - {k};
      }
      CopiedDone(cf.domain, local, cf.records, rrsets.Keys);
    }

    /** `_resync_cloudflare_to_powerdns`: afterwards PowerDNS is a copy of Cloudflare, whatever it held
        before; interrupting a resync of a copy leaves a copy. */
    method ResyncIn(zid: nat) returns (ok: bool)
      requires Valid()
      modifies this`script, this`local, cf`script
      ensures Valid() && LocalRest(cf.domain, local) == LocalRest(cf.domain, old(local))
      ensures ok ==> cf.zone == Some(zid) && Copied(cf.domain, local, cf.records)
      ensures ok ==> SameIn(cf.domain, local, cf.records)
      ensures SparedLocal(cf.domain, old(local), local)
      ensures Copied(cf.domain, old(local), cf.records) ==> Copied(cf.domain, local, cf.records)
      ensures cf.zone != Some(zid) ==> local == old(local)
      ensures old(Reliable()) ==> Reliable() && ok == (cf.zone == Some(zid))
    {
      hide InZone, Readings, Gather, Grouped, Ids, SomeTtl, SameIn, SparedLocal, LocalRest, Present, Carries, AllFit;
      var rrsets;
      ok, rrsets := cf.ListRecords(zid);
      if !ok {
        RestSpared(cf.domain, local, local);
        return;
      }
      UnlistedFacts(cf.domain, cf.records, rrsets);
      ok := PullAll(rrsets);
      if ok {
        ok := PruneLocal(rrsets);
      }
      RestSpared(cf.domain, old(local), local);
      if ok {
        CopiedIsSame(cf.domain, local, cf.records);
      }
    }

    /** What the listing of Cloudflare's rrsets says about its records. */
    ghost predicate ListsCloud(rrsets: map<Key, RRset>)
      reads this, cf
    {
      (forall k | Tracked(cf.domain, k) && k !in rrsets :: Readings(cf.records, k) == multiset{})
      && (forall k | k in rrsets :: InZone(k.name, cf.domain) && rrsets[k].values != []
                                    && multiset(rrsets[k].values) == Readings(cf.records, k)
                                    && SomeTtl(cf.records, Ids(cf.records, k), rrsets[k].ttl))
    }

    // ----- routing -----

    /** `list_records`: what it shows is the view; it fails on a stranded zone. */
    method ListRecords() returns (ok: bool, listing: map<Key, seq<string>>)
      requires Valid()
      modifies this`script, cf`script
      ensures ok ==> !Stranded() && forall k | Tracked(cf.domain, k) ::
                Meanings(k.rtype, multiset(if k in listing then listing[k] else [])) == TheView()[k]
      ensures old(Reliable()) ==> ok == !Stranded()
    {
      hide Meanings, Readings, Ids, Gather, InZone, Grouped, Present, Carries, AllFit, SomeTtl;
      listing := map[];
      if Routed() {
        var rrsets;
        ok, rrsets := cf.ListRecords(row.value.zid);
        if ok {
          UnlistedFacts(cf.domain, cf.records, rrsets);
          listing := map k | k in rrsets :: rrsets[k].values;
        }
      } else {
        ok := Attempt();
        if ok {
          listing := map k | k in local && !k.rtype.SOA? :: local[k].values;
        }
      }
    }

    /** `upsert_record`, routed by the row's status. */
    method Write(sub: string, rtype: RType, values: seq<string>, ttl: int, proxied: bool, railsReady: bool)
      returns (ok: bool)
      requires Valid()
      modifies this`script, this`local, cf`script, cf`records, cf`nextId, cf`writes
      ensures Valid() && Written(cf.domain, old(TheView()), TheView(), cf.Target(sub, rtype), values, ok)
      ensures row.Some? && row.value.status == Active ==>
                local == old(local) && Beside(old(cf.records), cf.records, FullName(cf.domain, sub), rtype)
                && (ok ==> forall xs | SayAll(rtype, values, xs) ::
                      WrittenOut(cf.records, FullName(cf.domain, sub), rtype, xs, ttl, proxied && railsReady))
      ensures !(row.Some? && row.value.status == Active) ==>
                var k := Key(FullName(cf.domain, sub), rtype);
                cf.records == old(cf.records)
                && local == (if !ok then old(local)
                             else if values == [] then old(local) - {k}
                             else old(local)[k := LocalSet(ttl, values)])
      ensures old(Reliable()) && !Stranded() && (Routed() ==> Accepted(rtype, values)) ==> ok
    {
      hide Meanings, Readings, Others, InZone, Accepted, Converged, Canonicals, Uniform, Written, CloudView, LocalView;
      hide SayAll, WrittenOut, Beside;
      ghost var k, view := cf.Target(sub, rtype), TheView();
      assert Tracked(cf.domain, k) ==> k in view by { ViewKeys(cf.domain, local, cf.records); }
      NotWritten(cf.domain, view, k, values);
      if Routed() {
        ghost var before := cf.records;
        ok := cf.Upsert(row.value.zid, sub, rtype, values, ttl, proxied && railsReady);
        ConvergedFacts(cf.records, k, values, ttl, proxied && railsReady, ok);
        CloudWritten(cf.domain, before, cf.records, k, values, ok);
      } else {
        ghost var before := local;
        ok := LocalReplace(sub, rtype, values, ttl);
        if ok {
          assert before - {k} == local - {k};
          LocalWritten(cf.domain, before, local, k, values);
        }
      }
    }

    /** `delete_record`, routed by the row's status. */
    method Erase(sub: string, rtype: RType) returns (ok: bool)
      requires Valid()
      modifies this`script, this`local, cf`script, cf`records, cf`writes
      ensures Valid() && Written(cf.domain, old(TheView()), TheView(), cf.Target(sub, rtype), [], ok)
      ensures row.Some? && row.value.status == Active ==>
                local == old(local) && Beside(old(cf.records), cf.records, FullName(cf.domain, sub), rtype)
                && (ok ==> !Present(cf.records, FullName(cf.domain, sub), rtype))
      ensures !(row.Some? && row.value.status == Active) ==>
                cf.records == old(cf.records)
                && local == if ok then old(local) - {Key(FullName(cf.domain, sub), rtype)} else old(local)
      ensures old(Reliable()) && !Stranded() ==> ok
    {
      hide Meanings, Readings, Others, InZone, Written, CloudView, LocalView, Beside, Belongs;
      ghost var k, view := cf.Target(sub, rtype), TheView();
      assert Tracked(cf.domain, k) ==> k in view by { ViewKeys(cf.domain, local, cf.records); }
      NotWritten(cf.domain, view, k, []);
      if Routed() {
        ghost var before := cf.records;
        ok := cf.Delete(row.value.zid, sub, rtype);
        CanonicalsNone(rtype);
        CloudWritten(cf.domain, before, cf.records, k, [], ok);
      } else {
        ghost var before := local;
        ok := LocalDelete(sub, rtype);
        if ok {
          assert before - {k} == local - {k};
          LocalWritten(cf.domain, before, local, k, []);
        }
      }
    }

    // ----- transitions -----

    /** `_activate`: a full resync outwards, and only then the switch of the row. The SSL setting between
        them is best effort and can only use up an outcome. */
    method Activate() returns (ok: bool)
      requires Valid() && row.Some? && row.value.status.Pending?
      modifies this`script, this`row, cf`script, cf`records, cf`nextId, cf`writes
      ensures Valid() && TheView() == old(TheView())
      ensures row == if ok then Some(Row(Active, old(row).value.zid)) else old(row)
      ensures ok ==> !Stranded() && Mirrored(cf.domain, local, cf.records) && SameOut(cf.domain, local, cf.records)
      ensures Spared(cf.domain, old(cf.records), cf.records)
      ensures old(Reliable()) ==> Reliable()
      ensures old(Reliable()) && cf.zone == Some(row.value.zid) && AllAccepted() ==> ok
    {
      hide Meanings, MirroredAt, Readings, InZone, CloudView, LocalView, SameOut, Spared;
      var zid := row.value.zid;
      ok := ResyncOut(zid);
      if !ok {
        return;
      }
      MirrorKeepsView(cf.domain, local, cf.records);
      var settingSaved := cf.Request(zid);
      ok := Attempt();
      if ok {
        row := Some(Row(Active, row.value.zid));
      }
    }

    /** `zone_enable`: create the zone, seed it, and store the row; a failed seeding is compensated by
        deleting the zone again. The account pool's answer is `hasAccount`. */
    method Enable(hasAccount: bool, comesBackActive: bool) returns (ok: bool)
      requires Valid()
      modifies this`script, this`row, cf`script, cf`zone, cf`records, cf`nextId, cf`writes
      ensures Valid() && TheView() == old(TheView())
      ensures old(row).Some? ==> !ok && row == old(row)
      ensures ok ==> row.Some? && !Stranded() && cf.zone == Some(row.value.zid) && (comesBackActive <==> Routed())
      ensures ok && !comesBackActive ==> Mirrored(cf.domain, local, cf.records)
      ensures ok ==> SameOut(cf.domain, local, cf.records)
      ensures Stranded() <==> old(Stranded())
      ensures old(Reliable()) ==> Reliable()
      ensures old(Reliable()) && old(row).None? && old(cf.zone).None? && hasAccount && AllAccepted() ==> ok
    {
      hide Meanings, MirroredAt, Readings, InZone, CloudView, LocalView, Untracked, SameOut, Spared;
      ok := Attempt();
      if !ok || row.Some? || !hasAccount {
        ok := false;
        return;
      }
      var zid;
      ok, zid := cf.CreateZone();
      if !ok {
        return;
      }
      ok := ResyncOut(zid);
      if !ok {
        var compensated := cf.DeleteZone(zid);
        return;
      }
      ok := Attempt();
      if !ok {
        return;
      }
      row := Some(Row(Pending, zid));
      if comesBackActive {
        ok := Activate();
      }
    }

    /** `zone_status`: report, and poll a pending zone. `remote` is Cloudflare's own status of the zone. */
    method CheckStatus(checkNow: bool, remote: Status, namesChanged: bool) returns (ok: bool, active: bool)
      requires Valid()
      modifies this`script, this`row, cf`script, cf`records, cf`nextId, cf`writes
      ensures Valid() && TheView() == old(TheView())
      ensures row.Some? == old(row).Some? && (row.Some? ==> row.value.zid == old(row).value.zid)
      ensures ok ==> row.Some? && (active <==> Routed())
      ensures old(Routed()) ==> ok && row == old(row)
      ensures !ok ==> row == old(row)
      ensures ok && !old(Routed()) ==> (active <==> remote.Active?) && !Stranded()
      ensures Stranded() <==> old(Stranded())
      ensures old(Reliable()) && row.Some? && cf.zone == Some(row.value.zid) && AllAccepted() ==> ok
    {
      hide Meanings, MirroredAt, Readings, InZone, CloudView, LocalView, Untracked;
      active := false;
      if row.None? || row.value.status.Active? {
        ok, active := row.Some?, row.Some?;
        return;
      }
      if checkNow {
        var asked := cf.Request(row.value.zid);
      }
      ok := cf.Request(row.value.zid);
      if ok && namesChanged {
        ok := Attempt();
      }
      if ok && remote.Active? {
        ok := Activate();
        active := ok;
      }
    }

    /** `zone_disable`: resync inwards, delete the zone at Cloudflare, drop the row. `commits` is the
        outcome of the session that drops the row. Without `force` a failed resync ends the revert. */
    method Disable(force: bool, commits: bool) returns (ok: bool, resynced: bool, deleted: bool)
      requires Valid()
      modifies this`script, this`local, this`row, cf`script, cf`zone, cf`records
      ensures Valid() && LocalRest(cf.domain, local) == LocalRest(cf.domain, old(local))
      ensures SparedLocal(cf.domain, old(local), local)
      ensures old(Routed()) && resynced ==> SameIn(cf.domain, local, old(cf.records))
      ensures !force || old(Stranded()) || !old(Routed()) ==> TheView() == old(TheView())
      ensures row == if ok then None else old(row)
      ensures ok ==> old(row).Some? && commits && (old(Routed()) ==> resynced || force)
      ensures !old(Stranded()) ==> (Stranded() <==> old(Routed()) && (resynced || force) && deleted && !commits)
      ensures old(Reliable()) && old(Routed()) && !old(Stranded()) ==> resynced && deleted
      ensures old(Reliable()) && old(row).Some? && commits && (!old(Stranded()) || force) ==> ok
      ensures old(Reliable()) ==> Reliable()
      ensures old(Stranded()) && !force ==> Stranded()
    {
      hide Meanings, CopiedAt, Readings, InZone, CloudView, LocalView, LocalRest, SameIn, SparedLocal;
      resynced, deleted := false, false;
      RestSpared(cf.domain, local, local);
      if row.None? {
        ok := false;
        return;
      }
      ghost var view := TheView();
      if row.value.status.Active? {
        resynced := ResyncIn(row.value.zid);
        if resynced {
          CopyKeepsView(cf.domain, local, cf.records);
        } else if !force {
          ok := false;
          return;
        }
      }
      deleted := cf.DeleteZone(row.value.zid);
      ok := commits;
      if ok {
        row := None;
      }
    }

    // ----- staged migrations -----

    /** `migrate_zone`: stage the destination while the current provider stays effective. */
    method Migrate(target: Provider, hasAccount: bool, comesBackActive: bool) returns (ok: bool)
      requires Valid()
      modifies this`script, this`local, this`row, this`migration, cf`script, cf`zone, cf`records, cf`nextId, cf`writes
      ensures Valid() && TheView() == old(TheView())
      ensures !target.ToCloudflare? ==> row == old(row)
      ensures ok ==> migration.Some? && migration.value.target == target && migration.value.source != target
      ensures old(migration).Some? && !old(migration).value.stage.Completed? ==> migration == old(migration)
      ensures ok && (old(migration).Some? ==> old(migration).value.stage.Completed?) ==>
                (migration.value.source.ToCloudflare? <==> old(Routed()))
                && migration.value.stage == (if target.ToCloudflare? || old(Routed()) then WaitingForDelegation
                                             else if target.ToCluster? then WaitingForCluster else Staged)
      ensures ok && old(Routed()) && migration != old(migration) ==> SameIn(cf.domain, local, cf.records)
      ensures Stranded() <==> old(Stranded())
    {
      hide Meanings, CopiedAt, Readings, InZone, CloudView, LocalView, LocalRest, Mirrored, Copied, Accepted;
      hide SameIn, SameOut, SparedLocal, Spared, Written, Meaning;
      var source := if Routed() then ToCloudflare
                    else if migration.Some? && migration.value.stage.Completed? && migration.value.target.ToCluster?
                    then ToCluster
                    else ToLocal;
      var listing;
      ok, listing := ListRecords();
      if !ok || source == target {
        ok := false;
        return;
      }
      if migration.Some? && !migration.value.stage.Completed? {
        ok := migration.value.target == target;
        return;
      }
      if target.ToCloudflare? {
        ok := Enable(hasAccount, comesBackActive);
      } else if Routed() {
        ok := ResyncIn(row.value.zid);
      }
      if ok && target.ToCluster? {
        ok := Attempt();
      }
      if ok {
        ok := Attempt();
      }
      if ok {
        var stage := if target.ToCloudflare? || source.ToCloudflare? then WaitingForDelegation
                     else if target.ToCluster? then WaitingForCluster else Staged;
        migration := Some(Migration(source, target, stage));
      }
    }

    /** `verify_zone_migration`: switch the provider once the destination is authoritative. */
    method Verify(delegated: bool, clusterReady: bool, remote: Status, commits: bool) returns (ok: bool, ready: bool)
      requires Valid()
      modifies this`script, this`local, this`row, this`migration, cf`script, cf`zone, cf`records, cf`nextId, cf`writes
      ensures Valid() && TheView() == old(TheView())
      ensures ok ==> migration.Some? && (ready <==> migration.value.stage.Completed?)
      ensures (ok && old(migration).Some? && !old(migration).value.stage.Completed?) ==>
                var m := old(migration).value;
                migration.value == m.(stage := migration.value.stage)
                && (ready <==> (m.target.ToCloudflare? ==> Routed()) && (m.target.ToCluster? ==> clusterReady)
                               && (m.source.ToCloudflare? && !m.target.ToCloudflare? ==> delegated))
                && (migration.value.stage == WaitingForCluster
                    <==> !ready && (m.target.ToCloudflare? ==> Routed())
                         && (m.source.ToCloudflare? && !m.target.ToCloudflare? ==> delegated))
                && migration.value.stage != Staged
      ensures ok && ready && migration != old(migration) ==> (migration.value.target.ToCloudflare? ==> Routed())
      ensures ok && ready && migration != old(migration) && migration.value.source.ToCloudflare? ==> row.None?
      ensures old(Stranded()) ==> Stranded()
      ensures commits && !old(Stranded()) ==> !Stranded()
    {
      hide Meanings, CopiedAt, Readings, InZone, CloudView, LocalView, LocalRest, Mirrored, Copied, Accepted;
      hide SameIn, SameOut, SparedLocal, Spared;
      ready := false;
      if migration.None? {
        ok := false;
        return;
      }
      if migration.value.stage.Completed? {
        ok, ready := true, true;
        return;
      }
      var m := migration.value;
      var providerReady, replicated := delegated, clusterReady || !m.target.ToCluster?;
      ok := true;
      if m.target.ToCloudflare? {
        ok, providerReady := CheckStatus(true, remote, false);
        if !ok {
          return;
        }
      } else if !m.source.ToCloudflare? {
        providerReady := true;
      }
      ready := providerReady && replicated;
      if ready && m.source.ToCloudflare? && !m.target.ToCloudflare? {
        var resynced, deleted;
        ok, resynced, deleted := Disable(false, commits);
        if !ok {
          return;
        }
      }
      ok := Attempt();
      if ok {
        var stage := if ready then Completed else if providerReady then WaitingForCluster else WaitingForDelegation;
        migration := Some(m.(stage := stage));
      }
    }

    // ----- whole runs -----

    /** One command with everything its environment decides. */
    method Execute(c: Command) returns (ok: bool)
      requires Valid()
      modifies this`script, this`local, this`row, this`migration, cf`script, cf`zone, cf`records, cf`nextId, cf`writes
      ensures Valid() && StepOf(cf.domain, c, ok, old(TheView()), TheView())
      ensures old(Stranded()) ==> Stranded()
      ensures Commits(c) && !old(Stranded()) ==> !Stranded()
    {
      hide Meanings, CopiedAt, Readings, InZone, CloudView, LocalView, LocalRest, Mirrored, Copied, Accepted, Written;
      match c
      case Upsert(sub, rtype, values, ttl, proxied, rails) => ok := Write(sub, rtype, values, ttl, proxied, rails);
      case Delete(sub, rtype) => ok := Erase(sub, rtype);
      case EnableZone(hasAccount, active) => ok := Enable(hasAccount, active);
      case PollZone(now, remote, names) =>
        var active;
        ok, active := CheckStatus(now, remote, names);
      case DisableZone(commits) =>
        var resynced, deleted;
        ok, resynced, deleted := Disable(false, commits);
      case MigrateZone(target, hasAccount, active) => ok := Migrate(target, hasAccount, active);
      case VerifyMigration(delegated, cluster, remote, commits) =>
        var ready;
        ok, ready := Verify(delegated, cluster, remote, commits);
    }

    /** Over every run, with any failures, the pair of stores behaves like one record map that only the
        record writes change. `listable` says when no zone is stranded, and so, by ListRecords, the listing shows
        the view: always, unless a revert fails to commit the row it drops; and then never again. */
    method Run(commands: seq<Command>) returns (oks: seq<bool>, ghost views: seq<View>, ghost listable: seq<bool>)
      requires Valid()
      modifies this`script, this`local, this`row, this`migration, cf`script, cf`zone, cf`records, cf`nextId, cf`writes
      ensures Valid() && History(cf.domain, commands, oks, views)
      ensures views[0] == old(TheView()) && views[|commands|] == TheView()
      ensures |listable| == |commands| + 1 && listable[0] == !old(Stranded()) && listable[|commands|] == !Stranded()
      ensures forall i, j | 0 <= i <= j <= |commands| && listable[j] :: listable[i]
      ensures forall i | 0 <= i < |commands| && listable[i] && Commits(commands[i]) :: listable[i + 1]
      ensures !old(Stranded()) && (forall c | c in commands :: Commits(c)) ==>
                forall i | 0 <= i <= |commands| :: listable[i]
    {
      hide History, LocalView, CloudView, StepOf, Commits;
      oks, views, listable := [], [TheView()], [!Stranded()];
      HistoryStart(cf.domain, TheView());
      assert commands[..0] == [];
      for i := 0 to |commands|
        invariant Valid() && History(cf.domain, commands[..i], oks, views)
        invariant |views| == i + 1 && views[0] == old(TheView()) && views[i] == TheView()
        invariant |listable| == i + 1 && listable[0] == !old(Stranded()) && listable[i] == !Stranded()
        invariant forall j, l | 0 <= j <= l <= i && listable[l] :: listable[j]
        invariant forall j | 0 <= j < i && listable[j] && Commits(commands[j]) :: listable[j + 1]
        invariant !old(Stranded()) && (forall c | c in commands :: Commits(c)) ==> !Stranded()
      {
        ghost var before := TheView();
        var ok := Execute(commands[i]);
        HistoryStep(cf.domain, commands[..i], oks, views, commands[i], ok, TheView());
        assert commands[..i + 1] == commands[..i] + [commands[i]];
        oks, views, listable := oks + [ok], views + [TheView()], listable + [!Stranded()];
      }
      assert commands[..|commands|] == commands;
    }

    /** What a write wrote, the delegation of a name below the zone among it, is what a listing shows after any later
        commands that do not touch the rrset, moves between the providers among them, with any failures. */
    method WriteThenList(sub: string, rtype: RType, values: seq<string>, ttl: int, proxied: bool, railsReady: bool,
                         later: seq<Command>)
      returns (written: bool, listed: bool, shown: seq<string>)
      requires Valid() && rtype != SOA && (rtype == NS ==> sub != "" && sub != "@")
      requires forall c | c in later :: !Touches(c, sub, rtype)
      modifies this`script, this`local, this`row, this`migration, cf`script, cf`zone, cf`records, cf`nextId, cf`writes
      ensures Valid()
      ensures written && listed ==> forall xs | MeanAll(rtype, values, xs) :: SameMeaning(rtype, shown, xs)
    {
      hide Meanings, Readings, LocalView, CloudView, History, Written, Touches, MeanAll, SameMeaning;
      hide SayAll, WrittenOut, Beside, InZone, Accepted;
      ghost var before := TheView();
      assert Crosses(cf.domain, FullName(cf.domain, sub), rtype);
      written := Write(sub, rtype, values, ttl, proxied, railsReady);
      var oks;
      ghost var views, listable;
      oks, views, listable := Run(later);
      var listing;
      listed, listing := ListRecords();
      shown := if Key(RecordName(cf.domain, sub), rtype) in listing then listing[Key(RecordName(cf.domain, sub), rtype)]
               else [];
      if written && listed {
        StaysWritten(cf.domain, before, sub, rtype, values, later, oks, views);
        ListedMeans(rtype, values, shown);
      }
    }
  }

  /** The command writes or deletes the rrset of the label and the type. */
  ghost predicate Touches(c: Command, sub: string, rtype: RType) {
    (c.Upsert? || c.Delete?) && c.rtype == rtype
    && (c.sub == sub || (c.sub in {"", "@"} && sub in {"", "@"}))
  }

  lemma {:induction false} UntouchedKey(domain: string, c: Command, sub: string, rtype: RType)
    requires !Touches(c, sub, rtype)
    ensures WrittenKey(domain, c) != Some(Key(FullName(domain, sub), rtype))
  {
    if (c.Upsert? || c.Delete?) && RecordName(domain, c.sub) == RecordName(domain, sub) {
      var a, b := RecordName(domain, c.sub), RecordName(domain, sub);
      assert c.sub !in {"", "@"} ==> a[..|a| - |domain| - 1] == c.sub;
      assert sub !in {"", "@"} ==> b[..|b| - |domain| - 1] == sub;
    }
  }

  /** A written rrset means what its values mean through any later commands that do not touch it. */
  lemma {:induction false} StaysWritten(domain: string, first: View, sub: string, rtype: RType, values: seq<string>,
                                        commands: seq<Command>, oks: seq<bool>, views: seq<View>)
    requires History(domain, commands, oks, views) && Crosses(domain, FullName(domain, sub), rtype)
    requires Written(domain, first, views[0], Key(RecordName(domain, sub), rtype), values, true)
    requires forall c | c in commands :: !Touches(c, sub, rtype)
    ensures var k := Key(FullName(domain, sub), rtype);
            k in views[|commands|] && views[|commands|][k] == Meanings(rtype, multiset(values))
  {
    hide Meanings, Touches, History, RecordName, FullName;
    var k := Key(FullName(domain, sub), rtype);
    assert FullName(domain, sub) == RecordName(domain, sub) by { SameFullName(domain, sub); }
    forall j | 0 <= j < |commands| ensures WrittenKey(domain, commands[j]) != Some(k) {
      UntouchedKey(domain, commands[j], sub, rtype);
    }
    Unwritten(domain, commands, oks, views, 0, k);
  }

  lemma {:induction false} SameFullName(domain: string, sub: string)
    ensures FullName(domain, sub) == RecordName(domain, sub)
  {
  }

  /** A listing whose values mean what `values` mean says the same, value by value. */
  lemma {:induction false} ListedMeans(t: RType, values: seq<string>, listed: seq<string>)
    requires Meanings(t, multiset(listed)) == Meanings(t, multiset(values))
    ensures forall xs | MeanAll(t, values, xs) :: SameMeaning(t, listed, xs)
  {
    hide Meanings, MeanAll;
    forall xs | MeanAll(t, values, xs) ensures SameMeaning(t, listed, xs) {
      MeaningsSpelled(t, values, xs);
      MeantFit(t, values, xs);
      var ys := MeaningsMatch(t, listed, xs);
    }
  }

  lemma {:induction false} MeantFit(t: RType, values: seq<string>, xs: seq<Meant>)
    requires MeanAll(t, values, xs)
    ensures AllFit(t, xs)
  {
    hide Means, Fits, Meaning, Spelled;
    forall i | 0 <= i < |xs| ensures Fits(t, xs[i]) {
      MeansExactly(t, values[i], xs[i]);
    }
  }

  /** The values mean `xs`, one each, in some order. */
  ghost predicate SameMeaning(t: RType, vs: seq<string>, xs: seq<Meant>) {
    exists ys :: MeanAll(t, vs, ys) && multiset(ys) == multiset(xs)
  }

  /** A run that ends stranded: the zone is moved to Cloudflare, and the revert deletes it there but cannot commit the
      row. The record is still in PowerDNS, and the listing fails. */
  method StrandedCounterexample() returns (panel: Panel, k: Key, listed: bool)
    ensures fresh(panel) && panel.Valid() && panel.Stranded() && !listed
    ensures k in panel.TheView() && panel.TheView()[k] != multiset{}
  {
    hide LocalView, CloudView, InZone, Mirrored, Accepted, LocalRest, Meanings, Readings, Tracked;
    var cf := new Cloudflare("example.org");
    k := Key("example.org", A);
    var local := map[k := LocalSet(300, ["192.0.2.1"])];
    OneRecord(k, local);
    panel := new Panel(cf, local);
    assert panel.TheView() == LocalView("example.org", local);
    var enabled := panel.Enable(true, true);
    var reverted, resynced, deleted := panel.Disable(false, false);
    var listing;
    listed, listing := panel.ListRecords();
  }

  lemma {:induction false} OneRecord(k: Key, local: map<Key, LocalSet>)
    requires k == Key("example.org", A) && local == map[k := LocalSet(300, ["192.0.2.1"])]
    ensures InZone(k.name, "example.org") && Accepted(A, local[k].values)
    ensures k in LocalView("example.org", local) && LocalView("example.org", local)[k] != multiset{}
  {
    hide Meanings;
    var v := "192.0.2.1";
    assert multiset(Listed(local, k)) == multiset{v};
    MeaningsOne(A, v);
  }

  /** The commands of a run, with what the environment answers to each. */
  datatype Command =
    | Upsert(sub: string, rtype: RType, values: seq<string>, ttl: int, proxied: bool, railsReady: bool)
    | Delete(sub: string, rtype: RType)
    | EnableZone(hasAccount: bool, comesBackActive: bool)
    | PollZone(checkNow: bool, remote: Status, namesChanged: bool)
    | DisableZone(commits: bool)
    | MigrateZone(target: Provider, hasAccount: bool, comesBackActive: bool)
    | VerifyMigration(delegated: bool, clusterReady: bool, remote: Status, commits: bool)

  /** The session in which a revert drops the row commits. */
  predicate Commits(c: Command) {
    (c.DisableZone? || c.VerifyMigration?) ==> c.commits
  }

  /** The rrset that a command writes, if it is a write. */
  function WrittenKey(domain: string, c: Command): Option<Key> {
    match c
    case Upsert(sub, rtype, _, _, _, _) => Some(Key(RecordName(domain, sub), rtype))
    case Delete(sub, rtype) => Some(Key(RecordName(domain, sub), rtype))
    case _ => None
  }

  function WrittenValues(c: Command): seq<string> {
    if c.Upsert? then c.values else []
  }

  /** One step of the abstract record map: only writes change it, and only their own rrset. */
  ghost predicate StepOf(domain: string, c: Command, ok: bool, before: View, after: View) {
    match WrittenKey(domain, c)
    case None => after == before
    case Some(k) => Written(domain, before, after, k, WrittenValues(c), ok)
  }

  ghost predicate History(domain: string, commands: seq<Command>, oks: seq<bool>, views: seq<View>) {
    |oks| == |commands| && |views| == |commands| + 1
    && forall i | 0 <= i < |commands| :: StepOf(domain, commands[i], oks[i], views[i], views[i + 1])
  }

  lemma {:induction false} HistoryStart(domain: string, v: View)
    ensures History(domain, [], [], [v])
  {
  }

  lemma {:induction false} HistoryStep(domain: string, commands: seq<Command>, oks: seq<bool>, views: seq<View>,
                                       c: Command, ok: bool, after: View)
    requires History(domain, commands, oks, views) && StepOf(domain, c, ok, views[|commands|], after)
    ensures History(domain, commands + [c], oks + [ok], views + [after])
  {
    hide StepOf;
  }

  /** A rrset that no command from position i on writes is at the end what it was at i. */
  lemma {:induction false} Unwritten(domain: string, commands: seq<Command>, oks: seq<bool>, views: seq<View>, i: nat,
                                     k: Key)
    requires History(domain, commands, oks, views) && i <= |commands| && Crosses(domain, k.name, k.rtype)
    requires forall j | i <= j < |commands| :: WrittenKey(domain, commands[j]) != Some(k)
    ensures k in views[i] ==> k in views[|commands|] && views[|commands|][k] == views[i][k]
    decreases |commands| - i
  {
    if i < |commands| {
      assert StepOf(domain, commands[i], oks[i], views[i], views[i + 1]);
      Unwritten(domain, commands, oks, views, i + 1, k);
    }
  }

  /** The last write of a rrset, if it succeeds, decides what the rrset means at the end of the run. */
  lemma {:induction false} LastWriteWins(domain: string, commands: seq<Command>, oks: seq<bool>, views: seq<View>,
                                         i: nat, k: Key)
    requires History(domain, commands, oks, views) && i < |commands| && Crosses(domain, k.name, k.rtype)
    requires WrittenKey(domain, commands[i]) == Some(k) && oks[i]
    requires forall j | i < j < |commands| :: WrittenKey(domain, commands[j]) != Some(k)
    ensures k in views[|commands|] && views[|commands|][k] == Meanings(k.rtype, multiset(WrittenValues(commands[i])))
  {
    assert StepOf(domain, commands[i], oks[i], views[i], views[i + 1]);
    Unwritten(domain, commands, oks, views, i + 1, k);
  }

  /** What one REPLACE of the resync keeps. */
  lemma {:induction false} PushedFacts(domain: string, local: map<Key, LocalSet>, m: Records, m': Records, k: Key)
    requires Others(m, k) == Others(m', k) && Tracked(domain, k) && k in local
    ensures Untracked(domain, m) == Untracked(domain, m')
    ensures forall other | other != k :: MirroredAt(local, m, other) == MirroredAt(local, m', other)
    ensures Converged(m', k, local[k].values, local[k].ttl, false) ==> MirroredAt(local, m', k)
    ensures Mirrored(domain, local, m) ==> Converged(m, k, local[k].values, local[k].ttl, false)
  {
    hide Converged, Readings, Others, Untracked;
    UntrackedFrame(domain, m, m', k);
    forall other | other != k ensures MirroredAt(local, m, other) == MirroredAt(local, m', other) {
      MirroredFrame(local, m, m', k, other);
    }
    assert Mirrored(domain, local, m) ==> MirroredAt(local, m, k);
  }

  /** A tracked rrset that Cloudflare does not list is empty there, and listed names are in the zone. */
  lemma {:induction false} UnlistedFacts(domain: string, m: Records, rrsets: map<Key, RRset>)
    requires Grouped(m, m.Keys, rrsets)
    requires forall id | id in m :: InZone(KeyOf(m[id]).name, domain)
    ensures forall k | Tracked(domain, k) && k !in rrsets :: Readings(m, k) == multiset{}
    ensures forall k | k in rrsets :: InZone(k.name, domain) && multiset(rrsets[k].values) == Readings(m, k)
    ensures forall k | k in rrsets :: rrsets[k].values != [] && SomeTtl(m, Ids(m, k), rrsets[k].ttl)
  {
    hide Gather, InZone, SomeTtl, Grouped;
    forall k ensures k in rrsets <==> !k.rtype.SOA? && Ids(m, k) != {}
             ensures k in rrsets ==> multiset(rrsets[k].values) == Readings(m, k) {
      GroupedFor(m, rrsets, k);
    }
    forall k ensures Readings(m, k) == multiset{} <==> Ids(m, k) == {} {
      ReadingsEmpty(m, k);
    }
    forall k | k in rrsets
      ensures InZone(k.name, domain) && rrsets[k].values != [] && SomeTtl(m, Ids(m, k), rrsets[k].ttl) {
      GroupedFor(m, rrsets, k);
      var id :| id in Ids(m, k);
      assert KeyOf(m[id]) == k;
    }
  }

  /** What one REPLACE of the inward resync keeps. */
  lemma {:induction false} PulledFacts(domain: string, local: map<Key, LocalSet>, m: Records, k: Key, copy: LocalSet)
    requires Tracked(domain, k) && multiset(copy.values) == Readings(m, k) && SomeTtl(m, Ids(m, k), copy.ttl)
    ensures LocalRest(domain, local[k := copy]) == LocalRest(domain, local)
    ensures CopiedAt(local[k := copy], m, k)
    ensures forall other | other != k :: CopiedAt(local[k := copy], m, other) == CopiedAt(local, m, other)
    ensures Copied(domain, local, m) ==> Copied(domain, local[k := copy], m)
  {
    hide Readings, SomeTtl, Ids;
  }

  /** What one DELETE of the inward resync keeps. */
  lemma {:induction false} DroppedFacts(domain: string, local: map<Key, LocalSet>, m: Records, k: Key)
    requires Tracked(domain, k) && Readings(m, k) == multiset{}
    ensures LocalRest(domain, local - {k}) == LocalRest(domain, local)
    ensures forall other | other != k :: CopiedAt(local - {k}, m, other) == CopiedAt(local, m, other)
    ensures Copied(domain, local, m) ==> Copied(domain, local - {k}, m)
  {
    hide Readings, SomeTtl, Ids;
  }

  lemma {:induction false} CopiedDone(domain: string, local: map<Key, LocalSet>, m: Records, listed: set<Key>)
    requires forall k | Tracked(domain, k) && k !in listed :: Readings(m, k) == multiset{} && k !in local
    requires forall k | Tracked(domain, k) && k in listed :: CopiedAt(local, m, k)
    ensures Copied(domain, local, m)
  {
    hide Readings, SomeTtl, Ids;
  }

  /** What one DELETE of the resync keeps. */
  lemma {:induction false} PrunedFacts(domain: string, local: map<Key, LocalSet>, m: Records, m': Records, k: Key)
    requires Others(m, k) == Others(m', k) && Tracked(domain, k) && k !in local
    ensures Untracked(domain, m) == Untracked(domain, m')
    ensures forall other | other != k :: MirroredAt(local, m, other) == MirroredAt(local, m', other)
    ensures Readings(m', k) == multiset{} ==> MirroredAt(local, m', k)
    ensures Mirrored(domain, local, m) ==> Readings(m, k) == multiset{}
  {
    hide Converged, Readings, Others, Untracked;
    UntrackedFrame(domain, m, m', k);
    forall other | other != k ensures MirroredAt(local, m, other) == MirroredAt(local, m', other) {
      MirroredFrame(local, m, m', k, other);
    }
    assert Mirrored(domain, local, m) ==> MirroredAt(local, m, k);
  }

  lemma {:induction false} ViewKeys(domain: string, local: map<Key, LocalSet>, m: Records)
    ensures forall k | Tracked(domain, k) :: k in LocalView(domain, local) && k in CloudView(domain, m)
  {
    hide Meanings, Readings;
  }

  lemma {:induction false} ConvergedFacts(m: Records, k: Key, values: seq<string>, ttl: int, proxied: bool, ok: bool)
    requires ok ==> Converged(m, k, values, ttl, proxied)
    ensures ok ==> Accepted(k.rtype, values) && Readings(m, k) == Canonicals(k.rtype, values)
  {
  }
}
