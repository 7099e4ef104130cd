/** The pool of Cloudflare accounts (daemon/cloudflare_accounts.py): a cached number of zones per account, and
    the choice of the account that takes a new zone. */
module AccountPool {
  import opened Text

  datatype Account = Account(zoneCount: nat, maxZones: nat, active: bool)

  type Accounts = map<nat, Account>

  /** Each zone on Cloudflare and the pool account that serves it; none is the legacy token's. */
  type Zones = map<string, Option<nat>>

  datatype Event = Enable(zone: string) | Remove(zone: string) | Terminate(names: seq<string>) | Migrate
                 | AddAccount(maxZones: nat) | SetAccount(id: nat, newCap: Option<nat>, active: Option<bool>)
                 | DeleteAccount(id: nat, force: bool)

  /** AtCapacity and NotConfigured are refusals; Failed is a call that failed. */
  datatype Outcome = Done | AlreadyThere | AtCapacity | NotConfigured | NoSuchAccount | StillServing | Failed

  function ZonesOf(zones: Zones, id: nat): set<string> { set z | z in zones && zones[z] == Some(id) }

  function Elements(names: seq<string>): set<string> { set n | n in names }

  predicate Room(a: Account) { a.active && a.zoneCount < a.maxZones }

  /** The account takes zones and has fewer than it may. */
  ghost predicate CanTake(a: Account) { a.active && a.zoneCount < a.maxZones }

  /** No account that can take a zone has fewer, and none with as few has a lower id. */
  ghost predicate FirstChoice(accounts: Accounts, id: nat) {
    id in accounts && CanTake(accounts[id])
    && forall other | other in accounts && CanTake(accounts[other]) ::
         accounts[id].zoneCount < accounts[other].zoneCount
         || (accounts[id].zoneCount == accounts[other].zoneCount && id <= other)
  }

  /** The domains on Cloudflare after the events that were done. */
  ghost function Served(names: set<string>, events: seq<Event>, outcomes: seq<Outcome>): set<string>
    requires |events| == |outcomes|
  {
    if events == [] then names
    else
      var n := |events| - 1;
      var before := Served(names, events[..n], outcomes[..n]);
      if !outcomes[n].Done? then before
      else match events[n]
           case Enable(zone) => before + {zone}
           case Remove(zone) => before - {zone}
           case Terminate(zones) => before - set z | z in zones
           case _ => before
  }

  /** The cached numbers are the real ones, and no zone refers to an account that is gone. */
  ghost predicate Counted(accounts: Accounts, zones: Zones) {
    (forall id | id in accounts :: accounts[id].zoneCount == |ZonesOf(zones, id)|)
    && (forall z | z in zones && zones[z].Some? :: zones[z].value in accounts)
  }

  /** Active accounts differ by at most one zone, unless the one with fewer is full. */
  ghost predicate Even(accounts: Accounts) {
    forall a, b | a in accounts && b in accounts && accounts[a].active && accounts[b].active ::
      accounts[a].zoneCount <= accounts[b].zoneCount + 1 || accounts[b].zoneCount >= accounts[b].maxZones
  }

  /** The same pool but for the cached numbers. */
  ghost predicate SamePool(a: Accounts, b: Accounts) {
    a.Keys == b.Keys && forall id | id in a :: a[id].maxZones == b[id].maxZones && a[id].active == b[id].active
  }

  /** An account whose number grew is within its cap. */
  ghost predicate CapsKept(before: Accounts, after: Accounts) {
    forall id | id in before && id in after && after[id].zoneCount > before[id].zoneCount ::
      after[id].zoneCount <= after[id].maxZones
  }

  class Pool {
    var accounts: Accounts
    var zones: Zones
    const legacy: bool
    var next: nat
    var script: seq<bool>

    ghost predicate Valid()
      reads this`accounts, this`zones, this`next
    {
      Counted(accounts, zones) && forall id | id in accounts :: id < next
    }

    constructor (legacy: bool)
      ensures Valid() && accounts == map[] && zones == map[] && this.legacy == legacy
    {
      this.legacy := legacy;
      accounts, zones, next, script := map[], map[], 0, [];
    }

    method Call() returns (ok: bool)
      modifies this`script
      ensures false !in old(script) ==> ok && false !in script
    {
      ok := script == [] || script[0];
      script := if script == [] then [] else script[1..];
    }

    /** `_sync_zone_count`. */
    method Sync(id: nat)
      modifies this`accounts
      ensures accounts ==
                if id in old(accounts) then old(accounts)[id := old(accounts)[id].(zoneCount := |ZonesOf(zones, id)|)]
                else old(accounts)
    {
      if id in accounts {
        accounts := accounts[id := accounts[id].(zoneCount := |ZonesOf(zones, id)|)];
      }
    }

    /** `_pick_account`: of the active accounts with room, the one with the fewest zones, then the lowest id. */
    method Pick() returns (picked: Option<nat>)
      ensures picked.None? <==> forall id | id in accounts :: !CanTake(accounts[id])
      ensures picked.Some? ==> FirstChoice(accounts, picked.value)
    {
      picked := None;
      var left := accounts.Keys;
      while left != {}
        invariant left <= accounts.Keys
        invariant picked.None? <==> forall id | id in accounts && id !in left :: !CanTake(accounts[id])
        invariant picked.Some? ==> picked.value in accounts && CanTake(accounts[picked.value])
        invariant picked.Some? ==> forall id | id in accounts && id !in left && CanTake(accounts[id]) ::
                    accounts[picked.value].zoneCount < accounts[id].zoneCount
                    || (accounts[picked.value].zoneCount == accounts[id].zoneCount && picked.value <= id)
      {
        var id :| id in left;
        left := left - {id};
        var a := accounts[id];
        if Room(a) {
          if picked.None? || a.zoneCount < accounts[picked.value].zoneCount
             || (a.zoneCount == accounts[picked.value].zoneCount && id < picked.value) {
            picked := Some(id);
          }
        }
      }
    }

    /** `zone_enable` with `assign_for_new_zone`: a populated pool refuses exactly when every active account is
        full; the zone goes to an account with room, which stays within its cap; no other number changes. */
    method EnableZone(zone: string) returns (outcome: Outcome)
      requires Valid()
      modifies this`accounts, this`zones, this`script
      ensures Valid() && SamePool(old(accounts), accounts) && CapsKept(old(accounts), accounts)
      ensures outcome.AlreadyThere? <==> zone in old(zones)
      ensures outcome.AtCapacity?
              <==> (zone !in old(zones) && old(accounts) != map[]
                    && forall id | id in old(accounts) :: !CanTake(old(accounts)[id]))
      ensures outcome.NotConfigured? <==> zone !in old(zones) && old(accounts) == map[] && !legacy
      ensures !outcome.Done? ==> zones == old(zones) && accounts == old(accounts)
      ensures outcome.Done? ==>
                zone in zones && zones == old(zones)[zone := zones[zone]]
                && (zones[zone].None? <==> old(accounts) == map[])
                && (zones[zone].Some? ==> FirstChoice(old(accounts), zones[zone].value))
      ensures Even(old(accounts)) ==> Even(accounts)
      ensures false !in old(script) ==> !outcome.Failed? && false !in script
    {
      hide Even, Counted;
      if zone in zones {
        return AlreadyThere;
      }
      var picked := Pick();
      if picked.None? && accounts != map[] {
        return AtCapacity;
      }
      if picked.None? && !legacy {
        return NotConfigured;
      }
      var created := Call();
      if !created {
        return Failed;
      }
      var seeded := Call();
      if !seeded {
        var removed := Call();
        return Failed;
      }
      var committed := Call();
      if !committed {
        return Failed;
      }
      Assign(zone, picked);
      return Done;
    }

    /** The row of the new zone, and the number of the account that serves it. */
    method Assign(zone: string, picked: Option<nat>)
      requires Valid() && zone !in zones
      requires picked.Some? ==> FirstChoice(accounts, picked.value)
      modifies this`accounts, this`zones
      ensures Valid() && SamePool(old(accounts), accounts) && CapsKept(old(accounts), accounts)
      ensures zones == old(zones)[zone := picked] && (Even(old(accounts)) ==> Even(accounts))
    {
      hide Even;
      OneZoneMore(accounts, zones, zone, picked);
      StaysEven(accounts, zones, zone, picked);
      zones := zones[zone := picked];
      if picked.Some? {
        Sync(picked.value);
      }
    }

    /** `zone_disable`, `delete_zone` and each round of a termination: drop the row, then count again. */
    method RemoveZone(zone: string) returns (outcome: Outcome)
      requires Valid()
      modifies this`accounts, this`zones, this`script
      ensures Valid() && SamePool(old(accounts), accounts) && CapsKept(old(accounts), accounts)
      ensures zones == if outcome.Done? then old(zones) - {zone} else old(zones)
      ensures !outcome.Done? ==> accounts == old(accounts)
      ensures false !in old(script) ==> outcome.Done? && false !in script
    {
      if zone !in zones {
        assert zones - {zone} == zones;
        return Done;
      }
      var served := zones[zone];
      var deletedThere := Call();
      var committed := Call();
      if !committed {
        return Failed;
      }
      OneZoneLess(accounts, zones, zone);
      zones := zones - {zone};
      if served.Some? {
        Sync(served.value);
      }
      return Done;
    }

    /** `terminate_account_cloudflare`: stopped by a session that fails, the zones before that one are gone. */
    method TerminateZones(names: seq<string>) returns (outcome: Outcome, gone: nat)
      requires Valid()
      modifies this`accounts, this`zones, this`script
      ensures Valid() && SamePool(old(accounts), accounts) && (outcome.Done? || outcome.Failed?)
      ensures gone <= |names| && zones == old(zones) - Elements(names[..gone])
      ensures outcome.Done? ==> gone == |names| && zones == old(zones) - Elements(names)
      ensures false !in old(script) ==> outcome.Done? && false !in script
    {
      hide Counted;
      for i := 0 to |names|
        invariant Valid() && SamePool(old(accounts), accounts)
        invariant zones == old(zones) - Elements(names[..i]) && (false !in old(script) ==> false !in script)
      {
        outcome := RemoveZone(names[i]);
        if !outcome.Done? {
          return Failed, i;
        }
        assert names[..i + 1] == names[..i] + [names[i]];
        assert Elements(names[..i + 1]) == Elements(names[..i]) + {names[i]};
      }
      assert names[..|names|] == names;
      return Done, |names|;
    }

    /** `migrate_single_token`: an empty pool gets its first account, which adopts every zone there is. */
    method MigrateSingleToken() returns (migrated: bool)
      requires Valid()
      modifies this`accounts, this`zones, this`next
      ensures Valid() && (migrated <==> legacy && old(accounts) == map[])
      ensures !migrated ==> accounts == old(accounts) && zones == old(zones)
      ensures migrated ==> zones.Keys == old(zones).Keys && (forall z | z in zones :: zones[z] == Some(old(next)))
      ensures migrated ==> accounts == map[old(next) := Account(|old(zones)|, 800, true)]
    {
      if !legacy || accounts != map[] {
        return false;
      }
      var id := next;
      next := next + 1;
      accounts := accounts[id := Account(0, 800, true)];
      ghost var before := zones;
      zones := map z | z in zones :: match zones[z] case None => Some(id) case Some(a) => Some(a);
      assert zones.Keys == before.Keys;
      forall z | z in zones ensures zones[z] == Some(id) {
        assert before[z].None?;
      }
      assert ZonesOf(zones, id) == zones.Keys && |before| == |before.Keys|;
      Sync(id);
      return true;
    }

    method AddOne(maxZones: nat) returns (id: nat)
      requires Valid() && maxZones >= 1
      modifies this`accounts, this`next
      ensures Valid() && id !in old(accounts) && accounts == old(accounts)[id := Account(0, maxZones, true)]
    {
      id := next;
      assert ZonesOf(zones, id) == {};
      accounts := accounts[id := Account(0, maxZones, true)];
      next := next + 1;
    }

    /** `set_account` changes the cap or the active flag, never the number of zones. */
    method Set(id: nat, maxZones: Option<nat>, active: Option<bool>) returns (outcome: Outcome)
      requires Valid()
      modifies this`accounts
      ensures Valid() && (outcome.NoSuchAccount? <==> id !in old(accounts)) && accounts.Keys == old(accounts).Keys
      ensures forall i | i in accounts ::
                accounts[i].zoneCount == old(accounts)[i].zoneCount && (i != id ==> accounts[i] == old(accounts)[i])
      ensures id in accounts ==>
                (if maxZones.Some? then accounts[id].maxZones == maxZones.value
                 else accounts[id].maxZones == old(accounts)[id].maxZones)
                && (if active.Some? then accounts[id].active == active.value
                    else accounts[id].active == old(accounts)[id].active)
      ensures !outcome.NoSuchAccount? ==> outcome.Done?
    {
      if id !in accounts {
        return NoSuchAccount;
      }
      var a := accounts[id];
      accounts := accounts[id := Account(a.zoneCount, match maxZones { case Some(m) => m case None => a.maxZones },
                                         match active { case Some(b) => b case None => a.active })];
      return Done;
    }

    /** `delete_account`: refused while it serves zones; forced, they fall back to the legacy token. */
    method Delete(id: nat, force: bool) returns (outcome: Outcome)
      requires Valid()
      modifies this`accounts, this`zones
      ensures Valid()
      ensures outcome == if id !in old(accounts) then NoSuchAccount
                         else if old(accounts)[id].zoneCount > 0 && !force then StillServing else Done
      ensures accounts == if outcome.Done? then old(accounts) - {id} else old(accounts)
      ensures zones.Keys == old(zones).Keys
      ensures forall z | z in zones ::
                zones[z] == if outcome.Done? && old(zones)[z] == Some(id) then None else old(zones)[z]
    {
      if id !in accounts {
        return NoSuchAccount;
      }
      var serving := ZonesOf(zones, id);
      if |serving| > 0 && !force {
        return StillServing;
      }
      ghost var before := zones;
      zones := map z | z in zones :: if zones[z] == Some(id) then None else zones[z];
      forall other | other in accounts && other != id ensures ZonesOf(zones, other) == ZonesOf(before, other) {
      }
      accounts := accounts - {id};
      return Done;
    }

    /** Over every run of these operations the cached numbers are the real ones, and, while no call fails, the domains
        on Cloudflare are those that the operations done put and left there. */
    method Run(events: seq<Event>) returns (outcomes: seq<Outcome>)
      requires Valid() && forall e | e in events && e.AddAccount? :: e.maxZones >= 1
      modifies this
      ensures Valid() && |outcomes| == |events|
      ensures forall id | id in accounts :: accounts[id].zoneCount == |set z | z in zones && zones[z] == Some(id)|
      ensures false !in old(script) ==> zones.Keys == Served(old(zones).Keys, events, outcomes)
    {
      hide Counted, Even, CapsKept, FirstChoice, SamePool;
      outcomes := [];
      for i := 0 to |events|
        invariant Valid() && |outcomes| == i
        invariant false !in old(script) ==>
                  false !in script && zones.Keys == Served(old(zones).Keys, events[..i], outcomes)
      {
        var r := Handle(events[i], events);
        assert events[..i + 1][..i] == events[..i] && (outcomes + [r])[..i] == outcomes;
        outcomes := outcomes + [r];
      }
      assert events[..|events|] == events;
      CountedMeans();
    }

    lemma {:induction false} CountedMeans()
      requires Valid()
      ensures forall id | id in accounts :: accounts[id].zoneCount == |set z | z in zones && zones[z] == Some(id)|
    {
      forall id | id in accounts ensures accounts[id].zoneCount == |set z | z in zones && zones[z] == Some(id)| {
        assert ZonesOf(zones, id) == set z | z in zones && zones[z] == Some(id);
      }
    }

    method Handle(e: Event, ghost events: seq<Event>) returns (outcome: Outcome)
      requires Valid() && e in events && forall e' | e' in events && e'.AddAccount? :: e'.maxZones >= 1
      modifies this
      ensures Valid() && (false !in old(script) ==> false !in script)
      ensures match e
              case Enable(zone) => zones.Keys == old(zones).Keys + if outcome.Done? then {zone} else {}
              case Remove(zone) => zones.Keys == if outcome.Done? then old(zones).Keys - {zone} else old(zones).Keys
              case Terminate(names) =>
                (outcome.Done? ==> zones.Keys == old(zones).Keys - set z | z in names)
                && (false !in old(script) ==> outcome.Done?)
              case _ => zones.Keys == old(zones).Keys
    {
      hide Counted, Even, CapsKept, FirstChoice, SamePool;
      match e {
        case Enable(zone) => outcome := EnableZone(zone);
        case Remove(zone) => outcome := RemoveZone(zone);
        case Terminate(names) =>
          var gone;
          outcome, gone := TerminateZones(names);
          assert Elements(names) == set z | z in names;
        case Migrate =>
          var migrated := MigrateSingleToken();
          outcome := if migrated then Done else NotConfigured;
        case AddAccount(m) =>
          var id := AddOne(m);
          outcome := Done;
        case SetAccount(id, m, a) => outcome := Set(id, m, a);
        case DeleteAccount(id, force) => outcome := Delete(id, force);
      }
    }

    /** Enabling zone after zone, from a pool without zones or an even one, keeps it even and within its caps. */
    method EnableMany(names: seq<string>) returns (outcomes: seq<Outcome>)
      requires Valid()
      requires zones == map[]
               || (Even(accounts) && forall id | id in accounts :: accounts[id].zoneCount <= accounts[id].maxZones)
      modifies this`accounts, this`zones, this`script
      ensures Valid() && Even(accounts) && SamePool(old(accounts), accounts) && |outcomes| == |names|
      ensures forall id | id in accounts :: accounts[id].zoneCount <= accounts[id].maxZones
    {
      hide Even, CapsKept;
      outcomes := [];
      if zones == map[] {
        NoZonesIsEven(accounts);
      }
      for i := 0 to |names|
        invariant Valid() && Even(accounts) && SamePool(old(accounts), accounts) && |outcomes| == i
        invariant forall id | id in accounts :: accounts[id].zoneCount <= accounts[id].maxZones
      {
        ghost var before := accounts;
        var r := EnableZone(names[i]);
        outcomes := outcomes + [r];
        CapsStay(before, accounts);
      }
    }
  }

  /** The account chosen is one of the least loaded with room, so it does not run ahead. */
  lemma {:induction false} StaysEven(accounts: Accounts, zones: Zones, zone: string, picked: Option<nat>)
    requires picked.Some? ==> FirstChoice(accounts, picked.value)
    ensures picked.Some? && Even(accounts) ==>
              Even(accounts[picked.value := accounts[picked.value].(zoneCount := accounts[picked.value].zoneCount + 1)])
  {
  }

  lemma {:induction false} NoZonesIsEven(accounts: Accounts)
    requires Counted(accounts, map[])
    ensures Even(accounts) && forall id | id in accounts :: accounts[id].zoneCount == 0
  {
    forall id | id in accounts ensures accounts[id].zoneCount == 0 {
      assert ZonesOf(map[], id) == {};
    }
  }

  lemma {:induction false} CapsStay(before: Accounts, after: Accounts)
    requires SamePool(before, after) && CapsKept(before, after)
    requires forall id | id in before :: before[id].zoneCount <= before[id].maxZones
    ensures forall id | id in after :: after[id].zoneCount <= after[id].maxZones
  {
  }

  lemma {:induction false} OneZoneMore(accounts: Accounts, zones: Zones, zone: string, picked: Option<nat>)
    requires Counted(accounts, zones) && zone !in zones && (picked.Some? ==> picked.value in accounts)
    ensures var after := zones[zone := picked];
            (forall id | id in accounts ::
              |ZonesOf(after, id)| == accounts[id].zoneCount + if picked == Some(id) then 1 else 0)
            && forall z | z in after && after[z].Some? :: after[z].value in accounts
  {
    hide ZonesOf;
    forall id | id in accounts
      ensures |ZonesOf(zones[zone := picked], id)| == accounts[id].zoneCount + if picked == Some(id) then 1 else 0 {
      CountWith(zones, zone, picked, id);
    }
  }

  lemma {:induction false} CountWith(zones: Zones, zone: string, picked: Option<nat>, id: nat)
    requires zone !in zones
    ensures |ZonesOf(zones[zone := picked], id)| == |ZonesOf(zones, id)| + if picked == Some(id) then 1 else 0
  {
    assert ZonesOf(zones[zone := picked], id) == ZonesOf(zones, id) + if picked == Some(id) then {zone} else {};
  }

  lemma {:induction false} OneZoneLess(accounts: Accounts, zones: Zones, zone: string)
    requires Counted(accounts, zones) && zone in zones
    ensures var after := zones - {zone};
            (forall id | id in accounts ::
              |ZonesOf(after, id)| == accounts[id].zoneCount - if zones[zone] == Some(id) then 1 else 0)
            && forall z | z in after && after[z].Some? :: after[z].value in accounts
  {
    var after := zones - {zone};
    forall id | id in accounts
      ensures |ZonesOf(after, id)| == accounts[id].zoneCount - if zones[zone] == Some(id) then 1 else 0 {
      if zones[zone] == Some(id) {
        assert ZonesOf(zones, id) == ZonesOf(after, id) + {zone};
      } else {
        assert ZonesOf(after, id) == ZonesOf(zones, id);
      }
    }
  }
}
