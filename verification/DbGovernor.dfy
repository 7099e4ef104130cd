/** Native MariaDB account limits kept equal to durable policy: every change applies to all users first,
    undoes itself in reverse when one ALTER or the commit fails, and names what it could not undo
    (daemon/db_governor.py:93-206, 331-499). */
module DbGovernor {
  import opened Text

  datatype User = User(name: string, host: string)

  /** The limits MariaDB holds for a user; zero is unlimited. */
  datatype Limits = Limits(connections: nat, queries: nat, updates: nat, hourly: nat, time: real)

  datatype PolicyMode = MonitorOnly | EnforceLimits

  datatype GlobalMode = Paused | Monitor | Enforce

  datatype Policy = Policy(mode: PolicyMode, connections: Option<nat>, queries: Option<nat>, updates: Option<nat>,
                           hourly: Option<nat>, time: Option<real>)

  /** Refused is a validation error before anything is touched; RolledBack names the users whose prior
      limits could not be restored. */
  datatype Outcome = Done | Refused | RolledBack(named: set<User>)

  /** One planned ALTER: the limits to install, and those to put back. */
  datatype Op = Op(account: nat, user: User, target: Option<Policy>, previous: Option<Policy>)

  datatype Command = SetMode(mode: GlobalMode) | Save(account: nat, policy: Policy) | Reset(account: nat)
                   | Login(account: nat, user: User) | Reconcile(account: nat)

  /** One command and the fate of the external calls it makes. */
  datatype Step = Step(command: Command, script: seq<bool>)

  const UNLIMITED := Limits(0, 0, 0, 0, 0.0)

  function OrZero(v: Option<nat>): nat { match v case Some(n) => n case None => 0 }

  /** The native limits that a policy installs. */
  function Rendered(p: Option<Policy>): Limits {
    match p
    case None => UNLIMITED
    case Some(q) => Limits(OrZero(q.connections), OrZero(q.queries), OrZero(q.updates), OrZero(q.hourly),
                           match q.time { case Some(t) => t case None => 0.0 })
  }

  /** A build without MAX_STATEMENT_TIME can only install policies that do not set it. */
  predicate Installable(supported: bool, p: Option<Policy>) {
    supported || p.None? || p.value.time.None?
  }

  /** How many of the calls to come fail. */
  function Faults(script: seq<bool>): nat {
    if script == [] then 0 else (if script[0] then 0 else 1) + Faults(script[1..])
  }

  /** The policy that must be installed for an account (`_effective_enforced_policy`). */
  function Effective(mode: GlobalMode, policies: map<nat, Policy>, account: nat): Option<Policy> {
    if mode.Enforce? && account in policies && policies[account].mode.EnforceLimits? then Some(policies[account])
    else None
  }

  /** Each user belongs to one account. */
  ghost predicate Disjoint(users: map<nat, set<User>>) {
    forall a, b, u | a in users && b in users && u in users[a] && u in users[b] :: a == b
  }

  /** Every owned user outside `suspect` has exactly the limits of its account's effective policy. */
  ghost predicate Governed(native: map<User, Limits>, mode: GlobalMode, policies: map<nat, Policy>,
                           users: map<nat, set<User>>, suspect: set<User>) {
    forall a, u | a in users && u in users[a] ::
      u in native && (u in suspect || native[u] == Rendered(Effective(mode, policies, a)))
  }

  /** What is enforced for an account that has users can be installed. */
  ghost predicate Enforceable(supported: bool, mode: GlobalMode, policies: map<nat, Policy>,
                              users: map<nat, set<User>>) {
    forall a | a in users && users[a] != {} :: Installable(supported, Effective(mode, policies, a))
  }

  /** Limit for limit what the policy says, zero where it says nothing. */
  ghost predicate Holds(l: Limits, p: Policy) {
    match p
    case Policy(_, connections, queries, updates, hourly, time) =>
      l.connections == (if connections.Some? then connections.value else 0)
      && l.queries == (if queries.Some? then queries.value else 0)
      && l.updates == (if updates.Some? then updates.value else 0)
      && l.hourly == (if hourly.Some? then hourly.value else 0)
      && l.time == (if time.Some? then time.value else 0.0)
  }

  ghost predicate Unbound(l: Limits) {
    l.connections == 0 && l.queries == 0 && l.updates == 0 && l.hourly == 0 && l.time == 0.0
  }

  /** What the panel promises of a login: the limits of its account's policy while that is enforced and the governor
      enforces, and none otherwise. */
  ghost predicate Kept(l: Limits, mode: GlobalMode, policies: map<nat, Policy>, account: nat) {
    if mode == Enforce && account in policies && policies[account].mode == EnforceLimits
    then Holds(l, policies[account])
    else Unbound(l)
  }

  /** The promise is kept to every owned login outside `suspect`. */
  ghost predicate AllKept(native: map<User, Limits>, mode: GlobalMode, policies: map<nat, Policy>,
                          users: map<nat, set<User>>, suspect: set<User>) {
    forall a, u | a in users && u in users[a] && u !in suspect :: u in native && Kept(native[u], mode, policies, a)
  }

  lemma {:induction false} RenderedIsKept(mode: GlobalMode, policies: map<nat, Policy>, account: nat)
    ensures Kept(Rendered(Effective(mode, policies, account)), mode, policies, account)
  {
  }

  /** Governed logins are those to whom the promise is kept. */
  lemma {:induction false} GovernedIsKept(native: map<User, Limits>, mode: GlobalMode, policies: map<nat, Policy>,
                                          users: map<nat, set<User>>, suspect: set<User>)
    requires Governed(native, mode, policies, users, suspect)
    ensures AllKept(native, mode, policies, users, suspect)
  {
    hide Kept, Rendered, Effective;
    forall a, u | a in users && u in users[a] && u !in suspect
      ensures u in native && Kept(native[u], mode, policies, a) {
      RenderedIsKept(mode, policies, a);
    }
  }

  /** What survives a restart. */
  datatype Durable = Durable(mode: GlobalMode, policies: map<nat, Policy>, users: map<nat, set<User>>)

  /** What a command does to it when it goes through. */
  ghost function Carried(d: Durable, c: Command): Durable {
    match c
    case SetMode(m) => d.(mode := m)
    case Save(a, p) => d.(policies := d.policies[a := p])
    case Reset(a) => d.(policies := d.policies - {a})
    case Login(a, u) => d.(users := d.users[a := (if a in d.users then d.users[a] else {}) + {u}])
    case Reconcile(_) => d
  }

  /** The durable state after the commands that went through. */
  ghost function Replayed(d: Durable, steps: seq<Step>, through: seq<bool>): Durable
    requires |steps| == |through|
  {
    if steps == [] then d
    else
      var n := |steps| - 1;
      var before := Replayed(d, steps[..n], through[..n]);
      if through[n] then Carried(before, steps[n].command) else before
  }

  ghost predicate DistinctUsers(ops: seq<Op>) {
    forall i, j | 0 <= i < j < |ops| :: ops[i].user != ops[j].user
  }

  ghost predicate Mentions(ops: seq<Op>, u: User) {
    exists i :: 0 <= i < |ops| && ops[i].user == u
  }

  /** `native` differs from `before` at most for the users of `ops`. */
  ghost predicate OnlyUsers(before: map<User, Limits>, native: map<User, Limits>, ops: seq<Op>) {
    native.Keys == before.Keys && forall u | u in native && native[u] != before[u] :: Mentions(ops, u)
  }

  ghost predicate TargetsInstallable(supported: bool, ops: seq<Op>) {
    forall i | 0 <= i < |ops| :: Installable(supported, ops[i].target)
  }

  ghost predicate PreviousInstallable(supported: bool, ops: seq<Op>) {
    forall i | 0 <= i < |ops| :: Installable(supported, ops[i].previous)
  }

  /** No statement time is set where the build has none. */
  ghost predicate Portable(supported: bool, native: map<User, Limits>) {
    supported || forall u | u in native :: native[u].time == 0.0
  }

  function Owned(users: map<nat, set<User>>, account: nat): set<User> {
    if account in users then users[account] else {}
  }

  /** The plan touches every user of `accounts` once, to go from one durable state to another. */
  ghost predicate Plans(ops: seq<Op>, accounts: set<nat>, users: map<nat, set<User>>, mode: GlobalMode,
                        policies: map<nat, Policy>, newMode: GlobalMode, newPolicies: map<nat, Policy>) {
    DistinctUsers(ops)
    && (forall i | 0 <= i < |ops| ::
          ops[i].account in accounts && ops[i].user in Owned(users, ops[i].account)
          && ops[i].previous == Effective(mode, policies, ops[i].account)
          && ops[i].target == Effective(newMode, newPolicies, ops[i].account))
    && (forall a, u | a in accounts && u in Owned(users, a) :: Mentions(ops, u))
  }

  ghost predicate Known(native: map<User, Limits>, ops: seq<Op>) {
    forall i | 0 <= i < |ops| :: ops[i].user in native
  }

  class Governor {
    const supported: bool
    var native: map<User, Limits>
    var mode: GlobalMode
    var policies: map<nat, Policy>
    var users: map<nat, set<User>>
    var script: seq<bool>
    ghost var suspect: set<User>

    /** Only users named in an error that was raised, and not reconciled since, can disagree with policy. */
    ghost predicate Valid()
      reads this
    {
      Disjoint(users) && Governed(native, mode, policies, users, suspect)
      && Enforceable(supported, mode, policies, users)
      && Portable(supported, native)
    }

    constructor (supported: bool)
      ensures Valid() && native == map[] && mode == Monitor && policies == map[] && users == map[] && script == []
      ensures suspect == {}
      ensures this.supported == supported
    {
      this.supported := supported;
      native, mode, policies, users, script, suspect := map[], Monitor, map[], map[], [], {};
    }

    method Attempt() returns (ok: bool)
      modifies this`script
      ensures Faults(script) == Faults(old(script)) - if ok then 0 else 1
      ensures Faults(old(script)) == 0 ==> ok
    {
      ok := script == [] || script[0];
      script := if script == [] then [] else script[1..];
    }

    /** `_apply_user`: the portable limits in one ALTER, the statement time in a second one. */
    method ApplyUser(u: User, p: Option<Policy>) returns (ok: bool)
      requires u in native && (supported || native[u].time == 0.0)
      modifies this`native, this`script
      ensures native.Keys == old(native).Keys && native == old(native)[u := native[u]]
      ensures ok ==> native[u] == Rendered(p) && if p.Some? then Holds(native[u], p.value) else Unbound(native[u])
      ensures !ok ==> native[u] == old(native)[u] || native[u] == Rendered(p).(time := old(native)[u].time)
      ensures supported || native[u].time == 0.0
      ensures Faults(script) <= Faults(old(script))
      ensures !ok && Installable(supported, p) ==> Faults(script) < Faults(old(script))
      ensures Faults(old(script)) == 0 && Installable(supported, p) ==> ok
      ensures !Installable(supported, p) ==> !ok
    {
      ok := Attempt();
      if !ok {
        return;
      }
      ok := Attempt();
      if !ok {
        return;
      }
      var limits := Rendered(p);
      native := native[u := limits.(time := native[u].time)];
      if supported {
        ok := Attempt();
        if ok {
          native := native[u := limits];
        }
      } else {
        ok := Attempt();
        ok := ok && (p.None? || p.value.time.None?);
      }
    }

    /** Apply a plan in order; on a failure `applied` counts the operation that failed. */
    method ApplyAll(ops: seq<Op>) returns (ok: bool, applied: nat)
      requires DistinctUsers(ops) && Known(native, ops)
      requires Portable(supported, native)
      modifies this`native, this`script
      ensures applied <= |ops| && OnlyUsers(old(native), native, ops[..applied])
      ensures ok ==> applied == |ops| && forall i | 0 <= i < |ops| :: native[ops[i].user] == Rendered(ops[i].target)
      ensures ok ==> TargetsInstallable(supported, ops)
      ensures Portable(supported, native)
      ensures Faults(script) <= Faults(old(script))
      ensures !ok && TargetsInstallable(supported, ops) ==> Faults(script) < Faults(old(script))
    {
      applied := 0;
      ok := true;
      while applied < |ops|
        invariant applied <= |ops| && OnlyUsers(old(native), native, ops[..applied])
        invariant forall i | 0 <= i < applied ::
                  native[ops[i].user] == Rendered(ops[i].target) && Installable(supported, ops[i].target)
        invariant Portable(supported, native)
        invariant Faults(script) <= Faults(old(script))
      {
        var op := ops[applied];
        ghost var before := native;
        applied := applied + 1;
        ok := ApplyUser(op.user, op.target);
        OnlyOneMore(old(native), before, native, ops, applied - 1);
        if !ok {
          return;
        }
      }
    }

    /** Put the previous limits back, last one first, going on past failures. */
    method Undo(ops: seq<Op>) returns (named: set<User>)
      requires DistinctUsers(ops) && Known(native, ops)
      requires Portable(supported, native)
      modifies this`native, this`script
      ensures OnlyUsers(old(native), native, ops)
      ensures forall i | 0 <= i < |ops| && ops[i].user !in named :: native[ops[i].user] == Rendered(ops[i].previous)
      ensures forall u | u in named :: Mentions(ops, u)
      ensures Portable(supported, native) && Faults(script) <= Faults(old(script))
      ensures Faults(old(script)) == 0 && PreviousInstallable(supported, ops) ==> named == {}
    {
      named := {};
      var n := |ops|;
      assert ops[n..] == [];
      while n > 0
        invariant n <= |ops| && OnlyUsers(old(native), native, ops[n..])
        invariant forall i | n <= i < |ops| && ops[i].user !in named :: native[ops[i].user] == Rendered(ops[i].previous)
        invariant forall u | u in named :: Mentions(ops[n..], u)
        invariant Portable(supported, native)
        invariant Faults(script) <= Faults(old(script))
        invariant Faults(old(script)) == 0 && PreviousInstallable(supported, ops) ==> named == {}
      {
        n := n - 1;
        ghost var before := native;
        var ok := ApplyUser(ops[n].user, ops[n].previous);
        OnlyOneEarlier(old(native), before, native, ops, n);
        MentionsEarlier(ops, n);
        if !ok {
          named := named + {ops[n].user};
        }
      }
      assert ops[0..] == ops;
    }

    /** The saga every change runs: install the targets, then commit; whatever fails, put things back. */
    method Transition(ops: seq<Op>) returns (outcome: Outcome)
      requires DistinctUsers(ops) && Known(native, ops) && Portable(supported, native)
      requires forall i | 0 <= i < |ops| :: ops[i].user in suspect || native[ops[i].user] == Rendered(ops[i].previous)
      modifies this`native, this`script
      ensures !outcome.Refused? && OnlyUsers(old(native), native, ops) && Portable(supported, native)
      ensures outcome.Done? ==> TargetsInstallable(supported, ops)
      ensures outcome.Done? ==> forall i | 0 <= i < |ops| :: native[ops[i].user] == Rendered(ops[i].target)
      ensures outcome.RolledBack? ==>
                forall u | u in native && u !in outcome.named && u !in suspect :: native[u] == old(native)[u]
      ensures outcome.RolledBack? ==> forall u | u in outcome.named :: Mentions(ops, u)
      ensures Faults(script) <= Faults(old(script))
      ensures (outcome.RolledBack? && PreviousInstallable(supported, ops)
               && OneFailure(old(script), TargetsInstallable(supported, ops))) ==> outcome.named == {}
      ensures Faults(old(script)) == 0 && TargetsInstallable(supported, ops) ==> outcome.Done?
    {
      hide Rendered, Installable, Faults;
      var ok, applied := ApplyAll(ops);
      if ok {
        ok := Attempt();
      }
      if ok {
        assert ops[..applied] == ops;
        return Done;
      }
      ghost var dirty := native;
      assert PreviousInstallable(supported, ops) ==> PreviousInstallable(supported, ops[..applied]);
      var named := Undo(ops[..applied]);
      Restored(old(native), dirty, native, ops, applied, named, suspect);
      outcome := RolledBack(named);
    }

    method PlanFor(accounts: set<nat>, newMode: GlobalMode, newPolicies: map<nat, Policy>) returns (ops: seq<Op>)
      requires Disjoint(users)
      ensures Plans(ops, accounts, users, mode, policies, newMode, newPolicies)
    {
      ops := [];
      var left := accounts;
      while left != {}
        invariant left <= accounts
        invariant Plans(ops, accounts - left, users, mode, policies, newMode, newPolicies)
      {
        var a :| a in left;
        var owned := Owned(users, a);
        while owned != {}
          invariant owned <= Owned(users, a) && a in left
          invariant Planning(ops, accounts - left, a, Owned(users, a) - owned, users, mode, policies, newMode,
                             newPolicies)
        {
          var u :| u in owned;
          var op := Op(a, u, Effective(newMode, newPolicies, a), Effective(mode, policies, a));
          PlanOneMore(ops, op, accounts - left, a, Owned(users, a) - owned, users, mode, policies, newMode,
              newPolicies);
          assert Owned(users, a) - owned + {u} == Owned(users, a) - (owned - {u});
          ops := ops + [op];
          owned := owned - {u};
        }
        assert accounts - left + {a} == accounts - (left - {a});
        left := left - {a};
      }
      assert accounts - left == accounts;
    }

    /** What a change does, whatever fails: it happens and leaves exactly policy behind, or nothing durable
        changes and only the users it names can disagree with policy. */
    twostate predicate Settled(new outcome: Outcome, new newMode: GlobalMode, new newPolicies: map<nat, Policy>)
      reads this
    {
      users == old(users) && Faults(script) <= Faults(old(script))
      && match outcome
         case Done => mode == newMode && policies == newPolicies && suspect <= old(suspect)
         case Refused =>
           mode == old(mode) && policies == old(policies) && suspect == old(suspect) && native == old(native)
           && script == old(script)
         case RolledBack(named) => mode == old(mode) && policies == old(policies) && suspect == old(suspect) + named
    }

    method Change(ops: seq<Op>, ghost accounts: set<nat>, newMode: GlobalMode, newPolicies: map<nat, Policy>)
      returns (outcome: Outcome)
      requires Valid() && Plans(ops, accounts, users, mode, policies, newMode, newPolicies)
      requires forall a | a in users && a !in accounts ::
                Effective(newMode, newPolicies, a) == Effective(mode, policies, a)
      modifies this
      ensures Valid() && Settled(outcome, newMode, newPolicies) && !outcome.Refused?
      ensures outcome.Done? ==> forall a, u | a in accounts && u in Owned(users, a) :: u !in suspect
      ensures outcome.RolledBack? && OneFailure(old(script), TargetsInstallable(supported, ops)) ==> outcome.named == {}
      ensures Faults(old(script)) == 0 && TargetsInstallable(supported, ops) ==> outcome.Done?
    {
      PlanIsKnown(this, ops, accounts, newMode, newPolicies);
      outcome := Transition(ops);
      if outcome.Done? {
        GovernedAfter(old(native), native, ops, accounts, users, mode, policies, newMode, newPolicies, suspect,
            supported);
        mode, policies, suspect := newMode, newPolicies, suspect - OpUsers(ops);
      } else {
        suspect := suspect + outcome.named;
      }
    }

    /** `set_global_mode`: every account that has a policy moves from the old mode's limits to the new mode's. */
    method SetGlobalMode(newMode: GlobalMode) returns (outcome: Outcome)
      requires Valid()
      modifies this
      ensures Valid() && Settled(outcome, newMode, old(policies)) && !outcome.Refused?
      ensures outcome.Done? ==> forall a, u | a in policies && a in users && u in users[a] :: u !in suspect
      ensures AllKept(native, mode, policies, users, suspect)
      ensures outcome.RolledBack? && OneFailure(old(script), Enforceable(supported, newMode, policies, users)) ==>
                outcome.named == {}
      ensures Faults(old(script)) == 0 && Enforceable(supported, newMode, policies, users) ==> outcome.Done?
    {
      var ops := PlanFor(policies.Keys, newMode, policies);
      PlanInstallable(supported, ops, policies.Keys, users, mode, policies, newMode, policies);
      outcome := Change(ops, policies.Keys, newMode, policies);
      GovernedIsKept(native, mode, policies, users, suspect);
    }

    /** `save_policy`: MariaDB is touched only when limits are or become active for the account. */
    method SavePolicy(account: nat, target: Policy) returns (outcome: Outcome)
      requires Valid()
      modifies this
      ensures Valid() && Settled(outcome, old(mode), old(policies)[account := target])
      ensures outcome.Refused? <==> account !in users || users[account] == {}
      ensures outcome.Done? && mode.Enforce? && target.mode.EnforceLimits? ==>
                forall u | u in users[account] :: u !in suspect && u in native && Holds(native[u], target)
      ensures AllKept(native, mode, policies, users, suspect)
      ensures (outcome.RolledBack?
               && OneFailure(old(script), Enforceable(supported, old(mode), old(policies)[account := target], users)))
              ==> outcome.named == {}
      ensures Faults(old(script)) == 0 && Enforceable(supported, old(mode), old(policies)[account := target], users)
              ==> !outcome.RolledBack?
    {
      GovernedIsKept(native, mode, policies, users, suspect);
      if Owned(users, account) == {} {
        return Refused;
      }
      var newPolicies := policies[account := target];
      var touched := {};
      if Effective(mode, newPolicies, account).Some? || Effective(mode, policies, account).Some? {
        touched := {account};
      }
      var ops := PlanFor(touched, mode, newPolicies);
      PlanInstallable(supported, ops, touched, users, mode, policies, mode, newPolicies);
      outcome := Change(ops, touched, mode, newPolicies);
      GovernedIsKept(native, mode, policies, users, suspect);
    }

    /** `reset_policy`: lift the account's limits if they were active, then forget its policy. */
    method ResetPolicy(account: nat) returns (outcome: Outcome)
      requires Valid()
      modifies this
      ensures Valid() && Settled(outcome, old(mode), old(policies) - {account}) && !outcome.Refused?
      ensures outcome.Done? ==> account !in policies
      ensures AllKept(native, mode, policies, users, suspect)
      ensures outcome.RolledBack? && Faults(old(script)) <= 1 ==> outcome.named == {}
      ensures Faults(old(script)) == 0 ==> outcome.Done?
    {
      var newPolicies := policies - {account};
      var touched := if Effective(mode, policies, account).Some? then {account} else {};
      var ops := PlanFor(touched, mode, newPolicies);
      assert TargetsInstallable(supported, ops);
      outcome := Change(ops, touched, mode, newPolicies);
      GovernedIsKept(native, mode, policies, users, suspect);
    }

    /** A new login with the limits of a policy; without one it is created unlimited. */
    method Create(u: User, policy: Option<Policy>) returns (created: bool, ok: bool)
      requires u !in native
      modifies this`native, this`script
      ensures native - {u} == old(native) && (created <==> u in native) && (ok ==> created)
      ensures !created ==> native == old(native)
      ensures created ==> supported || native[u].time == 0.0
      ensures ok ==> native == old(native)[u := Rendered(policy)] && Installable(supported, policy)
      ensures Faults(script) <= Faults(old(script))
      ensures !ok ==> Faults(old(script)) > 0 || !Installable(supported, policy)
    {
      hide Faults;
      ok := Attempt();
      if !ok {
        return false, false;
      }
      created := true;
      native := native[u := UNLIMITED];
      if policy.Some? {
        ok := ApplyUser(u, policy);
      }
    }

    /** `apply_new_user` and its callers: a login gets its account's limits before it is recorded, or it is dropped. */
    method AddUser(account: nat, u: User) returns (ok: bool)
      requires Valid()
      modifies this
      ensures Valid() && mode == old(mode) && policies == old(policies) && suspect == old(suspect)
      ensures ok ==> u !in old(native) && account in users && u in users[account]
      ensures ok ==> Durable(mode, policies, users) == Carried(old(Durable(mode, policies, users)), Login(account, u))
      ensures ok ==> u in native && native - {u} == old(native) && Kept(native[u], mode, policies, account)
      ensures !ok ==> users == old(users) && native - {u} == old(native) - {u}
      ensures !ok ==>
                u in old(native) || Faults(old(script)) > 0
                || !Installable(supported, Effective(mode, policies, account))
    {
      hide Governed, Disjoint, Enforceable, Portable, Effective, Installable, Rendered, Faults, Kept;
      if u in native {
        return false;
      }
      var policy := Effective(mode, policies, account);
      var created;
      created, ok := Create(u, policy);
      if !created {
        return;
      }
      if ok {
        ok := Attempt();
      }
      if ok {
        GovernedWith(old(native), mode, policies, users, suspect, account, u, supported);
        users := users[account := Owned(users, account) + {u}];
        assert native == old(native)[u := Rendered(policy)];
        assert native - {u} == old(native);
        RenderedIsKept(mode, policies, account);
      } else {
        var dropped := Attempt();
        if dropped {
          native := native - {u};
        }
        StrangerIgnored(old(native), native, mode, policies, users, suspect, u, supported);
      }
    }

    /** `reconcile_account`: install the effective limits again, stopping at the first failure. */
    method ReconcileAccount(account: nat) returns (ok: bool)
      requires Valid()
      modifies this`native, this`script, this`suspect
      ensures Valid() && suspect <= old(suspect) && Faults(script) <= Faults(old(script))
      ensures ok && account in users ==>
                forall u | u in users[account] ::
                  u !in suspect && u in native && Kept(native[u], mode, policies, account)
      ensures Faults(old(script)) == 0 ==> ok
    {
      ok := true;
      var policy := Effective(mode, policies, account);
      var left := Owned(users, account);
      assert left != {} ==> Installable(supported, policy);
      while left != {}
        invariant Valid() && suspect <= old(suspect) && Faults(script) <= Faults(old(script))
        invariant left <= Owned(users, account) && (Owned(users, account) - left) !! suspect
        invariant left != {} ==> Installable(supported, policy)
        decreases left
      {
        var u :| u in left;
        left := left - {u};
        ok := ApplyUser(u, policy);
        if !ok {
          return;
        }
        suspect := suspect - {u};
      }
    }

    /** `reconcile_all`: whatever was left in doubt, a pass without failures puts every owned user in order. */
    method ReconcileAll() returns (failed: set<nat>)
      requires Valid()
      modifies this`native, this`script, this`suspect
      ensures Valid() && suspect <= old(suspect)
      ensures forall a | a in users && a !in failed :: users[a] !! suspect
      ensures AllKept(native, mode, policies, users, suspect)
      ensures Faults(old(script)) == 0 ==> failed == {}
    {
      failed := {};
      var left := users.Keys;
      while left != {}
        invariant Valid() && suspect <= old(suspect) && Faults(script) <= Faults(old(script)) && left <= users.Keys
        invariant forall a | a in users && a !in failed && a !in left :: users[a] !! suspect
        invariant Faults(old(script)) == 0 ==> failed == {}
      {
        var a :| a in left;
        left := left - {a};
        var ok := ReconcileAccount(a);
        if !ok {
          failed := failed + {a};
        }
      }
      GovernedIsKept(native, mode, policies, users, suspect);
    }

    /** Over every run of commands: the durable state is what the commands that went through made of it, an owned login
        that no raised error has named has, limit for limit, what that state promises, and on a build that takes every
        limit nothing is named while each command meets one failure at most. */
    method Run(steps: seq<Step>) returns (reported: set<User>, through: seq<bool>)
      requires Valid()
      modifies this
      ensures Valid() && suspect <= old(suspect) + reported
      ensures |through| == |steps|
      ensures Durable(mode, policies, users) == Replayed(old(Durable(mode, policies, users)), steps, through)
      ensures AllKept(native, mode, policies, users, old(suspect) + reported)
      ensures supported && (forall i | 0 <= i < |steps| :: Faults(steps[i].script) <= 1) ==> reported == {}
    {
      hide Valid, Faults, AllKept, Carried;
      reported, through := {}, [];
      for n := 0 to |steps|
        invariant Valid() && suspect <= old(suspect) + reported && |through| == n
        invariant Durable(mode, policies, users) == Replayed(old(Durable(mode, policies, users)), steps[..n], through)
        invariant supported && (forall i | 0 <= i < |steps| :: Faults(steps[i].script) <= 1) ==> reported == {}
      {
        var named, done := Perform(steps[n]);
        assert steps[..n + 1][..n] == steps[..n] && (through + [done])[..n] == through;
        reported, through := reported + named, through + [done];
      }
      assert steps[..|steps|] == steps;
      Promised(suspect, old(suspect) + reported);
    }

    lemma Promised(suspect: set<User>, all: set<User>)
      requires Valid() && this.suspect == suspect <= all
      ensures AllKept(native, mode, policies, users, all)
    {
      GovernedIsKept(native, mode, policies, users, suspect);
    }

    /** One command under its own faults; `done` says that it went through. */
    method Perform(step: Step) returns (named: set<User>, done: bool)
      requires Valid()
      modifies this
      ensures Valid() && suspect <= old(suspect) + named
      ensures var was := old(Durable(mode, policies, users));
              Durable(mode, policies, users) == if done then Carried(was, step.command) else was
      ensures supported && Faults(step.script) <= 1 ==> named == {}
      ensures (supported && Faults(step.script) == 0) ==>
                (done <==> match step.command
                           case Save(a, _) => a in old(users) && old(users)[a] != {}
                           case Login(_, u) => u !in old(native)
                           case _ => true)
    {
      script := step.script;
      var outcome := Done;
      done := true;
      match step.command {
        case SetMode(m) => outcome := SetGlobalMode(m);
        case Save(account, policy) => outcome := SavePolicy(account, policy);
        case Reset(account) => outcome := ResetPolicy(account);
        case Login(account, u) => done := AddUser(account, u);
        case Reconcile(account) => done := ReconcileAccount(account);
      }
      done := done && outcome.Done?;
      named := if outcome.RolledBack? then outcome.named else {};
    }
  }

  /** A single failure: one call to come fails, or the build refuses the new limits, not both. */
  ghost predicate OneFailure(script: seq<bool>, enforceable: bool) {
    Faults(script) + (if enforceable then 0 else 1) <= 1
  }

  lemma {:induction false} GovernedWith(native: map<User, Limits>, mode: GlobalMode, policies: map<nat, Policy>,
                                        users: map<nat, set<User>>, suspect: set<User>, account: nat, u: User,
                                        supported: bool)
    requires Disjoint(users) && Governed(native, mode, policies, users, suspect)
    requires Enforceable(supported, mode, policies, users)
    requires Portable(supported, native) && u !in native && Installable(supported, Effective(mode, policies, account))
    ensures var users' := users[account := Owned(users, account) + {u}];
            var native' := native[u := Rendered(Effective(mode, policies, account))];
            Disjoint(users') && Governed(native', mode, policies, users', suspect)
            && Enforceable(supported, mode, policies, users')
            && Portable(supported, native')
  {
    var users' := users[account := Owned(users, account) + {u}];
    forall a, v | a in users' && v in users'[a]
      ensures (v == u && a == account) || (a in users && v in users[a] && v in native) {
    }
  }

  /** A login that no account owns changes nothing for the others. */
  lemma {:induction false} StrangerIgnored(native: map<User, Limits>, after: map<User, Limits>, mode: GlobalMode,
                                           policies: map<nat, Policy>, users: map<nat, set<User>>, suspect: set<User>,
                                           u: User, supported: bool)
    requires Governed(native, mode, policies, users, suspect) && Portable(supported, native) && u !in native
    requires after - {u} == native && (supported || u !in after || after[u].time == 0.0)
    ensures Governed(after, mode, policies, users, suspect) && Portable(supported, after)
  {
    forall v | v in native ensures v in after && after[v] == native[v] {
      assert v in after - {u};
    }
    forall v | v in after && v != u ensures v in native {
      assert v in after - {u};
    }
  }

  lemma {:induction false} PlanInstallable(supported: bool, ops: seq<Op>, accounts: set<nat>,
                                           users: map<nat, set<User>>, mode: GlobalMode, policies: map<nat, Policy>,
                                           newMode: GlobalMode, newPolicies: map<nat, Policy>)
    requires Plans(ops, accounts, users, mode, policies, newMode, newPolicies)
    ensures Enforceable(supported, newMode, newPolicies, users) ==> TargetsInstallable(supported, ops)
  {
    if Enforceable(supported, newMode, newPolicies, users) {
      forall i | 0 <= i < |ops| ensures Installable(supported, ops[i].target) {
        assert ops[i].account in users && ops[i].user in users[ops[i].account];
      }
    }
  }

  lemma {:induction false} OnlyOneMore(start: map<User, Limits>, before: map<User, Limits>, after: map<User, Limits>,
                                       ops: seq<Op>, n: nat)
    requires n < |ops| && OnlyUsers(start, before, ops[..n]) && ops[n].user in before
    requires after.Keys == before.Keys && after == before[ops[n].user := after[ops[n].user]]
    ensures OnlyUsers(start, after, ops[..n + 1])
  {
    forall u | u in after && after[u] != start[u] ensures Mentions(ops[..n + 1], u) {
      if u == ops[n].user {
        assert ops[..n + 1][n].user == u;
      } else {
        var i :| 0 <= i < |ops[..n]| && ops[..n][i].user == u;
        assert ops[..n + 1][i].user == u;
      }
    }
  }

  lemma {:induction false} OnlyOneEarlier(start: map<User, Limits>, before: map<User, Limits>, after: map<User, Limits>,
                                          ops: seq<Op>, n: nat)
    requires n < |ops| && OnlyUsers(start, before, ops[n + 1..]) && ops[n].user in before
    requires after.Keys == before.Keys && after == before[ops[n].user := after[ops[n].user]]
    ensures OnlyUsers(start, after, ops[n..])
  {
    forall u | u in after && after[u] != start[u] ensures Mentions(ops[n..], u) {
      if u == ops[n].user {
        assert ops[n..][0].user == u;
      } else {
        var i :| 0 <= i < |ops[n + 1..]| && ops[n + 1..][i].user == u;
        assert ops[n..][i + 1].user == u;
      }
    }
  }

  function OpUsers(ops: seq<Op>): set<User> { set i | 0 <= i < |ops| :: ops[i].user }

  /** A plan under construction: all of `finished`, and the users `part` of account `a`. */
  ghost predicate Planning(ops: seq<Op>, finished: set<nat>, a: nat, part: set<User>, users: map<nat, set<User>>,
                           mode: GlobalMode, policies: map<nat, Policy>, newMode: GlobalMode,
                           newPolicies: map<nat, Policy>) {
    DistinctUsers(ops)
    && (forall i | 0 <= i < |ops| ::
          ((ops[i].account in finished && ops[i].user in Owned(users, ops[i].account))
           || (ops[i].account == a && ops[i].user in part))
          && ops[i].previous == Effective(mode, policies, ops[i].account)
          && ops[i].target == Effective(newMode, newPolicies, ops[i].account))
    && (forall b, u | b in finished && u in Owned(users, b) :: Mentions(ops, u))
    && (forall u | u in part :: Mentions(ops, u))
  }

  lemma {:induction false} MentionsMore(ops: seq<Op>, op: Op, u: User)
    ensures Mentions(ops + [op], u) == (Mentions(ops, u) || u == op.user)
  {
    if Mentions(ops, u) {
      var i :| 0 <= i < |ops| && ops[i].user == u;
      assert (ops + [op])[i].user == u;
    }
    if u == op.user {
      assert (ops + [op])[|ops|].user == u;
    }
  }

  lemma {:induction false} PlanOneMore(ops: seq<Op>, op: Op, finished: set<nat>, a: nat, part: set<User>,
                                       users: map<nat, set<User>>, mode: GlobalMode, policies: map<nat, Policy>,
                                       newMode: GlobalMode, newPolicies: map<nat, Policy>)
    requires Planning(ops, finished, a, part, users, mode, policies, newMode, newPolicies) && a !in finished
    requires Disjoint(users)
    requires op == Op(a, op.user, Effective(newMode, newPolicies, a), Effective(mode, policies, a))
    requires op.user in Owned(users, a) && op.user !in part && part <= Owned(users, a)
    ensures Planning(ops + [op], finished, a, part + {op.user}, users, mode, policies, newMode, newPolicies)
  {
    forall u ensures Mentions(ops + [op], u) == (Mentions(ops, u) || u == op.user) {
      MentionsMore(ops, op, u);
    }
    forall i | 0 <= i < |ops| && ops[i].account in finished ensures ops[i].user !in Owned(users, a) {
      assert ops[i].account in users && ops[i].user in users[ops[i].account] && ops[i].account != a;
    }
  }

  lemma {:induction false} MentionsEarlier(ops: seq<Op>, n: nat)
    requires n < |ops|
    ensures forall u :: Mentions(ops[n..], u) == (u == ops[n].user || Mentions(ops[n + 1..], u))
  {
    forall u ensures Mentions(ops[n..], u) == (u == ops[n].user || Mentions(ops[n + 1..], u)) {
      if u == ops[n].user {
        assert ops[n..][0].user == u;
      }
      if Mentions(ops[n + 1..], u) {
        var i :| 0 <= i < |ops[n + 1..]| && ops[n + 1..][i].user == u;
        assert ops[n..][i + 1].user == u;
      }
      if Mentions(ops[n..], u) && u != ops[n].user {
        var i :| 0 <= i < |ops[n..]| && ops[n..][i].user == u;
        assert ops[n + 1..][i - 1].user == u;
      }
    }
  }

  /** Undoing the applied part of a plan brings every user back that was in order and is not named. */
  lemma {:induction false} Restored(start: map<User, Limits>, dirty: map<User, Limits>, after: map<User, Limits>,
                                    ops: seq<Op>, applied: nat, named: set<User>, suspect: set<User>)
    requires applied <= |ops| && OnlyUsers(start, dirty, ops[..applied]) && OnlyUsers(dirty, after, ops[..applied])
    requires Known(start, ops)
    requires forall i | 0 <= i < |ops| :: ops[i].user in suspect || start[ops[i].user] == Rendered(ops[i].previous)
    requires forall i | 0 <= i < applied && ops[i].user !in named :: after[ops[i].user] == Rendered(ops[i].previous)
    requires forall u | u in named :: Mentions(ops[..applied], u)
    ensures OnlyUsers(start, after, ops)
    ensures forall u | u in after && u !in named && u !in suspect :: after[u] == start[u]
    ensures forall u | u in named :: Mentions(ops, u)
  {
    forall u | Mentions(ops[..applied], u)
      ensures Mentions(ops, u) && (u !in named && u !in suspect && u in after ==> after[u] == start[u]) {
      var i :| 0 <= i < applied && ops[..applied][i].user == u;
      assert ops[i].user == u;
    }
  }

  lemma {:induction false} PlanIsKnown(g: Governor, ops: seq<Op>, accounts: set<nat>, newMode: GlobalMode,
                                       newPolicies: map<nat, Policy>)
    requires g.Valid() && Plans(ops, accounts, g.users, g.mode, g.policies, newMode, newPolicies)
    ensures Known(g.native, ops) && PreviousInstallable(g.supported, ops)
    ensures forall i | 0 <= i < |ops| :: ops[i].user in g.suspect || g.native[ops[i].user] == Rendered(ops[i].previous)
  {
    forall i | 0 <= i < |ops|
      ensures ops[i].user in g.native && Installable(g.supported, ops[i].previous)
      ensures ops[i].user in g.suspect || g.native[ops[i].user] == Rendered(ops[i].previous)
    {
      assert ops[i].account in g.users && ops[i].user in g.users[ops[i].account];
    }
  }

  /** A plan carried out leaves the new durable state governed, and its users no longer in doubt. */
  lemma {:induction false} GovernedAfter(before: map<User, Limits>, after: map<User, Limits>, ops: seq<Op>,
                                         accounts: set<nat>, users: map<nat, set<User>>, mode: GlobalMode,
                                         policies: map<nat, Policy>, newMode: GlobalMode, newPolicies: map<nat, Policy>,
                                         suspect: set<User>, supported: bool)
    requires Plans(ops, accounts, users, mode, policies, newMode, newPolicies) && Disjoint(users)
    requires OnlyUsers(before, after, ops)
    requires Governed(before, mode, policies, users, suspect) && Enforceable(supported, mode, policies, users)
    requires Known(before, ops) && TargetsInstallable(supported, ops)
    requires forall i | 0 <= i < |ops| :: after[ops[i].user] == Rendered(ops[i].target)
    requires forall a | a in users && a !in accounts ::
              Effective(newMode, newPolicies, a) == Effective(mode, policies, a)
    ensures Governed(after, newMode, newPolicies, users, suspect - OpUsers(ops))
    ensures Enforceable(supported, newMode, newPolicies, users)
    ensures forall a, u | a in accounts && u in Owned(users, a) :: u in OpUsers(ops)
  {
    forall a, u | a in users && u in users[a]
      ensures u in after && (u in suspect - OpUsers(ops) || after[u] == Rendered(Effective(newMode, newPolicies, a)))
    {
      if Mentions(ops, u) {
        var i :| 0 <= i < |ops| && ops[i].user == u;
        assert ops[i].account in users && ops[i].account == a;
      } else {
        assert a !in accounts && forall i | 0 <= i < |ops| :: ops[i].user != u;
      }
    }
    forall a | a in users && users[a] != {} ensures Installable(supported, Effective(newMode, newPolicies, a)) {
      var u :| u in users[a];
      if a in accounts {
        assert u in Owned(users, a) && Mentions(ops, u);
        var i :| 0 <= i < |ops| && ops[i].user == u;
        assert ops[i].account == a;
      }
    }
    forall a, u | a in accounts && u in Owned(users, a) ensures u in OpUsers(ops) {
      assert Mentions(ops, u);
      var i :| 0 <= i < |ops| && ops[i].user == u;
    }
  }
}
