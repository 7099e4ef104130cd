/** The sliding-window limiter (api/ratelimit.py): pruned queues and a periodic sweep decide exactly as a limiter
    that keeps every admission forever, and no window ever admits more than its tier's limit. */
module RateLimit {
  import opened Text

  datatype Tier = Login | PasswordReset | Authed | Unauthed

  /** One bucket: an address in a tier, or a credential in the authenticated tier. */
  datatype Key = Ip(tier: Tier, bucket: string) | Credential(fingerprint: string)

  /** The address is already grouped into its bucket, the credential already fingerprinted. */
  datatype Request = Request(path: string, post: bool, bucket: string, credential: Option<string>)

  /** Pending: the address was charged and the credential is still to be checked; Idle: nobody was waiting. */
  datatype Outcome = Exempt | Idle | Admitted(tier: Tier) | Rejected(tier: Tier, retryAfter: real) | Pending

  datatype Waiter = Waiter(request: Request, since: real)

  /** One acquisition of the limiter's lock: a request's first check, or the second one of a waiting request. */
  datatype Step = Arrive(id: nat, request: Request, now: real) | Continue(id: nat, now: real)

  /** Every admission ever made, key by key. */
  type Log = map<Key, seq<real>>

  const SWEEP_EVERY := 4096
  const HORIZON := 3600.0

  function Limit(t: Tier): nat {
    match t case Login => 10 case PasswordReset => 5 case Authed => 300 case Unauthed => 30
  }

  function Window(t: Tier): real {
    match t case Login => 300.0 case PasswordReset => 3600.0 case Authed => 60.0 case Unauthed => 60.0
  }

  function TierOf(k: Key): Tier { match k case Ip(t, _) => t case Credential(_) => Authed }

  function At(log: Log, k: Key): seq<real> { if k in log then log[k] else [] }

  predicate IsExempt(path: string) {
    "/healthz" <= path || "/static/" <= path || path == "/static"
  }

  /** The tier of a request that is not exempt. */
  function Classify(r: Request): Tier {
    if r.post && r.path in {"/login", "/login/2fa"} then Login
    else if r.post && r.path == "/change-password" then PasswordReset
    else if r.credential.Some? then Authed
    else Unauthed
  }

  function IpKey(r: Request): Key { Ip(Classify(r), r.bucket) }

  // The limiter that forgets nothing.

  /** How many entries of `s` lie in the half-open window (lo, hi]. */
  function Count(s: seq<real>, lo: real, hi: real): nat {
    if s == [] then 0 else Count(s[..|s| - 1], lo, hi) + if lo < s[|s| - 1] <= hi then 1 else 0
  }

  predicate Admits(log: Log, k: Key, now: real) {
    Count(At(log, k), now - Window(TierOf(k)), now) < Limit(TierOf(k))
  }

  function Charge(log: Log, k: Key, now: real): Log { log[k := At(log, k) + [now]] }

  /** The wait until the limit-th latest admission leaves the window, never below a millisecond. */
  function RetryAfter(s: seq<real>, t: Tier, now: real): real {
    if |s| < Limit(t) then 0.001
    else var wait := s[|s| - Limit(t)] + Window(t) - now; if wait < 0.001 then 0.001 else wait
  }

  function Verdict(log: Log, k: Key, now: real): Outcome {
    if Admits(log, k, now) then Admitted(TierOf(k)) else Rejected(TierOf(k), RetryAfter(At(log, k), TierOf(k), now))
  }

  datatype State = State(log: Log, waiting: map<nat, Waiter>)

  /** What one lock acquisition does when nothing is ever pruned. */
  function Next(s: State, step: Step): (State, Outcome) {
    match step
    case Arrive(id, r, now) =>
      if IsExempt(r.path) then (s, Exempt)
      else if !Admits(s.log, IpKey(r), now) then (s, Verdict(s.log, IpKey(r), now))
      else
        var log := Charge(s.log, IpKey(r), now);
        if Classify(r).Authed? then (State(log, s.waiting[id := Waiter(r, now)]), Pending)
        else (State(log, s.waiting), Admitted(Classify(r)))
    case Continue(id, now) =>
      if id !in s.waiting then (s, Idle)
      else
        var k := CredentialKey(s.waiting[id].request);
        var log := if Admits(s.log, k, now) then Charge(s.log, k, now) else s.log;
        (State(log, s.waiting - {id}), Verdict(s.log, k, now))
  }

  function CredentialKey(r: Request): Key {
    match r.credential case Some(f) => Credential(f) case None => IpKey(r)
  }

  function Replay(s: State, steps: seq<Step>): (r: (State, seq<Outcome>))
    decreases |steps|
  {
    if steps == [] then (s, [])
    else
      var first := Next(s, steps[0]);
      var rest := Replay(first.0, steps[1..]);
      (rest.0, [first.1] + rest.1)
  }

  /** The clock does not run backwards from one lock acquisition to the next. */
  ghost predicate Ticking(steps: seq<Step>, last: real) {
    steps == [] || (last <= steps[0].now && Ticking(steps[1..], steps[0].now))
  }

  // Facts about logs.

  ghost predicate Sorted(s: seq<real>, last: real) {
    (forall i, j | 0 <= i < j < |s| :: s[i] <= s[j]) && forall i | 0 <= i < |s| :: s[i] <= last
  }

  /** An admission and the limit-th one after it are a whole window apart. */
  ghost predicate Spaced(s: seq<real>, limit: nat, window: real) {
    forall i, j | 0 <= i && j == i + limit && j < |s| :: s[i] + window <= s[j]
  }

  ghost predicate Regular(s: seq<real>, t: Tier, last: real) {
    Sorted(s, last) && Spaced(s, Limit(t), Window(t))
  }

  ghost predicate RegularLog(log: Log, last: real) {
    forall k :: Regular(At(log, k), TierOf(k), last)
  }

  /** `kept` is the end of `s`, and what is missing is too old to matter after `cutoff`. */
  ghost predicate Prunes(kept: seq<real>, s: seq<real>, cutoff: real) {
    |kept| <= |s| && kept == s[|s| - |kept|..] && forall i | 0 <= i < |s| - |kept| :: s[i] <= cutoff
  }

  lemma {:induction false} CountAtMost(s: seq<real>, n: nat, lo: real, hi: real)
    requires n <= |s| && forall i | 0 <= i < n :: s[i] <= lo
    ensures Count(s, lo, hi) <= |s| - n
  {
    if n < |s| {
      CountAtMost(s[..|s| - 1], n, lo, hi);
    } else if s != [] {
      CountAtMost(s[..|s| - 1], n - 1, lo, hi);
    }
  }

  lemma {:induction false} CountAtLeast(s: seq<real>, n: nat, lo: real, hi: real)
    requires n <= |s| && forall i | n <= i < |s| :: lo < s[i] <= hi
    ensures Count(s, lo, hi) >= |s| - n
  {
    if n < |s| {
      CountAtLeast(s[..|s| - 1], n, lo, hi);
    }
  }

  /** No half-open window of the tier's length holds more than the tier's limit. */
  lemma {:induction false} WindowBound(s: seq<real>, t: Tier, last: real, end: real)
    requires Regular(s, t, last)
    ensures Count(s, end - Window(t), end) <= Limit(t)
  {
    if |s| > Limit(t) {
      if s[|s| - 1] <= end {
        var i := |s| - 1 - Limit(t);
        assert s[i] + Window(t) <= s[|s| - 1];
        CountAtMost(s, i + 1, end - Window(t), end);
      } else {
        assert Regular(s[..|s| - 1], t, last);
        WindowBound(s[..|s| - 1], t, last, end);
      }
    } else {
      CountAtMost(s, 0, end - Window(t), end);
    }
  }

  /** A rejected request is admitted after waiting `d` exactly when the limit-th latest admission has expired. */
  lemma {:induction false} RetryIsExact(s: seq<real>, t: Tier, now: real, d: real)
    requires Regular(s, t, now) && d >= 0.0
    requires Count(s, now - Window(t), now) >= Limit(t)
    ensures |s| >= Limit(t) && s[|s| - Limit(t)] + Window(t) - now > 0.0
    ensures Count(s, now + d - Window(t), now + d) < Limit(t) <==> d >= s[|s| - Limit(t)] + Window(t) - now
  {
    CountAtMost(s, 0, now - Window(t), now);
    var n := |s| - Limit(t);
    if s[n] <= now - Window(t) {
      CountAtMost(s, n + 1, now - Window(t), now);
    }
    if s[n] <= now + d - Window(t) {
      CountAtMost(s, n + 1, now + d - Window(t), now + d);
    } else {
      CountAtLeast(s, n, now + d - Window(t), now + d);
    }
  }

  /** A pruned queue whose head is live holds exactly the admissions of the current window. */
  lemma {:induction false} PrunedCount(kept: seq<real>, s: seq<real>, t: Tier, now: real)
    requires Regular(s, t, now) && Prunes(kept, s, now - Window(t)) && (kept == [] || kept[0] > now - Window(t))
    ensures Count(s, now - Window(t), now) == |kept| && |kept| <= Limit(t)
  {
    var n := |s| - |kept|;
    CountAtMost(s, n, now - Window(t), now);
    forall i | n <= i < |s| ensures now - Window(t) < s[i] <= now {
      assert s[n] == kept[0];
    }
    CountAtLeast(s, n, now - Window(t), now);
    WindowBound(s, t, now, now);
  }

  lemma {:induction false} ChargeKeepsRegular(s: seq<real>, t: Tier, last: real, now: real)
    requires Regular(s, t, last) && last <= now && Count(s, now - Window(t), now) < Limit(t)
    ensures Regular(s + [now], t, now)
  {
    var more := s + [now];
    forall i, j | 0 <= i && j == i + Limit(t) && j < |more| ensures more[i] + Window(t) <= more[j] {
      if j == |s| && s[i] > now - Window(t) {
        CountAtLeast(s, i, now - Window(t), now);
      }
    }
  }

  lemma {:induction false} LogStaysRegular(log: Log, last: real, k: Key, now: real)
    requires RegularLog(log, last) && last <= now
    ensures RegularLog(log, now)
    ensures Admits(log, k, now) ==> RegularLog(Charge(log, k, now), now)
  {
    hide Count;
    forall q ensures Regular(At(log, q), TierOf(q), now) {
      assert Regular(At(log, q), TierOf(q), last);
    }
    if Admits(log, k, now) {
      forall q ensures Regular(At(Charge(log, k, now), q), TierOf(q), now) {
        assert Regular(At(log, q), TierOf(q), now);
        if q == k {
          ChargeKeepsRegular(At(log, q), TierOf(q), now, now);
        }
      }
    }
  }

  // What every run admits.

  ghost function End(s: State, steps: seq<Step>): State { Replay(s, steps).0 }

  /** The key that a step charges, if any. */
  ghost function Charges(s: State, step: Step): Option<Key> {
    match step
    case Arrive(_, r, now) => if !IsExempt(r.path) && Admits(s.log, IpKey(r), now) then Some(IpKey(r)) else None
    case Continue(id, now) =>
      if id in s.waiting && Admits(s.log, CredentialKey(s.waiting[id].request), now)
      then Some(CredentialKey(s.waiting[id].request)) else None
  }

  /** How many steps of a run charge `k` within (lo, hi]. */
  ghost function Charged(s: State, steps: seq<Step>, k: Key, lo: real, hi: real): nat
    decreases |steps|
  {
    if steps == [] then 0
    else (if Charges(s, steps[0]) == Some(k) && lo < steps[0].now <= hi then 1 else 0)
         + Charged(Next(s, steps[0]).0, steps[1..], k, lo, hi)
  }

  /** How many requests from address bucket `b` that arrived within (lo, hi] the authenticated tier admits. */
  ghost function GrantedToAddress(s: State, steps: seq<Step>, b: string, lo: real, hi: real): nat
    decreases |steps|
  {
    if steps == [] then 0
    else (if Next(s, steps[0]).1 == Admitted(Authed) && Finishes(s.waiting, steps[0].id, b, lo, hi) then 1 else 0)
         + GrantedToAddress(Next(s, steps[0]).0, steps[1..], b, lo, hi)
  }

  ghost predicate Finishes(waiting: map<nat, Waiter>, id: nat, b: string, lo: real, hi: real) {
    id in waiting && waiting[id].request.bucket == b && lo < waiting[id].since <= hi
  }

  ghost function Waiters(waiting: map<nat, Waiter>, b: string, lo: real, hi: real): set<nat> {
    set id | id in waiting && Finishes(waiting, id, b, lo, hi)
  }

  lemma {:induction false} CountMore(s: seq<real>, now: real, lo: real, hi: real)
    ensures Count(s + [now], lo, hi) == Count(s, lo, hi) + if lo < now <= hi then 1 else 0
  {
    assert (s + [now])[..|s|] == s;
  }

  lemma {:induction false} StepCharges(s: State, step: Step, k: Key, lo: real, hi: real)
    ensures Count(At(Next(s, step).0.log, k), lo, hi)
            == Count(At(s.log, k), lo, hi) + if Charges(s, step) == Some(k) && lo < step.now <= hi then 1 else 0
  {
    hide Admits, Verdict, IsExempt, Count;
    CountMore(At(s.log, k), step.now, lo, hi);
  }

  lemma {:induction false} StepStaysRegular(s: State, step: Step, last: real)
    requires RegularLog(s.log, last) && last <= step.now
    ensures RegularLog(Next(s, step).0.log, step.now)
  {
    hide RegularLog, Admits, Verdict, IsExempt;
    match step
    case Arrive(_, r, now) => LogStaysRegular(s.log, last, IpKey(r), now);
    case Continue(id, now) =>
      LogStaysRegular(s.log, last, if id in s.waiting then CredentialKey(s.waiting[id].request) else Credential(""),
          now);
  }

  /** A run ends with as many admissions in a window as it started with plus those it charged. */
  lemma {:induction false} RunCharges(s: State, steps: seq<Step>, last: real, k: Key, lo: real, hi: real)
    requires RegularLog(s.log, last) && Ticking(steps, last)
    ensures Count(At(End(s, steps).log, k), lo, hi) == Count(At(s.log, k), lo, hi) + Charged(s, steps, k, lo, hi)
    ensures exists end :: RegularLog(End(s, steps).log, end)
    decreases |steps|
  {
    hide RegularLog, Next, Charges, Count;
    if steps != [] {
      StepCharges(s, steps[0], k, lo, hi);
      StepStaysRegular(s, steps[0], last);
      RunCharges(Next(s, steps[0]).0, steps[1..], steps[0].now, k, lo, hi);
    }
  }

  /** Over every run from an empty limiter, however requests interleave, every window of a bucket's tier admits
      at most the tier's limit; for the authenticated tier's address bucket these are the requests that reach
      a credential check. */
  lemma {:induction false} EveryWindowBounded(steps: seq<Step>, start: real, k: Key, end: real)
    requires Ticking(steps, start)
    ensures Charged(State(map[], map[]), steps, k, end - Window(TierOf(k)), end) <= Limit(TierOf(k))
  {
    hide Next, Charged, Count;
    var s := State(map[], map[]);
    RunCharges(s, steps, start, k, end - Window(TierOf(k)), end);
    var last :| RegularLog(End(s, steps).log, last);
    assert Regular(At(End(s, steps).log, k), TierOf(k), last);
    WindowBound(At(End(s, steps).log, k), TierOf(k), last, end);
  }

  /** A grant takes its request off the waiting ones, and only a charge to the address adds one. */
  lemma {:induction false} GrantStep(s: State, step: Step, b: string, lo: real, hi: real)
    ensures |Waiters(Next(s, step).0.waiting, b, lo, hi)|
            + (if Next(s, step).1 == Admitted(Authed) && Finishes(s.waiting, step.id, b, lo, hi) then 1 else 0)
            <= |Waiters(s.waiting, b, lo, hi)|
               + if Charges(s, step) == Some(Ip(Authed, b)) && lo < step.now <= hi then 1 else 0
  {
    hide Admits, IsExempt;
    var before, after := Waiters(s.waiting, b, lo, hi), Waiters(Next(s, step).0.waiting, b, lo, hi);
    if step.Continue? {
      assert step.id in s.waiting ==> after == before - {step.id};
    } else if Charges(s, step) == Some(Ip(Authed, b)) && lo < step.now <= hi {
      assert after <= before + {step.id};
      Fewer(after, before + {step.id});
    } else {
      assert after <= before;
      Fewer(after, before);
    }
  }

  lemma {:induction false} GrantsWereCharged(s: State, steps: seq<Step>, b: string, lo: real, hi: real)
    ensures GrantedToAddress(s, steps, b, lo, hi)
            <= |Waiters(s.waiting, b, lo, hi)| + Charged(s, steps, Ip(Authed, b), lo, hi)
    decreases |steps|
  {
    hide Waiters, Next, Charges, Finishes;
    if steps != [] {
      GrantStep(s, steps[0], b, lo, hi);
      GrantsWereCharged(Next(s, steps[0]).0, steps[1..], b, lo, hi);
    }
  }

  /** In every run, one address bucket gets at most 300 requests per minute through the authenticated tier,
      whatever credentials it presents. */
  lemma {:induction false} RotationDoesNotHelp(steps: seq<Step>, start: real, b: string, end: real)
    requires Ticking(steps, start)
    ensures GrantedToAddress(State(map[], map[]), steps, b, end - Window(Authed), end) <= Limit(Authed)
  {
    hide Charged, GrantedToAddress;
    EveryWindowBounded(steps, start, Ip(Authed, b), end);
    GrantsWereCharged(State(map[], map[]), steps, b, end - Window(Authed), end);
    assert Waiters(map[], b, end - Window(Authed), end) == {};
  }

  // The answers on paths and numbers.

  /** What passes unchecked. */
  predicate Free(path: string) { "/healthz" <= path || path == "/static" || "/static/" <= path }

  predicate LoginPost(r: Request) { r.post && (r.path == "/login" || r.path == "/login/2fa") }

  predicate ResetPost(r: Request) { r.post && r.path == "/change-password" }

  predicate Anonymous(r: Request) { !Free(r.path) && !LoginPost(r) && !ResetPost(r) && r.credential.None? }

  predicate Credentialed(r: Request) { !Free(r.path) && !LoginPost(r) && !ResetPost(r) && r.credential.Some? }

  /** How many requests of a kind from an address bucket within (lo, hi] were not rejected when they arrived. */
  ghost function Passed(want: Request -> bool, steps: seq<Step>, outcomes: seq<Outcome>, b: string, lo: real, hi: real)
    : nat
    requires |steps| == |outcomes|
  {
    if steps == [] then 0
    else
      var n := |steps| - 1;
      Passed(want, steps[..n], outcomes[..n], b, lo, hi)
      + if steps[n].Arrive? && want(steps[n].request) && steps[n].request.bucket == b && lo < steps[n].now <= hi
           && !outcomes[n].Rejected? then 1 else 0
  }

  /** The credential of the request that waits under `id`, if one does. */
  ghost function Asking(steps: seq<Step>, outcomes: seq<Outcome>, id: nat): Option<string>
    requires |steps| == |outcomes|
  {
    if steps == [] then None
    else
      var n := |steps| - 1;
      if steps[n].id != id then Asking(steps[..n], outcomes[..n], id)
      else if steps[n].Continue? then None
      else if outcomes[n].Pending? then steps[n].request.credential
      else Asking(steps[..n], outcomes[..n], id)
  }

  /** How many second checks of a credential within (lo, hi] were not rejected. */
  ghost function Granted(f: string, steps: seq<Step>, outcomes: seq<Outcome>, lo: real, hi: real): nat
    requires |steps| == |outcomes|
  {
    if steps == [] then 0
    else
      var n := |steps| - 1;
      Granted(f, steps[..n], outcomes[..n], lo, hi)
      + if steps[n].Continue? && Asking(steps[..n], outcomes[..n], steps[n].id) == Some(f) && lo < steps[n].now <= hi
           && !outcomes[n].Rejected? then 1 else 0
  }

  ghost predicate Below(want: Request -> bool, limit: nat, window: real, steps: seq<Step>, outcomes: seq<Outcome>,
                        b: string, at: real)
    requires |steps| == |outcomes|
  {
    Passed(want, steps, outcomes, b, at - window, at) < limit
  }

  /** Rejected exactly when `limit` of its kind passed in the window that ends now, and then told the first moment, a
      millisecond from now at the soonest, at which it would pass. */
  ghost predicate Judged(want: Request -> bool, limit: nat, window: real, steps: seq<Step>, outcomes: seq<Outcome>,
                         b: string, now: real, outcome: Outcome)
    requires |steps| == |outcomes|
  {
    (outcome.Rejected? <==> !Below(want, limit, window, steps, outcomes, b, now))
    && (outcome.Rejected? ==>
          outcome.retryAfter >= 0.001
          && forall at | at >= now + 0.001 ::
               at >= now + outcome.retryAfter <==> Below(want, limit, window, steps, outcomes, b, at))
  }

  ghost predicate BelowFor(f: string, steps: seq<Step>, outcomes: seq<Outcome>, at: real)
    requires |steps| == |outcomes|
  {
    Granted(f, steps, outcomes, at - 60.0, at) < 300
  }

  ghost predicate JudgedFor(f: string, steps: seq<Step>, outcomes: seq<Outcome>, now: real, outcome: Outcome)
    requires |steps| == |outcomes|
  {
    (outcome.Rejected? <==> !BelowFor(f, steps, outcomes, now))
    && (outcome.Rejected? ==>
          outcome.retryAfter >= 0.001
          && forall at | at >= now + 0.001 :: at >= now + outcome.retryAfter <==> BelowFor(f, steps, outcomes, at))
  }

  /** The answer to a step after those before it. */
  ghost predicate Right(steps: seq<Step>, outcomes: seq<Outcome>, step: Step, outcome: Outcome)
    requires |steps| == |outcomes|
  {
    match step
    case Arrive(_, r, now) =>
      if Free(r.path) then outcome.Exempt?
      else if LoginPost(r) then
        (outcome == Admitted(Login) || outcome.Rejected?)
        && Judged(LoginPost, 10, 300.0, steps, outcomes, r.bucket, now, outcome)
      else if ResetPost(r) then
        (outcome == Admitted(PasswordReset) || outcome.Rejected?)
        && Judged(ResetPost, 5, 3600.0, steps, outcomes, r.bucket, now, outcome)
      else if r.credential.None? then
        (outcome == Admitted(Unauthed) || outcome.Rejected?)
        && Judged(Anonymous, 30, 60.0, steps, outcomes, r.bucket, now, outcome)
      else
        (outcome == Pending || outcome.Rejected?)
        && Judged(Credentialed, 300, 60.0, steps, outcomes, r.bucket, now, outcome)
    case Continue(id, now) =>
      match Asking(steps, outcomes, id)
      case None => outcome.Idle?
      case Some(f) =>
        (outcome == Admitted(Authed) || outcome.Rejected?) && JudgedFor(f, steps, outcomes, now, outcome)
  }

  /** No window of the length ending at `end` lets more of a kind through from an address bucket than the limit. */
  ghost predicate AtMost(want: Request -> bool, limit: nat, window: real, steps: seq<Step>, outcomes: seq<Outcome>,
                         b: string, end: real)
    requires |steps| == |outcomes|
  {
    Passed(want, steps, outcomes, b, end - window, end) <= limit
  }

  ghost predicate AtMostFor(f: string, steps: seq<Step>, outcomes: seq<Outcome>, end: real)
    requires |steps| == |outcomes|
  {
    Granted(f, steps, outcomes, end - 60.0, end) <= 300
  }

  /** Every answer of a run is right, and no window of any address or credential lets through more than its number. */
  ghost predicate AllRight(steps: seq<Step>, outcomes: seq<Outcome>) {
    |steps| == |outcomes|
    && (forall i | 0 <= i < |steps| :: Right(steps[..i], outcomes[..i], steps[i], outcomes[i]))
    && (forall b, end :: AtMost(LoginPost, 10, 300.0, steps, outcomes, b, end))
    && (forall b, end :: AtMost(ResetPost, 5, 3600.0, steps, outcomes, b, end))
    && (forall b, end :: AtMost(Anonymous, 30, 60.0, steps, outcomes, b, end))
    && (forall b, end :: AtMost(Credentialed, 300, 60.0, steps, outcomes, b, end))
    && (forall f, end :: AtMostFor(f, steps, outcomes, end))
  }

  /** The log holds what passed. */
  ghost predicate Tallied(log: Log, want: Request -> bool, t: Tier, steps: seq<Step>, outcomes: seq<Outcome>)
    requires |steps| == |outcomes|
  {
    forall b, lo, hi :: Count(At(log, Ip(t, b)), lo, hi) == Passed(want, steps, outcomes, b, lo, hi)
  }

  ghost predicate TalliedFor(log: Log, steps: seq<Step>, outcomes: seq<Outcome>)
    requires |steps| == |outcomes|
  {
    forall f, lo, hi :: Count(At(log, Credential(f)), lo, hi) == Granted(f, steps, outcomes, lo, hi)
  }

  ghost predicate Awaited(waiting: map<nat, Waiter>, steps: seq<Step>, outcomes: seq<Outcome>)
    requires |steps| == |outcomes|
  {
    forall id: nat :: Asking(steps, outcomes, id) == if id in waiting then waiting[id].request.credential else None
  }

  ghost predicate Books(s: State, steps: seq<Step>, outcomes: seq<Outcome>)
    requires |steps| == |outcomes|
  {
    Tallied(s.log, LoginPost, Login, steps, outcomes) && Tallied(s.log, ResetPost, PasswordReset, steps, outcomes)
    && Tallied(s.log, Anonymous, Unauthed, steps, outcomes) && Tallied(s.log, Credentialed, Authed, steps, outcomes)
    && TalliedFor(s.log, steps, outcomes) && Awaited(s.waiting, steps, outcomes)
    && forall id | id in s.waiting :: s.waiting[id].request.credential.Some?
  }

  /** Whether one more entry is a passed request of the kind. */
  ghost predicate Counts(want: Request -> bool, b: string, step: Step, outcome: Outcome) {
    step.Arrive? && want(step.request) && step.request.bucket == b && !outcome.Rejected?
  }

  lemma {:induction false} PassedMore(want: Request -> bool, steps: seq<Step>, outcomes: seq<Outcome>, step: Step,
                                      outcome: Outcome, b: string, lo: real, hi: real)
    requires |steps| == |outcomes|
    ensures Passed(want, steps + [step], outcomes + [outcome], b, lo, hi)
            == Passed(want, steps, outcomes, b, lo, hi)
               + if Counts(want, b, step, outcome) && lo < step.now <= hi then 1 else 0
  {
    assert (steps + [step])[..|steps|] == steps && (outcomes + [outcome])[..|steps|] == outcomes;
  }

  lemma {:induction false} GrantedMore(f: string, steps: seq<Step>, outcomes: seq<Outcome>, step: Step,
                                       outcome: Outcome, lo: real, hi: real)
    requires |steps| == |outcomes|
    ensures Granted(f, steps + [step], outcomes + [outcome], lo, hi)
            == Granted(f, steps, outcomes, lo, hi)
               + if step.Continue? && Asking(steps, outcomes, step.id) == Some(f) && !outcome.Rejected?
                    && lo < step.now <= hi then 1 else 0
  {
    assert (steps + [step])[..|steps|] == steps && (outcomes + [outcome])[..|steps|] == outcomes;
  }

  lemma {:induction false} AskingMore(steps: seq<Step>, outcomes: seq<Outcome>, step: Step, outcome: Outcome, id: nat)
    requires |steps| == |outcomes|
    ensures Asking(steps + [step], outcomes + [outcome], id)
            == if step.id != id || (step.Arrive? && !outcome.Pending?) then Asking(steps, outcomes, id)
               else if step.Continue? then None else step.request.credential
  {
    assert (steps + [step])[..|steps|] == steps && (outcomes + [outcome])[..|steps|] == outcomes;
  }

  /** A tally stays right when the step charges the tier's key of the address exactly for a passed request. */
  lemma {:induction false} TallyMore(s: State, step: Step, want: Request -> bool, t: Tier, steps: seq<Step>,
                                     outcomes: seq<Outcome>)
    requires |steps| == |outcomes| && Tallied(s.log, want, t, steps, outcomes)
    requires forall b :: Charges(s, step) == Some(Ip(t, b)) <==> Counts(want, b, step, Next(s, step).1)
    ensures Tallied(Next(s, step).0.log, want, t, steps + [step], outcomes + [Next(s, step).1])
  {
    hide Next, Charges, Counts, Count, Passed;
    forall b, lo, hi
      ensures Count(At(Next(s, step).0.log, Ip(t, b)), lo, hi)
              == Passed(want, steps + [step], outcomes + [Next(s, step).1], b, lo, hi) {
      assert Count(At(s.log, Ip(t, b)), lo, hi) == Passed(want, steps, outcomes, b, lo, hi);
      StepCharges(s, step, Ip(t, b), lo, hi);
      PassedMore(want, steps, outcomes, step, Next(s, step).1, b, lo, hi);
      assert Charges(s, step) == Some(Ip(t, b)) <==> Counts(want, b, step, Next(s, step).1);
    }
  }

  lemma {:induction false} TallyMoreFor(s: State, step: Step, steps: seq<Step>, outcomes: seq<Outcome>)
    requires |steps| == |outcomes| && TalliedFor(s.log, steps, outcomes)
    requires forall f :: Charges(s, step) == Some(Credential(f))
                         <==> step.Continue? && Asking(steps, outcomes, step.id) == Some(f)
                              && !Next(s, step).1.Rejected?
    ensures TalliedFor(Next(s, step).0.log, steps + [step], outcomes + [Next(s, step).1])
  {
    hide Next, Charges, Count, Granted, Asking;
    forall f, lo, hi
      ensures Count(At(Next(s, step).0.log, Credential(f)), lo, hi)
              == Granted(f, steps + [step], outcomes + [Next(s, step).1], lo, hi) {
      assert Count(At(s.log, Credential(f)), lo, hi) == Granted(f, steps, outcomes, lo, hi);
      StepCharges(s, step, Credential(f), lo, hi);
      GrantedMore(f, steps, outcomes, step, Next(s, step).1, lo, hi);
    }
  }

  lemma {:induction false} AwaitedMore(s: State, step: Step, steps: seq<Step>, outcomes: seq<Outcome>)
    requires |steps| == |outcomes| && Awaited(s.waiting, steps, outcomes)
    ensures Awaited(Next(s, step).0.waiting, steps + [step], outcomes + [Next(s, step).1])
  {
    hide Admits, Asking;
    forall id: nat
      ensures Asking(steps + [step], outcomes + [Next(s, step).1], id)
              == if id in Next(s, step).0.waiting then Next(s, step).0.waiting[id].request.credential else None {
      assert Asking(steps, outcomes, id) == if id in s.waiting then s.waiting[id].request.credential else None;
      AskingMore(steps, outcomes, step, Next(s, step).1, id);
    }
  }

  lemma {:induction false} PostsAreChecked()
    ensures !IsExempt("/login") && !IsExempt("/login/2fa") && !IsExempt("/change-password")
  {
    assert "/healthz"[1] == 'h' && "/static/"[1] == 's' && "/static"[1] == 's';
    assert "/login"[1] == 'l' && "/login/2fa"[1] == 'l' && "/change-password"[1] == 'c';
  }

  /** What a step charges is what it lets through. */
  lemma {:induction false} ChargesWhatPasses(s: State, step: Step, b: string)
    requires forall id | id in s.waiting :: s.waiting[id].request.credential.Some?
    ensures Charges(s, step) == Some(Ip(Login, b)) <==> Counts(LoginPost, b, step, Next(s, step).1)
    ensures Charges(s, step) == Some(Ip(PasswordReset, b)) <==> Counts(ResetPost, b, step, Next(s, step).1)
    ensures Charges(s, step) == Some(Ip(Unauthed, b)) <==> Counts(Anonymous, b, step, Next(s, step).1)
    ensures Charges(s, step) == Some(Ip(Authed, b)) <==> Counts(Credentialed, b, step, Next(s, step).1)
  {
    hide Admits;
    PostsAreChecked();
  }

  lemma {:induction false} ChargesWhatIsGranted(s: State, step: Step, f: string)
    requires forall id | id in s.waiting :: s.waiting[id].request.credential.Some?
    ensures Charges(s, step) == Some(Credential(f))
            <==> step.Continue? && step.id in s.waiting && s.waiting[step.id].request.credential == Some(f)
                 && !Next(s, step).1.Rejected?
  {
    hide Admits;
  }

  lemma {:induction false} BooksStay(s: State, step: Step, steps: seq<Step>, outcomes: seq<Outcome>)
    requires |steps| == |outcomes| && Books(s, steps, outcomes)
    ensures Books(Next(s, step).0, steps + [step], outcomes + [Next(s, step).1])
  {
    StillCredentials(s, step);
    hide Next, Charges, Counts, Tallied, TalliedFor;
    forall b
      ensures Charges(s, step) == Some(Ip(Login, b)) <==> Counts(LoginPost, b, step, Next(s, step).1)
      ensures Charges(s, step) == Some(Ip(PasswordReset, b)) <==> Counts(ResetPost, b, step, Next(s, step).1)
      ensures Charges(s, step) == Some(Ip(Unauthed, b)) <==> Counts(Anonymous, b, step, Next(s, step).1)
      ensures Charges(s, step) == Some(Ip(Authed, b)) <==> Counts(Credentialed, b, step, Next(s, step).1) {
      ChargesWhatPasses(s, step, b);
    }
    TallyMore(s, step, LoginPost, Login, steps, outcomes);
    TallyMore(s, step, ResetPost, PasswordReset, steps, outcomes);
    TallyMore(s, step, Anonymous, Unauthed, steps, outcomes);
    TallyMore(s, step, Credentialed, Authed, steps, outcomes);
    forall f
      ensures Charges(s, step) == Some(Credential(f))
              <==> step.Continue? && Asking(steps, outcomes, step.id) == Some(f) && !Next(s, step).1.Rejected? {
      ChargesWhatIsGranted(s, step, f);
      assert Asking(steps, outcomes, step.id)
             == if step.id in s.waiting then s.waiting[step.id].request.credential else None;
    }
    TallyMoreFor(s, step, steps, outcomes);
    AwaitedMore(s, step, steps, outcomes);
  }

  lemma {:induction false} StillCredentials(s: State, step: Step)
    requires forall id | id in s.waiting :: s.waiting[id].request.credential.Some?
    ensures forall id | id in Next(s, step).0.waiting :: Next(s, step).0.waiting[id].request.credential.Some?
  {
    hide Admits, Verdict;
  }

  /** A verdict on a key whose log is tallied. */
  lemma {:induction false} VerdictIsJudged(s: State, want: Request -> bool, t: Tier, limit: nat, window: real,
                                           steps: seq<Step>, outcomes: seq<Outcome>, b: string, now: real)
    requires |steps| == |outcomes| && Tallied(s.log, want, t, steps, outcomes) && RegularLog(s.log, now)
    requires limit == Limit(t) && window == Window(t)
    ensures var outcome := Verdict(s.log, Ip(t, b), now);
            Judged(want, limit, window, steps, outcomes, b, now, outcome)
            && (outcome.Rejected? || outcome == Admitted(t))
  {
    hide Count, Passed;
    var k, outcome := Ip(t, b), Verdict(s.log, Ip(t, b), now);
    assert Count(At(s.log, k), now - window, now) == Passed(want, steps, outcomes, b, now - window, now);
    if outcome.Rejected? {
      forall at | at >= now + 0.001
        ensures at >= now + outcome.retryAfter <==> Below(want, limit, window, steps, outcomes, b, at) {
        assert Count(At(s.log, k), at - window, at) == Passed(want, steps, outcomes, b, at - window, at);
        assert Regular(At(s.log, k), t, now);
        RetryIsLeast(At(s.log, k), t, now, at);
      }
    }
  }

  lemma {:induction false} VerdictIsJudgedFor(s: State, steps: seq<Step>, outcomes: seq<Outcome>, f: string, now: real)
    requires |steps| == |outcomes| && TalliedFor(s.log, steps, outcomes) && RegularLog(s.log, now)
    ensures var outcome := Verdict(s.log, Credential(f), now);
            JudgedFor(f, steps, outcomes, now, outcome) && (outcome.Rejected? || outcome == Admitted(Authed))
  {
    hide Count, Granted;
    var k, outcome := Credential(f), Verdict(s.log, Credential(f), now);
    assert Count(At(s.log, k), now - 60.0, now) == Granted(f, steps, outcomes, now - 60.0, now);
    if outcome.Rejected? {
      forall at | at >= now + 0.001 ensures at >= now + outcome.retryAfter <==> BelowFor(f, steps, outcomes, at) {
        assert Count(At(s.log, k), at - 60.0, at) == Granted(f, steps, outcomes, at - 60.0, at);
        assert Regular(At(s.log, k), Authed, now);
        RetryIsLeast(At(s.log, k), Authed, now, at);
      }
    }
  }

  /** The Retry-After of a rejection is the first moment, from a millisecond on, at which it would be admitted. */
  lemma {:induction false} RetryIsLeast(s: seq<real>, t: Tier, now: real, at: real)
    requires Regular(s, t, now) && Count(s, now - Window(t), now) >= Limit(t) && at >= now + 0.001
    ensures RetryAfter(s, t, now) >= 0.001
    ensures at >= now + RetryAfter(s, t, now) <==> Count(s, at - Window(t), at) < Limit(t)
  {
    hide Count, Regular;
    RetryIsExact(s, t, now, at - now);
    assert now + (at - now) == at;
  }

  lemma {:induction false} NextIsRight(s: State, step: Step, steps: seq<Step>, outcomes: seq<Outcome>)
    requires |steps| == |outcomes| && Books(s, steps, outcomes) && RegularLog(s.log, step.now)
    ensures Right(steps, outcomes, step, Next(s, step).1)
  {
    hide Tallied, TalliedFor, RegularLog, Judged, JudgedFor, Admits, Passed, RetryAfter;
    match step
    case Arrive(_, r, now) =>
      VerdictIsJudged(s, LoginPost, Login, 10, 300.0, steps, outcomes, r.bucket, now);
      VerdictIsJudged(s, ResetPost, PasswordReset, 5, 3600.0, steps, outcomes, r.bucket, now);
      VerdictIsJudged(s, Anonymous, Unauthed, 30, 60.0, steps, outcomes, r.bucket, now);
      VerdictIsJudged(s, Credentialed, Authed, 300, 60.0, steps, outcomes, r.bucket, now);
      PendingIsJudged(Credentialed, 300, 60.0, steps, outcomes, r.bucket, now);
    case Continue(id, now) =>
      assert Asking(steps, outcomes, id) == if id in s.waiting then s.waiting[id].request.credential else None;
      if id in s.waiting {
        VerdictIsJudgedFor(s, steps, outcomes, s.waiting[id].request.credential.value, now);
      }
  }

  lemma {:induction false} PendingIsJudged(want: Request -> bool, limit: nat, window: real, steps: seq<Step>,
                                           outcomes: seq<Outcome>, b: string, now: real)
    requires |steps| == |outcomes|
    ensures Judged(want, limit, window, steps, outcomes, b, now, Admitted(Authed))
            ==> Judged(want, limit, window, steps, outcomes, b, now, Pending)
  {
  }

  lemma {:induction false} ReplayMore(s: State, steps: seq<Step>, step: Step)
    ensures Replay(s, steps + [step]).0 == Next(Replay(s, steps).0, step).0
    ensures Replay(s, steps + [step]).1 == Replay(s, steps).1 + [Next(Replay(s, steps).0, step).1]
    ensures |Replay(s, steps).1| == |steps|
    decreases |steps|
  {
    hide Next;
    if steps == [] {
      assert [step][1..] == [] && steps + [step] == [step];
    } else {
      ReplayMore(Next(s, steps[0]).0, steps[1..], step);
      assert (steps + [step])[1..] == steps[1..] + [step];
    }
  }

  lemma {:induction false} TickingPrefix(steps: seq<Step>, start: real)
    requires Ticking(steps, start) && steps != []
    ensures Ticking(steps[..|steps| - 1], start)
    ensures |steps| > 1 ==> steps[|steps| - 2].now <= steps[|steps| - 1].now
    ensures start <= steps[|steps| - 1].now
    decreases |steps|
  {
    if |steps| > 1 {
      TickingPrefix(steps[1..], steps[0].now);
      assert steps[..|steps| - 1][1..] == steps[1..][..|steps| - 2];
    }
  }

  /** From an empty limiter on the books are right, and so is every answer. */
  lemma {:induction false} RunIsRight(steps: seq<Step>, start: real)
    requires Ticking(steps, start)
    ensures var run := Replay(State(map[], map[]), steps);
            |run.1| == |steps| && Books(run.0, steps, run.1)
            && RegularLog(run.0.log, if steps == [] then start else steps[|steps| - 1].now)
            && forall i | 0 <= i < |steps| :: Right(steps[..i], run.1[..i], steps[i], run.1[i])
    decreases |steps|
  {
    hide Books, RegularLog, Right, Next;
    if steps == [] {
      EmptyBooks(start);
    } else {
      var n := |steps| - 1;
      var s0, front, step := State(map[], map[]), steps[..n], steps[n];
      assert steps == front + [step];
      TickingPrefix(steps, start);
      RunIsRight(front, start);
      ReplayMore(s0, front, step);
      var run := Replay(s0, front);
      var last := if front == [] then start else front[n - 1].now;
      StepStaysRegular(run.0, step, last);
      LaterLog(run.0.log, last, step.now);
      BooksStay(run.0, step, front, run.1);
      NextIsRight(run.0, step, front, run.1);
      var all := run.1 + [Next(run.0, step).1];
      forall i | 0 <= i < |steps| ensures Right(steps[..i], all[..i], steps[i], all[i]) {
        if i < n {
          assert front[..i] == steps[..i] && all[..i] == run.1[..i] && front[i] == steps[i];
        } else {
          assert all[..n] == run.1;
        }
      }
    }
  }

  lemma {:induction false} EmptyBooks(start: real)
    ensures Books(State(map[], map[]), [], []) && RegularLog(map[], start)
  {
  }

  lemma {:induction false} LaterLog(log: Log, last: real, now: real)
    requires RegularLog(log, last) && last <= now
    ensures RegularLog(log, now)
  {
    hide Regular;
    forall k ensures Regular(At(log, k), TierOf(k), now) {
      assert Regular(At(log, k), TierOf(k), last);
      LaterRegular(At(log, k), TierOf(k), last, now);
    }
  }

  lemma {:induction false} LaterRegular(s: seq<real>, t: Tier, last: real, now: real)
    requires Regular(s, t, last) && last <= now
    ensures Regular(s, t, now)
  {
  }

  /** Over every run from an empty limiter, the clock not running back: each request is judged by its path and
      its credential, is rejected exactly when its number has passed within its window, and is told the exact time to
      wait; and no window lets more through. */
  lemma {:induction false} AnswersAreRight(steps: seq<Step>, start: real)
    requires Ticking(steps, start)
    ensures AllRight(steps, Replay(State(map[], map[]), steps).1)
  {
    hide Right, RegularLog, Count, Passed, Granted, Regular;
    RunIsRight(steps, start);
    var run := Replay(State(map[], map[]), steps);
    var last := if steps == [] then start else steps[|steps| - 1].now;
    forall b, end
      ensures AtMost(LoginPost, 10, 300.0, steps, run.1, b, end)
      ensures AtMost(ResetPost, 5, 3600.0, steps, run.1, b, end)
      ensures AtMost(Anonymous, 30, 60.0, steps, run.1, b, end)
      ensures AtMost(Credentialed, 300, 60.0, steps, run.1, b, end) {
      WindowIsBounded(run.0.log, LoginPost, Login, steps, run.1, last, b, end);
      WindowIsBounded(run.0.log, ResetPost, PasswordReset, steps, run.1, last, b, end);
      WindowIsBounded(run.0.log, Anonymous, Unauthed, steps, run.1, last, b, end);
      WindowIsBounded(run.0.log, Credentialed, Authed, steps, run.1, last, b, end);
    }
    forall f, end ensures AtMostFor(f, steps, run.1, end) {
      RegularAt(run.0.log, Credential(f), last);
      WindowBound(At(run.0.log, Credential(f)), Authed, last, end);
      assert Count(At(run.0.log, Credential(f)), end - 60.0, end) == Granted(f, steps, run.1, end - 60.0, end);
    }
  }

  lemma {:induction false} WindowIsBounded(log: Log, want: Request -> bool, t: Tier, steps: seq<Step>,
                                           outcomes: seq<Outcome>, last: real, b: string, end: real)
    requires |steps| == |outcomes| && Tallied(log, want, t, steps, outcomes) && RegularLog(log, last)
    ensures AtMost(want, Limit(t), Window(t), steps, outcomes, b, end)
  {
    hide RegularLog, Count, Passed, Regular;
    RegularAt(log, Ip(t, b), last);
    WindowBound(At(log, Ip(t, b)), t, last, end);
    assert Count(At(log, Ip(t, b)), end - Window(t), end) == Passed(want, steps, outcomes, b, end - Window(t), end);
  }

  lemma {:induction false} RegularAt(log: Log, k: Key, last: real)
    requires RegularLog(log, last)
    ensures Regular(At(log, k), TierOf(k), last)
  {
    hide Regular;
  }

  /** The limiter itself: pruned buckets, a counter, and the requests between their two checks. */
  class Limiter {
    var buckets: map<Key, seq<real>>
    var sinceSweep: nat
    var waiting: map<nat, Waiter>
    ghost var log: Log
    ghost var last: real

    /** Each bucket is the end of its key's full log, and what was dropped has left the key's window for good. */
    ghost predicate Valid()
      reads this
    {
      RegularLog(log, last) && Bounded(buckets, log, last) && sinceSweep < SWEEP_EVERY
    }

    constructor ()
      ensures Valid() && log == map[] && waiting == map[] && last == 0.0
    {
      buckets, sinceSweep, waiting, log, last := map[], 0, map[], map[], 0.0;
    }

    /** `check`: prune the bucket, then admit and record, or say how long to wait; every 4096th admission also forgets
        every bucket without one in the last hour. */
    method Check(k: Key, now: real) returns (retryAfter: Option<real>)
      requires Valid() && last <= now
      modifies this`buckets, this`sinceSweep, this`log, this`last
      ensures Valid() && last == now
      ensures retryAfter.None? <==> Admits(old(log), k, now)
      ensures retryAfter.Some? ==> retryAfter.value == RetryAfter(At(log, k), TierOf(k), now)
      ensures log == if Admits(old(log), k, now) then Charge(old(log), k, now) else old(log)
      ensures sinceSweep == if retryAfter.Some? then old(sinceSweep) else (old(sinceSweep) + 1) % 4096
      ensures retryAfter.None? && sinceSweep == 0 ==>
                forall q | q in buckets :: buckets[q] != [] && buckets[q][|buckets[q]| - 1] > now - 3600.0
    {
      hide Count, Prunes, RegularLog, Bounded, Sorted, Spaced;
      var t := TierOf(k);
      var cutoff := now - Window(t);
      var bucket := At(buckets, k);
      ghost var all := At(log, k);
      StartOf(buckets, log, last, now, k);
      while bucket != [] && bucket[0] <= cutoff
        invariant Prunes(bucket, all, cutoff)
        modifies {}
      {
        PrunesLess(bucket, all, cutoff);
        bucket := bucket[1..];
      }
      PrunedCount(bucket, all, t, now);
      OldestKept(bucket, all, cutoff);
      LogStaysRegular(log, last, k, now);
      StaysBounded(buckets, log, last, now, k, bucket);
      last := now;
      if |bucket| >= Limit(t) {
        buckets := buckets[k := bucket];
        var wait := bucket[0] + Window(t) - now;
        return Some(if wait < 0.001 then 0.001 else wait);
      }
      buckets := buckets[k := bucket + [now]];
      log := Charge(log, k, now);
      sinceSweep := sinceSweep + 1;
      if sinceSweep >= SWEEP_EVERY {
        sinceSweep := 0;
        Sweep(now);
      }
      return None;
    }

    /** `_sweep`: forget every bucket that was idle for the longest window. */
    method Sweep(now: real)
      requires Bounded(buckets, log, now) && RegularLog(log, now)
      modifies this`buckets
      ensures Bounded(buckets, log, now)
      ensures forall k | k in buckets :: buckets[k] != [] && buckets[k][|buckets[k]| - 1] > now - HORIZON
      ensures forall k | k in buckets :: k in old(buckets) && buckets[k] == old(buckets)[k]
    {
      var left := buckets.Keys;
      while left != {}
        invariant Bounded(buckets, log, now) && left <= old(buckets).Keys
        invariant forall k | k in buckets && k !in left ::
                  buckets[k] != [] && buckets[k][|buckets[k]| - 1] > now - HORIZON
        invariant forall k | k in buckets :: k in old(buckets) && buckets[k] == old(buckets)[k]
        invariant forall k | k in left :: k in buckets
      {
        var k :| k in left;
        left := left - {k};
        var b := buckets[k];
        if b == [] || b[|b| - 1] <= now - HORIZON {
          IdleIsForgotten(buckets, log, now, k);
          buckets := buckets - {k};
        }
      }
    }

    ghost function Abstract(): State
      reads this
    {
      State(log, waiting)
    }

    /** `evaluate` up to its first check: the address is charged first, whatever credential is presented. */
    method Begin(id: nat, r: Request, now: real) returns (outcome: Outcome)
      requires Valid() && last <= now
      modifies this
      ensures Valid() && last == now && (Abstract(), outcome) == Next(old(Abstract()), Arrive(id, r, now))
    {
      hide Admits, RegularLog, Bounded, RetryAfter;
      if IsExempt(r.path) {
        Later(buckets, log, last, now);
        last := now;
        return Exempt;
      }
      var tier := Classify(r);
      var retryAfter := Check(Ip(tier, r.bucket), now);
      if retryAfter.Some? {
        return Rejected(tier, retryAfter.value);
      }
      if tier.Authed? {
        waiting := waiting[id := Waiter(r, now)];
        return Pending;
      }
      return Admitted(tier);
    }

    /** The rest of `evaluate`: the credential of a request whose address was admitted. */
    method Finish(id: nat, now: real) returns (outcome: Outcome)
      requires Valid() && last <= now
      modifies this
      ensures Valid() && last == now && (Abstract(), outcome) == Next(old(Abstract()), Continue(id, now))
    {
      hide Admits, RegularLog, Bounded, RetryAfter;
      if id !in waiting {
        Later(buckets, log, last, now);
        last := now;
        return Idle;
      }
      var k := CredentialKey(waiting[id].request);
      waiting := waiting - {id};
      var retryAfter := Check(k, now);
      return match retryAfter case Some(wait) => Rejected(TierOf(k), wait) case None => Admitted(TierOf(k));
    }

    /** Over every run the pruning limiter answers exactly what the one that forgets nothing answers. */
    method Serve(steps: seq<Step>) returns (outcomes: seq<Outcome>)
      requires Valid() && Ticking(steps, last)
      modifies this
      ensures Valid() && (Abstract(), outcomes) == Replay(old(Abstract()), steps)
      ensures old(log) == map[] && old(waiting) == map[] ==> AllRight(steps, outcomes)
    {
      hide Valid, Next, AllRight;
      if log == map[] && waiting == map[] {
        AnswersAreRight(steps, last);
      }
      outcomes := [];
      ghost var whole := Replay(Abstract(), steps);
      assert steps[0..] == steps && [] + whole.1 == whole.1;
      for n := 0 to |steps|
        invariant Valid() && Ticking(steps[n..], last)
        invariant whole.0 == Replay(Abstract(), steps[n..]).0 && whole.1 == outcomes + Replay(Abstract(), steps[n..]).1
      {
        ghost var rest := Replay(Abstract(), steps[n..]);
        assert steps[n..][0] == steps[n] && steps[n..][1..] == steps[n + 1..];
        var outcome;
        match steps[n] {
          case Arrive(id, r, now) => outcome := Begin(id, r, now);
          case Continue(id, now) => outcome := Finish(id, now);
        }
        assert outcomes + rest.1 == (outcomes + [outcome]) + Replay(Abstract(), steps[n + 1..]).1;
        outcomes := outcomes + [outcome];
      }
      assert outcomes + [] == outcomes;
    }
  }

  ghost predicate Bounded(buckets: map<Key, seq<real>>, log: Log, last: real) {
    forall k :: PrunedAt(buckets, log, last, k)
  }

  ghost predicate PrunedAt(buckets: map<Key, seq<real>>, log: Log, last: real, k: Key) {
    Prunes(At(buckets, k), At(log, k), last - Window(TierOf(k)))
  }

  lemma {:induction false} PrunesLater(kept: seq<real>, s: seq<real>, cutoff: real, later: real)
    requires Prunes(kept, s, cutoff) && cutoff <= later
    ensures Prunes(kept, s, later)
  {
  }

  lemma {:induction false} PrunesMore(kept: seq<real>, s: seq<real>, cutoff: real, now: real)
    requires Prunes(kept, s, cutoff)
    ensures Prunes(kept + [now], s + [now], cutoff)
  {
    var n := |s| - |kept|;
    assert (s + [now])[n..] == s[n..] + [now];
  }

  lemma {:induction false} PrunesLess(kept: seq<real>, s: seq<real>, cutoff: real)
    requires Prunes(kept, s, cutoff) && kept != [] && kept[0] <= cutoff
    ensures Prunes(kept[1..], s, cutoff)
  {
    var n := |s| - |kept|;
    assert s[n] == kept[0];
    assert kept[1..] == s[n + 1..];
  }

  lemma {:induction false} OldestKept(kept: seq<real>, s: seq<real>, cutoff: real)
    requires Prunes(kept, s, cutoff)
    ensures |kept| <= |s| && (kept != [] ==> kept[0] == s[|s| - |kept|])
  {
  }

  lemma {:induction false} StartOf(buckets: map<Key, seq<real>>, log: Log, last: real, now: real, k: Key)
    requires Bounded(buckets, log, last) && RegularLog(log, last) && last <= now
    ensures Regular(At(log, k), TierOf(k), now) && PrunedAt(buckets, log, now, k)
  {
    hide Regular, PrunedAt, At, TierOf;
    Later(buckets, log, last, now);
  }

  lemma {:induction false} StaysBounded(buckets: map<Key, seq<real>>, log: Log, last: real, now: real, k: Key,
                                        bucket: seq<real>)
    requires Bounded(buckets, log, last) && last <= now && Prunes(bucket, At(log, k), now - Window(TierOf(k)))
    ensures Bounded(buckets[k := bucket], log, now)
    ensures Bounded(buckets[k := bucket + [now]], Charge(log, k, now), now)
  {
    hide PrunedAt;
    var pruned, more, charged := buckets[k := bucket], buckets[k := bucket + [now]], Charge(log, k, now);
    forall q ensures PrunedAt(pruned, log, now, q) {
      assert PrunedAt(buckets, log, last, q);
      StaysPruned(buckets, log, last, now, k, bucket, q);
    }
    forall q ensures PrunedAt(more, charged, now, q) {
      assert PrunedAt(buckets, log, last, q);
      StaysPruned(buckets, log, last, now, k, bucket, q);
    }
  }

  lemma {:induction false} StaysPruned(buckets: map<Key, seq<real>>, log: Log, last: real, now: real, k: Key,
                                       bucket: seq<real>, q: Key)
    requires PrunedAt(buckets, log, last, q) && last <= now && Prunes(bucket, At(log, k), now - Window(TierOf(k)))
    ensures PrunedAt(buckets[k := bucket], log, now, q)
    ensures PrunedAt(buckets[k := bucket + [now]], Charge(log, k, now), now, q)
  {
    hide Prunes, Window;
    if q == k {
      PrunesMore(bucket, At(log, k), now - Window(TierOf(k)), now);
    } else {
      PrunesLater(At(buckets, q), At(log, q), last - Window(TierOf(q)), now - Window(TierOf(q)));
    }
  }

  lemma {:induction false} Later(buckets: map<Key, seq<real>>, log: Log, last: real, now: real)
    requires Bounded(buckets, log, last) && RegularLog(log, last) && last <= now
    ensures Bounded(buckets, log, now) && RegularLog(log, now)
  {
    hide PrunedAt, Regular;
    forall q ensures PrunedAt(buckets, log, now, q) && Regular(At(log, q), TierOf(q), now) {
      assert PrunedAt(buckets, log, last, q) && Regular(At(log, q), TierOf(q), last);
      LaterAt(buckets, log, last, now, q);
    }
  }

  lemma {:induction false} LaterAt(buckets: map<Key, seq<real>>, log: Log, last: real, now: real, q: Key)
    requires PrunedAt(buckets, log, last, q) && Regular(At(log, q), TierOf(q), last) && last <= now
    ensures PrunedAt(buckets, log, now, q) && Regular(At(log, q), TierOf(q), now)
  {
    PrunesLater(At(buckets, q), At(log, q), last - Window(TierOf(q)), now - Window(TierOf(q)));
  }

  lemma {:induction false} ForgottenIdle(kept: seq<real>, s: seq<real>, cutoff: real, last: real)
    requires Prunes(kept, s, cutoff) && Sorted(s, last) && (kept == [] || kept[|kept| - 1] <= cutoff)
    ensures Prunes([], s, cutoff)
  {
    if kept != [] {
      assert s[|s| - 1] == kept[|kept| - 1];
    }
  }

  /** Dropping a bucket whose latest entry is as old as the longest window loses nothing that counts. */
  lemma {:induction false} IdleIsForgotten(buckets: map<Key, seq<real>>, log: Log, now: real, k: Key)
    requires Bounded(buckets, log, now) && RegularLog(log, now) && k in buckets
    requires buckets[k] == [] || buckets[k][|buckets[k]| - 1] <= now - HORIZON
    ensures Bounded(buckets - {k}, log, now)
  {
    hide PrunedAt;
    assert Regular(At(log, k), TierOf(k), now) && PrunedAt(buckets, log, now, k);
    ForgottenAt(buckets, log, now, k);
    forall q ensures PrunedAt(buckets - {k}, log, now, q) {
      assert PrunedAt(buckets, log, now, q);
      if q != k {
        UntouchedAt(buckets, log, now, k, q);
      }
    }
  }

  lemma {:induction false} UntouchedAt(buckets: map<Key, seq<real>>, log: Log, now: real, k: Key, q: Key)
    requires PrunedAt(buckets, log, now, q) && q != k
    ensures PrunedAt(buckets - {k}, log, now, q)
  {
    hide Prunes;
  }

  lemma {:induction false} ForgottenAt(buckets: map<Key, seq<real>>, log: Log, now: real, k: Key)
    requires PrunedAt(buckets, log, now, k) && Regular(At(log, k), TierOf(k), now) && k in buckets
    requires buckets[k] == [] || buckets[k][|buckets[k]| - 1] <= now - HORIZON
    ensures PrunedAt(buckets - {k}, log, now, k)
  {
    hide Prunes, Spaced;
    ForgottenIdle(At(buckets, k), At(log, k), now - Window(TierOf(k)), now);
  }
}
