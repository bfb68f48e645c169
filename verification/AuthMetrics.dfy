/**
 The auth metrics generator: a registry of counters that each tick raises by drawn amounts. A counter is
 the multiset of the labels it was incremented with; every draw is an arbitrary choice.
 */
module AuthMetrics {

  datatype RegMethod = ByEmail | ByOauth | ByTelegram
  datatype AuthMethod = Password | Oauth | MagicLink | Telegram
  datatype Provider = Google | Github | Discord | Twitter | Facebook | Apple | Microsoft
  datatype ErrorType = InvalidCredentials | AccountLocked | RateLimited | ExpiredToken | InvalidOtp
  datatype Step = Started | EmailSent | EmailVerified | Activated
  datatype EmailStatus = EmailSuccess | EmailFailure | EmailExpired
  datatype LinkStatus = LinkSent | LinkRateLimited | LinkError
  datatype ResetOp = Request | Complete
  datatype TwoFactorOp = Enable | Disable | Verify
  datatype Status = Success | Failure

  datatype Metrics = Metrics(
    registrations: multiset<RegMethod>,
    funnel: multiset<Step>,
    attempts: multiset<(AuthMethod, Status)>,
    observations: multiset<AuthMethod>,
    errors: multiset<ErrorType>,
    oauth: multiset<(Provider, Status)>,
    verifications: multiset<EmailStatus>,
    links: multiset<LinkStatus>,
    resets: multiset<(ResetOp, Status)>,
    twoFactor: multiset<(TwoFactorOp, Status)>,
    sessions: int)

  const EMPTY := Metrics(multiset{}, multiset{}, multiset{}, multiset{}, multiset{}, multiset{}, multiset{},
                         multiset{}, multiset{}, multiset{}, 0)

  /** Conversion rates of the registration funnel, in percent. */
  const FUNNEL_CONVERSION: seq<(Step, nat)> := [(Started, 100), (EmailSent, 95), (EmailVerified, 78), (Activated, 75)]

  function Max(a: int, b: int): int {
    if a >= b then a else b
  }

  /** Failed attempts over all methods. */
  function Failed(attempts: multiset<(AuthMethod, Status)>): nat {
    attempts[(Password, Failure)] + attempts[(Oauth, Failure)] + attempts[(MagicLink, Failure)]
        + attempts[(Telegram, Failure)]
  }

  lemma FailedAfter(attempts: multiset<(AuthMethod, Status)>, m: AuthMethod, s: Status)
    ensures Failed(attempts + multiset{(m, s)}) == Failed(attempts) + if s.Failure? then 1 else 0
  {
    match m case Password => case Oauth => case MagicLink => case Telegram =>
  }

  lemma AttemptsAfter(attempts: multiset<(AuthMethod, Status)>, m: AuthMethod, s: Status, n: AuthMethod)
    ensures AttemptsBy(attempts + multiset{(m, s)}, n) == AttemptsBy(attempts, n) + if n == m then 1 else 0
  {
    match s case Success => case Failure =>
  }

  function AttemptsBy(attempts: multiset<(AuthMethod, Status)>, m: AuthMethod): nat {
    attempts[(m, Success)] + attempts[(m, Failure)]
  }

  function Completions(resets: multiset<(ResetOp, Status)>): nat {
    resets[(Complete, Success)] + resets[(Complete, Failure)]
  }

  // ------------------------------------------------------------------------------------------
  // One tick.

  /** How many events of each kind a tick produced. */
  datatype Draws = Draws(
    registrations: nat, attempts: nat, failures: nat, links: nat, resets: nat, twoFactor: nat, sessions: int)

  /** What the random generator gives to a tick; the normal distributions may give negative numbers. */
  datatype Sample = Sample(
    registrations: int, attempts: int, links: int, resets: nat, twoFactor: nat, sessions: int)

  /** The ranges of the two uniform draws. */
  predicate InRange(x: Sample) {
    x.resets <= 3 && x.twoFactor <= 2
  }

  /** What a tick makes of its sample: at least one registration, three attempts and ten sessions, no negative links. */
  predicate Clamped(x: Sample, d: Draws) {
    && d.registrations == (if x.registrations < 1 then 1 else x.registrations)
    && d.attempts == (if x.attempts < 3 then 3 else x.attempts)
    && d.links == (if x.links < 0 then 0 else x.links)
    && d.resets == x.resets && d.twoFactor == x.twoFactor
    && d.sessions == (if x.sessions < 10 then 10 else x.sessions)
  }

  /** Every step of the funnel has grown by its share of the registrations, truncated. */
  ghost predicate FunnelAdvanced(a: multiset<Step>, b: multiset<Step>, registrations: nat) {
    forall i :: 0 <= i < |FUNNEL_CONVERSION| ==>
      var (step, percent) := FUNNEL_CONVERSION[i];
      b[step] == a[step] + registrations * percent / 100
  }

  /** Each method has gained as many latency observations as attempts. */
  ghost predicate ObservedEach(attempts: multiset<(AuthMethod, Status)>, attempts': multiset<(AuthMethod, Status)>,
                               observations: multiset<AuthMethod>, observations': multiset<AuthMethod>) {
    forall m :: AttemptsBy(attempts', m) + observations[m] == AttemptsBy(attempts, m) + observations'[m]
  }

  /** n attempts more, of which so many failed, each with its latency observation. */
  ghost predicate Attempted(attempts: multiset<(AuthMethod, Status)>, attempts': multiset<(AuthMethod, Status)>,
                            observations: multiset<AuthMethod>, observations': multiset<AuthMethod>,
                            n: nat, failures: nat) {
    && attempts <= attempts' && observations <= observations'
    && |attempts'| == |attempts| + n && Failed(attempts') == Failed(attempts) + failures
    && ObservedEach(attempts, attempts', observations, observations')
  }

  lemma AttemptedOnceMore(attempts: multiset<(AuthMethod, Status)>, attempts': multiset<(AuthMethod, Status)>,
                          observations: multiset<AuthMethod>, observations': multiset<AuthMethod>,
                          n: nat, failures: nat,
                          m: AuthMethod, s: Status)
    requires Attempted(attempts, attempts', observations, observations', n, failures)
    ensures Attempted(attempts, attempts' + multiset{(m, s)}, observations, observations' + multiset{m}, n + 1,
                      failures + if s.Failure? then 1 else 0)
  {
    FailedAfter(attempts', m, s);
    forall k
      ensures AttemptsBy(attempts' + multiset{(m, s)}, k) + observations[k] ==
                AttemptsBy(attempts, k) + (observations' + multiset{m})[k]
    {
      AttemptsAfter(attempts', m, s, k);
    }
  }

  /** What a tick with these draws does to the counters. */
  ghost predicate Ticked(a: Metrics, b: Metrics, d: Draws) {
    Traffic(a, b, d) && Maintenance(a, b, d)
  }

  /** Registrations and authentication. */
  ghost predicate Traffic(a: Metrics, b: Metrics, d: Draws) {
    && d.registrations >= 1 && d.attempts >= 3
    && a.registrations <= b.registrations && |b.registrations| == |a.registrations| + d.registrations
    && a.funnel <= b.funnel && FunnelAdvanced(a.funnel, b.funnel, d.registrations)
    && Attempted(a.attempts, b.attempts, a.observations, b.observations, d.attempts, d.failures)
    && a.errors <= b.errors && |b.errors| == |a.errors| + d.failures
    && a.oauth <= b.oauth && |b.oauth| == |a.oauth| + Max(1, d.attempts * 25 / 100)
    && a.verifications <= b.verifications && |b.verifications| == |a.verifications| + d.registrations * 85 / 100
  }

  /** Links, password resets, second factors and the sessions gauge. */
  ghost predicate Maintenance(a: Metrics, b: Metrics, d: Draws) {
    && d.resets <= 3 && d.twoFactor <= 2
    && a.links <= b.links && |b.links| == |a.links| + d.links
    && a.resets <= b.resets
    && b.resets[(Request, Success)] == a.resets[(Request, Success)] + d.resets
    && b.resets[(Request, Failure)] == a.resets[(Request, Failure)]
    && Completions(b.resets) == Completions(a.resets) + d.resets
    && a.twoFactor <= b.twoFactor && |b.twoFactor| == |a.twoFactor| + d.twoFactor
    && b.sessions == d.sessions >= 10
  }

  /** Counters only go up. */
  predicate NeverDown(a: Metrics, b: Metrics) {
    && a.registrations <= b.registrations && a.funnel <= b.funnel && a.attempts <= b.attempts
    && a.observations <= b.observations && a.errors <= b.errors && a.oauth <= b.oauth
    && a.verifications <= b.verifications && a.links <= b.links && a.resets <= b.resets && a.twoFactor <= b.twoFactor
  }

  class Registry {
    var registrations: multiset<RegMethod>
    var funnel: multiset<Step>
    var attempts: multiset<(AuthMethod, Status)>
    var observations: multiset<AuthMethod>
    var errors: multiset<ErrorType>
    var oauth: multiset<(Provider, Status)>
    var verifications: multiset<EmailStatus>
    var links: multiset<LinkStatus>
    var resets: multiset<(ResetOp, Status)>
    var twoFactor: multiset<(TwoFactorOp, Status)>
    var sessions: int

    ghost function Value(): Metrics
      reads this
    {
      Metrics(registrations, funnel, attempts, observations, errors, oauth, verifications, links, resets,
              twoFactor, sessions)
    }

    constructor ()
      ensures Value() == EMPTY
    {
      registrations, funnel, attempts, observations := multiset{}, multiset{}, multiset{}, multiset{};
      errors, oauth, verifications, links := multiset{}, multiset{}, multiset{}, multiset{};
      resets, twoFactor, sessions := multiset{}, multiset{}, 0;
    }

    method Register(regCount: nat)
      modifies this`registrations
      ensures old(registrations) <= registrations && |registrations| == |old(registrations)| + regCount
    {
      for i := 0 to regCount
        invariant old(registrations) <= registrations && |registrations| == |old(registrations)| + i
      {
        var m: RegMethod := *;
        registrations := registrations + multiset{m};
      }
    }

    method AdvanceFunnel(regCount: nat)
      modifies this`funnel
      ensures old(funnel) <= funnel
      ensures FunnelAdvanced(old(funnel), funnel, regCount)
    {
      for i := 0 to |FUNNEL_CONVERSION|
        invariant old(funnel) <= funnel
        invariant forall j :: 0 <= j < |FUNNEL_CONVERSION| ==>
                    var (step, percent) := FUNNEL_CONVERSION[j];
                    funnel[step] == old(funnel)[step] + if j < i then regCount * percent / 100 else 0
      {
        var (step, percent) := FUNNEL_CONVERSION[i];
        var stepCount := Max(0, regCount * percent / 100);
        funnel := funnel[step := funnel[step] + stepCount];
      }
    }

    method Authenticate(authCount: nat) returns (failures: nat)
      modifies this`attempts, this`observations
      ensures Attempted(old(attempts), attempts, old(observations), observations, authCount, failures)
    {
      failures := 0;
      for i := 0 to authCount
        invariant Attempted(old(attempts), attempts, old(observations), observations, i, failures)
      {
        var m: AuthMethod := *;
        var success: bool := *;
        AttemptedOnceMore(old(attempts), attempts, old(observations), observations, i, failures, m,
                          if success then Success else Failure);
        attempts := attempts + multiset{(m, if success then Success else Failure)};
        observations := observations + multiset{m};
        if !success {
          failures := failures + 1;
        }
      }
    }

    method RecordErrors(failures: nat)
      modifies this`errors
      ensures old(errors) <= errors && |errors| == |old(errors)| + failures
    {
      for i := 0 to failures
        invariant old(errors) <= errors && |errors| == |old(errors)| + i
      {
        var e: ErrorType := *;
        errors := errors + multiset{e};
      }
    }

    method AttemptOauth(oauthCount: nat)
      modifies this`oauth
      ensures old(oauth) <= oauth && |oauth| == |old(oauth)| + oauthCount
    {
      for i := 0 to oauthCount
        invariant old(oauth) <= oauth && |oauth| == |old(oauth)| + i
      {
        var p: Provider := *;
        var s: Status := *;
        oauth := oauth + multiset{(p, s)};
      }
    }

    method VerifyEmails(count: nat)
      modifies this`verifications
      ensures old(verifications) <= verifications && |verifications| == |old(verifications)| + count
    {
      for i := 0 to count
        invariant old(verifications) <= verifications && |verifications| == |old(verifications)| + i
      {
        var s: EmailStatus := *;
        verifications := verifications + multiset{s};
      }
    }

    method RequestLinks(count: nat)
      modifies this`links
      ensures old(links) <= links && |links| == |old(links)| + count
    {
      for i := 0 to count
        invariant old(links) <= links && |links| == |old(links)| + i
      {
        var s: LinkStatus := *;
        links := links + multiset{s};
      }
    }

    method ResetPasswords(count: nat)
      modifies this`resets
      ensures old(resets) <= resets
      ensures resets[(Request, Success)] == old(resets)[(Request, Success)] + count
      ensures resets[(Request, Failure)] == old(resets)[(Request, Failure)]
      ensures Completions(resets) == Completions(old(resets)) + count
    {
      for i := 0 to count
        invariant old(resets) <= resets
        invariant resets[(Request, Success)] == old(resets)[(Request, Success)] + i
        invariant resets[(Request, Failure)] == old(resets)[(Request, Failure)]
        invariant Completions(resets) == Completions(old(resets)) + i
      {
        resets := resets + multiset{(Request, Success)};
        if * {
          resets := resets + multiset{(Complete, Success)};
        } else {
          resets := resets + multiset{(Complete, Failure)};
        }
      }
    }

    method UseTwoFactor(count: nat)
      modifies this`twoFactor
      ensures old(twoFactor) <= twoFactor && |twoFactor| == |old(twoFactor)| + count
    {
      for i := 0 to count
        invariant old(twoFactor) <= twoFactor && |twoFactor| == |old(twoFactor)| + i
      {
        var op: TwoFactorOp := *;
        var s: Status := *;
        twoFactor := twoFactor + multiset{(op, s)};
      }
    }

    /** The first part of a tick. */
    method TickTraffic(x: Sample) returns (ghost registrations: nat, ghost attempted: nat, ghost failures: nat)
      modifies this`registrations, this`funnel, this`attempts, this`observations, this`errors, this`oauth,
               this`verifications
      ensures registrations == (if x.registrations < 1 then 1 else x.registrations)
      ensures attempted == (if x.attempts < 3 then 3 else x.attempts)
      ensures Traffic(old(Value()), Value(), Draws(registrations, attempted, failures, 0, 0, 0, 0))
    {
      var regCount := Max(1, x.registrations);
      Register(regCount);
      AdvanceFunnel(regCount);
      var authCount := Max(3, x.attempts);
      var failed := Authenticate(authCount);
      RecordErrors(failed);
      AttemptOauth(Max(1, authCount * 25 / 100));
      VerifyEmails(Max(0, regCount * 85 / 100));
      registrations, attempted, failures := regCount, authCount, failed;
    }

    /** The second part of a tick. */
    method TickMaintenance(x: Sample, ghost draws: Draws)
      requires InRange(x) && Clamped(x, draws)
      modifies this`links, this`resets, this`twoFactor, this`sessions
      ensures Maintenance(old(Value()), Value(), draws)
    {
      RequestLinks(Max(0, x.links));
      ResetPasswords(x.resets);
      UseTwoFactor(x.twoFactor);
      sessions := Max(10, x.sessions);
    }

    method Tick(x: Sample) returns (ghost draws: Draws)
      requires InRange(x)
      modifies this
      ensures Clamped(x, draws) && Ticked(old(Value()), Value(), draws)
    {
      ghost var registrations, attempted, failures := TickTraffic(x);
      draws := Draws(registrations, attempted, failures, Max(0, x.links), x.resets, x.twoFactor, Max(10, x.sessions));
      TickMaintenance(x, draws);
    }

    /** The ticks made before the generator settles into its interval. */
    method InitialBurst()
      requires Value() == EMPTY
      modifies this
      ensures Balanced(Value(), 60)
    {
      EmptyBalanced();
      for t := 0 to 60
        invariant Balanced(Value(), t)
      {
        ghost var before := Value();
        assert InRange(Sample(0, 0, 0, 0, 0, 0));
        var x: Sample :| InRange(x);
        ghost var draws := Tick(x);
        BalancedKept(before, Value(), draws, t);
      }
    }
  }

  // ------------------------------------------------------------------------------------------
  // All runs.

  /** The balance of the counters after t ticks. */
  ghost predicate Balanced(c: Metrics, t: nat) {
    var r, a := |c.registrations|, |c.attempts|;
    // Totals that must agree.
    && Failed(c.attempts) == |c.errors|
    && (forall m :: AttemptsBy(c.attempts, m) == c.observations[m])
    && c.resets[(Request, Failure)] == 0 && c.resets[(Request, Success)] == Completions(c.resets) <= 3 * t
    && |c.twoFactor| <= 2 * t && (t > 0 ==> c.sessions >= 10)
    // The funnel narrows and follows its rates up to what truncation loses per tick.
    && c.funnel[Started] == r >= t
    && c.funnel[Activated] <= c.funnel[EmailVerified] <= c.funnel[EmailSent] <= c.funnel[Started]
    && 19 * r - 19 * t <= 20 * c.funnel[EmailSent] <= 19 * r
    && 39 * r - 49 * t <= 50 * c.funnel[EmailVerified] <= 39 * r
    && 3 * r - 3 * t <= 4 * c.funnel[Activated] <= 3 * r
    && 17 * r - 19 * t <= 20 * |c.verifications| <= 17 * r
    // OAuth attempts are a quarter of all attempts, but at least one a tick.
    && a >= 3 * t && |c.oauth| >= t
    && a - 3 * t <= 4 * |c.oauth| <= a + t
  }

  lemma EmptyBalanced()
    ensures Balanced(EMPTY, 0)
  {
  }

  /** What truncating percentages of the draws gives. */
  lemma Rates(r: nat, a: nat)
    requires a >= 3
    ensures r * 75 / 100 <= r * 78 / 100 <= r * 95 / 100 <= r * 100 / 100 == r
    ensures 19 * r - 19 <= 20 * (r * 95 / 100) <= 19 * r
    ensures 39 * r - 49 <= 50 * (r * 78 / 100) <= 39 * r
    ensures 3 * r - 3 <= 4 * (r * 75 / 100) <= 3 * r
    ensures 17 * r - 19 <= 20 * (r * 85 / 100) <= 17 * r
    ensures a - 3 <= 4 * Max(1, a * 25 / 100) <= a + 1
  {
  }

  lemma FunnelSteps(a: Metrics, b: Metrics, d: Draws)
    requires Ticked(a, b, d)
    ensures b.funnel[Started] == a.funnel[Started] + d.registrations * 100 / 100
    ensures b.funnel[EmailSent] == a.funnel[EmailSent] + d.registrations * 95 / 100
    ensures b.funnel[EmailVerified] == a.funnel[EmailVerified] + d.registrations * 78 / 100
    ensures b.funnel[Activated] == a.funnel[Activated] + d.registrations * 75 / 100
  {
    assert FUNNEL_CONVERSION[0] == (Started, 100) && FUNNEL_CONVERSION[1] == (EmailSent, 95);
    assert FUNNEL_CONVERSION[2] == (EmailVerified, 78) && FUNNEL_CONVERSION[3] == (Activated, 75);
  }

  /** A tick keeps the balance. */
  lemma BalancedKept(a: Metrics, b: Metrics, d: Draws, t: nat)
    requires Balanced(a, t) && Ticked(a, b, d)
    ensures Balanced(b, t + 1)
  {
    FunnelSteps(a, b, d);
    Rates(d.registrations, d.attempts);
  }

  /** A run of the generator: the metrics before and after each tick. */
  ghost predicate Run(states: seq<Metrics>, draws: seq<Draws>) {
    && |states| == |draws| + 1 && states[0] == EMPTY
    && forall i :: 0 <= i < |draws| ==> Ticked(states[i], states[i + 1], draws[i])
  }

  /** After any number of ticks under any draws the counters balance. */
  lemma {:induction false} AlwaysBalanced(states: seq<Metrics>, draws: seq<Draws>)
    requires Run(states, draws)
    ensures Balanced(states[|draws|], |draws|)
    decreases |draws|
  {
    if |draws| == 0 {
      EmptyBalanced();
    } else {
      var n := |draws| - 1;
      AlwaysBalanced(states[..n + 1], draws[..n]);
      BalancedKept(states[n], states[n + 1], draws[n], n);
    }
  }

  /** No counter ever falls between two points of a run. */
  lemma {:induction false} CountersNeverFall(states: seq<Metrics>, draws: seq<Draws>, i: nat, j: nat)
    requires Run(states, draws) && i <= j <= |draws|
    ensures NeverDown(states[i], states[j])
    decreases j - i
  {
    if i < j {
      CountersNeverFall(states, draws, i, j - 1);
      assert Ticked(states[j - 1], states[j - 1 + 1], draws[j - 1]);
    }
  }

  function Drawn(draws: seq<Draws>): nat {
    if draws == [] then 0 else Drawn(draws[..|draws| - 1]) + draws[|draws| - 1].registrations
  }

  /** The counters tell what was drawn: no event is lost and none is counted twice. */
  lemma {:induction false} CountersTellDraws(states: seq<Metrics>, draws: seq<Draws>)
    requires Run(states, draws)
    ensures |states[|draws|].registrations| == Drawn(draws) == states[|draws|].funnel[Started]
    decreases |draws|
  {
    if |draws| > 0 {
      var n := |draws| - 1;
      CountersTellDraws(states[..n + 1], draws[..n]);
      FunnelSteps(states[n], states[n + 1], draws[n]);
    }
  }

  /** The lower bound of the activation rate is met when every tick draws one registration. */
  lemma {:induction false} ActivationBoundMet(states: seq<Metrics>, draws: seq<Draws>)
    requires Run(states, draws) && forall i :: 0 <= i < |draws| ==> draws[i].registrations == 1
    ensures 4 * states[|draws|].funnel[Activated] == 3 * |states[|draws|].registrations| - 3 * |draws|
    decreases |draws|
  {
    if |draws| > 0 {
      var n := |draws| - 1;
      ActivationBoundMet(states[..n + 1], draws[..n]);
      FunnelSteps(states[n], states[n + 1], draws[n]);
    }
  }
}
