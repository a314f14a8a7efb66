// The token polling loop of internal/auth/device.go (section 3.5 of RFC 8628).
//
// The surroundings of the loop (cancellation, the sleeper, the clock, the
// token endpoint) are a list of turns, one per iteration; the sleeper advances
// the clock by at least what was asked and no time is negative. Running out of
// turns means the loop is still going.
module DevicePoll {
  import opened Durations

  const FIVE_SECONDS := 5 * SECOND

  // NetError is a failed request or an unusable answer.
  datatype Answer = NetError | Token | Pending | SlowDown | ExpiredToken | Denied | OtherError

  // over is how much longer the sleep took, took the duration of the request.
  datatype Turn = Turn(cancelled: bool, sleepFails: bool, over: nat, answer: Answer, took: nat)

  // What the device endpoint and the provider settings say.
  datatype Config = Config(expiresIn: int, interval: int, pollMin: int, start: int)
  {
    // normalizedRuntime
    function PollMin(): (d: int)
      ensures d > 0
    {
      if pollMin <= 0 then FIVE_SECONDS else pollMin
    }

    function Lifetime(): nat { SafeDuration(expiresIn) }

    function ExpiresAt(): int { start + Lifetime() }

    function FirstInterval(): (d: int)
      ensures d >= PollMin() && d >= SafeDuration(interval)
      ensures d == PollMin() || d == SafeDuration(interval)
    {
      if SafeDuration(interval) < PollMin() then PollMin() else SafeDuration(interval)
    }
  }

  datatype Outcome =
    | BadLifetime | Got | CodeExpired | Cancelled | SleepError | UserDenied | AuthFailed
    | StillPolling

  // One request to the token endpoint: when, after which interval, and the answer.
  datatype Poll = Poll(at: int, interval: int, answer: Answer)

  datatype Trace = Trace(polls: seq<Poll>, outcome: Outcome)

  // A sleep of a negative duration returns at once.
  function Slept(interval: int): nat { if interval < 0 then 0 else interval }

  predicate KeepsPolling(a: Answer) { a == NetError || a == Pending || a == SlowDown }

  function OutcomeOf(a: Answer): Outcome {
    match a
    case Token => Got
    case ExpiredToken => CodeExpired
    case Denied => UserDenied
    case _ => AuthFailed
  }

  function Next(interval: int, a: Answer): int {
    if a.SlowDown? then Wrap64(interval + FIVE_SECONDS) else interval
  }

  function After(first: seq<Poll>, t: Trace): Trace { Trace(first + t.polls, t.outcome) }

  function Loop(clock: int, interval: int, expiresAt: int, turns: seq<Turn>): Trace
    decreases |turns|
  {
    if turns == [] then Trace([], StillPolling)
    else
      var t := turns[0];
      var woke := clock + Slept(interval) + t.over;
      if clock > expiresAt then Trace([], CodeExpired)
      else if t.cancelled then Trace([], Cancelled)
      else if t.sleepFails then Trace([], SleepError)
      else if woke >= expiresAt then Trace([], CodeExpired)
      else if !KeepsPolling(t.answer) then Trace([Poll(woke, interval, t.answer)], OutcomeOf(t.answer))
      else After([Poll(woke, interval, t.answer)], Loop(woke + t.took, Next(interval, t.answer), expiresAt, turns[1..]))
  }

  function Run(cfg: Config, turns: seq<Turn>): Trace {
    if cfg.expiresIn <= 0 then Trace([], BadLifetime)
    else Loop(cfg.start, cfg.FirstInterval(), cfg.ExpiresAt(), turns)
  }

  // Halfway through: what is still to come follows the polls so far.
  ghost predicate Goes(whole: Trace, polls: seq<Poll>, clock: int, interval: int, expiresAt: int, turns: seq<Turn>) {
    whole == After(polls, Loop(clock, interval, expiresAt, turns))
  }

  lemma GoesOn(whole: Trace, polls: seq<Poll>, clock: int, interval: int, expiresAt: int, turns: seq<Turn>)
    requires turns != [] && Goes(whole, polls, clock, interval, expiresAt, turns)
    ensures
      var t := turns[0];
      var woke := clock + Slept(interval) + t.over;
      var polls' := polls + [Poll(woke, interval, t.answer)];
      if clock > expiresAt then whole == Trace(polls, CodeExpired)
      else if t.cancelled then whole == Trace(polls, Cancelled)
      else if t.sleepFails then whole == Trace(polls, SleepError)
      else if woke >= expiresAt then whole == Trace(polls, CodeExpired)
      else if !KeepsPolling(t.answer) then whole == Trace(polls', OutcomeOf(t.answer))
      else Goes(whole, polls', woke + t.took, Next(interval, t.answer), expiresAt, turns[1..])
  {
  }

  method Authorize(cfg: Config, turns: seq<Turn>) returns (polls: seq<Poll>, outcome: Outcome)
    ensures Trace(polls, outcome) == Run(cfg, turns)
  {
    polls := [];
    if cfg.expiresIn <= 0 {
      return polls, BadLifetime;
    }
    var clock := cfg.start;
    var expiresAt := clock + SafeDuration(cfg.expiresIn);
    var currentInterval := SafeDuration(cfg.interval) as int;
    if currentInterval < cfg.PollMin() {
      currentInterval := cfg.PollMin();
    }
    var i := 0;
    while i < |turns|
      invariant 0 <= i <= |turns|
      invariant Goes(Run(cfg, turns), polls, clock, currentInterval, expiresAt, turns[i..])
    {
      var t := turns[i];
      GoesOn(Run(cfg, turns), polls, clock, currentInterval, expiresAt, turns[i..]);
      assert turns[i..][1..] == turns[i + 1..];
      if clock > expiresAt {
        return polls, CodeExpired;
      }
      if t.cancelled {
        return polls, Cancelled;
      }
      if t.sleepFails {
        return polls, SleepError;
      }
      clock := clock + Slept(currentInterval) + t.over;
      if clock >= expiresAt {
        return polls, CodeExpired;
      }
      polls := polls + [Poll(clock, currentInterval, t.answer)];
      match t.answer {
        case Token => return polls, Got;
        case ExpiredToken => return polls, CodeExpired;
        case Denied => return polls, UserDenied;
        case OtherError => return polls, AuthFailed;
        case SlowDown => currentInterval := Wrap64(currentInterval + FIVE_SECONDS);
        case _ =>
      }
      clock := clock + t.took;
      i := i + 1;
    }
    outcome := StillPolling;
  }

  // ---------------------------------------------------------------------
  // Turn by turn: when a poll is made, and why none is
  // ---------------------------------------------------------------------

  // The settings in plain numbers: five seconds when no minimum is set, and
  // never less than the server asks for.
  lemma FirstIntervalIsTheLarger(cfg: Config)
    ensures
      var least := if cfg.pollMin <= 0 then 5_000_000_000 else cfg.pollMin;
      && cfg.PollMin() == least
      && cfg.FirstInterval() == if SafeDuration(cfg.interval) < least then least else SafeDuration(cfg.interval)
  {
  }

  // The clock and the interval in front of turn k, when all turns before it
  // went on.
  function Before(clock: int, interval: int, turns: seq<Turn>, k: nat): (int, int)
    requires k <= |turns|
    decreases k
  {
    if k == 0 then (clock, interval)
    else
      var t := turns[0];
      Before(clock + (if interval > 0 then interval else 0) + t.over + t.took,
             if t.answer == SlowDown then Wrap64(interval + 5_000_000_000) else interval, turns[1..], k - 1)
  }

  // Turn t, with this clock and interval in front, gets as far as its request.
  predicate Asks(clock: int, interval: int, expiresAt: int, t: Turn) {
    && clock <= expiresAt && !t.cancelled && !t.sleepFails
    && clock + (if interval > 0 then interval else 0) + t.over < expiresAt
  }

  // The poll of turn t, with clock and interval of front in front of it.
  ghost predicate IsPoll(poll: Poll, front: (int, int), expiresAt: int, t: Turn) {
    var (clock, interval) := front;
    && Asks(clock, interval, expiresAt, t)
    && poll == Poll(clock + (if interval > 0 then interval else 0) + t.over, interval, t.answer)
  }

  lemma {:induction false} LoopPollsWhenDue(clock: int, interval: int, expiresAt: int, turns: seq<Turn>, k: nat)
    requires k < |Loop(clock, interval, expiresAt, turns).polls|
    ensures k < |turns|
    ensures IsPoll(Loop(clock, interval, expiresAt, turns).polls[k], Before(clock, interval, turns, k), expiresAt, turns[k])
    decreases k
  {
    if k > 0 {
      var t := turns[0];
      var woke := clock + Slept(interval) + t.over;
      LoopPollsWhenDue(woke + t.took, Next(interval, t.answer), expiresAt, turns[1..], k - 1);
    }
  }

  // What ends the loop in front of turn t, if it does not ask.
  ghost predicate EndsBefore(outcome: Outcome, clock: int, interval: int, expiresAt: int, t: Turn) {
    && !Asks(clock, interval, expiresAt, t)
    && outcome == if clock <= expiresAt && t.cancelled then Cancelled
                  else if clock <= expiresAt && t.sleepFails then SleepError
                  else CodeExpired
  }

  // What a last poll with this answer makes of the loop.
  ghost predicate EndsOn(outcome: Outcome, answer: Answer) {
    match answer
    case Token => outcome == Got
    case ExpiredToken => outcome == CodeExpired
    case Denied => outcome == UserDenied
    case OtherError => outcome == AuthFailed
    case _ => false
  }

  // The last poll was the answer, or the turns ran out, or the next one does
  // not ask.
  ghost predicate EndsFor(t: Trace, clock: int, interval: int, expiresAt: int, turns: seq<Turn>) {
    var n := |t.polls|;
    && n <= |turns|
    && (if n > 0 && !KeepsPolling(t.polls[n - 1].answer) then EndsOn(t.outcome, t.polls[n - 1].answer)
        else if n == |turns| then t.outcome == StillPolling
        else
          var (c, i) := Before(clock, interval, turns, n);
          EndsBefore(t.outcome, c, i, expiresAt, turns[n]))
  }

  // The first turn polls and the loop goes on with the rest.
  lemma EndsForPush(first: Poll, rest: Trace, clock: int, interval: int, expiresAt: int, turns: seq<Turn>,
                    clock': int, interval': int)
    requires turns != [] && first.answer == turns[0].answer && KeepsPolling(first.answer)
    requires clock' == clock + (if interval > 0 then interval else 0) + turns[0].over + turns[0].took
    requires interval' == if first.answer == SlowDown then Wrap64(interval + 5_000_000_000) else interval
    requires EndsFor(rest, clock', interval', expiresAt, turns[1..])
    ensures EndsFor(Trace([first] + rest.polls, rest.outcome), clock, interval, expiresAt, turns)
  {
    var n := |rest.polls|;
    var all := [first] + rest.polls;
    assert all[n] == if n == 0 then first else rest.polls[n - 1];
    assert n + 1 < |turns| ==> Before(clock, interval, turns, n + 1) == Before(clock', interval', turns[1..], n);
  }

  lemma LoopEndsNow(clock: int, interval: int, expiresAt: int, turns: seq<Turn>)
    requires turns == [] || !KeepsPolling(turns[0].answer) || !Asks(clock, interval, expiresAt, turns[0])
    ensures EndsFor(Loop(clock, interval, expiresAt, turns), clock, interval, expiresAt, turns)
  {
  }

  lemma {:induction false} LoopEndsFor(clock: int, interval: int, expiresAt: int, turns: seq<Turn>)
    ensures EndsFor(Loop(clock, interval, expiresAt, turns), clock, interval, expiresAt, turns)
    decreases |turns|
  {
    if turns == [] || !KeepsPolling(turns[0].answer) || !Asks(clock, interval, expiresAt, turns[0]) {
      LoopEndsNow(clock, interval, expiresAt, turns);
    } else {
      var t := turns[0];
      var woke := clock + Slept(interval) + t.over;
      var clock', interval' := woke + t.took, Next(interval, t.answer);
      LoopEndsFor(clock', interval', expiresAt, turns[1..]);
      EndsForPush(Poll(woke, interval, t.answer), Loop(clock', interval', expiresAt, turns[1..]),
                  clock, interval, expiresAt, turns, clock', interval');
    }
  }

  // The whole flow: no polls exactly for a lifetime that is not positive; else
  // the k-th turn makes the k-th poll, when its interval is over and the code
  // has not expired; and the loop stops exactly at the first answer that is
  // final or the first turn that does not ask, for the reason that is there.
  lemma PollsWhenDue(cfg: Config, turns: seq<Turn>, k: nat)
    ensures Run(cfg, turns).outcome == BadLifetime <==> cfg.expiresIn <= 0
    ensures cfg.expiresIn <= 0 ==> Run(cfg, turns).polls == []
    ensures cfg.expiresIn > 0 ==> EndsFor(Run(cfg, turns), cfg.start, cfg.FirstInterval(), cfg.start + SafeDuration(cfg.expiresIn), turns)
    ensures k < |Run(cfg, turns).polls| ==>
      && k < |turns|
      && IsPoll(Run(cfg, turns).polls[k], Before(cfg.start, cfg.FirstInterval(), turns, k),
                cfg.start + SafeDuration(cfg.expiresIn), turns[k])
  {
    if cfg.expiresIn > 0 {
      LoopEndsFor(cfg.start, cfg.FirstInterval(), cfg.ExpiresAt(), turns);
      if k < |Run(cfg, turns).polls| {
        LoopPollsWhenDue(cfg.start, cfg.FirstInterval(), cfg.ExpiresAt(), turns, k);
      }
    }
  }

  // ---------------------------------------------------------------------
  // For every configuration: no poll at or after expiry
  // ---------------------------------------------------------------------

  // The first poll comes after its interval and before expiry.
  lemma OnePoll(clock: int, interval: int, expiresAt: int, turns: seq<Turn>)
    requires Loop(clock, interval, expiresAt, turns).polls != []
    ensures
      var first := Loop(clock, interval, expiresAt, turns).polls[0];
      first.interval == interval && clock <= first.at < expiresAt && clock + interval <= first.at
  {
  }

  // In order, from the clock to expiry, all but the last one told to keep polling.
  ghost predicate Timely(polls: seq<Poll>, clock: int, expiresAt: int) {
    && (forall k :: 0 <= k < |polls| ==> clock <= polls[k].at < expiresAt)
    && (forall j, k :: 0 <= j < k < |polls| ==> polls[j].at <= polls[k].at)
    && (forall k :: 0 <= k < |polls| - 1 ==> KeepsPolling(polls[k].answer))
  }

  lemma TimelyPush(first: Poll, rest: seq<Poll>, clock: int, later: int, expiresAt: int)
    requires clock <= first.at < expiresAt && KeepsPolling(first.answer)
    requires first.at <= later && Timely(rest, later, expiresAt)
    ensures Timely([first] + rest, clock, expiresAt)
  {
    var all := [first] + rest;
    assert forall k :: 0 < k < |all| ==> all[k] == rest[k - 1];
  }

  lemma {:induction false} LoopPollsBeforeExpiry(clock: int, interval: int, expiresAt: int, turns: seq<Turn>)
    ensures Timely(Loop(clock, interval, expiresAt, turns).polls, clock, expiresAt)
    decreases |turns|
  {
    var polls := Loop(clock, interval, expiresAt, turns).polls;
    if polls == [] {
    } else if |polls| == 1 {
      OnePoll(clock, interval, expiresAt, turns);
    } else {
      var t := turns[0];
      var woke := clock + Slept(interval) + t.over;
      var rest := Loop(woke + t.took, Next(interval, t.answer), expiresAt, turns[1..]);
      LoopPollsBeforeExpiry(woke + t.took, Next(interval, t.answer), expiresAt, turns[1..]);
      TimelyPush(Poll(woke, interval, t.answer), rest.polls, clock, woke + t.took, expiresAt);
    }
  }

  lemma {:induction false} StillPollingUsedAllTurns(clock: int, interval: int, expiresAt: int, turns: seq<Turn>)
    requires Loop(clock, interval, expiresAt, turns).outcome.StillPolling?
    ensures |Loop(clock, interval, expiresAt, turns).polls| == |turns|
    decreases |turns|
  {
    if turns != [] {
      var t := turns[0];
      var woke := clock + Slept(interval) + t.over;
      StillPollingUsedAllTurns(woke + t.took, Next(interval, t.answer), expiresAt, turns[1..]);
    }
  }

  // For every lifetime and interval: each poll is before expiry, they are in
  // order, and every one before the last was answered with "keep polling".
  lemma PollsBeforeExpiry(cfg: Config, turns: seq<Turn>)
    ensures forall k :: 0 <= k < |Run(cfg, turns).polls| ==> cfg.start <= Run(cfg, turns).polls[k].at < cfg.ExpiresAt()
    ensures forall j, k :: 0 <= j < k < |Run(cfg, turns).polls| ==> Run(cfg, turns).polls[j].at <= Run(cfg, turns).polls[k].at
    ensures forall k :: 0 <= k < |Run(cfg, turns).polls| - 1 ==> KeepsPolling(Run(cfg, turns).polls[k].answer)
  {
    if cfg.expiresIn > 0 {
      LoopPollsBeforeExpiry(cfg.start, cfg.FirstInterval(), cfg.ExpiresAt(), turns);
    }
  }

  // The token is returned exactly when the last poll brought it.
  lemma {:induction false} LoopEndsOnAnswer(clock: int, interval: int, expiresAt: int, turns: seq<Turn>)
    ensures
      var t := Loop(clock, interval, expiresAt, turns);
      var n := |t.polls|;
      && (t.outcome.Got? <==> n > 0 && t.polls[n - 1].answer.Token?)
      && (t.outcome.UserDenied? <==> n > 0 && t.polls[n - 1].answer.Denied?)
      && (t.outcome.AuthFailed? <==> n > 0 && t.polls[n - 1].answer.OtherError?)
      && (n > 0 && t.polls[n - 1].answer.ExpiredToken? ==> t.outcome.CodeExpired?)
    decreases |turns|
  {
    if turns != [] {
      var t := turns[0];
      var woke := clock + Slept(interval) + t.over;
      LoopEndsOnAnswer(woke + t.took, Next(interval, t.answer), expiresAt, turns[1..]);
    }
  }

  // ---------------------------------------------------------------------
  // The interval
  // ---------------------------------------------------------------------

  function SlowDowns(polls: seq<Poll>): nat {
    if polls == [] then 0 else (if polls[0].answer.SlowDown? then 1 else 0) + SlowDowns(polls[1..])
  }

  // No addition of five seconds passes the largest duration.
  ghost predicate NoOverflow(t: Trace) {
    forall k :: 0 <= k < |t.polls| && t.polls[k].answer.SlowDown? ==> t.polls[k].interval + FIVE_SECONDS <= MAX_INT64
  }

  function Slower(interval: int, a: Answer): int { if a.SlowDown? then interval + FIVE_SECONDS else interval }

  // Every poll is preceded by its own interval, five seconds longer after each
  // slow_down.
  ghost predicate Paced(polls: seq<Poll>, clock: int, interval: int)
    decreases |polls|
  {
    polls == [] ||
    (polls[0].interval == interval
     && polls[0].at >= clock + interval
     && Paced(polls[1..], polls[0].at, Slower(interval, polls[0].answer)))
  }

  lemma PacedSooner(polls: seq<Poll>, clock: int, earlier: int, interval: int)
    requires Paced(polls, clock, interval) && earlier <= clock
    ensures Paced(polls, earlier, interval)
  {
  }

  lemma NextIsSlower(interval: int, a: Answer, lifetime: int)
    requires 0 <= interval < lifetime <= MAX_INT64 - FIVE_SECONDS
    ensures Next(interval, a) == Slower(interval, a) && interval + FIVE_SECONDS <= MAX_INT64
  {
  }

  lemma PacedPush(first: Poll, rest: Trace, clock: int, interval: int)
    requires first.interval == interval && first.at >= clock + interval && interval + FIVE_SECONDS <= MAX_INT64
    requires Paced(rest.polls, first.at, Slower(interval, first.answer)) && NoOverflow(rest)
    ensures Paced(After([first], rest).polls, clock, interval) && NoOverflow(After([first], rest))
  {
    var all := After([first], rest).polls;
    assert all[1..] == rest.polls;
    assert forall k :: 0 < k < |all| ==> all[k] == rest.polls[k - 1];
  }

  // The sum cannot overflow: a poll only happens after its interval has passed,
  // so the interval is below the lifetime.
  lemma {:induction false} LoopIsPaced(start: int, clock: int, interval: int, expiresAt: int, turns: seq<Turn>)
    requires start <= clock && 0 <= interval && expiresAt - start <= MAX_INT64 - FIVE_SECONDS
    ensures Paced(Loop(clock, interval, expiresAt, turns).polls, clock, interval)
    ensures NoOverflow(Loop(clock, interval, expiresAt, turns))
    decreases |turns|
  {
    var all := Loop(clock, interval, expiresAt, turns);
    if all.polls == [] {
    } else if |all.polls| == 1 {
      OnePoll(clock, interval, expiresAt, turns);
    } else {
      var t := turns[0];
      var woke := clock + Slept(interval) + t.over;
      var next := Next(interval, t.answer);
      var rest := Loop(woke + t.took, next, expiresAt, turns[1..]);
      NextIsSlower(interval, t.answer, expiresAt - start);
      LoopIsPaced(start, woke + t.took, next, expiresAt, turns[1..]);
      PacedSooner(rest.polls, woke + t.took, woke, next);
      PacedPush(Poll(woke, interval, t.answer), rest, clock, interval);
    }
  }

  // The whole seconds up to which no interval can overflow.
  const SAFE_SECONDS := 9223372031

  lemma SafeLifetime(cfg: Config)
    requires 0 < cfg.expiresIn <= SAFE_SECONDS
    ensures 0 < cfg.Lifetime() == cfg.expiresIn * SECOND <= MAX_INT64 - FIVE_SECONDS
  {
  }

  lemma {:induction false} PacedAt(polls: seq<Poll>, clock: int, interval: int, k: nat)
    requires Paced(polls, clock, interval) && k < |polls|
    ensures polls[k].interval == interval + FIVE_SECONDS * SlowDowns(polls[..k])
    ensures polls[k].at >= (if k == 0 then clock else polls[k - 1].at) + polls[k].interval
    decreases k
  {
    if k > 0 {
      PacedAt(polls[1..], polls[0].at, Slower(interval, polls[0].answer), k - 1);
      assert polls[..k][1..] == polls[1..][..k - 1];
    }
  }

  // In every run the interval before a poll is exactly the larger of the
  // server's interval and the minimum, plus five seconds per slow_down so far,
  // and at least that much time has passed since the poll before.
  lemma PollsArePaced(cfg: Config, turns: seq<Turn>, k: nat)
    requires 0 < cfg.expiresIn <= SAFE_SECONDS && k < |Run(cfg, turns).polls|
    ensures
      var polls := Run(cfg, turns).polls;
      && polls[k].interval == cfg.FirstInterval() + FIVE_SECONDS * SlowDowns(polls[..k])
      && polls[k].at >= (if k == 0 then cfg.start else polls[k - 1].at) + polls[k].interval
  {
    SafeLifetime(cfg);
    LoopIsPaced(cfg.start, cfg.start, cfg.FirstInterval(), cfg.ExpiresAt(), turns);
    PacedAt(Run(cfg, turns).polls, cfg.start, cfg.FirstInterval(), k);
  }

  lemma OneMoreTerm(n: nat, d: nat)
    ensures (n + 1) * d == n * d + d
  {
  }

  lemma {:induction false} PollsTakeTime(polls: seq<Poll>, clock: int, interval: int, least: nat)
    requires Paced(polls, clock, interval) && polls != [] && interval >= least
    ensures polls[|polls| - 1].at >= clock + |polls| * least
    decreases |polls|
  {
    if |polls| > 1 {
      PollsTakeTime(polls[1..], polls[0].at, Slower(interval, polls[0].answer), least);
      OneMoreTerm(|polls| - 1, least);
    }
  }

  // Fewer polls than the lifetime has minimum intervals.
  lemma FewPolls(cfg: Config, turns: seq<Turn>)
    requires 0 < cfg.expiresIn <= SAFE_SECONDS
    ensures |Run(cfg, turns).polls| * cfg.PollMin() < cfg.Lifetime()
  {
    var polls := Run(cfg, turns).polls;
    SafeLifetime(cfg);
    if polls != [] {
      LoopIsPaced(cfg.start, cfg.start, cfg.FirstInterval(), cfg.ExpiresAt(), turns);
      PollsTakeTime(polls, cfg.start, cfg.FirstInterval(), cfg.PollMin());
      PollsBeforeExpiry(cfg, turns);
    }
  }

  // The loop ends: after as many turns as the lifetime has minimum intervals
  // it is not polling any more.
  lemma PollingEnds(cfg: Config, turns: seq<Turn>)
    requires 0 < cfg.expiresIn <= SAFE_SECONDS
    requires |turns| * cfg.PollMin() >= cfg.Lifetime()
    ensures !Run(cfg, turns).outcome.StillPolling?
  {
    FewPolls(cfg, turns);
    if Run(cfg, turns).outcome.StillPolling? {
      StillPollingUsedAllTurns(cfg.start, cfg.FirstInterval(), cfg.ExpiresAt(), turns);
    }
  }

  ghost predicate NeverOverflows(expiresIn: int) {
    forall cfg: Config, turns :: cfg.expiresIn == expiresIn ==> NoOverflow(Run(cfg, turns))
  }

  lemma WrapsAround(expiresIn: int)
    requires expiresIn > SAFE_SECONDS
    ensures
      var cfg := Config(expiresIn, 0, SafeDuration(expiresIn) - 1, 0);
      !NoOverflow(Run(cfg, [Turn(false, false, 0, SlowDown, 0)]))
  {
    var lifetime := SafeDuration(expiresIn);
    assert lifetime > MAX_INT64 - FIVE_SECONDS + 1;
    var cfg := Config(expiresIn, 0, lifetime - 1, 0);
    var turns := [Turn(false, false, 0, SlowDown, 0)];
    assert cfg.FirstInterval() == lifetime - 1;
    var polls := Run(cfg, turns).polls;
    assert polls[0] == Poll(lifetime - 1, lifetime - 1, SlowDown);
  }

  // The bound is exact: beyond it some provider settings and one slow_down
  // make the interval wrap around.
  lemma OverflowFreeIffSafe(expiresIn: int)
    requires expiresIn > 0
    ensures NeverOverflows(expiresIn) <==> expiresIn <= SAFE_SECONDS
  {
    if expiresIn <= SAFE_SECONDS {
      forall cfg: Config, turns | cfg.expiresIn == expiresIn
        ensures NoOverflow(Run(cfg, turns))
      {
        SafeLifetime(cfg);
        LoopIsPaced(cfg.start, cfg.start, cfg.FirstInterval(), cfg.ExpiresAt(), turns);
      }
    } else {
      WrapsAround(expiresIn);
    }
  }

  // ---------------------------------------------------------------------
  // How often the endpoint can be polled
  // ---------------------------------------------------------------------

  ghost predicate PollsAtMost(expiresIn: int, bound: nat) {
    forall cfg: Config, turns :: cfg.expiresIn == expiresIn ==> |Run(cfg, turns).polls| <= bound
  }

  // One number bounds the polls for all settings, clocks and answers.
  ghost predicate PollsAreBounded(expiresIn: int) {
    exists bound: nat :: PollsAtMost(expiresIn, bound)
  }

  // n more times "pending", with no time passing but the sleep.
  function Pendings(n: nat): (turns: seq<Turn>)
    ensures |turns| == n
  {
    if n == 0 then [] else [Turn(false, false, 0, Pending, 0)] + Pendings(n - 1)
  }

  // A wrapped interval is negative, every sleep returns at once, and the clock
  // never gets anywhere.
  lemma {:induction false} NegativeIntervalSpins(clock: int, interval: int, expiresAt: int, n: nat)
    requires interval < 0 && clock < expiresAt
    ensures |Loop(clock, interval, expiresAt, Pendings(n)).polls| == n
    decreases n
  {
    if n > 0 {
      NegativeIntervalSpins(clock, interval, expiresAt, n - 1);
      assert Pendings(n)[1..] == Pendings(n - 1);
    }
  }

  lemma WrappedIsNegative(interval: int)
    requires MAX_INT64 - FIVE_SECONDS < interval <= MAX_INT64
    ensures Next(interval, SlowDown) < 0
  {
  }

  lemma UnsafeLifetimeSpins(expiresIn: int, n: nat)
    requires expiresIn > SAFE_SECONDS
    ensures
      var cfg := Config(expiresIn, 0, SafeDuration(expiresIn) - 1, 0);
      |Run(cfg, [Turn(false, false, 0, SlowDown, 0)] + Pendings(n)).polls| == n + 1
  {
    var lifetime := SafeDuration(expiresIn);
    var cfg := Config(expiresIn, 0, lifetime - 1, 0);
    var turns := [Turn(false, false, 0, SlowDown, 0)] + Pendings(n);
    assert turns[1..] == Pendings(n);
    assert cfg.FirstInterval() == lifetime - 1;
    WrappedIsNegative(lifetime - 1);
    NegativeIntervalSpins(lifetime - 1, Next(lifetime - 1, SlowDown), lifetime, n);
  }

  lemma AtLeastOne(n: nat, d: nat)
    requires d > 0
    ensures n <= n * d
  {
    assert n * d - n == n * (d - 1);
  }

  // The loop is bounded for all settings and answers exactly when the lifetime
  // is safe; then by its nanoseconds.
  lemma PollsAreBoundedIffSafe(expiresIn: int)
    ensures PollsAreBounded(expiresIn) <==> expiresIn <= SAFE_SECONDS
  {
    if expiresIn <= SAFE_SECONDS {
      forall cfg: Config, turns | cfg.expiresIn == expiresIn
        ensures |Run(cfg, turns).polls| <= SafeDuration(expiresIn)
      {
        if expiresIn > 0 {
          FewPolls(cfg, turns);
          AtLeastOne(|Run(cfg, turns).polls|, cfg.PollMin());
        }
      }
      assert PollsAtMost(expiresIn, SafeDuration(expiresIn));
    } else {
      forall bound: nat
        ensures !PollsAtMost(expiresIn, bound)
      {
        UnsafeLifetimeSpins(expiresIn, bound);
      }
    }
  }
}
