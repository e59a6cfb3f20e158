/**
 What the clock guard keeps over every sequence of evaluations and installations, with
 any wall clock, as long as nobody clears or damages the trusted-time file.
 */
module TrustedClockRuns {
  import opened TrustedClock
  import opened Wrappers

  datatype Step = Evaluate(observed: int, update: bool) | Install(delivery: Delivery, now: int)

  /** The state that a step evaluates, and the time at which it does. */
  function Evaluated(s: State, step: Step): State {
    match step
    case Evaluate(_, _) => s
    case Install(d, now) => if Installable(d, now) then Placed(s, d, now) else s
  }

  predicate Evaluates(step: Step) {
    match step
    case Evaluate(_, _) => true
    case Install(d, now) => Installable(d, now)
  }

  function Clock(step: Step): int {
    match step
    case Evaluate(observed, _) => observed
    case Install(_, now) => now
  }

  predicate Updates(step: Step) {
    Evaluates(step) && (step.Evaluate? ==> step.update)
  }

  function Next(s: State, step: Step): State {
    var e := Evaluated(s, step);
    if Evaluates(step) then e.(trusted := FileAfter(e, Clock(step), Updates(step))) else s
  }

  function Run(s: State, steps: seq<Step>): State {
    if steps == [] then s else Next(Run(s, steps[..|steps| - 1]), steps[|steps| - 1])
  }

  /** The lease a step decides on, and its decision. */
  function Outcome(s: State, step: Step): Decision
    requires Evaluates(step)
  {
    Decide(Evaluated(s, step), Clock(step))
  }

  /** No file yet, or one whose highest time is at least its server time. */
  predicate Guarded(file: TrustedFile) {
    file.Absent? || (file.Present? && file.server.At? && file.highest.At? && file.highest.time >= file.server.time)
  }

  /** `b` guards at least as much as `a`. */
  predicate NotBehind(a: TrustedFile, b: TrustedFile)
    requires Guarded(a) && Guarded(b)
  {
    a.Present? ==> b.Present? && b.highest.time >= a.highest.time && b.server.time >= a.server.time
  }

  /** The evaluation came to a trusted time. */
  predicate Accepted(s: State, observed: int) {
    BeforeClock(s).None? && EffectiveTime(s.trusted, observed, s.lease.lease.serverTime.time).Ok?
  }

  function TimeOf(s: State, observed: int): int
    requires Accepted(s, observed)
  {
    EffectiveTime(s.trusted, observed, s.lease.lease.serverTime.time).value
  }

  // --- exactly when the clock is trusted ------------------------------------------

  /**
   With a guarded file the clock is trusted exactly when the lease is newer than
   everything ever observed, or it is not older than the last one and the wall clock is
   at most five minutes behind the highest time. In the first case the wall clock does
   not matter, so such a lease lifts every block.
   */
  lemma ClockIsTrustedExactly(file: TrustedFile, observed: int, server: int)
    requires Guarded(file)
    ensures EffectiveTime(file, observed, server).Ok?
      <==> if file.Absent? then observed >= server - 300_000
           else server > file.highest.time || (server >= file.server.time && observed >= file.highest.time - 300_000)
    ensures var r := EffectiveTime(file, observed, server);
            && (r.Ok? ==> r.value >= observed && r.value >= server && (file.Present? ==> r.value >= file.highest.time))
            && (r.Ok? ==> r.value == observed || r.value == server || (file.Present? && r.value == file.highest.time))
            && (r.Err? ==> r.error == if file.Present? && server < file.server.time then ServerTimeRollback else ClockRollback)
  {
  }

  // --- exactly when a search is allowed -------------------------------------------

  /** A list of at most 32 source keys: two to 32 of a-z, 0-9 and hyphens, a letter first. */
  predicate WellFormed(sources: Sources) {
    match sources
    case Unlisted => true
    case BadSources => false
    case Listed(keys) =>
      |keys| <= 32 && forall k | k in keys ::
        2 <= |k| <= 32 && k[0] in "abcdefghijklmnopqrstuvwxyz"
        && forall c | c in k :: c in "abcdefghijklmnopqrstuvwxyz0123456789-"
  }

  /** The sources a lease names; one from before the list existed is for Encar. */
  function Named(sources: Sources): set<string>
    requires !sources.BadSources?
  {
    match sources
    case Unlisted => {"encar"}
    case Listed(keys) => set k | k in keys
  }

  lemma LettersAre(c: char)
    ensures c in "abcdefghijklmnopqrstuvwxyz" <==> 'a' <= c <= 'z'
  {
    var letters := "abcdefghijklmnopqrstuvwxyz";
    if 'a' <= c <= 'z' {
      assert letters[c as int - 'a' as int] == c;
    }
  }

  lemma KeyCharsAre(c: char)
    ensures c in "abcdefghijklmnopqrstuvwxyz0123456789-" <==> KeyChar(c)
  {
    var others := "0123456789-";
    LettersAre(c);
    assert "abcdefghijklmnopqrstuvwxyz0123456789-" == "abcdefghijklmnopqrstuvwxyz" + others;
    if '0' <= c <= '9' {
      assert others[c as int - '0' as int] == c;
    }
    assert others[10] == '-';
  }

  lemma SourcesAre(sources: Sources)
    ensures SourceSet(sources).Some? <==> WellFormed(sources)
    ensures WellFormed(sources) ==> SourceSet(sources).value == Named(sources)
  {
    hide KeyChar;
    if sources.Listed? {
      forall k | k in sources.keys && k != ""
        ensures k[0] in "abcdefghijklmnopqrstuvwxyz" <==> 'a' <= k[0] <= 'z'
        ensures (forall c | c in k :: c in "abcdefghijklmnopqrstuvwxyz0123456789-") <==> forall c | c in k :: KeyChar(c)
      {
        LettersAre(k[0]);
        forall c | c in k ensures c in "abcdefghijklmnopqrstuvwxyz0123456789-" <==> KeyChar(c) {
          KeyCharsAre(c);
        }
      }
    }
  }

  /**
   A lease is active exactly when it is signed, was issued to the licence and device that
   this installation is bound to, at its own server time and before its expiry, the clock
   is trusted, what it grants is well formed, and the effective time lies before the ends
   of lease and subscription. It then allows searching exactly when it grants search and
   names a source.
   */
  lemma ActiveExactly(s: State, observed: int)
    ensures Decide(s, observed).Active? <==>
      && s.lease.Signed?
      && var lease := s.lease.lease;
      && s.binding == Bound(lease.license, lease.device)
      && lease.serverTime.At? && lease.issuedAt == lease.serverTime
      && lease.expires.At? && lease.serverTime.time < lease.expires.time
      && lease.search.Some? && WellFormed(lease.sources)
      && var effective := EffectiveTime(s.trusted, observed, lease.serverTime.time);
      && effective.Ok? && effective.value < lease.expires.time
      && (lease.subscription.Missing? || (lease.subscription.At? && effective.value < lease.subscription.time))
    ensures var decision := Decide(s, observed);
            decision.Active? ==>
              var lease := s.lease.lease;
              && EffectiveTime(s.trusted, observed, lease.serverTime.time) == Ok(decision.effective)
              && decision.sources == Named(lease.sources)
              && (decision.canSearch <==> lease.search == Some(true) && Named(lease.sources) != {})
  {
    hide EffectiveTime, WellFormed, SourceSet;
    if s.lease.Signed? {
      SourcesAre(s.lease.lease.sources);
    }
  }

  /** The installation is bound, and its lease is signed. */
  predicate Installed(s: State) {
    s.binding.Bound? && s.lease.Signed?
  }

  predicate Mine(s: State) {
    Installed(s) && s.binding == Bound(s.lease.lease.license, s.lease.lease.device)
  }

  predicate Timed(s: State) {
    && Mine(s) && s.lease.lease.serverTime.At? && s.lease.lease.issuedAt == s.lease.lease.serverTime
    && s.lease.lease.expires.At? && s.lease.lease.serverTime.time < s.lease.lease.expires.time
  }

  function Clocked(s: State, observed: int): Result<int, Reason>
    requires Timed(s)
  {
    EffectiveTime(s.trusted, observed, s.lease.lease.serverTime.time)
  }

  /** What has to be wrong for this reason to be given, all that is checked before being right. */
  predicate Because(s: State, observed: int, reason: Reason) {
    match reason
    case NotConfigured => s.binding.NoBinding? || (s.binding.Bound? && s.lease.NoLease?)
    case StateUnreadable =>
      || s.binding.BadBinding? || (s.binding.Bound? && s.lease.BadLease?)
      || (Timed(s) && (s.trusted.Garbled? || s.trusted.Inaccessible?))
    case LeaseUnverified => s.binding.Bound? && s.lease.Forged?
    case DeviceMismatch => Installed(s) && !Mine(s)
    case ServerTimeInvalid => Mine(s) && !s.lease.lease.serverTime.At?
    case IssuedAtInvalid => Mine(s) && s.lease.lease.serverTime.At? && !s.lease.lease.issuedAt.At?
    case LeaseExpiryInvalid =>
      Mine(s) && s.lease.lease.serverTime.At? && s.lease.lease.issuedAt.At? && !s.lease.lease.expires.At?
    case LeaseTimeInvalid =>
      && Mine(s) && s.lease.lease.serverTime.At? && s.lease.lease.issuedAt.At? && s.lease.lease.expires.At? && !Timed(s)
    case EntitlementsInvalid => Timed(s) && Clocked(s, observed).Ok? && s.lease.lease.search.None?
    case SourcesInvalid =>
      Timed(s) && Clocked(s, observed).Ok? && s.lease.lease.search.Some? && !WellFormed(s.lease.lease.sources)
    case LeaseExpired => Timed(s) && Granted(s, observed) && Clocked(s, observed).value >= s.lease.lease.expires.time
    case SubscriptionExpiryInvalid =>
      && Timed(s) && Granted(s, observed) && Clocked(s, observed).value < s.lease.lease.expires.time
      && s.lease.lease.subscription.Malformed?
    case SubscriptionExpired =>
      && Timed(s) && Granted(s, observed) && Clocked(s, observed).value < s.lease.lease.expires.time
      && s.lease.lease.subscription.At? && Clocked(s, observed).value >= s.lease.lease.subscription.time
    case _ => Timed(s) && Clocked(s, observed) == Err(reason)
  }

  predicate Granted(s: State, observed: int)
    requires Timed(s)
  {
    Clocked(s, observed).Ok? && s.lease.lease.search.Some? && WellFormed(s.lease.lease.sources)
  }

  /** Every refusal gives the reason for which it is made, and none is given without it. */
  lemma RefusedExactly(s: State, observed: int, reason: Reason)
    ensures Decide(s, observed) == Blocked(reason) <==> Because(s, observed, reason)
  {
    hide WellFormed, SourceSet, EffectiveTime;
    if s.lease.Signed? {
      SourcesAre(s.lease.lease.sources);
      if s.lease.lease.serverTime.At? {
        ClockRefusedExactly(s.trusted, observed, s.lease.lease.serverTime.time);
      }
    }
  }

  /** What a stamp of the file stands for; one that is not there counts as the lease's server time. */
  function StampTime(s: Stamp, server: int): int
    requires !s.Malformed?
  {
    if s.At? then s.time else server
  }

  /**
   The guard for any file. It refuses a file it cannot read or whose times are malformed, a
   lease older than the last one, and a wall clock more than five minutes behind the
   highest time unless the lease is newer than that; else the effective time is the latest
   of clock, lease and highest time.
   */
  lemma ClockRefusedExactly(file: TrustedFile, observed: int, server: int)
    ensures var r := EffectiveTime(file, observed, server);
            && (r == Err(StateUnreadable) <==> file.Garbled? || file.Inaccessible?)
            && (r == Err(TrustedTimeInvalid) <==> file.Present? && (file.server.Malformed? || file.highest.Malformed?))
            && (file.Present? && !file.server.Malformed? && !file.highest.Malformed? ==>
                  var earlier, highest := StampTime(file.server, server), StampTime(file.highest, server);
                  && (r == Err(ServerTimeRollback) <==> server < earlier)
                  && (r == Err(ClockRollback) <==> server >= earlier && server <= highest && highest - observed > 300_000)
                  && (r.Ok? ==> r.value in {observed, server, highest} && r.value >= observed && r.value >= server && r.value >= highest))
            && (file.Absent? ==>
                  && (r == Err(ClockRollback) <==> server - observed > 300_000)
                  && (r.Ok? ==> r.value in {observed, server} && r.value >= observed && r.value >= server))
            && (r.Err? ==> r.error in {StateUnreadable, TrustedTimeInvalid, ServerTimeRollback, ClockRollback})
  {
  }

  // --- any run --------------------------------------------------------------------

  lemma StepGuards(s: State, step: Step)
    requires Guarded(s.trusted)
    ensures Guarded(Next(s, step).trusted) && NotBehind(s.trusted, Next(s, step).trusted)
    ensures Evaluates(step) ==> Evaluated(s, step).trusted == s.trusted
    ensures var e := Evaluated(s, step);
            Updates(step) && Accepted(e, Clock(step)) ==>
              && Next(s, step).trusted.Present?
              && Next(s, step).trusted.highest == At(TimeOf(e, Clock(step)))
              && Next(s, step).trusted.server.time >= e.lease.lease.serverTime.time
  {
    hide AfterClock, BeforeClock;
  }

  /** The stored times never go back, and the highest time is at least the server time. */
  lemma {:induction false} TimesNeverGoBack(s: State, steps: seq<Step>)
    requires Guarded(s.trusted)
    ensures Guarded(Run(s, steps).trusted) && NotBehind(s.trusted, Run(s, steps).trusted)
  {
    hide Next, Guarded;
    if steps != [] {
      TimesNeverGoBack(s, steps[..|steps| - 1]);
      StepGuards(Run(s, steps[..|steps| - 1]), steps[|steps| - 1]);
    }
  }

  /** Whatever a run saw is at most the stored highest time. */
  lemma {:induction false} HighestCoversEverything(s: State, steps: seq<Step>, i: nat)
    requires Guarded(s.trusted) && i < |steps| && Updates(steps[i])
    requires Accepted(Evaluated(Run(s, steps[..i]), steps[i]), Clock(steps[i]))
    ensures var file := Run(s, steps).trusted;
            var e := Evaluated(Run(s, steps[..i]), steps[i]);
            && file.Present? && file.highest.At? && file.server.At?
            && file.highest.time >= TimeOf(e, Clock(steps[i])) >= Clock(steps[i])
            && file.server.time >= e.lease.lease.serverTime.time
  {
    var before := Run(s, steps[..i]);
    TimesNeverGoBack(s, steps[..i]);
    StepGuards(before, steps[i]);
    ClockIsTrustedExactly(before.trusted, Clock(steps[i]), Evaluated(before, steps[i]).lease.lease.serverTime.time);
    assert steps[..i + 1][..i] == steps[..i];
    RunSplits(s, steps, i + 1);
    hide Next, EffectiveTime, BeforeClock, Run;
    TimesNeverGoBack(Next(before, steps[i]), steps[i + 1..]);
  }

  lemma {:induction false} RunSplits(s: State, steps: seq<Step>, n: nat)
    requires n <= |steps|
    ensures Run(s, steps) == Run(Run(s, steps[..n]), steps[n..])
  {
    hide Next;
    if n == |steps| {
      assert steps[..n] == steps;
    } else {
      var last := |steps| - 1;
      RunSplits(s, steps[..last], n);
      assert steps[..last][..n] == steps[..n];
      assert steps[n..][..last - n] == steps[..last][n..];
    }
  }

  /** The highest time is nothing but the latest of what was accepted: `None` while nothing was. */
  function Latest(s: State, steps: seq<Step>): Option<int> {
    if steps == [] then None
    else
      var before, step := Run(s, steps[..|steps| - 1]), steps[|steps| - 1];
      var earlier := Latest(s, steps[..|steps| - 1]);
      var e := Evaluated(before, step);
      if Updates(step) && Accepted(e, Clock(step)) then
        var seen := Max(Clock(step), e.lease.lease.serverTime.time);
        Some(if earlier.Some? then Max(earlier.value, seen) else seen)
      else earlier
  }

  /** From a fresh installation, the stored highest time is exactly the maximum of the clocks and server times accepted. */
  lemma {:induction false} HighestIsTheLatest(s: State, steps: seq<Step>)
    requires s.trusted == Absent
    ensures var file := Run(s, steps).trusted;
            && Guarded(file)
            && (Latest(s, steps).None? <==> file == Absent)
            && (Latest(s, steps).Some? ==> file.Present? && file.highest == At(Latest(s, steps).value))
  {
    if steps != [] {
      HighestIsTheLatest(s, steps[..|steps| - 1]);
      StepGuards(Run(s, steps[..|steps| - 1]), steps[|steps| - 1]);
      hide Run, AfterClock, BeforeClock;
    }
  }

  /** The latest server time of the leases that were accepted. */
  function LatestServer(s: State, steps: seq<Step>): Option<int> {
    if steps == [] then None
    else
      var before, step := Run(s, steps[..|steps| - 1]), steps[|steps| - 1];
      var earlier := LatestServer(s, steps[..|steps| - 1]);
      var e := Evaluated(before, step);
      if Updates(step) && Accepted(e, Clock(step)) then
        var server := e.lease.lease.serverTime.time;
        Some(if earlier.Some? then Max(earlier.value, server) else server)
      else earlier
  }

  lemma ServerAfterStep(s: State, step: Step)
    requires Guarded(s.trusted)
    ensures var e := Evaluated(s, step);
            if Updates(step) && Accepted(e, Clock(step)) then
              && Next(s, step).trusted.Present?
              && Next(s, step).trusted.server
                 == At(if s.trusted.Present? then Max(s.trusted.server.time, e.lease.lease.serverTime.time)
                       else e.lease.lease.serverTime.time)
            else Next(s, step).trusted == s.trusted
  {
    hide AfterClock, BeforeClock;
  }

  /** From a fresh installation, the stored server time is exactly the maximum of the server times accepted. */
  lemma {:induction false} ServerIsTheLatest(s: State, steps: seq<Step>)
    requires s.trusted == Absent
    ensures var file := Run(s, steps).trusted;
            && (LatestServer(s, steps).None? <==> file == Absent)
            && (LatestServer(s, steps).Some? ==> file.Present? && file.server == At(LatestServer(s, steps).value))
  {
    TimesNeverGoBack(s, steps);
    if steps != [] {
      ServerIsTheLatest(s, steps[..|steps| - 1]);
      TimesNeverGoBack(s, steps[..|steps| - 1]);
      ServerAfterStep(Run(s, steps[..|steps| - 1]), steps[|steps| - 1]);
      hide Next, Accepted, Evaluated;
    }
  }

  // --- expiry is final ------------------------------------------------------------

  /** An active lease runs beyond its effective time, which is at least all that was stored. */
  lemma ActiveIsInTime(s: State, observed: int)
    requires Guarded(s.trusted) && Decide(s, observed).Active?
    ensures var lease := s.lease.lease;
            && Accepted(s, observed)
            && TimeOf(s, observed) < lease.expires.time
            && (lease.subscription.At? ==> TimeOf(s, observed) < lease.subscription.time)
            && (s.trusted.Present? ==> s.trusted.highest.time <= TimeOf(s, observed))
  {
  }

  lemma ExpiredIsAccepted(s: State, observed: int)
    requires Decide(s, observed) == Blocked(LeaseExpired)
    ensures Accepted(s, observed) && TimeOf(s, observed) >= s.lease.lease.expires.time
  {
  }

  /**
   A lease that an updating evaluation once refused as expired is never active again,
   however the wall clock is turned and whatever is installed in between.
   */
  lemma ExpiredStaysExpired(s: State, steps: seq<Step>, i: nat, j: nat)
    requires Guarded(s.trusted) && i < j < |steps| && Updates(steps[i]) && Evaluates(steps[j])
    requires Outcome(Run(s, steps[..i]), steps[i]) == Blocked(LeaseExpired)
    requires Evaluated(Run(s, steps[..j]), steps[j]).lease == Evaluated(Run(s, steps[..i]), steps[i]).lease
    ensures !Outcome(Run(s, steps[..j]), steps[j]).Active?
  {
    var first := Evaluated(Run(s, steps[..i]), steps[i]);
    var later := Evaluated(Run(s, steps[..j]), steps[j]);
    hide Run, Decide, EffectiveTime, BeforeClock;
    ExpiredIsAccepted(first, Clock(steps[i]));
    assert steps[..j][..i] == steps[..i];
    HighestCoversEverything(s, steps[..j], i);
    TimesNeverGoBack(s, steps[..j]);
    StepGuards(Run(s, steps[..j]), steps[j]);
    if Outcome(Run(s, steps[..j]), steps[j]).Active? {
      ActiveIsInTime(later, Clock(steps[j]));
    }
  }

  /** The earliest effective time that any wall clock can bring about without a write. */
  function EarliestTime(s: State): int
    requires Guarded(s.trusted) && BeforeClock(s).None?
  {
    var server := s.lease.lease.serverTime.time;
    if s.trusted.Present? then Max(server, s.trusted.highest.time) else server
  }

  /**
   A refusal as expired that was not recorded can be undone, by turning the wall clock
   back, exactly when the lease and the subscription run beyond the latest of the lease's
   server time and the stored highest time.
   */
  lemma UnrecordedRefusalIsFinalExactly(s: State, observed: int)
    requires Guarded(s.trusted) && Decide(s, observed) == Blocked(LeaseExpired)
    ensures var lease := s.lease.lease;
            && Next(s, Evaluate(observed, false)) == s
            && ((forall now :: !Decide(s, now).Active?)
                <==> EarliestTime(s) >= lease.expires.time
                     || lease.subscription.Malformed?
                     || (lease.subscription.At? && EarliestTime(s) >= lease.subscription.time))
  {
    var earliest := EarliestTime(s);
    var server := s.lease.lease.serverTime.time;
    ClockIsTrustedExactly(s.trusted, observed, server);
    assert Accepted(s, earliest) && TimeOf(s, earliest) == earliest;
    assert Decide(s, earliest) == AfterClock(s.lease.lease, earliest);
    forall now ensures Decide(s, now).Active? ==> Decide(s, earliest).Active? {
      if Decide(s, now).Active? {
        ActiveIsInTime(s, now);
        ClockIsTrustedExactly(s.trusted, now, server);
      }
    }
  }

  /**
   A rollback block ends with the installation of a lease issued after everything the
   file has seen, whatever the wall clock says at that moment.
   */
  lemma NewerLeaseLiftsTheBlock(s: State, d: Delivery, now: int)
    requires s.trusted.Present? && Guarded(s.trusted) && Installable(d, now)
    requires BeforeClock(Placed(s, d, now)).None? && d.lease.serverTime.time > s.trusted.highest.time
    ensures var placed := Placed(s, d, now);
            && Accepted(placed, now)
            && Next(s, Install(d, now)).trusted
               == Present(d.lease.serverTime, At(Max(now, d.lease.serverTime.time)))
  {
    hide AfterClock;
  }

  /**
   A file that cannot be parsed blocks every evaluation, and only a delivery that carries
   the signed recovery marker replaces it, by a file that guards again.
   */
  lemma OnlyRecoveryRepairs(s: State, d: Delivery, now: int)
    requires s.trusted.Garbled? && Installable(d, now)
    ensures !Decide(s, now).Active?
    ensures var after := Next(s, Install(d, now)).trusted;
            if d.recovery then Guarded(after) && after == Present(d.lease.serverTime, At(Max(now, d.lease.serverTime.time)))
            else after == s.trusted && !Outcome(s, Install(d, now)).Active?
  {
    hide AfterClock;
  }

  /**
   A delivery replaces binding and lease exactly when its lease names the licence and
   device it comes with and, if it carries a recovery marker, was issued at its server time
   within five minutes of the wall clock. Any other delivery changes nothing.
   */
  lemma DeliveryIsTakenExactly(s: State, d: Delivery, now: int)
    ensures var after := Next(s, Install(d, now));
            if && d.lease.license == d.license && d.lease.device == d.device
               && (d.recovery ==> d.lease.serverTime.At? && d.lease.issuedAt == d.lease.serverTime
                                  && now - 300_000 <= d.lease.serverTime.time <= now + 300_000)
            then after.binding == Bound(d.license, d.device) && after.lease == Signed(d.lease)
                 && (!d.recovery || !s.trusted.Garbled? ==>
                       after.trusted == Next(State(after.binding, after.lease, s.trusted), Evaluate(now, true)).trusted)
            else after == s
  {
    hide FileAfter;
  }
}
