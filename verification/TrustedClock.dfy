/**
 The local licence state of the desktop application and its clock guard
 (backend/app/desktop_license.py, and installing and clearing in
 backend/app/desktop_license_client.py). Times are instants in milliseconds.
 */
module TrustedClock {
  import opened Wrappers

  const TOLERANCE := 5 * 60_000

  datatype Reason =
    | NotConfigured | StateUnreadable | LeaseUnverified | DeviceMismatch
    | ServerTimeInvalid | IssuedAtInvalid | LeaseExpiryInvalid | LeaseTimeInvalid
    | TrustedTimeInvalid | ServerTimeRollback | ClockRollback
    | EntitlementsInvalid | SourcesInvalid | LeaseExpired | SubscriptionExpiryInvalid | SubscriptionExpired

  /** A time field of a parsed document. */
  datatype Stamp = Missing | Malformed | At(time: int)

  /** The trusted-time file. `Inaccessible` is a link, too large, or not permitted. */
  datatype TrustedFile =
    | Absent
    | Garbled
    | Inaccessible
    | Present(server: Stamp, highest: Stamp)

  datatype Binding = NoBinding | BadBinding | Bound(license: string, device: string)

  datatype Sources = Unlisted | Listed(keys: seq<string>) | BadSources

  /** The payload of a lease whose signature has been verified. */
  datatype Lease = Lease(
    license: string,
    device: string,
    serverTime: Stamp,
    issuedAt: Stamp,
    expires: Stamp,
    search: Option<bool>,
    sources: Sources,
    subscription: Stamp)

  datatype LeaseFile = NoLease | BadLease | Forged | Signed(lease: Lease)

  datatype State = State(binding: Binding, lease: LeaseFile, trusted: TrustedFile)

  datatype Decision =
    | Blocked(reason: Reason)
    | Active(canSearch: bool, effective: int, sources: set<string>)

  // --- the clock guard ------------------------------------------------------------

  function Or(s: Stamp, default: int): Stamp {
    if s.Missing? then At(default) else s
  }

  /** The stored server time and highest time, as a lease with this server time sees them. */
  function Previous(file: TrustedFile, server: int): Result<(int, int), Reason> {
    match file
    case Garbled => Err(StateUnreadable)
    case Inaccessible => Err(StateUnreadable)
    case Absent => Ok((server, server))
    case Present(s, h) =>
      if Or(s, server).Malformed? || Or(h, server).Malformed? then Err(TrustedTimeInvalid)
      else Ok((Or(s, server).time, Or(h, server).time))
  }

  /** `_trusted_effective_time`: the effective time, or why the clock is not trusted. */
  function EffectiveTime(file: TrustedFile, observed: int, server: int): Result<int, Reason> {
    var previous := Previous(file, server);
    if previous.Err? then Err(previous.error)
    else
      var (previousServer, highest) := previous.value;
      if server < previousServer then Err(ServerTimeRollback)
      else if observed + TOLERANCE < highest && server <= highest then Err(ClockRollback)
      else Ok(Max(Max(observed, server), highest))
  }

  /** The file after an updating evaluation whose clock is trusted. */
  function Advanced(file: TrustedFile, observed: int, server: int): TrustedFile {
    if EffectiveTime(file, observed, server).Err? then file
    else Present(At(Max(server, Previous(file, server).value.0)), At(EffectiveTime(file, observed, server).value))
  }

  // --- evaluation -----------------------------------------------------------------

  predicate KeyChar(c: char) {
    'a' <= c <= 'z' || '0' <= c <= '9' || c == '-'
  }

  predicate SourceKey(s: string) {
    2 <= |s| <= 32 && 'a' <= s[0] <= 'z' && forall c | c in s :: KeyChar(c)
  }

  function SourceSet(s: Sources): Option<set<string>> {
    match s
    case Unlisted => Some({"encar"})
    case BadSources => None
    case Listed(keys) =>
      if |keys| > 32 || exists k | k in keys :: !SourceKey(k) then None else Some(set k | k in keys)
  }

  /** What is checked before the clock. */
  function BeforeClock(s: State): Option<Reason> {
    if s.binding == NoBinding then Some(NotConfigured)
    else if s.binding == BadBinding then Some(StateUnreadable)
    else if s.lease == NoLease then Some(NotConfigured)
    else if s.lease == BadLease then Some(StateUnreadable)
    else if s.lease == Forged then Some(LeaseUnverified)
    else
      var lease := s.lease.lease;
      if s.binding != Bound(lease.license, lease.device) then Some(DeviceMismatch)
      else if !lease.serverTime.At? then Some(ServerTimeInvalid)
      else if !lease.issuedAt.At? then Some(IssuedAtInvalid)
      else if !lease.expires.At? then Some(LeaseExpiryInvalid)
      else if lease.serverTime != lease.issuedAt || lease.expires.time <= lease.issuedAt.time then Some(LeaseTimeInvalid)
      else None
  }

  /** What is checked after the clock, at the effective time. */
  function AfterClock(lease: Lease, effective: int): Decision
    requires lease.expires.At?
  {
    var sources := SourceSet(lease.sources);
    if lease.search.None? then Blocked(EntitlementsInvalid)
    else if sources.None? then Blocked(SourcesInvalid)
    else if effective >= lease.expires.time then Blocked(LeaseExpired)
    else if lease.subscription.Malformed? then Blocked(SubscriptionExpiryInvalid)
    else if lease.subscription.At? && effective >= lease.subscription.time then Blocked(SubscriptionExpired)
    else Active(lease.search.value && sources.value != {}, effective, sources.value)
  }

  /** `evaluate_search_entitlement` where enforcement is required. */
  function Decide(s: State, observed: int): Decision {
    var early := BeforeClock(s);
    if early.Some? then Blocked(early.value)
    else
      var effective := EffectiveTime(s.trusted, observed, s.lease.lease.serverTime.time);
      if effective.Err? then Blocked(effective.error) else AfterClock(s.lease.lease, effective.value)
  }

  /** The trusted-time file after an evaluation. */
  function FileAfter(s: State, observed: int, update: bool): TrustedFile {
    if !update || BeforeClock(s).Some? then s.trusted
    else Advanced(s.trusted, observed, s.lease.lease.serverTime.time)
  }

  // --- installing -----------------------------------------------------------------

  /** What the service sent: ids and a verified lease, with a recovery marker or none. */
  datatype Delivery = Delivery(license: string, device: string, lease: Lease, recovery: bool)

  predicate Installable(d: Delivery, now: int) {
    && d.lease.license == d.license && d.lease.device == d.device
    && (d.recovery ==>
          && d.lease.serverTime.At? && d.lease.issuedAt == d.lease.serverTime
          && -TOLERANCE <= now - d.lease.serverTime.time <= TOLERANCE)
  }

  /** `_recover_corrupt_trusted_time`: only a file that cannot be parsed is replaced. */
  function Recovered(file: TrustedFile, server: int, now: int): TrustedFile {
    if file.Garbled? then Present(At(server), At(Max(now, server))) else file
  }

  /** The state in which `_install` evaluates the new lease. */
  function Placed(s: State, d: Delivery, now: int): State
    requires Installable(d, now)
  {
    State(Bound(d.license, d.device), Signed(d.lease),
          if d.recovery then Recovered(s.trusted, d.lease.serverTime.time, now) else s.trusted)
  }

  // --- the state object -----------------------------------------------------------

  class LicenseState {
    var binding: Binding
    var lease: LeaseFile
    var trusted: TrustedFile

    function Value(): State
      reads this
    {
      State(binding, lease, trusted)
    }

    constructor ()
      ensures Value() == State(NoBinding, NoLease, Absent)
    {
      binding, lease, trusted := NoBinding, NoLease, Absent;
    }

    method TrustedEffectiveTime(observed: int, server: int, update: bool) returns (r: Result<int, Reason>)
      modifies this`trusted
      ensures r == EffectiveTime(old(trusted), observed, server)
      ensures trusted == if update then Advanced(old(trusted), observed, server) else old(trusted)
    {
      var previous := Previous(trusted, server);
      if previous.Err? {
        return Err(previous.error);
      }
      var (previousServer, highest) := previous.value;
      if server < previousServer {
        return Err(ServerTimeRollback);
      }
      if observed + TOLERANCE < highest && server <= highest {
        return Err(ClockRollback);
      }
      var effective := Max(Max(observed, server), highest);
      if update {
        trusted := Present(At(Max(server, previousServer)), At(effective));
      }
      r := Ok(effective);
    }

    method Evaluate(observed: int, update: bool) returns (decision: Decision)
      modifies this`trusted
      ensures decision == Decide(old(Value()), observed)
      ensures trusted == FileAfter(old(Value()), observed, update)
    {
      var early := BeforeClock(Value());
      if early.Some? {
        return Blocked(early.value);
      }
      var effective := TrustedEffectiveTime(observed, lease.lease.serverTime.time, update);
      if effective.Err? {
        return Blocked(effective.error);
      }
      decision := AfterClock(lease.lease, effective.value);
    }

    /** `None` means that the delivery was rejected and nothing was written. */
    method Install(d: Delivery, now: int) returns (decision: Option<Decision>)
      modifies this
      ensures !Installable(d, now) ==> decision.None? && Value() == old(Value())
      ensures Installable(d, now) ==>
        var placed := Placed(old(Value()), d, now);
        && decision == Some(Decide(placed, now))
        && Value() == placed.(trusted := FileAfter(placed, now, true))
    {
      if !Installable(d, now) {
        return None;
      }
      binding := Bound(d.license, d.device);
      lease := Signed(d.lease);
      if d.recovery && trusted.Garbled? {
        trusted := Present(At(d.lease.serverTime.time), At(Max(now, d.lease.serverTime.time)));
      }
      var evaluated := Evaluate(now, true);
      decision := Some(evaluated);
    }

    method Clear()
      modifies this
      ensures Value() == State(NoBinding, NoLease, Absent)
    {
      lease := NoLease;
      trusted := Absent;
      binding := NoBinding;
    }
  }
}
