/**
 * dto/PlayerLimits.java: a Limit for one player, with default ceilings
 * 3 per minute, 60 per hour, 120 per day, plus a `lastAccess` stamp that every
 * check refreshes and that makes the entry expire 24 hours after the last check.
 */
module Players {
  import opened Windows
  import opened Limits

  /** PlayerLimits' defaults when the configuration holds no value. */
  const PlayerDefaults: Ceilings := Ceilings(3, 60, 120)

  /** An entry expires once strictly more than 24 hours have passed since its last access. */
  const RetentionMillis: int := 86_400_000

  /** The state of one PlayerLimits object. */
  datatype PlayerState = PlayerState(quota: Quota, lastAccess: int)

  /** `new PlayerLimits()`: fresh windows and `lastAccess` at the Java default 0. */
  const FreshPlayer: PlayerState := PlayerState(FreshQuota, 0)

  /** `isExpired(now)`: `now - lastAccess > 86_400_000`, strictly. */
  predicate Expired(lastAccess: int, now: int) {
    now - lastAccess > RetentionMillis
  }

  /** PlayerLimits.isRateLimitExceeded: stamp `lastAccess`, then the inherited check. */
  function PlayerAdmit(p: PlayerState, c: Ceilings, now: int): (bool, PlayerState) {
    var a := TryAdmit(p.quota, c, now);
    (a.exceeded, PlayerState(a.quota, now))
  }

  /** The stamp is refreshed whether the request is admitted or rejected; the verdict is the Limit's. */
  lemma PlayerAdmitStamps(p: PlayerState, c: Ceilings, now: int)
    ensures PlayerAdmit(p, c, now).1.lastAccess == now
    ensures PlayerAdmit(p, c, now).0 == TryAdmit(p.quota, c, now).exceeded
    ensures PlayerAdmit(p, c, now).1.quota == TryAdmit(p.quota, c, now).quota
  {
  }

  /** An entry accessed at `t` is not expired at any `now <= t + 24h`; it is at any later instant. */
  lemma RetentionWindow(p: PlayerState, c: Ceilings, t: int, now: int)
    ensures !Expired(PlayerAdmit(p, c, t).1.lastAccess, now) <==> now <= t + RetentionMillis
  {
  }

  /** No window started after the entry's last access. */
  predicate StartsBeforeAccess(p: PlayerState) {
    && p.quota.minute.start <= p.lastAccess
    && p.quota.hour.start <= p.lastAccess
    && p.quota.day.start <= p.lastAccess
  }

  /** Checks at non-decreasing instants keep every window start at or before the last access. */
  lemma AccessKeepsStartsBefore(p: PlayerState, c: Ceilings, now: int)
    requires StartsBeforeAccess(p) && p.lastAccess <= now
    ensures StartsBeforeAccess(PlayerAdmit(p, c, now).1)
  {
  }

  /** The quota as it would stand had all three windows just been reset at `now`. */
  function ResetAt(now: int): Quota {
    Quota(Window(0, now), Window(0, now), Window(0, now))
  }

  /**
   * Sweeping is hygiene only: an expired entry that was not swept behaves like a
   * brand-new one, because by then every one of its windows has elapsed.
   */
  lemma {:induction false} ExpiredEntryActsFresh(p: PlayerState, c: Ceilings, now: int)
    requires StartsBeforeAccess(p) && Expired(p.lastAccess, now)
    ensures Rolled(p.quota, now) == ResetAt(now)
    ensures PlayerAdmit(p, c, now).0 == TryAdmit(ResetAt(now), c, now).exceeded
    ensures Rolled(PlayerAdmit(p, c, now).1.quota, now) == Rolled(TryAdmit(ResetAt(now), c, now).quota, now)
  {
    var r := Rolled(p.quota, now);
    assert r == ResetAt(now);
    assert Rolled(ResetAt(now), now) == ResetAt(now);
    var a := TryAdmit(p.quota, c, now);
    var b := TryAdmit(ResetAt(now), c, now);
    AdmittedIffAllBelow(p.quota, c, now);
    AdmittedIffAllBelow(ResetAt(now), c, now);
    if a.exceeded {
      RejectionCountsNothing(p.quota, c, now);
      RejectionCountsNothing(ResetAt(now), c, now);
    } else {
      AdmissionCountsOnce(p.quota, c, now);
      AdmissionCountsOnce(ResetAt(now), c, now);
    }
  }

  class PlayerLimits {
    const limit: Limit
    var lastAccess: int

    function Repr(): set<object> {
      {this} + limit.Repr()
    }

    predicate Valid() {
      limit.Valid()
    }

    function State(): PlayerState
      reads Repr()
    {
      PlayerState(limit.State(), lastAccess)
    }

    constructor ()
      ensures Valid() && fresh(Repr())
      ensures State() == FreshPlayer
    {
      limit := new Limit();
      lastAccess := 0;
    }

    method IsRateLimitExceeded(now: int, c: Ceilings) returns (exceeded: bool)
      requires Valid()
      modifies Repr()
      ensures (exceeded, State()) == PlayerAdmit(old(State()), c, now)
    {
      lastAccess := now;
      exceeded := limit.IsRateLimitExceeded(now, c);
    }

    /** Reads `lastAccess` only; changes nothing. */
    predicate IsExpired(now: int)
      reads this
    {
      Expired(lastAccess, now)
    }
  }

  /** With PlayerLimits' defaults, a new player's burst at one instant gets exactly 3 requests through. */
  lemma PlayerDefaultsAdmitThree(now: int, n: nat)
    ensures forall i | 0 <= i < n :: !Repeat(FreshPlayer.quota, PlayerDefaults, now, n)[i] <==> i < 3
  {
    FreshLimitAdmitsTightestCeiling(PlayerDefaults, now, n);
  }
}
