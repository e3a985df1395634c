/**
 * utils/LimitsUtil.java: the per-player limits (created on first use and swept
 * once expired), the single global limit, and the map of players waiting in
 * interactive mode, each with the Bukkit task that will time the wait out.
 *
 * The Java statics become the fields of one LimitsUtil object. `Limiter` is the
 * value those fields stand for; every method is proved to move it as the
 * matching function below says, and the properties are lemmas on those functions.
 */
module RateLimiting {
  import opened Windows
  import opened Limits
  import opened Players

  /** A player's java.util.UUID. */
  type PlayerId = int

  /** A Bukkit task, identified by its task id. */
  type TaskId = int

  /** `cleanupTaskId` when no cleanup timer is scheduled. */
  const NoTask: TaskId := -1

  /** The value of LimitsUtil's state; `cancelled` holds every task that `cancel()` was called on. */
  datatype Limiter = Limiter(
    players: map<PlayerId, PlayerState>,
    global: Quota,
    pending: map<PlayerId, TaskId>,
    cleanupTask: TaskId,
    cancelled: set<TaskId>)

  const InitialLimiter: Limiter := Limiter(map[], FreshQuota, map[], NoTask, {})

  /** The entry `computeIfAbsent` finds or creates. */
  function EntryOf(players: map<PlayerId, PlayerState>, id: PlayerId): PlayerState {
    if id in players then players[id] else FreshPlayer
  }

  /** isPlayerRateLimitExceeded: find or create the entry, then check it. */
  function CheckPlayer(s: Limiter, id: PlayerId, c: Ceilings, now: int): (bool, Limiter) {
    var (exceeded, p) := PlayerAdmit(EntryOf(s.players, id), c, now);
    (exceeded, s.(players := s.players[id := p]))
  }

  /** isGlobalRateLimitExceeded: the shared global limit only. */
  function CheckGlobal(s: Limiter, c: Ceilings, now: int): (bool, Limiter) {
    var a := TryAdmit(s.global, c, now);
    (a.exceeded, s.(global := a.quota))
  }

  /** The cleanup timer's body: `removeIf(entry -> entry.getValue().isExpired(now))`. */
  function Sweep(s: Limiter, now: int): Limiter {
    s.(players := map id | id in s.players && !Expired(s.players[id].lastAccess, now) :: s.players[id])
  }

  /** startCleanupTask, given the id the scheduler assigned to the timer. */
  function StartCleanup(s: Limiter, task: TaskId): Limiter {
    s.(cleanupTask := task)
  }

  /** stopCleanupTask: cancel the timer if one is scheduled, then forget every player. */
  function StopCleanup(s: Limiter): Limiter {
    if s.cleanupTask != NoTask then
      s.(cleanupTask := NoTask, cancelled := s.cancelled + {s.cleanupTask}, players := map[])
    else
      s.(players := map[])
  }

  predicate HasPending(s: Limiter, player: PlayerId) {
    player in s.pending
  }

  /** addPendingQuestions: a plain `put`, so an existing entry is overwritten. */
  function AddPending(s: Limiter, player: PlayerId, task: TaskId): Limiter {
    s.(pending := s.pending[player := task])
  }

  /** removePendingQuestions: remove the entry and cancel its task, if there is one. */
  function RemovePending(s: Limiter, player: PlayerId): Limiter {
    if player in s.pending then
      s.(pending := s.pending - {player}, cancelled := s.cancelled + {s.pending[player]})
    else
      s
  }

  /** The checked player ends up in the map; an existing entry is kept and moved on, a missing one starts fresh; no one else changes. */
  lemma CheckPlayerTouchesOnlyThatPlayer(s: Limiter, id: PlayerId, c: Ceilings, now: int)
    ensures var s' := CheckPlayer(s, id, c, now).1;
      && s'.players.Keys == s.players.Keys + {id}
      && (id in s.players ==> s'.players[id] == PlayerAdmit(s.players[id], c, now).1)
      && (id !in s.players ==> s'.players[id] == PlayerAdmit(FreshPlayer, c, now).1)
      && (forall other | other in s.players && other != id :: s'.players[other] == s.players[other])
      && s'.global == s.global && s'.pending == s.pending && s'.cancelled == s.cancelled
  {
  }

  /** The global check reads and writes the global quota only. */
  lemma CheckGlobalTouchesOnlyGlobal(s: Limiter, c: Ceilings, now: int)
    ensures var (exceeded, s') := CheckGlobal(s, c, now);
      && exceeded == TryAdmit(s.global, c, now).exceeded
      && s'.global == TryAdmit(s.global, c, now).quota
      && s'.players == s.players && s'.pending == s.pending && s'.cancelled == s.cancelled
      && s'.cleanupTask == s.cleanupTask
  {
  }

  /** The sweep removes exactly the expired entries and leaves every other entry as it was. */
  lemma SweepRemovesExactlyExpired(s: Limiter, now: int)
    ensures forall id :: id in Sweep(s, now).players <==> id in s.players && !Expired(s.players[id].lastAccess, now)
    ensures forall id | id in Sweep(s, now).players :: Sweep(s, now).players[id] == s.players[id]
    ensures Sweep(s, now).(players := s.players) == s
  {
  }

  /** A second sweep at the same instant removes nothing. */
  lemma SweepIdempotent(s: Limiter, now: int)
    ensures Sweep(Sweep(s, now), now) == Sweep(s, now)
  {
  }

  /** An entry checked at `t` survives every sweep up to `t + 24h`. */
  lemma {:induction false} CheckedPlayerSurvivesSweep(s: Limiter, id: PlayerId, c: Ceilings, t: int, now: int)
    requires now <= t + RetentionMillis
    ensures id in Sweep(CheckPlayer(s, id, c, t).1, now).players
  {
    var s' := CheckPlayer(s, id, c, t).1;
    assert s'.players[id].lastAccess == t;
  }

  /** stopCleanupTask leaves no player entry and no timer. */
  lemma StopCleanupClears(s: Limiter)
    ensures StopCleanup(s).players == map[] && StopCleanup(s).cleanupTask == NoTask
    ensures s.cleanupTask != NoTask ==> s.cleanupTask in StopCleanup(s).cancelled
  {
  }

  /** After `put`, the player is pending with exactly the new task, whatever was there before. */
  lemma AddPendingOverwrites(s: Limiter, player: PlayerId, task: TaskId)
    ensures HasPending(AddPending(s, player, task), player)
    ensures AddPending(s, player, task).pending[player] == task
    ensures forall other | other != player :: HasPending(AddPending(s, player, task), other) == HasPending(s, other)
  {
  }

  /** Removing cancels the task that was stored; removing an absent player changes nothing. */
  lemma RemovePendingCancels(s: Limiter, player: PlayerId)
    ensures !HasPending(RemovePending(s, player), player)
    ensures player in s.pending ==> s.pending[player] in RemovePending(s, player).cancelled
    ensures player !in s.pending ==> RemovePending(s, player) == s
    ensures forall other | other != player && other in s.pending ::
      other in RemovePending(s, player).pending && RemovePending(s, player).pending[other] == s.pending[other]
  {
  }

  /** Adding then removing a player who was not pending restores the map and cancels the new task. */
  lemma {:induction false} AddThenRemove(s: Limiter, player: PlayerId, task: TaskId)
    requires !HasPending(s, player)
    ensures RemovePending(AddPending(s, player, task), player) == s.(cancelled := s.cancelled + {task})
  {
    assert AddPending(s, player, task).pending - {player} == s.pending;
  }

  class LimitsUtil {
    var pendingInteractiveQuestions: map<PlayerId, TaskId>
    var playerLimits: map<PlayerId, PlayerLimits>
    const globalLimits: Limit
    var cleanupTaskId: TaskId
    var cancelledTasks: set<TaskId>
    ghost var Repr: set<object>

    ghost predicate Valid()
      reads this
    {
      && this in Repr
      && globalLimits.Valid() && globalLimits.Repr() <= Repr && this !in globalLimits.Repr()
      && (forall id | id in playerLimits ::
            && playerLimits[id].Valid()
            && playerLimits[id].Repr() <= Repr
            && this !in playerLimits[id].Repr()
            && playerLimits[id].Repr() !! globalLimits.Repr())
      && (forall id1, id2 | id1 in playerLimits && id2 in playerLimits && id1 != id2 ::
            playerLimits[id1].Repr() !! playerLimits[id2].Repr())
    }

    ghost function PlayerStates(): map<PlayerId, PlayerState>
      reads this, Repr
      requires Valid()
    {
      map id | id in playerLimits :: playerLimits[id].State()
    }

    ghost function Model(): Limiter
      reads this, Repr
      requires Valid()
    {
      Limiter(PlayerStates(), globalLimits.State(), pendingInteractiveQuestions, cleanupTaskId, cancelledTasks)
    }

    constructor ()
      ensures Valid() && fresh(Repr)
      ensures Model() == InitialLimiter
    {
      pendingInteractiveQuestions := map[];
      playerLimits := map[];
      globalLimits := new Limit();
      cleanupTaskId := NoTask;
      cancelledTasks := {};
      new;
      Repr := {this} + globalLimits.Repr();
    }

    /** The body of the cleanup timer. */
    method SweepExpired(now: int)
      requires Valid()
      modifies this
      ensures Valid() && Repr == old(Repr)
      ensures Model() == Sweep(old(Model()), now)
    {
      ghost var before := PlayerStates();
      playerLimits := map id | id in playerLimits && !playerLimits[id].IsExpired(now) :: playerLimits[id];
      forall id | id in playerLimits
        ensures playerLimits[id].State() == before[id] && !Expired(before[id].lastAccess, now)
      {
        assert playerLimits[id] == old(playerLimits[id]);
      }
      forall id
        ensures id in playerLimits <==> id in before && !Expired(before[id].lastAccess, now)
      {
        if id in old(playerLimits) {
          assert before[id] == old(playerLimits[id].State());
        }
      }
      assert PlayerStates() == Sweep(old(Model()), now).players;
    }

    /** `task` is the id the scheduler gave the repeating timer. */
    method StartCleanupTask(task: TaskId)
      requires Valid()
      modifies this
      ensures Valid() && Repr == old(Repr)
      ensures Model() == StartCleanup(old(Model()), task)
    {
      cleanupTaskId := task;
      assert forall id | id in playerLimits :: playerLimits[id].State() == old(playerLimits[id].State());
      assert PlayerStates() == old(PlayerStates());
    }

    method StopCleanupTask()
      requires Valid()
      modifies this
      ensures Valid() && Repr == old(Repr)
      ensures Model() == StopCleanup(old(Model()))
    {
      if cleanupTaskId != NoTask {
        cancelledTasks := cancelledTasks + {cleanupTaskId};
        cleanupTaskId := NoTask;
      }
      playerLimits := map[];
      assert PlayerStates() == map[];
    }

    predicate HasPendingQuestions(player: PlayerId)
      reads this
    {
      player in pendingInteractiveQuestions
    }

    method AddPendingQuestions(player: PlayerId, timeoutTask: TaskId)
      requires Valid()
      modifies this
      ensures Valid() && Repr == old(Repr)
      ensures Model() == AddPending(old(Model()), player, timeoutTask)
    {
      pendingInteractiveQuestions := pendingInteractiveQuestions[player := timeoutTask];
      assert forall id | id in playerLimits :: playerLimits[id].State() == old(playerLimits[id].State());
      assert PlayerStates() == old(PlayerStates());
    }

    method RemovePendingQuestions(player: PlayerId)
      requires Valid()
      modifies this
      ensures Valid() && Repr == old(Repr)
      ensures Model() == RemovePending(old(Model()), player)
    {
      if player in pendingInteractiveQuestions {
        var task := pendingInteractiveQuestions[player];
        pendingInteractiveQuestions := pendingInteractiveQuestions - {player};
        cancelledTasks := cancelledTasks + {task};
      }
      assert forall id | id in playerLimits :: playerLimits[id].State() == old(playerLimits[id].State());
      assert PlayerStates() == old(PlayerStates());
    }

    method IsGlobalRateLimitExceeded(now: int, c: Ceilings) returns (exceeded: bool)
      requires Valid()
      modifies globalLimits.Repr()
      ensures Valid()
      ensures (exceeded, Model()) == CheckGlobal(old(Model()), c, now)
    {
      exceeded := globalLimits.IsRateLimitExceeded(now, c);
      assert forall id | id in playerLimits :: playerLimits[id].State() == old(playerLimits[id].State());
      assert PlayerStates() == old(PlayerStates());
    }

    /** The absent branch of `computeIfAbsent`: a fresh PlayerLimits under `playerId`. */
    method AddEntry(playerId: PlayerId) returns (limits: PlayerLimits)
      requires Valid() && playerId !in playerLimits
      modifies this
      ensures Valid() && fresh(Repr - old(Repr))
      ensures playerLimits == old(playerLimits)[playerId := limits]
      ensures limits.Repr() <= Repr && this !in limits.Repr() && limits.State() == FreshPlayer
      ensures pendingInteractiveQuestions == old(pendingInteractiveQuestions)
      ensures cleanupTaskId == old(cleanupTaskId) && cancelledTasks == old(cancelledTasks)
    {
      limits := new PlayerLimits();
      playerLimits := playerLimits[playerId := limits];
      Repr := Repr + limits.Repr();
      assert globalLimits.Valid() && globalLimits.Repr() <= Repr;
      forall id | id in playerLimits
        ensures playerLimits[id].Valid() && playerLimits[id].Repr() <= Repr
        ensures this !in playerLimits[id].Repr() && playerLimits[id].Repr() !! globalLimits.Repr()
      {
        if id != playerId {
          assert playerLimits[id] == old(playerLimits[id]);
        }
      }
    }

    /** `computeIfAbsent(playerId, id -> new PlayerLimits())`. */
    method EntryFor(playerId: PlayerId) returns (limits: PlayerLimits)
      requires Valid()
      modifies this
      ensures Valid() && fresh(Repr - old(Repr))
      ensures playerId in playerLimits && playerLimits[playerId] == limits
      ensures limits.Repr() <= Repr && this !in limits.Repr()
      ensures PlayerStates() == old(PlayerStates())[playerId := EntryOf(old(PlayerStates()), playerId)]
      ensures globalLimits.State() == old(globalLimits.State())
      ensures pendingInteractiveQuestions == old(pendingInteractiveQuestions)
      ensures cleanupTaskId == old(cleanupTaskId) && cancelledTasks == old(cancelledTasks)
    {
      if playerId in playerLimits {
        limits := playerLimits[playerId];
        assert PlayerStates() == old(PlayerStates());
      } else {
        limits := AddEntry(playerId);
        forall id | id in old(playerLimits)
          ensures playerLimits[id].State() == old(playerLimits[id].State())
        {
          assert playerLimits[id] == old(playerLimits[id]);
        }
      }
      assert globalLimits.State() == old(globalLimits.State());
    }

    /** Checks the entry `computeIfAbsent` returned; nothing but that entry changes. */
    method CheckEntry(playerId: PlayerId, limits: PlayerLimits, now: int, c: Ceilings) returns (exceeded: bool)
      requires Valid() && playerId in playerLimits && playerLimits[playerId] == limits
      modifies limits.Repr()
      ensures Valid()
      ensures (exceeded, limits.State()) == PlayerAdmit(old(limits.State()), c, now)
      ensures PlayerStates() == old(PlayerStates())[playerId := limits.State()]
      ensures globalLimits.State() == old(globalLimits.State())
    {
      exceeded := limits.IsRateLimitExceeded(now, c);
      forall id | id in playerLimits && id != playerId
        ensures playerLimits[id].State() == old(playerLimits[id].State())
      {
        assert playerLimits[id].Repr() !! limits.Repr();
      }
      assert PlayerStates() == old(PlayerStates())[playerId := limits.State()];
    }

    method IsPlayerRateLimitExceeded(playerId: PlayerId, now: int, c: Ceilings) returns (exceeded: bool)
      requires Valid()
      modifies this, Repr
      ensures Valid() && fresh(Repr - old(Repr))
      ensures (exceeded, Model()) == CheckPlayer(old(Model()), playerId, c, now)
    {
      var limits := EntryFor(playerId);
      ghost var entry := EntryOf(old(Model()).players, playerId);
      ghost var before := PlayerStates();
      assert before == old(Model()).players[playerId := entry];
      assert before[playerId] == limits.State();
      exceeded := CheckEntry(playerId, limits, now, c);
      assert (exceeded, limits.State()) == PlayerAdmit(entry, c, now);
      assert PlayerStates() == old(Model()).players[playerId := limits.State()];
      assert Model() == old(Model()).(players := PlayerStates());
    }
  }
}
