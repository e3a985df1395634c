/**
 * commands/AskCommand.java: `/ask [question...]`.
 *
 * The order of the decisions is the point: sender and permission, then the
 * player's limit, then the global limit, then interactive mode (no arguments)
 * or a question built from the arguments. `AskStep` is that flow over the
 * LimitsUtil value; `OnCommand` runs it against a LimitsUtil object.
 *
 * The clock readings, configured ceilings, timeout and the id of the timeout
 * task the scheduler creates are parameters; `ChatUtil.is_question_valid` is
 * not part of this model and is an arbitrary predicate `isQuestionValid`.
 */
module Ask {
  import opened JavaLang
  import opened Limits
  import opened RateLimiting

  /** The CommandSender: a non-player, or a player with or without `battista.use`. */
  datatype Sender = NonPlayer | PlayerSender(id: PlayerId, canUse: bool)

  /** What the command did (every path returns `true` to Bukkit). */
  datatype AskResult =
    | NotAPlayer                        // "You're not a player!"
    | NoPermission                      // "You need battista.use permission"
    | PlayerRateLimited                 // broadcast player_ratelimit_exceded
    | GlobalRateLimited                 // broadcast global_ratelimit_exceded
    | InteractivePending                // already waiting: ask_interactive_pending
    | InteractiveStarted(timeoutTicks: int)
    | QuestionRejected(question: string)
    | Asked(question: string)           // HttpUtil.askAI(question)

  /** The inputs of one execution that come from outside the command. */
  datatype AskContext = AskContext(
    playerNow: int,          // System.currentTimeMillis() in isPlayerRateLimitExceeded
    globalNow: int,          // System.currentTimeMillis() in isGlobalRateLimitExceeded
    playerCeilings: Ceilings,
    globalCeilings: Ceilings,
    timeoutSeconds: int,     // limits.inteactive_timeout
    timeoutTask: TaskId)     // the task runTaskLater returns

  // ---------------------------------------------------------------------------
  // buildQuestion

  /** The arguments in order, separated by single spaces (what the StringBuilder holds). */
  function JoinWithSpaces(args: seq<string>): string
    decreases |args|
  {
    if |args| == 0 then ""
    else if |args| == 1 then args[0]
    else JoinWithSpaces(args[..|args| - 1]) + " " + args[|args| - 1]
  }

  /** buildQuestion: append each argument, a space between neighbours, then trim. */
  method BuildQuestion(args: seq<string>) returns (question: string)
    ensures question == Trim(JoinWithSpaces(args))
  {
    var builder := "";
    var i := 0;
    while i < |args|
      invariant 0 <= i <= |args|
      invariant i == 0 ==> builder == ""
      invariant 0 < i < |args| ==> builder == JoinWithSpaces(args[..i]) + " "
      invariant 0 < i == |args| ==> builder == JoinWithSpaces(args[..i])
    {
      JoinStep(args, i);
      builder := builder + args[i];
      if i < |args| - 1 {
        builder := builder + " ";
      }
      i := i + 1;
    }
    assert args[..i] == args;
    question := Trim(builder);
  }

  /** One more argument extends the joined prefix by a space and that argument. */
  lemma JoinStep(args: seq<string>, i: nat)
    requires i < |args|
    ensures i == 0 ==> JoinWithSpaces(args[..i + 1]) == args[0]
    ensures i > 0 ==> JoinWithSpaces(args[..i + 1]) == JoinWithSpaces(args[..i]) + " " + args[i]
  {
    assert args[..i + 1][..i] == args[..i];
  }

  /** Cutting a string at every space: the inverse of JoinWithSpaces. */
  function SplitAtSpaces(s: string): (r: seq<string>)
    ensures |r| >= 1
    decreases |s|
  {
    var k := AfterLast(s, ' ');
    if k == 0 then [s] else SplitAtSpaces(s[..k - 1]) + [s[k..]]
  }

  predicate NoSpace(w: string) {
    forall i | 0 <= i < |w| :: w[i] != ' '
  }

  /** Bukkit's arguments hold no space, so the joined text splits back into exactly the arguments. */
  lemma {:induction false} JoinSplitRoundTrip(args: seq<string>)
    requires |args| >= 1
    requires forall i | 0 <= i < |args| :: NoSpace(args[i])
    ensures SplitAtSpaces(JoinWithSpaces(args)) == args
    decreases |args|
  {
    if |args| == 1 {
      AfterLastOf("", args[0], ' ');
      assert "" + args[0] == args[0];
    } else {
      var init := args[..|args| - 1];
      var last := args[|args| - 1];
      var prefix := JoinWithSpaces(init) + " ";
      var s := JoinWithSpaces(args);
      assert s == prefix + last;
      AfterLastOf(prefix, last, ' ');
      assert s[..|prefix| - 1] == JoinWithSpaces(init);
      assert s[|prefix|..] == last;
      JoinSplitRoundTrip(init);
      assert init + [last] == args;
    }
  }

  /** Words that carry no blank char at their ends need no trimming: the question is the joined text. */
  lemma {:induction false} QuestionIsJoinedWords(args: seq<string>)
    requires |args| >= 1
    requires args[0] != [] && !IsTrimmable(args[0][0])
    requires args[|args| - 1] != [] && !IsTrimmable(args[|args| - 1][|args[|args| - 1]| - 1])
    ensures Trim(JoinWithSpaces(args)) == JoinWithSpaces(args)
  {
    var s := JoinWithSpaces(args);
    JoinEnds(args);
    assert TrimStart(s) == s;
    assert TrimEnd(s) == s;
  }

  /** The joined text starts with the first argument and ends with the last. */
  lemma {:induction false} JoinEnds(args: seq<string>)
    requires |args| >= 1
    ensures StartsWith(JoinWithSpaces(args), args[0])
    ensures EndsWith(JoinWithSpaces(args), args[|args| - 1])
    decreases |args|
  {
    if |args| > 1 {
      var init := args[..|args| - 1];
      JoinEnds(init);
      var s := JoinWithSpaces(args);
      assert s == JoinWithSpaces(init) + " " + args[|args| - 1];
      assert s[..|args[0]|] == JoinWithSpaces(init)[..|args[0]|];
    }
  }

  // ---------------------------------------------------------------------------
  // onCommand and handleInteractiveAsk over the LimitsUtil value

  /** Ticks of the timeout: the configured seconds times 20 ticks per second (a `long`, so no overflow). */
  function TimeoutTicks(seconds: int): int {
    seconds * 20
  }

  /** handleInteractiveAsk: refuse while a question is pending, otherwise register the timeout task. */
  function InteractiveStep(s: Limiter, player: PlayerId, ctx: AskContext): (AskResult, Limiter) {
    if HasPending(s, player) then (InteractivePending, s)
    else (InteractiveStarted(TimeoutTicks(ctx.timeoutSeconds)), AddPending(s, player, ctx.timeoutTask))
  }

  /** onCommand. */
  function AskStep(s: Limiter, sender: Sender, args: seq<string>, ctx: AskContext,
                   isQuestionValid: string -> bool): (AskResult, Limiter)
  {
    if sender.NonPlayer? then (NotAPlayer, s)
    else if !sender.canUse then (NoPermission, s)
    else
      var (playerExceeded, s1) := CheckPlayer(s, sender.id, ctx.playerCeilings, ctx.playerNow);
      if playerExceeded then (PlayerRateLimited, s1)
      else
        var (globalExceeded, s2) := CheckGlobal(s1, ctx.globalCeilings, ctx.globalNow);
        if globalExceeded then (GlobalRateLimited, s2)
        else if |args| == 0 then InteractiveStep(s2, sender.id, ctx)
        else
          var question := Trim(JoinWithSpaces(args));
          if isQuestionValid(question) then (Asked(question), s2) else (QuestionRejected(question), s2)
  }

  /** Non-players and players without `battista.use` are turned away before any limit is touched. */
  lemma RefusedSendersTouchNothing(s: Limiter, sender: Sender, args: seq<string>, ctx: AskContext,
                                   isQuestionValid: string -> bool)
    requires sender.NonPlayer? || !sender.canUse
    ensures AskStep(s, sender, args, ctx, isQuestionValid).1 == s
    ensures AskStep(s, sender, args, ctx, isQuestionValid).0 in {NotAPlayer, NoPermission}
  {
  }

  /** A player over their own limit never reaches the global limit: its windows are exactly as before. */
  lemma PlayerRejectionSparesGlobal(s: Limiter, id: PlayerId, canUse: bool, args: seq<string>, ctx: AskContext,
                                    isQuestionValid: string -> bool)
    requires canUse
    requires CheckPlayer(s, id, ctx.playerCeilings, ctx.playerNow).0
    ensures var (r, s') := AskStep(s, PlayerSender(id, canUse), args, ctx, isQuestionValid);
      r == PlayerRateLimited && s'.global == s.global && s'.pending == s.pending
  {
  }

  /** A global rejection still leaves the player's request counted in every window of theirs. */
  lemma {:induction false} GlobalRejectionConsumesPlayerSlot(s: Limiter, id: PlayerId, args: seq<string>, ctx: AskContext,
                                          isQuestionValid: string -> bool)
    requires !CheckPlayer(s, id, ctx.playerCeilings, ctx.playerNow).0
    requires CheckGlobal(CheckPlayer(s, id, ctx.playerCeilings, ctx.playerNow).1, ctx.globalCeilings, ctx.globalNow).0
    ensures var (r, s') := AskStep(s, PlayerSender(id, true), args, ctx, isQuestionValid);
      var before := Rolled(EntryOf(s.players, id).quota, ctx.playerNow);
      && r == GlobalRateLimited
      && id in s'.players
      && s'.players[id].quota.minute.count == before.minute.count + 1
      && s'.players[id].quota.hour.count == before.hour.count + 1
      && s'.players[id].quota.day.count == before.day.count + 1
  {
    AdmissionCountsOnce(EntryOf(s.players, id).quota, ctx.playerCeilings, ctx.playerNow);
  }

  /**
   * Going interactive, or being told a question is already pending, passes both limits
   * first, so either costs one request in every window of the player and of the server.
   */
  lemma {:induction false} InteractiveModeConsumesQuota(s: Limiter, id: PlayerId, ctx: AskContext,
                                                        isQuestionValid: string -> bool)
    requires var r := AskStep(s, PlayerSender(id, true), [], ctx, isQuestionValid).0;
      r.InteractiveStarted? || r.InteractivePending?
    ensures var s' := AskStep(s, PlayerSender(id, true), [], ctx, isQuestionValid).1;
      var before := Rolled(EntryOf(s.players, id).quota, ctx.playerNow);
      var globalBefore := Rolled(s.global, ctx.globalNow);
      && id in s'.players
      && s'.players[id].quota.minute.count == before.minute.count + 1
      && s'.players[id].quota.hour.count == before.hour.count + 1
      && s'.players[id].quota.day.count == before.day.count + 1
      && s'.global.minute.count == globalBefore.minute.count + 1
      && s'.global.hour.count == globalBefore.hour.count + 1
      && s'.global.day.count == globalBefore.day.count + 1
  {
    var s1 := CheckPlayer(s, id, ctx.playerCeilings, ctx.playerNow).1;
    AdmissionCountsOnce(EntryOf(s.players, id).quota, ctx.playerCeilings, ctx.playerNow);
    AdmissionCountsOnce(s1.global, ctx.globalCeilings, ctx.globalNow);
  }

  /** Without arguments no question is built and nothing is asked; with arguments interactive mode is never entered. */
  lemma NoArgumentsNeverAsks(s: Limiter, sender: Sender, args: seq<string>, ctx: AskContext,
                             isQuestionValid: string -> bool)
    ensures var r := AskStep(s, sender, args, ctx, isQuestionValid).0;
      && (args == [] ==> !r.Asked? && !r.QuestionRejected?)
      && (args != [] ==> !r.InteractiveStarted? && !r.InteractivePending?)
  {
  }

  /** Whatever is asked is the trimmed, space-joined arguments, and it passed the validity check. */
  lemma AskedQuestionIsBuilt(s: Limiter, sender: Sender, args: seq<string>, ctx: AskContext,
                             isQuestionValid: string -> bool)
    requires AskStep(s, sender, args, ctx, isQuestionValid).0.Asked?
    ensures var q := AskStep(s, sender, args, ctx, isQuestionValid).0.question;
      q == Trim(JoinWithSpaces(args)) && isQuestionValid(q) && sender.PlayerSender? && sender.canUse && args != []
  {
    assert sender.PlayerSender? && sender.canUse;
    var (playerExceeded, s1) := CheckPlayer(s, sender.id, ctx.playerCeilings, ctx.playerNow);
    assert !playerExceeded;
    var (globalExceeded, s2) := CheckGlobal(s1, ctx.globalCeilings, ctx.globalNow);
    assert !globalExceeded;
    assert |args| != 0;
  }

  /** A player already waiting keeps their pending entry and its task; otherwise exactly their entry is added. */
  lemma InteractiveGuard(s: Limiter, player: PlayerId, ctx: AskContext)
    ensures HasPending(s, player) ==> InteractiveStep(s, player, ctx) == (InteractivePending, s)
    ensures !HasPending(s, player) ==>
      var s' := InteractiveStep(s, player, ctx).1;
      && s'.pending == s.pending[player := ctx.timeoutTask]
      && s'.pending.Keys == s.pending.Keys + {player}
      && InteractiveStep(s, player, ctx).0 == InteractiveStarted(20 * ctx.timeoutSeconds)
  {
  }

  /** The timeout firing after a fresh registration removes the entry again and cancels its task. */
  lemma {:induction false} TimeoutUndoesRegistration(s: Limiter, player: PlayerId, ctx: AskContext)
    requires !HasPending(s, player)
    ensures var s' := RemovePending(InteractiveStep(s, player, ctx).1, player);
      s'.pending == s.pending && ctx.timeoutTask in s'.cancelled
  {
    AddThenRemove(s, player, ctx.timeoutTask);
  }

  // ---------------------------------------------------------------------------
  // The command against the LimitsUtil object

  /** handleInteractiveAsk. */
  method HandleInteractiveAsk(util: LimitsUtil, player: PlayerId, ctx: AskContext) returns (result: AskResult)
    requires util.Valid()
    modifies util
    ensures util.Valid() && util.Repr == old(util.Repr)
    ensures (result, util.Model()) == InteractiveStep(old(util.Model()), player, ctx)
  {
    if util.HasPendingQuestions(player) {
      return InteractivePending;
    }
    util.AddPendingQuestions(player, ctx.timeoutTask);
    return InteractiveStarted(TimeoutTicks(ctx.timeoutSeconds));
  }

  /** The body of the timeout task. */
  method OnInteractiveTimeout(util: LimitsUtil, player: PlayerId)
    requires util.Valid()
    modifies util
    ensures util.Valid() && util.Repr == old(util.Repr)
    ensures util.Model() == RemovePending(old(util.Model()), player)
  {
    util.RemovePendingQuestions(player);
  }

  /** onCommand. */
  method OnCommand(util: LimitsUtil, sender: Sender, args: seq<string>, ctx: AskContext,
                   isQuestionValid: string -> bool) returns (result: AskResult)
    requires util.Valid()
    modifies util, util.Repr
    ensures util.Valid() && fresh(util.Repr - old(util.Repr))
    ensures (result, util.Model()) == AskStep(old(util.Model()), sender, args, ctx, isQuestionValid)
  {
    if sender.NonPlayer? {
      return NotAPlayer;
    }
    if !sender.canUse {
      return NoPermission;
    }
    var playerExceeded := util.IsPlayerRateLimitExceeded(sender.id, ctx.playerNow, ctx.playerCeilings);
    if playerExceeded {
      return PlayerRateLimited;
    }
    var globalExceeded := util.IsGlobalRateLimitExceeded(ctx.globalNow, ctx.globalCeilings);
    if globalExceeded {
      return GlobalRateLimited;
    }
    if |args| == 0 {
      result := HandleInteractiveAsk(util, sender.id, ctx);
      return;
    }
    var question := BuildQuestion(args);
    if !isQuestionValid(question) {
      return QuestionRejected(question);
    }
    return Asked(question);
  }
}
