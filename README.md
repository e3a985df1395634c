# Battista AI for Spigot — a Dafny model of its decision logic

Battista is a Minecraft (Spigot/Paper) plugin. It forwards players' questions to an AI backend over HTTP and returns the answers in game. This project models the plugin's decision logic and states its promises as Dafny contracts and lemmas:

- **Rate limiting.**
  - `SlidingWindow` is a lazily reset window counter.
  - `Limit` combines a minute, an hour and a day window. It checks all three, then records in all three.
  - `PlayerLimits` adds a last-access stamp and a 24-hour expiry.
  - `GlobalLimits` is a `Limit` whose defaults are 30/600/1200.
  - `LimitsUtil` owns the per-player map, the single global limit, the cleanup timer and the registry of players waiting in interactive mode.
- **`HttpUtil`.** Builds the request payload, turns the backend's reply into an answer, and maps each failure to a configured message.
- **`/ask` (`AskCommand`).** Permission, then the player limit, then the global limit, then interactive mode or a direct question.
- **Chat (`ChatListener`).** Tag detection and stripping, `?` auto-detection, and the 3..500 length gate. Also the two helpers `extractQuestionFromTaggedMessage` and `looksLikeQuestion`.
- **`/battista` (`BattistaCommand`).** Subcommand dispatch and the tab completer.

## Layout

- `java_lang.dfy` (module `JavaLang`) holds the Java library semantics the model relies on:
  - `String.trim` removes every char up to U+0020;
  - `toLowerCase`, restricted to ASCII;
  - `startsWith`, `endsWith` and `contains`;
  - the regex classes `\s` and "any char but a line terminator";
  - decimal rendering of integers.
- Each stateful Java class has two parts:
  - a value-level specification: `Window`/`Roll`, `Quota`/`TryAdmit`, `PlayerState`/`PlayerAdmit`, and `Limiter` with its step functions;
  - a Dafny `class` with the same fields, updated in place. Each method is proved to move its state exactly as the specification function says (`State() == F(old(State()))`).
- The properties are lemmas about those functions.
- `LimitsUtil`'s static fields become the fields of one `LimitsUtil` object.
- `AskCommand.onCommand` is a method over that object, proved against the pure `AskStep`.
- Loops in the source are `while` loops with invariants, each proved against a specification function:
  - `buildQuestion`;
  - the array loop of `extractResponse`;
  - the word search of `looksLikeQuestion`;
  - `onTabComplete`.
- Inputs from outside the model are parameters:
  - the clock (`now`);
  - configuration values (ceilings, the folder filter, the timeout, messages as `Option<string>` for "absent, use the default");
  - the scheduler's task ids;
  - permission checks;
  - the result of Gson's parser;
  - `ChatUtil.is_question_valid`.

Behaviour of the code that the model keeps as written:

- The answer built from a JSON array ends every path with `"\n"`, the last one included (`Http.DocumentsYieldLines`).
- `addPendingQuestions` is a plain `put` that overwrites an existing entry. The "one pending question per player" guard lives in `handleInteractiveAsk` (`RateLimiting.AddPendingOverwrites`, `Ask.InteractiveGuard`).
- A player's request is counted before the global check runs, so a global rejection still costs the player one request (`Ask.GlobalRejectionConsumesPlayerSlot`).
- Auto-detection uses `.*\?\s*$` with `matches()`. `.` does not match a line terminator, so a message with a line break before its final `?` is not detected (`Chat.MultiLineNotDetected`).
- The chat listener keeps the configuration object it was built with (`ChatListener.java:20`). Its tag pattern, its containment test and `autoDetectQuestions` all come from that object, so they always agree, and `ChatConfig` has one `tag`. `/battista reload` installs a new configuration object in the plugin. The listener keeps the start-up values. The rate-limit ceilings are fetched through `getConfigs()` on every call, so they do pick up the new values.
- With an empty `chat.tag`, every message counts as tagged, and the pattern `\s*` removes all of its whitespace (`Chat.EmptyTagStripsAllWhitespace`).
- `Limit` checks and then records, window by window, and the model follows that order. Checking and recording are not one atomic step.

## Model

| member | source | states |
|---|---|---|
| Windows.Roll | src/main/java/org/itsmanu/battistaAiSpigot/dto/SlidingWindow.java:24-29 | definition of `cleanExpired`: an empty window starting at `now` once `now - start >= size`, otherwise the window unchanged; its properties are `RollSettles` and `RollNeverRaises` |
| Windows.Probe | src/main/java/org/itsmanu/battistaAiSpigot/dto/SlidingWindow.java:14-17 | definition of `isRateLimitExceeded(now, limit)`: roll, then `count >= limit` on the rolled window; its properties are `ProbeIdempotent` and `NonPositiveLimitAlwaysExceeded` |
| Windows.Recorded | src/main/java/org/itsmanu/battistaAiSpigot/dto/SlidingWindow.java:19-22 | definition of `record(now)`: roll, then one more request; `RollSettles` and `Limits.AdmissionCountsOnce` state what it does |
| Windows.RollSettles | src/main/java/org/itsmanu/battistaAiSpigot/dto/SlidingWindow.java:24-29 | with a positive size, after a roll or a record at `now` the window has not elapsed at `now`, and rolling again changes nothing |
| Windows.RollNeverRaises | src/main/java/org/itsmanu/battistaAiSpigot/dto/SlidingWindow.java:24-29 | rolling never raises the count, and lowers it only when the window has elapsed |
| Windows.NonPositiveLimitAlwaysExceeded | src/main/java/org/itsmanu/battistaAiSpigot/dto/SlidingWindow.java:14-17 | a limit of 0 or less is always reported as exceeded |
| Windows.ProbeIdempotent | src/main/java/org/itsmanu/battistaAiSpigot/dto/SlidingWindow.java:14-17 | two checks at the same instant with the same limit agree, and the second changes nothing |
| Windows.SlidingWindow.constructor | src/main/java/org/itsmanu/battistaAiSpigot/dto/SlidingWindow.java:5-12 | a new counter has the given size, count 0 and windowStart 0 |
| Windows.SlidingWindow.CleanExpired | src/main/java/org/itsmanu/battistaAiSpigot/dto/SlidingWindow.java:24-29 | resets count to 0 and windowStart to `now` exactly when `now - windowStart >= windowSize`; otherwise the object is unchanged |
| Windows.SlidingWindow.IsRateLimitExceeded | src/main/java/org/itsmanu/battistaAiSpigot/dto/SlidingWindow.java:14-17 | the answer is `count >= limit` on the rolled count; the count never grows; with a positive size the window has not elapsed afterwards |
| Windows.SlidingWindow.Record | src/main/java/org/itsmanu/battistaAiSpigot/dto/SlidingWindow.java:19-22 | the count ends exactly one above its rolled value; with a positive size the window has not elapsed afterwards |
| Limits.TryAdmit | src/main/java/org/itsmanu/battistaAiSpigot/dto/Limit.java:35-47 | definition of `Limit.isRateLimitExceeded`: minute, hour and day are checked in turn with early returns, then all three record; its properties are the `Limits` lemmas below |
| Limits.AdmittedIffAllBelow | src/main/java/org/itsmanu/battistaAiSpigot/dto/Limit.java:35-47 | a request is admitted exactly when all three rolled windows are below their ceilings |
| Limits.MinuteRejectionTouchesNothingElse | src/main/java/org/itsmanu/battistaAiSpigot/dto/Limit.java:36-40 | a full minute window rejects, and the short-circuit leaves the hour and day windows untouched |
| Limits.RejectionCountsNothing | src/main/java/org/itsmanu/battistaAiSpigot/dto/Limit.java:36-40 | a rejected request adds to no window's count |
| Limits.AdmissionCountsOnce | src/main/java/org/itsmanu/battistaAiSpigot/dto/Limit.java:43-46 | an admitted request adds exactly one to each of the three rolled windows |
| Limits.TryAdmitKeepsCeilings | src/main/java/org/itsmanu/battistaAiSpigot/dto/Limit.java:36-46 | with fixed ceilings, each window's count stays at most max(its ceiling, 0) |
| Limits.StepFromCounts | src/main/java/org/itsmanu/battistaAiSpigot/dto/Limit.java:35-47 | when all three windows hold `j` requests at `now`, a check rejects iff `j` reaches the tightest ceiling, and otherwise leaves `j + 1` |
| Limits.RepeatFromCounts | src/main/java/org/itsmanu/battistaAiSpigot/dto/Limit.java:35-47 | from `j` requests at one instant, the i-th further call is rejected iff `i >= tightest ceiling - j` |
| Limits.FreshLimitAdmitsTightestCeiling | src/main/java/org/itsmanu/battistaAiSpigot/dto/Limit.java:35-47 | on a fresh Limit, calls at one instant admit exactly the first min(perMinute, perHour, perDay) and reject the rest |
| Limits.GlobalDefaultsAdmitThirty | src/main/java/org/itsmanu/battistaAiSpigot/dto/GlobalLimits.java:7-17 | with the default global ceilings 30/600/1200, a burst at one instant gets exactly 30 requests through |
| Limits.Limit.constructor | src/main/java/org/itsmanu/battistaAiSpigot/dto/Limit.java:4-6 | three distinct, empty windows of 60 000, 3 600 000 and 86 400 000 ms |
| Limits.Limit.IsRateLimitExceeded | src/main/java/org/itsmanu/battistaAiSpigot/dto/Limit.java:35-47 | the verdict and the three windows are those of the check-all-then-record rule; the ceiling bound is kept |
| Players.Expired | src/main/java/org/itsmanu/battistaAiSpigot/dto/PlayerLimits.java:38-40 | definition of `isExpired`: strictly more than 86 400 000 ms since the last access; `RetentionWindow` states it |
| Players.PlayerAdmit | src/main/java/org/itsmanu/battistaAiSpigot/dto/PlayerLimits.java:27-30 | definition of `PlayerLimits.isRateLimitExceeded`: stamp `lastAccess`, then the inherited check; `PlayerAdmitStamps` states it |
| Players.PlayerAdmitStamps | src/main/java/org/itsmanu/battistaAiSpigot/dto/PlayerLimits.java:27-30 | `lastAccess` becomes `now` whether or not the request is admitted; the verdict and windows are exactly the inherited Limit check's |
| Players.RetentionWindow | src/main/java/org/itsmanu/battistaAiSpigot/dto/PlayerLimits.java:38-40 | an entry checked at `t` is expired at `now` iff `now > t + 86 400 000` (strict comparison) |
| Players.AccessKeepsStartsBefore | src/main/java/org/itsmanu/battistaAiSpigot/dto/PlayerLimits.java:27-30 | with non-decreasing clocks, every window of an entry starts no later than its last access |
| Players.ExpiredEntryActsFresh | src/main/java/org/itsmanu/battistaAiSpigot/dto/PlayerLimits.java:38-40 | an expired entry that was not swept answers and counts exactly like windows reset at `now` |
| Players.PlayerDefaultsAdmitThree | src/main/java/org/itsmanu/battistaAiSpigot/dto/PlayerLimits.java:8-18 | with the default player ceilings 3/60/120, a new player's burst at one instant gets exactly 3 requests through |
| Players.PlayerLimits.IsExpired | src/main/java/org/itsmanu/battistaAiSpigot/dto/PlayerLimits.java:38-40 | reads `lastAccess` only and is `Expired(lastAccess, now)` |
| Players.PlayerLimits.constructor | src/main/java/org/itsmanu/battistaAiSpigot/dto/PlayerLimits.java:5-6 | a new entry has fresh windows and `lastAccess` 0 |
| Players.PlayerLimits.IsRateLimitExceeded | src/main/java/org/itsmanu/battistaAiSpigot/dto/PlayerLimits.java:27-30 | stamps `lastAccess` and runs the inherited check, as PlayerAdmit says |
| RateLimiting.CheckPlayer | src/main/java/org/itsmanu/battistaAiSpigot/utils/LimitsUtil.java:100-104 | definition of `isPlayerRateLimitExceeded` on the value model: `computeIfAbsent`, then the player's check; `CheckPlayerTouchesOnlyThatPlayer` states its frame |
| RateLimiting.CheckGlobal | src/main/java/org/itsmanu/battistaAiSpigot/utils/LimitsUtil.java:89-92 | definition of `isGlobalRateLimitExceeded`: the shared global limit's check; `CheckGlobalTouchesOnlyGlobal` states its frame |
| RateLimiting.Sweep | src/main/java/org/itsmanu/battistaAiSpigot/utils/LimitsUtil.java:33-36 | definition of the cleanup timer's `removeIf(isExpired(now))`; `SweepRemovesExactlyExpired` and `SweepIdempotent` state it |
| RateLimiting.StartCleanup | src/main/java/org/itsmanu/battistaAiSpigot/utils/LimitsUtil.java:31-37 | definition of `startCleanupTask`: only the timer id changes, to the one the scheduler assigned |
| RateLimiting.StopCleanup | src/main/java/org/itsmanu/battistaAiSpigot/utils/LimitsUtil.java:44-50 | definition of `stopCleanupTask`; `StopCleanupClears` states it |
| RateLimiting.HasPending | src/main/java/org/itsmanu/battistaAiSpigot/utils/LimitsUtil.java:58-60 | definition of `hasPendingQuestions`: the player has an entry in the pending map |
| RateLimiting.AddPending | src/main/java/org/itsmanu/battistaAiSpigot/utils/LimitsUtil.java:68-70 | definition of `addPendingQuestions`, a plain `put`; `AddPendingOverwrites` and `AddThenRemove` state it |
| RateLimiting.RemovePending | src/main/java/org/itsmanu/battistaAiSpigot/utils/LimitsUtil.java:77-82 | definition of `removePendingQuestions`: remove, then cancel the stored task if there was one; `RemovePendingCancels` and `AddThenRemove` state it |
| RateLimiting.CheckPlayerTouchesOnlyThatPlayer | src/main/java/org/itsmanu/battistaAiSpigot/utils/LimitsUtil.java:100-104 | afterwards the map holds the player; an existing entry is kept and advanced, a missing one starts fresh; other entries, the global limit and the pending map are unchanged |
| RateLimiting.CheckGlobalTouchesOnlyGlobal | src/main/java/org/itsmanu/battistaAiSpigot/utils/LimitsUtil.java:89-92 | the verdict and the new global windows are `TryAdmit`'s on the global limit; the players, the pending map, the cancelled tasks and the cleanup timer are unchanged |
| RateLimiting.SweepRemovesExactlyExpired | src/main/java/org/itsmanu/battistaAiSpigot/utils/LimitsUtil.java:35 | the sweep removes exactly the expired entries, leaves every other entry as it was and touches nothing else |
| RateLimiting.SweepIdempotent | src/main/java/org/itsmanu/battistaAiSpigot/utils/LimitsUtil.java:35 | a second sweep at the same instant removes nothing |
| RateLimiting.CheckedPlayerSurvivesSweep | src/main/java/org/itsmanu/battistaAiSpigot/utils/LimitsUtil.java:33-36 | a player checked at `t` survives every sweep up to `t + 24h` |
| RateLimiting.StopCleanupClears | src/main/java/org/itsmanu/battistaAiSpigot/utils/LimitsUtil.java:44-50 | afterwards no player entry and no timer remain, and a scheduled timer has been cancelled |
| RateLimiting.AddPendingOverwrites | src/main/java/org/itsmanu/battistaAiSpigot/utils/LimitsUtil.java:58-70 | after a put the player is pending with exactly the new task, whatever was stored; other players' status is unchanged |
| RateLimiting.RemovePendingCancels | src/main/java/org/itsmanu/battistaAiSpigot/utils/LimitsUtil.java:77-82 | the player is no longer pending and the stored task is cancelled; an absent player changes nothing; other entries are untouched |
| RateLimiting.AddThenRemove | src/main/java/org/itsmanu/battistaAiSpigot/utils/LimitsUtil.java:68-82 | registering a player who was not pending and then removing them restores the map, with only the new task cancelled |
| RateLimiting.LimitsUtil.constructor | src/main/java/org/itsmanu/battistaAiSpigot/utils/LimitsUtil.java:17-21 | no players, a fresh global limit, no pending questions, no timer |
| RateLimiting.LimitsUtil.SweepExpired | src/main/java/org/itsmanu/battistaAiSpigot/utils/LimitsUtil.java:33-36 | the timer body removes the expired entries in place, as Sweep says |
| RateLimiting.LimitsUtil.StartCleanupTask | src/main/java/org/itsmanu/battistaAiSpigot/utils/LimitsUtil.java:31-37 | records the scheduled timer's id and changes nothing else |
| RateLimiting.LimitsUtil.StopCleanupTask | src/main/java/org/itsmanu/battistaAiSpigot/utils/LimitsUtil.java:44-50 | cancels a scheduled timer and clears the player map, as StopCleanup says |
| RateLimiting.LimitsUtil.HasPendingQuestions | src/main/java/org/itsmanu/battistaAiSpigot/utils/LimitsUtil.java:58-60 | reads the pending map only; true iff the player has an entry in it |
| RateLimiting.LimitsUtil.AddPendingQuestions | src/main/java/org/itsmanu/battistaAiSpigot/utils/LimitsUtil.java:68-70 | the pending map gains or overwrites the player's task; nothing else changes |
| RateLimiting.LimitsUtil.RemovePendingQuestions | src/main/java/org/itsmanu/battistaAiSpigot/utils/LimitsUtil.java:77-82 | removes the entry and cancels its task if present, as RemovePending says |
| RateLimiting.LimitsUtil.IsGlobalRateLimitExceeded | src/main/java/org/itsmanu/battistaAiSpigot/utils/LimitsUtil.java:89-92 | the verdict and new state are CheckGlobal's: only the global limit moves |
| RateLimiting.LimitsUtil.AddEntry | src/main/java/org/itsmanu/battistaAiSpigot/utils/LimitsUtil.java:102 | the absent case of computeIfAbsent: a fresh entry is stored under the player and no other entry changes |
| RateLimiting.LimitsUtil.EntryFor | src/main/java/org/itsmanu/battistaAiSpigot/utils/LimitsUtil.java:102 | returns the player's entry, creating it only when absent; every other entry, the global limit and the pending map are unchanged |
| RateLimiting.LimitsUtil.CheckEntry | src/main/java/org/itsmanu/battistaAiSpigot/utils/LimitsUtil.java:103 | checking the found entry changes that entry alone, as PlayerAdmit says |
| RateLimiting.LimitsUtil.IsPlayerRateLimitExceeded | src/main/java/org/itsmanu/battistaAiSpigot/utils/LimitsUtil.java:100-104 | the verdict and new state are CheckPlayer's |
| Http.AsString | src/main/java/org/itsmanu/battistaAiSpigot/utils/HttpUtil.java:214 | a JSON string gives its text; null and objects throw; an array converts only when it has exactly one element |
| Http.NormalizeFolder | src/main/java/org/itsmanu/battistaAiSpigot/utils/HttpUtil.java:263-266 | the result ends in `/` and starts with the folder, and is one char longer exactly when the folder did not end in `/` |
| Http.PreparePayload | src/main/java/org/itsmanu/battistaAiSpigot/utils/HttpUtil.java:254-275 | definition of the request object's properties in the order they are added; `PromptIffQuestion`, `FiltersIffFolder` and `DocumentsRequestHasNoPrompt` state it |
| Http.PromptIffQuestion | src/main/java/org/itsmanu/battistaAiSpigot/utils/HttpUtil.java:256-259 | the payload has `prompt` iff the question is non-empty, and then it is the question verbatim |
| Http.FiltersIffFolder | src/main/java/org/itsmanu/battistaAiSpigot/utils/HttpUtil.java:261-271 | `filters` and `metadata_filter` are present iff the folder filter is non-empty, and both carry ``contains(path, `F`)`` with F the slash-terminated folder |
| Http.NormalizeFolderIdempotent | src/main/java/org/itsmanu/battistaAiSpigot/utils/HttpUtil.java:263-266 | normalising twice is normalising once, and "docs" and "docs/" give the same filter |
| Http.DocumentsRequestHasNoPrompt | src/main/java/org/itsmanu/battistaAiSpigot/utils/HttpUtil.java:55-58 | the document-list request sends the empty question, so its payload has no prompt |
| Http.ExtractResponse | src/main/java/org/itsmanu/battistaAiSpigot/utils/HttpUtil.java:207-233 | the StringBuilder loop computes Extract: the `response` field's text, the paths each followed by `"\n"`, or the fallback; a throwing element makes the whole call throw |
| Http.ThrowStaysThrown | src/main/java/org/itsmanu/battistaAiSpigot/utils/HttpUtil.java:218-228 | once an array element has thrown, no later element can undo it |
| Http.DocumentsYieldLines | src/main/java/org/itsmanu/battistaAiSpigot/utils/HttpUtil.java:215-229 | an array of `{"path": p}` documents yields every path, in order, each followed by `"\n"` (the last one too) |
| Http.SkippedElementsInvisible | src/main/java/org/itsmanu/battistaAiSpigot/utils/HttpUtil.java:218-227 | non-objects, objects without `path` and null paths can be inserted anywhere without changing the answer |
| Http.LinesEndInNewline | src/main/java/org/itsmanu/battistaAiSpigot/utils/HttpUtil.java:224 | a non-empty document answer always ends with `"\n"` |
| Http.SplitLinesRoundTrip | src/main/java/org/itsmanu/battistaAiSpigot/utils/HttpUtil.java:224 | splitting the answer at `"\n"` gives the paths back when none holds a line break |
| Http.ResponseCompletion | src/main/java/org/itsmanu/battistaAiSpigot/utils/HttpUtil.java:178-195 | a null or blank body completes with `""`, a syntax error with the raw body, any other parser failure exceptionally |
| Http.ParsedOutcomes | src/main/java/org/itsmanu/battistaAiSpigot/utils/HttpUtil.java:184-195 | a JSON null, a primitive, or an object without `response` gives the raw body; `response` gives its string or completes exceptionally; an empty array gives `""` |
| Http.NullResponseIsExceptional | src/main/java/org/itsmanu/battistaAiSpigot/utils/HttpUtil.java:191-193 | `{"response": null}` completes the future exceptionally, not with the fallback |
| Http.HandleHttpRequestFailure | src/main/java/org/itsmanu/battistaAiSpigot/utils/HttpUtil.java:126-130 | definition: completes with `cant_process`, default "Can't process request"; `FailureMessages` states it |
| Http.HandleUnsuccessfulResponse | src/main/java/org/itsmanu/battistaAiSpigot/utils/HttpUtil.java:162-166 | definition: completes with `cant_process`, default "Service unavailable, Error: ", followed by the status code; `UnsuccessfulMessageCarriesCode` states it |
| Http.HandleRequestPreparationError | src/main/java/org/itsmanu/battistaAiSpigot/utils/HttpUtil.java:242-246 | definition: completes with `internal_error`, default "Internal Error"; `FailureMessages` states it |
| Http.Outcome | src/main/java/org/itsmanu/battistaAiSpigot/utils/HttpUtil.java:67-166 | definition of how a request's future completes for each way the exchange can go; `FailureMessages`, `ResponseRouting` and `ParsedOutcomes` state it |
| Http.UnsuccessfulMessageCarriesCode | src/main/java/org/itsmanu/battistaAiSpigot/utils/HttpUtil.java:162-166 | the message is the configured `cant_process` text (default "Service unavailable, Error: ") followed by the status code, which reads back as that code |
| Http.FailureMessages | src/main/java/org/itsmanu/battistaAiSpigot/utils/HttpUtil.java:67-130 | a preparation error completes with `internal_error` (default "Internal Error"), a transport failure with `cant_process` (default "Can't process request"); neither completes exceptionally |
| Http.ResponseRouting | src/main/java/org/itsmanu/battistaAiSpigot/utils/HttpUtil.java:141-166 | an unsuccessful status or a missing body completes with the `cant_process` message followed by the status code, whatever the parser would say; only a successful, non-blank body can complete exceptionally |
| Ask.BuildQuestion | src/main/java/org/itsmanu/battistaAiSpigot/commands/AskCommand.java:115-124 | the question is the arguments in order, joined by single spaces, then trimmed |
| Ask.JoinStep | src/main/java/org/itsmanu/battistaAiSpigot/commands/AskCommand.java:117-122 | one more argument extends the joined text by a space and that argument |
| Ask.JoinSplitRoundTrip | src/main/java/org/itsmanu/battistaAiSpigot/commands/AskCommand.java:115-122 | arguments without spaces are recovered by cutting the joined text at each space |
| Ask.QuestionIsJoinedWords | src/main/java/org/itsmanu/battistaAiSpigot/commands/AskCommand.java:123 | when the first and last arguments have no blank at their outer ends, trimming changes nothing |
| Ask.JoinEnds | src/main/java/org/itsmanu/battistaAiSpigot/commands/AskCommand.java:115-122 | the joined text starts with the first argument and ends with the last |
| Ask.AskStep | src/main/java/org/itsmanu/battistaAiSpigot/commands/AskCommand.java:38-84 | definition of `onCommand` on the value model, branch by branch; its properties are the `Ask` lemmas below, and `Ask.OnCommand` is proved against it |
| Ask.InteractiveStep | src/main/java/org/itsmanu/battistaAiSpigot/commands/AskCommand.java:126-160 | definition of `handleInteractiveAsk`: refuse while a question is pending, otherwise register the timeout task; `InteractiveGuard` states it |
| Ask.RefusedSendersTouchNothing | src/main/java/org/itsmanu/battistaAiSpigot/commands/AskCommand.java:92-107 | a non-player or a player without `battista.use` is turned away before any limit is touched |
| Ask.PlayerRejectionSparesGlobal | src/main/java/org/itsmanu/battistaAiSpigot/commands/AskCommand.java:47-51 | a player over their own limit is rejected and the global limit is neither consulted nor consumed |
| Ask.GlobalRejectionConsumesPlayerSlot | src/main/java/org/itsmanu/battistaAiSpigot/commands/AskCommand.java:47-58 | when the global check rejects, the player's request has already been counted in all their windows |
| Ask.InteractiveModeConsumesQuota | src/main/java/org/itsmanu/battistaAiSpigot/commands/AskCommand.java:47-64 | going interactive, or being told a question is already pending, passes both limits first and so adds one request to each of the player's three windows and each of the global three |
| Ask.NoArgumentsNeverAsks | src/main/java/org/itsmanu/battistaAiSpigot/commands/AskCommand.java:61-64 | with no arguments nothing is asked; with arguments interactive mode is never entered |
| Ask.AskedQuestionIsBuilt | src/main/java/org/itsmanu/battistaAiSpigot/commands/AskCommand.java:66-72 | whatever is asked is the built question, and it passed the validity check |
| Ask.InteractiveGuard | src/main/java/org/itsmanu/battistaAiSpigot/commands/AskCommand.java:126-160 | a pending player changes nothing; otherwise exactly their entry is added, with a timeout of the configured seconds × 20 ticks |
| Ask.TimeoutUndoesRegistration | src/main/java/org/itsmanu/battistaAiSpigot/commands/AskCommand.java:153-154 | the timeout firing after a fresh registration removes the entry again and cancels its task |
| Ask.HandleInteractiveAsk | src/main/java/org/itsmanu/battistaAiSpigot/commands/AskCommand.java:126-160 | the result and the limiter's new state are InteractiveStep's |
| Ask.OnInteractiveTimeout | src/main/java/org/itsmanu/battistaAiSpigot/commands/AskCommand.java:145-155 | the timeout task removes the player's pending entry, as RemovePending says |
| Ask.OnCommand | src/main/java/org/itsmanu/battistaAiSpigot/commands/AskCommand.java:38-84 | the result and the limiter's new state are AskStep's: permission, player limit, global limit, then interactive mode or the built question |
| Chat.StripTag | src/main/java/org/itsmanu/battistaAiSpigot/listeners/ChatListener.java:72 | removing the tag pattern never lengthens the message |
| Chat.UntaggedUnchanged | src/main/java/org/itsmanu/battistaAiSpigot/listeners/ChatListener.java:72 | a message without the tag anywhere, ignoring case, passes through the replacement unchanged |
| Chat.LeadingTagRemoved | src/main/java/org/itsmanu/battistaAiSpigot/listeners/ChatListener.java:37-38 | a tag in any letter case, plus the whitespace after it, is removed, and the rest is scanned on |
| Chat.TaggedQuestion | src/main/java/org/itsmanu/battistaAiSpigot/listeners/ChatListener.java:72 | "tag, blanks, question" with no further tag gives exactly the question |
| Chat.EmptyTagStripsAllWhitespace | src/main/java/org/itsmanu/battistaAiSpigot/listeners/ChatListener.java:37-38 | with an empty tag the pattern is `\s*`, which deletes every whitespace char of the message |
| Chat.MatchesQuestionPattern | src/main/java/org/itsmanu/battistaAiSpigot/listeners/ChatListener.java:28 | definition of `.*\?\s*$` under `matches()`; `QuestionPatternOnTrimmed` and `MultiLineNotDetected` state it |
| Chat.QuestionPatternOnTrimmed | src/main/java/org/itsmanu/battistaAiSpigot/listeners/ChatListener.java:28 | a trimmed message matches `.*\?\s*$` iff it ends with `?` and has no line terminator before it |
| Chat.MultiLineNotDetected | src/main/java/org/itsmanu/battistaAiSpigot/listeners/ChatListener.java:28 | "why\nnot?" is not auto-detected |
| Chat.Activated | src/main/java/org/itsmanu/battistaAiSpigot/listeners/ChatListener.java:66-84 | definition of the activation step: the tag branch first, then auto-detection; `TagTakesPriority`, `UntaggedIgnoredWithoutAutoDetect` and `AutoDetectedQuestionDispatched` state it |
| Chat.Decide | src/main/java/org/itsmanu/battistaAiSpigot/listeners/ChatListener.java:90-115 | an activated question is dispatched iff it is 3..500 chars and the player has `aihelper.ask`; shorter is dropped, longer refused |
| Chat.OnAsyncChat | src/main/java/org/itsmanu/battistaAiSpigot/listeners/ChatListener.java:54-128 | null or blank messages do nothing; a dispatched question is 3..500 chars, permitted, and is the one the trimmed message activates |
| Chat.TagTakesPriority | src/main/java/org/itsmanu/battistaAiSpigot/listeners/ChatListener.java:69-87 | a tagged message is handled the same with auto-detection on or off |
| Chat.UntaggedIgnoredWithoutAutoDetect | src/main/java/org/itsmanu/battistaAiSpigot/listeners/ChatListener.java:79-87 | with auto-detection off, an untagged message triggers nothing |
| Chat.AutoDetectedQuestionDispatched | src/main/java/org/itsmanu/battistaAiSpigot/listeners/ChatListener.java:80-82 | an untagged one-line message ending in `?`, 3..500 chars long, is dispatched as the trimmed message |
| Chat.LengthGate | src/main/java/org/itsmanu/battistaAiSpigot/listeners/ChatListener.java:90-107 | for an activated question: dispatched iff 3..500 chars and permitted, dropped iff 1..2 chars, refused iff over 500 |
| Chat.CollapseSpaces | src/main/java/org/itsmanu/battistaAiSpigot/listeners/ChatListener.java:143 | every whitespace char left is a plain space and no two are adjacent; empty iff the input was |
| Chat.CollapseKeepsText | src/main/java/org/itsmanu/battistaAiSpigot/listeners/ChatListener.java:143 | collapsing keeps every non-whitespace char, in order |
| Chat.CollapseIdempotent | src/main/java/org/itsmanu/battistaAiSpigot/listeners/ChatListener.java:143 | collapsing twice is collapsing once |
| Chat.ExtractQuestionFromTaggedMessage | src/main/java/org/itsmanu/battistaAiSpigot/listeners/ChatListener.java:138-146 | the result has no run of two whitespace chars, and is empty iff the untagged message was blank |
| Chat.EmptyTagRemovesNothing | src/main/java/org/itsmanu/battistaAiSpigot/listeners/ChatListener.java:140 | with an empty tag the replacement removes nothing |
| Chat.LooksLikeQuestion | src/main/java/org/itsmanu/battistaAiSpigot/listeners/ChatListener.java:155-176 | true iff the lower-cased trimmed message ends with `?` or has a question word at its start or between spaces |
| Chat.AnyWordCue | src/main/java/org/itsmanu/battistaAiSpigot/listeners/ChatListener.java:169-173 | the early-return search finds a cue iff some listed word starts the message or stands between spaces |
| Chat.SingleWordNeedsQuestionMark | src/main/java/org/itsmanu/battistaAiSpigot/listeners/ChatListener.java:155-176 | a message without spaces looks like a question iff it ends with `?` |
| Chat.HowMuchImpliesHow | src/main/java/org/itsmanu/battistaAiSpigot/listeners/ChatListener.java:164-167 | anything "how much" or "how many" catches is already caught by "how" |
| Battista.OnCommand | src/main/java/org/itsmanu/battistaAiSpigot/commands/BattistaCommand.java:23-79 | definition of `onCommand` and its reload handler; `Dispatch`, `ReloadNeedsPermission` and `CaseInsensitiveDispatch` state it |
| Battista.Dispatch | src/main/java/org/itsmanu/battistaAiSpigot/commands/BattistaCommand.java:23-52 | false iff the name is not `battista` (ignoring case); help with no argument or `help`; the reload path on `reload`; the unknown message otherwise |
| Battista.ReloadNeedsPermission | src/main/java/org/itsmanu/battistaAiSpigot/commands/BattistaCommand.java:57-79 | `reload` only sends the denial without `battista.reload`, and reloads with it unless reloading throws |
| Battista.CaseInsensitiveDispatch | src/main/java/org/itsmanu/battistaAiSpigot/commands/BattistaCommand.java:26-37 | `/BATTISTA Reload` reloads, `HELP` shows help, another command name is not handled |
| Battista.OnTabComplete | src/main/java/org/itsmanu/battistaAiSpigot/commands/BattistaCommand.java:90-110 | nothing unless exactly one argument; otherwise the subcommands, in order, that start with it (ignoring case) and that the sender may use |
| Battista.OfferedMembership | src/main/java/org/itsmanu/battistaAiSpigot/commands/BattistaCommand.java:98-105 | a name is suggested iff it is a subcommand that starts with the typed text and is permitted |
| Battista.CompletionsInOrder | src/main/java/org/itsmanu/battistaAiSpigot/commands/BattistaCommand.java:96-106 | the suggestions are `reload` (if offered) followed by `help` (if offered) |
| Battista.EmptyPrefixOffersAll | src/main/java/org/itsmanu/battistaAiSpigot/commands/BattistaCommand.java:96-106 | typing nothing offers both subcommands, with `reload` only for senders who may reload |
| Battista.PrefixCompletesReload | src/main/java/org/itsmanu/battistaAiSpigot/commands/BattistaCommand.java:99-103 | "RE" completes to `reload` for senders who may reload and to nothing for others |

## Left out

- Concurrency: `synchronized`, `AtomicInteger`, `volatile` and `ConcurrentHashMap` are modelled as sequential steps. Interleavings of the async cleanup timer, the async chat thread and command handlers are not modelled.
- Network and futures: the OkHttp client, `enqueue` callbacks, `CompletableFuture` and logging are out of scope. A request's fate is an `Exchange` value, and its completion is a `Completion` value.
- JSON: Gson's parser is a foreign library. Its result is an input of type `ParseResult`, and `gson.toJson` serialisation is not modelled. The payload is the ordered list of properties added to the JsonObject.
- `getAsString` on a JSON number or boolean yields a text the model takes as given (the literal). Gson's number formatting is not modelled.
- An `IOException` from `response.body().string()` is not modelled.
- Scheduling: the Bukkit scheduler is not modelled. Task ids are parameters, and cancelling a task is recorded in a set of cancelled ids. The five-minute period of the cleanup timer and the timeout delay are not modelled as time passing.
- `startCleanupTask` is modelled, but the plugin's bootstrap never calls it. `PlayerInteractiveAskListener` is likewise never registered, so its one-line call to `removePendingQuestions` is not modelled separately. `BattistaAiSpigot.java` is not part of this model.
- Configuration: ceilings, the folder filter, the chat tag, the auto-detect switch, the interactive timeout and the messages are parameters. `Ceilings` is read once per call, not once per window getter. A reload between two getter calls of one call is not modelled.
- Messages, MineDown formatting, broadcasts and main-thread hopping (`ChatUtil.java`) are not modelled; each path's result names which message it sends. `TabUtil.java`, `DependencyUtil.java` and `PlayerTabListener.java` are not part of this model.
- Unseen callees are not modelled:
  - `HttpUtil.askAI`, `ChatUtil.sendAiAnswer` and `askAIAndRespond` end the flows, as the results `Asked` and `Dispatched`;
  - `ChatUtil.is_question_valid` is an opaque predicate parameter;
  - permission checks are booleans.
- `Ask.OnInteractiveTimeout`: the `player.isOnline()` timeout message is not modelled; only the removal of the pending entry is.
- Text: `toLowerCase`, `equalsIgnoreCase` and regex `CASE_INSENSITIVE` are modelled on ASCII letters only, so `É` and `é` are not related. Java `length()` counts UTF-16 units, while the model counts chars.
- `Chat.LooksLikeQuestion`: the accented words "perché" and "perchè" are matched exactly as written, and case folding of the accented letter is not modelled.
- Numbers: `long` timestamps and `int` ceilings are unbounded integers, so 64-bit overflow is not modelled. `PlayerId` (a UUID) is an integer.
