# songbox-house utilities in Dafny

This project models the utility core of the songbox-house music service. It covers:

- the retry helpers (`RetryUtil`);
- the context-propagation wrapper for thread pools (`ThreadChange`);
- the bit-mask option flags (`MaskUtil`);
- file-name sanitising (`FileNameUtil`);
- the "Artists - Title" parser (`ArtistsTitle`, `ArtistsTitleUtil`);
- cookie parsing (`Configuration.parseCookies`);
- the bit-rate/duration comparator;
- the executor pool-size clamp.

Each Java file is one Dafny module. One more module, `Jdk` (jdk.dfy), holds the Java semantics the code relies on:

- 32-bit `int` with wrap-around;
- null references (`Nullable`) and `Optional`;
- how a call ends, by returning or by throwing (`Exit`, `Outcome`, `Completion`);
- `String.trim`, `String.split` with its dropping of trailing empty strings, and `split(regex, 2)`;
- `indexOf`;
- blankness;
- the printing of `null` in string concatenation.

How each part is modelled:

- **Retry loops.** They are methods with `while` loops. An operation is the sequence of outcomes of its successive invocations (`op(i)`), so the input every call receives is folded into it. Sleeping is a log of the values passed to `doSleep`, and the thread's interrupt status is threaded through. Each loop is specified by `Stops` ("every call but the last failed, and it stopped early only because the last one did not fail") and by the exit it produces.
- **ThreadChange.** It is a class `State` holding the listener list, the submitting thread's `alreadyApplied` flag, a transaction counter and the trace of hook calls. The listener from the project's own test is replayed over that trace as a state machine.
- **The regular-expression parser.** The pattern `^((\W*\s*)|(#\d*;?.?))?(?<artists>[A-Z].*)(\s*)( - )(\s*)(?<title>.*)$` is modelled by a hand-written matcher that follows Java's backtracking order. It is proved sound and complete against a declarative description of the pattern's language (`Fits`).
- **parseCookies.** It is the stream pipeline: `split(";")`, then each piece `split("=")` and trimmed, then `Collectors.toMap`. It is proved to succeed exactly when every piece has a pair and no key repeats.

## Model

| member | source | states |
|---|---|---|
| RetryUtil.DoSleep | src/main/java/songbox/house/util/RetryUtil.java:354-363 | a request of 0 ms or less leaves the interrupt status alone; otherwise the status afterwards is set iff it was set or an interrupt arrived |
| RetryUtil.InterruptedSnoc | src/main/java/songbox/house/util/RetryUtil.java:354-363 | one more doSleep request moves the accumulated interrupt status exactly as DoSleep says |
| RetryUtil.WithoutDelay | src/main/java/songbox/house/util/RetryUtil.java:342-344 | `withoutDelay`: the delay factor is 1 whatever the retry and multiplier |
| RetryUtil.WithMultipliedDelay | src/main/java/songbox/house/util/RetryUtil.java:346-348 | `withMultipliedDelay`: the factor is retry * delayMultiplier in int arithmetic, exact when the product fits in an int |
| RetryUtil.RequestSleep | src/main/java/songbox/house/util/RetryUtil.java:354-363 | one doSleep call: the request is appended to the log, and the interrupt status moves as DoSleep says and stays the one the log determines |
| RetryUtil.SleepLogSnoc | src/main/java/songbox/house/util/RetryUtil.java:69-71 | the request before retry n + 1, sleepMs * delay(n + 1, delayMultiplier), extends the log of the first n |
| RetryUtil.ProgressiveSleep | src/main/java/songbox/house/util/RetryUtil.java:68-72 | the doSleep before retry n + 1 of getOptionalWithRetriesWithProgressiveDelay: it appends sleepMs * withMultipliedDelay(n + 1, delayMultiplier), keeps the log of the first n + 1 retries, and keeps the interrupt status the one the log determines |
| RetryUtil.OptionalExit | src/main/java/songbox/house/util/RetryUtil.java:48-58 | the result of shape A after its last call: a throw is empty, retried calls end empty, and only a null Optional throws, with NullPointerException from `isPresent()` |
| RetryUtil.ThrowingExit | src/main/java/songbox/house/util/RetryUtil.java:196-202 | the result of shape B after its last call: it throws exactly when the call threw, with a RuntimeException wrapping that exception, and otherwise returns the value, null included |
| RetryUtil.AllRetriedIsEmpty | src/main/java/songbox/house/util/RetryUtil.java:48-58 | a shape-A loop whose every allowed call asks for a retry uses all its tries and returns an empty Optional |
| RetryUtil.WithoutDelayIsConstant | src/main/java/songbox/house/util/RetryUtil.java:342-344 | with withoutDelay every sleep request is the constant sleepMs |
| RetryUtil.WithMultipliedDelayIsLinear | src/main/java/songbox/house/util/RetryUtil.java:346-348 | with withMultipliedDelay the request before retry r is sleepMs * r * delayMultiplier when no int overflow occurs |
| RetryUtil.LinearSleepIsProduct | src/main/java/songbox/house/util/RetryUtil.java:191 | in the shape-B log the request before retry r is sleepMs * r when it fits in an int |
| RetryUtil.LinearIsMultipliedByOne | src/main/java/songbox/house/util/RetryUtil.java:259 | the `sleepMs * retries` log equals the withMultipliedDelay log with multiplier 1 |
| RetryUtil.TriesOffByOne | src/main/java/songbox/house/util/RetryUtil.java:48 | `++retries < maxRetries` allows max(1, maxRetries) calls, while `retries++ < maxRetries` allows one more for positive maxRetries |
| RetryUtil.StopsUnique | src/main/java/songbox/house/util/RetryUtil.java:38-48 | the stopping description fixes the number of calls |
| RetryUtil.StopsAtFirstSuccess | src/main/java/songbox/house/util/RetryUtil.java:38-48 | a loop stops exactly at the first call that does not fail, within the allowed tries |
| RetryUtil.StopsExhausted | src/main/java/songbox/house/util/RetryUtil.java:38-48 | when every allowed call fails, all tries are used |
| RetryUtil.GetOptionalWithRetries | src/main/java/songbox/house/util/RetryUtil.java:33-59 | retries after an exception or an empty Optional, up to max(1, maxRetries) calls; returns the last call's Optional (empty after an exception), throws NPE on a null Optional, and is empty when every call fails |
| RetryUtil.GetOptionalWithRetriesWithProgressiveDelay | src/main/java/songbox/house/util/RetryUtil.java:61-90 | as GetOptionalWithRetries, and before retry r it requests a sleep of sleepMs * (r * delayMultiplier) in int arithmetic; the interrupt status follows the sleeps |
| RetryUtil.ExecuteWithRetryThrowingException | src/main/java/songbox/house/util/RetryUtil.java:243-271 | at most max(0, maxRetries) + 1 calls; returns the first value returned, null included; after the last exception throws a RuntimeException wrapping it; requests sleepMs * r before retry r |
| RetryUtil.ExecuteWithRetryThrowingExceptionBi | src/main/java/songbox/house/util/RetryUtil.java:174-203 | the BiFunction shape-B loop with DEFAULT_SLEEP_MS * r before retry r |
| RetryUtil.ExecuteWithRetryOnExceptionBi | src/main/java/songbox/house/util/RetryUtil.java:205-226 | only an exception is retried; the first returned value, null included, is the result; after the last exception defaultValue is returned; requests 500 * r before retry r |
| RetryUtil.ExecuteWithRetryOnExceptionOrNull | src/main/java/songbox/house/util/RetryUtil.java:297-320 | a call fails by throwing, or by returning null when checkForNull; the first non-failing result is returned; after max(0, maxRetries) + 1 failures defaultValue is returned; requests sleepMs * delay(r, delayMultiplier) before retry r |
| RetryUtil.ExecuteConsumerWithRetries | src/main/java/songbox/house/util/RetryUtil.java:322-340 | the consumer is re-run after each exception, up to max(0, maxRetries) + 1 calls, and the loop returns normally either way; requests sleepMs * delay(r, delayMultiplier) before retry r |
| RetryUtil.GetOptionalWithDefaultRetries | src/main/java/songbox/house/util/RetryUtil.java:115-118 | shape A with at most 10 calls |
| RetryUtil.ExecuteConsumerWithDefaults | src/main/java/songbox/house/util/RetryUtil.java:120-122 | at most 11 consumer calls with every sleep 500 ms |
| RetryUtil.ExecuteConsumerWithMaxRetries | src/main/java/songbox/house/util/RetryUtil.java:124-126 | consumer loop with every sleep DEFAULT_SLEEP_MS |
| RetryUtil.ExecuteConsumerWithSleep | src/main/java/songbox/house/util/RetryUtil.java:128-131 | consumer loop with withoutDelay: every sleep is sleepMs |
| RetryUtil.ExecuteConsumerWithProgressiveDelay | src/main/java/songbox/house/util/RetryUtil.java:133-138 | consumer loop with withMultipliedDelay |
| RetryUtil.ExecuteWithDelayFunction | src/main/java/songbox/house/util/RetryUtil.java:281-287 | shape C without the null check: a null result is returned as a success |
| RetryUtil.ExecuteOrNullWithProgressiveDelay | src/main/java/songbox/house/util/RetryUtil.java:289-295 | shape C with the null check: a null result is retried, and a result returned before the tries run out is non-null |
| RetryUtil.ExecuteWithProgressiveDelay | src/main/java/songbox/house/util/RetryUtil.java:158-163 | shape C without the null check, with withMultipliedDelay |
| RetryUtil.ExecuteWithSleep | src/main/java/songbox/house/util/RetryUtil.java:140-145 | shape C, every sleep sleepMs |
| RetryUtil.ExecuteWithMaxRetries | src/main/java/songbox/house/util/RetryUtil.java:151-156 | shape C, every sleep 500 ms |
| RetryUtil.ExecuteWithDefaults | src/main/java/songbox/house/util/RetryUtil.java:147-149 | shape C with at most 11 calls, every sleep 500 ms |
| RetryUtil.ExecuteListWithMaxRetries | src/main/java/songbox/house/util/RetryUtil.java:273-275 | list shape C whose default is the empty list |
| RetryUtil.ExecuteList | src/main/java/songbox/house/util/RetryUtil.java:277-279 | list shape C with at most 11 calls |
| RetryUtil.ExecuteBiListWithMaxRetries | src/main/java/songbox/house/util/RetryUtil.java:228-231 | BiFunction list loop with the empty list as default |
| RetryUtil.ExecuteBiList | src/main/java/songbox/house/util/RetryUtil.java:233-236 | BiFunction list loop with at most 11 calls, the request before retry r being 500 * r |
| RetryUtil.ExecuteThrowingWithMaxRetries | src/main/java/songbox/house/util/RetryUtil.java:238-241 | shape B with DEFAULT_SLEEP_MS |
| RetryUtil.ExecuteThrowingWithDefaults | src/main/java/songbox/house/util/RetryUtil.java:165-167 | shape B with at most 11 calls, the request before retry r being 500 * r |
| RetryUtil.ExecuteThrowingBiWithDefaults | src/main/java/songbox/house/util/RetryUtil.java:169-172 | BiFunction shape B with at most 11 calls |
| ThreadChange.Broadcast | src/main/java/songbox/house/util/ThreadChange.java:22-32 | the `forEach` of one transaction phase: one hook per registered listener, every one of that phase |
| ThreadChange.RunTrace | src/main/java/songbox/house/util/ThreadChange.java:64-68 | running a task: when the body throws, no `finish` hook at all is delivered, because there is no `finally` |
| ThreadChange.AppendWrappedRun | src/main/java/songbox/house/util/ThreadChange.java:64-68 | running a wrapper after a trace appends its three phases in order |
| ThreadChange.BroadcastAt | src/main/java/songbox/house/util/ThreadChange.java:19-33 | the k-th hook of a broadcast goes to the k-th listener with the transaction's id |
| ThreadChange.BroadcastAppend | src/main/java/songbox/house/util/ThreadChange.java:19-33 | broadcasting to concatenated lists is broadcasting to each in turn |
| ThreadChange.FirstIndex | src/main/java/songbox/house/util/ThreadChange.java:41-43 | the first position of a listener, below the length iff it is registered |
| ThreadChange.RemoveFirst | src/main/java/songbox/house/util/ThreadChange.java:41-43 | `List.remove` deletes exactly the first equal element, or nothing when there is none |
| ThreadChange.HooksBelowRunTrace | src/main/java/songbox/house/util/ThreadChange.java:64-68 | running a task whose transactions were all issued delivers only issued transaction ids |
| ThreadChange.State.constructor | src/main/java/songbox/house/util/ThreadChange.java:10 | no listeners, flag unset, empty trace |
| ThreadChange.State.AddListener | src/main/java/songbox/house/util/ThreadChange.java:37-39 | appends the listener |
| ThreadChange.State.RemoveListener | src/main/java/songbox/house/util/ThreadChange.java:41-43 | removes the first equal listener |
| ThreadChange.State.CreateTransaction | src/main/java/songbox/house/util/ThreadChange.java:45-47 | a new id that no earlier hook carried |
| ThreadChange.State.Fire | src/main/java/songbox/house/util/ThreadChange.java:22-32 | appends one hook per listener, in list order, all with the transaction's id, and keeps every traced id issued |
| ThreadChange.State.ApplyContext | src/main/java/songbox/house/util/ThreadChange.java:55-69 | always consumes a transaction; with the flag set it returns its Runnable untouched and fires nothing; otherwise it sets the flag, broadcasts willChange and returns the wrapper |
| ThreadChange.State.ApplyContextCallable | src/main/java/songbox/house/util/ThreadChange.java:71-86 | ignores the flag, creates a transaction, broadcasts willChange and returns the wrapper |
| ThreadChange.State.Run | src/main/java/songbox/house/util/ThreadChange.java:64-68 | each wrapper delivers didChange, runs what it wraps, then finish only if the body completed; the body's outcome propagates |
| ThreadChange.State.Call | src/main/java/songbox/house/util/ThreadChange.java:89-95 | the same for call(): the value is returned after finish, and a throwing body skips finish |
| ThreadChange.SecondWrapIsIdentity | src/main/java/songbox/house/util/ThreadChange.java:55-61 | on one thread the second applyContext returns its task unwrapped and fires nothing, because the flag is never cleared |
| ThreadChange.IssuedMonotone | src/main/java/songbox/house/util/ThreadChange.java:45-47 | ids issued below a bound stay issued as the counter grows |
| ThreadChange.Step | src/test/java/songbox/house/util/ThreadChangeTest.java:22-47 | the test listener's hooks and the test body's assertion as a transition: a failed assertion stays failed, and a hook addressed to another listener changes nothing |
| ThreadChange.Replay | src/test/java/songbox/house/util/ThreadChangeTest.java:22-47 | the test listener's state after a whole trace: hooks addressed only to other listeners leave it as it was |
| ThreadChange.ReplayAppend | src/test/java/songbox/house/util/ThreadChangeTest.java:22-47 | replaying the test listener over two traces is replaying their concatenation |
| ThreadChange.ReplayFailed | src/test/java/songbox/house/util/ThreadChangeTest.java:22-47 | a failed assertion stays failed |
| ThreadChange.ReplayOthers | src/test/java/songbox/house/util/ThreadChangeTest.java:22-47 | hooks for other listeners do not affect the test listener |
| ThreadChange.BroadcastOnce | src/test/java/songbox/house/util/ThreadChangeTest.java:22-47 | a listener registered once hears each broadcast exactly once |
| ThreadChange.ReplaySubmission | src/test/java/songbox/house/util/ThreadChangeTest.java:22-47 | the test listener replays a submission phase by phase: willChange, didChange, the body, then finish only when the body completed |
| ThreadChange.SubmittedOnceInstalls | src/test/java/songbox/house/util/ThreadChangeTest.java:22-47 | with the listener registered once and a clean worker, willChange, didChange and the body pass and leave the submitter's value installed and the id's entry in the map |
| ThreadChange.CompletedRunLeavesNoEntry | src/test/java/songbox/house/util/ThreadChangeTest.java:22-47 | submitting and completing a wrapped task passes every assertion, gives the worker the submitter's value, and clears both the thread-local and the id's entry |
| ThreadChange.FailedRunLeaksContext | src/main/java/songbox/house/util/ThreadChange.java:64-68 | a throwing body leaves the worker's thread-local set and the id's entry in the map, because finish is skipped |
| ThreadChange.WillChangeTwice | src/test/java/songbox/house/util/ThreadChangeTest.java:34-38 | a listener registered twice captures the same value twice, ending as if it heard willChange once |
| ThreadChange.DidChangeTwice | src/test/java/songbox/house/util/ThreadChangeTest.java:26-32 | a listener registered twice installs at its first didChange and fails at its second |
| ThreadChange.TwiceRegisteredFails | src/test/java/songbox/house/util/ThreadChangeTest.java:26-32 | a listener registered twice fails the "Context is not cleared" assertion at the second didChange |
| MaskUtil.HasMask | src/main/java/songbox/house/util/MaskUtil.java:9-11 | the flags have the mask iff no mask bit is missing from them |
| MaskUtil.HasEmptyMask | src/main/java/songbox/house/util/MaskUtil.java:9-11 | every flag word has the empty mask |
| MaskUtil.SetMask | src/main/java/songbox/house/util/MaskUtil.java:17-19 | afterwards every mask bit is set |
| MaskUtil.SetMaskKeepsOthers | src/main/java/songbox/house/util/MaskUtil.java:17-19 | bits outside the mask are unchanged |
| MaskUtil.SetMaskKeepsFlags | src/main/java/songbox/house/util/MaskUtil.java:17-19 | no flag bit is cleared |
| MaskUtil.SetMaskIdempotent | src/main/java/songbox/house/util/MaskUtil.java:17-19 | setting twice is setting once |
| MaskUtil.RemoveMask | src/main/java/songbox/house/util/MaskUtil.java:34-36 | afterwards no mask bit is set |
| MaskUtil.RemoveMaskKeepsOthers | src/main/java/songbox/house/util/MaskUtil.java:34-36 | bits outside the mask are unchanged |
| MaskUtil.RemoveMaskLosesMask | src/main/java/songbox/house/util/MaskUtil.java:34-36 | a non-empty mask is no longer present |
| MaskUtil.RemoveMaskIdempotent | src/main/java/songbox/house/util/MaskUtil.java:34-36 | removing twice is removing once |
| MaskUtil.ToggleMask | src/main/java/songbox/house/util/MaskUtil.java:42-44 | the mask bits end all set when value holds and all clear otherwise |
| MaskUtil.ToggleMaskKeepsOthers | src/main/java/songbox/house/util/MaskUtil.java:42-44 | bits outside the mask are unchanged |
| MaskUtil.ToggleMaskUnique | src/main/java/songbox/house/util/MaskUtil.java:42-44 | those two properties determine the result |
| MaskUtil.ToggleMaskHas | src/main/java/songbox/house/util/MaskUtil.java:42-44 | the result has the mask iff value holds or the mask is empty |
| MaskUtil.OrAll | src/main/java/songbox/house/util/MaskUtil.java:25-32 | the OR setMasks computes: 0 for no masks, the mask itself for a single one |
| MaskUtil.OrAllHasEach | src/main/java/songbox/house/util/MaskUtil.java:25-32 | the OR of the masks has every mask |
| MaskUtil.OrAllLeast | src/main/java/songbox/house/util/MaskUtil.java:25-32 | any flags having every mask have their OR |
| MaskUtil.OrAllPermutation | src/main/java/songbox/house/util/MaskUtil.java:25-32 | the order of the masks does not change the result |
| MaskUtil.SetMasks | src/main/java/songbox/house/util/MaskUtil.java:25-32 | the loop computes the OR of all masks starting from 0, which has every mask |
| MaskUtil.ParseBoolean | src/main/java/songbox/house/util/MaskUtil.java:53 | `Boolean.valueOf` is true iff the string is "true" ignoring case |
| MaskUtil.ParseBooleanExamples | src/main/java/songbox/house/util/MaskUtil.java:53 | "TRUE" and "True" read as true; "yes", "", " true" and "truee" do not |
| MaskUtil.SetOptionFlags | src/main/java/songbox/house/util/MaskUtil.java:50-57 | a null value keeps the flags; otherwise it is toggleMask driven by Boolean.valueOf |
| FileNameUtil.Forbidden | src/main/java/songbox/house/util/FileNameUtil.java:7 | FILE_NAME_REGEX's class is exactly the ASCII punctuation characters other than `.` and `\` |
| FileNameUtil.Strip | src/main/java/songbox/house/util/FileNameUtil.java:7 | removing FILE_NAME_REGEX matches leaves no forbidden character and never lengthens |
| FileNameUtil.StripAppend | src/main/java/songbox/house/util/FileNameUtil.java:7 | stripping works piece by piece |
| FileNameUtil.StripAllowed | src/main/java/songbox/house/util/FileNameUtil.java:7 | text without forbidden characters is unchanged |
| FileNameUtil.StripOne | src/main/java/songbox/house/util/FileNameUtil.java:7 | one character is dropped iff it is one of the 30 listed, so `.` and `\` survive |
| FileNameUtil.StripIdempotent | src/main/java/songbox/house/util/FileNameUtil.java:7 | stripping twice is stripping once |
| FileNameUtil.Substring0 | src/main/java/songbox/house/util/FileNameUtil.java:12 | commons-lang substring(s, 0, end) is a prefix of length min(end, len), or len + end for a negative end, not below 0 |
| FileNameUtil.GetFileName | src/main/java/songbox/house/util/FileNameUtil.java:11-13 | throws NullPointerException exactly when the text is null |
| FileNameUtil.GetFileNameShape | src/main/java/songbox/house/util/FileNameUtil.java:11-13 | the name ends with the extension ("null" for a null one); the part before it is a forbidden-free prefix of the stripped text, of length min(max, len) for a non-negative max |
| FileNameUtil.Mp3FileName | src/main/java/songbox/house/util/FileNameUtil.java:18-25 | the name the StringBuilder builds has at least the 7 characters of " - " and ".mp3", and ends with ".mp3" |
| FileNameUtil.CutKeepsClean | src/main/java/songbox/house/util/FileNameUtil.java:21-23 | cutting a string free of forbidden characters keeps it free of them |
| FileNameUtil.JoinedLayout | src/main/java/songbox/house/util/FileNameUtil.java:21-25 | where the artists, " - ", the title and ".mp3" lie in the appended name |
| FileNameUtil.Mp3FileNameShape | src/main/java/songbox/house/util/FileNameUtil.java:15-28 | the mp3 name is at most 97 characters: artists up to 40, " - ", title up to 50, ".mp3"; both parts are free of forbidden characters |
| FileNameUtil.GetMp3FileName | src/main/java/songbox/house/util/FileNameUtil.java:15-28 | throws NPE iff the artists or the title is null; otherwise the appends build the mp3 name, at most 97 characters |
| ArtistsTitle.SafeTrim | src/main/java/songbox/house/util/ArtistsTitle.java:78-80 | `safeTrim`: null stays null, otherwise the trimmed string |
| ArtistsTitle.Of | src/main/java/songbox/house/util/ArtistsTitle.java:21-28 | both fields are the trimmed arguments, null kept as null |
| ArtistsTitle.SafeTrimTrimmed | src/main/java/songbox/house/util/ArtistsTitle.java:78-80 | safeTrim's result is trimmed |
| ArtistsTitle.ToString | src/main/java/songbox/house/util/ArtistsTitle.java:30-33 | the length is that of artists, " - " and title, each printed as "null" when null |
| ArtistsTitle.RunEnd | src/main/java/songbox/house/util/ArtistsTitle.java:15 | a greedy `*` run ends at the first character outside the class |
| ArtistsTitle.DashAfter | src/main/java/songbox/house/util/ArtistsTitle.java:16 | with the artists group ending at e, the tail `(\s*)( - )(\s*)(.*)$` fits: whitespace, " - ", whitespace, then a title free of line terminators to the end |
| ArtistsTitle.LastArtistsEnd | src/main/java/songbox/house/util/ArtistsTitle.java:16 | the greedy `.*` of the artists group ends at the last position a " - " can follow, and fails only when there is none |
| ArtistsTitle.DotStarts | src/main/java/songbox/house/util/ArtistsTitle.java:15 | the ends of `.?` after m, greedy first: all within [m, m + 1], the last one m (nothing taken) |
| ArtistsTitle.SemiStarts | src/main/java/songbox/house/util/ArtistsTitle.java:15 | the ends of `;?.?` after j, with the ';' first: all within [j, j + 2], the last one j |
| ArtistsTitle.DigitStarts | src/main/java/songbox/house/util/ArtistsTitle.java:15 | the ends of `\d*;?.?` as `\d*` gives back digits from j: all within [1, j + 2], the last one 1 (no digits, nothing after) |
| ArtistsTitle.PrefixStarts | src/main/java/songbox/house/util/ArtistsTitle.java:15 | the optional group's ends in Java's order: first the end of the leading non-word run, last 0 (no group) |
| ArtistsTitle.MatchAt | src/main/java/songbox/house/util/ArtistsTitle.java:16 | a match of the pattern's body from p starts at p, on an upper-case letter ([A-Z]) |
| ArtistsTitle.FirstMatch | src/main/java/songbox/house/util/ArtistsTitle.java:15 | the first start, in the matcher's backtracking order, from which the body matches: a found match is MatchAt's at a listed start, and none found means no listed start matches |
| ArtistsTitle.Match | src/main/java/songbox/house/util/ArtistsTitle.java:44-45 | `matcher.matches()`: a match starts at an upper-case letter and is the body's match from there; with no match, the body does not match from position 0 either |
| ArtistsTitle.MatchAtSound | src/main/java/songbox/house/util/ArtistsTitle.java:15-16 | groups the matcher returns from one start fit the pattern's body |
| ArtistsTitle.MatchAtComplete | src/main/java/songbox/house/util/ArtistsTitle.java:15-16 | the matcher finds a match from every start where the body can match |
| ArtistsTitle.MatchAtLongestArtists | src/main/java/songbox/house/util/ArtistsTitle.java:16 | the artists group is the longest that lets the body match |
| ArtistsTitle.PrefixStartsSound | src/main/java/songbox/house/util/ArtistsTitle.java:15 | every start the matcher tries ends a valid optional prefix |
| ArtistsTitle.DigitStartsAreHashTails | src/main/java/songbox/house/util/ArtistsTitle.java:15 | the backtracking points after `#\d*` end valid `#\d*;?.?` prefixes |
| ArtistsTitle.SemiStartsAreHashTails | src/main/java/songbox/house/util/ArtistsTitle.java:15 | the points after `;?` end valid prefixes |
| ArtistsTitle.HashTailTried | src/main/java/songbox/house/util/ArtistsTitle.java:15 | every end of a `#\d*;?.?` prefix is among the starts tried |
| ArtistsTitle.NonWordPrefixTried | src/main/java/songbox/house/util/ArtistsTitle.java:15 | a `\W*\s*` prefix before [A-Z] ends at a start the matcher tries |
| ArtistsTitle.HashPrefixTried | src/main/java/songbox/house/util/ArtistsTitle.java:15 | a `#\d*;?.?` prefix ends at a start the matcher tries |
| ArtistsTitle.OnlyRunEndOfNonWordCanMatch | src/main/java/songbox/house/util/ArtistsTitle.java:15 | inside the leading non-word run no artists group can begin |
| ArtistsTitle.MatchSound | src/main/java/songbox/house/util/ArtistsTitle.java:44-45 | a match the matcher returns fits the whole pattern |
| ArtistsTitle.MatchComplete | src/main/java/songbox/house/util/ArtistsTitle.java:44-45 | whenever the pattern can match the input, `matches()` succeeds |
| ArtistsTitle.ParseDummy | src/main/java/songbox/house/util/ArtistsTitle.java:59-76 | split at the first '-' with both sides trimmed; else the two space pieces trimmed; else null artists and the trimmed input as title |
| ArtistsTitle.ParseDummyAtDash | src/main/java/songbox/house/util/ArtistsTitle.java:60-66 | parseDummy cuts at the first '-' |
| ArtistsTitle.Parse | src/main/java/songbox/house/util/ArtistsTitle.java:43-57 | the result is always trimmed |
| ArtistsTitle.ParseByPattern | src/main/java/songbox/house/util/ArtistsTitle.java:43-50 | on a match with a non-blank title, parse returns the trimmed groups: non-empty, and the artists start with an upper-case letter |
| ArtistsTitle.ParseFallsBack | src/main/java/songbox/house/util/ArtistsTitle.java:44-56 | when the pattern does not match, or matches with a blank title group ("Abc - "), parse is parseDummy |
| ArtistsTitle.ParseSingleWord | src/main/java/songbox/house/util/ArtistsTitle.java:43-76 | input with no '-' and no space gives null artists and the trimmed input as title |
| ArtistsTitle.ParseDummyOfJoined | src/main/java/songbox/house/util/ArtistsTitle.java:30-33 | trimmed artists without '-' and a trimmed title, joined by " - ", parse back to themselves |
| ArtistsTitle.ParseDummyOfToString | src/main/java/songbox/house/util/ArtistsTitle.java:30-33 | parseDummy inverts toString when the artists contain no '-' |
| ArtistsTitleUtil.ExtractDummy | src/main/java/songbox/house/util/ArtistsTitleUtil.java:34-51 | agrees with ArtistsTitle.parseDummy on every query |
| ArtistsTitleUtil.ExtractArtistTitle | src/main/java/songbox/house/util/ArtistsTitleUtil.java:18-32 | agrees with ArtistsTitle.parse on every query and returns trimmed fields |
| Configuration.Entry | src/main/java/songbox/house/util/Configuration.java:56-57 | a piece whose mapping fails throws ArrayIndexOutOfBoundsException, and nothing else |
| Configuration.Pairs | src/main/java/songbox/house/util/Configuration.java:55-57 | the mapped stream holds each piece's entry, in order |
| Configuration.Insert | src/main/java/songbox/house/util/Configuration.java:58 | toMap's step adds a new key, throws IllegalStateException on a repeated one, and propagates an earlier exception |
| Configuration.ParseCookies | src/main/java/songbox/house/util/Configuration.java:53-59 | a null cookie throws NullPointerException |
| Configuration.ToMap | src/main/java/songbox/house/util/Configuration.java:58 | `Collectors.toMap` over the stream in order: the empty stream gives the empty map, and a stream of pairs can only fail with IllegalStateException |
| Configuration.ToMapContents | src/main/java/songbox/house/util/Configuration.java:58 | a successful collection maps each key to its value and holds nothing else |
| Configuration.ToMapSize | src/main/java/songbox/house/util/Configuration.java:58 | a successful collection has one entry per element |
| Configuration.ToMapDistinct | src/main/java/songbox/house/util/Configuration.java:58 | a successful collection had only pairs, with distinct keys |
| Configuration.ToMapSucceeds | src/main/java/songbox/house/util/Configuration.java:58 | pairs with distinct keys are collected successfully |
| Configuration.ToMapSpec | src/main/java/songbox/house/util/Configuration.java:58 | collecting succeeds iff every element is a pair and no key repeats |
| Configuration.ToMapFailureStays | src/main/java/songbox/house/util/Configuration.java:58 | once a prefix of the stream has failed, the whole collection fails the same way: the first failing element decides |
| Configuration.ToMapRepeatedKey | src/main/java/songbox/house/util/Configuration.java:58 | pairs with a repeated key make toMap throw IllegalStateException |
| Configuration.ToMapErrors | src/main/java/songbox/house/util/Configuration.java:55-58 | a failure is ArrayIndexOutOfBoundsException or IllegalStateException |
| Configuration.ParseCookiesSpec | src/main/java/songbox/house/util/Configuration.java:53-59 | parseCookies succeeds iff every piece has a pair and keys are distinct; the map then has one entry per piece, each trimmed key mapping to its trimmed value |
| Configuration.EntryOfPair | src/main/java/songbox/house/util/Configuration.java:56-57 | an ordinary piece `k=v` maps to (trim k, trim v) |
| Configuration.EntryKeepsFirstValue | src/main/java/songbox/house/util/Configuration.java:56-57 | `k=a=b` maps k to a when a is non-empty |
| Configuration.EntryNeedsEquals | src/main/java/songbox/house/util/Configuration.java:56-57 | a piece without '=' has no pair |
| Configuration.EntryNeedsValue | src/main/java/songbox/house/util/Configuration.java:56-57 | `k=` has no pair, because split drops the trailing empty value |
| Configuration.TrailingSemicolonIgnored | src/main/java/songbox/house/util/Configuration.java:54 | a trailing ';' does not change the result for a non-empty cookie |
| Configuration.BlankPieceFails | src/main/java/songbox/house/util/Configuration.java:54-57 | a blank piece that split keeps makes the call fail |
| Configuration.RepeatedKeyFails | src/main/java/songbox/house/util/Configuration.java:58 | two pieces with the same trimmed key make the call fail |
| BitRateDurationComparator.CompareTo | src/main/java/songbox/house/util/compare/BitRateDurationComparator.java:11 | Integer.compareTo is the sign of the difference |
| BitRateDurationComparator.CompareKey | src/main/java/songbox/house/util/compare/BitRateDurationComparator.java:10-11 | a missing value on either side compares as 0, otherwise the sign of the difference |
| BitRateDurationComparator.Compare | src/main/java/songbox/house/util/compare/BitRateDurationComparator.java:9-18 | compares known bit rates first, then known durations, 0 when either is unknown; always -1, 0 or 1 |
| BitRateDurationComparator.CompareReflexive | src/main/java/songbox/house/util/compare/BitRateDurationComparator.java:9-18 | every song compares equal to itself |
| BitRateDurationComparator.CompareAntisymmetric | src/main/java/songbox/house/util/compare/BitRateDurationComparator.java:9-18 | swapping the songs negates the result |
| BitRateDurationComparator.CompareEqualNotTransitive | src/main/java/songbox/house/util/compare/BitRateDurationComparator.java:10-16 | a song with unknown bit rate and duration equals both a 128 and a 320 song, which differ: "compares equal" is not transitive |
| ExecutorUtil.PoolSize | src/main/java/songbox/house/util/ExecutorUtil.java:6-9 | the pool size lies in [1, 16], equals the request within that range, and is clamped outside it |
| ExecutorUtil.PoolSizeIdempotent | src/main/java/songbox/house/util/ExecutorUtil.java:9 | clamping twice is clamping once |
| ExecutorUtil.PoolSizeMonotone | src/main/java/songbox/house/util/ExecutorUtil.java:9 | a larger request never gives a smaller pool |

## Left out

- Real threads, the `ThreadChangeExecutorService` and `ThreadChangeThreadPoolTaskExecutor` (ThreadChange.java:98-145), and the pool `ExecutorUtil.createExecutorService` builds. Only the clamp of the pool size is modelled. The value of ThreadChange here is the order of hook calls and the `alreadyApplied` guard, seen from one submitting thread.
- ThreadChange's thread-locals are one boolean field, and the random transaction UUIDs are a counter. Two random UUIDs are taken to be distinct.
- `finish` after a throwing body: there is no `finally` (ThreadChange.java:64-68, 89-95), so a throwing body skips `finish`, and the worker keeps the installed context (`ThreadChange.FailedRunLeaksContext`).
- `alreadyApplied` is set on the submitting thread and never cleared, and a transaction is created before the flag is checked (ThreadChange.java:55-61). Every later `applyContext(Runnable)` on that thread therefore returns its task unwrapped (`ThreadChange.SecondWrapIsIdentity`).
- RetryUtil.GetOptionalWithRetries, RetryUtil.GetOptionalWithRetriesWithProgressiveDelay, RetryUtil.ExecuteWithRetryThrowingException, RetryUtil.ExecuteWithRetryThrowingExceptionBi, RetryUtil.ExecuteWithRetryOnExceptionBi, RetryUtil.ExecuteWithRetryOnExceptionOrNull, RetryUtil.ExecuteConsumerWithRetries and the overloads built on them: an `Error` thrown by the operation is not modelled. Every throw in `Outcome` stands for an `Exception`, which the loops catch (RetryUtil.java:44, 75, 102, 186, 214, 254, 308, 332). In Java an `Error` such as an AssertionError or a StackOverflowError escapes these `catch (Exception e)` blocks and leaves the method at once. It gets no retry, no sleep, no default value and no RuntimeException wrap.
- ThreadChange.State.Fire: a listener hook that throws is not modelled. Every hook is taken to return normally. In Java an exception from a hook escapes `forEach` (ThreadChange.java:23, 27, 31) and aborts the rest of that broadcast. In `ThreadChange.State.Run` and `ThreadChange.State.Call` it also aborts the wrapped body and `finish` (ThreadChange.java:65-67, 91-93). In `ThreadChange.State.ApplyContext` it aborts the return of the wrapper, after `alreadyApplied` was already set (ThreadChange.java:61-63). That also holds for `ThreadChange.State.ApplyContextCallable`. So after a failing hook, the traces these methods produce contain hooks, body runs and `finish` calls that Java never executes. For the test listener, whose hooks throw only through failed assertions, the first failed assertion in a model trace is where Java would throw. `ThreadChange.ReplayFailed` keeps the listener failed from there on, so the verdicts the model gives do not depend on the extra events.
- Clocks, logging (the `log.debug`/`warn` calls and the elapsed-time report) and real sleeping are left out. A sleep is the requested millisecond value, and an interrupt is a given per-sleep flag.
- RetryUtil's `Function`/`BiFunction`/`Consumer` and their inputs become the sequence of call outcomes `op`. The model cannot express a delay function that throws.
- RetryUtil's `toConsumer` is a private helper that nothing calls.
- Dafny characters are Unicode scalar values and Java strings are UTF-16. For text with supplementary characters, lengths and `substring` positions therefore differ.
- The regular expressions are modelled for their one pattern each, not as a general regex engine. In the model `.` excludes Java's line terminators, `\s` is `[ \t\n\x0B\f\r]`, and `\W` is every character outside `[a-zA-Z0-9_]`.
- `isNotBlank` is modelled as "trimming leaves something": every character up to U+0020 counts as blank. The log4j `Strings` version is not part of this model.
- `Boolean.valueOf` is modelled as ASCII case-insensitive comparison with "true". No non-ASCII character case-maps onto those letters.
- MaskUtil's `Mask` interface is not part of this model: a `Mask` contributes only its `getMask()` value. The public `Mask` overloads (MaskUtil.java:13-15, 21-23, 38-40, 46-48) are the private `long` ones applied to that value. A null `Mask` argument is not modelled.
- `BitRateDuration` is not part of this model. Its getters are taken to return nullable `Integer`s, and a null song argument is not modelled.
- `ArtistsTitle.parse`, `extractArtistTitle` and `extractDummy` are not modelled for a null input, which throws NullPointerException in Java.
- Configuration's Spring properties, `Connection` and `Vk.getUserId` are left out. Only `parseCookies` is modelled, on the cookie string, with a null cookie throwing. A null `connection` is not modelled.
- FileNameUtil.GetFileName: its own contract states only the NullPointerException case. The shape of the name is stated by `FileNameUtil.GetFileNameShape`.
- ArtistsTitle.Parse: its own contract states only that the fields are trimmed. What it returns is stated by `ArtistsTitle.ParseByPattern` (a match with a non-blank title) and `ArtistsTitle.ParseFallsBack` (no match, or a match with a blank title). `ArtistsTitle.ParseSingleWord`, `ArtistsTitle.ParseDummy` and the matcher lemmas add to this.
- ArtistsTitle.ToString: its contract states only the length. The text itself is stated through its inverse, `ArtistsTitle.ParseDummyOfToString`.
