# A Dafny model of the spam-moderation core of a Telegram bot

The bot (`bot.py`) watches a Telegram group. It keeps the last 100 text or
caption messages in an insertion-ordered cache. When someone reacts to a
message with the pile-of-poo emoji 💩, it does the following once per message:

1. It sends the cached message's text to a language model inside a fixed
   prompt.
2. If the model's answer starts with "yes", it deletes the message. Only if
   the delete succeeds does it ban the author.

This project models that decision logic as pure functions over immutable
state. It proves the properties the code promises.

| file | module | models |
|---|---|---|
| `wrappers.dfy` | `Wrappers` | `Option` |
| `ordered_cache.dfy` | `OrderedCache` | The `OrderedDict` message cache, `MAX_CACHE_SIZE`, and the insert-then-evict of `handle_new_message`. |
| `text.dfy` | `Text` | The Python string operations the bot relies on: `strip()` with the exact `str.isspace()` character set, `lower()`, `startswith()` and `"\n".join(...)`. |
| `classifier.dfy` | `Classifier` | `build_prompt`, `EXAMPLE_SPAM`, `call_chatgpt` (the model's reply is an oracle), and the verdict test. |
| `enforcement.dfy` | `Enforcement` | `handle_spam_action`: delete, then ban. Both calls sit in one `try`. |
| `bot.dfy` | `Bot` | The two globals, `handle_new_message`, `handle_reaction`, the `filters.TEXT \| filters.CAPTION` dispatch, and runs of many updates. |
| `scenarios.dfy` | `Scenarios` | Concrete end-to-end runs: spam removed, innocent message kept, repeated report, unreachable classifier, other emoji, unknown message, media-only message. |

## How the model is built

- **State.** The module globals `message_cache` and `checked_message_ids` form a
  `State`.
  - The cache is an ordered dictionary: a sequence of keys in insertion order
    plus a map.
  - Assigning to a key that is already present keeps its position.
    `popitem(last=False)` drops the first key.
- **Steps.** Handling one update is `Step(t, s, event, oracle)`. It yields an
  `Outcome`: the next state, the request made to the language model (if any),
  and the platform calls made, in order.
- **Oracle.** Everything the outside world decides during one update is an
  `Oracle`: the model's reply, or a failure, and whether the platform accepts
  the delete and the ban.
- **Prompt template.** The prompt wording is a `Template` parameter.
  `SourceTemplate` holds the sentences of `build_prompt`, the seven
  `EXAMPLE_SPAM` entries and the seven spam traits. The prompt properties hold
  for every template.
- **Uncaught exceptions.** Two attribute errors are raised outside any `try`:
  - `.emoji` on a first reaction that is not a plain emoji (bot.py:102);
  - `from_user.id` on a message without a sender (bot.py:137).

  Either exception escapes `handle_reaction`, and the framework logs it and
  handles the next update. The model keeps the observable effect: nothing
  further happens. A key already marked at bot.py:126 stays checked.
- **Caught exceptions.** `call_chatgpt` catches its own failures and returns
  `"NO"`. `handle_spam_action` catches its own failures and stops at the
  first failed call.
- **Failed delete.** A failed delete skips the ban, because both calls sit in
  one `try` (bot.py:86-95). `Enforcement.HandleSpamAction` and
  `Bot.SpamVerdictEnforces` state this.
- **Media-only messages.** A message with neither text nor caption is never
  cached, because the handler is registered with
  `filters.TEXT | filters.CAPTION` (bot.py:149).
  `Scenarios.MediaOnlyMessageIsNotCached` states this.

## Model

| member | source | states |
|---|---|---|
| OrderedCache.Get | bot.py:127 | A lookup finds a value exactly when the key is cached, and then it is the cached value. |
| OrderedCache.Put | bot.py:80 | Assigning to a present key keeps the key order. A new key is appended at the end. No other key gains, loses or changes its value. The order/map agreement is preserved. |
| OrderedCache.PopOldest | bot.py:83 | `popitem(last=False)` removes exactly the oldest-inserted key. Every other entry survives with its value, and the order keeps the rest. |
| OrderedCache.Record | bot.py:79-83 | After insert-then-evict on a cache within capacity, the cache is well formed and holds at most 100 entries. The new key is present with its new value. No other key ever gets a new value. |
| OrderedCache.RecordPresentKey | bot.py:79-83 | Re-recording a cached key replaces its value only: same order, same size, nothing evicted. |
| OrderedCache.RecordNewKeyBelowCapacity | bot.py:79-83 | A new key in a cache below capacity is appended and nothing is evicted. |
| OrderedCache.RecordNewKeyAtCapacity | bot.py:79-83 | A new key in a full cache evicts exactly the oldest-inserted key. Every other entry and the relative order are unchanged, and the new key comes last. |
| OrderedCache.RecordAllKeepsNewest | bot.py:79-83 | After any sequence of distinct new keys, the cache holds exactly the newest 100 keys, in insertion order. |
| OrderedCache.NoRepeatsIffDistinct | bot.py:32 | The two ways of saying "no key twice" agree: pairwise distinct, and each key absent from everything before it. The cache invariant and the at-most-once properties therefore use one notion. |
| OrderedCache.RecordAllKeepsLatestValues | bot.py:80 | Every key that survives a sequence of inserts holds the value inserted last for it. |
| Text.TrimLeft | bot.py:70 | `lstrip()` returns a suffix of its input. Everything removed is whitespace, and the result does not start with whitespace. |
| Text.TrimRight | bot.py:70 | `rstrip()` returns a prefix of its input. Everything removed is whitespace, and the result does not end with whitespace. |
| Text.Strip | bot.py:70 | `strip()` leaves no whitespace at either end. `StripOfPadded`, `StripEmptyIffAllSpace` and `StripIdempotent` pin the result down. |
| Text.StripOfPadded | bot.py:70 | `strip()` of whitespace + core + whitespace, where the core has non-whitespace ends, is exactly the core. |
| Text.StripEmptyIffAllSpace | bot.py:70 | A text strips to nothing if and only if it is all whitespace. |
| Text.StripIdempotent | bot.py:70 | Stripping twice is stripping once. |
| Text.LowerChar | bot.py:136 | An ASCII capital becomes the small letter of the same name. Every other character is kept. |
| Text.Lower | bot.py:136 | `lower()` keeps the length and leaves no ASCII capital. Each capital becomes its small letter in place, and every other character is unchanged. |
| Text.LowerIdempotent | bot.py:136 | Lower-casing twice is lower-casing once. |
| Text.Join | bot.py:47 | Joining a single part gives that part. `JoinSnoc` and `JoinSplitAt` state where every part and separator sits. |
| Text.JoinSnoc | bot.py:47 | Joining one more part appends the separator and that part. |
| Text.JoinSplitAt | bot.py:47 | For every part `i`, a join is everything before part `i` (ending in the separator when `i > 0`), then part `i`, then the rest (starting with the separator when another part follows). The text before part `i + 1` extends the text before part `i` by part `i` and a separator. |
| Classifier.BuildPrompt | bot.py:46-62 | The prompt text. Its properties are stated by `PromptRoundTrip` (the message text is quoted verbatim and can be read back) and `PromptListsExamples` (each example on its own bullet line, in order). |
| Classifier.Bulleted | bot.py:47 | Each example becomes the line `- <example>`, in list order. |
| Classifier.PromptRoundTrip | bot.py:60 | The message text can be read back verbatim from between the double quotes of the prompt. Conversely, a prompt quoting that text is the prompt built for it. |
| Classifier.PromptListsExamples | bot.py:46-62 | Every `EXAMPLE_SPAM` entry appears in the prompt as a line `- <example>` of its own, with a line break right before and right after. Each entry follows the previous one. |
| Classifier.CallChatGpt | bot.py:64-73 | The result is the stripped reply (no leading or trailing whitespace), or `"NO"` on any failure. |
| Classifier.IsSpamVerdict | bot.py:136 | The verdict is spam if and only if the result's first three characters spell "yes" in any letter case. `PaddedYesIsSpam` and `SpamAnswerIsPaddedYes` lift this to the unstripped reply. |
| Classifier.FailOpen | bot.py:71-73 | A failed call yields `"NO"`, which is never a spam verdict. |
| Classifier.PaddedYesIsSpam | bot.py:70 | Any reply made of whitespace, then "yes" in any case, then anything at all, is a spam verdict. |
| Classifier.SpamAnswerIsPaddedYes | bot.py:70 | Every reply judged spam is whitespace, then "yes" in any case, then anything. |
| Classifier.OtherAnswerIsNotSpam | bot.py:136 | A reply that starts with neither whitespace nor a "y" is never spam. |
| Enforcement.HandleSpamAction | bot.py:85-95 | The delete is always attempted first. The ban is attempted exactly when the delete succeeded, and only after it. Nothing else is attempted: two calls after a successful delete, one otherwise. The author ends up banned exactly when both calls succeed. |
| Enforcement.FailedDeleteSkipsBan | bot.py:86-95 | When the delete is refused, it is the only call attempted, and the author is not banned. |
| Enforcement.AttemptsAreDistinct | bot.py:86-95 | No call is attempted twice within one enforcement. |
| Bot.Content | bot.py:132 | The classified content is the text when it is non-empty, else the caption. It is empty exactly when the message has neither. |
| Bot.Init | bot.py:32-33 | At start-up the cache is empty and the checked set is empty, and the state invariant holds. |
| Bot.HandleNewMessage | bot.py:75-83 | A message update never changes the checked set. An update without a message changes nothing. |
| Bot.Enforce | bot.py:136-143 | A platform call is made exactly on a spam verdict about a message with an author. The first call is then the delete, and every call targets the reacted-to chat. |
| Bot.HandleReaction | bot.py:97-103 | A reaction never touches the cache and only adds to the checked set. An absent reaction, an empty reaction list, or a first reaction other than 💩 changes nothing and makes no request or call. |
| Bot.CheckOnce | bot.py:105-143 | The key is marked checked whether or not the message is cached. The classifier is asked exactly when the key was unchecked and cached, with the prompt built from that message's content. No platform call is made without asking. |
| Bot.ReactionIsIdempotent | bot.py:123-124 | Handling the same reaction a second time changes nothing and makes no request or call, whatever the oracle. |
| Bot.SpamVerdictEnforces | bot.py:136-143 | On a spam verdict about an unchecked, cached message with author `u`, the calls are delete, then ban of `u` if and only if the delete succeeded. |
| Bot.NoSpamVerdictSparesMessage | bot.py:136 | Without a spam verdict no platform call is made. |
| Bot.FailedClassifierSparesMessage | bot.py:71-73 | When the language model cannot be reached, a reaction leads to no platform call. |
| Bot.Step | bot.py:149-150 | A message update makes no request or call and never changes the checked set. A message with neither text nor caption is filtered out and changes nothing. A reaction update never changes the cache. |
| Bot.StepPreservesInv | bot.py:79-83 | Every step keeps the invariant: the cache is well formed and holds at most 100 entries, each stored under its own key, each with a text or a caption. |
| Bot.NewMessageIsCached | bot.py:79-80 | Right after a text or caption message arrives, it can be looked up under its key. |
| Bot.StepStateIgnoresOracle | bot.py:126-133 | The next state never depends on the model's reply or on the platform's answers. |
| Bot.Run | bot.py:150-153 | Updates are handled one after the other, each step starting from the state the previous one left. `RunStepsInOrder`, `RunComposes`, `RunPreservesInv`, `RunClassifiesAtMostOnce` and `RunDeletesAtMostOnce` state its properties. |
| Bot.RunStepsInOrder | bot.py:150-153 | A run makes at most one classifier request per update. |
| Bot.RunComposes | bot.py:150-153 | Handling `a` and then `b` is handling `a + b`. The second run starts from the state the first left, and the requests and platform calls of the two runs follow each other in order. |
| Bot.RunPreservesInv | bot.py:79-83 | The invariant holds after any sequence of updates. |
| Bot.RunClassifiesAtMostOnce | bot.py:123-126 | Along any sequence of updates, no message is sent to the classifier twice or after it was checked at the start, and every message sent ends up checked. |
| Bot.CheckOnceCommandsFollowRequest | bot.py:127-143 | Every platform call made for a reaction belongs to that reaction's classifier request. It targets the chat of the classified message, and a delete targets that message. Only the first call can be a delete. |
| Bot.StepCommandsFollowRequest | bot.py:97-143 | The same holds for every update: no step makes a platform call without a classifier request. |
| Bot.RunDeletesAtMostOnce | bot.py:123-143 | Along any sequence of updates, no message is deleted twice, and only messages sent to the classifier are deleted. Together with `RunClassifiesAtMostOnce`, a message gets at most one classifier call and at most one enforcement. |
| Scenarios.ReportAfterArrival | bot.py:132-143 | A text message reported right after it arrives is sent to the classifier with its content quoted. What follows depends only on the verdict. |
| Scenarios.YesReplyIsSpam | bot.py:136 | The reply "Yes, this is spam." is a spam verdict. |
| Scenarios.NoReplyIsNotSpam | bot.py:136 | The reply "No." is not. |
| Scenarios.SpamIsRemoved | bot.py:136-143 | Message 1 of chat 1 by user 9, reported and answered "Yes, this is spam.", leads to delete(1, 1) and then ban(1, 9). |
| Scenarios.SpamPromptQuotesText | bot.py:46-62 | The bot's own prompt for that message quotes its text verbatim. |
| Scenarios.InnocentIsKept | bot.py:136 | A reported message answered "No." is asked about but left alone. |
| Scenarios.SecondReportIsIgnored | bot.py:123-124 | A second report of the same message does nothing. |
| Scenarios.UnreachableClassifierRemovesNothing | bot.py:71-73 | With the model unreachable, a reported message is asked about but left alone. |
| Scenarios.OtherEmojiIsIgnored | bot.py:102-103 | A reaction whose first emoji is a thumbs-up does nothing, even with a 💩 behind it. |
| Scenarios.UnknownMessageIsSkipped | bot.py:126-130 | A report about a message that was never cached asks nothing and does nothing, but marks the message checked. |
| Scenarios.MediaOnlyMessageIsNotCached | bot.py:149 | A message with neither text nor caption leaves the state unchanged. |

## Left out

- Input and output:
  - The Telegram and OpenAI clients, the `.env` configuration and the logger
    (bot.py:1-28) are not modelled.
  - `ApplicationBuilder` and `run_polling` are not modelled.
  - What the clients return is an `Oracle` parameter. This covers the model's
    reply, an exception from the model call, and the success of each
    platform call.
  - Log lines have no counterpart.
- Handler concurrency: the handlers run on one event loop, one update after
  another. The model handles a run as a sequence of steps. `async`/`await`
  is not modelled.
- The language model's judgement: it is the `Completion` oracle, not a
  function of the prompt. The model name `gpt-4o-mini` and the message role
  are left out.
- Edited messages and channel posts: `run_polling(allowed_updates=["message",
  "message_reaction"])` delivers neither, so `Event` has no case for them.
- The count-based trigger policy at bot.py:107-121 is commented out, so it is
  not modelled.
- The comment at bot.py:90 ("Uncomment to enforce ban") is stale: the ban
  call below it is active. The model follows the code.
- Text.LowerChar folds ASCII capitals only, where Python's `str.lower()` folds
  every cased Unicode letter: `'É'` stays `'É'` here, while Python gives
  `'é'`. No non-ASCII character lower-cases to "y", "e" or "s" in Python, so
  the verdict test `IsSpamVerdict` is not affected.
- Text.Lower inherits this from `LowerChar`: it folds ASCII letters only. For
  the same reason, the verdict test is not affected.
- The checked set grows without bound, as in the source. No property speaks
  of its size.
- Messages are reduced to the fields the bot reads: chat id, message id,
  author id, text and caption. A missing text or caption is the empty string,
  because `text or caption or ""` treats `None` and `""` alike.
