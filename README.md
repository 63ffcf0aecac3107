# Real-Bot relay core, modelled in Dafny

Real-Bot is a Telegram chat bot (`bot.py`). It relays each user message to a language model
and sends the answer back as a few short messages. This project models the part of the bot
that decides what gets sent and what gets remembered:

- the keyword emotion classifier (`EMOTION_KEYWORDS`, `detect_emotion`);
- the per-user language preference (`user_lang`, `LANG_OPTIONS`, `get_user_lang`,
  `set_lang`);
- the per-user conversation buffer of at most `CONTEXT_LENGTH` = 8 turns (`user_context`
  and the append-then-slice steps of `handle_message`);
- the prompt built by `ask_gemini`, with its history loop and its apology fallback;
- the reply splitter, which cuts the answer at each delimiter (three vertical bars);
- the message cycle of `handle_message`.

Modules:

| module | file | what it holds |
|---|---|---|
| `Wrappers` | `wrappers.dfy` | `Option` |
| `Text` | `text.dfy` | Python's `lower()`, `strip()`, `in` on strings, `join`, and f-string concatenation (`Concat`) |
| `Emotions` | `emotion.dfy` | the keyword table, the classifier function `Classify` and the looping method `DetectEmotion` |
| `Prefs` | `prefs.dfy` | `LANG_OPTIONS`, the lookup and the `/lang` guard as functions over the store |
| `Context` | `context.dfy` | the `[-n:]` slice (`KeepLast`), one push, a run of pushes, and the two buffer snapshots of one cycle |
| `Splitter` | `splitter.dfy` | Python's `split` on the delimiter (`SplitSep`), strip-and-drop (`Chunks`) and the whole splitter (`Split`) |
| `Prompt` | `prompt.dfy` | the fixed instruction texts, `BuildPrompt` and the method `AskGemini` |
| `Relay` | `relay.dfy` | class `Bot`, which holds the two dictionaries as fields, with `SetLang` and `HandleMessage` |

The language model is a parameter `provider: string -> Option<string>`. `Some(text)` is
`response.text`; `None` stands for the exception that makes `ask_gemini` return the apology.
Because `provider` is a function, the model also says *which* prompt the provider receives.

`Bot` also keeps a ghost `log`: every turn ever appended for each user. Its invariant
`Valid()` has two parts:

- every stored language code is accepted;
- every buffer equals `KeepLast(log[u], 8)`, the last eight turns of that user's whole
  conversation.

`bot.py` truncates the buffer twice in each cycle: after the user's turn (bot.py:116) and
again after the bot's (bot.py:125). `KeepLastAppend` and `StoredContextShape` prove that this
equals one truncation at the end.

Three details of `bot.py` that the model keeps:

- The prompt puts the mood sentence ("The user is feeling …") *before* the language
  directive (bot.py:88).
- `/lang` looks only at the first argument (bot.py:53). More than one argument is accepted
  when the first is an accepted code; an empty argument list is rejected.
- The bot's role in the stored turns is the string `'bot'` (bot.py:123).

## Model

| member | source | states |
|---|---|---|
| Text.Lower | bot.py:33 | keeps the length, and each character is its lower-case form (ASCII letters folded, all else unchanged) |
| Text.IsSpace | bot.py:119 | the characters of Python's `isspace()`, which `strip()` removes from both ends; specified by `StripSlice` and `StripPadded` |
| Text.Contains | bot.py:36 | Python's `word in text`: the word occurs at some index of the text; specified by `ContainsSlice`, `ContainsTransitive` and `StripAvoids` |
| Text.Strip | bot.py:119 | the result has no leading or trailing whitespace (Python `isspace`) and is no longer than the input |
| Text.StripSlice | bot.py:119 | `strip()` returns a slice `s[i..j]` whose cut-off ends are all whitespace |
| Text.StripIdentity | bot.py:119 | `strip()` leaves a string unchanged exactly when it has no surrounding whitespace |
| Text.StripPadded | bot.py:119 | a trimmed non-empty core padded with whitespace on both sides strips to exactly that core |
| Text.StripBlank | bot.py:119 | an all-whitespace string strips to the empty string |
| Text.Join | bot.py:123 | Python's `sep.join(parts)`; specified by `Splitter.JoinSplitSep` and `Relay.ApologySplit` |
| Emotions.Keywords | bot.py:23-30 | the keyword list of each emotion, exactly as in `EMOTION_KEYWORDS`; specified by `UnhappyShadowed`, `HappyBeforeFear`, `EmptyIsNeutral` and `SadExample` |
| Emotions.Emotion.Name | bot.py:23-38 | the label `detect_emotion` returns for each emotion, the key of `EMOTION_KEYWORDS`; specified by `SadScenarioPrompt` |
| Emotions.Matches | bot.py:35-36 | some keyword of the emotion occurs in the lowered text; specified by `ClassifyPrecedence` and `ClassifyCharacterized`, and `DetectEmotion`'s inner loop is proved to decide it |
| Emotions.Classify | bot.py:32-38 | the first emotion in table order with a keyword in the lower-cased text, else neutral; specified by `ClassifyPrecedence`, `ClassifyCharacterized` and `ClassifyNeutral`, and computed by `DetectEmotion` |
| Emotions.Rank | bot.py:23-30 | each emotion's position in the table's insertion order (happy, sad, angry, fear, surprised, neutral) |
| Emotions.FirstMatchFrom | bot.py:34-38 | the walk from position `k`: a non-neutral answer has a keyword in the text and sits at or after `k`, and no emotion between `k` and it has a keyword |
| Emotions.ClassifyPrecedence | bot.py:32-38 | a non-neutral answer has one of its keywords in the lower-cased text, and no emotion earlier in the table has one |
| Emotions.DetectEmotion | bot.py:32-38 | the nested loops with early return compute exactly `Classify(text)` |
| Emotions.ClassifyCharacterized | bot.py:32-38 | an emotion is the answer if and only if it satisfies the two precedence clauses (both directions) |
| Emotions.ClassifyNeutral | bot.py:38 | the answer is `neutral` if and only if no emotion has a keyword in the lower-cased text |
| Emotions.UnhappyShadowed | bot.py:24-25 | any text containing "unhappy" is classified happy, because it contains "happy" |
| Emotions.HappyBeforeFear | bot.py:34-37 | "I am happy but scared" is classified happy: the earlier emotion wins |
| Emotions.EmptyIsNeutral | bot.py:38 | the empty text is classified neutral |
| Emotions.SadExample | bot.py:32-38 | "I'm so sad today" is classified sad |
| Prefs.LangOf | bot.py:49-50 | `user_lang.get(uid, 'en')`; specified by `LangOfDefault`, `LangAfterSet` and `ValidStoreKept` |
| Prefs.SetLangStore | bot.py:52-54 | the store after `/lang`; specified by `LangAfterSet`, `SetLangFrame` and `ValidStoreKept` |
| Prefs.SetLangReply | bot.py:53-57 | the reply of `/lang`: the confirmation naming the language, or the usage text; specified by `SetLangReplyTells` |
| Prefs.SetLangReplyTells | bot.py:53-57 | the reply is the usage text exactly when the command was rejected (a confirmation is at most 47 characters, the usage text 86) |
| Prefs.LangOfDefault | bot.py:49-50 | a user with no stored code reads "en" |
| Prefs.LangAfterSet | bot.py:52-54 | after `/lang`, the sender reads the new code if it was accepted and the old one otherwise; every other user reads what they read before |
| Prefs.SetLangFrame | bot.py:53-54 | a rejected command leaves the store unchanged; an accepted one changes only the sender's entry |
| Prefs.ValidStoreKept | bot.py:43-54 | `/lang` stores only accepted codes, so every lookup returns "en", "hi" or "gu" |
| Prefs.AcceptedCodes | bot.py:43-53 | the guard accepts exactly a non-empty argument list whose first element is "en", "hi" or "gu" |
| Prefs.Accepts | bot.py:53 | the guard of `set_lang`: a first argument that is a key of `LANG_OPTIONS`; specified by `AcceptedCodes` |
| Context.KeepLast | bot.py:116 | `s[-n:]` has length `min(n, len(s))`, so never more than `n` |
| Context.KeepLastSuffix | bot.py:116 | `s[-n:]` is a suffix of `s`, with the elements in their original order |
| Context.KeepLastAppend | bot.py:114-125 | cutting, appending and cutting again equals appending everything and cutting once |
| Context.PushAllKeepsRecent | bot.py:114-116 | any run of append-and-cut steps leaves exactly the last `n` items of everything appended, in order |
| Context.Push | bot.py:114-116 | one append followed by the `[-8:]` slice; specified by `PushAllKeepsRecent` |
| Context.PushAll | bot.py:114-116 | a run of pushes; specified by `PushAllKeepsRecent` and `TenPushes` |
| Context.PromptHistory | bot.py:112-116 | the history passed to `ask_gemini`; specified by `PromptHistoryShape` |
| Context.StoredContext | bot.py:112-126 | the buffer stored back at the end of a cycle; specified by `StoredContextShape` and `Relay.CycleWindow` |
| Context.TenPushes | bot.py:61-116 | ten pushes into an empty buffer of eight leave items 3..10 |
| Context.PromptHistoryShape | bot.py:112-116 | the history handed to the prompt has between 1 and 8 turns and ends with the user's turn |
| Context.StoredContextShape | bot.py:112-126 | the stored buffer has between 2 and 8 turns, ends with the user's turn then the bot's, and equals the last eight of the old buffer plus both turns |
| Splitter.SplitSep | bot.py:119 | splitting on the delimiter returns at least one piece, and its first piece is a prefix of the input; pinned down by `JoinSplitSep`, `PiecesAvoidDelimiter` and `SplitSepLeftmost` |
| Splitter.SplitSepLeftmost | bot.py:119 | the cuts fall at the leftmost delimiters: no piece that a delimiter follows ends in a bar |
| Splitter.SplitSepFourBars | bot.py:119 | four bars split into "" and a single bar, as Python's `split` gives |
| Splitter.Chunks | bot.py:119 | strip every piece and keep the non-empty ones, in order; specified by `ChunksAppend`, `ChunksOfClean`, `ChunksAvoidDelimiter` and `ChunksClean` |
| Splitter.Split | bot.py:119 | the messages sent for one reply; specified by `SplitChunksClean`, `SplitWhole`, `SplitEmpty`, `SplitJoinRoundTrip` and `SplitExample` |
| Splitter.Kept | bot.py:119 | one piece contributes at most one message |
| Splitter.PiecesAvoidDelimiter | bot.py:119 | no piece of the split contains the delimiter |
| Splitter.JoinSplitSep | bot.py:119 | joining the pieces with the delimiter gives back the input |
| Splitter.SplitSepWhole | bot.py:119 | a string without the delimiter splits into itself alone |
| Splitter.SplitSepJoin | bot.py:119 | splitting the delimiter-join of pieces free of the bar character gives those pieces back |
| Splitter.ChunksAppend | bot.py:119 | strip-and-drop keeps order: the messages from a concatenation of pieces are the messages of each part, in turn |
| Splitter.ChunksOfClean | bot.py:119 | pieces that are already non-empty and trimmed pass through unchanged |
| Splitter.ChunksAvoidDelimiter | bot.py:119 | stripping never creates the delimiter |
| Text.StripAvoids | bot.py:119 | a string that avoids a word still avoids it once stripped |
| Splitter.ChunksClean | bot.py:119 | every message kept is non-empty and trimmed |
| Splitter.SplitChunksClean | bot.py:119 | every message sent is non-empty, trimmed and free of the delimiter |
| Splitter.SplitWhole | bot.py:119 | a reply without the delimiter is sent as its stripped self, or not at all when it is blank |
| Splitter.SplitEmpty | bot.py:119 | an empty reply sends no message |
| Splitter.SplitJoinRoundTrip | bot.py:119 | non-empty, trimmed segments free of the bar character come back, in order, from splitting their delimiter-join |
| Splitter.ChunksBlankMiddle | bot.py:119 | of three pieces, a blank middle one is dropped and the outer two are stripped |
| Splitter.SplitExample | bot.py:119 | the reply "  hello", delimiter, "  ", delimiter, " world  " gives ["hello", "world"] |
| Splitter.StripOuter | bot.py:119 | the outer pieces of that example, "  hello " and " world  ", strip to "hello" and "world" |
| Prompt.Line | bot.py:82-85 | one history line; specified by `HistoryOne` |
| Prompt.Lines | bot.py:81-85 | one history line per turn; specified by `LinesAppend` |
| Prompt.LinesAppend | bot.py:81-85 | the lines of a concatenation of turn lists are the lines of each list, in turn |
| Prompt.History | bot.py:79-85 | the rendered history; specified by `HistoryAppend`, `HistoryLast` and `HistoryOne`, and computed by the loop of `AskGemini` |
| Prompt.HistoryAppend | bot.py:79-85 | the rendered history of a concatenation is the two histories concatenated |
| Prompt.HistoryLast | bot.py:81-85 | the `+=` step: appending a turn appends its line |
| Prompt.HistoryOne | bot.py:82-85 | a turn renders as "User: msg" plus a newline for role 'user', and as "Buddy: msg" plus a newline for any other role |
| Prompt.AskGemini | bot.py:64-99 | the reply is the provider's answer to the prompt built from the rendered history, or the apology when the provider fails |
| Prompt.LangInstruction | bot.py:65-76 | the language directive; specified by `LangInstructionChoice` |
| Prompt.NamePart | bot.py:77 | the name clause; specified by `PromptNameClause` |
| Prompt.Truthy | bot.py:77 | Python truthiness of `user_name`: present and not empty; specified by `PromptNameClause` |
| Prompt.BuildPrompt | bot.py:86-93 | the prompt f-string; specified by `PromptEnding`, `PromptNameClause` and `PromptMentions` |
| Prompt.Answer | bot.py:94-99 | the provider's text, or the apology on failure; specified by `AskGemini` and `Relay.ApologySplit` |
| Prompt.LangInstructionChoice | bot.py:65-76 | the Hinglish directive is chosen exactly for "hi", the Gujlish one exactly for "gu", and English exactly otherwise |
| Prompt.PromptEnding | bot.py:86-93 | the prompt ends with the history header, the history and the quoted user message, in that order |
| Prompt.PromptNameClause | bot.py:77-87 | a truthy name puts "Their name is <name>. " right after the persona; any other name gives the same prompt as no name |
| Prompt.PromptMentions | bot.py:86-93 | the prompt contains the mood, the chosen directive, the history, the message and a truthy name |
| Relay.Bot.constructor | bot.py:41 | both dictionaries start empty (`user_lang` here, `user_context` at bot.py:60), with an empty log, and the invariant holds |
| Relay.Bot.GetUserLang | bot.py:49-50 | the stored code for a known user, "en" otherwise, and always an accepted code |
| Relay.Bot.ContextOf | bot.py:112 | the user's buffer (empty for a new user): at most 8 turns, the window of the user's log |
| Relay.Bot.SetLang | bot.py:52-57 | `user_lang` becomes the guarded update, the context store is untouched, the reply is as `SetLangReply` says (for an accepted command, the confirmation names the language now stored for the sender), and the invariant is kept |
| Relay.Respond | bot.py:107-119 | the messages sent are the split of the provider's answer to the prompt built from the message's emotion, the language, the name and the history |
| Relay.Bot.HandleMessage | bot.py:105-126 | sends the split of the provider's answer; the sender's buffer becomes the last eight of the old buffer plus the user's and the bot's turns; no other user and no language changes; the invariant is kept |
| Relay.WindowsUpdate | bot.py:126 | replacing one user's buffer by the window of its extended log keeps every buffer a window |
| Relay.CycleWindow | bot.py:112-126 | one cycle on a buffer that is a window of the log stores the window of the log extended by both turns |
| Relay.ApologySplit | bot.py:99-123 | the apology is sent as one unchanged message and stored unchanged |
| Relay.SadScenario | bot.py:105-126 | new user 1, name "Sam", says "I'm so sad today" and the provider fails: one apology message is sent, the buffer becomes the user's turn then the apology, and the language is "en" |
| Relay.SadScenarioPrompt | bot.py:64-93 | the prompt of that scenario contains "Sam", "sad", the message and the English directive |

## Left out

- Telegram I/O (`start`, `main`, handler registration, `reply_text`): the messages sent are the result of `HandleMessage`, in order. Sending itself is not modelled.
- The Gemini library, its configuration and the model name: the provider is the `provider` parameter. The printed error message on failure is not modelled.
- Environment variables, `.env` loading and logging: configuration, not behaviour.
- `async` handlers and concurrent delivery of events: each handler is one atomic call on `Bot`.
- Text.Lower: folds ASCII letters only. Python's `lower()` is full Unicode. Every keyword is ASCII, but a few non-ASCII capitals (such as the Kelvin sign) lower to ASCII letters in Python and so could match a keyword there but not here.
- A message with no `effective_user`: `bot.py` already dereferences it when it reads the language, before its own `None` guard. The model always has a user id; the first name is an `Option` (`None` or `""` give no name clause).
- List aliasing: `bot.py` appends the user's turn (bot.py:114) in place. For a user who already has a buffer, that list object is the one still stored in `user_context`; for a new user it is a fresh list that `user_context.get(user_id, [])` (bot.py:112) returned and that is stored nowhere. The code then rebinds the name to a slice. The model works on values. When the cycle runs to bot.py:126, the end state is the same, because the slot is overwritten there.
- Relay.Bot.HandleMessage: models only the completed cycle. If sending a message raises at bot.py:121 (for example a network error, or a chunk over Telegram's length limit), the handler stops. The stored list then keeps the old buffer plus the user's turn, uncut and with no bot turn: nine turns when the buffer held eight. That breaks the at-most-8 bound of `Bot.Valid()`. The model has no such path, because sending is not modelled.
- `context.args` being `None` is modelled as the empty argument list; both fail the guard.
- Context.KeepLast: requires `n > 0`. Python's `s[-0:]` is the whole list, a case `bot.py` never uses (the bound is the constant 8).
- The provider is a function, so two identical prompts receive the same outcome; a stateful or random model is not captured.
- Emotions.HappyBeforeFear, Emotions.SadExample, Splitter.SplitExample and Relay.ApologySplit concern fixed texts. Some are stated over a parameter required to equal the text, or over the text written in pieces. This keeps the verifier from evaluating recursive functions on long literals character by character. They state the same fact.
