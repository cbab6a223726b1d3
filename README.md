# TalkToText popup: a verified model of the dictation core

TalkToText is a browser-extension popup. It turns microphone speech into text
in the focused text field. It rewrites a few spoken Spanish phrases into
punctuation, keeps the last five phrases for "repeat last phrase", and has
clear and copy buttons. All of it lives in `popup.js`. This project models the
part of that file that decides what text is produced and where it goes:

- `punctuation.dfy` (module `Punctuation`) models `processText`. It is a
  left-to-right scan that replaces the five phrase tokens `" punto "`,
  `" coma "`, `" signo de interrogación "`, `" signo de exclamación "` and
  `" y "`, trying them in the order of the regular expression's alternation.
  It is proved against an independent reading: a unique "leftmost cutting" of
  the input into copied characters and whole tokens.
- `jstext.dfy` (module `JsText`) models `String.prototype.trim`, which is
  applied to every final transcript.
- `history.dfy` (module `History`) models `updatePreviousSentences`, the
  five-entry first-in first-out phrase history.
- `messages.dfy` (module `StatusMessages`) holds the `errorMessages` lookup of
  `onerror`, the microphone failure texts and the fixed status texts.
- `insertion.dfy` (module `Insertion`) models target resolution and append, as
  used by both `onresult` and the repeat button. The focused element is a
  text input, a textarea, a content-editable element, or nothing that
  qualifies, in which case the fallback panel is used.
- `recognition.dfy` (module `Recognition`) states functionally what the
  `onresult` loop does over the whole result list. It proves the history, the
  inserted text and the last speech result for a whole event.
- `popup.dfy` (module `PopupController`) has class `Popup`. Its fields are the
  variables the handlers share (`isDictating`, `lastSpeechResult`,
  `previousSentences`, the panel's value, the focused element, the status
  line, `recognition.lang`, the pending auto-stop timer). Each handler is a
  method proved against the functions above; the `onresult` loop keeps its
  `for` loop. The method `SessionLifecycle` is a worked example of the session
  flag (`popup.js:26-30`, `59-76`, `78-94`): a start request, the engine's
  start, an error while listening, a stop request and the end, then a repeat
  with an empty history. After each engine callback it asserts `isDictating`
  and the status text; after each toggle it asserts the engine call asked
  for and that `isDictating` has not changed; after the repeat it asserts
  the "nothing to repeat" status and an unchanged, empty panel.
- `wrappers.dfy` (module `Wrappers`) holds an `Option` type.

The speech engine is outside the model. Its callbacks are methods that the
environment calls. What a handler asks of the engine (`start()`, `stop()`) is
returned as an `EngineCall`. The microphone prompt becomes a `Microphone`
argument (unsupported, granted, or refused with an error name). The
confirmation dialog of the clear button becomes a boolean argument.

In these places the code behaves differently from what one might expect, and the model follows the code:

- `onerror` does not end the session. `isDictating` changes only in `onstart`
  and `onend` (`popup.js:26-30`, `59-76`).
- `stop()` does not set the session to idle right away. Only the engine's
  later `onend` does that.
- The auto-stop timer is never cancelled when the session stops. Only the
  next `onresult` clears it (`popup.js:33`). After `onend` it may still be
  pending, and when it fires it asks for another `stop()`.
- Each transcript is trimmed before it is rewritten (`popup.js:36-38`), so a
  token said at the end of an utterance has lost its trailing space and is
  kept as a word. A final "hola punto " is inserted as "hola punto ".
- The rewrite is not idempotent in general. For example, `" punto punto "`
  becomes `". punto "`, which still contains a token. The rewrite leaves
  unchanged text that holds no token.

## Model

| member | source | states |
|---|---|---|
| `Punctuation.TableFacts` | popup.js:140-146 | the table has five entries; every token starts with a space and no replacement is longer than its token |
| `Punctuation.KeyAt` | popup.js:147 | a token reported as matching at a position is a table entry that starts there |
| `Punctuation.KeyAtFirst` | popup.js:147 | the reported token is the first, in alternation order, that starts there; nothing is reported exactly when no token starts there |
| `Punctuation.KeysPrefixFree` | popup.js:140-147 | no token is a prefix of another |
| `Punctuation.OneKeyPerPosition` | popup.js:147 | at most one token can match at any position, so the order of the alternation never changes the result |
| `Punctuation.ProcessText` | popup.js:139-149 | the one global replacement pass; the result is never longer than the input |
| `Punctuation.ProcessTextWithoutKeys` | popup.js:147-148 | text in which no token occurs is returned unchanged |
| `Punctuation.PhraseConsumed` | popup.js:147-148 | a matched token is replaced by its value and consumes both its spaces; scanning resumes right after the trailing space |
| `Punctuation.CopiesNonSpace` | popup.js:147-148 | a character other than a space starts no token and is copied |
| `Punctuation.CopiesSpaceBefore` | popup.js:147-148 | a space followed by a letter that starts no token is copied |
| `Punctuation.NoSpaceUnchanged` | popup.js:147-148 | text without spaces is copied unchanged |
| `Punctuation.WordTokenWord` | popup.js:147-148 | a word, a token and a word become the word, the token's value and the word |
| `Punctuation.SharedSpaceExample` | popup.js:139-149 | "a punto coma b" becomes "a. coma b": two tokens sharing a space are not both rewritten |
| `Punctuation.TwoTokensExample` | popup.js:139-149 | "hola punto como estas coma bien" becomes "hola. como estas, bien" |
| `Punctuation.TrailingTokenKept` | popup.js:36-38 | "hola punto", the trimmed form of a final "hola punto ", is not rewritten: a token at the end of the text has lost its trailing space |
| `Punctuation.LeftmostRewrite` | popup.js:147-148 | for any left-to-right cutting into tokens and copied characters, where no token starts at a copied character, the rewrite is exactly the cutting with each token replaced by its value |
| `Punctuation.LeftmostUnique` | popup.js:147-148 | a text has only one such leftmost cutting, so the non-overlapping matches are determined |
| `Punctuation.Cutting` | popup.js:147-148 | every text has a leftmost cutting that covers it exactly |
| `JsText.LeadingWhite` | popup.js:36 | the length of the longest white-space prefix |
| `JsText.TrailingWhite` | popup.js:36 | the length of the longest white-space suffix |
| `JsText.Trim` | popup.js:36 | the trimmed transcript is the middle of the input after its white-space prefix and suffix are removed; it neither starts nor ends with white space; it is empty exactly when the input is all white space |
| `History.Remember` | popup.js:151-156 | the pushed phrase is last; a history within capacity stays within five entries and becomes the newest five of the old entries plus the phrase |
| `History.RememberAllKeepsNewest` | popup.js:151-156 | pushing any phrases one by one leaves exactly the newest five of the old and new entries |
| `History.SixPushesExample` | popup.js:151-156 | pushing A to F into an empty history gives [B, C, D, E, F] |
| `StatusMessages.ErrorMessage` | popup.js:66-74 | a known code gets its table text and any other code gets "Error desconocido"; the message is never empty |
| `StatusMessages.KnownCodesDistinguished` | popup.js:66-73 | the six known codes map to six different messages |
| `StatusMessages.FallbackExactlyForUnknown` | popup.js:74 | the generic text is shown exactly for codes the table does not name |
| `StatusMessages.MicrophoneErrorMessage` | popup.js:165-172 | a `NotAllowedError` gets the permission text, and every other failure gets the generic text "Error al acceder al micrófono."; the message is never empty |
| `Insertion.Resolve` | popup.js:39-42 | the target is the panel exactly when no text input, textarea or content-editable element has focus; it is content-editable exactly when the focused element is; a focused text input that is not content-editable is a text-input target |
| `Insertion.Insert` | popup.js:41-49 | the resolved target's text gains the appended text at its end, every other surface keeps its text, and focus and element kinds do not change |
| `Insertion.ReceiverFollowsFocus` | popup.js:39-49 | the target and the surface written depend only on the focused element's kind, not on its text |
| `Recognition.Step` | popup.js:35-52 | a result that is not final changes nothing; a final blank one only clears the last speech result; an accepted one stores its trimmed transcript, pushes its rewrite to the history and appends the rewrite plus a space to the resolved target |
| `Recognition.StepHistory` | popup.js:35-51 | one result's effect on the history is pushing what it adds: its rewrite when accepted, nothing otherwise |
| `Recognition.StepInsert` | popup.js:35-49 | one result's effect on the receiving surface is gaining its rewrite plus a space when accepted, nothing otherwise |
| `Recognition.Steps` | popup.js:34-53 | the loop over the result list applies `Step` to each result in order; a history within capacity stays within five entries |
| `Recognition.StepsHistory` | popup.js:34-53 | after an event the history is the newest five of its old entries followed by the rewrites of the accepted results, in order |
| `Recognition.StepsKeepFocus` | popup.js:34-53 | an event never changes focus or the surface that receives text |
| `Recognition.StepsInsert` | popup.js:34-53 | after an event the receiving surface has gained the rewrite of every accepted result, each followed by one space, in order |
| `Recognition.StepsLeaveOthers` | popup.js:34-53 | after an event every other surface keeps its text |
| `Recognition.NothingAccepted` | popup.js:35-37 | an event without an accepted result leaves the text and the history alone |
| `Recognition.NothingFinal` | popup.js:35 | an event holding only interim results changes nothing |
| `Recognition.StepsLastSpeech` | popup.js:36 | afterwards the last speech result is the trimmed transcript of the event's last final result |
| `Recognition.StepsConcat` | popup.js:34 | handling two result lists in turn is handling their concatenation |
| `Recognition.ResultReinsertedByNextEvent` | popup.js:34 | as written, a phrase already inserted by one event is inserted again by the next event of a continuous session |
| `Recognition.StepsFrom` | popup.js:34 | the corrected handler, which walks only the results from `resultIndex` on; from index 0 it is the handler as written, and from the end of the list it changes nothing |
| `Recognition.EventsHandleEachResultOnce` | popup.js:34 | when each event is handled from its `resultIndex`, a session's events handle every result exactly once |
| `PopupController.Popup.constructor` | popup.js:13-16 | the popup starts idle, with an empty history and last speech result, and no timer pending |
| `PopupController.Popup.SetStatusMessage` | popup.js:18-21 | the status line shows the message, flagged as an error or not |
| `PopupController.Popup.OnStart` | popup.js:26-30 | `isDictating` becomes true and the "in progress" status is shown |
| `PopupController.Popup.OnEnd` | popup.js:59-63 | `isDictating` becomes false and the "stopped" status is shown; the timer is not touched |
| `PopupController.Popup.OnError` | popup.js:65-76 | the status shows the mapped message as an error; `isDictating` is not changed |
| `PopupController.Popup.UpdatePreviousSentences` | popup.js:151-156 | the history becomes `Remember` of the old one and stays within five entries |
| `PopupController.Popup.AppendToTarget` | popup.js:39-49 | the panel and focused element become `Insert` of the old ones |
| `PopupController.Popup.OnResult` | popup.js:32-57 | after the loop over every result, the state is `Steps` of the old state over the whole list; the history stays within five entries and the auto-stop timer is pending |
| `PopupController.Popup.OnTimeout` | popup.js:54-56 | the timer fires once and asks the engine to stop |
| `PopupController.Popup.Toggle` | popup.js:78-94 | while dictating it asks for `stop()` and changes nothing else; otherwise it sets the language and asks for `start()` only when the microphone is granted (a throwing start is reported as a microphone error); when access is unsupported or refused it only shows an error; `isDictating` is never changed here |
| `PopupController.Popup.OnLanguageChange` | popup.js:134-137 | the engine's language becomes the selected value and the status names it |
| `PopupController.Popup.Repeat` | popup.js:96-114 | with an empty history no text changes and an error is shown; otherwise the newest phrase plus a space is appended to the resolved target; the history is unchanged |
| `PopupController.Popup.Clear` | popup.js:125-132 | when confirmed, the panel, the last speech result and the history are emptied and "Texto borrado." is shown; when not confirmed nothing changes |

## Left out

- The speech-recognition engine (`popup.js:10-11`) and its `continuous` and `interimResults` settings (`popup.js:23-24`) are external. Its callbacks are methods called by the environment. Its `start()` and `stop()` are returned as `EngineCall` values.
- A result's alternatives are reduced to the transcript of the first one, `result[0]`, which the handler reads. A result with no alternative is not modelled.
- The `getUserMedia` prompt is asynchronous. It is an argument. The stream it returns is not modelled, because the code never uses it.
- The 2000 ms `setTimeout` (`popup.js:54-56`) is a pending flag. `OnTimeout` stands for it firing. Real time is not modelled.
- The copy button (`popup.js:116-123`) is left out: it is clipboard I/O whose only effect is a status text.
- `confirm()` is an argument. `console` logging is dropped.
- `updateButtonAppearance` (`popup.js:158-163`) and the status colours are left out as DOM styling. `statusIsError` records whether the status is shown as an error.
- DOM details are reduced to flags. The `matches()` selectors are booleans on `Element`. `innerHTML +=` is plain string concatenation, so HTML parsing and serialisation are not modelled. Focus changes made by the user are direct assignments to `Popup.active`.
- The popup's own panel is a textarea, because its text is read and written through `.value`. When it has focus, text goes to it through the focused-element branch, which has the same effect as the fallback.
- `StatusMessages.ErrorMessage` treats every code outside the table as unknown. A JavaScript object lookup would also find inherited property names such as `constructor`. The engine's fixed set of error codes contains none of them.
- Strings are sequences of Unicode scalar values, not UTF-16 code units. The tokens and white-space characters are all single units, so matching and trimming give the same results either way.

## Findings

| source | as written | input that shows it | evidently intended | confidence | as-written member | corrected member |
|---|---|---|---|---|---|---|
| popup.js:34 | `for (const result of event.results)` walks every result of the session, while the engine runs with `continuous = true`, so each event's list repeats the earlier final results | two events of one session whose lists are [final "hola"] and then [final "hola", final "adios"] (second with `resultIndex` 1) append "hola hola adios " | walk from `event.resultIndex`, appending "hola adios " | medium; not executed | `Recognition.ResultReinsertedByNextEvent` | `Recognition.EventsHandleEachResultOnce` |

The model's `Popup.OnResult` keeps the loop as written. The corrected handling
is `Recognition.StepsFrom`. `Recognition.EventsHandleEachResultOnce` proves
that, for a session whose list grows from one event to the next, it handles
every result exactly once.
