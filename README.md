# Vani AI translator screen, modelled in Dafny

Vani AI is a two-person speech translator. Speaker A talks in one Indian
language (or English) and speaker B in another. The translator screen
(`vani-ai-translator/app/translator/page.tsx`) listens to whoever holds the
turn and turns the recogniser's results into a transcript. It translates a
finished recording with a phrase-table stub, appends the pair to the
conversation log and passes the turn to the other speaker.

The model has four modules:

- `JsText` (`text.dfy`): the two string operations the stub applies to its
  input, JavaScript's `trim` and `toLowerCase`, and their composition
  `Normalize`. `trim` uses the full list of ECMAScript whitespace and
  line-terminator characters, so it strips exactly what the source's
  `trim` strips. The module proves the facts the lookup relies on:
  - letter case and surrounding whitespace do not change the key;
  - normalising twice changes nothing.
- `Translation` (`translation.dfy`): the `languageNames` table, the
  `mockTranslations` table and the lookup-or-echo rule of `translateText`.
  - The rule is stated for any table of the same shape (`TranslateWith`).
  - `Translate` is that rule applied to the constant table of the source.
  - Concrete lemmas check the constant data, for example that "Hello "
    from English into Hindi gives "नमस्ते".
- `Recognition` (`recognition.dfy`): the accumulator loop of the
  recogniser's `onresult` handler. It is a method with a loop, proved
  against a specification function `Joined`.
- `TranslatorSession` (`session.dfy`): the screen's state as a class. Each
  React state variable except `audioEnabled` (the playback toggle, see
  "Left out") is a field. The event handlers and button handlers
  are methods, and an invariant is preserved about the conversation log:
  - every entry holds non-blank spoken text;
  - every entry goes from its speaker's language into the other's;
  - every entry holds the translation stub's answer;
  - speakers alternate, and the speaker who holds the turn is not the one
    who spoke last. This holds because the delayed turn flip is taken as
    immediate (see "Left out").

The wait before the stub answers, the one-second delay before the turn
passes, and the recogniser's `onend` are treated as ordinary sequential
steps. Ids and timestamps (`Date.now()`, `new Date()`) are parameters that
the caller supplies.

## Model

| member | source | states |
|---|---|---|
| JsText.Trim | vani-ai-translator/app/translator/page.tsx:116 | `trim` removes leading and trailing whitespace. The result is empty exactly when the input is all whitespace; otherwise it neither starts nor ends with whitespace. |
| JsText.TrimStartSpec | vani-ai-translator/app/translator/page.tsx:116 | Stripping the front leaves a suffix of the input. Everything removed is whitespace, and what is left does not start with whitespace. |
| JsText.TrimRemovesBlankEnds | vani-ai-translator/app/translator/page.tsx:116 | `trim` returns a slice of its input: it removes a blank prefix and a blank suffix and keeps what lies between them unchanged. |
| JsText.TrimEndSpec | vani-ai-translator/app/translator/page.tsx:116 | Stripping the back leaves a prefix of the input. Everything removed is whitespace, and what is left does not end with whitespace. |
| JsText.LowerChar | vani-ai-translator/app/translator/page.tsx:116 | `toLowerCase` on one character: 'A'..'Z' map to 'a'..'z'; every other character is unchanged. |
| JsText.ToLower | vani-ai-translator/app/translator/page.tsx:116 | `toLowerCase` on ASCII text: each capital is lowered in place and every other character is kept, so the length is unchanged. |
| JsText.Normalize | vani-ai-translator/app/translator/page.tsx:116 | The key `text.toLowerCase().trim()` holds no ASCII capital and neither starts nor ends with whitespace. It is empty exactly when the text is blank. |
| JsText.ToLowerIdempotent | vani-ai-translator/app/translator/page.tsx:116 | Lowering twice is the same as lowering once. |
| JsText.ToLowerTrimCommute | vani-ai-translator/app/translator/page.tsx:116 | `text.toLowerCase().trim()` equals `text.trim().toLowerCase()`. |
| JsText.TrimIgnoresPadding | vani-ai-translator/app/translator/page.tsx:116 | Adding whitespace before or after a text does not change what `trim` returns. |
| JsText.NormalizeIgnoresCaseAndPadding | vani-ai-translator/app/translator/page.tsx:116 | Two texts that differ only in letter case and surrounding whitespace get the same lookup key. |
| JsText.NormalizeIdempotent | vani-ai-translator/app/translator/page.tsx:116 | A key is its own key: normalising twice changes nothing. |
| JsText.NormalizeKeepsKey | vani-ai-translator/app/translator/page.tsx:116 | A text with no capitals and no whitespace at either end is its own key. |
| JsText.PaddedHelloKey | vani-ai-translator/app/translator/page.tsx:116 | The key of "Hello " is "hello". |
| JsText.CapitalHelloKey | vani-ai-translator/app/translator/page.tsx:116 | The key of "HELLO" is "hello". |
| Translation.NameOf | vani-ai-translator/app/translator/page.tsx:15-28 | `languageNames[code]?.name` gives the display name of each of the twelve codes, and `undefined` (None) for any other code. |
| Translation.Lookup | vani-ai-translator/app/translator/page.tsx:117 | The optional chain `table[phrase]?.[from]?.[to]` finds an entry exactly when all three keys are present, and that entry is the cell `table[phrase][from][to]` itself. |
| Translation.Fallback | vani-ai-translator/app/translator/page.tsx:120 | The echo is `[` followed by the target's display name (or `undefined`), then `: `, then the original text, then `]`. |
| Translation.TranslateWith | vani-ai-translator/app/translator/page.tsx:116-120 | On a hit for the normalised text, the result is the table's entry unchanged. On a miss it is `"[" + name + ": " + text + "]"`. It is never empty. |
| Translation.Translate | vani-ai-translator/app/translator/page.tsx:51-121 | `translateText` over the source's own table, without its delay: the answer is never empty. It is `TranslateWith` applied to `mockTranslations`, so that row's hit and miss clauses hold for it. |
| Translation.EchoIffMiss | vani-ai-translator/app/translator/page.tsx:59-113 | No canned entry starts with '[', so the result starts with '[' if and only if the lookup missed. |
| Translation.UnsupportedSourceMisses | vani-ai-translator/app/translator/page.tsx:59-113 | The table lists only "en" and "hi" as source codes, so any other source always gets the echo. |
| Translation.EchoKeepsOriginal | vani-ai-translator/app/translator/page.tsx:120 | On a miss the echo embeds the original text, not its normalised form. |
| Translation.UnknownTargetPrintsUndefined | vani-ai-translator/app/translator/page.tsx:120 | On a miss into a code with no display name, the echo reads `[undefined: text]`. |
| Translation.CaseAndPaddingInsensitive | vani-ai-translator/app/translator/page.tsx:116-117 | A variant of a phrase with other capitals and extra surrounding whitespace hits exactly when the phrase does, and then gets the same translation. |
| Translation.HelloPhrase | vani-ai-translator/app/translator/page.tsx:60-63 | "hello" is a phrase of the table, with the greeting's row. |
| Translation.PhrasesAreKeys | vani-ai-translator/app/translator/page.tsx:59-113 | Each of the eleven phrases of `mockTranslations` is its own lookup key: lowering and trimming it changes nothing. |
| Translation.EveryCellReachable | vani-ai-translator/app/translator/page.tsx:116-117 | Typing any phrase of the table exactly as it is listed, between two languages it has a cell for, yields that cell. |
| Translation.UnknownPhraseMissing | vani-ai-translator/app/translator/page.tsx:59-113 | "xyz unknown phrase" is not a phrase of the table. |
| Translation.HelloEntry | vani-ai-translator/app/translator/page.tsx:61 | The table's entry for "hello" from English into Hindi is "नमस्ते". |
| Translation.HindiName | vani-ai-translator/app/translator/page.tsx:16 | The display name of "hi" is "Hindi". |
| Translation.HelloIntoHindi | vani-ai-translator/app/translator/page.tsx:116-120 | "hello", "Hello " and "HELLO" from English into Hindi all give "नमस्ते". |
| Translation.UnknownPhraseIntoHindi | vani-ai-translator/app/translator/page.tsx:116-120 | An unknown phrase into Hindi gives "[Hindi: xyz unknown phrase]". |
| Recognition.CollectTranscripts | vani-ai-translator/app/translator/page.tsx:190-200 | The loop's final text is the joined transcripts of the final results from `resultIndex` onward, in order. The interim text is the same for the non-final results. |
| Recognition.JoinedAppend | vani-ai-translator/app/translator/page.tsx:193-200 | Joining distributes over concatenation of result lists, so each text is built in result order. |
| Recognition.FinalEmptyIff | vani-ai-translator/app/translator/page.tsx:205-207 | The final text is empty if and only if every final result has an empty transcript. This is the condition under which no recording is handed over. |
| Recognition.LengthsAddUp | vani-ai-translator/app/translator/page.tsx:193-200 | The lengths of the final text and the interim text add up to the length of all the transcripts joined. |
| Recognition.AllFinal | vani-ai-translator/app/translator/page.tsx:193-200 | When every result is final, the final text is all transcripts in order and the interim text is empty. |
| Recognition.NoneFinal | vani-ai-translator/app/translator/page.tsx:193-200 | When no result is final, the interim text is all transcripts in order and the final text is empty. |
| TranslatorSession.Other | vani-ai-translator/app/translator/page.tsx:157 | The flip always yields the other speaker. |
| TranslatorSession.LangOf | vani-ai-translator/app/translator/page.tsx:129-130 | Speaker A talks in A's language and speaker B in B's. |
| TranslatorSession.AppendTurn | vani-ai-translator/app/translator/page.tsx:145-158 | Appending a well-formed entry by the speaker who holds the turn, then flipping the turn, keeps the log invariant. |
| TranslatorSession.RepliesReverseDirection | vani-ai-translator/app/translator/page.tsx:129-130 | In a valid log each entry is translated in the direction opposite to the previous one. |
| TranslatorSession.EntriesAreNonEmpty | vani-ai-translator/app/translator/page.tsx:126 | Every logged entry has non-blank spoken text and a non-empty translation. |
| TranslatorSession.Session.Entry | vani-ai-translator/app/translator/page.tsx:135-143 | The new message holds the speaker, the spoken text, the id and timestamp, the speaker's two languages and the translator's answer. |
| TranslatorSession.Session.constructor | vani-ai-translator/app/translator/page.tsx:40-47 | The screen starts with speaker A, an empty log, an empty transcript and every flag false. The invariant holds. |
| TranslatorSession.Session.StartListening | vani-ai-translator/app/translator/page.tsx:240-245 | `start()` is called if and only if a recogniser exists and it is neither listening nor processing. In that case the recogniser's language becomes the current speaker's. Nothing else changes. |
| TranslatorSession.Session.StopListening | vani-ai-translator/app/translator/page.tsx:247-251 | `stop()` is called if and only if a recogniser exists and it is listening. |
| TranslatorSession.Session.OnStart | vani-ai-translator/app/translator/page.tsx:184-187 | Listening starts, and the live transcript is cleared. |
| TranslatorSession.Session.OnEnd | vani-ai-translator/app/translator/page.tsx:210-212 | Listening stops; nothing else changes. |
| TranslatorSession.Session.OnError | vani-ai-translator/app/translator/page.tsx:214-216 | Listening stops; nothing else changes. |
| TranslatorSession.Session.TranslateText | vani-ai-translator/app/translator/page.tsx:52-121 | `isTranslating` is raised before the wait. On success it is lowered and the phrase-table answer is returned. On a rejected wait it stays raised and no answer is returned. |
| TranslatorSession.Session.HandleRecordingComplete | vani-ai-translator/app/translator/page.tsx:124-171 | A blank recording changes nothing. On success exactly one entry is appended, earlier entries are kept and the turn flips. On failure the log and the turn are unchanged. Both paths end not processing, with an empty transcript. The invariant is preserved. |
| TranslatorSession.Session.OnResult | vani-ai-translator/app/translator/page.tsx:189-207 | The transcript becomes final + interim text. A non-empty final text goes through the recording handler, with that handler's outcome. The invariant is preserved. |
| TranslatorSession.Session.ClearHistory | vani-ai-translator/app/translator/page.tsx:253-256 | From any state, the log and the transcript are emptied. The speaker, every flag and the recogniser are unchanged, and the invariant holds afterwards. |
| TranslatorSession.GreetingExchange | vani-ai-translator/app/translator/page.tsx:124-158 | On a fresh English–Hindi screen, A saying "Hello " logs exactly one entry, with "नमस्ते" as the translation, and passes the turn to B. |

## Notes on the source

- **Busy flags.** `isListening` and `isProcessing` can both be true.
  - `onresult` calls the recording handler (line 206), which raises `isProcessing` (line 128). Only `onend` (line 211) or `onerror` (line 216) clears `isListening`.
  - So both flags are true at once from the call at line 206 until `onend` or `onerror` fires. With `continuous = false` (line 179), `onend` normally fires soon after the final result.
  - The model follows the code: no handler assumes that the two flags exclude each other.
  - Because the model runs the recording handler as one step, the overlap does not appear between two modelled steps.
- **The catch branch.** The stub's wait is a timer, so the stub itself never rejects. Only a throw from playback (lines 148-153, left out) could reach the `catch`, and that happens after the entry has been appended.
  - The `rejects` parameter of `TranslateText`, `HandleRecordingComplete` and `OnResult` stands for a translation call that fails.
  - On that path `isTranslating` stays true, because only the code after the wait lowers it.
- **Table rows.** The table has rows only for English and Hindi sources, and its keys are English phrases.
  - A Hindi speaker's words therefore hit only when they are one of those English phrases. They then use the table's Hindi-source row.
- **Literal values.** Each row of `mockTranslations` is split into its English-source and its Hindi-source part. The session holds the stub as the function-valued constant `translator`, which the constructor sets to `Translate`. The values are the source's.
  - The four parts `Greetings`, `Courtesies`, `Answers` and `Personal` exist only so that the solver handles the table one part at a time; the source has one object literal. The same holds for the lemmas about single parts and single phrases (`NotAGreeting`, `GreetingPhrases`, `ThankYouKey` and the like), which carry no row above.

## Left out

- JsText.LowerChar: lowers ASCII capitals only. JavaScript's `toLowerCase` also lowers non-ASCII capitals, and some of them lower to an ASCII letter: U+212A KELVIN SIGN lowers to 'k'. So "THANK YOU" typed with the Kelvin sign for its K hits "thank you" in the source (lines 116-117) but gets the echo in the model. On ASCII input the two agree.
- JsText.ToLower: keeps the length and lowers each character on its own. JavaScript's `toLowerCase` does neither in general: "İ" (U+0130) lowers to two code points, 'i' followed by a combining dot above, and capital sigma lowers to σ or to the final form ς depending on the letters around it.
- The lookup is on own keys only. JavaScript would also find inherited object properties: spoken text can lower to "constructor" or "__proto__", which the object literal inherits. The result still agrees, because the next step of the chain reads the source code on `Object` or `Object.prototype`, and neither has a property named after any of the twelve language codes. So the chain gives `undefined` and the echo follows, as in the model.
- Speech synthesis playback (lines 147-153) is left out, as is anything it throws. So is the `audioEnabled` state variable (line 46) that gates it and its toggle (line 277): `Session` has no field for it. Playback runs after the entry is appended, so a throw there would skip the turn flip.
- The speaker buttons (lines 308 and 319) set the turn directly, which can break the alternation invariant. They are UI and are left out, as are rendering, styling and the audio toggle.
- TranslatorSession.ValidLog: speakers alternate only because the one-second turn flip (lines 156-158) is taken as immediate. In the source, `finally` clears `isProcessing` at once (line 166), and the record button is disabled only while processing (line 333). So for one second after an entry is logged, the speaker who just spoke still holds the turn. A recording started in that second listens in that speaker's language (line 242). If it yields a final result, the entry is logged under the same speaker, and its own delayed flip then hands the turn back.
- Toasts and `console.error` are left out; they are side effects only.
- The timers are left out: the 800 ms wait (line 55) and the one-second delayed turn flip (lines 156-158) are taken as immediate steps. The line above on `TranslatorSession.ValidLog` says what this hides.
- Concurrent events during the wait are left out. A second `onresult` arriving before the first recording finishes is not modelled.
- The `useEffect` that re-creates the recogniser whenever the speaker changes (lines 174-238) is left out. Its cleanup calls `stop()` on the old recogniser. The model keeps one recogniser, and `StartListening` sets its language.
- The recogniser itself is a platform API. It appears only through its events: `OnStart`, `OnResult`, `OnEnd` and `OnError`.
- Only the first alternative of each recognition result is read, since `maxAlternatives` is 1.
- `vani-ai-translator/app/page.tsx` (language selection) and `vani-ai-translator/app/layout.tsx` are not part of this model.
