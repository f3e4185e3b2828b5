# Soal generator core, in Dafny

A teacher fills in a form (subject `mapel`, level `jenjang`, optional grade
`kelas`, question kind, count, topic). The page asks a hosted text model for
HOTS questions, and the service turns the reply into an ordered list of
parts: text, and images generated for every `[IMAGE: …]` (English) or
`[GAMBAR: …]` (every other subject) directive. The teacher can then ask for
an answer key to the flattened questions. This project models that core:

- `types.dfy` (`Types`): the form data, question kinds and the text/image
  parts, plus `Option` and `Result`.
- `jstext.dfy` (`JsText`): the JavaScript string primitives the source relies
  on. These are the `\s`/`trim` whitespace set, `startsWith`, and the decimal
  rendering of the count, which reads back as the count. `EndsWith` is there
  only for stating contracts.
- `directives.dfy` (`Directives`): the global regular expression
  `\[KW:\s*([^\]]+)\]`, `exec` from the `lastIndex` cursor, and the scan loop
  of `generateQuestions` as an imperative method. The loop is proved equal to
  a recursive specification, `Tokens`. About `Tokens` the file proves:
  - the round trip: the text stretches and matched directives, joined in
    order, give the text back;
  - text stretches are non-empty and hold no complete directive;
  - every description is non-empty and free of `]`;
  - the token list is the one and only split that the leftmost scan grammar
    allows.
- `prompts.dfy` (`Prompts`): the request templates as sequences of fixed
  wording and interpolated fields.
  - The English variant is chosen exactly when the subject is
    `Bahasa Inggris`.
  - The fields are embedded verbatim.
  - The questions can be read back from between the answer-key delimiters.
- `gemini_service.dfy` (`GeminiService`): the removal of `**`, image slots
  (`generateImageFromPrompt`), tagging and filtering, `generateQuestions`
  (a method proved against the function `Questions`), and
  `generateAnswerKey`. The text model and the image model are oracle
  parameters.
- `app.dfy` (`App`): `soalToString`, the theme toggle, and a `Session` class
  with the page's state fields. It has `handleGenerateSoal` and
  `handleShowKunci` as methods. A ghost log of text-model requests makes
  "no request is sent" statable. `CanShowKunci` is `canShowKunci`: questions
  are held (an empty list counts) and the key is empty. The handlers'
  postconditions say when it holds afterwards. Each log entry says which request was
  sent: questions for a form, or a key for a subject and flattened questions.
- `result_display.dfy` (`ResultDisplay`): the copy flattener, proved equal to
  `soalToString`, its length, and the view `renderContent` chooses.

A text stretch of the reply that itself begins with `data:image` is tagged as
an image part, exactly as the source's `startsWith('data:image')` test does.
So "when every image fails, only text parts come back" holds only when no text
stretch begins that way. `GeminiService.QuestionsWhenImagesFail` states it
with that condition.

## Model

| member | source | states |
|---|---|---|
| `Directives.Opener` | services/geminiService.ts:72 | the directive keyword is `[IMAGE:` exactly in the English variant, `[GAMBAR:` otherwise |
| `Directives.MatchAtIsSpan` | services/geminiService.ts:72 | a match at p is found exactly when the opener is at p and the first `]` after it has at least one character before it; the match ends at that `]` |
| `Directives.NextMatchIsLeftmost` | services/geminiService.ts:77 | `exec` from the cursor reports the leftmost match at or after the cursor, and reports none only when no match starts there or later |
| `Directives.CaptureIsGroupOne` | services/geminiService.ts:81 | group 1 is a non-empty tail of the directive content that drops only leading whitespace; it drops all of it unless the content is all whitespace, when one character remains |
| `Directives.Scan` | services/geminiService.ts:73-88 | the `lastIndex` loop builds exactly the token list `Tokens(t, open, 0)`: text before each match when non-empty, the directive, then the non-empty remainder |
| `Directives.TokensRoundTrip` | services/geminiService.ts:77-88 | joining text stretches and matched directives in order reproduces the scanned text character for character |
| `Directives.DirectiveWellFormed` | services/geminiService.ts:81-82 | the token of a match is, on its own, one complete match whose description is its group 1, non-empty and free of `]` |
| `Directives.TokensWellFormed` | services/geminiService.ts:78-88 | every text stretch is non-empty and holds no complete directive; every directive token is well formed |
| `Directives.TokensAreScan` | services/geminiService.ts:77-88 | the token list follows the leftmost-scan grammar: maximal match-free text runs and the match starting at the cursor, one directive token per match, in order |
| `Directives.ScanIsTokens` | services/geminiService.ts:77-88 | any token list following that grammar is the token list the scan produces |
| `Directives.ScanIsUnique` | services/geminiService.ts:77-88 | the grammar admits exactly one token list for a text |
| `JsText.NatToStringValue` | services/geminiService.ts:46 | the decimal digits written for a count read back as that count |
| `JsText.IntToStringValue` | services/geminiService.ts:46 | `${n}` reads back as `n`: the digits after any `-` are its magnitude |
| `Prompts.LevelDetail` | services/geminiService.ts:38 | the level text starts with `jenjang`; it differs from `jenjang` exactly when `kelas` is present and non-empty, and then ends with ` kelas <kelas>` with nothing else between, so it is exactly `<jenjang> kelas <kelas>` |
| `Prompts.TemplatesLanguage` | services/geminiService.ts:39-59 | instruction, question prompt, key instruction and key prompt are all in English exactly when `mapel` is `Bahasa Inggris` |
| `Prompts.SystemInstructionFields` | services/geminiService.ts:41-43 | the system instruction embeds the level text verbatim, and the Indonesian one also embeds `mapel` |
| `Prompts.QuestionPromptFields` | services/geminiService.ts:45-59 | the question prompt embeds the count, the question kind, the topic and the level text verbatim |
| `Prompts.AnswerKeyPromptRoundTrip` | services/geminiService.ts:113-123 | the questions are embedded verbatim between `--- QUESTIONS ---`/`--- END ---` (or `--- SOAL ---`/`--- AKHIR ---`) and can be read back from the prompt |
| `Prompts.SegmentRendered` | services/geminiService.ts:41-59 | every fixed or interpolated piece of a template occurs in the text that is sent |
| `GeminiService.StripBoldRemovesBold` | services/geminiService.ts:71 | after the removal no `**` remains, even where removals bring stars together |
| `GeminiService.StripBoldKeepsOthers` | services/geminiService.ts:71 | every character other than `*` survives, in order |
| `GeminiService.StripBoldKeepsPlain` | services/geminiService.ts:71 | text without `**` is left unchanged |
| `GeminiService.StripBoldStars` | services/geminiService.ts:71 | a run of k asterisks keeps one star when k is odd and none when k is even, so a lone `*` survives |
| `GeminiService.StripBoldSplit` | services/geminiService.ts:71 | a character other than `*` survives in place, and no removed pair straddles it: the removal works run by run |
| `GeminiService.StripBoldIdempotent` | services/geminiService.ts:71 | removing `**` twice is removing it once |
| `GeminiService.PromptExampleUsesOpener` | services/geminiService.ts:45-59 | the placeholder example in the prompt uses the same keyword the scan of that language looks for |
| `GeminiService.GenerateImage` | services/geminiService.ts:13-34 | an image slot resolves to `''` exactly when the image model fails, else to `data:image/png;base64,` followed by the bytes; it never fails itself |
| `GeminiService.Resolve` | services/geminiService.ts:90 | `Promise.all` keeps positions: slot i is the resolution of token i |
| `GeminiService.Classify` | services/geminiService.ts:92-96 | a slot is tagged image exactly when it starts with `data:image`, and its data is unchanged |
| `GeminiService.Assemble` | services/geminiService.ts:92-97 | every returned part is a non-blank slot tagged by its prefix; no part is invented |
| `GeminiService.AssembleAppend` | services/geminiService.ts:92-97 | tagging and filtering work slot by slot, so they distribute over concatenation |
| `GeminiService.AssembleKeeps` | services/geminiService.ts:97 | no non-blank slot is dropped |
| `GeminiService.AssembleNoBlank` | services/geminiService.ts:92-97 | with no blank slot, every slot becomes a part, in place |
| `GeminiService.GenerateQuestions` | services/geminiService.ts:36-103 | the method (request, strip, scan loop, resolve, tag and filter) returns exactly `Questions`, and its only error is "Gagal membuat soal. Silakan coba lagi." |
| `GeminiService.QuestionsFailure` | services/geminiService.ts:99-102 | the call fails exactly when the completion fails, with "Gagal membuat soal. Silakan coba lagi." |
| `GeminiService.QuestionsParts` | services/geminiService.ts:90-97 | every part is non-blank, tagged image exactly when it starts with `data:image`, and is the text or resolved image of a scanned token |
| `GeminiService.QuestionsWhenImagesFail` | services/geminiService.ts:26-97 | when the image of every directive in the reply fails and no text stretch starts with `data:image`, only text parts come back and none holds a directive |
| `GeminiService.QuestionsWithoutDirectives` | services/geminiService.ts:77-97 | a reply with no directive gives one part holding the whole stripped reply, or none when it is blank |
| `GeminiService.GenerateAnswerKey` | services/geminiService.ts:105-139 | the key fails exactly when the completion fails, with "Gagal membuat kunci jawaban. Silakan coba lagi."; otherwise it is the reply with `**` removed, so it holds no `**` and keeps every other character in order |
| `App.SoalToStringAppend` | App.tsx:9-16 | flattening distributes over concatenation of part lists |
| `App.SoalToStringOfText` | App.tsx:9-16 | a list with only text parts flattens to the plain concatenation of their data |
| `App.Toggled` | App.tsx:54-56 | the toggled theme differs from the current one |
| `App.ToggleTwice` | App.tsx:54-56 | toggling twice gives back the original theme |
| `App.Session.constructor` | App.tsx:31-36 | the session starts with no form data, no questions, an empty key, nothing loading and no error |
| `App.Session.ToggleTheme` | App.tsx:54-56 | the theme flips and nothing else changes |
| `App.Session.BeginGenerate` | App.tsx:59-63 | starting generation sets loading and clears error, questions, key and cached form data |
| `App.Session.CompleteGenerate` | App.tsx:65-74 | the awaited result is stored with the form data, or its message is stored with nothing cached; loading ends |
| `App.Session.HandleGenerateSoal` | App.tsx:58-75 | one question request is sent; the ghost `outcome` is the service result; on success the parts and the form data are stored together and the key can be asked for; on failure the thrown message is stored and the session stays cleared; loading ends |
| `App.Session.HandleShowKunci` | App.tsx:77-97 | without cached questions only the error "Silakan generate soal terlebih dahulu." is set and no request is sent; otherwise one key request for the flattened questions is sent, and the key or the thrown message is stored; the questions and the form data never change |
| `ResultDisplay.KeyButtonMatchesView` | App.tsx:110 | `canShowKunci` (questions held, an empty list counting, and an empty key) holds, when nothing loads and no error shows, exactly when the result panel shows results without a key card |
| `ResultDisplay.CopyTextAgrees` | components/ResultDisplay.tsx:12-19 | the copy text equals `soalToString` on every list of parts |
| `ResultDisplay.CopyTextLength` | components/ResultDisplay.tsx:12-19 | the copy text is as long as the text parts' data plus 8 per image part |
| `ResultDisplay.FlatLength` | App.tsx:9-16 | the flattened text is as long as the text parts' data plus 8 per image part |
| `ResultDisplay.RenderPart` | components/ResultDisplay.tsx:91-106 | a text part always renders as its text; an image part renders as an image exactly when its data is non-empty, and as nothing otherwise |
| `ResultDisplay.RenderParts` | components/ResultDisplay.tsx:91-106 | the card renders every part in place |
| `ResultDisplay.RenderContent` | components/ResultDisplay.tsx:59-124 | loading wins; then a non-empty error; then the placeholder when there are no questions; otherwise the results, whose key spinner shows exactly while the key loads and whose key card shows exactly when the key is non-empty |

## Left out

- The hosted models. Both are oracle parameters. The text model maps a request to a reply or a failure. The image model maps the enhanced prompt to bytes or a failure. Model names, the image configuration and logging are not modelled.
- The temperatures 0.7 and 0.3 are floats. They are kept as two named constants.
- The `API_KEY` check and client construction run once at start-up, outside the modelled functions.
- `Promise.all` fan-out: image requests start inside the scan loop and are awaited after it. The model resolves them after the scan, in token order, which is what the positional result shows. Interleaving of asynchronous work and stale in-flight requests are not modelled.
- React state batching: each handler is modelled as running to completion. `BeginGenerate` shows the state between the synchronous start and the awaited result of `handleGenerateSoal`.
- The theme's initial value and persistence use `localStorage`, `matchMedia` and the DOM. The initial theme is a constructor parameter.
- `GeneratorForm` and `Header` are presentation, as are the JSX markup, the CSS classes and the clipboard write.
- The natural-language wording of the prompts is kept as fixed text. Nothing is proved about what it says, beyond which variant is chosen, the fields and delimiters it embeds, and the placeholder keyword.
- `jumlah_soal` is a JavaScript number. It is modelled as an integer rendered in decimal; non-integer counts are not modelled.
- `err instanceof Error ? err.message : …`: the services only ever throw `Error` with their fixed messages. The fallback message is therefore unreachable and not modelled.
- Both oracles are total functions of their request, so two directives with the same description always get the same image, and the same request always gets the same reply. The hosted models are not deterministic.
- `IntToString` writes every integer in plain decimal. JavaScript writes counts of 1e21 and more in exponent form (`1e+21`); such counts are not modelled.
- Strings are sequences of Unicode scalar values, while JavaScript strings are UTF-16 code units. Lone surrogates cannot be represented, and `match.index`, `substring` bounds and the copy-text length are counted in code points rather than code units.
