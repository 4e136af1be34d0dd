# Artistic riddle generator: client-side bookkeeping

This project models the logic a browser app runs around its calls to a generative AI service. The app generates themed "artistic riddles" and pictures for them. The service's answers are inputs to the model: a total function for the text model, and a reply value for the image model. The model covers three areas:

- **Riddle numbering and the previous-riddle context** (`GeminiService`). The client asks for riddle number `|history| + 1`. It overwrites whatever number the model writes into its answer. The prompt quotes the last riddle of the history, and that riddle's description is cut to 150 characters.
- **The theme view** (`Generator`, class `GeneratorView`). It keeps the selected theme, the riddle history, the loading and improving flags and the error message. It has handlers for:
  - selecting a theme;
  - generating the next riddle;
  - improving a description;
  - resetting.

  Local storage is modelled as one in-memory store, `GeminiService.Storage`. It maps a theme key to that theme's history. The class invariant `Valid()` says the history on screen is always the selected theme's stored history. Every handler preserves it.
- **The image dialog** (`ImageModal`, class `ImageGenerationModal`). It checks the image service's reply, sets its loading, images and error state, and builds the file name a picture is saved under.

Failed calls are classified the same way at all three call sites (`ErrorClassifier`). The rate-limit message is shown exactly when the error text contains `429`, `RESOURCE_EXHAUSTED` or `Quota exceeded`. Otherwise the call site's own failure message is shown. Messages are in English when the theme title contains an ASCII letter, and in Arabic otherwise.

`Strings` gives the JavaScript string operations these rely on. Each comes with a reference meaning:

- `includes`;
- `trim`;
- `replace(/\s/g, …)`;
- `/[a-zA-Z]/.test`;
- `substring(0, n)`;
- how a template literal renders an integer.

## Model

| member | source | states |
|---|---|---|
| `Strings.Includes` | components/GeneratorView.tsx:48 | `includes` is true exactly when the pattern occurs at some position of the text |
| `Strings.Trim` | services/geminiService.ts:117 | the result is a slice of the input with only white space before and after it, and it neither starts nor ends with white space |
| `Strings.TrimUnique` | services/geminiService.ts:117 | those conditions determine the trimmed text uniquely |
| `Strings.ReplaceWhitespace` | components/ImageGenerationModal.tsx:47 | same length as the input; every white-space character becomes the replacement and every other character is kept |
| `Strings.HasAsciiLetter` | components/GeneratorView.tsx:34 | `isEnglish` is true exactly when the title contains a character in a–z or A–Z |
| `Strings.Prefix` | services/geminiService.ts:30 | `substring(0, n)` keeps the first min(n, length) characters, a prefix of the input |
| `Strings.DecimalRoundTrip` | services/geminiService.ts:28 | reading back the digits a non-negative number is rendered with gives that number |
| `Strings.IntRoundTrip` | components/ImageGenerationModal.tsx:47 | the rendering of any integer reads back as that integer |
| `Strings.IntToStringInjective` | components/ImageGenerationModal.tsx:47 | different integers are rendered differently |
| `Types.StoredHistoryReadsBack` | components/GeneratorView.tsx:21 | in an empty store every theme's history is empty, and after a theme's entry is written its history reads back as exactly what was written |
| `Types.ThemeKeyInjective` | components/GeneratorView.tsx:42 | different theme ids use different keys of the store |
| `GeminiService.ContextOfLastRiddle` | services/geminiService.ts:26-33 | for a non-empty history the last riddle's number stands right after the opening words, its title right after the title label, and the first min(150, length) characters of its description right after the idea label; the length is that of the fixed text plus these three parts |
| `GeminiService.ContextFixedHead` | services/geminiService.ts:27-29 | the context starts with the fixed opening, and the fixed title label stands right after the riddle number |
| `GeminiService.ContextFixedTail` | services/geminiService.ts:29-33 | the fixed idea label stands right after the title, and the fixed closing right after the description excerpt |
| `GeminiService.FirstContextOnlyForEmptyHistory` | services/geminiService.ts:22-33 | the context is the first-riddle sentence if and only if the history is empty |
| `GeminiService.ContextIgnoresEarlierRiddles` | services/geminiService.ts:26 | two histories that end in the same riddle give the same context |
| `GeminiService.CorrectedRiddle` | services/geminiService.ts:78-81 | the kept riddle carries the expected number, and its title, description and solution are as parsed; a riddle that already carries the expected number is returned unchanged |
| `GeminiService.GenerateRiddle` | services/geminiService.ts:36-88 | the model is asked for number `|existingRiddles| + 1` with the previous-riddle context. An answer comes back corrected to that number, whatever number it carried. A rejection is passed on unchanged |
| `GeminiService.ImproveRiddleDescription` | services/geminiService.ts:91-123 | a successful answer comes back trimmed, with no white space at either end; a rejection is passed on unchanged |
| `GeminiService.Storage.constructor` | services/geminiService.ts:163-166 | with nothing saved yet, the store reads as the empty map |
| `GeminiService.Storage.SaveStoredData` | services/geminiService.ts:168-170 | after a save, reading the store gives back exactly the saved map |
| `ErrorClassifier.ClassifiedByMessageFirst` | components/GeneratorView.tsx:45-48 | a rejected call with a non-empty message counts as rate-limited exactly when that message mentions a marker, whatever its serialisation, and two calls with the same such message are classified alike; a call without one is classified by its serialisation |
| `ErrorClassifier.IsRateLimited` | components/GeneratorView.tsx:48 | true exactly when the error text contains `429`, `RESOURCE_EXHAUSTED` or `Quota exceeded` |
| `Generator.GenerateErrorMessage` | components/GeneratorView.tsx:44-57 | a failed generation shows the rate-limit message exactly when the error text mentions a marker, and the generation-failure message otherwise, in the language chosen |
| `Generator.ImproveErrorMessage` | components/GeneratorView.tsx:85-99 | the same classification, with the improvement-failure message |
| `Generator.WithDescription` | components/GeneratorView.tsx:72-76 | the length and every riddle's number, title and solution are kept. Riddles with the target number get the new description. All other riddles are identical |
| `Generator.GenerationKeepsNumbering` | components/GeneratorView.tsx:36-38 | a history numbered 1, 2, …, n stays numbered 1, …, n + 1 after a generation, whatever number the model wrote |
| `Generator.ImproveTouchesOneRiddle` | components/GeneratorView.tsx:72-76 | in a history numbered 1, 2, …, improving riddle k changes exactly that riddle's description |
| `Generator.OtherThemesUnchanged` | components/GeneratorView.tsx:41-43 | writing one theme's entry leaves every other theme's stored history as it was |
| `Generator.GeneratorView.constructor` | components/GeneratorView.tsx:11-15 | no theme is selected, the history is empty, nothing is loading or improving, and there is no error |
| `Generator.GeneratorView.HandleSelectConcept` | components/GeneratorView.tsx:18-27 | selecting a theme loads its stored history, or the empty history when none is stored |
| `Generator.GeneratorView.HandleGenerateNextRiddle` | components/GeneratorView.tsx:29-61 | on success the history grows by exactly the corrected riddle and the store entry for the theme becomes the new history, with every other entry unchanged. On failure the history and the store are unchanged and only the classified error is set. Loading is off afterwards. With no theme selected nothing changes |
| `Generator.GeneratorView.HandleImproveDescription` | components/GeneratorView.tsx:63-103 | on success the history becomes `WithDescription` of the trimmed answer and the store entry for the theme becomes the new history. On failure only the classified error is set. The improving marker is cleared afterwards. With no theme selected nothing changes |
| `Generator.GeneratorView.HandleReset` | components/GeneratorView.tsx:113-117 | no theme is selected, the history is empty, and the error is cleared |
| `ImageModal.ImageErrorMessage` | components/ImageGenerationModal.tsx:27-36 | a rejected image call shows the rate-limit message exactly when the error text mentions a marker, and the image-failure message otherwise |
| `ImageModal.ErrorAfterGenerateAsWritten` | components/ImageGenerationModal.tsx:21-36 | as written, no error is left exactly when the reply is a non-empty list; a rejected call leaves its classified message; any error left is the rate-limit message or the image-failure message |
| `ImageModal.NoImagesMessageMentionsNoRateLimit` | components/ImageGenerationModal.tsx:24 | the text of the Error raised for an empty list contains none of the three rate-limit markers, in either language |
| `ImageModal.NoImagesMessageLostAsWritten` | components/ImageGenerationModal.tsx:21-36 | as written, an empty list of images shows the generic image-failure message, never the message raised for it |
| `ImageModal.EmptyResultIsDistinct` | components/ImageGenerationModal.tsx:23-25 | an empty list of images leaves the no-images message, which no rejected call can leave; a list leaves no error exactly when it is non-empty |
| `ImageModal.DownloadFileName` | components/ImageGenerationModal.tsx:47 | the name is at least thirteen characters longer than the title and ends in `.jpeg` |
| `ImageModal.DownloadFileNameParts` | components/ImageGenerationModal.tsx:47 | the name begins with the title, as long as the title and with each white-space character replaced by `_`. Then come `_R` and the riddle number, then `_img` and the 1-based index, and it ends in `.jpeg` |
| `ImageModal.DownloadFileNamesDistinct` | components/ImageGenerationModal.tsx:47 | two pictures of the same riddle get different file names |
| `ImageModal.ImageGenerationModal.constructor` | components/ImageGenerationModal.tsx:13-15 | the dialog opens loading, with no images and no error |
| `ImageModal.ImageGenerationModal.Generate` | components/ImageGenerationModal.tsx:18-40 | a non-empty list is stored exactly as returned and leaves no error. An empty list or a rejected call leaves the images as they were and sets the error the code as written leaves: for an empty list, the generic image-failure message. Loading is off afterwards |

## Left out

- The calls to the text and image services are not modelled, and neither are their model names, temperatures, response schema, image count and aspect ratio. They are foreign network calls, so the model takes their answers as parameters. `generateImageFromRiddle`, which only makes the image call and extracts the payloads, is one of them.
- The prompt wording is fixed text, apart from the previous-riddle context. It appears in the model only through the arguments the text model receives.
- `JSON.parse` and `JSON.stringify` are not modelled. The stored document is assumed to read back exactly as saved. A corrupt document that fails to parse is not modelled.
- `console.warn` and `console.error` diagnostics are not modelled.
- The `await` inside each handler is not modelled. A handler runs to completion in one step, so the states in between are not observable: loading on, the improving marker set, and the error cleared while the call is pending. An improvement and a generation that overlap are not modelled either.
- `handleStartImageGeneration` and `handleCloseModal` only set or clear the riddle the dialog is open for, so they are left out. Rendering, the text direction and button labels are left out too.
- The dialog re-running its request when its riddle or language changes is not modelled. Neither is a request that finishes after the dialog was closed.
- `handleDownload` creates and clicks a link in the page. Only the file name it builds is modelled.
- JavaScript numbers are modelled as integers. How non-integral numbers are rendered in the context and the file name is not modelled. Neither is the exponent form JavaScript uses for integers of magnitude 10^21 or more (`1e+21`): the decimal rendering, and `Strings.IntRoundTrip` and `Strings.IntToStringInjective` with it, describe the model's digit-by-digit rendering for every integer. Riddle numbers (history length plus one) and theme ids (1 to 6, constants.tsx:32-62) stay far below that bound.
- Strings are sequences of Unicode characters rather than UTF-16 code units. `substring` and `\s` are modelled on characters, with `\s` as JavaScript's fixed set of white-space characters.
- A stored `null` for a theme (which `|| []` would also turn into an empty history) cannot occur in the modelled store.
- `GeminiService.GenerateRiddle` does not modify the history it is given. This holds by construction, because histories are values; the model cannot express aliasing of the array.

## Findings

| source | as written | input that shows it | evidently intended | confidence | as-written member | corrected member |
|---|---|---|---|---|---|---|
| components/ImageGenerationModal.tsx:23-36 | the Error raised for an empty image list is thrown inside the `try`, so the `catch` classifies its text like any rejected call and replaces it. The "no images / rejected for safety reasons" message is never shown | the image service returns an empty list | the empty result is reported with its own no-images message, distinct from a transport failure | not executed; high | `ImageModal.NoImagesMessageLostAsWritten` | `ImageModal.EmptyResultIsDistinct` |

The class `ImageModal.ImageGenerationModal` models the code as written: `Generate` leaves `ImageModal.ErrorAfterGenerateAsWritten`. The corrected behaviour is `ImageModal.ErrorAfterGenerate`, whose properties `ImageModal.EmptyResultIsDistinct` proves. The no-images texts are written as concatenations of short pieces so that the verifier can check their characters; their value is the text the code raises.
