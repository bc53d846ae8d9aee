# Kids' drawing mood analysis — a Dafny model of the client logic

The web client lets a user upload up to four drawings, pick one of four
persona characters, send both to an analysis backend and read the result
screen. This project models the sequential logic behind that flow and the
project-dump script kept beside it. Each part is modelled in the form its
source takes:

- `ImageUploader` — the upload list. A selection is appended and the list is
  cut back to four. Delete works by position. The "next" button and the add
  tile are gated on the list. There is one preview per file.
- `PersonaSelector` — the four fixed persona cards and single selection.
- `Api` — the response datatypes and the multipart form. The form is built by
  a loop that appends to a `FormData` object. Also here: the backend address
  and its fallback, and `analyzeImage`, with the network as a parameter.
- `EnergyText` — `formatEnergyText`:
  - the `.0%` → `%` replacement;
  - a hand-written matcher for the emphasis pattern, proved equal to a
    declarative reading of that pattern;
  - the JavaScript split with a capture group;
  - the global-regex `test`, whose `lastIndex` carries over from one piece to
    the next.
- `AnalysisResult` — the other pure derivations of the result screen: the
  keyword items and their shuffle (any permutation), the row-alignment table,
  the persona theme and its fallback, the five-axis chart table, and the
  commentary sections taken by position.
- `Page` — the page itself, as the class `Home` with the page's six state
  cells. Its methods are the event handlers: start, the uploader's add,
  delete and next, the persona click, start analysis with success or
  failure, and reset. `Valid()` is the invariant every handler keeps. From
  the state follow the screen shown, the background class and the state of
  the analyse button.
- `Extract` — `extract.py`:
  - the `is_text_file` predicate, the ignore lists and the per-file skip rule;
  - the in-place pruning of directories;
  - the walk, as a value over a given directory tree;
  - a `while` loop over a worklist, proved to write exactly the header
    followed by one START/content/END block per written file, in walk order.
- `Wrappers`, `Strings` — `Option` and string concatenation of a list.

The network call, `process.env`, `URL.createObjectURL`, `Math.random`, the
file system and `os.getcwd` are parameters of the model:

- `transport` is the network and the backend behind it;
- `configured` is the environment value;
- `mint` turns a file into a preview URL;
- `order` is the outcome of the random sort;
- a `Dir` value is the tree `os.walk` would list;
- `cwd` is the working directory.

## Behaviour worth knowing

- **Loading is an overlay, not a screen.** Loading is a flag drawn as an
  overlay on the persona step. `Home.Screen` therefore has four screens, and
  `loading` is true only inside `HandleStartAnalysis`.
- **Delete works by position.** Delete filters the list by position, so an
  index that names no file removes nothing (`ImageUploader.Removed`).
- **Reset.** Reset is offered only by the result screen, and it does not
  touch the loading flag. `HandleReset` produces the initial state from
  every state that satisfies `Valid()`, and those are the states in which
  the loading flag is off.
- **Python sets.** The script's sets are modelled as sequences in the
  script's listed order, and membership is the recursive `Extract.Listed`.
  `Extract.ListedIff` proves that `Listed` is the same as Dafny's `in`.

## Model

| member | source | states |
|---|---|---|
| ImageUploader.Added | frontend/src/components/ImageUploader.tsx:21-27 | An empty selection leaves the list unchanged. Otherwise the length is min(\|prev\|+\|new\|, 4) and element k is prev[k], or the selection's element k-\|prev\| past the old end. |
| ImageUploader.Removed | frontend/src/components/ImageUploader.tsx:29-31 | A valid index gives length n-1, keeps the elements before it and shifts the later ones down by one. An out-of-range index (negative too) leaves the list unchanged. |
| ImageUploader.NextDisabled | frontend/src/components/ImageUploader.tsx:88-90 | "Next" is disabled exactly when no file is chosen. |
| ImageUploader.Previews | frontend/src/components/ImageUploader.tsx:15-19 | One preview per file, in file order. |
| ImageUploader.AddToFullIsNoop | frontend/src/components/ImageUploader.tsx:24 | Any selection added to a full list leaves it unchanged. |
| ImageUploader.AddKeepsPrefix | frontend/src/components/ImageUploader.tsx:24 | An add never alters the first min(\|prev\|, 4) files. |
| ImageUploader.UpdatesStayWithinCap | frontend/src/components/ImageUploader.tsx:24-30 | Add and delete both keep a list of at most four files within four. |
| ImageUploader.AddTileShown | frontend/src/components/ImageUploader.tsx:58 | No contract of its own. Specified by `AddTileMeansRoom`. |
| ImageUploader.AddTileMeansRoom | frontend/src/components/ImageUploader.tsx:58 | The add tile is shown exactly when one more picked file would change the list. |
| ImageUploader.PreviewsFollowRemove | frontend/src/components/ImageUploader.tsx:15-31 | The previews after a delete are the old previews with the same position deleted. |
| ImageUploader.PreviewsFollowAdd | frontend/src/components/ImageUploader.tsx:15-24 | The previews after an add are the old previews extended by the same rule as the files. |
| PersonaSelector.IsSelected | frontend/src/components/PersonaSelector.tsx:44 | No contract of its own. Specified by `SelectedFlags`, `AtMostOneSelected` and `ClickSelectsExactlyThatCard`. |
| PersonaSelector.Clicked | frontend/src/components/PersonaSelector.tsx:42 | A click sets the persona to a card's name, whatever was selected before. |
| PersonaSelector.SelectedFlags | frontend/src/components/PersonaSelector.tsx:39-54 | One flag per card: the card is drawn selected exactly when its name equals the persona. |
| PersonaSelector.OptionNamesDistinct | frontend/src/components/PersonaSelector.tsx:10-35 | The constant `Options` models this array: exactly four options, in source order, with pairwise distinct names. |
| PersonaSelector.AtMostOneSelected | frontend/src/components/PersonaSelector.tsx:44-54 | A null persona selects no card. In every case at most one card is selected. |
| PersonaSelector.ClickSelectsExactlyThatCard | frontend/src/components/PersonaSelector.tsx:42-44 | After a click on card i, card j is selected exactly when j = i. |
| Api.FormData.constructor | frontend/src/lib/api.ts:42 | A new form has no entries. |
| Api.FormData.Append | frontend/src/lib/api.ts:47 | Append adds exactly one entry at the end. |
| Api.FileParts | frontend/src/lib/api.ts:46-48 | One `files` entry per file, holding that file, in input order. |
| Api.FormFor | frontend/src/lib/api.ts:46-51 | No contract of its own. Specified by `FormRoundTrip`; `BuildForm` is proved to build it. |
| Api.BuildForm | frontend/src/lib/api.ts:42-51 | The loop yields \|files\|+1 entries: the files under `files` in order, then one `persona` entry equal to the argument. |
| Api.FormRoundTrip | frontend/src/lib/api.ts:46-51 | Reading the form back gives exactly the files under `files`, in order. `persona` has exactly one value, the argument, and it sits after every file. |
| Api.BackendUrl | frontend/src/lib/api.ts:57 | A configured non-empty value is used as is. An unset or empty one falls back to `http://localhost:8000`. |
| Api.AnalyzeUrl | frontend/src/lib/api.ts:60 | The URL is the base followed by `/api/analyze`, unaltered. |
| Api.AnalyzeImage | frontend/src/lib/api.ts:39-74 | It sends exactly the built form to the analyze URL. It returns the response body unchanged on success and nothing on failure. |
| EnergyText.CleanPercents | frontend/src/components/AnalysisResult.tsx:164 | The replacement never lengthens the text. |
| EnergyText.CleanPercentsUnchangedIff | frontend/src/components/AnalysisResult.tsx:164 | The text is unchanged exactly when it contains no `.0%`. |
| EnergyText.CleanPercentsExamples | frontend/src/components/AnalysisResult.tsx:164 | `85.0%` becomes `85%`, and `85.5%` is kept. |
| EnergyText.MatchEnd | frontend/src/components/AnalysisResult.tsx:167 | A match found at the start has a positive length within the text. |
| EnergyText.MatchEndIsMatch | frontend/src/components/AnalysisResult.tsx:167 | The matcher reports length n exactly when the first n characters are "Hangul word, one space, digits, optional fraction, %". So at most one match starts at a position. |
| EnergyText.SplitFrom | frontend/src/components/AnalysisResult.tsx:169 | No contract of its own. Specified by `SplitFromConcat` and `SplitFromAlternates`. |
| EnergyText.Split | frontend/src/components/AnalysisResult.tsx:169 | No contract of its own. Specified by `SplitConcat` and `SplitAlternates`. |
| EnergyText.SplitConcat | frontend/src/components/AnalysisResult.tsx:169 | The pieces of the capture-group split concatenate back to the cleaned text. |
| EnergyText.SplitAlternates | frontend/src/components/AnalysisResult.tsx:169 | The split has an odd number of pieces. Even pieces contain no match, and each odd piece is exactly one whole match. |
| EnergyText.Test | frontend/src/components/AnalysisResult.tsx:171 | No contract of its own. Specified by `TestMisses`, `TestHits` and `FlagsAlternate`. |
| EnergyText.TestMisses | frontend/src/components/AnalysisResult.tsx:171 | A piece that contains no match fails the test from any `lastIndex` and resets it to 0. |
| EnergyText.TestHits | frontend/src/components/AnalysisResult.tsx:171 | A piece that is one whole match passes the test from 0 and leaves `lastIndex` at its end. |
| EnergyText.EmphasisFlags | frontend/src/components/AnalysisResult.tsx:169-171 | One flag per piece. What the flags are is stated by `FlagsAlternate`. |
| EnergyText.FlagsAlternate | frontend/src/components/AnalysisResult.tsx:169-171 | On the pieces of a split, whatever the starting `lastIndex`, the flag of piece i is set exactly when i is odd. |
| EnergyText.FormatEnergyText | frontend/src/components/AnalysisResult.tsx:160-176 | No contract of its own. Specified by `FormatEnergyTextSpec`. |
| EnergyText.FormatEnergyTextSpec | frontend/src/components/AnalysisResult.tsx:160-176 | An empty text renders as nothing. Otherwise the spans spell out the cleaned text in order. A span is emphasised exactly when it matches the pattern, which happens exactly at the odd positions. |
| AnalysisResult.At | frontend/src/components/AnalysisResult.tsx:43 | Indexing inside the array gives the element. Indexing past the end gives `undefined`. |
| AnalysisResult.Keywords | frontend/src/components/AnalysisResult.tsx:41-46 | One item per `word_cloud` entry. Item i has word i, colour `top_5_colors[i]` (absent when that list is shorter), size class i and original index i. |
| AnalysisResult.SizeClassFor | frontend/src/components/AnalysisResult.tsx:43 | No contract of its own. Specified by `SizeClassTable`. |
| AnalysisResult.SizeClassTable | frontend/src/components/AnalysisResult.tsx:33-44 | Positions 0-4 get the five descending sizes. Every later position gets `text-[24px]`. |
| AnalysisResult.Indices | frontend/src/components/AnalysisResult.tsx:45 | The original positions 0..n-1. |
| AnalysisResult.Pick | frontend/src/components/AnalysisResult.tsx:48 | Place k holds the item at the original position `order[k]`. |
| AnalysisResult.PickPermutes | frontend/src/components/AnalysisResult.tsx:48 | Picking by an index permutation is a permutation of the items, as multisets. |
| AnalysisResult.Shuffled | frontend/src/components/AnalysisResult.tsx:48 | The shuffled copy keeps the length and the multiset of the keywords. Each place holds the item of one original position. |
| AnalysisResult.RowAlignment | frontend/src/components/AnalysisResult.tsx:148-157 | No contract of its own. Specified by `RowAlignmentTable` and `RowPlacementsDistinct`. |
| AnalysisResult.RowAlignmentTable | frontend/src/components/AnalysisResult.tsx:148-157 | The alignment function is total. Indices 0-4 map to their five fixed classes, and every other integer maps to `justify-start`. |
| AnalysisResult.RowPlacementsDistinct | frontend/src/components/AnalysisResult.tsx:148-157 | The first five rows get five different placements. Every other index is placed like row 0. |
| AnalysisResult.KeywordRows | frontend/src/components/AnalysisResult.tsx:216-217 | One rendered row per keyword. |
| AnalysisResult.RowWords | frontend/src/components/AnalysisResult.tsx:216-217 | The words of the rows, in row order. |
| AnalysisResult.KeywordCloudShowsEachOnce | frontend/src/components/AnalysisResult.tsx:216-217 | The cloud shows each keyword exactly once, as multisets. The rows' React keys are pairwise distinct. A row's alignment depends only on its position. |
| AnalysisResult.IndexOrderDistinct | frontend/src/components/AnalysisResult.tsx:45-48 | No original position appears twice in the shuffled order. |
| AnalysisResult.ThemeFor | frontend/src/components/AnalysisResult.tsx:71 | No contract of its own. Specified by `UnknownPersonaFallsBack` and `OptionsHaveOwnThemes`. |
| AnalysisResult.UnknownPersonaFallsBack | frontend/src/components/AnalysisResult.tsx:71 | A name missing from the theme table, the empty name included, gets the 마음박사 페페 theme. |
| AnalysisResult.OptionsHaveOwnThemes | frontend/src/components/AnalysisResult.tsx:52-69 | Every card name is a key of the theme table, so the fallback is never taken for a card. The four themes are distinct. A card's selected colour is its theme's main colour. |
| AnalysisResult.ChartData | frontend/src/components/AnalysisResult.tsx:82-88 | Always five points, in the fixed axis order. Point i carries axis i's label and the `energy_chart` value under axis i's key (absent when missing). |
| AnalysisResult.ChartReadsOnlyItsAxes | frontend/src/components/AnalysisResult.tsx:82-88 | Extra keys in the scores do not change the chart. The five labels are distinct. Each point has a score when all five keys are present. |
| AnalysisResult.Contents | frontend/src/components/AnalysisResult.tsx:274 | The content of each section, in list order. |
| AnalysisResult.Layout | frontend/src/components/AnalysisResult.tsx:196-274 | No contract of its own. Specified by `LayoutShowsEverySection`. |
| AnalysisResult.Rendered | frontend/src/components/AnalysisResult.tsx:196-274 | No contract of its own. Specified by `LayoutShowsEverySection`. |
| AnalysisResult.LayoutShowsEverySection | frontend/src/components/AnalysisResult.tsx:196-274 | Section 0 is the intro, 1 the keyword commentary and 2 the energy commentary; `slice(3)` gives the solutions. What is rendered is every section's content once, in list order. A missing section renders nothing. |
| Page.BgColorsAreThemeHighlights | frontend/src/app/page.tsx:17-22 | Every card name is a key of the background table, and its colour is `bg-[...]` of the theme's highlight. |
| Page.Home.constructor | frontend/src/app/page.tsx:9-14 | The cells start not started, on step 1, with no files, no persona, no result and not loading. That state is valid and shows the landing screen. |
| Page.Home.Screen | frontend/src/app/page.tsx:46-121 | Landing exactly when not started. Otherwise the result screen exactly when a result is present, then the uploader on step 1 and the persona chooser otherwise. |
| Page.Home.BgClass | frontend/src/app/page.tsx:73 | Without both a result and a truthy persona, the background is the default `bg-[#EBF5FF]`. |
| Page.Home.AnalyzeDisabled | frontend/src/app/page.tsx:114 | The button is disabled exactly when the persona is null or the empty name (JavaScript `!persona`). On the persona step of a valid page it is disabled exactly when the handler's guard (line 25) would stop the request. |
| Page.Home.Start | frontend/src/app/page.tsx:59 | Landing becomes the uploader screen. Only `isStarted` changes. |
| Page.Home.ChooseFiles | frontend/src/components/ImageUploader.tsx:21-27 | The files cell becomes `Added(old files, selection)`. Nothing else changes, and the state stays valid on the upload screen. |
| Page.Home.RemoveFile | frontend/src/components/ImageUploader.tsx:29-31 | The files cell becomes `Removed(old files, index)`. Nothing else changes. |
| Page.Home.UploaderNext | frontend/src/app/page.tsx:105 | With files, step 1 becomes step 2 (the persona chooser). With no files the disabled button changes nothing. |
| Page.Home.SelectPersona | frontend/src/app/page.tsx:112 | The persona becomes the clicked card's name and the analyse button is enabled. Nothing else changes. |
| Page.Home.HandleStartAnalysis | frontend/src/app/page.tsx:24-36 | It is a no-op with no files or no persona. Otherwise it posts the built form. On success `result` is the returned body; on failure `result` is unchanged, so the page stays on the persona step. Loading ends false. Files, persona and step are unchanged. |
| Page.Home.HandleReset | frontend/src/app/page.tsx:38-44 | From any valid state, reset gives the one initial state (so it is idempotent), which shows the landing screen. |
| Page.ResultBackgroundMatchesTheme | frontend/src/app/page.tsx:73 | On the result screen the background is defined. It is the highlight colour of the theme the result screen shows, which is the persona's own theme. |
| Page.OtherScreensUseDefaultBackground | frontend/src/app/page.tsx:73 | Off the result screen the background is the default. |
| Extract.IsTextFile | extract.py:24-26 | No contract of its own. Specified by `IsTextFileReduced` and `EndsWithAnyIff`. |
| Extract.EndsWithAnyIff | extract.py:26 | The `any(endswith ...)` test holds exactly when some listed ending is a suffix of the name. |
| Extract.IsTextFileReduced | extract.py:19-26 | The `requirements.txt` entry and the bare `Dockerfile` name are redundant. The first twelve endings and the name `Makefile` decide. |
| Extract.ShouldWrite | extract.py:40-52 | No contract of its own. Specified by `ShouldWriteIff`. |
| Extract.ShouldWriteIff | extract.py:40-52 | A file is written exactly when it is not in `ignore_files`, is a text file, and is neither `project_code.txt` nor `extract.py`. |
| Extract.LockFileIsSkipped | extract.py:13-26 | `package-lock.json` is a text file by `.json` and is still skipped. |
| Extract.SecretsAreSkipped | extract.py:13-16 | `.env` and `.env.local` are skipped. |
| Extract.ScriptSkipsItself | extract.py:50-52 | The dump file and the script are text files and are still skipped. |
| Extract.TsxSourceIsWritten | extract.py:19-26 | A `.tsx` source file is written. |
| Extract.PythonSourceIsWritten | extract.py:19-26 | A `.py` source file is written. |
| Extract.BuildFilesAreWritten | extract.py:24-26 | `Dockerfile` and `Makefile` are written. |
| Extract.Prune | extract.py:37 | Pruning keeps exactly the subdirectories whose names are not ignored, and never lengthens the list. |
| Extract.PruneConcat | extract.py:37 | Pruning distributes over concatenation. With `PruneOne`, this makes it the order-preserving filter. |
| Extract.PruneOne | extract.py:37 | A single directory is kept exactly when its name is not ignored. |
| Extract.FileVisits | extract.py:39 | The files of a directory are visited in listing order, each with that directory's path. |
| Extract.Visits | extract.py:35-37 | No contract of its own. Specified by `FileVisits`, `PruneOne` and `VisitsAvoidIgnored`. |
| Extract.ForestVisits | extract.py:35-37 | No contract of its own. Specified by `ForestAvoidsIgnored`. |
| Extract.VisitsAvoidIgnored | extract.py:35-37 | Every file the walk reaches lies below kept directories only. |
| Extract.ForestAvoidsIgnored | extract.py:35-37 | Every file reached from a list of kept siblings lies below kept directories only. |
| Extract.Header | extract.py:32-33 | No contract of its own. Specified by `RuleWidths` and `CollectProjectCode`. |
| Extract.StartLine | extract.py:59 | No contract of its own. Specified by `RuleWidths` and `UnframeBlock`. |
| Extract.EndLine | extract.py:61 | No contract of its own. Specified by `RuleWidths` and `UnframeBlock`. |
| Extract.Block | extract.py:59-61 | No contract of its own. Specified by `UnframeBlock`. |
| Extract.RuleWidths | extract.py:33 | The header rule is fifty `=` and the block rules are twenty `=`. |
| Extract.UnframeBlock | extract.py:59-61 | A file's content can be read back out of its block, whatever it contains. |
| Extract.FramedEmptyIff | extract.py:59-61 | The text after the header is empty exactly when no file is written. |
| Extract.Kept | extract.py:39-65 | At most one entry per visited file. |
| Extract.KeptOne | extract.py:54-65 | A visited file gives its relative path and content when it passes the rule and can be read, and nothing otherwise. |
| Extract.ReadFailureIsSkipped | extract.py:54-65 | A file whose read fails contributes nothing, and the files around it are written as before. |
| Extract.KeptExactly | extract.py:39-65 | Each written entry comes from a visited, readable file that passes the rule, and each such file is written. |
| Extract.WriteFiles | extract.py:39-65 | The inner loop writes exactly the blocks of the directory's written files, in listing order. |
| Extract.WalkStep | extract.py:35-37 | One round of the walk leaves out + rest-to-write unchanged and shrinks the work left. |
| Extract.Dump | extract.py:28-65 | No contract of its own. Specified by `CollectProjectCode`, `KeptExactly` and `FramedEmptyIff`. |
| Extract.CollectProjectCode | extract.py:28-65 | The loop writes exactly the header `Project Root: {cwd}\n` + fifty `=` + `\n\n`, then one START/content/END block per written file, in walk order. |

## Left out

- JSX markup, Tailwind classes other than the lookup tables above, the radar chart's drawing and `renderCustomTick` (AnalysisResult.tsx:90-146): presentation only.
- `URL.createObjectURL`/`revokeObjectURL` and the React effect lifecycle: previews are modelled as one value per file, minted by a parameter. Releasing them is not modelled.
- `Math.random` and the comparator sort: the shuffle is any index permutation (`order`). The distribution of outcomes is not modelled.
- The async suspension of `handleStartAnalysis`: the loading overlay while it waits, the possibility of a second submission during the wait, `console.error` and `alert`. The call is one atomic step with the outcome given by `transport`.
- axios itself, HTTP status handling and JSON decoding: any thrown error is `Failure`, and a decoded body is `Success(data)`; a malformed body is not modelled.
- layout.tsx, the whole backend (services.py, main.py, database.py, models.py) and the Gemini call: not part of this model. The schemas appear only as the `Api` response datatypes.
- Energy scores are floats in the source: they are `real` here and only passed through.
- JavaScript strings are UTF-16: the model works on Dafny characters. Hangul syllables and the other characters used are single code units, and astral-plane characters are not modelled.
- Prototype keys of JavaScript object lookups (e.g. a persona named `constructor`): the theme and background tables are plain maps.
- Page.Home.ChooseFiles, RemoveFile, UploaderNext, SelectPersona and HandleStartAnalysis are called only on the screen where their control is rendered; that screen is their precondition, beside `Valid()`.
- Page.Home.HandleReset: requires `Valid()`, because the reset button exists only on the result screen, where the loading flag is off; reset itself never touches the flag.
- `os.walk`, `open`, `read` and `print`: the tree is a `Dir` value. A file's content is `None` when opening or decoding fails. Console messages are left out.
- A `FileEntry`'s content is the text `f.read()` returns. Text mode turns `\r\n` and `\r` into `\n`, so `UnframeBlock` gives back that text, not the bytes on disk.
- File names with bytes that do not decode (the surrogate escapes of `os.walk`) make the START write raise, so that file is skipped. Such names cannot be written as Dafny strings, so the model does not cover them.
- `os.path.join`/`relpath` use `/` as separator. The Windows separator, symbolic links, walk errors and files changing during the walk are not modelled.
- The order of the checks inside the file loop: `rel_path` is computed before the self-check, but that has no visible effect, so the model applies the checks as one rule.
