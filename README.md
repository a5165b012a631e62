# morpho-wasm, modelled in Dafny

morpho-wasm gives a browser or Node program morphological analysis,
generation and "join" decisions for several languages. It has two runtimes.
The rule runtime works from suffix rules and a stemmer. The engine-backed
runtime talks to a worker that hosts an HFST transducer compiled to
WebAssembly. This project models the parts of the system that decide
something:

- the C++ shim exported by the WebAssembly module (`Shim`): two transducer
  slots, lookups formatted one result per line, and the size-then-copy calling
  convention;
- the worker's calls into that module (`EngineCalls`): the sentinels, the
  two-phase lookups, and the `apply_up` and `apply_down` outputs;
- the three ways the source reads analyser output (`AnalysisParse`):
  - the Apertium `surface<TAB>lemma<tags>ε<TAB>weight` lines of the worker;
  - the `lemma+TAG` lines of the bundled worker;
  - the first-word reading of the engine-backed runtime;
- pack loading (`PackLoading`):
  - the SHA-256 integrity test on hexadecimal text;
  - gzip detection and chunk assembly;
  - mount paths;
  - the loader entry-point fall-back;
- the two message handlers (`WorkerHost.Host` for `packages/core/src/worker.ts`
  and `DistWorkerHost.Host` for `packages/core/dist-worker/worker.js`), as
  classes whose fields are the worker's state;
- the two join coordinators (`WorkerJoin`, `DistWorkerJoin`): a tier driven by
  morphological features and a tier of language rules (French elision, Spanish
  clitics and contractions, German compounds);
- the two clients:
  - `QueueClient.Client`, the bundled client, which keeps a FIFO queue and has
    one request in flight;
  - `SlotClient.Client`, the source client, which has one slot and rejects a
    second concurrent request;
- the rule runtime (`RuleRuntime`): pluralisation, generation, analysis by
  stemming, and the per-language join rules;
- the runtime configuration and the engine-backed runtime (`MorphRuntime`):
  tag ordering before generation, and the switch between runtimes;
- the joiner package (`Joiner`);
- the pack fetcher's pure parts (`PackFetcher`): command-line parsing, language
  code mapping, saved file names, and the in-memory update of the pack index.

Shared definitions:

- `Text` holds the JavaScript string operations the source relies on:
  `trim`, `split`, `join`, `toLowerCase`, and white-space removal.
- `Protocol` holds the request, response, analysis and join-decision values
  that cross the worker boundary.

Everything outside the process is a parameter or a function-valued field:

- the WebAssembly module is an `Engine` record;
- fetch, the cache, the file system, SHA-256 and gzip are a `World` record;
- the stemmer is a `string -> string`;
- `localeCompare` is a `(string, string) -> int`.

Where the design description and the code differ, the model follows the code:

- A pack whose checksum does not match is never written. However,
  `transducerLoaded` keeps whatever value an earlier load gave it; it is not
  reset to false (`WorkerHost.Host.LoadPack`).
- `apply_down` looks only at `ready`, not at `transducerLoaded`. Before
  `init` it answers with no outputs rather than with a sentinel
  (`EngineCalls.DownOutputs`).
- The generator file is written and `loadGenerator` is called on it. Its
  result is ignored: the worker only logs it, and the bundled worker does not
  look at it. The hosts do not track the module's internal state; the shim
  model does (`Shim.HfstShim.LoadGenerator`).
- The source client (`packages/core/src/workerClient.ts`) has no queue. A
  second request made while one is pending is rejected, not serialised.
  Only the bundled client queues requests.
- The engine-backed runtime's `join` is the rule join.

Behaviours of the code that the lemmas make explicit:

- The worker's Apertium reader finds no analysis in the shim's output,
  because the shim writes no tabs. Every engine-backed join therefore falls
  back to the language rules (`WorkerHost.ShimOutputIsUnanalysed`,
  `WorkerHost.ShimJoinUsesFallback`).
- The engine-backed runtime reads only the first space-separated symbol of a
  shim line. When that symbol holds no `+`, it becomes the lemma and the tags
  in the later symbols are lost (`AnalysisParse.FirstWordOfShimLine`).
- A failing shim lookup makes `apply_up` answer with no outputs, not with a
  sentinel (`EngineCalls.UpOnShimError`).
- The bundled worker never writes a generator under Node: the expression reads
  the browser global `self`, and the error it throws is swallowed
  (`DistWorkerHost.GeneratorBytes`).
- The gzip test requires more than two bytes (`PackLoading.IsGzip`).
- In the pack fetcher, a trailing `--out` with no value resets the output
  directory to its default (`PackFetcher.TrailingFlagRestoresDefault`).
- The fetcher's `.pmhfst` test is case-sensitive. The worker's mount test
  ignores case.

## Model

| member | source | states |
|---|---|---|
| Shim.Lines | tools/build-wasm/shim.cpp:37-44 | one line per lookup result, holding that result's symbols separated by single spaces |
| Shim.CopiedLength | tools/build-wasm/shim.cpp:46-48 | the copy never fills the buffer: it is strictly shorter than the capacity, and it is the whole text exactly when the text fits |
| Shim.CString | tools/build-wasm/shim.cpp:49-50 | reading a buffer back stops at the first terminator, and the result is a terminator-free prefix of the buffer |
| Shim.Format | tools/build-wasm/shim.cpp:37-43 | the formatting loop writes exactly the results' lines joined by newlines, with no newline after the last |
| Shim.FormatStep | tools/build-wasm/shim.cpp:37-43 | one more line written after the earlier lines and their newline extends the joined text by that line |
| Shim.WriteSymbols | tools/build-wasm/shim.cpp:38-41 | the inner loop appends one result's symbols separated by single spaces |
| Shim.TwoPhaseUp | tools/build-wasm/shim.cpp:32-53 | the size call followed by a copy into a buffer one longer gives text exactly when the shim has non-empty text, and that text whole when it holds no NUL |
| Shim.CStringOfTerminated | tools/build-wasm/shim.cpp:49-50 | a copy followed by its terminator reads back as the copy |
| Shim.FormattedSplits | tools/build-wasm/shim.cpp:37-44 | splitting the shim's text at newlines gives back its lines when no symbol holds a newline |
| Shim.JoinAvoids | tools/build-wasm/shim.cpp:40-41 | joining symbols and a separator that avoid a character yields text that avoids it |
| Shim.HfstShim.constructor | tools/build-wasm/shim.cpp:7-9 | both transducer slots start empty |
| Shim.HfstShim.LoadTransducer | tools/build-wasm/shim.cpp:13-21 | returns 0 exactly when the file opens, and -1 otherwise; the slot holds the new transducer, or none after a failure because the old one is dropped first; the generator is untouched |
| Shim.HfstShim.LoadGenerator | tools/build-wasm/shim.cpp:23-29 | the same for the generator slot, leaving the analyser untouched |
| Shim.HfstShim.Unload | tools/build-wasm/shim.cpp:81-84 | both slots are emptied |
| Shim.HfstShim.Lookup | tools/build-wasm/shim.cpp:32-53 | returns -2 with no transducer and -3 when the lookup throws; with no buffer it returns the size; otherwise it returns the copied length and the buffer holds the copied prefix and a terminator, with nothing past it changed |
| Shim.HfstShim.CopyText | tools/build-wasm/shim.cpp:47-48 | the first `n` characters of the text are written at the start of the buffer and the rest of the buffer is unchanged |
| Shim.HfstShim.ApplyUp | tools/build-wasm/shim.cpp:32-53 | the analyser's answer, as `Lookup` states it |
| Shim.HfstShim.ApplyDown | tools/build-wasm/shim.cpp:56-79 | the generator's answer, or the analyser's when no generator is loaded |
| EngineCalls.UpOutputs | packages/core/src/worker.ts:791-819 | `apply_up` never returns an empty string among its outputs |
| EngineCalls.DownOutputs | packages/core/src/worker.ts:820-836 | before `init`, `apply_down` gives no outputs and throws nothing |
| EngineCalls.DistDownOutputs | packages/core/dist-worker/worker.js:445-460 | the same for the bundled worker |
| EngineCalls.AnalysisText | packages/core/src/worker.ts:384-403 | text is handed to the parser only when the module is ready and an analyser is loaded, and the text is never empty |
| EngineCalls.UpWhenNotReady | packages/core/src/worker.ts:794-816 | without a ready module and a loaded analyser, `apply_up` answers with exactly one sentinel naming the missing precondition |
| EngineCalls.UpOnShimError | packages/core/src/worker.ts:794-803 | when the shim reports an error code, `apply_up` answers with no outputs and the analysis falls back to the unanalysed form |
| EngineCalls.UpRecoversShimLines | packages/core/src/worker.ts:802-809 | `apply_up` returns exactly the shim's result lines, in order |
| EngineCalls.DownConcatenatesSymbols | packages/core/src/worker.ts:821-833 | `apply_down` returns each generated result with its symbols concatenated |
| EngineCalls.DistDownKeepsLines | packages/core/dist-worker/worker.js:445-460 | the bundled `apply_down` returns the shim's lines, spaces included |
| EngineCalls.AnalysisReadsShimText | packages/core/src/worker.ts:389-403 | `performAnalysis` parses exactly the text the shim wrote |
| AnalysisParse.StripEpsilonCut | packages/core/src/worker.ts:416 | the analysis is cut at the first ε whose remaining line holds no line terminator, and everything before the cut is kept |
| AnalysisParse.LemmaRunLongest | packages/core/src/worker.ts:419-421 | the lemma is the longest prefix without `<` |
| AnalysisParse.MatchLemma | packages/core/src/worker.ts:419-422 | a match has a non-empty lemma |
| AnalysisParse.MatchLemmaSplits | packages/core/src/worker.ts:419-422 | a match splits the cleaned field into a lemma without `<` and the rest |
| AnalysisParse.CloseIndexFirst | packages/core/src/worker.ts:426-430 | the scan stops at the first `>` at or after a position, or at the end |
| AnalysisParse.AngleTagsShape | packages/core/src/worker.ts:424-430 | every tag found is non-empty and holds no `>` |
| AnalysisParse.ExtractTags | packages/core/src/worker.ts:424-430 | the `exec` loop collects exactly the tags `AngleTags` specifies, in order |
| AnalysisParse.CloseIndexShift | packages/core/src/worker.ts:426-430 | the regex scan of a suffix finds the same `>` as the scan of the whole text |
| AnalysisParse.ParseField | packages/core/src/worker.ts:413-436 | a parsed field keeps the surface form it was asked about |
| AnalysisParse.ApertiumLines | packages/core/src/worker.ts:409-438 | at most one analysis per line |
| AnalysisParse.ApertiumLinesSurface | packages/core/src/worker.ts:409-438 | every analysis read from the lines carries the surface form that was looked up |
| AnalysisParse.WithFallback | packages/core/src/worker.ts:440 | at least one analysis; the parsed ones when there are any |
| AnalysisParse.ParseApertium | packages/core/src/worker.ts:405-440 | the worker's parsing loop yields the parsed analyses of the non-blank lines, or the unanalysed form |
| AnalysisParse.ApertiumLinesStep | packages/core/src/worker.ts:409-438 | one step of the loop keeps the lines read so far followed by the reading of the rest equal to the reading of all lines |
| AnalysisParse.ParseApertiumLines | packages/core/src/worker.ts:409-438 | the line loop collects exactly the analyses `ApertiumLines` specifies, in order |
| AnalysisParse.ParseLine | packages/core/src/worker.ts:410-437 | the body of the line loop yields exactly the analysis `ApertiumLine` specifies, or none |
| AnalysisParse.ExtractTagsOf | packages/core/src/worker.ts:413-436 | the loop body builds exactly the analysis `ParseField` specifies |
| AnalysisParse.TagText | packages/core/src/worker.ts:424-430 | the written tag text is empty or starts with `<` |
| AnalysisParse.TagTextPlain | packages/core/src/worker.ts:411-430 | tags free of delimiters give a tag text free of delimiters |
| AnalysisParse.AngleTagsOfTagText | packages/core/src/worker.ts:424-430 | reading the tags of written tag text gives the tags back |
| AnalysisParse.StripEpsilonAtEnd | packages/core/src/worker.ts:416 | a final ε with no earlier ε is cut off and nothing else |
| AnalysisParse.LemmaRunOfLemma | packages/core/src/worker.ts:419-421 | the lemma run of a lemma followed by tag text is that lemma |
| AnalysisParse.ApertiumRoundTrip | packages/core/src/worker.ts:409-436 | a line written in the Apertium form reads back as the analysis it was written from |
| AnalysisParse.ApertiumFields | packages/core/src/worker.ts:411-413 | the second tab-separated field of a written line is the analysis with its ε |
| AnalysisParse.FieldOfTagged | packages/core/src/worker.ts:413-432 | an analysis field parses back into its lemma and tags |
| AnalysisParse.CleanField | packages/core/src/worker.ts:416 | cutting at ε and trimming leave a written analysis intact |
| AnalysisParse.MatchTagged | packages/core/src/worker.ts:419-422 | a lemma followed by tag text matches as that lemma and that tag text |
| AnalysisParse.TagTextEndsClosed | packages/core/src/worker.ts:424-430 | non-empty tag text ends with `>` |
| AnalysisParse.PlusLineShape | packages/core/dist-worker/worker.js:159-163 | the surface is kept; the lemma is the surface or a non-empty piece without `+`; tags are non-empty and hold no `+` |
| AnalysisParse.ParsePlus | packages/core/dist-worker/worker.js:155-166 | the bundled parsing loop yields one analysis per non-blank line, or the unanalysed form |
| AnalysisParse.PlusLines | packages/core/dist-worker/worker.js:157-165 | one analysis per line, each the reading of that line |
| AnalysisParse.ParsePlusLines | packages/core/dist-worker/worker.js:157-165 | the bundled line loop collects exactly the analyses `PlusLines` specifies |
| AnalysisParse.FirstWordLine | packages/core/src/index.ts:262-268 | the surface is kept, and tags are non-empty and hold no `+` |
| AnalysisParse.PlusRoundTrip | packages/core/src/index.ts:262-275 | a generation request `lemma+TAG+...` reads back as its lemma and tags, in both the bundled worker's reading and the runtime's reading |
| AnalysisParse.SplitAvoids | packages/core/src/worker.ts:407-411 | splitting keeps out every character the text lacks |
| AnalysisParse.TablessLines | packages/core/src/worker.ts:409-438 | lines without a tab give no analyses |
| AnalysisParse.ShimTextHasNoApertiumLines | packages/core/src/worker.ts:405-440 | the shim's text, which never holds a tab, gives the worker's reader no analyses |
| AnalysisParse.FirstWordOfShimLine | packages/core/src/index.ts:262-268 | for every shim line whose first symbol is non-empty and free of white space, the reading equals the reading of that first symbol alone; a first symbol without `+` gives that lemma and no tags |
| AnalysisParse.FirstWordOfShimLineExample | packages/core/src/index.ts:262-268 | example: a character-per-symbol line for `cats` reads as lemma `c` with no tags |
| PackLoading.HexDigit | packages/core/src/worker.ts:569 | a value below 16 becomes a lower-case hexadecimal digit |
| PackLoading.HexValue | packages/core/src/worker.ts:569 | exactly the lower-case hexadecimal digits have a value, and it is below 16 |
| PackLoading.ByteHexDigits | packages/core/src/worker.ts:569 | each byte becomes exactly two digits, high half first |
| PackLoading.Hex | packages/core/src/worker.ts:569 | the digest text has two lower-case digits per byte |
| PackLoading.HexRoundTrip | packages/core/src/worker.ts:569 | decoding the digest text gives the digest back |
| PackLoading.HexInjective | packages/core/src/worker.ts:569 | different digests have different texts |
| PackLoading.IntegrityPinsDigest | packages/core/src/worker.ts:567-571 | a non-empty expected value accepts at most one digest |
| PackLoading.IntegrityIgnoresCase | packages/core/src/worker.ts:567-571 | the expected value is compared without regard to case |
| PackLoading.IntegrityAcceptsOwnDigest | packages/core/src/worker.ts:567-571 | a digest's own text is always accepted |
| PackLoading.IntegrityRejectsLength | packages/core/src/worker.ts:567-571 | an expected value of the wrong length is always refused |
| PackLoading.Flatten | packages/core/src/worker.ts:604-610 | the joined chunks are as long as the sum of the chunk lengths |
| PackLoading.TotalLengthPrefix | packages/core/src/worker.ts:604-610 | a prefix of the chunks is never longer than all of them, so the copy loop stays inside the buffer |
| PackLoading.AssembleChunks | packages/core/src/worker.ts:604-610 | the browser's copy loop fills a fresh buffer with exactly the concatenated chunks |
| PackLoading.CopyChunk | packages/core/src/worker.ts:607-609 | a chunk is written right after the bytes already placed, which stay as they were |
| PackLoading.Inflated | packages/core/src/worker.ts:577-621 | a buffer without the gzip magic is written as it came |
| PackLoading.InflateFailureKeepsBytes | packages/core/src/worker.ts:617-620 | a compressed buffer that fails to decompress is written as it came |
| PackLoading.MountPath | packages/core/src/worker.ts:572-573 | the analyser goes to `/analysis.pmhfst` or `/analysis.hfstol` |
| PackLoading.GeneratorPath | packages/core/src/worker.ts:766 | the generator goes to `/generate.pmhfst` or `/generate.hfstol` |
| PackLoading.MountPathsIgnoreCase | packages/core/src/worker.ts:572-573 | both suffix tests ignore case, and the analyser and generator never share a path |
| PackLoading.LoadEntrypoints | packages/core/src/worker.ts:640-676 | `loadTransducer`'s error escapes; the result is 0 exactly when `loadTransducer` is exported and it, `load_transducer` or `hfst_load` returns 0; any other code is `loadTransducer`'s own, or the not-found code when it is missing |
| WorkerHost.ThrownText | packages/core/src/worker.ts:861-863 | the error text of a thrown failure is never empty |
| WorkerHost.Analyses | packages/core/src/worker.ts:384-445 | at least one analysis, each for the surface asked about |
| WorkerHost.VerifiedPack | packages/core/src/worker.ts:519-571 | a pack is accepted only if its address resolves, its bytes were fetched from it, and they pass the integrity test |
| WorkerHost.GeneratorBytes | packages/core/src/worker.ts:703-768 | generator bytes are written only for a `gen` parameter whose fetched bytes pass their own integrity test |
| WorkerHost.MismatchStopsBeforeWriting | packages/core/src/worker.ts:567-571 | a checksum mismatch rejects the pack before anything is written |
| WorkerHost.ShimOutputIsUnanalysed | packages/core/src/worker.ts:384-445 | on the shim's real output, `performAnalysis` always answers with the unanalysed form |
| WorkerHost.ShimJoinUsesFallback | packages/core/src/worker.ts:837-857 | so an engine-backed join always takes the language-rule tier |
| WorkerHost.Host.constructor | packages/core/src/worker.ts:374-378 | the worker starts not ready, with no analyser loaded, no module and no files |
| WorkerHost.Host.Init | packages/core/src/worker.ts:509-515 | the module address is cached; a started module makes the worker ready with an empty file system and replies `ready`; a failure replies with its error and changes nothing else |
| WorkerHost.Host.LoadPack | packages/core/src/worker.ts:516-790 | without a module it only starts one; otherwise it always replies `ready`; a rejected pack changes nothing; an accepted one is written at its mount path, the flag is set exactly when the loaders accept it, and the generator is added unless the loader threw |
| WorkerHost.Host.LoadFromAddress | packages/core/src/worker.ts:519-786 | the same effect on the files and the flag, and it never touches `ready` or the module |
| WorkerHost.Host.LoadGeneratorFile | packages/core/src/worker.ts:703-782 | the verified generator bytes are added at the generator path and nothing else changes |
| WorkerHost.Host.ApplyUp | packages/core/src/worker.ts:791-819 | the reply carries the outputs `UpOutputs` specifies |
| WorkerHost.Host.ApplyDown | packages/core/src/worker.ts:820-836 | the reply carries the stripped lines, or the error the module threw |
| WorkerHost.Host.PerformAnalysis | packages/core/src/worker.ts:384-445 | the analyses `Analyses` specifies |
| WorkerHost.Host.ApplyJoin | packages/core/src/worker.ts:837-857 | both tokens are analysed and the coordinator's well-formed decision is the reply |
| WorkerHost.Host.HandleMessage | packages/core/src/worker.ts:505-864 | only `init` and `load_pack` change state; `ready` and the loaded flag never go back to false; each request gets its kind of reply, and an unknown one gets `unknown message` |
| WorkerJoin.FrenchMorphologyJoin | packages/core/src/worker.ts:86-128 | a well-formed decision that keeps the next token |
| WorkerJoin.MorphologyBasedJoin | packages/core/src/worker.ts:56-84 | a well-formed decision from the feature tier |
| WorkerJoin.FrenchElision | packages/core/src/worker.ts:273-319 | an elision always removes the space and keeps the next token |
| WorkerJoin.SpanishCliticJoin | packages/core/src/worker.ts:191-228 | a match always removes the space, and its reason starts with the contraction or the clitic head |
| WorkerJoin.GermanCompoundJoin | packages/core/src/worker.ts:230-271 | a match always removes the space, and its reason starts with the compound or the compound-formation head |
| WorkerJoin.NoRule | packages/core/src/worker.ts:181-188 | the no-rule decision says so in its reason |
| WorkerJoin.LanguageSpecificJoin | packages/core/src/worker.ts:165-189 | well-formed; languages other than French, Spanish and German get the no-rule decision |
| WorkerJoin.ApplyJoin | packages/core/src/worker.ts:22-54 | every decision is well-formed |
| WorkerJoin.HeadExcludes | packages/core/src/worker.ts:47-53 | reasons that differ in their heads cannot be confused |
| WorkerJoin.FallbackHeadNotFeature | packages/core/src/worker.ts:47-53 | a language-rule reason is never mistaken for a feature-tier reason |
| WorkerJoin.FallbackNotFeature | packages/core/src/worker.ts:165-189 | the language-rule tier never produces a feature-tier reason |
| WorkerJoin.FeatureTierChosenIff | packages/core/src/worker.ts:36-53 | the feature tier decides exactly when both tokens have a real analysis |
| WorkerJoin.FeatureTierFrench | packages/core/src/worker.ts:56-128 | with real analyses, French pairs go to the French morphology rules |
| WorkerJoin.FeatureTierOtherLanguages | packages/core/src/worker.ts:56-84 | with real analyses, other languages get the feature tier's generic decision |
| WorkerJoin.FrenchFallback | packages/core/src/worker.ts:167-170 | without real analyses, French decisions are the elision rule or a space |
| WorkerJoin.ContractionKeyExact | packages/core/src/worker.ts:196-211 | only `de el` and `a el` contract |
| WorkerJoin.SpanishFallback | packages/core/src/worker.ts:171-174 | without real analyses, Spanish decisions are the contraction and clitic rules or a space |
| WorkerJoin.GermanFallback | packages/core/src/worker.ts:175-178 | without real analyses, German decisions are the compound rules or a space |
| WorkerJoin.LinkingElementKeys | packages/core/src/worker.ts:230-271 | a linking `s` written on either side gives the same key and the same compound |
| WorkerJoin.UnmatchedReason | packages/core/src/worker.ts:181-188 | other languages without real analyses are spaced with the no-rule reason |
| WorkerJoin.UnanalysedUsesFallback | packages/core/src/worker.ts:36-53 | an unanalysed token sends the pair to the language-rule tier |
| WorkerJoin.FallbackElidesBeforeVowel | packages/core/src/worker.ts:273-319 | without analyses, a listed word other than `si` followed by a vowel is written as its elided form glued to the next word |
| WorkerJoin.FrenchElidesBeforeVowel | packages/core/src/worker.ts:273-319 | example: `je aime` is written `j’aime` |
| WorkerJoin.FrenchElidesBeforeMuteH | packages/core/src/worker.ts:303-316 | example: `le homme` is written `l’homme` |
| WorkerJoin.FrenchKeepsSpaceBeforeHAspire | packages/core/src/worker.ts:321-326 | example: `le héros` keeps its space |
| WorkerJoin.FrenchSiBeforeIl | packages/core/src/worker.ts:298-316 | example: `si il` is written `s’il` |
| WorkerJoin.FrenchSiNotBeforeElle | packages/core/src/worker.ts:298-301 | example: `si elle` keeps its space |
| WorkerJoin.SpanishCliticExample | packages/core/src/worker.ts:213-227 | example: `dar me` is written `darme` |
| WorkerJoin.SpanishContractionExample | packages/core/src/worker.ts:196-211 | example: `de el` is written `del` |
| WorkerJoin.GermanCompoundExample | packages/core/src/worker.ts:230-271 | example: `Haus Tür` is written `Haustür` |
| WorkerJoin.GermanUnmatchedExample | packages/core/src/worker.ts:230-271 | example: `der Mann` keeps its space |
| WorkerJoin.FeatureTierElidesBeforeAnyH | packages/core/src/worker.ts:86-128 | the feature tier elides a determiner before any word starting with h, h aspiré included |
| DistWorkerJoin.MorphologyBasedJoin | packages/core/dist-worker/worker.js:22-31 | the bundled feature tier always keeps both tokens and a space |
| DistWorkerJoin.LanguageSpecificJoin | packages/core/dist-worker/worker.js:32-48 | every decision is well-formed |
| DistWorkerJoin.ApplyJoin | packages/core/dist-worker/worker.js:4-21 | every decision is well-formed |
| DistWorkerJoin.RealIsTagged | packages/core/dist-worker/worker.js:11-12 | an analysis the worker counts as real also passes the bundled worker's weaker test |
| DistWorkerJoin.SpaceRemovedOnlyByFrenchElision | packages/core/dist-worker/worker.js:4-94 | the bundled coordinator removes a space only through French elision |
| DistWorkerJoin.AgreesWithWorkerOnFrenchFallback | packages/core/dist-worker/worker.js:32-94 | without tagged analyses, its French decisions are the worker's |
| DistWorkerJoin.NoSpanishOrGermanRules | packages/core/dist-worker/worker.js:32-48 | Spanish and German pairs are always spaced |
| DistWorkerJoin.TaggedReason | packages/core/dist-worker/worker.js:4-31 | a tagged pair's reason starts with the FST-based head and the language, and ends with both tokens |
| DistWorkerHost.Analyses | packages/core/dist-worker/worker.js:136-172 | at least one analysis |
| DistWorkerHost.GeneratorBytes | packages/core/dist-worker/worker.js:381-405 | generator bytes are written only outside Node, for a `gen` parameter, fetched and passing their integrity test |
| DistWorkerHost.GeneratorAgreesWithWorker | packages/core/dist-worker/worker.js:381-405 | whatever the bundled worker writes, the worker writes the same; in a browser the two agree exactly |
| DistWorkerHost.Host.constructor | packages/core/dist-worker/worker.js:128-132 | the worker starts not ready, with nothing loaded |
| DistWorkerHost.Host.Init | packages/core/dist-worker/worker.js:230-236 | as the worker's `init` |
| DistWorkerHost.Host.LoadPack | packages/core/dist-worker/worker.js:237-413 | as the worker's, but the accepted bytes are written as fetched |
| DistWorkerHost.Host.LoadFromAddress | packages/core/dist-worker/worker.js:240-410 | the files and the flag as `LoadPack` states them |
| DistWorkerHost.Host.ApplyUp | packages/core/dist-worker/worker.js:415-444 | identical to the worker's `apply_up` |
| DistWorkerHost.Host.ApplyDown | packages/core/dist-worker/worker.js:445-460 | the generated lines unchanged, or the thrown error |
| DistWorkerHost.Host.PerformAnalysis | packages/core/dist-worker/worker.js:136-172 | the analyses `Analyses` specifies |
| DistWorkerHost.Host.ApplyJoin | packages/core/dist-worker/worker.js:461-466 | both tokens are analysed and the bundled coordinator's decision is the reply |
| DistWorkerHost.Host.HandleMessage | packages/core/dist-worker/worker.js:226-474 | only `init` and `load_pack` change state; the flags never go back; each request gets its kind of reply |
| QueueClient.Tickets | packages/core/dist-worker/workerClient.js:101-108 | the ticket of each queued request, in order |
| QueueClient.UpResult | packages/core/dist-worker/workerClient.js:114-121 | the outputs of an `up` reply, and nothing for any other reply |
| QueueClient.DownResult | packages/core/dist-worker/workerClient.js:122-129 | the outputs of a `down` reply, and nothing for any other reply |
| QueueClient.JoinResult | packages/core/dist-worker/workerClient.js:130-142 | a decision exactly for a `join` reply |
| QueueClient.Client.constructor | packages/core/dist-worker/workerClient.js:4-11 | no worker, not initialised, an empty queue, nothing in flight |
| QueueClient.Client.ProcessQueue | packages/core/dist-worker/workerClient.js:89-100 | posts the oldest queued request exactly when a worker exists and nothing is in flight, and keeps the queue discipline |
| QueueClient.Client.Request | packages/core/dist-worker/workerClient.js:101-108 | without a worker the answer is the `no-worker` error at once; otherwise the request joins the queue and is posted at once if nothing is in flight |
| QueueClient.Client.Reply | packages/core/dist-worker/workerClient.js:68-77 | a reply resolves the request in flight and posts the next queued one; with nothing in flight it is ignored |
| QueueClient.Client.BeginInit | packages/core/dist-worker/workerClient.js:12-55 | nothing once initialised; initialised without a worker when no worker can be made; otherwise a worker is made and the `init` request is queued |
| QueueClient.Client.FinishInit | packages/core/dist-worker/workerClient.js:78-87 | initialised only by a `ready` reply |
| QueueClient.Client.OnWorkerError | packages/core/dist-worker/workerClient.js:38-41 | a worker error marks the client initialised |
| QueueClient.Conversation | packages/core/dist-worker/workerClient.js:89-108 | whatever the interleaving, requests are posted in the order they were made, and replies go to them in that order |
| SlotClient.Client.constructor | packages/core/src/workerClient.ts:16-19 | no worker, not initialised, an empty slot |
| SlotClient.Client.Request | packages/core/src/workerClient.ts:44-52 | the `no-worker` error without a worker; a rejection while a request is pending; otherwise exactly one message is posted and the slot holds it |
| SlotClient.Client.OnMessage | packages/core/src/workerClient.ts:28-32 | a reply resolves and clears the slot; with the slot empty it is ignored |
| SlotClient.Client.BeginInit | packages/core/src/workerClient.ts:21-36 | nothing once initialised; initialised at once without a `Worker` global; otherwise a worker is made and `init` is requested |
| SlotClient.Client.FinishInit | packages/core/src/workerClient.ts:36-41 | initialised by a `ready` reply or by a rejection |
| SlotClient.Client.BeginCall | packages/core/src/workerClient.ts:54-74 | without a worker nothing is posted; otherwise the request is made |
| SlotClient.CallOutputs | packages/core/src/workerClient.ts:60-74 | a rejection is passed on; outputs come only from the matching reply |
| RuleRuntime.EnglishPlural | packages/core/src/index.ts:55-58 | the plural ends in `s` and is longer; it keeps the word, or the word minus its final `y` |
| RuleRuntime.SpanishPlural | packages/core/src/index.ts:59-61 | the word followed by `s` or `es` |
| RuleRuntime.FrenchPlural | packages/core/src/index.ts:62-63 | `al` becomes `aux`; otherwise the word takes `s` |
| RuleRuntime.ItalianPlural | packages/core/src/index.ts:66-69 | ends in `i` or `e`, and keeps all but the last letter |
| RuleRuntime.Pluralize | packages/core/src/index.ts:53-75 | a language without a rule keeps the lemma |
| RuleRuntime.PluralizeKeepsStem | packages/core/src/index.ts:53-75 | every rule keeps the lemma up to its last two letters and ends in its language's plural ending |
| RuleRuntime.PluralizeEnglishExamples | packages/core/src/index.ts:55-58 | example: cat becomes cats, city becomes cities, church becomes churches |
| RuleRuntime.PluralizeOtherExamples | packages/core/src/index.ts:59-73 | example: ciudad becomes ciudades, and Welsh is unchanged |
| RuleRuntime.PluralizeStemChangeExamples | packages/core/src/index.ts:59-73 | example: cheval becomes chevaux and libro becomes libri |
| RuleRuntime.RuleGenerate | packages/core/src/index.ts:124-129 | one form: the plural exactly when `PL` is among the tags |
| RuleRuntime.RuleGenerateIgnoresTagOrder | packages/core/src/index.ts:124-129 | generation depends only on which tags are present, not on their order |
| RuleRuntime.RuleAnalyse | packages/core/src/index.ts:113-123 | one analysis for the surface, tagged `STEM` |
| RuleRuntime.FrenchRule | packages/core/src/index.ts:146-154 | a French rule removes the space and keeps the next token |
| RuleRuntime.ItalianRule | packages/core/src/index.ts:156-164 | an Italian rule removes the space and keeps the next token |
| RuleRuntime.EnglishRule | packages/core/src/index.ts:166-176 | every English rule decision is well-formed |
| RuleRuntime.WelshRule | packages/core/src/index.ts:178-186 | a Welsh rule keeps a space and the next token |
| RuleRuntime.Join | packages/core/src/index.ts:130-194 | every rule-join decision is well-formed |
| RuleRuntime.JoinPunctuation | packages/core/src/index.ts:131-134 | punctuation attaches to the previous token in every language |
| RuleRuntime.JoinFrenchElision | packages/core/src/index.ts:146-154 | the space goes exactly for je, le, la, ce, se before a vowel or a mute h, giving the elided letter and an apostrophe |
| RuleRuntime.JoinItalian | packages/core/src/index.ts:156-164 | the space goes exactly for lo or una before a vowel and for `mente`, and elision drops the last letter |
| RuleRuntime.JoinEnglish | packages/core/src/index.ts:166-176 | a becomes an before a vowel, child plus ren is children, and ing, s and un attach; the article rule comes first |
| RuleRuntime.JoinEnglishKeepsTokens | packages/core/src/index.ts:166-176 | every other English decision keeps both tokens, attached when a rule applies and spaced otherwise |
| RuleRuntime.JoinKeepsTokens | packages/core/src/index.ts:130-194 | only elisions, the English article and plural, and the Welsh article rewrite a token |
| RuleRuntime.JoinWelsh | packages/core/src/index.ts:178-193 | Welsh never removes the space; the article decision holds exactly for `yr` before a vowel, the mutation decision exactly for `yn` before a mutation onset, and every other pair gets the default; only the article rewrites the first token, to `yr` |
| RuleRuntime.JoinOtherLanguages | packages/core/src/index.ts:188-193 | a language without rules spaces every pair except punctuation |
| RuleRuntime.JoinFrenchExample | packages/core/src/index.ts:146-154 | example: je plus aime is written j’aime |
| RuleRuntime.JoinFrenchHAspireExample | packages/core/src/index.ts:303 | example: le plus haricot keeps its space |
| RuleRuntime.JoinEnglishExample | packages/core/src/index.ts:166-169 | example: a plus apple is written an apple |
| Joiner.JoinTokens | packages/joiner/src/index.ts:2-8 | the result starts with the previous token and ends with the next, with one space between them unless the next token is punctuation |
| Joiner.JoinTokensDetermined | packages/joiner/src/index.ts:2-8 | those properties determine the result completely |
| MorphRuntime.Rank | packages/core/src/index.ts:217-225 | a known tag ranks from 10 to 50, and an unknown tag ranks 999 |
| MorphRuntime.Insert | packages/core/src/index.ts:231-240 | insertion adds exactly the one tag |
| MorphRuntime.SortTags | packages/core/src/index.ts:231-240 | sorting is a permutation |
| MorphRuntime.OrderTags | packages/core/src/index.ts:231-240 | ordering is a permutation |
| MorphRuntime.InsertOrdered | packages/core/src/index.ts:231-240 | inserting into an ordered list keeps it ordered |
| MorphRuntime.OrderTagsSorted | packages/core/src/index.ts:231-240 | the flexible policy yields an ordered permutation, and the strict policy leaves the tags as given |
| MorphRuntime.OrderedRanksAscend | packages/core/src/index.ts:217-240 | in an ordered list, ranks never decrease |
| MorphRuntime.HfstAnalyses | packages/core/src/index.ts:256-269 | with no engine lines, the rule analysis; otherwise one analysis per line, read by its first word |
| MorphRuntime.HfstGenerate | packages/core/src/index.ts:271-281 | the engine's lines when there are any; otherwise rule generation |
| MorphRuntime.HfstAnalyseReadsRequest | packages/core/src/index.ts:262-275 | analysing the runtime's own generation request recovers the lemma and the tags in the order the policy gave them |
| MorphRuntime.Runtime.constructor | packages/core/src/index.ts:200-215 | the rule runtime and the flexible policy are active, with the default module address and no pack |
| MorphRuntime.Runtime.ConfigureMorphHfst | packages/core/src/index.ts:208-211 | a given address replaces the old one and an absent one keeps it; nothing else changes |
| MorphRuntime.Runtime.ConfigureTagOrdering | packages/core/src/index.ts:227-229 | sets the policy and nothing else |
| MorphRuntime.Runtime.ConfigureMorphRuntime | packages/core/src/index.ts:290-292 | the engine-backed runtime is active exactly when the mode is `hfst` |
| MorphRuntime.Runtime.Analyse | packages/core/src/index.ts:254-270 | the active runtime's analyses; the engine-backed runtime records the raw lines |
| MorphRuntime.Runtime.Generate | packages/core/src/index.ts:271-281 | the active runtime's forms; the engine-backed runtime sends the tags ordered by the policy |
| MorphRuntime.Runtime.Join | packages/core/src/index.ts:282-285 | both runtimes join by the rule join |
| PackFetcher.Walk | tools/pack-fetcher.mjs:48-54 | the language list only grows, and only by operands; a throw names an unknown flag |
| PackFetcher.ArgsOf | tools/pack-fetcher.mjs:45-61 | a parse always has at least one language and none of them is a flag |
| PackFetcher.ParseArgs | tools/pack-fetcher.mjs:45-61 | the argument loop computes `ArgsOf` |
| PackFetcher.WalkOperands | tools/pack-fetcher.mjs:48-54 | operands are collected in order |
| PackFetcher.ParseArgsRoundTrip | tools/pack-fetcher.mjs:45-61 | a command line written from arguments parses back to them |
| PackFetcher.PlainOperands | tools/pack-fetcher.mjs:45-61 | operands alone give the defaults and those languages |
| PackFetcher.TrailingFlagRestoresDefault | tools/pack-fetcher.mjs:50 | a trailing `--out` without a value resets the output directory to the default |
| PackFetcher.UnknownFlagThrows | tools/pack-fetcher.mjs:52 | the first unknown flag throws, even when no language follows |
| PackFetcher.NoLanguageExits | tools/pack-fetcher.mjs:55-59 | no languages means exit status 1 |
| PackFetcher.ToISO | tools/pack-fetcher.mjs:64-67 | the lower-cased code up to its first hyphen |
| PackFetcher.ToISOUnhyphenated | tools/pack-fetcher.mjs:64-67 | a code without a hyphen is only lower-cased |
| PackFetcher.ToISOOfCode | tools/pack-fetcher.mjs:64-67 | a lower-case code is its own ISO code |
| PackFetcher.ToISOIgnoresRegion | tools/pack-fetcher.mjs:64-67 | the region is dropped |
| PackFetcher.ToISOIdempotent | tools/pack-fetcher.mjs:64-67 | mapping twice changes nothing |
| PackFetcher.ToISO3 | tools/pack-fetcher.mjs:68-74 | the three-letter code from the table, or the two-letter code when the table lacks it |
| PackFetcher.Iso3KeysShape | tools/pack-fetcher.mjs:68-70 | the table's keys are two-letter codes |
| PackFetcher.Iso3CodesShape | tools/pack-fetcher.mjs:68-70 | its values are three lower-case letters |
| PackFetcher.ToISO3Idempotent | tools/pack-fetcher.mjs:71-74 | mapping twice changes nothing |
| PackFetcher.AnalyserName | tools/pack-fetcher.mjs:140-141 | the saved name is `analysis.pmhfst` exactly when the address ends in `.pmhfst` |
| PackFetcher.PackPath | tools/pack-fetcher.mjs:264 | the index path is under `/packs/` and ends with the file name |
| PackFetcher.PackPathRoundTrip | tools/pack-fetcher.mjs:264-265 | the path splits back into its language, version and file name |
| PackFetcher.IndexedAnalyserMounts | tools/pack-fetcher.mjs:140-141 | the worker mounts an indexed analyser under the name it was saved with |
| PackFetcher.MountOfSavedName | tools/pack-fetcher.mjs:140-141 | a path ending in a saved name mounts under that name |
| PackFetcher.LowerKeepsSuffix | tools/pack-fetcher.mjs:140-141 | lower-casing keeps a lower-case suffix |
| PackFetcher.PackIndex.constructor | tools/pack-fetcher.mjs:259-263 | the index read from the file |
| PackFetcher.PackIndex.Update | tools/pack-fetcher.mjs:264-270 | the language's entry is set, every other entry is kept, and the generator fields are present exactly when both a name and a checksum are given |

## Left out

- I/O is not modelled. Fetch, the Cache API, the file system, SHA-256, gzip
  decompression and the WebAssembly start-up (`initWasm`) are parameters of the
  `World` and `Engine` records. The Node and browser fetch branches become one
  `fetchPack` function.
- Message transport, asynchrony and interleaving are not modelled. Each
  request and each reply is one atomic step. `init`, which awaits its reply,
  is split into a begin and a finish method.
- Logging is not modelled.
- The result of loading the generator is not modelled. The worker only logs
  it, and the bundled worker ignores it.
- The Snowball stemmer and the runtimes' `load` calls are not modelled. The
  stemmer is the `stem` parameter.
- `getStemmer`'s `Unsupported language` error is not modelled. Every
  `LangCode` has an entry in `snowballMap`, so the throw is reachable only
  from untyped callers, and `RuleRuntime.RuleAnalyse` takes the stemmer as a
  parameter instead of looking it up.
- `localeCompare` is not modelled. It is a parameter, assumed only to be
  antisymmetric in sign.
- Property names that every JavaScript object inherits are not modelled.
  `constructor` or `toString` given as a tag or a language would find an entry
  in `canonicalTagOrder` or in the ISO 639-3 table.
- A `cwrap` of a missing export is modelled as a falsy function: the call is
  skipped.
- Strings are sequences of Unicode scalar values. JavaScript's UTF-16 lengths
  and indices are not modelled, nor are the shim's UTF-8 byte counts: the
  shim's sizes and buffer capacities count characters in the model. Lower-casing
  covers ASCII, Latin-1 and the few further letters the source's character
  classes use.
- URL parsing is not modelled. A resolved address gives its pathname, its
  `href` and its `sha256`, `gen` and `genSha256` parameters. An absent
  parameter is the empty string, which is falsy in the source as well.
- The state inside the WebAssembly module is not modelled by the hosts: which
  file a loader last read. It is modelled in `Shim.HfstShim`.
- The pack fetcher's downloads are not modelled: `fetchPack`, `tryUralic`,
  Brotli compression and the file writes. Neither is the choice of
  analyser name in `main`, which comes from the files found on disk.
  Writing the index file is not modelled either. Only the in-memory update of
  the index is modelled.
- MorphRuntime.SortTags: stability is not stated. `Array.prototype.sort`
  keeps tags that compare equal in their input order. The definition inserts
  each tag after its equals, but only sortedness and permutation are proved
  (`MorphRuntime.OrderTagsSorted`).
- MorphRuntime.OrderTags: the strict policy's copy of the array is the same
  value in the model. Copying matters only for aliasing, which sequences do
  not have.
- The other tools under `tools/` and the test scripts are not part of this
  model.
