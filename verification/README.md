# Verified models of the documentation pipeline, the stateful extensions and the release arithmetic

This project models the parts of the repository whose correctness is not visible from reading one
function, and proves what they are for. It has three groups of modules.

**The documentation translation pipeline** (`scripts/docs-i18n`).

- `WorkerPool`, `PoolOutcome` and `PoolProgress` cut the parallel document run into the atomic steps of
  its goroutines: a feeder on an unbuffered job channel, the workers, a result channel with one slot per
  file, the cancel flag, the wait group and the collector. A run is a list of actions; the theorems speak
  of every list of actions.
- `Placeholders`, `Masking` and `Translator` hold the three masking passes with their regular expressions
  written out, the fresh token search, the check, the unmasking, and the retry loop around the model.
  `TokenText` reads texts as characters and tokens, and `TokenOverlap` says what a token can overlap.
  `StrayParts` holds the round trip on texts with parts of tokens, and `BlankReplies` says which texts
  some reply can turn into white space.
- `Segments` and `Splice` hold the walk over the Markdown tree and the two splicing loops.
- `TaggedDocument`, `FrontMatter`, `FrontMatterMarkers` and `DocMode` hold the printers and parsers of a
  whole-document run, and that run itself.
- `TranslationMemory` and `Process` hold the persisted cache and the loop that asks the model only for
  what the cache lacks. `TranslatedRun` puts the translator in the place of the loop's model.

**Persistent state machines in the extensions**: `PairNotify` (who is told about which pairing request),
`PhoneControl` (arming and disarming commands as recorded deltas over two lists) and `ThreadOwnership`
(a table with a time limit against the full log of mentions). Each read-modify-write of a file is one
step; a run is a list of events, with arbitrary outside edits where the code allows them.

**Small cores**: `SparkleBuild` and `Appcast` (build numbers from calendar versions), `BlockRewrite` (the
rewriter of a marked block), `Utf16` (slices of UTF-16 strings).

`Text`, `JsText`, `Decimal`, `Ordering`, `Sums`, `Runs` and `Wrappers` are the shared vocabulary: string
searching and trimming as the two source languages do it, decimal notation, sorted lists without
repetitions, sums over sequences, and runs of a state machine with their invariants.

Code that updates variables is a method or a class; each such method is tied to a function, and the
lemmas are about that function. For each of these functions some lemma says what it gives without
naming it, by the form of the text, the paths of the tree, or the events of the run. Where a promise turned out to hold only under a condition, a
concrete input shows that it can fail, and the condition is proved to be the exact one, at least for the
inputs named under "Left out":

- A translator that fails to start sends a result that no slot was set aside for. `PoolProgress.AlwaysReturnsExactly`
  says for which numbers of files, workers and failed starts the run still always returns.
- A text with half a placeholder right before a masked span passes the placeholder check and is not
  given back (`StrayParts.UncleanTextIsNotGivenBack`). With one placeholder a text is given back exactly when
  the masked text holds it nowhere else (`StrayParts.SinglePlaceholderExactly`).
- A core with white space at its ends that is not kept aside, such as a no-break space, loses it even
  when the model repeats its prompt (`Translator.EchoAttempt`, `Translator.NoBreakSpaceIsLost`).
- A subscriber whose account is padded with blanks is stored under one key and read back under another
  (`PairNotify.PaddedAccountIsUnstable`, `PairNotify.SubscribingKeepsKeysDistinctExactly`).
- A bar in a name or an account is not escaped in the key of a subscriber, nor a colon in a channel in the
  key of a thread, so that two chats or two threads can share a key (`PairNotify.BarConfusesKeys`,
  `ThreadOwnership.ColonConfusesKeys`). Without these they never do (`PairNotify.KeyExactly`,
  `ThreadOwnership.KeyExactly`).
- Arming twice forgets the first delta; the lists from before come back exactly when the first arm changed
  nothing (`PhoneControl.RearmForgetsFirstDelta`).
- A request whose id is white space is announced again at every poll, and no other request is
  (`PairNotify.NeverSentAgainExactly`).
- A document whose front matter has no string for a summary or a title and no list for `read_when` is
  refused even when the reply is perfect (`DocMode.EchoDocument`, `DocMode.AuthorOnlyIsRefused`).
- A translated value with a line of three dashes is printed over several lines, and the next run takes
  that line for the end of the front matter: the hash is not found, and the document is translated again
  at every run (`DocMode.FenceInReplyIsLost`). `DocMode.WrittenThenSkippedExactly` and
  `DocMode.OutputSplitsExactly` say for which printed front matter this cannot happen.
- A reply of placeholders alone is not blank, but the translation made from it is when the masked parts
  are white space, as a link target can be, or are eaten up by later placeholders. Such a translation is stored, never answers a lookup and is
  asked for again. `BlankReplies.NeverBlankExactly` and `TranslatedRun.RememberedExactly` say for which
  texts this can happen.

## Model

| member | source | states |
|---|---|---|
| WorkerPool.ConservedByRun | scripts/docs-i18n/main.go:159-223 | In every run, for every weighting of the files: the files fed so far are each held by one worker, waiting in the result channel, received or dropped, and nowhere twice |
| WorkerPool.InvByRun | scripts/docs-i18n/main.go:176-222 | The invariant of all reachable states: a cancelled run has an error on its way to the collector or received, a worker leaves only for a reason, the counters count the log, the result channel never overflows |
| WorkerPool.NothingStartsAfterCancel | scripts/docs-i18n/main.go:176-200 | In every run, once it is cancelled no worker begins to process a file: what a worker processes from then on it was processing already |
| WorkerPool.FailureStopsItsWorker | scripts/docs-i18n/main.go:176-200 | In every run, a worker that reports a failed file takes no other: from then on it only has the run to cancel, or is gone and the run is cancelled |
| PoolOutcome.ExactOnSuccess | scripts/docs-i18n/main.go:176-222 | Under every schedule, also with failed starts: if no error is returned, every file was fed, has exactly one non-error result, none was dropped, and processed + skipped is the number of files |
| PoolProgress.StepDecreasesMeasure | scripts/docs-i18n/main.go:176-222 | Every atomic step of every goroutine makes one measure over the whole system smaller |
| PoolProgress.RunsAreBounded | scripts/docs-i18n/main.go:176-222 | No run is longer than 10 steps a file, 5 a worker and 3 more |
| PoolProgress.AlwaysReturnsExactly | scripts/docs-i18n/main.go:159-223 | The run returns under every schedule and all file outcomes if and only if the failed starts fit: with files, at least one worker, and either some worker starts and at most one fails, or none starts and there is at most one worker more than files; without files, no failed start |
| PoolProgress.NoSendBlocks | scripts/docs-i18n/main.go:159-208 | With all workers started, in every reachable state a worker that has a result to send finds room in the result channel: its send never blocks |
| PoolProgress.AllStartedRunReturns | scripts/docs-i18n/main.go:159-223 | With at least one worker and all started, every run that cannot go on has returned and all workers have exited; only the feeder can be left, and only after an error |
| PoolOutcome.RunDocSequential | scripts/docs-i18n/main.go:137-157 | The sequential run fails if and only if some file fails, and otherwise processed + skipped is the number of files |
| PoolOutcome.ParallelRefinesSequential | scripts/docs-i18n/main.go:137-223 | A parallel run that returns no error reports the counts of the sequential run on the same file outcomes; with all workers started it returns an error if and only if some file fails |
| Placeholders.NextNumber | scripts/docs-i18n/placeholders.go:20-30 | The token search ends, at the least number from the counter on whose token is not in use |
| Placeholders.PlaceholderState.constructor | scripts/docs-i18n/placeholders.go:12-18 | The counter starts at 900000 and the tokens that occur in the text count as used |
| Placeholders.PlaceholderState.Next | scripts/docs-i18n/placeholders.go:20-30 | The least unused token from the counter on, which is used from then on and passed by the counter |
| Placeholders.RenderParse | scripts/docs-i18n/placeholders.go:12-18 | Reading a text as characters and tokens loses nothing |
| Placeholders.ReplaceRender | scripts/docs-i18n/masking.go:73-80 | On a text that outside its tokens nowhere holds OC_I18N_ with the digits of the token, replacing all occurrences of a token string, left to right on the characters, replaces exactly the token items |
| Placeholders.ContainsRender | scripts/docs-i18n/masking.go:82-89 | On such a text, a token string is found if and only if the token is an item of the text |
| Masking.MatchAtExact | scripts/docs-i18n/masking.go:9-14 | For each of the three patterns: a match is found at a place if and only if some part of the text from there fits the pattern, and it is that part; all of a code span or an angle link is masked, and of a link its target |
| Masking.FindAllMissesNothing | scripts/docs-i18n/masking.go:23-71 | All reported matches fit, in order and apart, and no place outside them begins a match |
| Masking.MaskMatches | scripts/docs-i18n/masking.go:23-71 | One pass in place: the text, the placeholders, the mapping and the token state afterwards are those of the pass as a function |
| Masking.MaskMarkdown | scripts/docs-i18n/masking.go:16-21 | Code spans, then angle links, then link targets, each pass over the result of the one before |
| Masking.EveryMatchMasked | scripts/docs-i18n/masking.go:23-71 | Every match gets a new placeholder, not used before, that stands for exactly the masked part; nothing recorded earlier changes |
| Masking.PassesInOrder | scripts/docs-i18n/masking.go:16-71 | The code spans of the text are masked first, each whole; without any, the angle links of the text are; without these, the targets of its links and nothing else |
| Masking.ValidatePlaceholders | scripts/docs-i18n/masking.go:82-89 | The first placeholder in creation order that the text lacks, and none if and only if all are there |
| Masking.FirstMissingIs | scripts/docs-i18n/masking.go:82-89 | The placeholder that is reported is the one before which none is lacking |
| Masking.UnmaskMarkdown | scripts/docs-i18n/masking.go:73-80 | The placeholders replaced in creation order, each everywhere |
| Masking.PresentExactlyWhenUncaptured | scripts/docs-i18n/masking.go:16-89 | All tokens are still in the masked text if and only if no later step captured an earlier token |
| Masking.FillInIsUndo | scripts/docs-i18n/masking.go:73-80 | Without captures, filling in first to last takes the masking steps back as last to first does |
| Masking.MaskRoundTrip | scripts/docs-i18n/masking.go:16-89 | For every text that outside its tokens nowhere holds OC_I18N_ with the digits of a placeholder its masking hands out: the check accepts the masked text if and only if no pass captured an earlier placeholder, and then unmasking gives back the text |
| StrayParts.UncleanTextIsNotGivenBack | scripts/docs-i18n/masking.go:73-89 | A concrete text ending in half a token before a code span, which the check accepts and unmasking changes |
| StrayParts.WholeTokensAreNotStray | scripts/docs-i18n/masking.go:16-89 | Texts whose OC_I18N_ parts all belong to whole tokens are among these, whatever is handed out |
| StrayParts.StrayTextIsGivenBack | scripts/docs-i18n/masking.go:73-89 | A concrete text with an OC_I18N_ part outside any token that is accepted and given back |
| StrayParts.SinglePlaceholderExactly | scripts/docs-i18n/masking.go:16-89 | Any text with one placeholder is given back if and only if the masked text holds the placeholder at its one place only |
| Masking.MaskKeepsEdges | scripts/docs-i18n/masking.go:16-21 | The masked text has white space at an edge if and only if the text has |
| Translator.SplitWhitespace | scripts/docs-i18n/util.go:89-111 | Prefix, core and suffix make up the text; the outer two hold blanks, tabs and line ends only, and the core has none of these at its edges |
| Translator.TranslateMasked | scripts/docs-i18n/translator.go:82-99 | One attempt: the reply with the originals filled in, or the first placeholder it lost, or the error of the model |
| Translator.AttemptOutcomes | scripts/docs-i18n/translator.go:82-99 | A failed call fails as it did; a blank reply is an empty translation; any other reply fails for the first placeholder it lacks, and with all of them it is the trimmed reply with the originals filled in |
| Translator.TranslateWithRetry | scripts/docs-i18n/translator.go:61-80 | The result of the first attempt that succeeds, fails for good or is the last; or the end of the context during a pause |
| Translator.MayPassExactly | scripts/docs-i18n/translator.go:113-128 | The results that do not end the attempts: an empty reply, a lost placeholder, and messages that speak of a rate limit, of 429 or of a lost placeholder and not of a failed authentication |
| Translator.GoesOnWhenItMayPass | scripts/docs-i18n/translator.go:61-80 | After such a result there is another attempt, unless it was the third or the pause is cut short, which ends with the end of the context |
| Translator.EndsOtherwise | scripts/docs-i18n/translator.go:61-80 | Success, the end of the context, a failed authentication and every other message end the attempts at once |
| Translator.RetryGivesAnAttempt | scripts/docs-i18n/translator.go:61-80 | There are at most three attempts, none after a success, and what comes out is the result of the last one or the end of the context |
| Translator.SecondReplyCounts | scripts/docs-i18n/translator.go:61-99 | With a first reply that lost a placeholder and a second one that has all, the second one is the translation |
| Translator.EchoAttempt | scripts/docs-i18n/translator.go:82-99 | A reply that repeats the masked text gives back the core if and only if no placeholder was captured and no white space of any kind is at its ends; else it gives back the core without that white space, or is rejected: for the captured placeholder, or as empty when the core is white space |
| Translator.NoBreakSpaceIsLost | scripts/docs-i18n/translator.go:44-99 | A concrete core that begins with a no-break space and comes back without it |
| Translator.Translate | scripts/docs-i18n/translator.go:44-59 | Blank text comes back as it is; otherwise the outer white space is put around what the attempts at the core came to; a model that echoes gives back the text, or makes all attempts fail, under the exact conditions of EchoAttempt |
| BlankReplies.SafeCoreIsNeverBlank | scripts/docs-i18n/translator.go:82-99 | Whatever the model replies: with a safe core, one in which nothing is masked or some masked part is firm, an accepted attempt is never blank. Firm is a part that holds something other than white space which no later placeholder can overlap; the last part, when it is not white space |
| BlankReplies.SolidIsFirm | scripts/docs-i18n/translator.go:82-99 | A part with a character that is in no token and not white space is firm, wherever it comes |
| BlankReplies.LastPartIsFirmExactly | scripts/docs-i18n/translator.go:82-99 | The last masked part is firm if and only if it is not white space |
| BlankReplies.VanishingReply | scripts/docs-i18n/translator.go:82-99 | When each masked part is white space or part of a later placeholder, some reply is accepted and makes the translation blank |
| BlankReplies.BlankPartsCanBeBlank | scripts/docs-i18n/translator.go:82-99 | When all masked parts are white space, some reply is accepted and makes the translation blank |
| BlankReplies.NeverBlankExactly | scripts/docs-i18n/translator.go:82-99 | No reply makes the translation blank if and only if nothing is masked or some masked part is firm, for every core each of whose masked parts is firm, white space or part of a later placeholder |
| BlankReplies.PlainPartsAreDecided | scripts/docs-i18n/masking.go:9-71 | Those are at least all cores in which no masked part before the last holds an underscore |
| BlankReplies.SinglePartExactly | scripts/docs-i18n/translator.go:82-99 | With one placeholder, no reply makes the translation blank if and only if the masked part is not white space |
| BlankReplies.CodeOrAngleIsSafe | scripts/docs-i18n/masking.go:9-71 | Every core with a code span or an angle link has a firm part |
| BlankReplies.BlankLinkBecomesBlank | scripts/docs-i18n/translator.go:82-99 | A link to a blank, with the placeholder alone as the reply, becomes a blank |
| BlankReplies.TokenPartCanBecomeBlank | scripts/docs-i18n/translator.go:82-99 | A concrete core with a part of underscores before a blank one: a reply in which the two placeholders share underscores makes the translation blank |
| Splice.ApplyReplacements | scripts/docs-i18n/markdown_segments.go:115-131 | The loop that copies gaps and values, overlapping replacements left out, as a function |
| Splice.ApplyHTMLReplacements | scripts/docs-i18n/html_translate.go:73-96 | The same after sorting by start |
| Splice.SpliceOwnText | scripts/docs-i18n/markdown_segments.go:115-131 | Putting back what was there gives back the text, in any order and with overlaps |
| Splice.SpliceInverse | scripts/docs-i18n/markdown_segments.go:115-131 | Whatever is put in at disjoint places, another splice takes it out again and recovers the text |
| Splice.SortUnique | scripts/docs-i18n/html_translate.go:92-96 | With distinct starts, two sorted lists with the same members are equal |
| Splice.CollectionOrderIsIrrelevant | scripts/docs-i18n/html_translate.go:73-96 | The order in which replacements with distinct starts were collected does not change the result |
| Segments.Extractor.BlockParent | scripts/docs-i18n/markdown_segments.go:97-113 | The nearest ancestor that is a translatable block |
| Segments.Extractor.VisitText | scripts/docs-i18n/markdown_segments.go:49-86 | A text node is added as its piece, or not at all when it is blank, skipped or outside a block |
| Segments.Extractor.Walk | scripts/docs-i18n/markdown_segments.go:20-88 | After any subtree the skip depth is what it was, and exactly the pieces below that are not skipped were added, in order |
| Segments.PiecesAre | scripts/docs-i18n/markdown_segments.go:20-113 | For every tree: a piece is collected if and only if some path from the root leads to its text node, its text is not blank, no node on the path is one of those that are skipped, and its block is the innermost translatable block on the path |
| Segments.AddAllGroups | scripts/docs-i18n/markdown_segments.go:49-86 | The segments are the maximal runs of pieces of one block with only white space between them |
| Segments.AddAllCovers | scripts/docs-i18n/markdown_segments.go:49-86 | The segments stay sorted, disjoint and not blank, cover every piece, and hold nothing else but white space |
| Segments.ExtractSegments | scripts/docs-i18n/markdown_segments.go:13-95 | For every tree with ordered text nodes: the segments are sorted and disjoint, group the pieces, begin and end at pieces, and carry their own text. They cover every text that some path from the root leads to without a skipped node, inside a translatable block, and hold nothing else but white space |
| Segments.TranslateBody | scripts/docs-i18n/markdown_segments.go:13-131 | Each segment is replaced by its translation; with the identity the body comes back, and with any translation the body can be recovered from the result |
| TaggedDocument.RoundTripExactly | scripts/docs-i18n/doc_mode.go:82-124 | Parsing a formatted pair gives back both parts exactly, empty ones and edge newlines included, if and only if neither holds its own closing tag |
| TaggedDocument.ParsesExactly | scripts/docs-i18n/doc_mode.go:86-124 | A reply is taken if and only if it is white space, the two sections between their tags in this order, and white space; the two texts are what stands between the tags, up to the first closing tag, less one newline at each end. What stands between the sections is passed over |
| FrontMatter.SplitFrontMatter | scripts/docs-i18n/process.go:91-115 | The line scan with its early returns gives the split of which the next three rows say what it is |
| FrontMatter.WithoutFrontMatter | scripts/docs-i18n/process.go:91-109 | A text that does not begin with the fence, or in which no line after the first trims to it, is all body |
| FrontMatter.WithFrontMatter | scripts/docs-i18n/process.go:91-115 | A text that begins with the fence and whose lines are a first one, a block in which no line trims to the fence, one that does, and a rest: the front matter is the block, and the body the rest less one newline at its start |
| FrontMatter.FrontMatterForm | scripts/docs-i18n/process.go:91-115 | Every text that begins with the fence and has a later line that trims to it is of this form |
| FrontMatter.SplitUndoesFenceExactly | scripts/docs-i18n/process.go:91-134 | Splitting a fenced block and any body gives back both if and only if no line of the block trims to the fence |
| FrontMatter.SkipsExactlyWhenCurrent | scripts/docs-i18n/doc_mode.go:221-254 | When no line of its printed front matter trims to the fence: a written file says skip if and only if the stored and the current source hash agree up to case, and its body is recovered exactly |
| FrontMatter.SplitReadsUpToFence | scripts/docs-i18n/process.go:91-134 | Splitting a fenced block gives its lines up to the first that trims to the fence |
| FrontMatter.SkipsExactlyWhenNamed | scripts/docs-i18n/doc_mode.go:221-254 | A written file says skip if and only if its printed front matter, up to the first line that trims to the fence, names the hash of the current source |
| FrontMatter.NamedExactly | scripts/docs-i18n/doc_mode.go:230-254 | Front matter names a hash if and only if it can be read and its entry x-i18n holds a source_hash that is not blank and agrees with it, up to case and outer white space |
| FrontMatter.EqualFoldExactly | scripts/docs-i18n/doc_mode.go:241 | Two hashes agree if and only if they have the same length and at every place the same letter, up to case |
| FrontMatterMarkers.BuildFrontmatterTemplate | scripts/docs-i18n/doc_mode.go:133-167 | The template and the markers belong to the same list of values, in the same order |
| FrontMatterMarkers.TemplateReads | scripts/docs-i18n/doc_mode.go:133-171 | The template, written out, of any front matter with a summary, a title and a list of something that is no string and a string; the places in the list count both |
| FrontMatterMarkers.ApplyFrontmatterTranslations | scripts/docs-i18n/doc_mode.go:173-207 | The values between the markers, trimmed, put in their places; an error at the first marker that is missing |
| FrontMatterMarkers.AppliesExactly | scripts/docs-i18n/doc_mode.go:173-207 | A translated front matter is taken if and only if for every marker pair it holds the start marker and somewhere after it the end marker |
| FrontMatterMarkers.SetReadWhenValue | scripts/docs-i18n/doc_mode.go:209-219 | The item at the index replaced, the list made longer with empty items when it is too short, all others kept, and no list taken for an empty one |
| FrontMatterMarkers.TemplateValue | scripts/docs-i18n/doc_mode.go:133-207 | From a template with any number of lines every value can be taken out by its own markers: no marker occurs inside another, index 1 and index 10 included |
| FrontMatterMarkers.UnchangedTemplate | scripts/docs-i18n/doc_mode.go:133-219 | Applying the unchanged template trims the string values and leaves every other key and item as it was, provided no value holds the beginning of a marker |
| FrontMatterMarkers.BlankTemplateExactly | scripts/docs-i18n/doc_mode.go:133-167 | The template is blank if and only if the front matter has no string for a summary or a title and no list for read_when |
| DocMode.ProcessFileDoc | scripts/docs-i18n/doc_mode.go:20-80 | The whole-document run with all its early returns: skipped, written or one of five failures |
| DocMode.OutcomeExactly | scripts/docs-i18n/doc_mode.go:31-80 | A file is written if and only if the run does not skip, the front matter can be read, the model answers, the answer has its two sections, the first is not blank when the source has front matter, and no marker is lost; it is then the fenced front matter with its provenance before the translated body. Each of the five failures has its condition in the same terms |
| DocMode.SkipsExactlyWhenTheFileSaysSo | scripts/docs-i18n/doc_mode.go:28-37 | Without overwriting, a run skips if and only if there is an output whose front matter names the hash of the source |
| DocMode.OverwritingIgnoresTheFile | scripts/docs-i18n/doc_mode.go:29-37 | With overwriting no run skips, and the outcome is the one without an output |
| DocMode.WrittenThenSkipped | scripts/docs-i18n/doc_mode.go:20-80 | When no line of the printed front matter trims to the fence: a written document is skipped by the next run if and only if the source's hash is the same up to case |
| DocMode.OutputSplitsExactly | scripts/docs-i18n/doc_mode.go:71-79 | What is written splits into its printed front matter and its body if and only if no line of the former trims to the fence |
| DocMode.WrittenThenSkippedExactly | scripts/docs-i18n/doc_mode.go:20-80 | Whatever the model replied: the written file is skipped for its source and no other if and only if its printed front matter, up to the first line that trims to the fence, names the hash |
| DocMode.FenceInReplyIsLost | scripts/docs-i18n/doc_mode.go:20-80 | A concrete source and reply: the document is written, does not split as it was put together, and is not skipped by the next run over the same source |
| DocMode.EchoDocument | scripts/docs-i18n/doc_mode.go:39-71 | With a model that repeats its input the body comes back exactly and the front matter trimmed, except that front matter without a string summary or title and without a read_when list is refused |
| DocMode.AuthorOnlyIsRefused | scripts/docs-i18n/doc_mode.go:39-71 | A concrete document, with only an author in its front matter, that is refused for every body |
| TranslationMemory.Memory.Load | scripts/docs-i18n/tm.go:34-68 | Blank lines skipped, entries without key or translation dropped, an error for an unreadable line, every entry under its own key |
| TranslationMemory.LoadsExactly | scripts/docs-i18n/tm.go:34-68 | Without a file the memory is empty. A file fails to load if and only if some line is neither blank nor an entry; otherwise a key has an entry if and only if it is the one on the last line that gives an entry for it with a translation |
| TranslationMemory.Memory.Get | scripts/docs-i18n/tm.go:70-79 | The entry of the key unless its translation is blank |
| TranslationMemory.Memory.Put | scripts/docs-i18n/tm.go:81-86 | The entry stored under its key, nothing for an empty key; every entry stays under its own key |
| TranslationMemory.Memory.Save | scripts/docs-i18n/tm.go:88-132 | One line per entry in the order of the keys, whatever order the map yields |
| TranslationMemory.LoadAfterSave | scripts/docs-i18n/tm.go:34-132 | Loading what was saved gives the memory without its blank translations, and every key is answered as before |
| Process.FileRun.TranslatePiece | scripts/docs-i18n/process.go:47-74 | One piece: from the memory, or from the model and then stored |
| Process.FileRun.TranslateAll | scripts/docs-i18n/process.go:47-74 | The loop over all pieces, with the memory and the calls it leaves, also when a call fails |
| Process.RunAddsFor | scripts/docs-i18n/process.go:47-74 | Over all the pieces: every entry that was not there before tells of one of the pieces, with its text, the hash of that, the key made from both and its place; every new call is for one of the pieces and none for a blank snippet |
| Process.BlankSnippetIsKept | scripts/docs-i18n/process.go:173-176 | A snippet that is all white space is given back as it is and costs no call |
| Process.AskedAtMostOnce | scripts/docs-i18n/process.go:47-74 | With a model that answers none of the file's pieces with a blank, each key is asked for at most once, and every piece is remembered with the translation that was used |
| Process.SecondRunAsksNothing | scripts/docs-i18n/process.go:136-202 | After such a run, a second one over the same pieces after saving and loading asks nothing of any model and gives the same translations |
| Process.BlankResultIsForgotten | scripts/docs-i18n/process.go:173-202 | After a call that succeeded, the piece is answered from memory if and only if the result was not blank |
| TranslatedRun.SafeTextIsNeverBlank | scripts/docs-i18n/translator.go:44-59 | Nothing that the translator can return for a text with a safe core is blank |
| TranslatedRun.SafeRunAsksOnce | scripts/docs-i18n/process.go:47-74 | With the translator itself, whatever its model replies: over pieces with safe cores each key is asked for at most once, and a second run after saving and loading asks nothing and gives the same translations |
| TranslatedRun.FirstRunWithoutFile | scripts/docs-i18n/tm.go:34-41 | Without a memory file a run starts, asks for its first piece, and for no key twice; and a second run after saving and loading asks nothing and gives the same translations |
| TranslatedRun.RememberedExactly | scripts/docs-i18n/process.go:173-202 | A piece is remembered after every successful call of the translator if and only if its core is safe, which can be seen before the call; under the same hypotheses as BlankReplies.NeverBlankExactly |
| TranslatedRun.BlankLinkCanBeForgotten | scripts/docs-i18n/process.go:173-202 | The concrete piece that is not remembered: a link to a blank |
| Ordering.LessExactly | extensions/phone-control/index.ts:35-37 | The order is that of the first place where two strings differ, where the one that ends there comes first |
| Ordering.SortedUnique | extensions/phone-control/index.ts:35-37 | Two strictly sorted lists with the same members are equal, so a sorted list is determined by its set |
| PairNotify.Notifier.PollPending | extensions/device-pair/notify.ts:250-311 | One poll in place: the stored state and the sends are those of the poll as a function |
| PairNotify.Notifier.HandleCommand | extensions/device-pair/notify.ts:313-425 | The on, off and once commands in place: the stored state is that of the step, and the next rows say what a step does |
| PairNotify.CommandDoes | extensions/device-pair/notify.ts:313-400 | For every stored state with one subscriber per key and every sender with a stable key: after on or once there is exactly one subscriber with the key, persistent or one-shot, dated now if it is new or had the other mode and otherwise as it was; after off there is none; all other subscribers and the recorded requests are as they were read |
| PairNotify.NamelessCommandDoesNothing | extensions/device-pair/notify.ts:139-155 | A command whose three names are all blank changes nothing |
| PairNotify.SenderExactly | extensions/device-pair/notify.ts:139-155 | The target of a command is its first name that is not blank, trimmed, with the account and the thread as given |
| PairNotify.ReadExactly | extensions/device-pair/notify.ts:56-108 | A subscriber is read if and only if the file has an entry with its mode and date whose trimmed texts are its own, and whose name is not blank; a request is read if and only if its id is not blank and its time is above zero |
| PairNotify.WritesOnlyChanges | extensions/device-pair/notify.ts:250-400 | A poll or a command writes the file only when something changes that is read from it, with a positive clock and no pending request with a blank id |
| PairNotify.HearsOfExactly | extensions/device-pair/notify.ts:198-219 | A subscriber hears of a request if and only if it is persistent, or the request has a positive time stamp that is not before it subscribed |
| PairNotify.KeyExactly | extensions/device-pair/notify.ts:125-131 | Without bars in their names, two targets have the same key if and only if they have the same name, account and thread |
| PairNotify.BarConfusesKeys | extensions/device-pair/notify.ts:125-131 | Two concrete targets, of different chats, that have the same key |
| PairNotify.PollPrunes | extensions/device-pair/notify.ts:250-267 | After every poll each recorded request is pending and was recorded at most 24 hours ago |
| PairNotify.NeverRepeats | extensions/device-pair/notify.ts:250-311 | In every run, once a send about a request succeeded, nothing more is sent about it to anyone while every poll finds it pending and at most 24 hours have passed |
| PairNotify.NeverSentAgainExactly | extensions/device-pair/notify.ts:56-311 | For a request id, no run ever sends about it again after a success (while every poll finds it pending and at most 24 hours have passed) if and only if the id is not white space only |
| PairNotify.PollSendsExactly | extensions/device-pair/notify.ts:206-311 | A poll sends to a subscriber about a request if and only if the request is pending, was not announced within the last day, was not reached earlier in the same poll, and the subscriber should hear of it |
| PairNotify.OneSubscriberPerKey | extensions/device-pair/notify.ts:157-179 | In every run of polls and commands with stable keys there is at most one subscriber per key |
| PairNotify.PaddedAccountIsUnstable | extensions/device-pair/notify.ts:56-179 | A concrete target whose key is another after it is read back |
| PairNotify.SubscribingKeepsKeysDistinctExactly | extensions/device-pair/notify.ts:125-179 | Subscribing a target keeps the keys distinct in every stored state if and only if reading the target back leaves its key as it is |
| PairNotify.PollDropsExactlyReachedOnce | extensions/device-pair/notify.ts:268-305 | A subscriber is gone after a poll if and only if it was one-shot and some send to it succeeded |
| PhoneControl.UniqSortedIs | extensions/phone-control/index.ts:35-37 | A normalised list is the sorted list of its trimmed, non-empty entries, each once |
| PhoneControl.EntriesExactly | extensions/phone-control/index.ts:35-37 | A text is an entry of a list if and only if it is not empty and some item of the list trims to it |
| PhoneControl.CommandsByName | extensions/phone-control/index.ts:29-44 | The commands of each group, by name |
| PhoneControl.Plugin.Arm | extensions/phone-control/index.ts:369-416 | The configuration with the group's commands allowed and not denied, and the record of exactly what changed |
| PhoneControl.Plugin.DisarmNow | extensions/phone-control/index.ts:183-235 | The recorded delta taken back, the record removed, and the reported lists are the commands really removed and restored |
| PhoneControl.Plugin.Tick | extensions/phone-control/index.ts:293-307 | Disarms when the record has expired, and otherwise changes nothing |
| PhoneControl.ArmLastsItsTime | extensions/phone-control/index.ts:293-416 | In every run, while after an arm only edits and ticks before its end follow, it stays armed and the ticks change nothing; the next tick disarms if and only if it comes at the time of the arm plus its duration or later |
| PhoneControl.ArmAllowsItsGroup | extensions/phone-control/index.ts:369-416 | In every run, after an arm a command of its group is allowed and not denied, and every other command is on each list if and only if it was |
| PhoneControl.RecordTells | extensions/phone-control/index.ts:369-416 | In every run, the record of an arm holds its time, its group, and the sorted list of exactly the commands of the group |
| PhoneControl.DisarmRestores | extensions/phone-control/index.ts:183-407 | Arming and then disarming gives back the normalised lists from before |
| PhoneControl.DisarmedEntries | extensions/phone-control/index.ts:183-235 | Whatever the lists have become, disarming removes the recorded additions, puts back the recorded removals, and touches nothing else |
| PhoneControl.DisarmUndoesLastArm | extensions/phone-control/index.ts:183-407 | In every run with outside edits, a disarm undoes exactly the delta of the most recent arm, and all other entries are as the edits left them |
| PhoneControl.DisarmAgainChangesNothing | extensions/phone-control/index.ts:183-235 | A disarm repeated after its configuration was written changes nothing more |
| PhoneControl.RearmForgetsFirstDelta | extensions/phone-control/index.ts:369-416 | A disarm after two arms goes back to the state between them and leaves the first group allowed; the lists from before both come back if and only if the first arm changed nothing |
| PhoneControl.RunStaysWithin | extensions/phone-control/index.ts:183-416 | Without outside edits no run loses an allowed command, denies one that was not denied, or touches a command outside the groups |
| BlockRewrite.RewriteTwiceExactly | scripts/sync-moonshot-docs.ts:15-51 | Rewriting the rewritten text changes nothing if and only if the end marker occurs neither in the start marker nor in an indented line |
| BlockRewrite.OutsideIsKept | scripts/sync-moonshot-docs.ts:15-51 | What is before and after the block is kept, and all that is left out after the end marker is the rest of its line; with nothing after that line the result ends in the end marker, so that a final newline is lost |
| BlockRewrite.FailsExactly | scripts/sync-moonshot-docs.ts:21-28 | A missing start marker is reported if and only if the text does not hold it, and a missing end marker if and only if it does, but no end marker is found from a start marker on |
| SparkleBuild.FloorsAreArithmetic | scripts/sparkle-build.ts:14-53 | The floors read off digit strings are the date times 10, and the date times 100 plus the lane; the old floor is below a thousand million, and the new one is not, if and only if the year is at least 1000 |
| SparkleBuild.LaneFloorsAreOrdered | scripts/sparkle-build.ts:37-57 | Canonical build numbers are ordered by date, and within a date by lane |
| SparkleBuild.MatchesExactly | scripts/sparkle-build.ts:12-30 | A string is read as a version with these four parts if and only if it is the text of them in the version form |
| SparkleBuild.LaneOf | scripts/sparkle-build.ts:40-50 | Without a suffix the lane is 90; with one that ends in a number it is that number, but at most 89; with any other it is 1 |
| SparkleBuild.BuildOfVersion | scripts/sparkle-build.ts:14-57 | For every text in the version form: the build number is year, month, day and lane in decimal places of two, and there is none if and only if the month is not from 1 to 12 or the day not from 1 to 31 |
| Appcast.CollectErrors | scripts/release-check.ts:247-304 | The two loops report the version errors and then the floor errors, in the order of the items |
| Appcast.PassesExactly | scripts/release-check.ts:247-304 | A feed has no errors if and only if it has items, all builds are numeric, and every calendar version is numbered at or above its floor |
| Appcast.ErrorsExactly | scripts/release-check.ts:247-304 | An error is reported for a feed if and only if it is due: no items, an item without a build, one whose build is not a number, or a dated one below its floor. That is the new floor if and only if the item is numbered in the new way, is dated on the fixed date or later, or is dated no earlier than some item that is numbered in the new way |
| Appcast.RegimesDoNotMix | scripts/release-check.ts:282-301 | In a feed without errors, in any order, every calendar version from the year 1000 on that is numbered in the old way is dated before all that are numbered in the new way, and before the fixed date |
| Utf16.SliceUtf16Safe | src/utils.ts:237-263 | The step by step adjustment of the bounds gives the plain slice shortened by the half pairs at its ends |
| Utf16.SliceCutsNoPair | src/utils.ts:237-263 | For all bounds, negative and swapped ones included, the result is the plain slice less at most one unit at each end, and neither end is inside a pair |
| Utf16.SliceKeepsWellFormed | src/utils.ts:237-263 | Slices of well-formed strings are well-formed |
| Utf16.PlainSliceExactly | src/utils.ts:237-263 | The result is the plain slice if and only if that is empty or no bound is inside a pair |
| Utf16.IndexIsWithin | src/utils.ts:237-263 | An index counts from the front, a negative one from the end, and one outside the string stands for the nearer end |
| Utf16.NegativeCountsFromTheEnd | src/utils.ts:237-263 | Negative bounds give the slice that their places counted from the front give |
| Utf16.BoundsCanBeSwapped | src/utils.ts:237-263 | The order of the two bounds does not matter |
| Utf16.PlainBoundsGiveThePart | src/utils.ts:237-263 | Ordered bounds within the string and in no pair give that part of it |
| Utf16.TruncateIsLongestPrefix | src/utils.ts:266-272 | Truncating gives the longest prefix within the limit that ends in no pair, of length limit or limit - 1 when the string is too long |
| ThreadOwnership.Hooks.CleanExpiredMentions | extensions/thread-ownership/index.ts:15-22 | Exactly the mentions older than five minutes are removed |
| ThreadOwnership.Hooks.MessageReceived | extensions/thread-ownership/index.ts:63-81 | A mention cleans the table and records the thread; other messages change nothing |
| ThreadOwnership.Hooks.MessageSending | extensions/thread-ownership/index.ts:87-132 | A send is cancelled if and only if it is enforced, no mention is in the table, and another agent owns the thread |
| ThreadOwnership.TableRefinesLog | extensions/thread-ownership/index.ts:12-101 | In every run under a clock that does not go back, the check is bypassed if and only if the full log holds a mention of the thread at most five minutes old; so the pruned table decides as the log would |
| ThreadOwnership.HeldBackExactly | extensions/thread-ownership/index.ts:12-132 | In every run under a clock that does not go back, with no colons in the channels: a message is held back if and only if it goes to a thread on Slack in which ownership is enforced, the agent was not named in that channel and thread in the last five minutes, and another agent owns the thread |
| ThreadOwnership.KeyExactly | extensions/thread-ownership/index.ts:79-101 | Without colons in the channels, two threads have the same key if and only if they are the same thread of the same channel |
| ThreadOwnership.ColonConfusesKeys | extensions/thread-ownership/index.ts:79-101 | Two concrete threads of different channels that have the same key |

## Left out

- Masking.MaskRoundTrip: excludes texts that hold OC_I18N_ with the digits of a handed-out placeholder outside any token. Some of them come back and some do not: it depends on whether the characters beside that part complete it to a token after each of the replacements before, so with several placeholders the only exact condition is the outcome itself. With one placeholder StrayParts.SinglePlaceholderExactly is exact.
- BlankReplies.NeverBlankExactly: leaves out cores whose last masked part is white space and that have an earlier part with an underscore which some later placeholder can overlap at its end without holding the part, such as `O_`. There later placeholders can eat the part in several steps, depending on what the other parts put beside it. Texts that go through a hundred thousand numbers, whose tokens differ in length, are left out too.
- BlankReplies.SafeCoreIsNeverBlank: leaves out texts that go through a hundred thousand numbers.
- Segments.ExtractSegments: takes the parser's tree as given, with its text nodes in order and apart; the Markdown and HTML parsers are not modelled.
- Segments.Extractor.VisitText: a node is identified by its path from the root instead of by its address.
- Splice.ApplyHTMLReplacements: replacements with equal starts are taken in their input order, which the library's sort leaves open.
- Process.AskedAtMostOnce: is for results that are not blank; TranslatedRun.SafeRunAsksOnce shows for which texts the translator gives only such results, and Process.BlankResultIsForgotten what happens on others.
- Process.FileRun.TranslatePiece: front matter values come as a list of snippets before the segments; the map they are read from and written to is modelled in FrontMatterMarkers only for the whole-document run.
- TranslationMemory.Memory.Save: writing to a temporary file and renaming it is one step.
- FrontMatter.SkipsExactlyWhenCurrent: hashes are compared up to the case of ASCII letters, not of all letters; that the YAML library reads back the one front matter that was written, without its last newline, is assumed.
- DocMode.ProcessFileDoc: errors of paths and files are not modelled.
- PairNotify.OneSubscriberPerKey: a poll and a command that overlap can lose an update in the code; here each is one step.
- PairNotify.NeverRepeats: time stamps are whole numbers and the poll's clock is positive; ids of white space repeat, see PairNotify.NeverSentAgainExactly.
- PairNotify.PollSendsExactly: the poll's clock is positive, and the recorded ids are a map: a request whose id names a property that every object has, such as `constructor`, counts as recorded in the code and is never announced.
- PhoneControl.UniqSortedIs: entries are compared by code points, while the code compares UTF-16 code units.
- PairNotify.Notifier.HandleCommand: the status and help replies, the refusal of channels other than Telegram, and the texts of all messages are not modelled.
- PhoneControl.Plugin.Arm: parsing of groups and durations and the old state files' other fields are not modelled.
- Appcast.CollectErrors: starts from the three texts of each item; finding them in the XML is not modelled, and builds are exact numbers also above 2^53.
- ThreadOwnership.Hooks.MessageSending: the ownership service is an arbitrary answer; a 409 whose body cannot be read counts as no answer.
- Utf16.SliceUtf16Safe: bounds are integers; fractions and NaN are not modelled.
- PoolProgress.AlwaysReturnsExactly: processing a file and starting a translator always come to an end.
- Go strings are sequences of characters instead of bytes; counters and indices are unbounded.
- JSON, YAML, SHA-256 and the model are arbitrary functions; of the first two it is assumed that what was written is read back, where a lemma says so.
- Reading and writing of files, the model's process, HTTP and logging.
- The prompts, the glossary, the queue filter and the ordering of files in `scripts/docs-i18n`.
- HTML block translation apart from its splicing.
- All provider plugins, channels, user interfaces and build scripts of the repository.
