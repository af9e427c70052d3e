# Aperture OMR: a verified model

Aperture OMR reads scanned bubble sheets. A PDF is split into blocks of pages,
each block is rendered, its pages are matched with the pages of a template by
searching for anchors, the result is stored as a scan, and stored scans are marked.
This project models the algorithms underneath in Dafny and proves what they promise:

- the search for the orientation of an anchor, in `anchor_search.dfy`,
  `anchor_search_proofs.dfy` and `find_anchors.dfy`;
- the matching of the pages of a scan with the pages of a template, in
  `preprocess.dfy`, `preprocess_proofs.dfy` and `permutations.dfy`;
- the scan store with its rollback and self-repair, in `scan_store.dfy`,
  `scan_store_rows.dfy`, `scan_store_runs.dfy`, `scan_store_proofs.dfy`, and with
  overlapping requests in `scan_store_overlap.dfy`;
- the partition of a document into blocks, in `pdf.dfy`;
- the concurrent pipeline from a PDF to the answer of the request, in `crew.dfy`
  (the shared counter), `pipeline.dfy` (the step relation), `pipeline_crews.dfy`,
  `pipeline_flow.dfy` and `pipeline_proofs.dfy` (safety), `pipeline_outcomes.dfy` (what
  each result holds), `pipeline_progress.dfy`, `pipeline_waiting.dfy` and
  `pipeline_deadlocks.dfy` (progress), `pipeline_races.dfy` (schedules that go wrong) and
  `scan_handler.dfy`;
- `ForEach`, in `for_each.dfy`, `for_each_proofs.dfy`, `for_each_stops.dfy` and
  `for_each_races.dfy`;
- the marking of bubbles in place, in `marking.dfy`, `marking_proofs.dfy` and
  `marking_coordinates.dfy`;
- gray conversion and the M4t file format, in `codecs.dfy`;
- rectangle fitting and template scaling, in `fitting.dfy` and `template_scaling.dfy`;
- the job registrar, in `jobs.dfy` and `jobs_runs.dfy`, and the ring buffer, in
  `ring.dfy`.

`omr.dfy`, `sequences.dfy` and `arithmetic.dfy` hold shared vocabulary.
`dafny verify dfyconfig.toml` checks everything.

## How the model is built

Code that changes state is a method or a class proved against a function of its
inputs or of its old state; what the repository promises is then proved about that
function. What the repository leaves to others is a parameter: matching an anchor at
an angle, finding anchors on a page, rendering a page, compressing bytes, making a
matrix of bytes, binarizing a page, whether a file can be created or a row inserted,
the time.

`float64` is `real`. A conversion to an unsigned pixel count drops the fraction, and
a conversion to `int` truncates toward zero. `int32` values in file headers, the
bytes of images and the 32-bit sum of the gray conversion are bounded explicitly.
UUIDs are fresh natural numbers. Channels are histories: what was sent, how much of
it was received, and whether the channel is closed.

### The pipeline

`Pipeline.Step` has one step for each action of a goroutine between two
synchronisation points: raising or lowering a counter, sending, receiving,
preprocessing a set, closing a channel. A send on a closed channel, a second close of
a channel, and any use of a page or of the scaled template after it was closed count
as faults. (Closing a matrix twice is allowed by `Mat.Close` and is no fault.)

A run is a sequence of enabled steps that keeps to `Pipeline.Rules`. They say whether
channels have the capacities of the source, and which of two hypotheses on the
schedule the run meets. The rendered channel is unbuffered; the output holds as many
results as there are preprocessing workers, and its consumer starts when
`PreprocessStream` returns. The hypotheses are `RenderersFirst`, no renderer brings
its counter to zero before all have raised it, and `WorkersFirst`, the same for the
workers of `PreprocessStream`, which do not close the output before the first result
is sent either. A step or run that meets both is called disciplined. Safety is proved
for every disciplined run, with the capacities or without.

The code enforces neither hypothesis, and there is a third hazard: with both, the
output can fill up before the first result is sent. For which documents that matters
is stated exactly, for every configuration with a block:

- without the first hypothesis some run faults if and only if there is more than one
  sub-document (`RenderersSafeExactly`);
- without the second, with the capacities of the source, some run faults if and only
  if the number of blocks is at most that of workers plus one
  (`FirstResultSafeExactly`);
- with both, some run gets stuck if and only if there are more blocks than workers
  (`NeverStuckExactly`, `FinishesExactly`); if there are two more, even a schedule that
  no longer keeps to the hypotheses cannot go on from there (`DeadlocksExactly`);
- so all schedules of the source are free of faults if and only if there is one
  sub-document and at least two more blocks than workers (`PipelineRaces.SafeExactly`),
  and every document has a run that faults or stops for good (`NoDocumentIsSafe`).

`PostScanPdf` preprocesses with four workers, so with both hypotheses a request can get
stuck if and only if it has more than four exams, and with six or more it can stop for
good. For a document without pages no renderer exists to close the channel
(`EmptyDocumentBlocks`).

`ForEach` starts its workers in the same way, and its output holds as many answers as
there are workers; its caller receives it when all of them were spawned. No schedule
faults if and only if there is one worker, or there are more sets than workers and none
of the first sets, as many as there are workers, makes the callback fail
(`ForEachRaces.SafeExactly`): then a worker that is ahead waits for room until the
others have started.

### Where code and comments differ

The model follows the code.

- `bisectionSearch` says that it searches between `a` and `b`; its first probe is
  `(hi-lo)/2`, which is the midpoint only if `lo` is 0. `ConvergesExactlyFromZero`
  says what this costs.
- It says that it stops when the maximum quality is "met or exceeded"; it compares
  with `>`.
- `Preprocess` says that it flips a page back when the match fails; when the second
  attempt fails with another error than ErrCannotMatchAnchor the page stays turned
  (`PreprocessProofs.Aborted`).
- `Mark` describes normalised fill ratios; the call that normalises is commented out.
- `SetFinished` describes two errors; without a result it does nothing and returns
  none, so a job run by `SyncJob` never finishes (`SyncJobNeverFinishes`).
- `ForEach` says that the error of a callback is propagated through the output; the
  worker also leaves, so sets can stay unanswered (`AnswersAllExactly`).
- `EncodeM4t` names ErrWriting for a failing writer and returns the writer's own error;
  it drops the error of closing the compressor, which writes the data still held. A save
  does not notice; to the store such a file is one that was lost.
- `SaveScan` says that a failure leaves no mess behind. A matrix file that was created
  and could not be encoded stays, and so do the files of a deleted scan whose pages
  could not be listed (`FailedQueryLeaksExactly`).

## Model

| member | source | states |
|---|---|---|
| AnchorSearch.Probe | internal/omr/anchor.go:322-342 | the inner loop probes the lower end, then the upper, keeps a strictly better one, and stops at the first error or at the first best above the maximum quality |
| AnchorSearch.BisectionSearch | internal/omr/anchor.go:296-354 | the search returns the result or error, and makes the probes in the order, of the recursive specification about which the lemmas below speak |
| AnchorSearchProofs.ProbeBothBest | internal/omr/anchor.go:322-342 | after a round the best so far is at least as good as both ends and is one of them or the earlier best |
| AnchorSearchProofs.SearchReturnsBest | internal/omr/anchor.go:303-354 | a returned candidate was probed, carries its own evaluation, and no probe of the whole search was better |
| AnchorSearchProofs.TiesKeepFirst | internal/omr/anchor.go:322-342 | of several probes with the best quality the first is returned |
| AnchorSearchProofs.RoundWidths | internal/omr/anchor.go:344-350 | the two probes of round k are B/2^k apart, where B is the width of the interval |
| AnchorSearchProofs.SearchStaysNear | internal/omr/anchor.go:303-351 | although the bracket can leave the interval, every later probe stays within B/2 of the best of the first three |
| AnchorSearchProofs.ValidatedTemplateBudget | internal/omr/anchor.go:147-151 | for every breadth below pi/2 and half a degree of precision, at most 19 evaluations are made and the search never fails with ErrMaxIterations, whatever the objective returns |
| AnchorSearchProofs.SearchExhausted | internal/omr/anchor.go:320-353 | exactly when the bracket of the last allowed round is narrower than epsilon can a search end by width; otherwise it ends by a good enough probe, by a failing probe, or with ErrMaxIterations |
| AnchorSearchProofs.FirstThree | internal/omr/anchor.go:303-342 | after the first three probes the peak lies within B/2 of the best, plus the misplacement of the first probe |
| AnchorSearchProofs.ApproachPeak | internal/omr/anchor.go:344-350 | each later round halves the bound on the distance between best and peak |
| AnchorSearchProofs.SearchConverges | internal/omr/anchor.go:303-351 | for every strictly unimodal objective with its peak in the interval, a search not cut short ends within epsilon/2 of the peak plus the misplacement of the first probe; without that term if quality falls with distance or the lower end is 0 |
| AnchorSearchProofs.MisplacedProbeLoses | internal/omr/anchor.go:305 | for every interval whose first probe is not its midpoint there is a strictly unimodal objective for which the search returns a candidate too far from the peak |
| AnchorSearchProofs.ConvergesExactlyFromZero | internal/omr/anchor.go:303-351 | the search finds the peak of every strictly unimodal objective if and only if the lower end is 0 or the interval is a point |
| FindAnchors.FindAnchor | internal/omr/anchor.go:128-175 | one anchor is located by the search around the initial angle with the configured breadth; which angles that search tries, and where it ends, is what FirstAngles, LocateValidated and LocateFindsPeak say |
| FindAnchors.FindAnchors | internal/omr/anchor.go:62-92 | succeeds if and only if every anchor, searched from the angle threaded so far, is found with enough confidence, and returns their positions; else the first that is not decides the error |
| FindAnchors.AngleIsLastConfident | internal/omr/anchor.go:85-89 | the search for each anchor is the one made for that anchor alone from the angle threaded so far: the orientation of the last earlier anchor found at the maximum quality, or the configured angle if there is none |
| FindAnchors.LocateValidated | internal/omr/anchor.go:128-175 | with a validated configuration an anchor costs at most 19 matches, and has the best quality of all angles tried |
| FindAnchors.FirstAngles | internal/omr/anchor.go:303-342 | half the breadth is tried first, whatever the initial angle, then the two ends of the interval around the initial angle; each ends the search if matching fails there or finds more than the maximum quality |
| FindAnchors.LocateFindsPeak | internal/omr/anchor.go:147-151 | with a validated configuration, if quality falls with the distance from a peak within half the breadth of the initial angle, an anchor is found better than the maximum quality or less than a quarter of a degree from the peak, unless matching fails at some angle |
| FindAnchors.LocateExhausted | internal/omr/anchor.go:313-354 | with any breadth, an anchor is located, or matching fails at some angle, if 2^20 - 1 halvings of the breadth go below half a degree; otherwise it is located only by more than the maximum quality, and giving up is the other way to fail |
| FindAnchors.RefusedAnchor | internal/omr/anchor.go:128-137 | an anchor that the checks refuse is not searched for, and the check decides the error |
| Preprocess.RotateTwice | internal/omr/preprocess.go:73-84 | turning a page twice gives back every pixel; which pixel goes where is what RotatePixels says |
| Preprocess.RotatePixels | internal/omr/preprocess.go:73 | pixel (x, y) of a turned page of width w and height h is pixel (w - 1 - x, h - 1 - y) of the page |
| Preprocess.TryPage | internal/omr/preprocess.go:65-90 | a page is tried upright, then turned, and turned back if it does not fit; what is found and how the page is left are those of one attempt |
| Preprocess.MatchTemplatePage | internal/omr/preprocess.go:63-99 | one template page takes the first remaining page that fits, by a swap, or reports why none did |
| Preprocess.MatchPages | internal/omr/preprocess.go:59-100 | the whole loop over arrays of pages ends in the pages, locations and error of the specification |
| Preprocess.Preprocess | internal/omr/preprocess.go:26-100 | a refused scan leaves all pages as they were and reports the first reason, ErrIncompatibleAspect for a template of height 0 included; any other ends as the matching does |
| Preprocess.AcceptedExactly | internal/omr/preprocess.go:26-57 | a gray page is accepted if and only if its aspect ratio differs from that of the template by at most a tenth, stated without division |
| Preprocess.RefusedFirst | internal/omr/preprocess.go:26-57 | an empty or closed page is refused before its type is looked at, and its type before its shape |
| PreprocessProofs.MatchingIsSound | internal/omr/preprocess.go:59-100 | in every outcome the pages are a permutation of the input; each matched page is upright, or turned after its upright form failed, and its locations are what FindAnchors returns on it as left; on ErrCannotMatchAnchor every unmatched page is back as it was and fits the next template page neither way up |
| PreprocessProofs.MatchedByPixels | internal/omr/preprocess.go:59-100 | each page that the loop leaves matched is a page of the input, the same pixel for pixel, or, if it does not fit as it was, upside down: pixel (x, y) is pixel (w - 1 - x, h - 1 - y); the pages left over are as they were and fit neither way up, or FindAnchors fails otherwise on one of them, which stays upside down if that was the second attempt |
| PreprocessProofs.AttemptExactly | internal/omr/preprocess.go:65-90 | what an attempt says about a page, by what FindAnchors returns on it either way up |
| PreprocessProofs.FailureIsStuck | internal/omr/preprocess.go:62-100 | a failing order shows a choice of pages for the first template pages that leaves none for the next |
| PreprocessProofs.StuckIsFailure | internal/omr/preprocess.go:62-100 | for every such choice there is an order of the pages in which the loop makes it and fails |
| PreprocessProofs.GreedySucceedsExactly | internal/omr/preprocess.go:62-100 | the greedy loop succeeds from every input order if and only if no choice for the first template pages can get stuck |
| PreprocessProofs.ExclusivePagesAreMatched | internal/omr/preprocess.go:62-100 | if each page fits exactly one template page, by a bijection, the loop succeeds from every order and realises the bijection |
| PreprocessProofs.GreedyIsIncomplete | internal/omr/preprocess.go:93-99 | without exclusivity it can fail although an assignment exists |
| ScanStore.Local.CleanupFailure | internal/server/resources/local.go:211-220 | removes exactly the recorded files, and the rows of the scan |
| ScanStore.Local.SavePage | internal/server/resources/local.go:226-262 | one page is written in the order of the source, with each error and what was written and recorded until then |
| ScanStore.Local.SaveScan | internal/server/resources/local.go:187-266 | all pages are stored, or the store is what it was but for one matrix file that was created and not encoded |
| ScanStore.Local.DeleteScan | internal/server/resources/local.go:291-299 | the rows of the scan go, with their files if the page query works |
| ScanStore.Local.DeleteAllScansFromBefore | internal/server/resources/local.go:301-306 | deletes exactly the scans created before the time, one after the other |
| ScanStore.Local.LoadScan | internal/server/resources/local.go:268-289 | the matrices of all pages in order, or an error, after deleting a scan with an unreadable page; LoadAllOrNothing says exactly when and which |
| ScanStore.Rollback | internal/server/resources/local.go:211-262 | at whichever page a save fails, the cleanup gives the store that a failed save promises |
| ScanStoreRows.OrderedQuery | internal/database/queries.sql.go:178-187 | in a consistent store, ordering the rows of a scan by page index gives them in the order in which they were inserted |
| ScanStoreProofs.QueriedRows | internal/database/queries.sql.go:178-187 | in every store, the query finds each row of the scan, as often as it is there, by ascending index |
| ScanStoreRuns.DeleteKeeps | internal/server/resources/local.go:291-299 | deleting keeps the store consistent, removes the scan and its rows and no other row, and leaves no file unreferenced but, when the page query fails, those files of the scan that were there |
| ScanStoreRuns.SaveKeeps | internal/server/resources/local.go:193-262 | on an error the tables and pictures equal their prior values and the matrices differ at most at the one fresh key that was not encoded; on success the scan is added with all rows; consistency is kept either way |
| ScanStoreProofs.SaveSucceedsExactly | internal/server/resources/local.go:193-265 | a save succeeds if and only if nothing fails and every page is gray or binary |
| ScanStoreProofs.SaveFailsExactly | internal/server/resources/local.go:193-262 | the first page that cannot be saved decides the error, which names the step that failed, and leaves at most its own matrix file as far as it was written |
| ScanStoreRuns.StepInv | internal/server/resources/local.go:187-306 | every operation, and every loss of files, keeps the invariant |
| ScanStoreRuns.InvariantOverRuns | internal/server/resources/local.go:187-306 | over every run, whatever fails, page rows belong to live scans, no file key is in two rows, and the rows of a scan are numbered from 0 |
| ScanStoreProofs.StraysAreAccounted | internal/server/resources/local.go:187-306 | over every run, whatever fails, the unreferenced files are those from before, one matrix for each save that created a file and failed to encode into it, and the files of each scan deleted while its pages could not be listed; no others, and exactly these if no file was lost |
| ScanStoreProofs.StraysOverRuns | internal/fstore/local.go:124-136 | if deletions can list the pages, no picture becomes unreferenced, and at most one matrix for each such save |
| ScanStoreProofs.EveryFileIsReferenced | internal/server/resources/local.go:187-306 | the same from an empty store: every picture is referenced and all matrices but those |
| ScanStoreProofs.FailedQueryLeaksExactly | internal/server/resources/local.go:292-298 | a deletion whose page query fails leaves no further file unreferenced if and only if neither a matrix nor a picture of the scan was there |
| ScanStoreProofs.LoadAllOrNothing | internal/server/resources/local.go:268-289 | when the page query works, loading succeeds if and only if the scan has a page and the file of every page is there, can be opened and decodes; it returns what these files decode to, by page index; otherwise it returns ErrNotFound and the scan is gone entirely |
| ScanStoreProofs.LoadFails | internal/server/resources/local.go:270-273 | when the page query fails nothing is deleted |
| ScanStoreProofs.DeletesExactly | internal/server/resources/local.go:291-299 | row by row and key by key: the rows of the scan go, the files of its pages go if the query works, and all else stays |
| ScanStoreProofs.SaveHolds | internal/server/resources/local.go:226-265 | after a successful save each row of the scan leads to a file that decodes to its page |
| ScanStoreProofs.StepHolds | internal/server/resources/local.go:187-306 | no other operation disturbs a stored scan, unless it deletes it or purges past its creation |
| ScanStoreProofs.GoneOverRuns | internal/server/resources/local.go:187-306 | a scan that is gone never comes back |
| ScanStoreProofs.HeldOverRuns | internal/server/resources/local.go:187-306 | after any run a scan is held with its pages, or gone, according to whether some operation removed it |
| ScanStoreProofs.SaveThenLoad | internal/server/resources/local.go:226-306 | round trip under interference: after a successful save of gray or binary pages and any run of other operations, loading returns the same matrices in order, typed gray, or ErrNotFound if and only if the scan was deleted or purged |
| ScanStoreOverlap.EventsApart | internal/server/resources/local.go:187-306 | whatever other requests do between two steps of a save, its scan, rows and matrices stay as they are, unless a purge finds the scan: then its row and its pages so far are gone |
| ScanStoreOverlap.OverlapLeaves | internal/server/resources/local.go:193-266 | a save of pages that can all be stored, with any events of other requests before each page, leaves exactly the pages stored after the first purge that finds the scan, and the scan itself if and only if there is none |
| ScanStoreOverlap.RowsLiveExactly | internal/server/resources/local.go:193-306 | after it the page rows belong to a live scan if and only if no purge with a time after the scan's creation comes before the last page is stored |
| ScanStoreOverlap.LoadAfterOverlap | internal/server/resources/local.go:268-289 | a load after it returns the pages from that purge on, in order, without an error |
| ScanStoreOverlap.LoadIsWholeExactly | internal/server/resources/local.go:268-306 | and all of them if and only if no such purge comes between the first page and the last, or one came before the first |
| ScanStoreOverlap.AloneIsSave | internal/server/resources/local.go:193-266 | without other requests the steps make up the save |
| Marking.CountNonZero | internal/omr/mark.go:356 | counts the white pixels of a square |
| Marking.BitwiseAnd | internal/omr/mark.go:350 | blackens the pixels of a square outside the disc, and no other pixel of the page |
| Marking.FillRatio | internal/omr/mark.go:333-362 | the ratio of a bubble on a page that earlier bubbles have already changed, and the change it makes |
| Marking.FillPage | internal/omr/mark.go:304-316 | every bubble of a page in reading order, each with the ratio left by those before it; RatiosByCoordinates says which pixels that counts |
| Marking.RawFillRatios | internal/omr/mark.go:288-320 | the ratios of all pages, NaN for bubbles without a pixel, or the error of the first page that has one; PageErrorExactly says which error |
| Marking.SelectPage | internal/omr/mark.go:54-70 | each question with the bubbles above the minimum, in order |
| Marking.SelectPages | internal/omr/mark.go:50-73 | the same for every page of the scan |
| Marking.MarkBinarized | internal/omr/mark.go:42-76 | marking after binarization: the selection made from the ratios read in place when no page is refused, or the error of the first that is |
| Marking.Mark | internal/omr/mark.go:17-76 | the first page that cannot be binarized decides the error; otherwise binarized pages are marked; every page is closed however it ends |
| MarkingProofs.InPlaceAgainstPure | internal/omr/mark.go:342-361 | a ratio read in place is at least the one on the unmodified page, and equal if and only if no earlier bubble blackened a white pixel under the disc |
| MarkingProofs.EarlierSquares | internal/omr/mark.go:305-308 | the squares changed before a bubble is read are those of the bubbles before it in reading order |
| MarkingProofs.DisjointReadsPure | internal/omr/mark.go:304-316 | if the squares of a page are pairwise disjoint, reading in place refines reading the unmodified page |
| MarkingProofs.SelectsExactly | internal/omr/mark.go:57-66 | a result is selected if and only if it is some bubble with a ratio above the minimum |
| MarkingProofs.SelectInOrder | internal/omr/mark.go:54-66 | and the selection keeps the order of the bubbles |
| MarkingProofs.MarkNeverDrops | internal/omr/mark.go:50-66 | every bubble that the unmodified page selects is selected, with at least that confidence |
| MarkingProofs.NoPixelsNoSelection | internal/omr/mark.go:333-361 | if the bubbles of a template cover no pixel, nothing is ever selected |
| MarkingCoordinates.RatiosByCoordinates | internal/omr/mark.go:239-361 | the ratio of a bubble with coordinates that are not negative is the black share of its disc, by coordinates of the page: it counts the white pixels (x, y) of the page as given, x0 <= b.x * width < x0 + 1, y0 <= b.y * height < y0 + 1, x0 <= x < x0 + 2r, y0 <= y < y0 + 2r, r <= bubbleRadius * width < r + 1, under the disc, that no earlier disc has blackened |
| MarkingCoordinates.DisjointPixels | internal/omr/mark.go:342-361 | if the squares are disjoint these are all the white pixels of its own square under the disc |
| MarkingCoordinates.AnswerByCoordinates | internal/omr/mark.go:54-66 | a bubble is in the answer to its question, with that share, if and only if the share exceeds the minimum |
| MarkingCoordinates.PageErrorExactly | internal/omr/mark.go:288-320 | why a page is not read: first its shape, then its type, then a disc of another size than its bubbles |
| MarkingCoordinates.ScanRefusedExactly | internal/omr/binarize.go:39-45 | why a page is not binarized: it is empty, or not gray, or OpenCV fails, in this order |
| Codecs.LuminosityError | internal/omr/codecs.go:37-51 | for every colour the 32-bit sum does not overflow, the result is a byte, and it differs by at most 1 from the formula with (x << 8) \| x |
| Codecs.LuminosityErrorOccurs | internal/omr/codecs.go:39-41 | the difference does occur |
| Codecs.GrayPixel | internal/omr/codecs.go:37-52 | the first three of the four bytes at y * stride + 4x are weighted as red, green and blue, and their sum over 2^16, rounded, is the gray value of pixel (x, y) |
| Codecs.PixelsInBuffer | internal/omr/codecs.go:45-48 | for every valid stride each pixel read lies in the buffer |
| Codecs.CellsDiffer | internal/omr/codecs.go:52 | different pixels write different cells |
| Codecs.CellsCover | internal/omr/codecs.go:28-29 | every cell is written by some pixel |
| Codecs.RgbaToMat | internal/omr/codecs.go:21-62 | the nested loops give the matrix whose row-major cells are the gray values of their own pixels; only an image without pixels is refused |
| Codecs.Int32RoundTrip | internal/omr/codecs.go:277-309 | a header integer is read back as it was written, negative ones included |
| Codecs.Int32BytesRoundTrip | internal/omr/codecs.go:305-309 | any four bytes are what would be written for the integer read from them |
| Codecs.LittleEndian | internal/omr/codecs.go:277-284 | the first byte written is the lowest; negative integers count down from 2^32 |
| Codecs.EncodeM4t | internal/omr/codecs.go:236-293 | the header of twelve bytes and the compressed data; or what reached the writer, and the error: for a matrix of another type, a data pointer that cannot be had, the writer's own error for a write, none if only closing the compressor fails |
| Codecs.DecodeM4t | internal/omr/codecs.go:300-328 | the matrix that OpenCV makes of the header and the bytes of a file, or the error for a short or corrupt file and for bytes that OpenCV refuses |
| Codecs.M4tLayout | internal/omr/codecs.go:236-293 | a file holds the rows, the columns and the type flag, four bytes each, and then the compressed data |
| Codecs.DecodesExactly | internal/omr/codecs.go:300-328 | which files decode, to what, and which of the two errors the others give |
| Codecs.M4tRoundTrip | internal/omr/codecs.go:236-328 | decoding an encoded gray or binary matrix gives the same matrix, typed gray |
| Pdf.DealBlocks | internal/pdf/pdf.go:223-233 | dealing the blocks one by one gives each subset the floor or ceiling of the mean, larger ones first |
| Pdf.MakeSubset | internal/pdf/pdf.go:239-249 | a subset of whole blocks that follow one another |
| Pdf.BlockPartition | internal/pdf/pdf.go:218-252 | fails if and only if the block size does not divide n; else the subsets tile pages 1 to n in whole blocks, none is empty, there are as many as asked for or as there are blocks, and their sizes differ by at most one block, larger ones first |
| Pdf.PageIsCovered | internal/pdf/pdf.go:235-249 | every page lies in some block |
| Pdf.PageIsCoveredOnce | internal/pdf/pdf.go:235-249 | and in no other |
| Pdf.RenderPages | internal/pdf/pdf.go:259-289 | all pages of a range in order, the first error, or ErrPageOutOfBounds |
| Pdf.BlockProvenance | internal/pdf/pdf.go:103-119 | the pages rendered for a block of a sub-document are that block's pages of the document, and the bounds check never fires |
| Pdf.Workers | internal/pdf/pdf.go:62-76 | at least one worker is asked for, and at most six for blocks of two pages or more |
| Pdf.WorkersExactly | internal/pdf/pdf.go:62-76 | what was asked for, or half the processors, but at most six, is the number of workers for blocks of two pages; each page more or less takes one away or adds one |
| Pdf.SpanExactly | internal/pdf/pdf.go:259-289 | the pages of a range one by one, or which error it gives |
| Crew.Raise | internal/omr/stream.go:153-155 | raising a counter keeps its meaning: it counts the workers alive |
| Crew.Lower | internal/omr/stream.go:160-163 | if all have raised it, the worker that brings it to zero is the last one alive |
| Crew.Close | internal/omr/stream.go:160-163 | that worker finds the channel open, and when it has closed it all workers are gone |
| PipelineCrews.RenderStep | internal/pdf/pdf.go:91-122 | every step of a renderer keeps: blocks sent and blocks to send are all blocks, each set is what rendering makes of its block, and the channel is open |
| PipelineFlow.WorkIsOpen | internal/omr/stream.go:171-185 | no page of a set in work has been closed |
| PipelineFlow.FlowCalibrate | internal/omr/stream.go:124-143 | the first set becomes the first result, its pages close, and nothing is lost |
| PipelineFlow.FlowFail | internal/omr/stream.go:126-141 | a failed calibration closes the pages of the first set |
| PipelineFlow.FlowWork | internal/omr/stream.go:156-185 | preprocessing moves a set from in work to answered and closes its open pages; what the answer holds is what OutcomesExactly says |
| PipelineProofs.StepKeeps | internal/omr/stream.go:110-185 | every disciplined step of renderers, workers, main goroutine or consumer keeps the invariant of the pipeline |
| PipelineProofs.NoFaults | internal/omr/stream.go:110-185 | in no schedule that meets both hypotheses is anything sent on a closed channel, a channel closed twice, or a page or the template used after it was closed |
| PipelineProofs.IndexInRange | internal/server/handler/scan.go:112-116 | the index the consumer takes is below the number of exams |
| PipelineProofs.OneResultPerBlock | internal/omr/stream.go:143-184 | when the output is closed every block has exactly one result, and every rendered matrix and the template are closed, while all pages of results are open; which results are errors is what OutcomesExactly says |
| PipelineOutcomes.OutcomesExactly | internal/omr/stream.go:143-185 | over every run a result is an error without pages if and only if rendering its block failed, or preprocessing it did, by the worker or by the calibration that took it; otherwise it holds the preprocessed pages 0, 1, ... of its block, in order, and the set rendered for it their rendered ones |
| PipelineOutcomes.EverythingDelivered | internal/omr/stream.go:110-185 | if all of these succeed no result is an error, and when the output is closed every block has one, with all its pages |
| PipelineOutcomes.FaultsExactly | internal/omr/stream.go:110-185 | what the model counts as a fault: a send on a closed channel, a second close, or preprocessing a set when the template or one of its pages is closed |
| PipelineProofs.FailureClosesAll | internal/omr/stream.go:126-141 | after a failed calibration, when the input is drained every block was rendered and every rendered matrix is closed |
| PipelineProgress.StepUsesBudget | internal/omr/stream.go:153-165 | every step, disciplined or not, uses up a measure |
| PipelineProgress.EveryScheduleEnds | internal/omr/stream.go:153-165 | no schedule, by any rules, has more than 5 steps for each block, 3 for each sub-document and 4 for each worker |
| PipelineProgress.OnlyFirstResultWaits | internal/omr/stream.go:150-168 | while a request is not over and no renderer, worker or consumer can move, the one thing left to do is to send the first result |
| PipelineWaiting.ReachableFilled | internal/omr/stream.go:150-168 | the output never holds more results than there are workers |
| PipelineWaiting.RenderedIsUnbuffered | internal/pdf/pdf.go:88-124 | at most one rendered set is sent and not received, and then somebody waits for it |
| PipelineWaiting.SettledShape | internal/omr/stream.go:150-168 | when only the first result is left to send, either the output is full and a worker waits for room, or all other results are in it and the last worker is about to close it |
| PipelineWaiting.WaitForFirstResult | internal/omr/stream.go:150-168 | every configuration with a block has a run to that point |
| PipelineDeadlocks.NeverStuck | internal/omr/stream.go:150-168 | with no more blocks than workers some step that keeps to the hypotheses and capacities is possible until the request is over |
| PipelineDeadlocks.FirstResultCanBlock | internal/omr/stream.go:150-168 | every configuration with more blocks than workers has a run, within the hypotheses, to a state where the full output stops everybody before the first result is sent |
| PipelineDeadlocks.NeverStuckExactly | internal/omr/stream.go:150-168 | no run gets stuck if and only if there are no more blocks than workers |
| PipelineDeadlocks.MovesUntilFinished | internal/omr/stream.go:150-168 | then a schedule can go on if and only if the request is not over |
| PipelineDeadlocks.EveryRunCanFinish | internal/omr/stream.go:150-168 | then every run can be continued to one that finishes the request |
| PipelineDeadlocks.FinishesExactly | internal/omr/stream.go:150-168 | every run can be continued until the request is over if and only if there are no more blocks than workers |
| PipelineDeadlocks.DeadlocksExactly | internal/omr/stream.go:150-168 | a run within the hypotheses can reach an unfinished state from which not even a schedule outside them can go on, if and only if there are at least two more blocks than workers |
| PipelineRaces.ProtectedIsSafe | internal/omr/stream.go:150-168 | no schedule faults if each hypothesis is met or made superfluous by the document: one sub-document for the first, the capacities of the source and at least two more blocks than workers for the second |
| PipelineRaces.RendererOutlivesChannel | internal/pdf/pdf.go:91-98 | every document with two sub-documents, even if all its pages render and are preprocessed, has a run without a fault in which the second renderer starts after the first has closed the channel and is about to send on it, or to close it again if it has no block |
| PipelineRaces.RenderersSafeExactly | internal/pdf/pdf.go:91-98 | without the hypothesis on renderers no schedule faults if and only if there is one sub-document, whatever the capacities |
| PipelineRaces.OutputClosesEarly | internal/omr/stream.go:153-168 | without the hypothesis on workers some run closes the output before the first result is sent: for every document with unbounded channels, and with those of the source for at most one more block than workers |
| PipelineRaces.FirstResultSafeExactly | internal/omr/stream.go:153-168 | with the channels of the source sending the first result is safe in every schedule if and only if there are at least two more blocks than workers |
| PipelineRaces.SafeExactly | internal/pdf/pdf.go:91-98 | all schedules of the source are free of faults if and only if there is one sub-document and at least two more blocks than workers |
| PipelineRaces.NoDocumentIsSafe | internal/omr/stream.go:150-168 | every document has a schedule that faults, or one that stops for good before the request is over |
| PipelineRaces.EmptyDocumentBlocks | internal/pdf/pdf.go:88-124 | without a block nothing can happen, and the request does not end |
| ScanHandler.NewScanResult | internal/server/dto/outgoing.go:41-61 | keeps the entries that are not blank, in order |
| ScanHandler.CollectResults | internal/server/handler/scan.go:112-142 | given no more exams than slots, the answer holds the identifiers of the accepted exams and the errors of the others, in the order of arrival |
| ScanHandler.AnswerGrows | internal/server/handler/scan.go:117-142 | each exam adds one entry to the answer: the identifier it was saved under, or an error that names its block, with the text of its own error or of the failed save |
| ScanHandler.EachExamOnce | internal/server/handler/scan.go:115-133 | identifiers and errors together are as many as the exams, and name each block once |
| ScanHandler.EveryBlockIsAnswered | internal/server/handler/scan.go:102-142 | over a whole request identifiers and errors total the number of blocks, and every block is answered exactly once |
| ScanHandler.PartitionIsValid | internal/pdf/pdf.go:78-86 | the partition of every nonempty document is a valid configuration of the pipeline, with n / blockSize exams |
| ForEachProofs.ThreadStep | internal/omr/stream.go:49-82 | in a run in which no worker brings the counter to zero before all have started, every step keeps the meaning of the counter, and a worker that left without an error saw the end of the input |
| ForEachProofs.ErrorStep | internal/omr/stream.go:67-74 | each failing callback ends one worker, and each worker so ended sent one error |
| ForEachProofs.EachReceivedIsAnsweredOnce | internal/omr/stream.go:58-80 | in such a run, and in every run if the input meets the condition of `ForEachRaces.SafeExactly`: when the output is closed each received set has exactly one answer, of the right kind, with its pages closed exactly after a callback error; at most `parallelism` answers are callback errors; no send or close finds the output closed |
| ForEachProofs.AllAreAnswered | internal/omr/stream.go:49-82 | in the same runs, if fewer sets than workers fail, not counting the last set, every set is answered before the output closes |
| ForEachProofs.ProtectedIsDisciplined | internal/omr/stream.go:45-53 | on such an input no worker can bring the counter to zero before all have started, because a worker that is ahead waits for room in the output |
| ForEachStops.StopsEarly | internal/omr/stream.go:67-74 | otherwise there is a run that closes its output with sets left unreceived |
| ForEachStops.AnswersAllExactly | internal/omr/stream.go:49-82 | every run in which no worker brings the counter to zero before all have started answers every set, if and only if fewer sets than workers fail among all but the last |
| ForEachRaces.LateWorkerFaults | internal/omr/stream.go:45-56 | on every other input there is a run in which a worker that starts after another has closed the output sends on it or closes it again |
| ForEachRaces.SafeExactly | internal/omr/stream.go:45-82 | no schedule sends on the closed output or closes it twice if and only if there is one worker, or there are more sets than workers and none of the first `parallelism` sets makes the callback fail |
| ForEachRaces.AlwaysRightExactly | internal/omr/stream.go:45-82 | every schedule is free of faults and answers every set before the output closes, if and only if that holds and fewer sets than workers fail among all but the last |
| Jobs.JobRegistrar.Register | internal/server/mw/job.go:178-198 | a new unfinished job, or ErrJobIdConflict and no change |
| Jobs.JobRegistrar.SetProgress | internal/server/mw/job.go:139-154 | the progress of an unfinished job, or an error and no change |
| Jobs.JobRegistrar.WriteNotes | internal/server/mw/job.go:162-173 | the notes of any job, finished or not |
| Jobs.JobRegistrar.SetFinished | internal/server/mw/job.go:203-229 | finishes an unfinished job and caches its result; without a result nothing happens |
| Jobs.JobRegistrar.EvictAllOlderThan | internal/server/mw/job.go:233-250 | collecting and then deleting removes exactly the expired jobs from both maps |
| Jobs.Clamp | internal/server/mw/job.go:471-475 | a reported progress is brought into [0, 1] and left alone if it is there |
| Jobs.Report | internal/server/mw/job.go:471-475 | a handler sets the clamped progress of its own job |
| Jobs.EndAsync | internal/server/mw/job.go:513-524 | the end of an asynchronous job caches its response, a success exactly for status 200 to 299 |
| Jobs.EndSync | internal/server/mw/job.go:551-559 | the end of a synchronous job changes nothing |
| JobsRuns.InvOverRuns | internal/server/mw/job.go:139-250 | over every run a result is cached if and only if its job is registered and finished, with progress 1 and the outcome of the cached status; any progress lies in [0, 1] |
| JobsRuns.WholeJob | internal/server/mw/job.go:139-250 | the whole life of a job: what the registrar shows of it after any further operations, from the operation that registered it, its last note, its last report and its first end in the run, until an eviction comes later than its start by more than the age |
| JobsRuns.RefusedExactly | internal/server/mw/job.go:139-229 | which calls are refused, and with which error; what is refused changes nothing, and what is done to one job leaves all others and their results alone |
| JobsRuns.FirstEndDecides | internal/server/mw/job.go:203-229 | over every run that does not evict it, the first end of a job decides its outcome and result; without one it has none |
| JobsRuns.LatestIsShown | internal/server/mw/job.go:139-173 | a job shows the notes written last, before or after its end, and until its end the progress reported last |
| JobsRuns.FinishedIsFinal | internal/server/mw/job.go:139-229 | a finished job keeps everything but its notes, and its result, until it is evicted |
| JobsRuns.LivesUntilEvicted | internal/server/mw/job.go:233-250 | a job is there at the end of a run if and only if no eviction found it expired; if it is gone so is its result |
| JobsRuns.EvictedStartsClean | internal/server/mw/job.go:178-250 | a late end cannot revive an evicted job, and a job registered again under its identifier starts clean |
| JobsRuns.SyncJobNeverFinishes | internal/server/mw/job.go:208-210 | a job run by SyncJob stays unfinished and without a result |
| JobsRuns.EvictionIsExact | internal/server/mw/job.go:239-249 | an eviction removes the jobs past their age and no other, and changes no other entry |
| Fitting.UniformFactor | internal/omr/mat.go:242-259 | Contain and Cover scale both sides by one factor |
| Fitting.ContainIsLargest | internal/omr/mat.go:253-258 | Contain never exceeds the target, and is at least every uniform scaling that does not |
| Fitting.CoverIsSmallest | internal/omr/mat.go:247-252 | Cover never falls short of the target, and is at most every uniform scaling that does not |
| Fitting.AspectWithinPixel | internal/omr/mat.go:246-260 | one side is the target itself and each is less than a pixel short of the exact scaling |
| Fitting.SameShapeIsExact | internal/omr/mat.go:242-260 | a rectangle of the shape of the target is fitted exactly, by every method |
| Fitting.FittedExactly | internal/omr/mat.go:242-260 | the fitted size in whole pixels, by integer comparison and division |
| TemplateScaling.ScaleTemplateTo | internal/omr/preprocess.go:263-304 | the nested loops scale every anchor of every page, or fail if and only if one cannot be resized, closing those scaled so far but not the matrix that failed |
| TemplateScaling.ScalePreprocessingTemplate | internal/omr/preprocess.go:241-256 | the template scaled to the fitted bounds |
| TemplateScaling.AnchorStaysInside | internal/omr/preprocess.go:276-299 | an anchor wholly inside a template lies wholly inside the scaled one, and so do the pixels it is drawn on |
| TemplateScaling.ScalingKeepsAnchors | internal/omr/preprocess.go:286-301 | scaling keeps the minimum confidence and the anchors of each page, in order, at the same relative positions, inside the template; their sizes are scaled like the template and rounded down, binary ones become gray and the types of others stay |
| TemplateScaling.DrawnInsideExactly | internal/omr/preprocess.go:199-204 | the pixels an anchor is drawn on stay inside at every size of the template if and only if the anchor itself lies inside; that they do at one size is not enough |
| TemplateScaling.CalibratedTemplateFitsPage | internal/omr/stream.go:133-137 | the template calibrated on a page is no larger than the page and keeps its anchors inside |
| Ring.RingBuffer.Add | internal/sys/ring.go:25-33 | appends to the history of items added since the last flush |
| Ring.RingBuffer.Len | internal/sys/ring.go:35-37 | the number of items kept |
| Ring.RingBuffer.Flush | internal/sys/ring.go:39-47 | the history becomes empty |
| Ring.RingBuffer.Get | internal/sys/ring.go:51-71 | the last n items kept, oldest first; nothing for n <= 0 |
| Ring.GetAfter | internal/sys/ring.go:25-71 | after any sequence of additions and flushes, Get answers exactly the last min(n, capacity, count) items added since the last flush |

## Left out

- Preprocess.Preprocess: stops where the matching does; estimating and applying a transformation are OpenCV's.
- FindAnchors.FindAnchor: the search area, rotating the anchor and matching it are one parameter, and the position includes the offset of the search area.
- Marking.RawFillRatios: squares must lie inside the page and the radius of a bubble must not be negative, where OpenCV would panic.
- Marking.Mark: what binarization makes of a page is OpenCV's, and that a page it refuses can be changed already is not modelled.
- Fitting.ContainIsLargest: factors are real numbers, so IEEE 754 rounding can make the code one pixel smaller than stated; the same holds for the other statements about sizes, ratios and angles. Infinities and NaN are not modelled.
- Reading a job or its result returns the entry of the registry, and is left out.
- Jobs.JobRegistrar.SetFinished: the result is a value, so that a handler cannot change it after it was cached.
- ScanStore.Local.LoadScan: does not model that matrices already read are not closed when a later one is unreadable.
- ScanHandler.CollectResults: the reports of progress in the loop are left out.
- OpenCV, MuPDF and pdfcpu: rotating, matching, masking and resizing are parameters or operations on grids, and a page of a sub-document is an element of a slice of the document.
- `gocv.NewMatFromBytes` is a function of which `Codecs.Libs.Lawful` assumes that it refuses an empty buffer and makes an 8-bit matrix of bytes that fill it; its code is not part of this model.
- LZ4 is an encoding with an inverse; JSON, base64, JPEG and PNG are not modelled.
- SQLite and the file system: deletions of existing rows and files succeed, and a page row or file never changes by itself except that files can be lost.
- UUIDs are fresh numbers rather than strings with extensions.
- The consumer of `ForEach` is not part of the model: once all workers are spawned it may receive at any time.
- The pages of a page set are named by block and position; that a preprocessed page shows what its rendered page showed is the subject of `Preprocess`, not of the pipeline.
- `MarkStream`, `NormalizeFillRatios` and the reader behind `ParseBodyBytes` are not used by the handlers.
- Fairness of the scheduler: what is proved is that no schedule is infinite, and for which documents a schedule can always go on.
- Locks: each operation of the job registrar and of the ring buffer is one step, as its mutex makes it.
- ScanStoreRuns.InvariantOverRuns: operations do not overlap. `ScanStoreOverlap` has the steps of a save between those of other requests, each deletion and load as one step, and nobody deletes or loads the scan by its identifier before the save has returned that; a page inserted in the middle of a deletion is not modelled.
- HTTP plumbing, authentication, logging, the dashboard, the command line and the response writers.
