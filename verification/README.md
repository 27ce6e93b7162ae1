# LensWorks evidence layer: models and proofs

LensWorks (repository PhotoCatalog) qualifies its photo catalogue and editor with evidence scripts: evaluators of
traces and receipts, reference image oracles, crash-safe runners and cleaners, metadata parsers and sample ledgers.
This project models the algorithms those scripts depend on and proves what each of them is for. One or a few modules
belong to each program part:

| modules | what they model |
|---|---|
| `FrameWork`, `FrameCohort`, `FrameMetrics` | instrumented work per rendering frame: sort-and-sweep union length, the frame cohort between two markers, the policy that charges every gap to both neighbouring frames, and the percentile metrics of the report |
| `CausalBrackets`, `Envelopes` | the causal clock bridge: send/receive events around native clock readings, and what they prove of a stretch of events |
| `LockHistory`, `OverlapRuns`, `ObserverReports`, `UnseenGap`, `PassingGap`, `WorkerGaps` | the run of page, clock, workers and polling observer as a state machine, what the observer's segments say of the workers' locks and what they cannot tell, and the order check between workers |
| `ExportOverlap`, `ImportOverlap`, `LatencyTest` | the two evaluators that conclude activity from such runs, and their latency test |
| `Pixels`, `Bilinear`, `Render`, `RenderLaws`, `PointOracle`, `Sums`, `Resize`, `ResizeLaws`, `ResizePlaces` | the whole-image reference pipeline and what each stage does to a picture, the memoised point oracle for large images, and the box/bilinear resize with where it puts things |
| `Admission` | the durable barrier in front of a catalogue generation, under crashes, pauses and failures |
| `Cleanup`, `CleanupPlan` | the bounded tree walk and the files-then-deepest-directories deletion of verified fixtures |
| `WindowsStage`, `BundlePatch` | the dependency worklist of the Windows stage and the streamed digest of the patched executable |
| `PageOrder`, `CatalogueQueries`, `Pager`, `ReversePages` | the serialised sort keys of the synthetic catalogue, its rows and the queries of the cases, the stride-arithmetic page oracle, and exactly when its pages are right |
| `ByteStrings`, `Jpeg`, `JpegMetadata`, `JpegAssembly`, `JpegLaws`, `JpegRoundTrip` | the JPEG metadata reader: framing, admission, ICC and extended XMP reassembly |
| `IccTable`, `IccRoundTrip` | the ICC tag table writer and reader |
| `WhiteBalance`, `CameraWhite`, `CameraAcceptance` | Gauss-Jordan inversion of the camera matrix, the white-balance multipliers, and which matrices are accepted |
| `ProcessTracker`, `StreamCapture` | bounded bookkeeping of supervised processes and of their output streams |
| `SampleLedger`, `Timing`, `CaseSummary` | the attempt/observation ledger, nearest-rank distributions and the case summary |
| `Results`, `Sorting`, `SampleCounts`, `Sequences`, `Integers`, `Reals` | `None`/exceptions, Python's stable sort, counts in sorted samples, lists without repetition, minima and roundings |

Conventions. Trace instants are integer ticks and an interval is the ticks `start <= k < end`; image, matrix and timing
arithmetic is over the reals. Digests, per-pixel colour maths, trigonometry, case folding and the system-name predicate
are parameters, so every result holds for all of them.
Exceptions are `Result`/`Option` values. Clocks, processes, files that fail and threads that lag are nondeterministic
choices inside the methods. Where the program works step by step on arrays, fields or worklists, so do the methods
here, and each is proved against a specification whose laws are the lemmas.

Findings stated as results rather than assumed:

- Several guards can never fire: containment, unassigned-work and metric guards in the frame analysis, truncated guard
  frames after selection, the set comparison after covering a ledger, the measured-count and distribution guards of the
  case summary, and the record-count guard after process sampling.
- An envelope does not by itself mean that a worker was active. A worker that releases its lock and takes it again
  between two polls stays in one reported segment, and a stretch inside the gap is proven all the same
  (`UnseenGap.EnvelopeWithoutActivity`). In every run a proven stretch is active exactly when its worker did not let go
  of the lock in it (`ObserverReports.EnvelopeMeansActive`), and all that a worker's segment may prove is active exactly
  when its holds leave no gap in the segment (`ObserverReports.SegmentActive`), as when the worker releases nothing
  between its first and its last positive poll, or takes its lock but once (`ObserverReports.RetainedUnbroken`,
  `ObserverReports.OnceIsOneHold`). The passes of both evaluators are stated under the same condition, and both do pass
  a run in which none of the hundred inputs had an active worker (`PassingGap.ExportPassWithoutActivity`,
  `PassingGap.ImportPassWithoutActivity`).
- The order check between native workers in the export evaluator demands a strict gap. Two honest workers whose segments
  touch in one clock tick are refused (`WorkerGaps.TouchingRefused`). With one worker at a time, each kept in one hold,
  that happens exactly where the last poll of one, its release, the lock of the next and the first poll of the next all
  fall in one tick (`WorkerGaps.RefusedOnlyAtOnce`).
- The page oracle is right in every case, for every count and anchor, but for the reverse case, which counts numbers
  down where the catalogue sorts file names. There it is right exactly if the anchor has at most twelve digits, the
  filter keeps nothing between the catalogue's end and the anchor, and no number of more digits is named within the page
  (`ReversePages.PageIsNaive`, with `ReversePages.ReversePageWrong` and `ReversePages.FirstIntruder` where it is not).
- File names order as their numbers do up to twelve digits; beyond, a smaller number comes first exactly when it does not
  exceed as many leading digits of the larger one (`PageOrder.FileTextExact`, `PageOrder.ThirteenDigits`).
- An extended XMP packet cut into pieces is given back in every order of arrival exactly when no empty piece precedes a
  non-empty one (`JpegLaws.ReassembledExactly`): an empty piece ties with its successor, and the stable sort keeps
  whichever came first. Empty pieces at the end do no harm.
- The inversion refuses some invertible matrices, such as a diagonal one with an entry below the tolerance
  (`CameraAcceptance.InvertibleRefused`). It accepts exactly those whose lead entry, largest minor over that entry and
  determinant over that minor reach the tolerance (`CameraAcceptance.InvertedExactly`).
- A white balance that fails at a channel has overwritten the multipliers of the channels before it, and no others
  (`CameraWhite.CustomWb`, with a failure at the last channel in `CameraAcceptance.FailsLate`); the mode flags never
  move. It leaves all multipliers alone exactly when the elimination fails or what it writes was there already, as it is
  when the first channel fails.

## Model

| member | source | states |
|---|---|---|
| `FrameWork.MeasureIsCardinality` | scripts/evaluate_frame_work_v2.py:65-82 | the measure used for work is the number of covered ticks in the window |
| `FrameWork.MeasureAdditive` | scripts/evaluate_frame_work_v2.py:65-82 | work in adjacent windows adds up |
| `FrameWork.MeasureMonotone` | scripts/evaluate_frame_work_v2.py:65-82 | more coverage is never less work, and work never exceeds its window |
| `FrameWork.MeasurePermutation` | scripts/evaluate_frame_work_v2.py:65-82 | work does not depend on the order of the records |
| `FrameWork.Clip` | scripts/evaluate_frame_work_v2.py:60-71 | clipping keeps positive pieces inside the window and covers the same ticks of it |
| `FrameWork.Sweep` | scripts/evaluate_frame_work_v2.py:74-82 | the sweep over sorted intervals returns the measure of their union, whatever overlaps or nests |
| `FrameWork.UnionLength` | scripts/evaluate_frame_work_v2.py:65-82 | for any list and window the result is the measure of the union of the positive clipped intervals |
| `FrameCohort.OrderFrames` | scripts/evaluate_frame_work_v2.py:175-176 | sorting accepts a list of frames exactly when some order of it is free of overlap |
| `FrameCohort.MeetingFrames` | scripts/evaluate_frame_work_v2.py:189 | the frames that meet the markers are consecutive |
| `FrameCohort.MeetsExactly` | scripts/evaluate_frame_work_v2.py:189 | a frame meets the markers exactly when they have an instant in common |
| `FrameCohort.SelectFrames` | scripts/evaluate_frame_work_v2.py:186-194 | exactly when each guard fires, that the truncated-guard-frame one never does, and that a selection is the frames meeting the markers, with a neighbour on both sides |
| `FrameCohort.GateAccounting` | scripts/evaluate_frame_work_v2.py:201-227 | gate work is raw work plus the gaps summed over two overlapping ranges |
| `FrameCohort.WindowAccounting` | scripts/evaluate_frame_work_v2.py:228-234 | raw work plus each gap once is the work of the whole accounting window |
| `FrameCohort.GapAccounting` | scripts/evaluate_frame_work_v2.py:197-253 | gates count boundary gaps once and interior gaps exactly twice |
| `FrameCohort.AssignedSomewhere` | scripts/evaluate_frame_work_v2.py:234-237 | positive work in the accounting window meets the assignment window of some selected frame |
| `FrameCohort.FrameRows` | scripts/evaluate_frame_work_v2.py:201-227 | every row holds the exact measures, and neither containment guard can fire |
| `FrameCohort.GapWindows` | scripts/evaluate_frame_work_v2.py:228-232 | the gaps are those around and between the selected frames, and their unique work is the sum |
| `FrameCohort.RelevantWork` | scripts/evaluate_frame_work_v2.py:235-237 | counts the intervals that meet the accounting window; none is unassigned |
| `FrameCohort.AnalyzeFrames` | scripts/evaluate_frame_work_v2.py:197-253 | the report succeeds with no guard fired; its duplicate is the work of the interior gaps, its records are those that meet a gap, and each of its five figures is interpolated between neighbouring lengths or works of the selected frames themselves, with the budget verdict as the iff of that interpolation |
| `FrameCohort.NoRecordsNoWork` | scripts/evaluate_frame_work_v2.py:244-246 | no record is counted exactly when there is no work in any gap |
| `FrameMetrics.PercentileBounds` | scripts/evaluate_frame_work_v2.py:85-92 | the linear percentile lies between the samples on either side of its place |
| `FrameMetrics.PercentileLinear` | scripts/evaluate_frame_work_v2.py:85-93 | a percentage that falls so many hundredths past a sample lies exactly that part of the way to the next one |
| `FrameMetrics.EvenPercentile` | scripts/evaluate_frame_work_v2.py:85-93 | of evenly spaced samples the percentile is the value at that share of the range |
| `FrameMetrics.PercentileGrows` | scripts/evaluate_frame_work_v2.py:85-92 | a larger percentage never has a smaller percentile |
| `FrameMetrics.PercentileOrderless` | scripts/evaluate_frame_work_v2.py:85-92 | it does not depend on the order of the samples |
| `FrameMetrics.MetricsOrdered` | scripts/evaluate_frame_work_v2.py:95-108 | the figures are in order, and the maximum is a sample that bounds them all |
| `FrameMetrics.MetricsInterpolated` | scripts/evaluate_frame_work_v2.py:95-108 | both figures are such levels, and the budget is met exactly when the first is within it |
| `FrameMetrics.BudgetMeans` | scripts/evaluate_frame_work_v2.py:95-108 | what a met budget says of the number of samples over it, and when that number means it is met |
| `FrameMetrics.PassingShare` | scripts/evaluate_frame_work_v2.py:95-108 | a met budget leaves at most five in a hundred of the other frames over it, rounded up |
| `CausalBrackets.CheckAnchor` | scripts/evaluate_import_overlap_v4.py:121-139 | one anchor is refused exactly when it breaks a rule given the anchor before it |
| `CausalBrackets.ValidateAnchors` | scripts/evaluate_import_overlap_v4.py:115-140 | validation accepts exactly the admissible anchor lists and yields one ordered bracket per answered anchor |
| `CausalBrackets.AdmissibleChain` | scripts/evaluate_export_overlap_v2.py:38-56 | admissible anchors give brackets that follow one another in events and in readings |
| `Envelopes.BeforeIsPrefix` | scripts/evaluate_import_overlap_v4.py:181 | the anchors answered before an event are a prefix |
| `Envelopes.AfterIsSuffix` | scripts/evaluate_import_overlap_v4.py:182 | the anchors requested after an event are a suffix |
| `Envelopes.EnvelopeSound` | scripts/evaluate_import_overlap_v4.py:180-188 | with causal readings on a monotone clock an envelope bounds the true time of every moment of the stretch, inside one native segment |
| `Envelopes.EnvelopeComplete` | scripts/evaluate_export_overlap_v2.py:175-185 | the nearest pair of anchors proves activity if and only if any pair does |
| `Envelopes.EnvelopeNarrows` | scripts/evaluate_export_overlap_v2.py:175-192 | activity proven for a stretch is proven for every part of it |
| `LockHistory.HeldExactly` | src/filesystem_worker/import.rs:253-268 | a worker found with its lock held it throughout a later stretch exactly when no release before its end went without a new hold by its start |
| `OverlapRuns.NativeSegment` | scripts/evaluate_import_overlap_v4.py:54-59 | accepts exactly the ordered probe lists and reports the stretch from the first probe's end to the last one's start, never an inverted one |
| `OverlapRuns.RunKeepsInv` | scripts/observe_import_native_v4.py:173-204 | every run of page, clock, workers that take and release their locks, and an observer that only polls, keeps clock, bracket, lock and poll invariants |
| `ObserverReports.RowsAdmitted` | scripts/observe_import_native_v4.py:173-204 | in every run the rows of each worker pass the order check and prove the reported segment |
| `ObserverReports.ReportersExact` | scripts/observe_export_native_v2.py:383-415 | a worker is reported once at most, and exactly when two polls in the log found it with its lock |
| `ObserverReports.EnvelopeFindsWorker` | scripts/evaluate_export_overlap_v2.py:175-185 | in every run a proven stretch lies in the proving worker's segment, between two polls that found it with its lock |
| `ObserverReports.EnvelopeMeansActive` | scripts/evaluate_export_overlap_v2.py:175-185 | in every run the proving worker held its lock during the whole stretch exactly when it did not let go of it there |
| `ObserverReports.SegmentActive` | scripts/evaluate_export_overlap_v2.py:175-185 | in every run a worker held its lock throughout every stretch of its segment exactly when its holds leave no gap in the segment |
| `ObserverReports.RetainedUnbroken` | scripts/evaluate_export_overlap_v2.py:175-185 | they leave none without a release between its first and last positive poll, or with both in one hold |
| `ObserverReports.LocksKeptExact` | scripts/evaluate_export_overlap_v2.py:175-185 | no reported worker let go in its segment exactly when every stretch of every worker found twice is active |
| `ObserverReports.OnceIsOneHold` | scripts/evaluate_export_overlap_v2.py:175-185 | a worker that takes its lock but once is found in one hold |
| `UnseenGap.EnvelopeWithoutActivity` | scripts/observe_import_native_v4.py:173-204 | a run in which a stretch is proven while its worker had let go of the lock over all of it |
| `PassingGap.ExportPassWithoutActivity` | scripts/evaluate_export_overlap_v2.py:187-211 | a run that passes with a full cohort, none of whose inputs had an active worker |
| `PassingGap.ImportPassWithoutActivity` | scripts/evaluate_import_overlap_v4.py:190-230 | a run that passes with a hundred inputs, none of which, and no advance, was under the import lock |
| `WorkerGaps.OrderWorkers` | scripts/evaluate_export_overlap_v2.py:172-173 | the sort and strict neighbour check accept exactly the lists in which no two segments overlap or touch |
| `WorkerGaps.GapsExact` | scripts/evaluate_export_overlap_v2.py:172-173 | a run's segments pass exactly when each worker's last poll began before its successor's first poll ended |
| `WorkerGaps.HandOver` | scripts/evaluate_export_overlap_v2.py:172-173 | two successive one-hold workers touch exactly when the last poll, the release, the next lock and the next poll all fall in one tick |
| `WorkerGaps.RefusedOnlyAtOnce` | scripts/evaluate_export_overlap_v2.py:172-173 | with one worker at a time, each in one hold, a run is refused exactly for such a hand-over |
| `WorkerGaps.TouchingRefused` | scripts/evaluate_export_overlap_v2.py:172-173 | a run of two such workers that is refused |
| `ExportOverlap.BindSamples` | scripts/evaluate_export_overlap_v2.py:57-63 | sample events are accepted exactly when each input has one row with two unused event numbers in order |
| `ExportOverlap.Select` | scripts/evaluate_export_overlap_v2.py:187-197 | the cohort is the first hundred inputs with a whole envelope; failures split by proof at their start |
| `ExportOverlap.Evaluate` | scripts/evaluate_export_overlap_v2.py:187-211 | the verdict follows from the frozen selection; evidence is refused exactly for an unsound timing in a full, unfailed cohort |
| `ExportOverlap.CohortFromDecisions` | scripts/evaluate_export_overlap_v2.py:194-195 | the cohort lists proven inputs only, all of them while it is not full |
| `ExportOverlap.CohortIncreasing` | scripts/evaluate_export_overlap_v2.py:187-196 | the cohort keeps the declared order without repetition |
| `ExportOverlap.CohortIsFirst` | scripts/evaluate_export_overlap_v2.py:194-195 | the cohort is the first hundred of all proven inputs |
| `ExportOverlap.CohortFrozen` | scripts/evaluate_export_overlap_v2.py:187-195 | later decisions only extend the cohort, and a full one never changes |
| `ExportOverlap.FailedCohortInputFails` | scripts/evaluate_export_overlap_v2.py:190-200 | a failed input inside the cohort always forces the failing verdict |
| `ExportOverlap.VerdictTold` | scripts/evaluate_export_overlap_v2.py:187-211 | exactly when each of the first two verdicts is given, told from the inputs that failed, the stretches that can be proven and their number |
| `ExportOverlap.LatencyTold` | scripts/evaluate_export_overlap_v2.py:208-211 | a pass leaves at most five of its hundred inputs slower than a hundred milliseconds, a failed latency at least five |
| `LatencyTest.HundredWeighed` | scripts/evaluate_import_overlap_v4.py:227-230 | a hundred latencies in order pass exactly when nineteen times the ninety-fifth plus the ninety-sixth is within twenty times the target |
| `LatencyTest.HundredMet` | scripts/evaluate_import_overlap_v4.py:227-230 | they pass with at most four slow ones, and not with more than five |
| `ExportOverlap.LatencyBlind` | scripts/evaluate_export_overlap_v2.py:187-200 | receipts that differ only in latencies are selected, decided and failed alike, and share any verdict that does not rest on latency |
| `ExportOverlap.NoFailureAllComplete` | scripts/evaluate_export_overlap_v2.py:192-193 | with no failure reported every declared input completed |
| `ExportOverlap.PassMeansActive` | scripts/evaluate_export_overlap_v2.py:187-211 | in every run a pass means exactly a hundred different completed inputs, each with its proving worker active throughout exactly when that worker did not release its lock unseen; where locks are kept, all of them |
| `ImportOverlap.TimelineMonotone` | scripts/evaluate_import_overlap_v4.py:162-178 | neighbour checks order all statuses, with no lost progress and no reversed terminal phase |
| `ImportOverlap.Decisions` | scripts/evaluate_import_overlap_v4.py:190-206 | decisions and failure lists for all declared inputs, or a refusal exactly when one is unacceptable |
| `ImportOverlap.ProgressPairs` | scripts/evaluate_import_overlap_v4.py:213-219 | exactly the neighbouring statuses that advance visibly under a proven envelope |
| `ImportOverlap.Evaluate` | scripts/evaluate_import_overlap_v4.py:190-230 | when evidence is refused, and what each verdict rests on |
| `ImportOverlap.VerdictTold` | scripts/evaluate_import_overlap_v4.py:190-230 | exactly when each of the first two verdicts is given, told from the inputs that failed, the stretches that can be proven, context and progress |
| `ImportOverlap.LatencyTold` | scripts/evaluate_import_overlap_v4.py:226-230 | a pass leaves at most five of the hundred inputs slower than a hundred milliseconds, a failed latency at least five |
| `ImportOverlap.PassAdvances` | scripts/evaluate_import_overlap_v4.py:207-217 | in a pass the import was under way from before the first input to within the measured stretch, and each reported pair of answers has counted more at the later one |
| `ImportOverlap.DurableProvesStart` | scripts/evaluate_import_overlap_v4.py:195-199 | an input proven to its durable event is proven at its start |
| `ImportOverlap.ProvenMeansActive` | scripts/evaluate_import_overlap_v4.py:190-206 | in every run a proven input completed, and its worker held the import lock to its durable event exactly when it did not release it unseen |
| `ImportOverlap.PassMeansActive` | scripts/evaluate_import_overlap_v4.py:207-230 | in every run a pass means that of every declared input and of some visible advance between neighbouring answers; where locks are kept, all of it was under the import lock |
| `Render.Denoise` | scripts/edit_reference.py:59-81 | every pixel is the clamped-neighbourhood denoise of the source; off means a copy |
| `Render.CropInside` | scripts/edit_reference.py:113-118 | admitted crop edges round to inside the image |
| `Render.Geometry` | scripts/edit_reference.py:110-135 | refuses exactly a collapsed crop; every pixel is the cut, or the bilinear sample where `RenderLaws.RotatedExactly` puts it, with transparent outside |
| `Render.Sharpen` | scripts/edit_reference.py:138-160 | every pixel is the unsharp mask over the clamped window with the softened-edge kernel |
| `Render.Render` | scripts/edit_reference.py:163-169 | the composed stages give every pixel of the mathematical pipeline, or refuse a collapsed crop |
| `RenderLaws.CropEdges` | scripts/edit_reference.py:113-116 | each crop edge is the pixel boundary nearest to its share of that side; no crop is the whole picture |
| `RenderLaws.WindowAt` | scripts/edit_reference.py:70-71 | the windows of denoise and sharpening hold the square around the pixel row by row, each sample clamped to the picture |
| `RenderLaws.RotatedExactly` | scripts/edit_reference.py:122-127 | an output pixel is sampled at the one point that turning by the angle about the centre carries onto it |
| `RenderLaws.SampledPlane` | scripts/edit_reference.py:128-134 | anywhere between its pixels an opaque picture that changes evenly shows its own colour at that point |
| `RenderLaws.QuarterTurned` | scripts/edit_reference.py:121-134 | a quarter turn of a square picture moves each visible pixel clockwise to its place |
| `RenderLaws.RenderedToned` | scripts/edit_reference.py:163-169 | a recipe that neither turns nor sharpens balances, denoises and then tones each pixel of the crop |
| `RenderLaws.RenderedPlain` | scripts/edit_reference.py:163-169 | without denoise it balances and then tones, and does nothing else |
| `RenderLaws.RenderedTurned` | scripts/edit_reference.py:163-169 | one that turns and does not sharpen shows the developed picture at the point that turning carries onto each pixel |
| `RenderLaws.RenderedQuarterTurned` | scripts/edit_reference.py:163-169 | by a quarter turn it moves each visible developed pixel to its place |
| `RenderLaws.LumaOfPrimaries` | scripts/edit_reference.py:72 | the luma weights are the luminances of the sRGB primaries that add up to the D65 white |
| `RenderLaws.ToleranceTold` | scripts/edit_reference.py:73 | the tolerance of denoise at its ends, and that it grows evenly with level and strength |
| `RenderLaws.SimilarityHalves` | scripts/edit_reference.py:74 | a neighbour weighs fully only at the same luma, half at the tolerance and a fifth at twice that |
| `RenderLaws.SmoothedMoves` | scripts/edit_reference.py:79-80 | luma moves by `luminance` of the way to the mean, the colour difference by `chroma` of it, alpha not at all |
| `RenderLaws.DenoiseMoves` | scripts/edit_reference.py:75-80 | and the mean is that of the neighbours by similarity and alpha |
| `RenderLaws.UnsharpScales` | scripts/edit_reference.py:157-159 | sharpening makes the difference from the mean `1 + amount` times what it was, and keeps alpha |
| `RenderLaws.TapsFair` | scripts/edit_reference.py:143-146 | no tap is more than whole, none is nothing, and both ends weigh the same |
| `RenderLaws.KernelTotal` | scripts/edit_reference.py:143-155 | the taps total the square of twice the radius plus one, for any radius |
| `PointOracle.TouchedSound` | scripts/edit_large_reference.py:34-43 | a cache hit changes the recency order only |
| `PointOracle.StoredSound` | scripts/edit_large_reference.py:34-43 | a cache store adds one entry, forgets at most others and never outgrows its bound |
| `PointOracle.DenoiseLocal` | scripts/edit_large_reference.py:35-41 | denoising the clamped 3 by 3 surrounding gives its centre the whole-image value |
| `PointOracle.PointEvaluator.DevelopPoint` | scripts/edit_large_reference.py:35-41 | a point developed from its own neighbourhood is the whole developed image's pixel, transparent outside |
| `PointOracle.PointEvaluator.Developed` | scripts/edit_large_reference.py:34-41 | the memoised developed point is the whole developed image's pixel |
| `PointOracle.PointEvaluator.Geometric` | scripts/edit_large_reference.py:43-55 | the memoised geometric point is the whole cropped or rotated image's pixel |
| `PointOracle.PointEvaluator.Evaluate` | scripts/edit_large_reference.py:57-74 | refuses exactly points outside the output; otherwise the pixel the whole-image pipeline computes there, whatever was remembered or forgotten; for a recipe that turns and does not sharpen, the developed picture at the point that turning carries onto it, by a quarter turn pixel for pixel |
| `PointOracle.SourceSteps` | scripts/edit_large_reference.py:21-23 | the generated source from its first pixel on, by its steps to the right and down |
| `Resize.ReadExactly` | scripts/edit_reference.py:248-251 | the source cells read are exactly those with positive overlap |
| `Resize.SharesOfOutput` | scripts/edit_reference.py:247-251 | the overlaps one output cell reads add up to its width |
| `Resize.SharesOfSource` | scripts/edit_reference.py:247-251 | one source cell is divided among the output cells without loss |
| `Resize.GatherBox` | scripts/edit_reference.py:247-251 | the box loops gather exactly the specified samples and weights |
| `Resize.GatherCorners` | scripts/edit_reference.py:252-258 | the bilinear loops gather the four clamped corners and their weights |
| `Resize.Resize` | scripts/edit_reference.py:237-261 | every output pixel is the specified weighted straight mean, whose place `ResizePlaces.ResizeMirrors` and `ResizePlaces.EvenEnlarged` tell; the same size is a copy |
| `ResizeLaws.MeanAmount` | scripts/edit_reference.py:100-107 | with weights that add up to one the mean carries exactly the weighted alpha and colour totals |
| `ResizeLaws.ConstantMean` | scripts/edit_reference.py:100-107 | the mean of equal visible pixels is that pixel |
| `ResizeLaws.BoxBlend` | scripts/edit_reference.py:247-251 | the samples read add up to the blend of all source cells: nothing relevant is skipped |
| `ResizeLaws.WeightsAddUp` | scripts/edit_reference.py:247-251 | the weights of every shrunk pixel add up to one |
| `ResizeLaws.PositiveWeight` | scripts/edit_reference.py:247-251 | every weight of a shrunk pixel is positive |
| `ResizeLaws.SourceWeight` | scripts/edit_reference.py:247-251 | a source pixel's weights over the whole output add up to one over the cell area |
| `ResizeLaws.BlendConserves` | scripts/edit_reference.py:247-251 | blending moves every quantity without creating or losing any |
| `ResizeLaws.ShrunkTaps` | scripts/edit_reference.py:245-251 | in the shrinking branch the samples lie in the source with positive weights that sum to one, and total the blend |
| `ResizeLaws.ShrinkingConserves` | scripts/edit_reference.py:237-261 | shrinking conserves total alpha and alpha-weighted colour, times the cell area |
| `ResizeLaws.CornerWeightsAddUp` | scripts/edit_reference.py:252-258 | bilinear weights are non-negative and sum to one |
| `ResizeLaws.UniformStays` | scripts/edit_reference.py:237-261 | a picture of one visible colour stays that colour, shrunk or enlarged |
| `ResizePlaces.ResizeMirrors` | scripts/edit_reference.py:237-261 | a mirrored or flipped picture resizes to the mirrored or flipped result, copied, shrunk or enlarged |
| `ResizePlaces.EvenEnlarged` | scripts/edit_reference.py:252-260 | away from the border an opaque picture that changes evenly is enlarged to its own colours at the centres of the output cells |
| `Admission.Runner.Call` | scripts/run_lightroom_inspection.py:446-569 | a pause changes nothing; otherwise at most one command is reserved under the key, and a returned command is recorded |
| `Admission.Runner.Require` | scripts/run_lightroom_inspection.py:584-588 | a returned command succeeded |
| `Admission.Runner.Review` | scripts/lightroom_generation.py:472-500 | a new attempt is admitted exactly when the last one left nothing open: no attempt yet, or the same binding and either a pause with an unmoved journal and no reserved step, or a completion with recorded evidence of an unchanged inventory |
| `Admission.Runner.Begin` | scripts/lightroom_generation.py:470-510 | an attempt begins only in such a state, and a started or failed attempt bars every later one |
| `Admission.Runner.Close` | scripts/lightroom_generation.py:521-535 | the last write of an unfinished attempt is true of its commands, even if lost in a crash |
| `Admission.Runner.Admit` | scripts/lightroom_generation.py:470-535 | under any crash, pause or failure the barrier holds; what is returned is a completed attempt whose two commands succeeded on an unchanged inventory |
| `Admission.AnyRun` | scripts/lightroom_generation.py:470-535 | every run of admissions and other commands keeps the barrier and its history |
| `Cleanup.VisitDirectory` | scripts/edit_cleanup.py:34-41 | replacing a directory by its children keeps the frontier apart and covering |
| `Cleanup.TooMany` | scripts/edit_cleanup.py:33-41 | the entry bound is exceeded only if there are too many descendants |
| `Cleanup.Walk` | scripts/edit_cleanup.py:30-49 | lists every descendant of the roots exactly once, within the bounds on entries, bytes and single files, or refuses for a true reason |
| `CleanupPlan.Tree` | scripts/edit_cleanup.py:30-51 | the sorted listing, deepest directories first |
| `CleanupPlan.TreeDeletable` | scripts/edit_cleanup.py:49-51 | files first and then the deepest directories can always be carried out: each directory is empty when its turn comes |
| `CleanupPlan.JoinDeletable` | scripts/edit_cleanup.py:263-270 | plans for trees that share nothing can be carried out one after the other |
| `CleanupPlan.Store.Delete` | scripts/edit_cleanup.py:285-311 | whatever fails, what was deleted is a prefix of the plan, everything else is untouched, and no file is found changed and no directory occupied |
| `CleanupPlan.CleanupExport` | scripts/edit_cleanup.py:256-311 | success removes exactly the admitted subtrees in the plan's order, a fault a prefix of that order; a refusal changes nothing; nothing else is ever touched |
| `WindowsStage.ClosedHoldsChain` | scripts/desktop_ci_stage.py:148-160 | a stage that resolves the executable and all it holds has everything reachable |
| `WindowsStage.Resolve` | scripts/desktop_ci_stage.py:153-160 | one import table: every name is staged or an admitted system name, or the refusal names one that is neither |
| `WindowsStage.StageAll` | scripts/desktop_ci_stage.py:148-160 | stages exactly the available libraries reachable from the executable, closed under imports; terminates on cycles; refuses only truly |
| `BundlePatch.Find` | scripts/desktop_ci_stage.py:37-40 | the first occurrence of the marker, or none |
| `BundlePatch.PatchIsLocal` | scripts/desktop_ci_stage.py:23-48 | replacing an occurrence changes no other byte and not the length, and is undone by the reverse replacement |
| `BundlePatch.PatchIsSuffix` | scripts/desktop_ci_stage.py:30-32 | for either platform the patch writes three bytes, the suffix naming the bundle, and leaves the stem of the marker |
| `BundlePatch.PatchBlockCuts` | scripts/desktop_ci_stage.py:42-46 | patching a block is patching the file and cutting the block out |
| `BundlePatch.ExpectedBundle` | scripts/desktop_ci_stage.py:34-48 | however reads split the file, the digest is fed the file with exactly its first marker replaced |
| `PageOrder.DigitsOrder` | benchmarks/organization_campaign.py:196-203 | fixed-width decimals compare as text exactly as numbers |
| `PageOrder.FollowsInNumbers` | benchmarks/organization_campaign.py:196-203 | rows follow an anchor in serialised order exactly when their numbers say so, whatever their length |
| `PageOrder.RowsInNumbers` | benchmarks/organization_campaign.py:196-203 | rows are in serialised order exactly when their numbers say so, whatever their length |
| `PageOrder.NamedExact` | benchmarks/organization_campaign.py:201-202 | the order of file names, told from the numbers of any length; no two share a name |
| `PageOrder.AnchorReadBack` | benchmarks/organization_campaign.py:222-224 | the day the oracle reads out of a key is that of the anchor |
| `PageOrder.FileTextExact` | benchmarks/organization_campaign.py:201-202 | for numbers of any length, exactly when the file name of the smaller one comes first |
| `PageOrder.ThirteenDigits` | benchmarks/organization_campaign.py:201-202 | the first number of thirteen digits is named before the last one of twelve |
| `Pager.ExpectedSequences` | benchmarks/organization_campaign.py:207-249 | the loop returns the first two hundred candidates that the filter keeps, which by `Pager.SelectsExactly` are those of the case's query |
| `Pager.SelectsExactly` | src/bin/organization_probe.rs:666-760 | for every case the filter keeps a number exactly when the fixture row of that number satisfies the query of the case, attribute by attribute |
| `CatalogueQueries.KeysOfQuery` | benchmarks/organization_campaign.py:196-203 | the cursor key of a row is what the sort of the query reads from it, downwards in the reverse case alone |
| `Pager.BucketRowsHas` | benchmarks/organization_campaign.py:229-242 | a stride holds exactly the rows of one bucket from its lower bound on, in order |
| `Pager.CandidatesExact` | benchmarks/organization_campaign.py:228-243 | the candidates are exactly the rows that follow the anchor, in page order |
| `ReversePages.PageIsNaive` | benchmarks/organization_campaign.py:207-249 | for every case, count and anchor, exactly when the page equals: take the rows that satisfy the query, sort by serialised position, take two hundred |
| `ReversePages.NaiveExists` | benchmarks/organization_campaign.py:207-249 | for every case, count and anchor such a sorted arrangement exists |
| `ReversePages.PageHas` | benchmarks/organization_campaign.py:241-249 | a reverse page holds exactly the kept rows from its floor up to the anchor, downwards |
| `ReversePages.ReversePageFromOutside` | benchmarks/organization_campaign.py:241-249 | from an anchor beyond the catalogue the reverse page is right exactly when the filter keeps nothing in between |
| `ReversePages.ReversePageWrong` | benchmarks/organization_campaign.py:241-249 | from row 6 of an empty catalogue it is not |
| `ReversePages.LongAnchorWrong` | benchmarks/organization_campaign.py:241-249 | from an anchor of more than twelve digits it never is |
| `ReversePages.FirstIntruder` | benchmarks/organization_campaign.py:201-202 | the first number of thirteen digits is named within the page from just after its first twelve digits |
| `ByteStrings.BytesRoundTrip` | scripts/edit_readback.py:30 | a big-endian field of sufficient width reads back |
| `Jpeg.ScanEncoded` | scripts/edit_readback.py:24-35 | written segments are read back, whatever precedes and follows them |
| `Jpeg.ScanAccounts` | scripts/edit_readback.py:24-35 | whatever is accepted is the encoding of what was read, up to the end marker |
| `JpegMetadata.Gather` | scripts/edit_readback.py:18-62 | the reading loop is framing followed by the fold of its segments |
| `JpegAssembly.AssembleProfile` | scripts/edit_readback.py:65-70 | joins the numbered payloads, or refuses an incomplete or disagreeing set |
| `JpegAssembly.AssemblePacket` | scripts/edit_readback.py:73-80 | the running position accepts exactly the parts that tile the full length in offset order |
| `JpegAssembly.Finish` | scripts/edit_readback.py:63-88 | dimensions, profile, identified and linked packets, and the exact set of links, or a refusal |
| `JpegAssembly.ReadMetadata` | scripts/edit_readback.py:18-88 | the whole reader meets its specification on every byte string |
| `JpegLaws.SplitProfileReassembled` | scripts/edit_readback.py:65-70 | any cut of a profile into at most 255 pieces, in any arrival order, gives the profile back |
| `JpegLaws.AcceptedNumbersExact` | scripts/edit_readback.py:46-50 | accepted sequence numbers are exactly one to the count, each once, with payloads joined in order |
| `JpegLaws.ReassembledExactly` | scripts/edit_readback.py:72-80 | the parts of a cut packet give it back in every arrival order exactly when no empty piece precedes a non-empty one |
| `JpegLaws.SplitPacketReassembled` | scripts/edit_readback.py:72-80 | where empty pieces come last, every arrival order gives the packet back |
| `JpegLaws.EarlyEmptyRefused` | scripts/edit_readback.py:73-78 | otherwise some arrival order is refused |
| `JpegLaws.EmptyPieceRefused` | scripts/edit_readback.py:73-78 | three parts that are accepted in one order and refused in another |
| `JpegLaws.AcceptedPartsTile` | scripts/edit_readback.py:72-81 | accepted parts lie in the packet, leave no byte out and do not overlap |
| `JpegRoundTrip.ChunkWritten` | scripts/edit_readback.py:46-50 | a written ICC chunk is recognised and read as itself |
| `JpegRoundTrip.PartWritten` | scripts/edit_readback.py:53-58 | a written extended part is recognised and read as itself under its identifier |
| `JpegRoundTrip.StandardWritten` | scripts/edit_readback.py:51-52 | a written standard packet is recognised and read as itself |
| `JpegRoundTrip.ExifWritten` | scripts/edit_readback.py:59-62 | a written Exif payload is recognised and read as itself |
| `JpegRoundTrip.SofWritten` | scripts/edit_readback.py:39-45 | a written frame header gives its own height and width, and is admitted exactly when both are positive and their product within the limit |
| `JpegRoundTrip.FoldAccepts` | scripts/edit_readback.py:36-62 | the loop admits a list exactly when it is admissible as a whole: size, sane segments, distinct numbers, one Exif |
| `JpegRoundTrip.MetadataReadBack` | scripts/edit_readback.py:18-88 | a written stream is read back: profile, every extended packet, the standard packets in front of them and the Exif payload come back whole, in any segment order |
| `JpegRoundTrip.AcceptedStream` | scripts/edit_readback.py:18-88 | what an accepted stream must have carried: its framing, admission, profile, and one identified, linked packet per identifier |
| `IccTable.WriteProfile` | scripts/edit_reference.py:205-213 | table and body grown together give the specified encoding; a length over 32 bits is refused |
| `IccTable.ReadTags` | scripts/edit_readback.py:287-300 | the reading loop meets its specification on every byte string |
| `IccTable.EntriesExact` | scripts/edit_readback.py:292-299 | a table is accepted exactly when its keys differ and every extent lies behind it, inside the profile |
| `IccTable.EntriesFound` | scripts/edit_readback.py:292-299 | each accepted key gives its own extent |
| `IccRoundTrip.ExtentsDisjoint` | scripts/edit_reference.py:208-210 | padded extents lie after the table and do not overlap |
| `IccRoundTrip.ExtentsFollow` | scripts/edit_reference.py:208-210 | padded extents follow one another on four-byte bounds, with less than four bytes of padding |
| `IccRoundTrip.WrittenAccepted` | scripts/edit_readback.py:287-299 | a written profile is accepted exactly when it has at most 128 tags, payloads of at least eight bytes and fits the cap |
| `IccRoundTrip.TagsReadBack` | scripts/edit_readback.py:287-300 | reading gives back exactly the tags written, whatever order they were given in |
| `WhiteBalance.SwapKeeps` | native/decode.cpp:65 | a row swap keeps the solutions |
| `WhiteBalance.NormalKeeps` | native/decode.cpp:66 | scaling the pivot row keeps the solutions |
| `WhiteBalance.ClearKeeps` | native/decode.cpp:67 | clearing the column keeps the solutions |
| `WhiteBalance.EliminationKeeps` | native/decode.cpp:62-68 | the elimination keeps the solutions of the original system |
| `WhiteBalance.EliminationUnit` | native/decode.cpp:62-68 | the cleared columns are those of the identity |
| `WhiteBalance.InverseFound` | native/decode.cpp:59-68 | past elimination the right half is the inverse of the camera matrix, on both sides |
| `WhiteBalance.SingularRefused` | native/decode.cpp:62-68 | a matrix that sends two vectors to one never gets past elimination |
| `CameraWhite.SwapPivot` | native/decode.cpp:63-65 | the in-place pivot search and swap, giving up exactly below the tolerance |
| `CameraWhite.StopsOnlyNearSingular` | native/decode.cpp:63-64 | a column stops the elimination exactly when nothing at or below the diagonal reaches the tolerance |
| `CameraWhite.Eliminate` | native/decode.cpp:62-68 | the in-place elimination is the one on values |
| `CameraWhite.CustomWb` | native/decode.cpp:59-81 | succeeds exactly when the elimination gets through with positive response and daylight in every channel; which multipliers and flags are written, on success and at each point of failure, and exactly when a failure changes none |
| `CameraAcceptance.InvertedExactly` | native/decode.cpp:62-68 | the elimination accepts exactly the matrices whose lead entry, largest minor over it and determinant over that minor reach the tolerance |
| `CameraAcceptance.InvertibleRefused` | native/decode.cpp:63-64 | an invertible matrix that is refused |
| `CameraAcceptance.FailsLate` | native/decode.cpp:72-77 | a call that fails at the last channel only |
| `CameraAcceptance.XyzChromaticities` | native/decode.cpp:69 | the target has the chromaticities it is given, at unit luminance |
| `CameraAcceptance.TargetOfPrimaries` | native/decode.cpp:70-71 | D65 is white and each sRGB primary lights its own channel alone, to the rounding of the matrix |
| `CameraWhite.AcceptedBalance` | native/decode.cpp:69-77 | the camera matrix maps the response to the white point; multipliers are positive and undo the response |
| `CameraWhite.ResponseUnique` | native/decode.cpp:69-73 | no other response maps to the white point |
| `ProcessTracker.OpenCount` | scripts/edit_campaign.py:346-370 | a well-formed log leaves open as many identities as discoveries less retirements |
| `ProcessTracker.RetiredWasDiscovered` | scripts/edit_campaign.py:367-370 | every logged retirement follows a discovery of the same identity |
| `ProcessTracker.ActiveIdentities.Log` | scripts/edit_campaign.py:346-355 | a line is appended whole or nothing is counted; the file stays within its cap even torn |
| `ProcessTracker.ActiveIdentities.Add` | scripts/edit_campaign.py:357-365 | a new identity is kept even when its admission or evidence fails; the counts still balance and exceed by at most one |
| `ProcessTracker.ActiveIdentities.Retire` | scripts/edit_campaign.py:367-370 | an identity is forgotten only after its retirement is logged |
| `ProcessTracker.ActiveIdentities.Sample` | scripts/edit_campaign.py:372-391 | after a sample the records are exactly the active identities, in order |
| `ProcessTracker.Supervise` | scripts/edit_campaign.py:434-498 | the account holds in every outcome; telemetry stays within its cap; a completed run stayed within all limits in every sample, and the last one was of exactly the unresolved identities |
| `StreamCapture.BoundedCapture.Retain` | scripts/edit_campaign.py:215-228 | partial writes fill the file up to the limit, or a fault is recorded |
| `StreamCapture.BoundedCapture.Collect` | scripts/edit_campaign.py:195-248 | under write, read and open faults and at any moment the file is a prefix of the bytes observed, within the limit |
| `StreamCapture.BoundedCapture.Finish` | scripts/edit_campaign.py:250-257 | the report says truncated exactly when the file is not all that was observed |
| `StreamCapture.Capture` | scripts/edit_campaign.py:174-257 | a passing proof means the file is the whole output; only overflow, a fault or an unfinished stream keeps it from passing |
| `SampleLedger.Observations` | scripts/edit_verify.py:121-142 | accepts exactly strictly alternating attempt/observation pairs with equal identities, and splits them |
| `SampleLedger.GridMember` | scripts/edit_statistics.py:57-58 | the expected identities are the product of recipes and iterations |
| `SampleLedger.GridSize` | scripts/edit_statistics.py:57-58 | and have its size |
| `SampleLedger.CoverList` | scripts/edit_verify.py:149-157 | a list is accepted exactly when it bijects with the expected identities |
| `SampleLedger.SampleCoverage` | scripts/edit_verify.py:145-159 | both lists must biject with recipes times iterations, in the same order |
| `SampleLedger.PairedAgree` | scripts/edit_verify.py:130-159 | in a paired ledger the final comparison of identities cannot fail |
| `Timing.NearestRank` | scripts/edit_statistics.py:32-39 | the value at a percentage is the least sample that this share of the samples does not exceed |
| `Timing.FiguresOrdered` | scripts/edit_statistics.py:32-39 | the reported figures are in order and bound all samples |
| `Timing.FiguresRanked` | scripts/edit_statistics.py:32-39 | the fifty, ninety-five and ninety-nine per cent figures are samples at those very ranks, the ends the least and largest |
| `Timing.RankWithin` | scripts/edit_statistics.py:32-39 | a percentile is within a bound exactly when that share of the samples is |
| `Timing.GroupsExact` | scripts/edit_statistics.py:98-120 | in a covered case each recipe has exactly its repetitions of measured values of each quantity, from non-warmup identities only |
| `CaseSummary.Group` | scripts/edit_statistics.py:91-119 | the first pass succeeds exactly on covered, well-made observations, and groups each recipe's measured values, phase by phase |
| `CaseSummary.SummarizeCase` | scripts/edit_statistics.py:91-130 | the summary succeeds exactly then; each recipe gets the ranked figures of its own measured times and export phases over exactly its repetitions, and meets its target exactly when ninety-five in a hundred of its measured times do; the later guards never fire |
| `CaseSummary.TargetsTold` | scripts/edit_statistics.py:18-20 | for each phase and output format, how many of how many times must be within which limit |
| `CaseSummary.ObservationsTold` | scripts/edit_statistics.py:9-17 | for each phase, how many observations of how many recipes a covered case has |
| `CaseSummary.FigureRecorded` | scripts/edit_statistics.py:66-88 | every figure of an export is what some measured observation records under that very name or authority interval |
| `CaseSummary.LedgerSummarizes` | scripts/edit_statistics.py:91-119 | a paired and covered ledger needs only truthful warmup flags, times and export phases to be summarized |

## Left out

- IEEE rounding and tolerances: ticks and reals stand for floats, so `1e-9` slacks and `float()` conversions disappear.
- Hash values, ElementTree parsing, LibRaw, numpy, psutil and the operating system: parameters or nondeterministic steps.
- scripts/evaluate_frame_work_v2.py: trace parsing and per-record conformance checks; figures are in ticks, not scaled to milliseconds.
- scripts/evaluate_import_overlap_v4.py, scripts/evaluate_export_overlap_v2.py: field-by-field binding of observer rows, process identities and closure causes; a worker's probes enter as the positive pairs.
- OverlapRuns.NativeSegment: the order of a segment's probes only; the identities, lock holders and closure records that the same loop compares are not part of the model.
- OverlapRuns.RunKeepsInv: a contended lock is taken to be held by the polled worker, which the observers check by process identity and open descriptors.
- ObserverReports.EnvelopeMeansActive: activity is the proving worker holding its lock; what it does with it is not part of the model.
- ExportOverlap.Evaluate: starts from bound samples; declaration and receipt envelopes are not part of the model.
- ImportOverlap.Evaluate: likewise; sample event checks appear as the condition `Bound`.
- scripts/evaluate_import_overlap_v3.py: the same algorithm as its successor apart from sample ordering.
- Colour stages `white_balance` and `tone_color` and the profile decoding: per-pixel parameters of the pipeline.
- Render.Render: recipe fields are those the recipe schema admits (src/edit/recipe.rs:200-213); others are not modelled.
- Admission.Runner.Admit: identifiers are fresh by assumption.
- Admission.Runner.Call: replay of adopted predecessor keys, which the keys of an admission cannot meet because they carry its fresh identifier.
- CleanupPlan.CleanupExport: nobody else changes the trees meanwhile; guards, locks and the start and result documents are storage faults.
- Cleanup.Walk: the hash itself; a file that changes while it is hashed is a refusal that may happen at any file. Paths are component lists and symbolic links are special files.
- WindowsStage.StageAll: the search that builds the list of available libraries, name collisions of copies and the copying itself.
- Pager.SelectsExactly: full-text search is taken word by word by prefix, and date bounds are plain days, as the queries of the cases use them.
- ReversePages.PageIsNaive: anchors are given as a bucket and a sequence number; a key whose day reads 00 is not part of the model.
- JpegAssembly.ReadMetadata: `extended_guids` and MD5 are parameters; decoding a group identifier as ASCII is taken to succeed.
- IccTable.WriteProfile: the fixed header bytes come as a parameter with the two fields the reader inspects; tag payload construction is not modelled.
- ProcessTracker.Supervise: storage identity, free space, capture flags and deadline are nondeterministic failures; termination and reaping of processes are not modelled.
- StreamCapture.BoundedCapture.Collect: a write and the count of it are one step; the thread and its lock are not modelled.
- SampleLedger.Observations: fields that are not integers are opaque, so Python's equality of `1`, `1.0` and `True` is not modelled (such fields are refused later); line framing of the file is not modelled.
- CaseSummary.SummarizeCase: the descriptive fields of the summary.
- Process spawning, signals, locks, packaging, notices, PNG and TIFF readers, XMP semantics, database benchmarks and the Rust catalogue: not part of this model.
