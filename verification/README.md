# Verified core of the media server

A Dafny model of the algorithms the media server's plugins and its pipeline rely on:

* the Jonker-Volgenant solver for linear assignment problems, and the thresholded matching of
  tracks and detections that is built on it (`plugins/tracker/bytetrack/src/lapjv.cpp`, `utils.cpp`);
* the ByteTrack tracker, a state machine over tracked, lost and removed tracks that takes one step
  per frame (`BYTETracker.cpp`, `STrack.cpp`, the list operations in `utils.cpp`);
* the JSON library: parser, plain printer, printer into a growing buffer, and minifier
  (`work/cjson/src/cJSON.c`);
* the walk that lays the elements of a pipeline onto threads (`src/pipeline.cpp`);
* class-wise non-maximum suppression (`plugins/official/triton/python/yolo_detection.py`);
* splitting words into vocabulary pieces, and truncating, framing and padding token ids (the BERT
  tokenizer in `plugins/official/bert/tokenizers/tokenizers`).

`dafny verify dfyconfig.toml` checks everything.

## How it is organised

| files | content |
|---|---|
| `Options` | a value that may be missing |
| `Permutations`, `Assignment` | permutations and sums along them; prices, slackness, and the invariant of the solver |
| `ColumnReduction`, `RowReduction`, `ShortestPath`, `Solver` | the four phases, each as methods over the arrays the original updates in place, and the solver |
| `PartialMatching`, `LinearAssignment` | the embedding of a rectangular matching problem into a square one, and the callers |
| `Rectangles` | the area two rectangles share, told by their points |
| `Tracks`, `TrackLists`, `Association` | tracks and their transitions, list operations, what matches do to the tracks |
| `Frames`, `TrackerInvariant`, `TrackerRuns` | one frame as a relation, what it settles, and all runs |
| `TrackerMotion` | where the tracks go in a frame |
| `TrackerRevival`, `TrackerReturn`, `TrackerExample` | tracked tracks on the removed list, which removed tracks can come back, and runs in which one does |
| `TrackersTogether` | several trackers on one counter |
| `ByteTracker` | the tracker as a class whose `Update` is one frame |
| `JsonText`, `JsonParse`, `JsonRoundTrip` | JSON values, their text, the parser as functions, and what it reads of a printed text |
| `JsonNumerals`, `JsonGrammar` | the texts of RFC 8259 with their meaning, written apart from parser and printer, and the wider grammar the parser goes by |
| `JsonTexts`, `JsonAccepted`, `JsonPrinted` | what the parser makes of those texts, which texts it accepts, and what the printer prints |
| `JsonNumbers` | which numbers survive printing and reading in floating-point arithmetic |
| `JsonStrings`, `JsonReader`, `JsonPrinter`, `JsonBuffer`, `JsonMinify` | the reading, printing and minifying code over buffers |
| `JsonPieces` | texts cut into space, comments, strings and other characters, and what minifying keeps of them |
| `Bits` | 32-bit words and the numbers they stand for: what the masks, shifts and smeared bits of the JSON code compute |
| `PipelineThreads`, `PipelineSample` | the walk over an acyclic pipeline, and the face detection sample in two orders |
| `PipelineEnds`, `PipelineTask` | when the walk ends on any pipeline, and the class that runs it |
| `Suppression`, `WordPieces`, `Encoding` | the three smaller algorithms |

Code that updates things step by step is a method with loops over arrays or over the fields of a
class; it is proved equal to a specification function, or to establish a predicate, about which the
lemmas then speak.

## The solver

The state between any two steps is `(x, y, v, free)`: the matching by rows and by columns, the
prices, and the rows on the free list. `Assignment.State` is what every phase keeps: rows off the free
list hold a column that points back to them; an assigned column is a cheapest one for its row at
the prices `v`; a column that was never assigned is still priced at its minimum. The entry `x[i]` of a
free row is stale, and nothing is said about it. Slackness without free rows is optimality.

Costs are reals in a window `[lo, hi]` with `hi < LARGE` and `2 (hi - lo) < LARGE`, where `LARGE` is the
constant 1000000 the original starts its minima with. Inside that window no reduced cost is ever as large as
the sentinel (`ReducedCostsStayBelowSentinel`); nothing is claimed about costs outside it. Distances of boxes
lie in `[0, 1]`, whatever the boxes are, so the tracker always stays inside.

The caller takes a matrix that has rows but no columns for a square one and then does not cut the
solution back: every row is reported as matched with column 0. `LinearAssignment.Assign` states exactly
when its result is a partition. The tracker never passes such a matrix.

## The tracker

`TrackerRuns.Inv` holds between any two frames of any run: ids of tracked tracks are distinct, ids of lost tracks
are distinct, no id is in both lists, every id is at most the counter; a tracked track was matched in this
very frame, and one that is not activated was born in it; a lost track is between 1 and `Patience + 1` frames old
and is marked removed exactly when it is `Patience + 1` frames old. The extra frame is there because the lost list
is filtered against the removed list before this frame's removals join it. With a maximum of 0 the tracker
takes the same steps as with 1 (`TrackerRevival.ZeroIsOne`).

`TrackerMotion.TracksAreTrue` says where the tracks are after a frame. A tracked track either follows a detection
it may follow (at a distance of at most 0.8 with a score from 0.5 on, of at most 0.5 below that if it was being
tracked, of at most 0.7 from a high score if it waited to be confirmed), and then its motion is the filter's
correction by that detection's box and its box is read off the corrected motion; or it begins with a detection that
scores at least 0.6. A lost track keeps its box and score, and its motion is only predicted. Distances are
measured by points: the overlap is the area of the rectangle whose points are those of both boxes, over the area of
the two together (`Tracks.IouMeasures`, and `Suppression.IouMeasures` for the detector's boxes).

Tracked and removed ids need not stay disjoint: a track marked removed stays in the lost list for one more
frame and can be found again in it. `TrackerReturn.ApartUnlessOneCanReturn` says from the state before a frame
whether that can happen: as long as the ids are disjoint, every next frame, whatever the filter and the
detections, keeps them so exactly if no lost track marked removed has a box with an extent (a box with
`right - left > -1` and `bottom - top > -1`; a flat box overlaps nothing and is never matched). With a negative
maximum the same holds of all lost tracks, because one that is found again joins the removed list in that
very frame (`TrackerRevival.RemovedWhileTracked`). `TrackerExample.RemovedAndTracked` is, for every maximum that is
not negative, a run that ends with such a track.

Runs may be interleaved with other trackers: the id counter is shared, and between two frames it may grow. Two
trackers never use the same id (`TrackersTogether.IdsAreNotShared`).

## The pipeline

Whether an element is placed on more than one thread depends on the order in which the elements are listed.
An element that is the only consumer of another is put behind it even if it has been placed before. So the layout
places every element once exactly if, for every reached element u with only one consumer v, the walk first comes
to v from u: the route from the entry that takes, at each element, the first listed consumer leading to v must end
in u, v (`PipelineThreads.LayoutIsComplete`). The shipped face detection sample meets this condition although its
tracker has two producers; with the tracker listed before the detection it does not, and the tracker and the element
behind it are placed twice (`PipelineSample`).

All this is about acyclic pipelines. On others the walk comes to an end exactly if the entry reaches no cycle of
elements each of which is the only consumer of the one before it (`PipelineEnds.EndsIffNoCycle`): at a branching
element the flags stop it. What the entry reaches is then placed, and nothing else. On every pipeline each thread is a
chain of synchronous only consumers that ends only where it must: a synchronous only consumer of its last element
would have joined it (`PipelineEnds.EndedIsWellFormed`).

## JSON

Texts are C strings: sequences of bytes other than NUL. The parser is total on them; it answers with a
value and the place behind it, with the place of an error, or with `Outside` where the original reads an escape that
has no defined meaning there (a Unicode escape without four hexadecimal digits, a backslash at the end of the
text). Printing is defined for values whose numbers are whole and below 10^60, which the original prints digit by digit.

Reading a number rounds: its digits are added up in floating point, `n * 10.0 + d`, each operation rounded. The
parser has the arithmetic as a parameter, a rounding function and the powers of ten, and the inverse laws say what is
read in any of them: the value with every number replaced by what its digits add up to. A printed value is
therefore parsed back exactly if each of its numbers is (`JsonNumbers.RoundTripIff`). A number is if every value met
while its digits are read is a number of the arithmetic (`ReadableIsReadBack`); up to 2^53 that is so in arithmetic that
keeps 53-bit integers, because all prefixes of the digits stay below 2^53 too (`SafeRoundTrip`). Beyond 2^53 it can fail
for numbers that are themselves exact: 2^58 is printed as its digits and read as 2^58 - 32 (`LargeIsNotReadBack`).

`JsonGrammar` derives the texts of RFC 8259 and says what each denotes: numbers by the places of their digits, strings by
the code points of their escapes. In exact arithmetic every such text is parsed to what it denotes
(`JsonTexts.TextIsParsed`), and what is printed is such a text, laid out in one way: an integer without leading zeros,
escapes only where they have to be, and space only where the format asks for it (`JsonPrinted.PrintedIsJson`). The
parser takes more than RFC 8259 allows, and `JsonAccepted.AcceptedIff` says exactly how much more: any control character as
space, control characters in strings, any letter behind a backslash, Unicode escapes that stand for no character, one
zero before the digits, a minus without digits, an exponent without digits, and as the whole text a string that nothing
closes. `JsonTexts.TextIsParsed` covers the value of these texts too.

Minifying keeps the strings and all characters outside of space and comments, in whatever way a text is cut into such
pieces (`JsonPieces.MinifyingKeeps`). The two marks of a block comment may share their star: `/*/` is a whole comment.

## Model

| member | source | states |
|---|---|---|
| Assignment.FreeRowsAreAsManyAsFreeColumns | plugins/tracker/bytetrack/src/lapjv.cpp:46-67 | whenever the invariant holds there are as many free rows as unassigned columns, so a free row can always be served |
| Assignment.ReducedCostsStayBelowSentinel | plugins/tracker/bytetrack/src/lapjv.cpp:14-28 | while a column is unassigned every price lies in a window around the costs and no reduced cost reaches LARGE, so the sentinel is never taken for a cost |
| Assignment.AssignKeepsState | plugins/tracker/bytetrack/src/lapjv.cpp:113-137 | giving a free row a cheapest column at a price no higher than before keeps the invariant, frees the row that held the column and nothing else |
| Assignment.LowerPriceKeepsState | plugins/tracker/bytetrack/src/lapjv.cpp:50-63 | lowering the price of an assigned column that stays cheapest for its row keeps the invariant |
| Assignment.SlackIsOptimal | plugins/tracker/bytetrack/src/lapjv.cpp:309-330 | with no free row left, slackness implies that the matching is an optimal permutation |
| ColumnReduction.ColumnMinima | plugins/tracker/bytetrack/src/lapjv.cpp:14-28 | every column ends priced at its minimum, attained in the row noted for it |
| ColumnReduction.ClaimColumns | plugins/tracker/bytetrack/src/lapjv.cpp:32-45 | every row keeps the last column whose minimum it attains, the other columns are given up, and the flag tells which rows attained only one |
| ColumnReduction.TransferReduction | plugins/tracker/bytetrack/src/lapjv.cpp:46-66 | the free rows are listed in order and the prices are those of the specified transfer |
| ColumnReduction.TransferredKeepsState | plugins/tracker/bytetrack/src/lapjv.cpp:50-63 | reduction transfer keeps the invariant |
| ColumnReduction.Reduce | plugins/tracker/bytetrack/src/lapjv.cpp:9-68 | the first phase establishes the invariant with exactly the listed rows free |
| RowReduction.TwoBestAreBest | plugins/tracker/bytetrack/src/lapjv.cpp:92-110 | the two columns found are the cheapest and second cheapest of the row |
| RowReduction.TwoCheapest | plugins/tracker/bytetrack/src/lapjv.cpp:92-110 | the loop computes the two best columns as specified |
| RowReduction.AttemptsAreBounded | plugins/tracker/bytetrack/src/lapjv.cpp:84-139 | at most n + 1 attempts are made per row given to the phase, although the read index moves backwards |
| RowReduction.PendingAfterTry | plugins/tracker/bytetrack/src/lapjv.cpp:120-134 | writing a displaced row over the place just read, or to the front of the same array, neither loses nor duplicates a pending row |
| RowReduction.TryIsSound | plugins/tracker/bytetrack/src/lapjv.cpp:84-138 | one attempt keeps the invariant, whichever branch it takes |
| RowReduction.RunIsSound | plugins/tracker/bytetrack/src/lapjv.cpp:73-140 | the whole phase keeps the invariant |
| RowReduction.RunOnlyImproves | plugins/tracker/bytetrack/src/lapjv.cpp:73-140 | no assigned column becomes unassigned and no price rises |
| RowReduction.TryRow | plugins/tracker/bytetrack/src/lapjv.cpp:88-138 | the loop body updates arrays and indices exactly as one specified attempt |
| RowReduction.ReduceRows | plugins/tracker/bytetrack/src/lapjv.cpp:73-140 | the phase ends, keeps the invariant, and leaves exactly the still free rows at the front of the array, without repetition |
| ShortestPath.FindMinima | plugins/tracker/bytetrack/src/lapjv.cpp:145-160 | the columns are only permuted from lo on; those before the returned place have the minimal distance, those behind it a greater one |
| ShortestPath.MinimaBecomeScan | plugins/tracker/bytetrack/src/lapjv.cpp:228-242 | splitting off the next minima keeps the tree of labels and all settled distances |
| ShortestPath.ReachKeepsFrontier | plugins/tracker/bytetrack/src/lapjv.cpp:180-186 | a column reached more cheaply gets a label that keeps the search sound |
| ShortestPath.JoinScan | plugins/tracker/bytetrack/src/lapjv.cpp:186-193 | a column that comes down to the minimum joins the run being scanned |
| ShortestPath.ScanColumn | plugins/tracker/bytetrack/src/lapjv.cpp:173-195 | one scanned column relaxes all others, or an unassigned column at the minimum is found |
| ShortestPath.Scan | plugins/tracker/bytetrack/src/lapjv.cpp:165-199 | the scan ends with its run used up or with an unassigned column at the minimum; in the second case its indices stay as they were |
| ShortestPath.TrailIsPath | plugins/tracker/bytetrack/src/lapjv.cpp:222-251 | following the predecessors leads from any column back to the start row without meeting a column twice |
| ShortestPath.NoShorterWalk | plugins/tracker/bytetrack/src/lapjv.cpp:228-251 | no walk from the start row to a column is shorter than its label or the minimum reached |
| ShortestPath.RepricingKeepsSlack | plugins/tracker/bytetrack/src/lapjv.cpp:254-261 | after the price update every assigned column is still a cheapest one for its row |
| ShortestPath.PredecessorsAreTight | plugins/tracker/bytetrack/src/lapjv.cpp:254-261 | after the price update the columns on the way are cheapest for the rows they will be given to |
| ShortestPath.FindPath | plugins/tracker/bytetrack/src/lapjv.cpp:208-267 | an unassigned column at least distance is returned with its path; slackness holds at the new prices and the path is tight, although the indices may be stale |
| Solver.RowsOnPath | plugins/tracker/bytetrack/src/lapjv.cpp:288-300 | the rows on the path differ and only the last is the free row it started from |
| Solver.PathIsShort | plugins/tracker/bytetrack/src/lapjv.cpp:288-300 | a path has at most n columns |
| Solver.TurnPath | plugins/tracker/bytetrack/src/lapjv.cpp:288-301 | walking back takes exactly as many steps as the path has columns, at most n, and gives every column on it to its predecessor |
| Solver.TurnedPathKeepsState | plugins/tracker/bytetrack/src/lapjv.cpp:280-302 | turning a path matches one more row, unmatches none, and keeps x and y inverse despite stale entries |
| Solver.AugmentAll | plugins/tracker/bytetrack/src/lapjv.cpp:272-304 | after the augmentations no row is free and slackness holds |
| Solver.Solve | plugins/tracker/bytetrack/src/lapjv.cpp:309-330 | returns 0; x is a permutation with inverse y, and no permutation is cheaper |
| PartialMatching.SquareCost | plugins/tracker/bytetrack/src/utils.cpp:237-277 | an assignment of the square problem costs a constant plus the value of the partial matching inside it |
| PartialMatching.CompletedIsPermutation | plugins/tracker/bytetrack/src/utils.cpp:237-277 | every partial matching can be completed to an assignment of the square problem |
| PartialMatching.InsideOfOptimalIsBest | plugins/tracker/bytetrack/src/utils.cpp:237-315 | an optimal assignment of the square problem has inside it a partial matching of least total cost above the limit |
| PartialMatching.BestIsStable | plugins/tracker/bytetrack/src/utils.cpp:237-315 | every reported match costs at most the limit, and no row or column left alone could be matched for less |
| LinearAssignment.ExtendCost | plugins/tracker/bytetrack/src/utils.cpp:237-277 | the loops fill the square matrix with the costs, half the limit beside them, and zero in the corner |
| LinearAssignment.CutIsInverse | plugins/tracker/bytetrack/src/utils.cpp:302-314 | cut down to the real lines, the two solutions are still inverse to each other |
| LinearAssignment.Lapjv | plugins/tracker/bytetrack/src/utils.cpp:214-338 | the row solution is a best partial matching, the column solution its inverse and the returned cost that of the matches; without columns every row is reported in column 0 |
| LinearAssignment.PairsPartition | plugins/tracker/bytetrack/src/utils.cpp:109-125 | matches and leftovers of inverse solutions partition the rows and columns |
| LinearAssignment.Assign | plugins/tracker/bytetrack/src/utils.cpp:95-126 | matches and leftovers come from a best partial matching, and they partition rows and columns exactly when the matrix has no rows or has columns |
| Tracks.Iou | plugins/tracker/bytetrack/src/utils.cpp:128-159 | intersection over union with edges as pixels lies in [0, 1] for all boxes, even degenerate ones |
| Tracks.IouMeasures | plugins/tracker/bytetrack/src/utils.cpp:128-159 | that ratio is the area of the rectangle whose points both boxes have, over the area of the two together, and 0 if no point is inside both |
| TrackLists.JointIsUnion | plugins/tracker/bytetrack/src/utils.cpp:21-36 | the union keeps the first list as its prefix, has the ids of both, and repeats none the first list does not repeat |
| TrackLists.JointTracks | plugins/tracker/bytetrack/src/utils.cpp:21-36 | the loops with the table of ids compute that union |
| TrackLists.DifferenceIsDifference | plugins/tracker/bytetrack/src/utils.cpp:38-57 | the difference has the ids of the first list without those of the second, each once, in increasing order, with the first track of each id |
| TrackLists.SubTracks | plugins/tracker/bytetrack/src/utils.cpp:38-57 | the map-based loops compute that difference |
| TrackLists.NoneNear | plugins/tracker/bytetrack/src/utils.cpp:59-93 | after the removal of duplicates no tracked track is near a lost one |
| TrackLists.SurvivorExists | plugins/tracker/bytetrack/src/utils.cpp:59-93 | every track of either list is linked, by near tracks each of which gives way to the next, to one that stays and was followed at least as long |
| TrackLists.RemoveDuplicates | plugins/tracker/bytetrack/src/utils.cpp:59-93 | exactly the tracks are taken out that give way to a near one followed longer (or as long, for tracked ones) |
| TrackLists.IouDistances | plugins/tracker/bytetrack/src/utils.cpp:161-212 | the matrix holds all distances, or nothing if either list is empty |
| Association.FollowedEffect | plugins/tracker/bytetrack/src/BYTETracker.cpp:80-90 | exactly the matched tracks change, once each, and exactly their copies are collected, by whether they were being tracked |
| Association.RetiredEffect | plugins/tracker/bytetrack/src/BYTETracker.cpp:125-131 | exactly the tracks left over are marked, and exactly their copies are listed |
| Association.PoolIsComplete | plugins/tracker/bytetrack/src/BYTETracker.cpp:61-69 | without repeated ids the pool holds every activated and every lost track, once |
| Association.PredictionOnlyMoves | plugins/tracker/bytetrack/src/STrack.cpp:167-174 | prediction changes the motion of the tracks in the pool and nothing else |
| Association.StillTrackedAre | plugins/tracker/bytetrack/src/BYTETracker.cpp:99-103 | the second association considers exactly the tracks left over that are being tracked |
| TrackerInvariant.AssociationsSettle | plugins/tracker/bytetrack/src/BYTETracker.cpp:60-154 | after the three associations every track has one settled fate and its copy is in exactly the list that goes with it; tracks matched and detections left over are no more than the detections |
| TrackerInvariant.DetectionsUsedOnce | plugins/tracker/bytetrack/src/BYTETracker.cpp:26-154 | no detection is matched twice in the three associations, or matched and left to begin a track |
| TrackerMotion.MatchPursues | plugins/tracker/bytetrack/src/STrack.cpp:54-97 | every matched track ends with the motion corrected by its own detection, the box read off that motion, the detection's score, and a length one more if it was being tracked and 0 if it was lost |
| TrackerMotion.FrameIsTrue | plugins/tracker/bytetrack/src/BYTETracker.cpp:17-209 | after a frame every tracked track follows in this way a detection near enough for its kind and score, or begins with one scoring at least 0.6, and every lost track has kept its box and is only predicted |
| TrackerMotion.BirthsBegin | plugins/tracker/bytetrack/src/BYTETracker.cpp:156-163 | exactly the leftover detections scoring at least 0.6 begin tracks, with their box and a filter started on it |
| TrackerMotion.LeftoversAreFar | plugins/tracker/bytetrack/src/BYTETracker.cpp:60-163 | no match is missed: between a track that is not tracked on and a detection nobody was matched with lies at least the limit of the association both took part in |
| TrackerRuns.BirthsAreNew | plugins/tracker/bytetrack/src/BYTETracker.cpp:156-163 | new tracks get consecutive new ids and are activated only in the first frame |
| TrackerRuns.NewTrackedOrigin | plugins/tracker/bytetrack/src/BYTETracker.cpp:173-182 | every track of the new list was matched in this frame or is new, and no id occurs twice |
| TrackerRuns.LostOriginIsOk | plugins/tracker/bytetrack/src/BYTETracker.cpp:165-194 | a lost track ages by one a frame and is gone after the frame in which it was marked |
| TrackerRuns.FrameIsSafe | plugins/tracker/bytetrack/src/BYTETracker.cpp:17-209 | one frame keeps the invariant, continues or newly numbers every track, uses a detection per tracked track, and leaves no tracked track near a lost one |
| TrackerRuns.EveryTrackIsRepresented | plugins/tracker/bytetrack/src/BYTETracker.cpp:165-201 | a track of the frame before that is not on the removed list is linked, by near tracks each of which gave way to the next, to one that is tracked or lost afterwards and was followed at least as long |
| TrackerRuns.NothingVanishes | plugins/tracker/bytetrack/src/BYTETracker.cpp:165-201 | a track of the frame before is afterwards tracked, lost or removed, unless it gave way to a near duplicate |
| TrackerRuns.RunsAreSafe | plugins/tracker/bytetrack/src/BYTETracker.cpp:17-209 | the invariant holds in every state of every run |
| TrackerRuns.GoneForGood | plugins/tracker/bytetrack/src/STrack.cpp:157-161 | an id that was handed out and is neither tracked nor lost is never in use again |
| TrackerRuns.AgeIsTrue | plugins/tracker/bytetrack/src/BYTETracker.cpp:166-194 | in any run a lost track was being tracked in the frame it names, at most Patience + 1 frames ago |
| TrackerRuns.UnseenIsForgotten | plugins/tracker/bytetrack/src/BYTETracker.cpp:166-194 | an id not tracked for longer than the tracker's patience is neither tracked nor lost, ever after |
| TrackerRevival.RemovedWhileTracked | plugins/tracker/bytetrack/src/BYTETracker.cpp:166-194 | the id of a track that is tracked after a frame is on the removed list exactly if it was before, or the maximum is negative and the track was lost before |
| TrackerReturn.ApartUnlessOneCanReturn | plugins/tracker/bytetrack/src/BYTETracker.cpp:60-194 | from a state with disjoint tracked and removed ids some next frame leads to one where they meet, exactly if a lost track marked removed (with a negative maximum: any lost track) has a box with an extent |
| TrackerReturn.CanBeFoundAgain | plugins/tracker/bytetrack/src/BYTETracker.cpp:60-97 | a lost track whose box has an extent is tracked again after some next frame |
| TrackerReturn.NotFoundAgain | plugins/tracker/bytetrack/src/BYTETracker.cpp:60-97 | a lost track with a flat box is tracked again after none |
| TrackerRevival.ZeroIsOne | plugins/tracker/bytetrack/src/BYTETracker.cpp:166-171 | with a maximum of 0 the tracker takes the same steps as with 1 |
| TrackerExample.RemovedAndTracked | plugins/tracker/bytetrack/src/BYTETracker.cpp:17-209 | for every maximum that is not negative there is a run after which the same id is tracked and removed |
| TrackersTogether.OnlyNewIds | plugins/tracker/bytetrack/src/STrack.cpp:157-161 | in one frame a tracker takes up ids the counter hands out in it, and no other |
| TrackersTogether.IdsAreNotShared | plugins/tracker/bytetrack/src/STrack.cpp:157-161 | in any interleaved run of trackers on one counter no id is ever used by two of them, not even at different times |
| ByteTracking.IdSource.Next | plugins/tracker/bytetrack/src/STrack.cpp:157-161 | ids are handed out in increasing order |
| ByteTracking.ByteTracker.constructor | plugins/tracker/bytetrack/src/BYTETracker.cpp:4-12 | a new tracker satisfies the invariant and its maximum is the truncated product |
| ByteTracking.ByteTracker.Predict | plugins/tracker/bytetrack/src/STrack.cpp:167-174 | predicts exactly the tracks in the pool |
| ByteTracking.ByteTracker.Follow | plugins/tracker/bytetrack/src/BYTETracker.cpp:80-90 | updates or re-activates the matched tracks in place and collects their copies as specified |
| ByteTracking.ByteTracker.Retire | plugins/tracker/bytetrack/src/BYTETracker.cpp:125-131 | marks the tracks left over in place and collects their copies as specified |
| ByteTracking.ByteTracker.MakePool | plugins/tracker/bytetrack/src/utils.cpp:4-19 | activated and lost tracks are pooled without repeating an id |
| ByteTracking.ByteTracker.Associate | plugins/tracker/bytetrack/src/BYTETracker.cpp:72-78 | the assignment is a best one for the distances of the boxes, and a partition |
| ByteTracking.ByteTracker.AssociateAll | plugins/tracker/bytetrack/src/BYTETracker.cpp:60-154 | the three associations, in order, with their limits |
| ByteTracking.ByteTracker.Begin | plugins/tracker/bytetrack/src/BYTETracker.cpp:156-163 | tracks begin for exactly the leftover detections that score high enough |
| ByteTracking.ByteTracker.Age | plugins/tracker/bytetrack/src/BYTETracker.cpp:166-171 | marks and lists exactly the lost tracks whose time is over |
| ByteTracking.ByteTracker.Update | plugins/tracker/bytetrack/src/BYTETracker.cpp:17-209 | one call is one frame step and keeps the invariant with all its guarantees; every tracked track follows a detection it may follow or begins with one, every lost one drifts, and the output is exactly the activated tracked tracks in order |
| JsonParse.BytesByTable | work/cjson/src/cJSON.c:229-237 | six bits at a time gives the bytes laid out in the table of RFC 3629 section 3 |
| JsonRoundTrip.CharacterRoundTrip | work/cjson/src/cJSON.c:286-304 | every character, as printed, is read back as itself |
| JsonRoundTrip.StringRoundTrip | work/cjson/src/cJSON.c:192-307 | the string parser inverts the string printer on every NUL-free string, wherever in a text it stands |
| JsonRoundTrip.NumberRoundTrip | work/cjson/src/cJSON.c:96-175 | from the decimal text of a whole number is read what its digits add up to in the parser's arithmetic, and the place behind it |
| JsonRoundTrip.ValueRoundTrip | work/cjson/src/cJSON.c:357-658 | wherever the text of a value stands, formatted or not, the parser stops right behind it and has read the value with each number as its digits add up |
| JsonRoundTrip.PrintedParses | work/cjson/src/cJSON.c:322-343 | the whole printed text parses to the value as it is read, and is used up |
| JsonNumerals.NumeralIsParsed | work/cjson/src/cJSON.c:96-115 | in exact arithmetic every number of RFC 8259 section 6 is read as the sum of its digits times their powers of ten, times ten to its exponent, with its sign, and so is every other numeral the parser takes |
| JsonNumerals.PrintedInteger | work/cjson/src/cJSON.c:146-175 | an integer is printed as a minus exactly if it is negative and digits without a leading zero whose places add up to it |
| JsonTexts.StringIsRead | work/cjson/src/cJSON.c:192-249 | a string of the grammar is read as the bytes its characters and escapes stand for |
| JsonTexts.NodeIsParsed | work/cjson/src/cJSON.c:357-547 | wherever a text of the grammar stands, with space wherever it is allowed, the value it denotes is parsed and the parser stops behind it |
| JsonTexts.TextIsParsed | work/cjson/src/cJSON.c:323-337 | so is a whole text with space around it, whether or not its end is checked |
| JsonAccepted.AcceptedIff | work/cjson/src/cJSON.c:323-337 | in any arithmetic a whole text is accepted exactly if it derives from the wider grammar |
| JsonPrinted.PrintedIsJson | work/cjson/src/cJSON.c:252-658 | every printed text derives from the grammar of RFC 8259, denotes the value, and has exactly the escapes, line breaks, tabs and spaces of its format |
| JsonNumbers.RoundTripIff | work/cjson/src/cJSON.c:322-343 | printing and parsing gives a value back exactly if each of its numbers is read back from its digits |
| JsonNumbers.ReadableIsReadBack | work/cjson/src/cJSON.c:98-111 | a number is read back if every value met while its digits are read needs no rounding |
| JsonNumbers.SafeRoundTrip | work/cjson/src/cJSON.c:96-115 | a value whose numbers are whole and at most 2^53 is parsed back from its text, in any arithmetic that keeps such integers |
| JsonNumbers.LargeIsNotReadBack | work/cjson/src/cJSON.c:102-102 | rounded to 53 bits, 2^58 is read back as another number although it is exact itself |
| JsonNumbers.PrintIsInjective | work/cjson/src/cJSON.c:342-343 | different values never print alike |
| JsonStrings.FirstPassCovers | work/cjson/src/cJSON.c:197-199 | the first pass ends where the second does and asks for at least the room it writes to |
| JsonStrings.WriteUtf8 | work/cjson/src/cJSON.c:229-237 | the bytes of a code point, written from the last to the first, are its UTF-8 |
| JsonStrings.ReadString | work/cjson/src/cJSON.c:192-249 | the two-pass reader stays inside its buffer and leaves there exactly the string the parser specifies |
| JsonStrings.Utf8RoundTrip | work/cjson/src/cJSON.c:229-237 | what is written for a Unicode scalar value decodes to it by the rules of RFC 3629 section 3, in the shortest form |
| JsonStrings.UnicodeEscapeIsUtf8 | work/cjson/src/cJSON.c:216-238 | a well-formed escape, single or surrogate pair (RFC 8259 section 7), is read as the UTF-8 of its code point |
| JsonStrings.PrintedLengthIsExact | work/cjson/src/cJSON.c:278-278 | the counting pass is exact for every string |
| JsonStrings.PrintString | work/cjson/src/cJSON.c:252-307 | both paths of the string printer fill a buffer of exactly the counted size with the escaped text |
| JsonReader.ReadNumber | work/cjson/src/cJSON.c:96-115 | the loops compute the number the parser specifies, rounding after every operation |
| JsonReader.ReadValue | work/cjson/src/cJSON.c:357-369 | the recursive reader computes the specified outcome for every text, errors included |
| JsonReader.ReadArray | work/cjson/src/cJSON.c:406-431 | the loop over items computes the specified outcome |
| JsonReader.ReadObject | work/cjson/src/cJSON.c:514-547 | the loop over members computes the specified outcome |
| JsonReader.Read | work/cjson/src/cJSON.c:323-337 | the whole text is read as specified, with or without the check of its end |
| JsonPrinter.RoomCovers | work/cjson/src/cJSON.c:434-511 | the size added up for an array or object always covers its text and the NUL |
| JsonPrinter.CollectItems | work/cjson/src/cJSON.c:475-483 | the texts of the items are collected in order and their room added up |
| JsonPrinter.PrintArray | work/cjson/src/cJSON.c:434-511 | composing the items stays inside the array allocated for it and gives the text of the array |
| JsonPrinter.PrintObject | work/cjson/src/cJSON.c:550-658 | composing the members stays inside the array allocated for it and gives the text of the object |
| JsonPrinter.PrintValue | work/cjson/src/cJSON.c:372-403 | the plain printer gives the text of every value whose numbers are whole and below 10^60 |
| JsonBuffer.PowerAboveIsLeast | work/cjson/src/cJSON.c:117-117 | the size of a new buffer is the least power of two that is large enough |
| Bits.EncodedIsUtf8 | work/cjson/src/cJSON.c:229-237 | the bytes computed with the masks, shifts and first-byte marks of the source are the UTF-8 of the code point |
| Bits.FirstByte | work/cjson/src/cJSON.c:235-235 | joining what is left of a code point with the mark of its first byte adds the two |
| Bits.ContinuationByte | work/cjson/src/cJSON.c:232-234 | the mask of a later byte adds its mark to the remainder by 64 |
| Bits.FourHexDigits | work/cjson/src/cJSON.c:177-189 | shifting by four and adding reads four hexadecimal digits as specified |
| Bits.CombinedIs | work/cjson/src/cJSON.c:226-226 | the masks, the shift and the OR combine the low ten bits of both surrogates above 0x10000 |
| Bits.SmearedIsPowerAbove | work/cjson/src/cJSON.c:117-117 | the number of the smeared word is the least power of two the buffer is grown to, up to 2^30 |
| JsonBuffer.SmearingIsPowerAbove | work/cjson/src/cJSON.c:117-117 | on 32 bits the bit trick computes a power of two that is least, up to 2^30 |
| JsonBuffer.PrintBuffer.Ensure | work/cjson/src/cJSON.c:121-136 | afterwards there is room, and everything written before is unchanged |
| JsonBuffer.PrintBuffer.Update | work/cjson/src/cJSON.c:138-144 | the offset moves to the NUL behind the text printed last |
| JsonBuffer.PrintBuffer.PrintStringTo | work/cjson/src/cJSON.c:252-307 | the escaped string stands at the offset and nothing before it changes |
| JsonBuffer.PrintBuffer.PrintArrayTo | work/cjson/src/cJSON.c:453-468 | the text of the array stands at the place it was printed to, across all moves of the buffer |
| JsonBuffer.PrintBuffer.PrintObjectTo | work/cjson/src/cJSON.c:570-607 | the text of the object stands at the place it was printed to, across all moves of the buffer |
| JsonBuffer.PrintBuffer.PrintBuffered | work/cjson/src/cJSON.c:345-353 | for every value whose numbers are whole and below 10^60, both formats and every positive initial size the buffered printer gives the text of the plain one |
| JsonMinify.ValueBecomes | work/cjson/src/cJSON.c:735-750 | wherever the formatted text of a value stands, minifying turns it into its unformatted text |
| JsonMinify.MinifiedPrint | work/cjson/src/cJSON.c:735-750 | minifying the formatted text of a value gives its unformatted text |
| JsonMinify.MinifyingKeepsMeaning | work/cjson/src/cJSON.c:735-750 | the minified text parses to the same value as the formatted one, in whatever arithmetic |
| JsonPieces.MinifyingKeeps | work/cjson/src/cJSON.c:735-750 | however a text is cut into space, comments, strings and other characters, minifying gives the strings and the other characters in their order |
| JsonPieces.MinifiesIffCut | work/cjson/src/cJSON.c:735-750 | there is a result exactly for the texts that can be cut so, the ones that leave no string and no block comment open |
| JsonMinify.MinifyInPlace | work/cjson/src/cJSON.c:735-750 | the loop over one buffer, written from its front while it is read, leaves the minified text |
| PipelineThreads.NextAre | src/pipeline.cpp:265-289 | the consumers found are exactly the elements with an input from the first output, each once |
| PipelineThreads.AttachIsSound | src/pipeline.cpp:291-326 | attaching an element keeps the layout sound and serves every element it newly places |
| PipelineThreads.WalkIsSound | src/pipeline.cpp:304-325 | following a chain and its branches keeps the layout sound |
| PipelineThreads.LayoutIsComplete | src/pipeline.cpp:337-348 | in an acyclic pipeline exactly the elements the entry reaches are placed, each thread is a chain of synchronous sole consumers behind its first element and ends only where no synchronous sole consumer follows, and each element is placed once exactly if for every reached element with one consumer the first-listed route to that consumer comes through it |
| PipelineThreads.RouteExists | src/pipeline.cpp:304-325 | to every other element that the entry reaches there is such a route, coming from one of its producers |
| PipelineThreads.RoutesAgree | src/pipeline.cpp:304-325 | there is only one, so the condition can be decided by following it |
| PipelineThreads.OneProducerComesFirst | src/pipeline.cpp:304-325 | if no sole consumer has a second producer the condition holds, in whatever order the elements are listed |
| PipelineSample.ShippedOrderPlacesOnce | samples/face_detection.json:1-117 | the shipped sample has a sole consumer with two producers and is nevertheless laid out without repetition |
| PipelineSample.SwappedOrderPlacesTwice | samples/face_detection.json:33-84 | with the tracker listed before the detection, the tracker and what is behind it are placed twice |
| PipelineThreads.SharedConsumerIsPlacedTwice | src/pipeline.cpp:309-318 | two reached elements with the same only consumer make it be placed twice, in whatever order the elements are listed |
| PipelineThreads.OneProducerEach | src/pipeline.cpp:265-289 | at most one producer per element implies that no sole consumer has a second producer |
| PipelineEnds.EndsIffNoCycle | src/pipeline.cpp:291-326 | the walk comes to an end exactly if the entry reaches no cycle of elements each of which is the only consumer of the one before |
| PipelineEnds.EndedIsWhole | src/pipeline.cpp:291-326 | a walk that ends, on whatever pipeline, has placed exactly the elements the entry reaches |
| PipelineEnds.EndedIsWellFormed | src/pipeline.cpp:291-326 | each thread it lays out, on whatever pipeline, is a chain of synchronous only consumers behind its first element, and ends only where its last element has no synchronous only consumer |
| PipelineEnds.AcyclicEnds | src/pipeline.cpp:291-326 | on an acyclic pipeline it ends, with the layout specified for it |
| PipelineTask.AlgTask.PutElement | src/pipeline.cpp:237-242 | the element is appended, on no thread yet |
| PipelineTask.AlgTask.SearchEntry | src/pipeline.cpp:244-263 | finds the first element with an input from the entry, if there is one |
| PipelineTask.AlgTask.GetNextElements | src/pipeline.cpp:265-289 | lists the consumers in the order of the elements |
| PipelineTask.AlgTask.AttachToThread | src/pipeline.cpp:291-326 | the loop and its recursive calls compute the walk of any pipeline on which it ends |
| PipelineTask.AlgTask.AssignToThreads | src/pipeline.cpp:337-348 | without an entry nothing changes; otherwise, unless the entry reaches a cycle of only consumers, the call ends, exactly what the entry reaches is placed, every thread is a chain that ends only where it must, and on an acyclic pipeline each element is placed once exactly under the condition above |
| Suppression.IouIsARatio | plugins/official/triton/python/yolo_detection.py:59-84 | for boxes with positive sides the overlap is symmetric and lies in [0, 1], and the union is never zero |
| Suppression.IntersectionMeasures | plugins/official/triton/python/yolo_detection.py:59-75 | the intersection is the area of the rectangle whose points are exactly those in both boxes, with their edges at half the sides from the centre, and 0 if no point is inside both |
| Suppression.IouMeasures | plugins/official/triton/python/yolo_detection.py:59-84 | the overlap is that area over the area of the two boxes together |
| Suppression.MoveEmptyBack | plugins/official/triton/python/yolo_detection.py:176-184 | detections without an object move behind the prefix; only the last of the prefix may have none |
| Suppression.SortedIsSorted | plugins/official/triton/python/yolo_detection.py:185-188 | sorting rearranges the prefix and puts higher scores of the class first |
| Suppression.RowsDropGreedily | plugins/official/triton/python/yolo_detection.py:189-196 | a detection is dropped only for an earlier one still in, and no two still in overlap too much |
| Suppression.GreedyIsUnique | plugins/official/triton/python/yolo_detection.py:189-196 | that describes the outcome completely: there is only one of its kind |
| Suppression.ClassStaysSettled | plugins/official/triton/python/yolo_detection.py:185-196 | later sorting does not disturb what was settled for an earlier class |
| Suppression.DroppingSettles | plugins/official/triton/python/yolo_detection.py:185-196 | after its turn a class is settled, and the others are as before |
| Suppression.DropRow | plugins/official/triton/python/yolo_detection.py:189-196 | the inner loop drops exactly what the row outdoes |
| Suppression.Suppress | plugins/official/triton/python/yolo_detection.py:174-196 | for every class survivors overlap at most by the threshold, every dropped detection is outdone by a survivor with at least its score, other scores are untouched, and every detection with an object was in the processed prefix |
| WordPieces.LongestEnd | plugins/official/bert/tokenizers/tokenizers/basic/wordpiece_tokenizer.cc:35-50 | the longest vocabulary piece from a place, or none |
| WordPieces.CutsAreTheMatch | plugins/official/bert/tokenizers/tokenizers/basic/wordpiece_tokenizer.cc:34-58 | any way to cut the word by longest matches to its end is the one the loop finds |
| WordPieces.KnownIffCut | plugins/official/bert/tokenizers/tokenizers/basic/wordpiece_tokenizer.cc:34-63 | a word is split exactly if longest matches lead to its end, and unknown exactly if they lead to a place where nothing fits |
| WordPieces.PiecesSpellTheWord | plugins/official/bert/tokenizers/tokenizers/basic/wordpiece_tokenizer.cc:34-63 | the pieces are in the vocabulary and, without their marks, spell the word |
| WordPieces.GreedyMissesASplit | plugins/official/bert/tokenizers/tokenizers/basic/wordpiece_tokenizer.cc:34-58 | a word can be unknown although the vocabulary could spell it |
| WordPieces.GreedyFindsAllIff | plugins/official/bert/tokenizers/tokenizers/basic/wordpiece_tokenizer.cc:34-58 | greedy matching finds a spelling of every rest of a word that has one, exactly if behind the longest piece of such a rest there is again one |
| WordPieces.KnownByCharacters | plugins/official/bert/tokenizers/tokenizers/basic/wordpiece_tokenizer.cc:34-58 | no word is unknown whose first character and every marked later character are entries |
| WordPieces.OneCharacterIsGreedy | plugins/official/bert/tokenizers/tokenizers/basic/wordpiece_tokenizer.cc:25-32 | the rule for words of one character agrees with the general one |
| WordPieces.MatchWord | plugins/official/bert/tokenizers/tokenizers/basic/wordpiece_tokenizer.cc:34-58 | the nested loops compute the greedy match |
| WordPieces.WordIsTokenized | plugins/official/bert/tokenizers/tokenizers/basic/wordpiece_tokenizer.cc:19-66 | a word of more than 100 characters, and one that longest matches get stuck in, gives the unknown token alone; every other word gives the pieces between its cuts, marked behind the first |
| WordPieces.Tokenize | plugins/official/bert/tokenizers/tokenizers/basic/wordpiece_tokenizer.cc:19-66 | the tokens of all words, one after the other; of each word what the tokens are is said without the function that computes them |
| Encoding.BalancedIsFair | plugins/official/bert/tokenizers/tokenizers/fundamental/fundamental_tokenizer.cc:336-347 | dropping from the longer sequence leaves prefixes of the right total length, and whichever was cut is not the shorter by more than one; it is possible exactly while there is something to drop |
| Encoding.TruncateSequence | plugins/official/bert/tokenizers/tokenizers/fundamental/fundamental_tokenizer.cc:311-368 | all strategies truncate as specified |
| Encoding.EncodeOutput.Pad | plugins/official/bert/tokenizers/tokenizers/fundamental/fundamental_tokenizer.cc:370-433 | ids, mask and types grow by the same padding, or not at all if the ids are too many |
| Encoding.Encode | plugins/official/bert/tokenizers/tokenizers/fundamental/fundamental_tokenizer.cc:49-102 | the encoding is the framed prefixes and padding, with mask and types beside it, also said place by place; with room for three ids all three lists have the maximal length |
| Encoding.EncodedByIndex | plugins/official/bert/tokenizers/tokenizers/bert/bert_tokenizer.cc:65-91 | place by place: the class token, the first text, a separator, the second text and its separator, then padding; types 0 up to the first separator and 1 behind it; mask 1 on tokens and 0 on padding |
| Encoding.TruncatedIsKept | plugins/official/bert/tokenizers/tokenizers/fundamental/fundamental_tokenizer.cc:311-368 | of both texts a prefix is kept, of the length each strategy allows |
| Encoding.KeptFits | plugins/official/bert/tokenizers/tokenizers/fundamental/fundamental_tokenizer.cc:63-83 | nothing is cut without need, a cut fills the room exactly and is fair, and the second text disappears only when nothing but special tokens fits |
| Encoding.DefinedIffFrameFits | plugins/official/bert/tokenizers/tokenizers/fundamental/fundamental_tokenizer.cc:336-347 | a pair can be truncated without taking from an empty list exactly if its special tokens fit |
| Encoding.FillsIff | plugins/official/bert/tokenizers/tokenizers/fundamental/fundamental_tokenizer.cc:317-334 | a single text is encoded to the maximal length exactly if that is at least three or the text is short enough anyhow |
| Encoding.PlainTypesFallShort | plugins/official/bert/tokenizers/tokenizers/fundamental/fundamental_tokenizer.cc:84-91 | without special tokens the type ids are as many as the ids only for a pair or for no ids |

## Left out

- Floating point: costs, boxes and scores are reals, without rounding; only the parser's numbers are rounded. Infinities, NaN and signed zeros are not modelled.
- ByteTracking.ByteTracker.constructor: the maximum is the truncated exact quotient, while the original divides and multiplies in doubles; for a frame rate of 42 and a buffer of 45 that makes 62 instead of 63.
- Machine integers: indices, counters, frame numbers and ids are unbounded; the product n * n is assumed not to wrap, and buffer sizes not to exceed 2^30.
- Allocation always succeeds; the error paths for failed allocation are not part of the model.
- LinearAssignment.Lapjv: requires costs and limit inside the window the sentinel allows; the branch without a finite limit, the branch that does not extend the matrix and the process exits are not modelled.
- ByteTracking.ByteTracker.Update: tracks are values and the original's pointers are references to places in the two lists, so aliasing between copies of a track is not modelled.
- The Kalman filter: its three operations and the box it implies are arbitrary functions of a track's motion.
- Copying the class label and the conversions between box formats, which only move numbers around.
- JsonReader.ReadValue: an escape without a defined reading ends as Outside before a buffer is filled; items and members are values chained by constructors, so the back links and the assignment of fields through pointers are not modelled.
- JsonParse.ParseValue: escapes without a defined reading give the outcome Outside instead of modelling what the original happens to skip.
- JsonNumerals.NumeralIsParsed: the value is stated for exact arithmetic; with rounding only printed integers are followed digit by digit. The truncated integer the original keeps beside the number is not modelled.
- JsonRoundTrip.NumberRoundTrip: covers the text of whole numbers; the formatting of other numbers is not modelled, while reading them is (`JsonNumerals.NumeralIsParsed`).
- JsonNumbers.RoundTripIff: a number that is met with rounding on the way can still be read back by luck; which ones are, beyond the sufficient condition of `ReadableIsReadBack`, is not characterised.
- JsonPrinter.PrintArray: requires whole numbers below 10^60 in the items; the original prints others with six decimals or an exponent.
- JsonPrinter.PrintObject: requires whole numbers below 10^60 in the members, as above.
- JsonPrinter.PrintValue: requires whole numbers below 10^60 in the value, as above.
- JsonBuffer.PrintBuffer.PrintArrayTo: requires whole numbers below 10^60 in the items, as above.
- JsonBuffer.PrintBuffer.PrintObjectTo: requires whole numbers below 10^60 in the members, as above.
- JsonBuffer.PrintBuffer.PrintBuffered: requires whole numbers below 10^60 in the value, as above.
- JsonStrings.WriteUtf8: masks and shifts are written as remainders and quotients; `Bits.EncodedIsUtf8`, `Bits.CombinedIs` and `Bits.FourHexDigits` relate the two on 32-bit words.
- JsonMinify.MinifyInPlace: requires that strings and block comments are closed; otherwise the original reads behind the text.
- cJSON's reference items, item editing, duplication and case-insensitive lookup.
- PipelineTask.AlgTask.AttachToThread: requires a walk that ends; elements are values named by their place, threads hold places instead of copies, and values of maps are compared as whole strings.
- PipelineTask.AlgTask.AssignToThreads: when elements are placed more than once is characterised for acyclic pipelines only.
- Locks around the element list, unsynchronised use of the id counter, plugin loading and the threads themselves.
- Suppression.Suppress: requires boxes with positive sides, as the detector produces, and a score for every class; the sort of the library is modelled by a stable insertion.
- WordPieces.Tokenize: the split at spaces is an input, and characters are units of text.
- Encoding.TruncateSequence: cuts at the right side only; the left side, which nothing selects, is not modelled.
- Encoding.EncodeOutput.Pad: pads at the right side only, for the same reason.
- Encoding.Encode: starts from token ids; cutting and padding at the left, which nothing selects, and negative maximal lengths with padding, on which the original throws, are not modelled.
- Special-token search, text normalisation, batch encoding, drawing, and the server's REST, scheduling and storage layers.
