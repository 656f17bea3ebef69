# Tournée state tree — a Dafny model

This project models the core of a field app for a collection round (*tournée*):

- **The tree itself.** A round holds an ordered set of stops (*points*). Each stop holds an ordered set of parcels (*colis*). A small unloading (*déchargement*) record sits beside them.
- **The builder.** It makes the tree from the static stop list.
- **The reducer.** It applies one action at a time: START/COMPLETE_TOURNEE, START/COMPLETE/RESET_POINT, SET_POINT_PHOTO, COLLECT/REFUSE_COLIS, SET_COLIS_ANALYSIS, SWAP_POINTS and RESET.
- **The selectors.** These are read-only views over the tree: progress percentages, the ordered stops, the results map, the all-done test, the roster of collected parcels, the unloading scan queries and the QR-code lookup.
- **Pure helpers from the AI wrapper.** These are the MIME type of an image URI, the clamping of the two analysis scores, and the fallback record.

Modules, one per file:

| file | module | contents |
|---|---|---|
| `optional.dfy` | `Optional` | `Option` |
| `seq_util.dfy` | `SeqUtil` | `indexOf` (first occurrence), swapping two cells, duplicate-freedom |
| `js_numbers.dfy` | `JsNumbers` | The text of an integer in a template literal (`IntString`). `Number(text)` restricted to decimal integers (`ParseNumber`). |
| `gemini.dfy` | `Gemini` | MIME type, score clamp, fallback record |
| `tournee_store.dfy` | `TourneeStore` | Datatypes of the tree, the builder (two loop methods), the consistency predicate `Valid`, the reducer `Reduce`, and the in-place swap on an array |
| `reducer_laws.dfy` | `ReducerLaws` | Lemmas about the builder and the reducer |
| `tournee_selectors.dfy` | `TourneeSelectors` | The selectors, with the two looping selectors as methods |
| `selector_laws.dfy` | `SelectorLaws` | Lemmas about the selectors, alone and after each action |

Modelling choices:

- **The reducer.** It is the pure function `Reduce(s, action, now)`. `now` stands for `new Date().toISOString()`, which the source calls inside the reducer.
- **Records.** JavaScript records become Dafny maps: `points: map<int, PointState>` and `colis: map<string, ColisState>`. Arrays become sequences. Optional fields become `Option`.
- **Loops.** The source fills records in loops in three places: building a stop, building the round, and the results map. It also runs a nested loop over stops and parcels. Each of these is a `method` with a `while` loop, proved equal to the function the rest of the model uses.
- **SWAP_POINTS.** It copies the order into an array and exchanges two cells in place (`SwapPointsOrder`).
- **The unloading record.** The selectors read `state.dechargement.scannedColis`, but the `TourneeState` in `types/tournee-store.ts:91-99` has no such field and `initTourneeState` creates none. The model adds the record `DechargementState(status, scannedColis)`, and the builder starts it locked with no scans. RESET replaces it with that initial record, and no other action changes it.
- **Status transitions.** The code does not make a stop's status advance monotonically:
  - START_POINT re-opens a stop that is already success or failed;
  - COMPLETE_POINT can turn success into failed and back;
  - RESET_POINT accepts a stop in any status.

  The model follows the code. `StartPointEffect`, `CompletePointEffect` and `ReopenedPointLeavesResults` state this behaviour.
- **Progress at 100 %.** The progress percentage uses `Math.round`. With 200 or more stops it reaches 100 while one stop is still open: `RoundPercentFullWithOneOpen` shows 199 of 200. Below 200 stops, 100 % does mean all stops are done (`FullProgressMeansAllDone`).

## Model

| member | source | states |
|---|---|---|
| `TourneeStore.ColisNames` | types/tournee-store.ts:148-153 | The names pushed onto a stop's parcel order are the input parcels' names in input order, one per parcel. |
| `TourneeStore.ColisRecord` | types/tournee-store.ts:147-153 | The parcel record has a key for exactly the input names. Each entry is a fresh pending parcel carrying its own name. |
| `TourneeStore.Numeros` | types/tournee-store.ts:176-181 | The numbers pushed onto the round's order are the input stops' numbers in input order. |
| `TourneeStore.PointsRecord` | types/tournee-store.ts:175-181 | The stop record has a key for exactly the input numbers. Each entry is a fresh pending stop under its own number. |
| `TourneeStore.ReasonLabelsDistinct` | types/tournee-store.ts:16-32 | The refusal and failure reasons carry pairwise distinct labels, so each enumeration maps one to one onto the source's list of label strings. |
| `TourneeStore.BuildColis` | types/tournee-store.ts:133-144 | A built parcel keeps the input's name and descriptive fields and is fresh: pending, without photo, analysis or refusal reason. |
| `TourneeStore.BuildPoint` | types/tournee-store.ts:146-172 | A built stop is fresh under its own number with the input's descriptive fields. Its parcel order is the input names in input order, and its parcel keys are exactly the names in that order. |
| `TourneeStore.InitState` | types/tournee-store.ts:174-189 | The built round has id "T01" and status pending, without timestamps. Its order is the input numbers in input order, its keys are exactly the ordered numbers, every stop is fresh, and the unloading is locked without scans. |
| `TourneeStore.SwapOrder` | types/tournee-store.ts:341-351 | The swapped order has the same length and multiset as the original, and is the original when either number is absent. |
| `TourneeStore.Reduce` | types/tournee-store.ts:195-366 | No action other than RESET changes the id, the unloading record or the set of stop keys, and the order keeps its multiset. RESET leaves the unloading locked without scans. |
| `TourneeStore.BuildPointState` | types/tournee-store.ts:146-172 | The loop that fills the parcel record and order builds exactly the specified stop. |
| `TourneeStore.InitTourneeState` | types/tournee-store.ts:174-189 | The loop that fills the stop record and order builds exactly the specified round. |
| `TourneeStore.SwapPointsOrder` | types/tournee-store.ts:342-349 | Copying the order into an array, locating both numbers and exchanging the two cells in place gives the specified swapped order; the order comes back unchanged when a number is absent. |
| `ReducerLaws.ColisRecordAt` | types/tournee-store.ts:150-153 | With distinct parcel names, each input parcel is stored under its name as the builder makes it. |
| `ReducerLaws.PointsRecordAt` | types/tournee-store.ts:178-181 | With distinct numbers, each input stop is stored under its number as the builder makes it. |
| `ReducerLaws.InitStateAt` | types/tournee-store.ts:133-189 | In a well-formed input, stop i is stored under its number, is pending, copies its descriptive fields, has order equal to its input parcel names, and stores every input parcel as the builder makes it. |
| `ReducerLaws.InitValid` | types/tournee-store.ts:174-189 | A well-formed input builds a consistent round: the order is a duplicate-free permutation of the keys, and every stop is consistent. |
| `ReducerLaws.MissingTargetIsNoOp` | types/tournee-store.ts:204-323 | Every stop or parcel action whose stop is missing, or whose parcel is missing, returns the state unchanged. |
| `ReducerLaws.PointActionLocality` | types/tournee-store.ts:204-251 | A stop action changes only its target stop. Its parcels and all other stops, the order, the round fields and the unloading stay the same. |
| `ReducerLaws.ColisActionLocality` | types/tournee-store.ts:253-323 | A parcel action changes only its target parcel. The other parcels of that stop, the stop's own fields, all other stops and the order stay the same. |
| `ReducerLaws.NonResetFrame` | types/tournee-store.ts:195-358 | No action other than RESET changes the id, the unloading record or the set of keys, and the order stays a permutation of what it was. |
| `ReducerLaws.TourneeLifecycleEffect` | types/tournee-store.ts:197-202 | START_TOURNEE and COMPLETE_TOURNEE change only the round's status and the matching timestamp. |
| `ReducerLaws.StartPointEffect` | types/tournee-store.ts:204-218 | START_POINT makes the stop started and stamps its start, whatever its previous status. It keeps the completion stamp, the photo and the failure reason. |
| `ReducerLaws.CompletePointEffect` | types/tournee-store.ts:220-236 | COMPLETE_POINT sets success or failed according to the result and stamps the completion. It overwrites the failure reason with the action's, even when that is absent. |
| `ReducerLaws.SetPointPhotoEffect` | types/tournee-store.ts:238-251 | SET_POINT_PHOTO sets the photo and nothing else. |
| `ReducerLaws.ResetPointEffect` | types/tournee-store.ts:325-339 | RESET_POINT makes the stop started and clears its completion. It keeps the start stamp, the failure reason and the photo. |
| `ReducerLaws.CollectColisEffect` | types/tournee-store.ts:253-276 | COLLECT_COLIS marks the parcel collected with the photo. A given analysis replaces the old one and an absent one keeps it. A refusal reason is not cleared. |
| `ReducerLaws.RefuseColisEffect` | types/tournee-store.ts:278-300 | REFUSE_COLIS marks the parcel refused with the reason and keeps its photo and analysis. |
| `ReducerLaws.SetColisAnalysisEffect` | types/tournee-store.ts:302-323 | SET_COLIS_ANALYSIS replaces the analysis only, whatever the parcel's status. |
| `ReducerLaws.ResetForgetsPriorState` | types/tournee-store.ts:360-361 | RESET gives the built round of its stop list, the same from any prior state. |
| `ReducerLaws.SwapPointsSpec` | types/tournee-store.ts:341-351 | SWAP_POINTS changes only the order. With either number absent nothing changes; otherwise the first occurrences are exchanged and every other position keeps its number. |
| `ReducerLaws.SwapPointsSelf` | types/tournee-store.ts:341-351 | Swapping a number with itself is the identity. |
| `ReducerLaws.SwapOrderPermutes` | types/tournee-store.ts:341-351 | The swapped order is a permutation of the original. |
| `ReducerLaws.SwapOrderTwice` | types/tournee-store.ts:341-351 | In a duplicate-free order, swapping the same two numbers twice restores the order. |
| `ReducerLaws.SwapPointsTwice` | types/tournee-store.ts:341-351 | Two identical SWAP_POINTS actions cancel out on a duplicate-free order. |
| `ReducerLaws.SwapTwiceWithRepeatedNumber` | types/tournee-store.ts:343-346 | Because `indexOf` finds the first occurrence, a repeated number breaks the cancellation: [1,1,2] becomes [1,2,1]. |
| `ReducerLaws.ReducePreservesValid` | types/tournee-store.ts:195-366 | Every action keeps a consistent round consistent (RESET when its stop list is well-formed): the order stays a duplicate-free permutation of the keys, and each stop's parcel order of its parcel keys. |
| `ReducerLaws.RunPreservesValid` | types/tournee-store.ts:195-366 | Any sequence of actions keeps a consistent round consistent. |
| `ReducerLaws.RunWithoutResetPermutesOrder` | types/tournee-store.ts:195-358 | A sequence of actions without RESET keeps the keys and the unloading, and permutes the order. |
| `TourneeSelectors.GetPoint` | lib/tournee-selectors.ts:13-15 | A stop is found exactly when its number is a key, and it is the stored stop. |
| `TourneeSelectors.GetColis` | lib/tournee-selectors.ts:18-24 | A parcel is found exactly when its stop and its name are keys, and it is the stored parcel. |
| `TourneeSelectors.RoundPercent` | lib/tournee-selectors.ts:38 | `Math.round(done / total * 100)`: the result lies in [0,100], and the exact percentage is within one half of it, halves rounded up. |
| `TourneeSelectors.DoneCount` | lib/tournee-selectors.ts:34-37 | The number of listed stops in success or failed never exceeds the number listed. |
| `TourneeSelectors.TourneeProgress` | lib/tournee-selectors.ts:31-39 | The round's progress lies in [0,100] and is 0 for an empty order. |
| `TourneeSelectors.HandledCount` | lib/tournee-selectors.ts:47-50 | The number of listed parcels collected or refused never exceeds the number listed. |
| `TourneeSelectors.PointProgress` | lib/tournee-selectors.ts:42-52 | A stop's progress lies in [0,100] and is 0 for a missing stop or one without parcels. |
| `TourneeSelectors.OrderedFrom` | lib/tournee-selectors.ts:59-63 | The ordered stops are never more than the ordered numbers. When every number is a key, they are exactly the stored stops, in the same order as the numbers. A stop is listed exactly when some ordered number names it. |
| `TourneeSelectors.OrderedPoints` | lib/tournee-selectors.ts:59-63 | The display list is never longer than the order. When every ordered number names a stop, it holds one stop per number, in that order. |
| `TourneeSelectors.ResultsMap` | lib/tournee-selectors.ts:73-83 | The results map has a key for exactly the stops in success or failed, with "success" for success and "fail" for failed; pending and started stops are absent. |
| `TourneeSelectors.GetResultsMap` | lib/tournee-selectors.ts:73-83 | The loop over the stop entries builds exactly that map. |
| `TourneeSelectors.AllPointsDone` | lib/tournee-selectors.ts:86-91 | When all ordered stops are done, every ordered number has an entry in the results map. |
| `TourneeSelectors.PointCollected` | lib/tournee-selectors.ts:126-135 | Every entry for a stop names, and carries, a collected parcel of that stop. Their order is stated by `SelectorLaws.PointCollectedConcat` and `SelectorLaws.PointCollectedOrdered`. |
| `TourneeSelectors.CollectedFrom` | lib/tournee-selectors.ts:123-136 | Every roster entry names a known stop and carries its stored parcel, which is collected. Their order is stated by `SelectorLaws.CollectedFromConcat` and `SelectorLaws.CollectedFromOrdered`. |
| `TourneeSelectors.AllCollected` | lib/tournee-selectors.ts:121-138 | Every entry of the roster names a known stop and carries its stored parcel, which is collected. |
| `TourneeSelectors.GetAllCollectedColis` | lib/tournee-selectors.ts:121-138 | The nested loop builds exactly the roster: stop order first, then parcel order. |
| `TourneeSelectors.ScanKey` | lib/tournee-selectors.ts:151 | The key is the number's template-literal text, then '-', then the parcel name. |
| `TourneeSelectors.ScannedCount` | lib/tournee-selectors.ts:141-143 | The count of scanned keys is 0 exactly when nothing has been scanned. |
| `TourneeSelectors.IsColisScanned` | lib/tournee-selectors.ts:146-153 | A parcel tests as scanned only when the scanned count is positive. |
| `TourneeSelectors.FindColisFromQR` | lib/tournee-selectors.ts:160-178 | The lookup finds something exactly when the payload has a colon, the text before the first colon is a number, and that stop holds a collected parcel named by all the text after the colon. What it finds is that collected parcel. |
| `SelectorLaws.RoundPercentAll` | lib/tournee-selectors.ts:38 | Everything done shows 100 %. |
| `SelectorLaws.RoundPercentNone` | lib/tournee-selectors.ts:38 | Nothing done shows 0 %. |
| `SelectorLaws.RoundPercentFullOnlyIfAll` | lib/tournee-selectors.ts:38 | With fewer than 200 items, 100 % is shown only when all items are done. |
| `SelectorLaws.RoundPercentFullWithOneOpen` | lib/tournee-selectors.ts:38 | With 200 items, 199 done already shows 100 %. |
| `SelectorLaws.RoundPercentMonotone` | lib/tournee-selectors.ts:38 | More done never shows a smaller percentage. |
| `SelectorLaws.DoneCountPermutation` | lib/tournee-selectors.ts:34-37 | The count of terminal stops depends only on which numbers are listed, not on their order. |
| `SelectorLaws.DoneCountFull` | lib/tournee-selectors.ts:34-37 | The count equals the number of listed stops exactly when every listed stop is terminal. |
| `SelectorLaws.AllDoneIffFullCount` | lib/tournee-selectors.ts:86-91 | The all-done test holds exactly when every ordered number counts as terminal. It is therefore true of an empty order and false when a number is dangling. |
| `SelectorLaws.AllDoneShowsFullProgress` | lib/tournee-selectors.ts:31-39 | A non-empty round whose stops are all done shows 100 %. |
| `SelectorLaws.FullProgressMeansAllDone` | lib/tournee-selectors.ts:31-39 | With fewer than 200 stops, 100 % means all stops are done. |
| `SelectorLaws.CompletePointProgressMonotone` | types/tournee-store.ts:220-236 | COMPLETE_POINT never lowers the round's progress. |
| `SelectorLaws.CompletePointResults` | types/tournee-store.ts:220-236 | After COMPLETE_POINT, the results map has the stop's entry set to the action's result, and no other entry changes. |
| `SelectorLaws.ReopenedPointLeavesResults` | types/tournee-store.ts:204-218 | START_POINT and RESET_POINT take the stop out of the results map and leave the other entries. |
| `SelectorLaws.SwapKeepsProgress` | types/tournee-store.ts:341-351 | SWAP_POINTS does not change the progress, the all-done test or the results map. |
| `SelectorLaws.OrderedPointsOfValid` | lib/tournee-selectors.ts:59-63 | In a consistent round, the ordered stops are one per ordered number, in that order. |
| `SelectorLaws.OrderedFromConcat` | lib/tournee-selectors.ts:59-63 | The stops of a concatenation of numbers are the stops of the first part followed by those of the second: `map` then `filter` keeps the order of the numbers and drops dangling ones in place. |
| `SelectorLaws.OrderedFromSwap` | lib/tournee-selectors.ts:59-63 | When every number names a stop, exchanging two numbers exchanges the same two entries of the stop list. |
| `SelectorLaws.SwapReordersDisplay` | types/tournee-store.ts:341-351 | In a consistent round, swapping two listed stops swaps the same two positions of the displayed list. |
| `SelectorLaws.HandledCountFull` | lib/tournee-selectors.ts:47-50 | The handled count equals the number of listed parcels exactly when every listed parcel is collected or refused. |
| `SelectorLaws.HandledCountConcat` | lib/tournee-selectors.ts:47-50 | The handled count of a concatenation of name lists is the sum of the two parts' counts, so the count does not depend on how the listed parcels are grouped. |
| `SelectorLaws.PointProgressFull` | lib/tournee-selectors.ts:42-52 | A stop whose parcels are all handled shows 100 %. With fewer than 200 parcels, 100 % means all are handled. |
| `SelectorLaws.HandleColisProgressMonotone` | types/tournee-store.ts:253-300 | COLLECT_COLIS and REFUSE_COLIS never lower their stop's progress. |
| `SelectorLaws.PointCollectedMembership` | lib/tournee-selectors.ts:126-135 | An entry is listed for a stop exactly when its name is in the parcel order and it carries that stop's collected parcel. |
| `SelectorLaws.CollectedFromMembership` | lib/tournee-selectors.ts:121-138 | An entry is on the roster exactly when its stop is in the order, its name is in that stop's parcel order, and it carries that stop's collected parcel. |
| `SelectorLaws.AllCollectedMembership` | lib/tournee-selectors.ts:121-138 | In a consistent round, the roster lists exactly the collected parcels. |
| `SelectorLaws.PointCollectedConcat` | lib/tournee-selectors.ts:129-135 | The entries for a concatenation of parcel names are those of the first names followed by those of the rest. |
| `SelectorLaws.CollectedFromConcat` | lib/tournee-selectors.ts:123-136 | The roster of a concatenation of stop numbers is the roster of the first numbers followed by that of the rest. |
| `SelectorLaws.PointCollectedOrdered` | lib/tournee-selectors.ts:129-135 | Over a duplicate-free parcel order, a stop's entries come in strictly increasing position of their names. |
| `SelectorLaws.CollectedFromOrdered` | lib/tournee-selectors.ts:123-136 | Over a duplicate-free stop order and parcel orders, each roster entry comes strictly before every later one: an earlier stop first, and within one stop an earlier parcel. |
| `SelectorLaws.AllCollectedOrdered` | lib/tournee-selectors.ts:121-138 | In a consistent round the roster is in stop order, then parcel order, with no entry twice. With `AllCollectedMembership` this fixes the roster exactly. |
| `SelectorLaws.NothingCollectedFrom` | lib/tournee-selectors.ts:121-138 | Without any collected parcel, the roster is empty. |
| `SelectorLaws.CollectThenListed` | types/tournee-store.ts:253-276 | After COLLECT_COLIS on a consistent round, the roster lists the parcel. |
| `SelectorLaws.RefuseThenUnlisted` | types/tournee-store.ts:278-300 | After REFUSE_COLIS, the roster has no entry for the parcel. |
| `SelectorLaws.QrRoundTrip` | lib/tournee-selectors.ts:160-178 | The payload "{numero}:{name}" finds the parcel exactly when it is collected, even when the name holds colons. |
| `SelectorLaws.QrFoundByCanonicalCode` | lib/tournee-selectors.ts:160-178 | Whatever payload found a parcel, that parcel's own payload finds the same entry. |
| `SelectorLaws.QrWithoutColon` | lib/tournee-selectors.ts:165-166 | A payload without a colon finds nothing. |
| `SelectorLaws.QrNonNumeric` | lib/tournee-selectors.ts:169-170 | A payload whose stop part is not a number ("abc:X") finds nothing. |
| `SelectorLaws.CollectThenFoundByQr` | types/tournee-store.ts:253-276 | After COLLECT_COLIS, the parcel's payload finds it. |
| `SelectorLaws.RefuseThenNotFoundByQr` | types/tournee-store.ts:278-300 | After REFUSE_COLIS, the parcel's payload finds nothing. |
| `SelectorLaws.ScanKeyInjective` | lib/tournee-selectors.ts:151 | Distinct (stop, parcel) pairs have distinct scan keys "{numero}-{name}", even for negative numbers and names holding '-'. |
| `SelectorLaws.ScannedCountBound` | lib/tournee-selectors.ts:141-153 | The scanned count is at least the number of distinct parcels that test as scanned. |
| `SelectorLaws.NonResetKeepsScans` | lib/tournee-selectors.ts:141-153 | No action other than RESET changes the scanned count or which parcels test as scanned. |
| `SelectorLaws.InitShowsNothing` | types/tournee-store.ts:174-189 | The built round shows progress 0, an empty results map, an empty roster and no scan. |
| `SelectorLaws.ResetClearsViews` | types/tournee-store.ts:360-361 | After RESET, progress is 0, the results map and the roster are empty, and no parcel is scanned. |
| `SeqUtil.IndexOf` | types/tournee-store.ts:343-344 | `indexOf` gives -1 exactly when the value is absent. Otherwise it gives the first position holding the value. |
| `SeqUtil.SwapAt` | types/tournee-store.ts:346 | Exchanging two cells keeps the length and the multiset, swaps the two values and leaves every other cell as it was. |
| `SeqUtil.SwapAtTwice` | types/tournee-store.ts:346 | Exchanging the same two cells twice restores the sequence. |
| `JsNumbers.IntString` | lib/tournee-selectors.ts:151 | The text of an integer is non-empty and starts with '-' exactly when the integer is negative. After that sign come decimal digits without a leading zero (except "0" itself), and their value is the integer's magnitude. |
| `JsNumbers.ParseNumber` | lib/tournee-selectors.ts:169 | After trimming, blank text reads as 0 and non-empty digits read as their decimal value, leading zeros included. A '+' or '-' followed by digits reads as that value or its negation. Conversely, a result comes only from blank text, digits, or a sign followed by digits, so every other text reads as None. A negative result comes only from text starting with '-'. |
| `JsNumbers.ParseIntStringRoundTrip` | lib/tournee-selectors.ts:151-169 | `Number` reads back the integer from its template-literal text. |
| `JsNumbers.NatString` | lib/tournee-selectors.ts:151 | The decimal digits of a natural number are non-empty and all digits, equal "0" exactly for 0, and otherwise do not start with '0'. |
| `JsNumbers.NatStringRoundTrip` | lib/tournee-selectors.ts:151 | Reading back the decimal digits of a natural number gives that number. |
| `JsNumbers.LeadingZeroValue` | lib/tournee-selectors.ts:169 | A leading zero does not change the value of a digit text, so "007" reads as 7. |
| `JsNumbers.PlusNatStringRoundTrip` | lib/tournee-selectors.ts:169 | A '+' in front of a natural number's digits reads as that number. |
| `JsNumbers.MinusNatStringRoundTrip` | lib/tournee-selectors.ts:169 | A '-' in front of a natural number's digits reads as its negation. |
| `JsNumbers.NonNumericStartIsNone` | lib/tournee-selectors.ts:169-170 | A text starting with a character that is neither blank, nor a sign, nor a digit gives None from `ParseNumber`, whatever follows it, trailing white space included. Forms `Number` accepts beyond decimal integers are listed under Left out. |
| `JsNumbers.InnerJunkIsNone` | lib/tournee-selectors.ts:169-170 | "1x2", "--1", "+-3" and "1 2" read as None, as `Number` gives NaN for each. |
| `JsNumbers.TrimStartSuffix` | lib/tournee-selectors.ts:169 | Trimming the front keeps a suffix of the text and removes only white space. |
| `JsNumbers.TrimEndPrefix` | lib/tournee-selectors.ts:169 | Trimming the back keeps a prefix of the text and removes only white space. |
| `Gemini.LastSegment` | lib/gemini.ts:45 | `split(".").pop()` is the suffix after the last dot, or the whole text when there is no dot, and contains no dot. |
| `Gemini.Extension` | lib/gemini.ts:45 | The extension is no longer than the URI and contains neither a dot nor an upper-case ASCII letter. |
| `Gemini.GetMimeType` | lib/gemini.ts:44-50 | The MIME type is always one of image/png, image/webp, image/gif and image/jpeg. |
| `Gemini.MimeTypeByExtension` | lib/gemini.ts:44-50 | png, webp and gif each select their own type exactly when the lower-cased extension is that word. Every other extension selects JPEG. |
| `Gemini.ExtensionOfSuffix` | lib/gemini.ts:45 | The extension of "prefix.ext" is "ext" lower-cased, when "ext" has no dot. |
| `Gemini.ToLowerIdempotent` | lib/gemini.ts:45 | Lower-casing twice is lower-casing once. |
| `Gemini.LastSegmentToLower` | lib/gemini.ts:45 | Taking the last segment and lower-casing commute. |
| `Gemini.MimeTypeIgnoresCase` | lib/gemini.ts:45 | URIs that agree once lower-cased get the same MIME type. |
| `Gemini.UpperCaseExtensionExample` | lib/gemini.ts:45-46 | "file:///tmp/photo.PNG" gets image/png. |
| `Gemini.NoDotExample` | lib/gemini.ts:45-46 | A URI without a dot whose whole text is "png" gets image/png. |
| `Gemini.QueryStringExample` | lib/gemini.ts:45-49 | "photo.png?size=2" gets image/jpeg, since its extension is "png?size=2". |
| `Gemini.ClampScore` | lib/gemini.ts:225-232 | A clamped score lies in [1,10]. It is the identity on [1,10], gives 1 below and 10 above. |
| `Gemini.ClampScores` | lib/gemini.ts:224-232 | Each score becomes the clamp of the parsed score, so both end up in range. Nothing else changes, and a reply already in range is unchanged. |
| `Gemini.ClampScoresIdempotent` | lib/gemini.ts:224-232 | Clamping twice is clamping once. |
| `Gemini.Fallback` | lib/gemini.ts:235-246 | The fallback has both scores 5. Its description is the prefix of the raw reply of exactly min(length, 200) characters, so all of it when the reply is short. Its tips are the raw reply. |
| `Gemini.AnalyzeObjectResult` | lib/gemini.ts:213-247 | Either path of the analysis gives scores in [1,10]. A parsed reply keeps everything but its scores, and each score is the clamp of the parsed one. An unparsable reply gives the fallback. |
| `Gemini.AnalyzeObject` | lib/gemini.ts:216-246 | Writing back the two clamped scores one after the other, or returning the fallback, gives exactly that result. |

## Left out

- Screens, navigation, the React context that wraps dispatch, the particle animation and the map view. They hold rendering and callbacks, not state logic.
- Unloading transitions (unlocking, starting, scanning, completing) and any destination rule. The reducer in `types/tournee-store.ts` has no such actions, so the unloading record changes only by RESET here.
- Network and file access of the AI wrapper: the client, chat, image upload, reading a file as base64, and the JSON parsing of the reply. The analysis takes the parse outcome as a parameter (`Option<ObjectAnalysis>`) and the raw reply as text.
- Timestamps: `new Date().toISOString()` is the parameter `now` of `Reduce`; the clock is not modelled.
- `getTourneeSummary` and `getDechargement` return the state or one of its fields unchanged, so they need no model.
- Lookups treat a key as present only when the record holds it. In JavaScript a name such as "toString" also passes the `!colis` test through the object prototype.
- FindColisFromQR: the number before the colon is read by `ParseNumber`, which accepts white space, an empty text (as 0), and an optional sign followed by decimal digits. `Number` in JavaScript also accepts exponents ("1e0"), hexadecimal ("0x1"), binary ("0b1"), octal ("0o7"), decimal points and "Infinity". With those texts the source may find a stop that the model does not.
- ClampScore: scores are integers. `Math.round` of a non-integral score and a NaN score, which escapes the bound in JavaScript, are floating-point behaviour.
- Fallback: the 200-character cut counts Unicode characters, whereas `slice` counts UTF-16 code units. The two differ only for characters outside the Basic Multilingual Plane.
- GetMimeType: lower-casing covers ASCII letters only. Outside ASCII, two characters lower-case to text containing an ASCII letter. The Kelvin sign (U+212A) becomes 'k', and no extension compared against contains a 'k'. The dotted capital I (U+0130) becomes "i" followed by U+0307, and that leftover non-ASCII character keeps the result from being "png", "webp" or "gif". So no non-ASCII input selects another type than the model does.
- GetResultsMap: the source visits `Object.entries`, which turns keys into strings, and reads them back with `Number(key)`. The model iterates over the integer keys directly. `ParseIntStringRoundTrip` shows that the read-back returns the original number.
- IntString: `numero` is a JavaScript `number` (a double), modelled as an unbounded `int`. `IntString` is the template-literal text only for magnitudes below 10^21; from there on JavaScript writes exponent notation ("1e+21"). Integers beyond 2^53 are not exact doubles. Neither behaviour is modelled.
- Progress: `done / total * 100` in floating point followed by `Math.round` is modelled as exact rational rounding, halves upwards. Floating-point error at an exact half is not modelled.
