# kirokuma core in Dafny

kirokuma is a LINE bot. A user sends a photo of a meal; the bot analyses it,
grows a bear character out of the user's recent eating, and can turn the
bears of one "timeline" (a bear group) into a video. This project models the
deterministic core of that system and proves properties of the model:

- **Similarity and trends** (`EmbeddingService`, `TrendAnalyzer`):
  - cosine similarity of dish embeddings, as a loop proved against its
    definition, with symmetry, range and zero cases proved;
  - the pair-counting trend strength and the average embedding;
  - the alignment filter of `analyzeTrends`;
  - the fallbacks of the text-trend analysis.
- **Timelines and the store** (`Firestore`, `BearGroupRepository`,
  `MealRepository`, `BearRepository`):
  - one `Db` class holding the `bear_groups`, `bears` and `meals`
    collections as sequences in insertion order, with a counter for
    document ids and the time of the latest write;
  - the group lifecycle (create, end, get-or-create, reincarnate) as methods
    that change the table;
  - the queries as functions of the table, with their filter, order and limit.
- **Use cases** (`CreateBear`, `GenerateVideo`):
  - the order of `createBear`'s steps, written as methods over the store;
  - the guards and ordering of `getBearsForVideo`;
  - the result and error mapping of both use cases.
- **Aggregation and prompts** (`NumericRecord`, `BearCalculator`,
  `RoomStylePrompt`, `BearImagePrompt`):
  - `Record<string, number>` as an association list in insertion order;
  - the accumulate-and-normalise fold and the weighted ingredient influence;
  - the data-carrying parts of both prompts.
- **Storage links** (`Storage`, `VeoVideoGenerator`, `PythonVideoGenerator`,
  `PythonVideo`, backed by `Strings`, `Urls` and `PercentEncoding`):
  - the URLs each uploader writes, and the parsers that read them back,
    with round trips between the two;
  - `gs://` parsing;
  - the image guards, order and duration of the three video generators.
- **The bear Flex message** (`LineMessage`): the cap of ten bubbles, a
  single bubble or a carousel, and the share link of each image.

Calls into Gemini and Vertex AI, Storage reads and writes, moviepy rendering,
random ids and clocks are parameters: a function giving each call's outcome,
which may be an error, or a value such as `now`.

`download_image_from_storage` in `functions/python-video/video_generator.py`
takes `parts[1]` of a split at `/o/`: the text between the first `/o/` and
the next one (`PythonVideo.ImageSourceOf`).

## Model

| member | source | states |
|---|---|---|
| EmbeddingService.CosineSimilarity | functions/line-webhook/src/services/embeddingService.ts:35-50 | the accumulating loop computes the cosine similarity; vectors of different length or empty ones give 0 |
| EmbeddingService.NormProductZero | functions/line-webhook/src/services/embeddingService.ts:48-49 | under a true square root the norm product is 0 exactly when one of the vectors is all zeros |
| EmbeddingService.CosineOfZero | functions/line-webhook/src/services/embeddingService.ts:48-49 | the similarity with an all-zero vector is 0 |
| EmbeddingService.CosineSymmetric | functions/line-webhook/src/services/embeddingService.ts:38-49 | cosine similarity is symmetric in its two vectors |
| EmbeddingService.CosineSelf | functions/line-webhook/src/services/embeddingService.ts:35-50 | a non-zero vector has similarity 1 with itself |
| EmbeddingService.CauchySchwarz | functions/line-webhook/src/services/embeddingService.ts:38-46 | the squared dot product is at most the product of the squared norms |
| EmbeddingService.CosineRange | functions/line-webhook/src/services/embeddingService.ts:35-50 | cosine similarity lies between -1 and 1 |
| EmbeddingService.ClassifyMonotone | functions/line-webhook/src/services/embeddingService.ts:78-84 | a higher ratio of similar pairs never gives a lower strength |
| EmbeddingService.AllPairs | functions/line-webhook/src/services/embeddingService.ts:64-76 | the nested loop visits n(n-1)/2 pairs |
| EmbeddingService.DetectTrendStrength | functions/line-webhook/src/services/embeddingService.ts:58-85 | the pair loop returns weak below two embeddings, else the classified ratio of pairs at or above the threshold |
| EmbeddingService.HighPairsBound | functions/line-webhook/src/services/embeddingService.ts:64-76 | there are never more high-similarity pairs than pairs |
| EmbeddingService.TrendMonotone | functions/line-webhook/src/services/embeddingService.ts:64-84 | raising similarities or lowering the threshold never lowers the strength |
| EmbeddingService.AllHighIsStrong | functions/line-webhook/src/services/embeddingService.ts:64-84 | when every pair is highly similar the trend is strong |
| EmbeddingService.SameDishIsStrong | functions/line-webhook/src/services/embeddingService.ts:58-85 | copies of one non-zero embedding form a strong trend under cosine similarity |
| EmbeddingService.NoHighIsWeak | functions/line-webhook/src/services/embeddingService.ts:64-84 | when no pair is highly similar the trend is weak |
| EmbeddingService.AverageEmbedding | functions/line-webhook/src/services/embeddingService.ts:90-107 | `[]` for no embeddings; otherwise the first embedding's length, each component the column sum divided by the count |
| EmbeddingService.AverageOfCopies | functions/line-webhook/src/services/embeddingService.ts:96-104 | the average of copies of one vector is that vector |
| TrendAnalyzer.KeptIndicesExact | functions/line-webhook/src/services/trendAnalyzer.ts:83-88 | the kept indices are exactly those with an embedding, increasing |
| TrendAnalyzer.DishesAligned | functions/line-webhook/src/services/trendAnalyzer.ts:83-88 | each kept dish is its meal's dish with the embedding stored at that meal's own index, in the original order |
| TrendAnalyzer.DroppedOnlyWithoutEmbedding | functions/line-webhook/src/services/trendAnalyzer.ts:83-90 | no more dishes than meals reach the clustering, and with every embedding present none is dropped |
| TrendAnalyzer.AnalyzeTextTrends | functions/line-webhook/src/services/trendAnalyzer.ts:18-71 | the text trends of a meal history; no contract of its own, specified by `EmptyHistory`, `TrendsNeverEmpty`, `QueryAppend` and `QueryMembers` |
| TrendAnalyzer.EmptyHistory | functions/line-webhook/src/services/trendAnalyzer.ts:19-21 | with no meals both trends are "なし", whatever the model would answer |
| TrendAnalyzer.TrendsNeverEmpty | functions/line-webhook/src/services/trendAnalyzer.ts:61-70 | with meals, each trend comes back non-empty: the model's answer when it gives one, "特になし" otherwise |
| TrendAnalyzer.QueryAppend | functions/line-webhook/src/services/trendAnalyzer.ts:24-25 | a further meal appends its tags and ingredients at the end of the query |
| TrendAnalyzer.QueryMembers | functions/line-webhook/src/services/trendAnalyzer.ts:24-25 | a tag or ingredient is in the query exactly when some meal carries it |
| TrendAnalyzer.AnalyzeTrends | functions/line-webhook/src/services/trendAnalyzer.ts:78-99 | the text trends are those of all meals |
| TrendAnalyzer.AnalyzeTrendsClustersKept | functions/line-webhook/src/services/trendAnalyzer.ts:83-90 | the clustering sees exactly the aligned dishes with an embedding, never more than the meals |
| Firestore.Db.constructor | functions/line-webhook/src/services/bearRepository.ts:10-11 | an empty, well-formed store |
| Firestore.Db.NewId | functions/line-webhook/src/services/bearGroupRepository.ts:49-56 | a fresh document id; the tables are unchanged |
| Firestore.Db.AddGroup | functions/line-webhook/src/services/bearGroupRepository.ts:49-53 | one active group with a fresh id is appended; nothing else changes |
| Firestore.Db.AddBear | functions/line-webhook/src/services/bearRepository.ts:159-164 | one bear with a fresh id is appended; nothing else changes |
| Firestore.Db.AddMeal | functions/line-webhook/src/services/mealRepository.ts:36 | one meal with a fresh id is appended; nothing else changes |
| BearGroupRepository.GetActiveGroup | functions/line-webhook/src/services/bearGroupRepository.ts:10-28 | None exactly when the user has no group without `endedAt`; otherwise such a group of that user |
| BearGroupRepository.EndedTable | functions/line-webhook/src/services/bearGroupRepository.ts:65-71 | only groups with the id get `endedAt`; every other group is unchanged |
| BearGroupRepository.EndedTableKeepsTable | functions/line-webhook/src/services/bearGroupRepository.ts:65-71 | ending a group keeps the table well formed |
| BearGroupRepository.ActiveGroupAppend | functions/line-webhook/src/services/bearGroupRepository.ts:10-28 | an active group once found stays the one found after an append; with none, the appended group is found if it is active |
| BearGroupRepository.EndOnlyActive | functions/line-webhook/src/services/bearGroupRepository.ts:76-84 | ending the user's only active group leaves the user with none |
| BearGroupRepository.OnlyNewActive | functions/line-webhook/src/services/bearGroupRepository.ts:46-59 | appending an active group where the user has none gives exactly one active group, the new one |
| BearGroupRepository.CreateGroup | functions/line-webhook/src/services/bearGroupRepository.ts:46-60 | exactly one new active group of the user, with a fresh id, is appended; nothing else changes |
| BearGroupRepository.EndGroup | functions/line-webhook/src/services/bearGroupRepository.ts:65-71 | sets `endedAt` on the group with the id only; fails and changes nothing when no such document exists |
| BearGroupRepository.GetOrCreateActiveGroup | functions/line-webhook/src/services/bearGroupRepository.ts:34-41 | returns the active group and writes nothing when there is one, otherwise creates one; afterwards the returned group is the user's active group |
| BearGroupRepository.Reincarnate | functions/line-webhook/src/services/bearGroupRepository.ts:76-84 | ends the active group, if any, then creates a fresh one; with at most one active group before, the new one is the only one after |
| MealRepository.StoredImageUrl | functions/line-webhook/src/services/mealRepository.ts:32-34 | an image URL is stored only when it is given and non-empty |
| MealRepository.SaveMeal | functions/line-webhook/src/services/mealRepository.ts:11-48 | a failed dish embedding writes nothing; otherwise exactly one meal with the arguments and the dish's embedding is appended |
| MealRepository.FilterRecent | functions/line-webhook/src/services/mealRepository.ts:62-65 | exactly the user's meals of that group created at or after the start |
| MealRepository.FilterRecentChronological | functions/line-webhook/src/services/mealRepository.ts:62-66 | the filter keeps table order |
| MealRepository.GetRecentMeals | functions/line-webhook/src/services/mealRepository.ts:53-82 | exactly the user's meals of that group from the last `days` days, newest first |
| MealRepository.GetMealCount | functions/line-webhook/src/services/mealRepository.ts:87-95 | 0 exactly when the group has no meal of the user |
| MealRepository.MealCountAppend | functions/line-webhook/src/services/mealRepository.ts:87-94 | saving a meal raises its own group's count by one and no other |
| MealRepository.FilterRecentAtMostCount | functions/line-webhook/src/services/mealRepository.ts:62-65 | the filtered meals are never more than the group's count |
| MealRepository.RecentAtMostCount | functions/line-webhook/src/services/mealRepository.ts:53-94 | the recent meals are never more than the meal count |
| MealRepository.OtherGroupUnaffected | functions/line-webhook/src/services/mealRepository.ts:62-64 | a meal saved elsewhere never shows up in a group's history |
| BearRepository.GetLatestBear | functions/line-webhook/src/services/bearRepository.ts:16-48 | None exactly when no bear matches; otherwise a matching bear at least as new as every other |
| BearRepository.LatestInScope | functions/line-webhook/src/services/bearRepository.ts:20-31 | with a group given, the bear is of that user and group, and some bear would be found without the group |
| BearRepository.GroupBears | functions/line-webhook/src/services/bearRepository.ts:58-60 | exactly the bears of that user and group |
| BearRepository.GroupBearsChronological | functions/line-webhook/src/services/bearRepository.ts:58-61 | the filter keeps table order |
| BearRepository.NewestFirst | functions/line-webhook/src/services/bearRepository.ts:58-61 | the group's bears, newest first |
| BearRepository.GetRecentBears | functions/line-webhook/src/services/bearRepository.ts:53-75 | at most `limit` bears of the group, newest first, and fewer only when there are no more |
| BearRepository.RecentAreNewest | functions/line-webhook/src/services/bearRepository.ts:58-63 | no bear left out by the limit is newer than one returned |
| BearRepository.LastMealFor | functions/line-webhook/src/services/bearRepository.ts:125-138 | the map keeps a meal naming the bear, None exactly when none does |
| BearRepository.MealsOfBears | functions/line-webhook/src/services/bearRepository.ts:121-123 | the `in` query returns only meals of the given bears |
| BearRepository.LastMealOfBears | functions/line-webhook/src/services/bearRepository.ts:119-143 | restricting the meals to the fetched bears changes no fetched bear's meal |
| BearRepository.GetRecentBearsWithMeals | functions/line-webhook/src/services/bearRepository.ts:88-145 | at most min(limit, 30) entries, the newest bears in order and unchanged, each with a meal naming it or None when no meal does |
| BearRepository.SaveBear | functions/line-webhook/src/services/bearRepository.ts:150-173 | one bear of the user in the user's active group is appended, a group being created first when none is active |
| CreateBear.Analyses | functions/line-webhook/src/usecases/createBear.ts:65 | one analysis per recent meal, in order |
| CreateBear.Embeddings | functions/line-webhook/src/usecases/createBear.ts:69 | one stored embedding per recent meal, in order |
| CreateBear.TrendInputAligned | functions/line-webhook/src/usecases/createBear.ts:65-70 | the trend analysis pairs every recent meal's analysis with that meal's own embedding |
| CreateBear.ActiveGroupFor | functions/line-webhook/src/usecases/createBear.ts:55-60 | the user's active group, or the one reincarnation creates when there is none |
| CreateBear.SaveBearThenMeal | functions/line-webhook/src/usecases/createBear.ts:96-102 | the bear is saved in the group, then the meal naming it; a failed embedding leaves the bear without its meal |
| CreateBear.RenderAndUpload | functions/line-webhook/src/usecases/createBear.ts:73-94 | succeeds exactly when the previous bear's image (if any) is read, the bear is generated from the given meals, that image and the trends, the decoded photo is uploaded to `meals/<user>/<timestamp>.jpg` and the bear to `bears/<timestamp>.png`; then returns their public URLs, else the first failing step's message |
| CreateBear.RenderAndSave | functions/line-webhook/src/usecases/createBear.ts:81-127 | a render or upload failure is `unknown` with its message and saves nothing; a failed meal embedding is `unknown` with its message and leaves only the bear saved; otherwise exactly one bear and then one meal naming it are saved |
| CreateBear.CreateInGroup | functions/line-webhook/src/usecases/createBear.ts:62-127 | the bear is generated from the week's meals of the group plus the new one, the trends of those meals and the group's previous bear; each failure is `unknown` with the failing step's message and the tables as it leaves them; on success one bear then one meal naming it are saved, and `isFirstTime` says the group had no meal |
| CreateBear.CreateBear | functions/line-webhook/src/usecases/createBear.ts:45-129 | not-food maps to `not_food` and changes nothing; an analysis error maps to `unknown` and changes nothing; in the active (or reincarnated) group, rendering from that group's history, the failure messages and tables of each later step, and success saving exactly one bear and one meal |
| GenerateVideo.ImageUrls | functions/line-webhook/src/usecases/generateVideo.ts:71 | one image URL per bear, in order |
| GenerateVideo.GetBearsForVideo | functions/line-webhook/src/usecases/generateVideo.ts:46-75 | `no_group` exactly when no group is active; `not_enough_bears` below two bears; otherwise the active group with its newest at most 30 bears, oldest first |
| GenerateVideo.GenerateVideo | functions/line-webhook/src/usecases/generateVideo.ts:82-119 | a failed render becomes `generation_failed` with its message; otherwise its URLs |
| NumericRecord.Add | functions/src/services/bearCalculator.ts:44 | adding to a present key keeps the length, and a new key adds one entry |
| NumericRecord.AddGet | functions/src/services/bearCalculator.ts:44 | `acc[key] = (acc[key] \|\| 0) + value` raises that key by the value and no other key |
| NumericRecord.AddKeys | functions/src/services/bearCalculator.ts:44 | the keys after an add are the old keys and the added one |
| NumericRecord.AddUnique | functions/src/services/bearCalculator.ts:44 | an add never duplicates a key |
| NumericRecord.AccumulateAllGet | functions/src/services/bearCalculator.ts:41-47 | each accumulated value is the sum of that key over all records, and keys stay unique |
| NumericRecord.AccumulateAllKeys | functions/src/services/bearCalculator.ts:41-47 | a key is accumulated exactly when some record has it |
| NumericRecord.Round | functions/src/services/bearCalculator.ts:56 | `Math.round` gives the integer nearest, halves rounded up |
| NumericRecord.SortDesc | functions/src/services/bearCalculator.ts:57 | the sort is non-increasing in value and a permutation of its input |
| NumericRecord.PermutationUniqueBy | functions/src/prompts/roomStylePrompt.ts:45-51 | reordering a list of distinct names keeps them distinct |
| BearCalculator.Percentages | functions/src/services/bearCalculator.ts:55-56 | every entry keeps its key with its rounded percentage of the total |
| BearCalculator.Normalized | functions/src/services/bearCalculator.ts:49-60 | `{}` when the total is 0; otherwise `min(topN, entries)` entries, non-increasing, each an accumulated key's percentage |
| BearCalculator.NormalizedValues | functions/src/services/bearCalculator.ts:55-60 | every kept entry is an accumulated key with `Math.round(value / total * 100)`, no key twice |
| BearCalculator.NormalizedKeepsLargest | functions/src/services/bearCalculator.ts:55-58 | no entry left out is larger than one kept |
| BearCalculator.NormalizedSubMultiset | functions/src/services/bearCalculator.ts:55-58 | the kept entries are drawn from the percentages, none more often than it occurs there |
| BearCalculator.Accumulate | functions/src/services/bearCalculator.ts:41-47 | the nested loop builds the accumulated record |
| BearCalculator.AccumulateAndNormalize | functions/src/services/bearCalculator.ts:36-61 | the top `topN` percentages of the accumulated record |
| BearCalculator.AccumulatedIsSum | functions/src/services/bearCalculator.ts:41-47 | each key's value is its sum over all meals, and only their keys appear |
| BearCalculator.ConcatLength | functions/src/services/bearCalculator.ts:67-75 | the concatenation's length is the sum of the lengths, duplicates kept |
| BearCalculator.AccumulateCharacteristics | functions/src/services/bearCalculator.ts:67-75 | the push loop gives the in-order concatenation |
| BearCalculator.Colors | functions/src/services/bearCalculator.ts:18 | one colours record per meal, in order |
| BearCalculator.Nutrition | functions/src/services/bearCalculator.ts:22 | one nutrition record per meal, in order |
| BearCalculator.Characteristics | functions/src/services/bearCalculator.ts:26 | one characteristics list per meal, in order |
| BearCalculator.CalculateBearParameters | functions/src/services/bearCalculator.ts:9-29 | the initial parameters for no meals; otherwise the top-5 colours and nutrition and every characteristic |
| RoomStylePrompt.DishScore | functions/src/prompts/roomStylePrompt.ts:35-37 | a dish's score is positive, between 0.15 and 2.25 |
| RoomStylePrompt.IngredientEntries | functions/src/prompts/roomStylePrompt.ts:39-41 | each ingredient of the dish receives the dish's score |
| RoomStylePrompt.SumForMeals | functions/src/prompts/roomStylePrompt.ts:33-43 | the summed entries of an ingredient equal its weighted count |
| RoomStylePrompt.Scores | functions/src/prompts/roomStylePrompt.ts:31-44 | the accumulated ingredient scores; no contract of its own, specified by `ScoreIsWeight` and `ScoresKeys` |
| RoomStylePrompt.ScoreIsWeight | functions/src/prompts/roomStylePrompt.ts:33-43 | every accumulated score is the sum of category × portion weights over the dishes listing it |
| RoomStylePrompt.ScoresKeys | functions/src/prompts/roomStylePrompt.ts:31-45 | the record has a key exactly for the listed ingredients, each once |
| RoomStylePrompt.OneDecimal | functions/src/prompts/roomStylePrompt.ts:48 | the rounded score is within 0.05 of the score |
| RoomStylePrompt.CalculateInfluence | functions/src/prompts/roomStylePrompt.ts:30-52 | the triple loop and sort give the influence list, non-increasing in rounded score |
| RoomStylePrompt.InfluenceList | functions/src/prompts/roomStylePrompt.ts:45-51 | the rounded, sorted influences; no contract of its own, specified by `CalculateInfluence`, `InfluencesUnique`, `InfluenceScore`, `InfluenceComplete` and `NoInfluences` |
| RoomStylePrompt.InfluencesUnique | functions/src/prompts/roomStylePrompt.ts:45-51 | no ingredient appears twice among the influences |
| RoomStylePrompt.InfluenceScore | functions/src/prompts/roomStylePrompt.ts:45-50 | each influence is a listed ingredient with its weighted count rounded to one decimal, dominant exactly when the unrounded count reaches 5.0 |
| RoomStylePrompt.InfluenceComplete | functions/src/prompts/roomStylePrompt.ts:45-50 | every listed ingredient has an influence |
| RoomStylePrompt.NoInfluences | functions/src/prompts/roomStylePrompt.ts:45-51 | the list is empty exactly when no dish lists an ingredient |
| RoomStylePrompt.Dominant | functions/src/prompts/roomStylePrompt.ts:74 | the filter is no longer than the list |
| RoomStylePrompt.DominantMembers | functions/src/prompts/roomStylePrompt.ts:74 | exactly the dominant influences are kept |
| RoomStylePrompt.TopAreHighest | functions/src/prompts/roomStylePrompt.ts:73 | at most ten influences are shown, and none left out scores higher than one shown |
| RoomStylePrompt.BuildRoomStylePrompt | functions/src/prompts/roomStylePrompt.ts:70-89 | the sections come from the influence list; no meals give "No meals yet", "None", "None" |
| RoomStylePrompt.FormatMealHistory | functions/src/prompts/roomStylePrompt.ts:57-64 | one `- dishes` line per meal; no contract of its own, `SectionDefaults` states when it is empty |
| RoomStylePrompt.Sections | functions/src/prompts/roomStylePrompt.ts:72-89 | the three data sections of the prompt; no contract of its own, specified by `BuildRoomStylePrompt` and `SectionDefaults` |
| RoomStylePrompt.SectionDefaults | functions/src/prompts/roomStylePrompt.ts:83-89 | "No meals yet" exactly without meals, the top section "None" exactly without ingredients, and the dominant one "None" when nothing is dominant |
| BearImagePrompt.Items | functions/src/prompts/bearImagePrompt.ts:82 | one item per entry |
| BearImagePrompt.FormatRecord | functions/src/prompts/bearImagePrompt.ts:79-85 | "none" exactly for an empty record |
| BearImagePrompt.FormatRecordItems | functions/src/prompts/bearImagePrompt.ts:80-84 | a non-empty record renders as one item per entry joined by ", ", in an order of the entries non-increasing in value |
| BearImagePrompt.AccumulatedCharacteristics | functions/src/prompts/bearImagePrompt.ts:19 | "なし" for no characteristics, otherwise their join with repetitions kept |
| BearImagePrompt.BuildBearPrompt | functions/src/prompts/bearImagePrompt.ts:8-74 | the data lines joined by newlines; no contract of its own, its content is what `PromptNamesMenu` and `PromptCarriesData` state |
| BearImagePrompt.PromptNamesMenu | functions/src/prompts/bearImagePrompt.ts:37 | the prompt names today's menu |
| BearImagePrompt.PromptCarriesData | functions/src/prompts/bearImagePrompt.ts:13-41 | the prompt carries the accumulated colours, nutrition and characteristics and today's ingredients, characteristics, colours and nutrition, each on its labelled line |
| Seqs.Reverse | functions/line-webhook/src/usecases/generateVideo.ts:70 | the reversal puts element i at the mirrored index |
| Seqs.ReverseReverse | functions/line-webhook/src/usecases/generateVideo.ts:70 | reversing twice gives the sequence back |
| Seqs.Take | functions/line-webhook/src/services/lineMessage.ts:17 | the first n elements, or all of them when there are fewer |
| Seqs.TakeSubMultiset | functions/src/services/bearCalculator.ts:58 | a prefix holds no element more often than the sequence does |
| Seqs.FlatMapMembers | functions/line-webhook/src/services/trendAnalyzer.ts:24-25 | an element of a `flatMap` comes from some part, and every part's elements are in it |
| Storage.PublicUrl | functions/line-webhook/src/services/storage.ts:30 | the URL is the bucket prefix followed by the path |
| Storage.StoragePathOf | functions/line-webhook/src/services/storage.ts:38-42 | accepted exactly when the prefix is there, giving the rest; otherwise the "Invalid storage URL" error |
| Storage.PathRoundTrip | functions/line-webhook/src/services/storage.ts:30-42 | reading an uploaded object's URL gives its path |
| Storage.UrlRoundTrip | functions/line-webhook/src/services/storage.ts:30-42 | every accepted URL is the public URL of the path it yields |
| Storage.DownloadImageAsBase64 | functions/line-webhook/src/services/storage.ts:36-47 | the prefix check, then the read of the extracted path |
| Storage.DownloadUploaded | functions/line-webhook/src/services/storage.ts:36-47 | downloading what was uploaded at a path reads exactly that path |
| PercentEncoding.HexValue | functions/line-webhook/src/services/veoVideoGenerator.ts:101 | a hexadecimal digit's value is below 16 |
| PercentEncoding.Utf8 | functions/line-webhook/src/services/lineMessage.ts:59 | one to four bytes per character, one exactly for ASCII |
| PercentEncoding.EncodeURIComponent | functions/line-webhook/src/services/veoVideoGenerator.ts:307 | `encodeURIComponent`; no contract of its own, specified by `EncodedCharacters` and `DecodeEncode` |
| PercentEncoding.DecodeURIComponent | functions/line-webhook/src/services/veoVideoGenerator.ts:102 | `decodeURIComponent`, failing on a malformed escape; no contract of its own, specified by `DecodeEncode` |
| PercentEncoding.Unquote | functions/python-video-generator/video_generator.py:128 | Python's `unquote`, which keeps malformed escapes; no contract of its own, specified by `UnquoteEncodeSlashes` |
| PercentEncoding.DecodeEncode | functions/line-webhook/src/services/veoVideoGenerator.ts:101 | `decodeURIComponent` undoes `encodeURIComponent` on every string |
| PercentEncoding.EncodedCharacters | functions/line-webhook/src/services/lineMessage.ts:59 | encoded text holds only unreserved characters and `%` |
| PercentEncoding.UnquoteEncodeSlashes | functions/python-video-generator/video_generator.py:128 | `unquote` undoes the `/`-to-`%2F` replacement of a text without `%` |
| Strings.JoinSplit | functions/line-webhook/src/services/veoVideoGenerator.ts:104 | joining the parts of a split with the separator gives the text back |
| Strings.SplitFirstTwo | functions/python-video/video_generator.py:155-157 | the first two parts of a split are the text before the first separator and the text after it up to the next separator or the end, neither holding a separator |
| Strings.SplitFirstChar | functions/python-video/video_generator.py:157 | the first part of a split at a character holds none and is followed by that character or by nothing |
| Strings.SplitMaxTwoChar | functions/python-video-generator/video_generator.py:131 | a split at the first two separators gives three parts around them |
| Urls.SchemeEnd | functions/python-video/video_generator.py:151 | the scheme ends at a `:` preceded only by scheme characters |
| Urls.SplitBuiltUrl | functions/python-video/video_generator.py:151 | a built `https` URL splits back into its scheme, host and path |
| Urls.SplitFirebaseUrl | functions/line-webhook/src/services/veoVideoGenerator.ts:97-102 | a download URL splits into the download host and its object path |
| Urls.OnlyObjectMarker | functions/python-video-generator/video_generator.py:126-127 | the only `/o/` of a download URL's path is the one in front of the object |
| VeoVideoGenerator.ReferenceUrls | functions/line-webhook/src/services/veoVideoGenerator.ts:27-31 | an empty list is rejected; otherwise the first at most three URLs |
| VeoVideoGenerator.FirstMarkerMatch | functions/line-webhook/src/services/veoVideoGenerator.ts:98 | the leftmost position where `/\/o\/(.+)$/` matches |
| VeoVideoGenerator.DropFirst | functions/line-webhook/src/services/veoVideoGenerator.ts:104 | `slice(1)` drops exactly the first part |
| VeoVideoGenerator.ObjectPathOf | functions/line-webhook/src/services/veoVideoGenerator.ts:92-108 | the object path a URL names; no contract of its own, its branches are what `ObjectPathRejects`, `ObjectPathDownload`, `ObjectPathPublic` and `PublicUrlRoundTrip` state |
| VeoVideoGenerator.ObjectPathRejects | functions/line-webhook/src/services/veoVideoGenerator.ts:93-107 | a URL that does not parse is refused with "Invalid URL"; a host other than the two Storage hosts is refused as an unsupported format |
| VeoVideoGenerator.ObjectPathDownload | functions/line-webhook/src/services/veoVideoGenerator.ts:97-102 | on the download host the object is the URI-decoded text after the leftmost `/o/` match; with no match the URL is refused as an invalid Firebase Storage URL |
| VeoVideoGenerator.ObjectPathPublic | functions/line-webhook/src/services/veoVideoGenerator.ts:103-105 | on the public host the object is the non-empty path segments after the bucket, joined by `/` |
| VeoVideoGenerator.DownloadAndBase64Encode | functions/line-webhook/src/services/veoVideoGenerator.ts:92-113 | the chosen object is read, and a rejected URL gives its error |
| VeoVideoGenerator.All | functions/line-webhook/src/services/veoVideoGenerator.ts:43 | every value in order, or the error of an element that failed |
| VeoVideoGenerator.DownloadAllImages | functions/line-webhook/src/services/veoVideoGenerator.ts:43 | every image is downloaded in URL order, or the error of a failed one is raised |
| VeoVideoGenerator.OutputGcsUri | functions/line-webhook/src/services/veoVideoGenerator.ts:48-49 | the output folder lies under the user's `videos/` folder of the bucket |
| VeoVideoGenerator.ParseGcsUri | functions/line-webhook/src/services/veoVideoGenerator.ts:253-264 | an accepted URI is `gs://` + a non-empty bucket free of `/` + `/` + a non-empty path; otherwise "Invalid GCS URI" |
| VeoVideoGenerator.GcsUriRoundTrip | functions/line-webhook/src/services/veoVideoGenerator.ts:254-257 | every URI the pattern allows is read back as its bucket and path |
| VeoVideoGenerator.EncodedPlain | functions/line-webhook/src/services/veoVideoGenerator.ts:307-309 | an encoded path holds no `/` and nothing that ends a path |
| VeoVideoGenerator.UploadUrl | functions/line-webhook/src/services/veoVideoGenerator.ts:307-309 | the download URL of an upload; no contract of its own, `UploadedObjectRoundTrip` states that it names the uploaded object |
| VeoVideoGenerator.UploadedObjectRoundTrip | functions/line-webhook/src/services/veoVideoGenerator.ts:307-309 | the download URL of an upload names exactly the uploaded object |
| VeoVideoGenerator.UploadPaths | functions/line-webhook/src/services/veoVideoGenerator.ts:67-77 | video and thumbnail share the `videos/<userId>/<timestamp>` stem and differ |
| VeoVideoGenerator.PublicUrlRoundTrip | functions/line-webhook/src/services/veoVideoGenerator.ts:103-105 | a public Storage URL is read back as its object path when that path has no empty segment |
| VeoVideoGenerator.GenerateVideoWithVeo | functions/line-webhook/src/services/veoVideoGenerator.ts:22-87 | an empty list fails; it succeeds exactly when every step does (`StepsSucceed`), and then the reference images are the first three and the links are those of the two uploads under one timestamp, with the tokens they returned |
| VeoVideoGenerator.GeneratedUrlsNameUploads | functions/line-webhook/src/services/veoVideoGenerator.ts:67-80 | both returned URLs name the uploaded video and thumbnail |
| PythonVideoGenerator.ExtractStoragePath | functions/python-video-generator/video_generator.py:119-135 | on the download host the unquoted last part of the path split at `/o/`, which follows a `/o/` and holds none; on the public host the third part of the split path; otherwise "Unsupported Storage URL format" |
| PythonVideoGenerator.AfterLastMarker | functions/python-video-generator/video_generator.py:127 | the last part of a split at `/o/` follows a `/o/` and holds none |
| PythonVideoGenerator.UploadPaths | functions/python-video-generator/video_generator.py:242-257 | video and thumbnail share the `videos/<user_id>/<timestamp>` stem and differ |
| PythonVideoGenerator.SlashesEncoded | functions/python-video-generator/video_generator.py:253 | after the replacement a path holds no `/` and nothing that ends a path |
| PythonVideoGenerator.NoParamsInDownloadUrl | functions/python-video-generator/video_generator.py:121-125 | `urlparse` keeps a download URL's path whole |
| PythonVideoGenerator.SplitDownloadPath | functions/python-video-generator/video_generator.py:126-127 | a download URL's path splits at `/o/` into two parts, the second the encoded object path |
| PythonVideoGenerator.DownloadUrlRoundTrip | functions/python-video-generator/video_generator.py:119-135 | a download URL built for a path without `%`, `?`, `#` or `;` is read back as that path |
| PythonVideoGenerator.UploadPathsEncodable | functions/python-video-generator/video_generator.py:245-257 | the upload paths bring nothing the encoding breaks beyond what the user id brings |
| PythonVideoGenerator.DurationFormula | functions/python-video-generator/video_generator.py:76 | the duration is 1.5n + 0.5 seconds |
| PythonVideoGenerator.FramesInOrder | functions/python-video-generator/video_generator.py:56-61 | a finished loop has one frame per URL in URL order, each that URL's object |
| PythonVideoGenerator.FailureStops | functions/python-video-generator/video_generator.py:56-61 | a failure in a prefix of the URLs is the failure of the whole loop |
| PythonVideoGenerator.FetchFrames | functions/python-video-generator/video_generator.py:56-61 | the download loop fetches each URL's object in turn |
| PythonVideoGenerator.GenerateVideoFromBears | functions/python-video-generator/video_generator.py:25-82 | the generator, with its download loop over the reversed URLs, returns the outcome `GeneratedSlideshow` specifies, whose shape and links the lemmas below prove |
| PythonVideoGenerator.GeneratedSlideshow | functions/python-video-generator/video_generator.py:25-82 | the outcome of the slideshow generator as a function of the services' answers; no contract of its own, specified by `SlideshowShape`, `SlideshowLinks` and `SlideshowUrlsNameUploads` |
| PythonVideoGenerator.SlideshowShape | functions/python-video-generator/video_generator.py:39-76 | fewer than two images are refused; a finished slideshow shows every image once, oldest first, for 1.5n + 0.5 seconds |
| PythonVideoGenerator.SlideshowLinks | functions/python-video-generator/video_generator.py:234-269 | the links are the download URLs of the two upload paths, each with its own token |
| PythonVideoGenerator.SlideshowUrlsNameUploads | functions/python-video-generator/video_generator.py:245-266 | the returned URLs name the uploaded video and thumbnail |
| PythonVideo.ImageSourceOf | functions/python-video/video_generator.py:139-171 | the download host first (the unquoted `split('/o/')[1].split('?')[0]`), then the public host (the third part of the path split at its first two `/`, after two parts without `/`), each with its error; only a host holding neither is fetched as it is |
| PythonVideo.FirebaseImageObject | functions/python-video/video_generator.py:153-159 | on the download host the object is the unquoted text after the first `/o/`, up to the next `/o/` or the end and then up to its first `?` |
| PythonVideo.FirstObjectText | functions/python-video/video_generator.py:155-157 | the pieces of a path around its first `/o/` and the following `?`, the object text being `split('/o/')[1].split('?')[0]` |
| PythonVideo.StoredImageSource | functions/python-video/video_generator.py:160-164 | the public URL of a stored image is read back as a Storage object with that path |
| PythonVideo.PublicUrlSplit | functions/python-video/video_generator.py:151 | `urlparse` reads a public Storage URL as the public host and `/<bucket>/<path>` |
| PythonVideo.BucketUrlSplit | functions/python-video/video_generator.py:151 | `urlparse` reads `https://<host>/<bucket>/<path>` without `;` as that host and path |
| PythonVideo.PublicPathParts | functions/python-video/video_generator.py:162-164 | `/<bucket>/<path>` splits at its first two `/` into `''`, the bucket and the path |
| PythonVideo.NetlocIsStorage | functions/python-video/video_generator.py:153-160 | a location holding the download host also holds the public host, so the download branch is the one taken |
| PythonVideo.BlobName | functions/python-video/video_generator.py:198 | `videos/<user_id>/<id>.mp4` |
| PythonVideo.QuerySplitKeeps | functions/python-video/video_generator.py:157 | a text without `?` is not cut by the `?` split |
| PythonVideo.VideoUrlRoundTrip | functions/python-video/video_generator.py:198-215 | the uploaded video's link is read back as the object it was uploaded to |
| PythonVideo.ClipsInOrder | functions/python-video/video_generator.py:56-81 | one two-second clip per URL, in URL order, each from that URL's source |
| PythonVideo.ClipFailureStops | functions/python-video/video_generator.py:56-81 | a failure in a prefix of the URLs is the failure of the whole loop |
| PythonVideo.BuildClips | functions/python-video/video_generator.py:56-81 | the clip loop locates and loads each URL in turn |
| PythonVideo.GenerateVideoFromBears | functions/python-video/video_generator.py:25-125 | the generator, with its clip loop, returns the outcome `GeneratedMovie` specifies, whose clips and link the lemmas below prove |
| PythonVideo.GeneratedMovie | functions/python-video/video_generator.py:25-125 | the outcome of the movie generator as a function of the services' answers; no contract of its own, specified by `MovieShape` and `MovieLink` |
| PythonVideo.MovieShape | functions/python-video/video_generator.py:36-81 | fewer than two images are refused; a finished movie has one two-second clip per image, in input order |
| PythonVideo.MovieLink | functions/python-video/video_generator.py:111-125 | the movie's link names the uploaded object |
| LineMessage.BubblesFor | functions/line-webhook/src/services/lineMessage.ts:19-68 | one bubble per URL, in order |
| LineMessage.BuildBearFlexMessage | functions/line-webhook/src/services/lineMessage.ts:14-79 | the alt text passes through; min(n, 10) bubbles for the first URLs in order; a single bubble exactly for one URL, a carousel otherwise |
| LineMessage.DefaultAlt | functions/line-webhook/src/services/lineMessage.ts:15 | the default alt text is "クマ画像です" |
| LineMessage.HeroesAreFirstImages | functions/line-webhook/src/services/lineMessage.ts:16-27 | the hero images are the first ten URLs |
| LineMessage.ShareLinkNamesImage | functions/line-webhook/src/services/lineMessage.ts:59 | the share link is the fixed prefix plus a parameter that holds no `&`, `#` or `=` and decodes to the image URL |
| LineMessage.EveryBubbleSharesItsImage | functions/line-webhook/src/services/lineMessage.ts:19-59 | every bubble shows its image and shares a link that names it |

## Left out

- Gemini and Vertex AI calls (meal analysis, bear and room images, embeddings, the trend-text model and the Veo generation) are parameters that may fail; their behaviour is not modelled.
- `clusterDishes` is a parameter of `TrendAnalyzer.AnalyzeTrends`, because its body is not part of this model.
- `buildBearWithMealFlexMessage` is not part of this model; `GenerateVideo.GetBearsForVideo` returns the bears with their meals from which it is built.
- The Veo polling loop (`pollOperationUntilDone`, veoVideoGenerator.ts:118-248) is left out: it is network I/O against a long-running operation. Its outcome is a parameter.
- Clocks and randomness (`Timestamp.now`, `Date.now`, the file modification time, `generateUUID`, `uuid4`) are parameters: they are nondeterministic.
- Storage reads and writes, HTTP downloads, temp files and cleanup are parameters or left out: they are I/O.
- Firestore reads and writes always succeed in the model (`getMealCount`, `getRecentMeals`, `getLatestBear`, `getActiveGroup`, `reincarnate`, `saveBear` and the `add` of `saveMeal`), because the tables are in memory. A store error that `createBear` would report as `unknown` with its message (createBear.ts:119-127) is not modelled.
- EmbeddingService.AverageEmbedding: requires every embedding to be at least as long as the first. With a shorter later embedding the source reads `undefined` and the component becomes `NaN`, which `real` cannot represent.
- BearRepository.LastMealFor: the `bearId in` query fixes no order, and the `Map.set` loop keeps the last meal it visits. The model visits the meals in table order, so its contract promises only some meal naming the bear.
- `Object.entries` lists integer-like keys first, in numeric order; the model keeps insertion order for every key. Keys such as `constructor` or `__proto__`, which `acc[key] || 0` finds on the prototype, are treated like any other key.
- `encodeURIComponent` throws on a lone UTF-16 surrogate; the model encodes Dafny characters, which are Unicode scalar values, so that case does not arise.
- The repositories read `Timestamp.now()` on each write and `getRecentMeals` reads its own `new Date()`, so one run of `createBear` reads the clock several times. The model uses one `now` for the whole use case.
- moviepy, PIL and ffmpeg rendering are left out. `PythonVideo` takes the composed duration from the `compose` parameter, because moviepy computes it.
- Floating point is modelled as `real`, with no IEEE rounding and no exact square root; cosine similarity takes a `sqrt` parameter.
- `Math.round` is modelled as `floor(x + 1/2)`, and `Math.round(x * 10) / 10` is modelled on reals.
- Rendering a number as text in the prompts is a parameter (`show`), because JavaScript's number formatting is not modelled.
- `getRecentMeals` computes its window as `now - days * 86400000` milliseconds; `setDate` shifts by calendar days, and local-time daylight-saving shifts are not modelled.
- URL splitting models `urlsplit`/`urlparse` and the WHATWG `URL` parser only as far as these URLs need: scheme, `//` network location, path, query and the `;` parameters of the last segment. IPv6 literals, percent-encoded hosts and the parser's normalisations are not modelled.
- A URL that the WHATWG parser rejects yields the error "Invalid URL"; browsers word that message differently.
- `VeoVideoGenerator.All`: with several failures, the model returns one failed element's error. `Promise.all` returns whichever fails first in time, and time is not modelled.
- `PercentEncoding.Unquote`: an ill-formed escaped byte sequence is kept as written. Python's `unquote` replaces it with U+FFFD, so for such input the model's result is weaker than Python's.
- `LineMessage.ShareBase`: the share text 今日のキロクマです！ is written in its encoded form as a literal. The model does not derive it with `EncodeURIComponent`, because the verifier cannot evaluate the encoder on a fixed text cheaply.
- The layout-only fields of the Flex bubble (size, colour, spacing, aspect ratio and the body boxes) are left out. The model keeps the hero image, the title, the share label and the share link.
- LINE messaging, webhook routing, HTTP entry points, the rich-menu setup script and the HTTP client for the video service are left out: they are chat surface and network code.
- The prose of the prompts is left out. Only the data-carrying lines and sections are modelled.
- The older single-user wrappers under `functions/src/services` (repositories, storage, analyser) and `resetBear.ts` are left out: they hold no logic beyond a user filter.
- Concurrency and atomicity are not modelled. `getOrCreateActiveGroup`, `reincarnate` and `saveBear` are modelled as sequential reads then writes, with no claim of race-freedom.
- `BearGroupRepository.GetActiveGroup` returns the first stored active group when there are several, because the Firestore query fixes no order.
- The meal and bear records carry only the fields the repositories write. The older model interfaces without `dish`, `tags`, `ingredients`, `groupId` and `dishEmbedding` are not modelled.
- `BearParameters` and `INITIAL_BEAR_PARAMETERS` are not part of this model's sources. `BearParameters` is declared with two records and a list, and the initial value is a parameter.
- The room style's fixed default (`getDefaultRoomStyle`) is a constant, with nothing to prove about it.
