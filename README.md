# Address matcher: a verified model of its discrete core

The address matcher is a small Python project. It pairs Chinese postal
addresses with a neural text matcher, ESIM. Around the network it does plain
bookkeeping, and this project models that bookkeeping in Dafny:

- **Inference (`demo.py`).** An address is encoded as exactly 128 word ids.
  An unknown word gets the padding id 0. The best match in a catalogue of
  addresses is then found with a strict arg-max scan.
- **Training data (`train_esim.py`).** Id files are read into rows of
  `max_len` ids. A word-to-row map and an embedding matrix are built from
  two vector sources. Network outputs are thresholded at 0.5. `train_model`
  keeps the best F1, the checkpoints it saves and the metric history.
- **Dataset preparation (`prepare_data.py`).** A shared dictionary is
  updated in place by `tokenize_and_index`. Only input lines with exactly
  three tab-separated columns are kept. The two id files and the label file
  are then written.
- **Vocabularies.**
  - `generate_dict.py`: each word is numbered from 1.
  - `generate_intersection_vocab.py`: the sorted intersection of the GloVe
    and word2vec vocabularies.
  - `tokenize_addresses.py`: a token counter with a `min_freq` filter.
  - `generate_demo_dataset.py`: the sorted distinct second column of a
    pair file.

Each Python file has one module (`Demo`, `TrainEsim`, `PrepareData`,
`GenerateDict`, `IntersectionVocab`, `TokenizeAddresses`, `DemoDataset`).
Four shared modules support them:

- `Errors`: Python's exceptions, as `Result` values.
- `Text`: `str.strip`, `str.split()`, `str.split(sep)`, `join`, `str(int)`
  and `int(str)`.
- `Ordering`: Python's code-point string order, and `sorted(set)`.
- `Padding`: truncate or zero-pad to a length.

How the model is built:

- A file is the sequence of its lines, without terminators.
- Loops that append, add or update in place are methods with loop
  invariants. `Counter` and the shared dictionary are classes whose fields
  the methods update. The embedding matrix is an array written row by row.
- Each method is proved equal to a specification function (the loop folded
  over its input), or states the promised property directly. The source's
  promises are lemmas about those functions.
- The segmenter (`jieba`), the network and float parsing are function
  parameters. The word2vec model is given as a map from word to vector and
  a vector size. The validation metrics and batch losses of each epoch are
  inputs.

Where the code raises, the model returns an error value. `BlankLine`,
`NotAnInteger`, `WrongFieldCount` and `OutOfInt64Range` carry the 0-based
index of the first input line (or row) that raised it. `ShapeMismatch`
carries the 1-based matrix row, `NoBatches` the epoch, and
`MissingVectorSize` nothing:

- `BlankLine`: the `IndexError` of a blank GloVe line.
- `NotAnInteger`: the `ValueError` of `int()`.
- `WrongFieldCount`: the `ValueError` of a failed three-way unpacking.
- `OutOfInt64Range`: numpy's `OverflowError` for an id outside `int64`.
- `ShapeMismatch`: numpy's error when the concatenated vectors neither fit
  a row nor broadcast to it.
- `MissingVectorSize`: the `TypeError` of an empty GloVe file, where
  `vector_size` stays `None`.
- `NoBatches`: the `ZeroDivisionError` of an epoch without batches.

Two points in the source are modelled as written:

- **Fresh ids in `tokenize_and_index`** (prepare_data.py:15-16). A word
  missing from the dictionary gets `len(indexed_words) + 1`. That is its
  position in the current call's output, not a fresh dictionary value, so
  it can equal an id the dictionary already uses (`NewIdCollides`). It also
  differs from `address_to_index`, where a missing word becomes 0
  (`UnknownWordContrast`).
- **Word ids in `load_combined_embeddings`** (train_esim.py:73-78). A word
  gets the 1-based position of its last occurrence in the vocabulary file.
  The ids of the words present can have gaps.

## Model

| member | source | states |
|---|---|---|
| `Demo.AddressToIndex` | demo.py:112-123 | The encoding is the segmented words looked up (a miss gives 0), then truncated or zero-padded to 128 |
| `Demo.EncodeSpec` | demo.py:115-122 | The encoding has exactly 128 entries. Entry k below the token count is the k-th word's id, or 0 when the word is missing. Entries from the token count on are 0. With more than 128 tokens it is the lookup of the first 128 only |
| `Demo.EncodeOneWord` | demo.py:118-122 | A one-word address encodes to that word's id followed by 127 zeros |
| `Demo.LookupAll` | demo.py:113-117 | One id per word, each `word_dict.get(word, 0)` |
| `Demo.ScanNoBest` | demo.py:101-103 | A blank line, or a candidate scoring at most -1, leaves the scan without a best match |
| `Demo.ScanKeepBest` | demo.py:101-103 | A candidate that does not strictly beat the best keeps the current winner |
| `Demo.ScanNewBest` | demo.py:101-103 | A candidate scoring strictly above the best so far, or above -1 when there is none, becomes the winner |
| `Demo.ScanCatalog` | demo.py:85-103 | Only non-blank stripped lines are scored, one network call each. Without a match the score stays -1 and no candidate scored above -1. Otherwise the winner is a stripped candidate above -1 that beats every earlier candidate strictly and every later one weakly, so ties go to the first |
| `Demo.FindMatch` | demo.py:77-109 | An empty or whitespace-only query gives the "please input" result with no network call. "No match" is given exactly when no candidate scores above -1 (including catalogues without a non-blank line). Otherwise the reported address and score belong to the winning line |
| `Padding.Fit` | train_esim.py:29-32 | The result has exactly the requested length. Entry k is the row's k-th id where the row has one, and 0 after the row ends |
| `TrainEsim.ParseIdsSpec` | train_esim.py:28 | `[int(x) for x in tokens]` succeeds exactly when every token is an integer literal, giving one value per token. Otherwise it reports the first token `int()` refuses |
| `TrainEsim.ParseRowsSpec` | train_esim.py:26-33 | A successful read has one row per line, in order, each the line's ids fitted to `max_len`. A failed read reports the first line that does not parse |
| `TrainEsim.ParseRowsStops` | train_esim.py:27-28 | Once a line has failed, later lines do not change the outcome |
| `TrainEsim.FirstWideRow` | train_esim.py:34 | Finds the first row with an id outside `int64`, or none when every row fits |
| `TrainEsim.LoadTextData` | train_esim.py:24-34 | The reading loop returns exactly what the file's reading specification returns or raises |
| `TrainEsim.TextDataShape` | train_esim.py:26-34 | A loaded file has one row per line, in file order, each exactly `max_len` long. A row holds its line's ids first, only the first `max_len` of a longer line, then zeros, and every id fits `int64` |
| `TrainEsim.TextDataFails` | train_esim.py:28-34 | Loading fails exactly when a line has a token `int()` refuses (a literal of more than 4300 digits included), or a kept id is outside `int64`. Every token is parsed before the row is cut to `max_len`, so only the `int64` check ignores the cut-off ids |
| `TrainEsim.TextDataLongLiteral` | train_esim.py:28-32 | A token of more than 4300 digits fails the load even when it lies beyond the first `max_len` ids of its line, because `int()` reads every token before the row is cut |
| `TrainEsim.Floats` | train_esim.py:58 | One parsed value per token, in order |
| `TrainEsim.GloveRowsOk` | train_esim.py:55-57 | The GloVe read succeeds exactly when no row is empty |
| `TrainEsim.ReadGloveOk` | train_esim.py:54-57 | Reading a GloVe file succeeds exactly when no line is blank once split |
| `TrainEsim.GloveRowsFailsAt` | train_esim.py:56-57 | A failed read reports the first empty line |
| `TrainEsim.GloveRowsSize` | train_esim.py:53-60 | `vector_size` is `None` only for an empty file. Otherwise it is the length of the first line's vector |
| `TrainEsim.GloveRowsWords` | train_esim.py:57-61 | The table's words are exactly the lines' first fields |
| `TrainEsim.GloveRowsLastWins` | train_esim.py:61 | A word's vector comes from the last line naming it |
| `TrainEsim.GloveRowsStops` | train_esim.py:55-57 | A failing line ends the read with its error |
| `TrainEsim.LoadGlove` | train_esim.py:52-61 | The GloVe loading loop returns exactly the GloVe reading specification |
| `TrainEsim.StripAll` | train_esim.py:64-65 | The vocabulary is every line stripped, in order, with blank lines kept |
| `TrainEsim.MergeRows` | train_esim.py:69-77 | The matrix has `len(vocab) + 1` rows, each `dim` wide. Row 0 is zero, and so is the row of every word missing from either source. The row of a word in both holds its concatenated vector |
| `TrainEsim.MergeKeys` | train_esim.py:72-78 | `word_to_idx` has exactly the vocabulary words found in both sources |
| `TrainEsim.MergeIds` | train_esim.py:73-78 | A word's id is the 1-based position of its last occurrence in the vocabulary |
| `TrainEsim.WordIdsDistinct` | train_esim.py:73-78 | Distinct words get distinct ids, and every id is at least 1 |
| `TrainEsim.MergeFails` | train_esim.py:74-77 | The merge fails exactly at a word in both sources whose vector does not fit a row, and it reports the first such word |
| `TrainEsim.MergeStops` | train_esim.py:73-77 | A shape error at a word ends the merge with that error |
| `TrainEsim.MergeVectors` | train_esim.py:67-80 | The in-place loop over the zero matrix returns exactly the merge specification |
| `TrainEsim.LoadCombinedEmbeddings` | train_esim.py:47-80 | The whole function returns exactly its specification. A GloVe error comes first, then the empty-file error, then the merge |
| `TrainEsim.CollectPredictions` | train_esim.py:89-96 | A prediction is 1 exactly when its output is strictly above 0.5 and 0 otherwise, one per output in batch order. The labels are the batches' labels end to end |
| `TrainEsim.TotalLoss` | train_esim.py:117-129 | The epoch's total loss is the sum of its batch losses |
| `TrainEsim.TrainModel` | train_esim.py:105-165 | The run fails exactly when an epoch has no batch, reporting the first such epoch. Otherwise each history list has one entry per epoch, in order: the average loss and the three validation metrics. The saved checkpoints and the final `best_f1` are those of the specification |
| `TrainEsim.BestF1IsMaximum` | train_esim.py:106-149 | `best_f1` is the largest of 0 and every epoch's F1 |
| `TrainEsim.BestF1Monotone` | train_esim.py:148-149 | `best_f1` never decreases from one epoch to a later one |
| `TrainEsim.SavesSound` | train_esim.py:148-157 | Every checkpoint comes from an epoch whose F1 strictly beat the best before it, and records that epoch, F1 and metrics |
| `TrainEsim.SavesComplete` | train_esim.py:148-157 | Every strictly improving epoch saves a checkpoint |
| `TrainEsim.SavesIncreasing` | train_esim.py:148-157 | Checkpoints are saved in epoch order, with strictly increasing F1 |
| `TrainEsim.LastSaveIsBest` | train_esim.py:148-157 | The last checkpoint holds the final `best_f1`. No checkpoint is saved exactly when no epoch's F1 is above 0 |
| `PrepareData.NonEmpty` | prepare_data.py:14 | Every word not skipped is non-empty, and there are at most as many as words |
| `PrepareData.NonEmptyAppend` | prepare_data.py:13-14 | Skipping keeps word order: the kept words of two lists in a row are the kept words of their concatenation |
| `PrepareData.NonEmptyOne` | prepare_data.py:13-14 | A single word is kept exactly when it is not empty |
| `PrepareData.NonEmptyMembers` | prepare_data.py:13-14 | A word is kept exactly when it occurs and is not empty |
| `PrepareData.Dictionary.constructor` | prepare_data.py:20 | The shared dictionary starts as the loaded one |
| `PrepareData.Dictionary.TokenizeAndIndex` | prepare_data.py:10-18 | The in-place loop leaves the dictionary and the id list that the specification gives |
| `PrepareData.IndexFoldLength` | prepare_data.py:13-17 | One id per non-empty word |
| `PrepareData.IndexFoldKeeps` | prepare_data.py:15-17 | The dictionary only grows, and every entry it had keeps its value |
| `PrepareData.IndexFoldKeys` | prepare_data.py:14-16 | Afterwards the keys are the old keys plus every non-empty word |
| `PrepareData.IndexFoldIds` | prepare_data.py:15-17 | The k-th id is the final dictionary value of the k-th non-empty word. A known word keeps its value, and a repeated new word reuses the id it was given |
| `PrepareData.IndexFoldNewWord` | prepare_data.py:15-16 | A missing word is inserted with its 1-based position in the call's output at its first occurrence |
| `PrepareData.UnknownWordContrast` | prepare_data.py:15-17 | A missing word, alone in its call, is inserted with id 1, its output position, where `address_to_index` (demo.py:116) gives it 0 |
| `PrepareData.NewIdCollides` | prepare_data.py:15-16 | A new word can receive an id the dictionary already uses for another word |
| `PrepareData.KeptColumns` | prepare_data.py:34-41 | Every kept line has exactly three columns |
| `PrepareData.KeptColumnsAppend` | prepare_data.py:34-41 | Filtering keeps file order: filtering two files one after the other is filtering their concatenation |
| `PrepareData.KeptColumnsOne` | prepare_data.py:36-38 | A single line is kept exactly when it has three columns |
| `PrepareData.ThreeFieldsKept` | prepare_data.py:36-41 | A line `a\tb\tc`, with no tab in the fields and no blank at its ends, is kept as its three columns |
| `PrepareData.FilterColumns` | prepare_data.py:31-41 | The three lists have equal length, one entry per kept line in file order, and they hold that line's columns |
| `PrepareData.IdStrings` | prepare_data.py:50-51 | `map(str, ids)`: one decimal string per id |
| `PrepareData.IdLines` | prepare_data.py:50-51 | One output line per id list |
| `PrepareData.KeptRows` | prepare_data.py:34-46 | The rows the writing loop visits are the kept lines' columns, in order |
| `PrepareData.PrepareFold` | prepare_data.py:46-52 | One id list and one label per kept row |
| `PrepareData.WriteSplit` | prepare_data.py:46-52 | The writing loop leaves the dictionary, id-file lines and labels that the specification gives |
| `PrepareData.PrepareSplit` | prepare_data.py:30-52 | A whole split: filter, then write, with the shared dictionary threaded through |
| `PrepareData.PrepareFoldKeeps` | prepare_data.py:46-48 | Over a whole split the dictionary only grows, and no entry changes |
| `PrepareData.PrepareFoldPrefix` | prepare_data.py:46-52 | The lines written for the first m rows do not change as more rows are written |
| `PrepareData.PrepareFoldLine` | prepare_data.py:46-52 | Line i holds the ids of `addr1[i]` against the dictionary as the earlier rows left it, then the ids of `addr2[i]` against the dictionary as `addr1[i]` left it, and `labels[i]` |
| `PrepareData.IdsLineRoundTrip` | prepare_data.py:50 | A written id line reads back through `_load_text_data`'s parser as exactly the ids written, for ids of at most 4300 digits (train_esim.py:28) |
| `PrepareData.IdFileLoads` | prepare_data.py:50-51 | A whole id file written by the loop reads back, before the `int64` check, as its id lists, each fitted to `max_len` (train_esim.py:26-33) |
| `GenerateDict.Vocabulary` | generate_dict.py:6-11 | At most one word per line |
| `GenerateDict.VocabularySpec` | generate_dict.py:8-11 | The kept words are non-empty and are exactly the lines that are non-empty once stripped, stripped, one per such line |
| `GenerateDict.VocabularyAppend` | generate_dict.py:8-11 | Reading keeps file order: the words of two files in a row are the words of their concatenation |
| `GenerateDict.VocabularyOne` | generate_dict.py:9-11 | A single line gives its stripped text, or nothing when that is empty |
| `GenerateDict.ReadVocabulary` | generate_dict.py:6-11 | The reading loop returns exactly that list |
| `GenerateDict.VocabularyOfWords` | generate_dict.py:8-11 | A file of non-empty words without blanks reads back as those words |
| `GenerateDict.WordDictKeys` | generate_dict.py:15 | The keys are the vocabulary's words |
| `GenerateDict.WordDictLastWins` | generate_dict.py:15 | A word's value is one more than the index of its last occurrence, so every value lies in 1..count and 0 is never used |
| `GenerateDict.DistinctNumbering` | generate_dict.py:15 | Without repeats, the k-th word gets k + 1, the values are exactly 1..count and there is one entry per word |
| `GenerateDict.DistinctKeyCount` | generate_dict.py:15 | Distinct words give as many entries |
| `GenerateDict.GenerateDictionary` | generate_dict.py:4-21 | The dictionary of the kept words of the file |
| `GenerateDict.GeneratedDictionary` | generate_dict.py:9-15 | The keys are exactly the non-blank stripped lines, and every value is at least 1 |
| `IntersectionVocab.FirstWordsOk` | generate_intersection_vocab.py:13-14 | Reading succeeds exactly when no row is empty |
| `IntersectionVocab.FirstWordsFailsAt` | generate_intersection_vocab.py:14 | `split()[0]` on an empty line raises, and the first such line is reported |
| `IntersectionVocab.FirstWordsMembers` | generate_intersection_vocab.py:14-15 | The GloVe set holds exactly the first field of each line |
| `IntersectionVocab.FirstWordsStops` | generate_intersection_vocab.py:13-15 | A blank line ends the read with its error |
| `IntersectionVocab.GloveVocabOk` | generate_intersection_vocab.py:12-15 | A vectors file reads exactly when no line is blank |
| `IntersectionVocab.GloveWordsClean` | generate_intersection_vocab.py:14 | Every GloVe word is non-empty and without whitespace |
| `IntersectionVocab.LoadGloveVocab` | generate_intersection_vocab.py:11-15 | The loading loop returns exactly the GloVe vocabulary specification |
| `IntersectionVocab.GenerateIntersectionVocab` | generate_intersection_vocab.py:5-25 | Fails exactly when the GloVe read fails, with its error. Otherwise the output is strictly ascending, holds exactly the words in both vocabularies, and the returned count is the number of lines written |
| `IntersectionVocab.WrittenClean` | generate_intersection_vocab.py:21-23 | Every written word is non-empty and without whitespace |
| `IntersectionVocab.SortedDistinct` | generate_intersection_vocab.py:22 | The sorted output repeats no word |
| `IntersectionVocab.DictionaryOfIntersection` | generate_dict.py:8-15 | The written file, read back by `generate_dictionary`, numbers its words 1, 2, ... in ascending order |
| `Ordering.LessIrreflexive` | generate_intersection_vocab.py:22 | Python's string order is irreflexive |
| `Ordering.LessTransitive` | generate_intersection_vocab.py:22 | and transitive |
| `Ordering.LessTotal` | generate_intersection_vocab.py:22 | and total on distinct strings |
| `Ordering.LessAsymmetric` | generate_intersection_vocab.py:22 | and asymmetric |
| `Ordering.Insert` | generate_demo_dataset.py:12 | Inserting into a strictly ascending list keeps it strictly ascending and adds exactly the new word |
| `Ordering.SortedUnique` | generate_demo_dataset.py:12 | Two strictly ascending lists with the same members are equal: `sorted` of a set is determined |
| `Ordering.SortedSet` | generate_demo_dataset.py:12 | `sorted(set)`: strictly ascending, exactly the set's members, as many as the set has |
| `TokenizeAddresses.AllTokensClean` | tokenize_addresses.py:17 | Every token is non-empty and without whitespace |
| `TokenizeAddresses.TallyCounts` | tokenize_addresses.py:15-18 | The counter holds exactly the seen words, each with its number of occurrences |
| `TokenizeAddresses.FirstOrderMembers` | tokenize_addresses.py:18-21 | The key order lists every seen word exactly once |
| `TokenizeAddresses.FirstIndexSpec` | tokenize_addresses.py:18 | The first occurrence is an occurrence, with no earlier one |
| `TokenizeAddresses.FirstOrderIsFirstOccurrence` | tokenize_addresses.py:18-21 | The key order is the order of first occurrence |
| `TokenizeAddresses.KeptMembers` | tokenize_addresses.py:21-22 | A word is kept exactly when it is a key whose count reaches `min_freq` |
| `TokenizeAddresses.KeptDistinct` | tokenize_addresses.py:21-22 | Filtering repeats no word |
| `TokenizeAddresses.KeptSorted` | tokenize_addresses.py:21-22 | Filtering keeps first-occurrence order |
| `TokenizeAddresses.CountOne` | tokenize_addresses.py:18 | One more token adds one to its count, and appends it to the key order exactly when it had no entry |
| `TokenizeAddresses.Counter.constructor` | tokenize_addresses.py:14 | A new counter is empty |
| `TokenizeAddresses.Counter.Add` | tokenize_addresses.py:18 | Counting a token keeps the counter equal to the counts and the key order of everything seen |
| `TokenizeAddresses.Counter.Update` | tokenize_addresses.py:18 | `counter.update(tokens)` counts every token in turn |
| `TokenizeAddresses.Counter.WriteItems` | tokenize_addresses.py:20-23 | The write loop over `counter.items()` gives the lines of the words whose count reaches `min_freq`, in key order |
| `TokenizeAddresses.BuildVocab` | tokenize_addresses.py:13-23 | `build_vocab` writes exactly the vocabulary file the specification gives for the corpus |
| `TokenizeAddresses.WrittenWords` | tokenize_addresses.py:15-23 | A word is written exactly when it occurs at least `min_freq` times, and it is written with its number of occurrences |
| `TokenizeAddresses.AllSeenWritten` | tokenize_addresses.py:21-22 | With `min_freq = 1` every seen token is written |
| `TokenizeAddresses.WrittenOnce` | tokenize_addresses.py:21-23 | No word is written twice |
| `TokenizeAddresses.WrittenInFirstOccurrenceOrder` | tokenize_addresses.py:18-21 | Words are written in the order of their first occurrence in the corpus |
| `TokenizeAddresses.SumFreqIncrement` | tokenize_addresses.py:18 | Counting one more occurrence adds one to the sum over distinct words that contain it |
| `TokenizeAddresses.SumOfCounts` | tokenize_addresses.py:15-18 | The counts of all keys sum to the number of tokens |
| `TokenizeAddresses.KeptAll` | tokenize_addresses.py:22 | With `min_freq` at most 1, nothing is filtered |
| `TokenizeAddresses.TotalCount` | tokenize_addresses.py:15-23 | With `min_freq` at most 1, the written counts sum to the corpus's token count |
| `TokenizeAddresses.LineRoundTrip` | tokenize_addresses.py:23 | A written line splits on the tab into the word and its count, and a count of at most 4300 digits reads back with `int()` |
| `DemoDataset.SecondColumnsOk` | generate_demo_dataset.py:6-7 | Reading succeeds exactly when every line has three columns |
| `DemoDataset.SecondColumnsFailsAt` | generate_demo_dataset.py:7 | The unpacking error names the first line without three columns, and how many it has |
| `DemoDataset.SecondColumnsMembers` | generate_demo_dataset.py:7-8 | The set holds exactly the second columns |
| `DemoDataset.SecondColumnsStops` | generate_demo_dataset.py:6-8 | A bad line ends the read with its error |
| `DemoDataset.AddressesOk` | generate_demo_dataset.py:5-8 | A file reads exactly when every line splits into three tab-separated columns |
| `DemoDataset.ReadAddresses` | generate_demo_dataset.py:2-8 | The reading loop returns exactly the reading specification |
| `DemoDataset.ExtractUniqueAddresses` | generate_demo_dataset.py:1-15 | Fails exactly when some line does not have three columns, with that error. Otherwise the output is strictly ascending, holds exactly the distinct second columns, and the count is the number of lines written |
| `Text.TrimLeftSpec` | generate_dict.py:9 | `lstrip` removes exactly the leading whitespace |
| `Text.TrimRightSpec` | generate_dict.py:9 | `rstrip` removes exactly the trailing whitespace |
| `Text.StripSlice` | generate_dict.py:9 | `strip` returns a contiguous slice of the line |
| `Text.StripEnds` | generate_dict.py:9-10 | A stripped line starts and ends with a non-blank character, and it is empty exactly when the line is blank |
| `Text.StripUnchanged` | generate_dict.py:9 | A line without blank ends is left unchanged |
| `Text.Word` | tokenize_addresses.py:17 | A field of `split()` is the longest whitespace-free prefix of what is left: it stops at a whitespace character or the end |
| `Text.SplitFields` | tokenize_addresses.py:17 | The fields of `split()` are non-empty and without whitespace |
| `Text.SplitEmpty` | generate_intersection_vocab.py:14 | `split()` of a blank string has no fields |
| `Text.FieldRowsAt` | train_esim.py:27-28 | Row i is `split()` of `strip()` of line i |
| `Text.FieldRowsLength` | train_esim.py:27-28 | One row per line |
| `Text.FieldRowsClean` | generate_intersection_vocab.py:14 | Every field of every row is non-empty and without whitespace |
| `Text.SplitOn` | prepare_data.py:36 | `split(sep)` returns at least one piece |
| `Text.SplitOnPieces` | prepare_data.py:36 | No piece contains the separator |
| `Text.SplitOnJoin` | prepare_data.py:36 | Joining the pieces with the separator gives the string back |
| `Text.ColumnRowsAt` | prepare_data.py:34-36 | Row i is the columns of line i |
| `Text.ColumnRowsLength` | prepare_data.py:34-36 | One row per line |
| `Text.SplitOnUnique` | prepare_data.py:36 | A string joined from pieces without the separator splits back into those pieces |
| `Text.SplitJoin` | prepare_data.py:50 | A line of words joined by single spaces splits back into the words |
| `Text.WordOfConcat` | tokenize_addresses.py:17 | A word followed by whitespace is read as that word |
| `Text.SplitLeadingSpace` | tokenize_addresses.py:17 | Leading whitespace does not change `split()` |
| `Text.DigitChar` | prepare_data.py:50 | A digit character has the digit's value |
| `Text.NatToString` | prepare_data.py:50 | `str(n)` is a non-empty string of digits |
| `Text.IntToString` | prepare_data.py:50 | `str(i)` is non-empty and without whitespace |
| `Text.ParseInt` | train_esim.py:28 | `int()` accepts only a non-empty literal of at most 4300 digits (CPython's default limit), and the sign of the value follows the literal's sign |
| `Text.NatToStringValue` | train_esim.py:28 | The digits of `str(n)` have the value n |
| `Text.IntToStringRoundTrip` | train_esim.py:28 | `int(str(i)) == i` for every integer of at most 4300 digits; `int()` refuses the decimal form of a longer one |

## Left out

- The ESIM network, the optimiser, the loss and back-propagation. The network
  is a scoring function over two encodings. The per-batch losses and the
  validation metrics of each epoch are given as inputs.
- `jieba` segmentation: a function parameter `segment`.
- gensim's word2vec: given as a map from word to vector and a vector size.
  Training it (train_word2vec.py) is not part of this model.
- sklearn's precision, recall and F1: their inputs are modelled
  (`CollectPredictions`), their computation is not.
- Floating point: float parsing is a total parameter `toReal`, so a GloVe
  token `float()` refuses is not modelled as an error. Vector values are
  reals and are never computed on.
- `TrainEsim.TotalLoss` and the `history.loss` entries of `TrainEsim.TrainModel`
  are the exact real sum of the batch losses and its exact quotient by the
  number of batches. The float64 rounding of `total_loss += loss.item()` and
  of `/ len(train_loader)` is not modelled. Nothing in the loop branches on
  the loss.
- All file, JSON and checkpoint I/O. Files are sequences of lines without
  terminators. The GUI, the threads, logging and the plotting of
  `train_model` are not modelled.
- test_esim.py is not part of this model. It only wires modelled pieces to
  torch loading.
- The label file of `TextMatchDataset` (`float(line.strip())`) is not
  modelled: its parse is floating point.
- `tokenize_address` (tokenize_addresses.py:5-10) is not modelled. It only
  writes the segmenter's output.
- The outer loop of prepare_data.py over the train, test and valid splits is
  not modelled as a loop. One split is `PrepareSplit`, and the dictionary is
  a shared object, so splits run one after another simply continue with it.
- `Text.ParseInt` accepts ASCII digits only. Python's `int()` also accepts
  other Unicode decimal digits and surrounding whitespace; the tokens it
  reads here have no whitespace. Its digit limit is CPython's default of
  4300 digits (Python 3.11 on, and the 3.7-3.10 point releases that added
  it). A limit changed through `sys.set_int_max_str_digits` or
  `PYTHONINTMAXSTRDIGITS`, and interpreters without the limit, are not
  modelled.
- `Text.IntToString` returns the digits of every int. CPython's `str()`
  raises ValueError for an int of more than 4300 digits instead.
- `Text.IntToStringRoundTrip` states `int(str(i)) == i` only for ints of at
  most 4300 digits. For a longer one `str()` itself raises, which
  `Text.IntToString` does not model; the lemma shows that `Text.ParseInt`
  refuses the digits.
- `PrepareData.IdsLineRoundTrip` requires every id to have at most 4300
  digits. prepare_data.py's `str()` raises on a longer id before writing it,
  and `PrepareData.IdStrings` does not model that error. A new id is the
  word's position in the call's output, `len(indexed_words) + 1`.
- `PrepareData.IdFileLoads` requires the same of every id in the file, for
  the same reason.
- `TokenizeAddresses.LineRoundTrip` reads the count back only when it has at
  most 4300 digits. The f-string in tokenize_addresses.py raises on a longer
  count, and `TokenizeAddresses.VocabLine` does not model that error.
- `TrainEsim.TextData` reports `OutOfInt64Range` with the index of the first
  row holding an out-of-range id. numpy's `OverflowError` names no row.
- `Demo.FindMatch` reports the score as a real. The four-decimal formatting
  of the message is not modelled.
