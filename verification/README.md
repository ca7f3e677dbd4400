# A verified model of NppAI

NppAI is a small byte-level Transformer with its own tokenizer, checkpoint format, decoders, staged pipeline and
inference server. This project models the parts of it whose correctness is decided by code and proves what they are for.
`dafny verify dfyconfig.toml` checks all of it.

Loops and objects of the program are methods and classes here, each proved against a specification function; what the
program promises is then proved about that function as lemmas. Python exceptions are values of result types.

- **Cached decoding and beam search**: `Softmax`, `Transformer`, `CachedDecoding`, `GenerationContract`, `Generation`,
  `EarlyStop`, `BeamSearch`, `BeamGenerate`. The forward pass is a generic causal network: embeddings, keys and values,
  the scaled score, the rest of a layer after attention and the readout are function-valued parameters that work on
  single rows.
- **Tokenizer**: `Bpe`, `BpeFile`, `BpeTokenizer`, with `Utf8` and `Decimal`; `BpeLocality` (which tables keep texts),
  `BpeReload` (which files survive saving and loading), `BpeRetraining` (training the same object again).
- **Sequential copying and its auditor**: `SequentialCopy`, `CopyAudit`, `CopyReplay`; the copy attention and the gated
  mixture are in `CopyAttention`.
- **Checkpoints**: `Bytes`, `Checkpoint`, `CheckpointFiles`.
- **Argument renaming**: `Rename`.
- **Staged pipelines and the trace auditor**: `StagedRouting`, `StagedGeneration`.
- **Server admission and rate limiting**: `Admission`, `AdmissionServer`, `RateLimit`.
- **Ranking metrics**: `Ranking`, `Evaluators`.
- `PyData` holds the Python containers and built-ins whose order the code relies on.

## What the proofs showed about the code

- Decoding undoes encoding for every table built by training a new tokenizer (`TrainedRoundTrip`), but not for every
  table `load` accepts: a line may redefine a byte (`LoadCanRedefineByte`) or reuse an id, and then a text is lost
  (`SharedIdLosesText`). For every table, with intact byte ids, trying the bytes of each entry once decides for all byte
  lists (`RestoresIffEntriesDo`) and for all ASCII texts (`AsciiTextsIff`).
- A file that loads may not load again after it has been saved: the dictionary keeps a repeated pair at its first place
  with its last id (`SavedFileMayNotLoad`). Files that repeat no pair always do (`LoadUndoesSave`); where ids are not
  reused, exactly those do whose repeated pairs repeat their id (`ReloadsIff`); `ReloadsIffSpellingsStay` is the exact
  condition for all files.
- Training the same object twice writes the second table over the first (`RetrainingOverlays`). The result may be
  coherent or not (`RetrainedCoherentIff`), and the first pair of the first text survives exactly when it is learned
  again (`FirstPairAfterRetraining`); all byte lists, and all ASCII texts, survive exactly when the trials of the entries
  pass (`RetrainedKeepsBytesIff`, `RetrainedAsciiIff`).
- The copy auditor accepts every run, and also cases no run produces: outputs that start with `def ` and report no
  copying (`CheckerAcceptsSilence`). `ProducedIffAcceptedAndComplete` says exactly what it does not ask.
- The trace auditor refuses the trace of a run in exactly one situation: the backend of the last stage raised an
  exception whose message is empty (`RefusedIffRaisedNothing`); `MutePlannerIsRefused` shows one.
- The announced Retry-After is always enough; when the oldest entry leaves after a whole number of seconds it is one
  second more than needed (`RetryAfterSuffices`).
- Recall and reciprocal rank grow with k; nDCG need not: `NdcgStep` says exactly when it falls and when it rises.
- A cutoff that is listed twice has its benchmark metrics doubled (`EvaluateRows`).

## Model

| member | source | states |
|---|---|---|
| Softmax.WeightsSumToOne | scripts/check_dense_runtime_parity.py:59-60 | The attention weights of a row with at least one unmasked score sum to 1. |
| Softmax.MaskedAttention | scripts/check_dense_runtime_parity.py:58-61 | Masked entries at the end of a row change nothing: attention over the whole row equals attention over the row without them. |
| Softmax.AttentionIsAverage | scripts/check_dense_runtime_parity.py:58-61 | Attention over unmasked scores is the average of the values, weighted by the exponential of each score less the largest one; `MaskedAttention` is the rest. |
| Softmax.Argmax | model_backends.py:95 | The choice is the first position of the largest value: none is larger and every earlier one is smaller. |
| Transformer.NumpyLogits | scripts/check_dense_runtime_parity.py:47-65 | The layer-by-layer loop over the window computes the logits of the last position after all layers; past the context length they are those of the newest `context` tokens alone. |
| Transformer.NewestTokensDecide | scripts/check_dense_runtime_parity.py:47-48 | For as many recent tokens as the context holds, whatever stands before them changes no logit. |
| Transformer.LogitsReadNewestPosition | scripts/check_dense_runtime_parity.py:47-65 | The logits after any tokens are the readout of the newest position of the last `context` ones, each position's row being defined on its own: embedding, then per layer the finish of its row with the average of the values up to it, weighted by the exponential of the scores. |
| Transformer.AttendSeesPrefix | scripts/check_dense_runtime_parity.py:57-61 | Row i of the masked attention equals unmasked attention over the first i + 1 keys and values alone. |
| Transformer.LayerRowIsStep | scripts/check_dense_runtime_parity.py:54-64 | Row i of a layer depends on its own row and on the keys and values up to i only. |
| Transformer.RowsAreCausal | scripts/check_dense_runtime_parity.py:47-64 | At every depth the rows of a prefix are the prefix of the rows. |
| CachedDecoding.CacheGrows | python_function_decoding.py:56-57 | At every layer the keys and values of a full pass are those of the pass without the last token, followed by the last row's own. |
| CachedDecoding.ReusedLayer | python_function_decoding.py:55-62 | A layer applied to the newest row only, without a mask and over all cached keys, gives that row of the full pass. |
| CachedDecoding.LayerStep | python_function_decoding.py:54-62 | With or without a parent entry, one layer of a call leaves exactly the full pass's keys and values and exact rows for the next layer. |
| CachedDecoding.Advance | python_function_decoding.py:46-64 | One call body returns the full pass's logits and cache entry, whether it reuses the entry of all but the last token or recomputes the window. |
| CachedDecoding.CachedLogits.Call | python_function_decoding.py:46-64 | After any history of calls and depth changes, for every nonempty token list, a call returns the logits of a full forward pass; past the context length they are those of the newest `context` tokens alone; every stored entry stays the full pass's. |
| CachedDecoding.CachedLogits.NextDepth | python_function_decoding.py:65 | The entries of the current depth become the previous ones, the current ones become empty, and all stay exact. |
| Generation.PaddedPromptLength | model_backends.py:45-50 | A padded prompt is exactly the configured number of bytes long after UTF-8 encoding, whatever characters it holds. |
| Generation.PlainPromptIsFrame | model_backends.py:41-50 | Without a context and a boundary the prompt's bytes are exactly the frame that sequential copying uses: the user mark, the task, the closing mark. |
| Generation.ContextStandsInFront | model_backends.py:42-44 | A context stands, under the system mark, in front of the text that there would be without it. |
| Generation.PaddingIsSpaces | model_backends.py:45-50 | A boundary only adds spaces before the closing line of the text that there would be without it; the prompt is refused exactly when that text has more bytes than the boundary. |
| Generation.DenseGenerate | model_backends.py:78-104 | The loop answers what greedy decoding with a full forward pass per byte defines: output, token count, finish reason, and each of the four errors, a response outside its limits included. |
| Generation.CachedGreedyLoop | python_function_decoding.py:77-92 | The cached loop decodes the same bytes, count and reason, and meets the same error, as the loop of full passes. |
| Generation.GreedyIff | model_backends.py:91-104 | Greedy decoding appends given bytes, ended or not, if and only if none of them is 0, each is the first largest finite full-pass logit after everything before it, the end byte is chosen next exactly when it ended, and the budget is kept (and used up when it did not end). |
| Generation.PlainAnswerIff | model_backends.py:78-104 | Plain decoding returns a response if and only if the prompt fits and, for some bytes chosen greedily after the prompt and the prefix, the response is within its limits and has the model's name, the text of prefix and bytes, and their count. |
| Generation.DraftFits | model_backends.py:78-104 | A request within its limits produces a response within them exactly when the model name has 1 to 128 characters; its text has at most one character per allowed token more than the prefix. |
| Generation.LegacyFunction | python_function_decoding.py:68-92 | With its cached logits it answers, declines or raises exactly as one greedy full-pass decoding without a prompt boundary decides: the end byte first, then the kept text, then the limits of a response. |
| Generation.LegacyIsPlain | python_function_decoding.py:68-92 | For requests within their limits it answers exactly when plain generation with no prompt boundary ends on the end byte with a kept text, then with the identical response; it raises exactly when plain generation does. |
| BeamSearch.TopHasNonzero | python_function_decoding.py:112 | The eight best bytes are eight in number and at least one of the first two is not the end byte. |
| BeamSearch.TopTokensAreBest | python_function_decoding.py:112 | A byte that is not among the eight scores less than each of them, or as much and comes later. |
| BeamSearch.BeamKeepsBest | python_function_decoding.py:121 | The next beam holds the eight best continuations, or all when there are fewer: what is left out scores no more than anything kept. |
| BeamSearch.ContinuationsOfAll | python_function_decoding.py:108-119 | A depth considers exactly the continuations of each candidate by each of its eight best bytes, growing for the others and ending for the end byte: eight times as many as the beam has. |
| BeamSearch.DeeperBelow | python_function_decoding.py:113-121 | With log probabilities at most 0, a bound on the beam bounds the next beam and everything that ends at that depth. |
| BeamSearch.BestKeptStays | python_function_decoding.py:119-125 | Later finished candidates that score no more leave the first best one the winner, ties included. |
| BeamSearch.EarlyStopIsSound | python_function_decoding.py:106-128 | Whenever the search that runs to its full budget returns, the search with the early break returns the same winner, token count and finish reason. |
| BeamSearch.RunStopsWhenDone | python_function_decoding.py:106-123 | The search runs depth by depth and stops at the first one after which its beam is empty or an accepted text has ended that no growing candidate exceeds, or at its budget. |
| BeamSearch.RunIsHonest | python_function_decoding.py:105-123 | In every reached state the beam is not empty, every growing score is the sum of the model's log probabilities of its bytes, and every ended one adds the end byte's. |
| BeamSearch.WinnerIsScored | python_function_decoding.py:124-128 | The winner's score is the log probability of its bytes, its count is their number (plus the end byte), and if any accepted text has ended the winner is an accepted one that ended. |
| BeamSearch.WinnerIsChosen | python_function_decoding.py:124-127 | If an accepted text has ended, the winner is the first of the best accepted ones and has ended. Otherwise it is the first of the best among the ended ones followed by the beam, scoring at least as much as each; it has ended exactly when it is an ended one, and ties go to that. |
| BeamSearch.FallbackOrBeam | python_function_decoding.py:126-127 | The final maximum is the fallback exactly when no candidate of the beam scores more. |
| BeamGenerate.LogSoftmaxNonpositive | python_function_decoding.py:111 | Log probabilities are never positive, for any positive exponential with value 1 at 0 and any logarithm that is not negative from 1 on. |
| BeamGenerate.LogSoftmaxIsLogOfSoftmax | python_function_decoding.py:111 | For a logarithm whose subtraction under the exponential divides, the exponential of each log probability is that byte's softmax weight. |
| BeamGenerate.LogSoftmaxKeepsDifferences | python_function_decoding.py:111 | Log probabilities differ by what the logits differ by. |
| BeamGenerate.NetworkIsProbabilistic | python_function_decoding.py:109-111 | A search on the network's own log probabilities meets the condition under which stopping early is sound. |
| BeamGenerate.ExpandOne | python_function_decoding.py:112-119 | The innermost loop leaves the expanded, finished and fallback values that all continuations of the candidate define. |
| BeamGenerate.ExpandBeam | python_function_decoding.py:108-119 | The loop over the beam leaves those of all candidates in order, or the error of a logit that is not finite. |
| BeamGenerate.OneDepth | python_function_decoding.py:107-123 | One depth turns the state into the next one and breaks exactly when the search is settled or its beam empty. |
| BeamGenerate.Choose | python_function_decoding.py:124-127 | The two-step choice after the loop picks the specified winner and reason, which are those of `WinnerIsChosen`: first best accepted one, else first best of the ended ones and the beam. |
| BeamGenerate.Generate | python_function_decoding.py:101-127 | The whole search with cached logits returns the winner of the early-stopping run on full-pass log probabilities, chosen as `WinnerIsChosen` says, or its error. |
| BeamGenerate.GenerateFunction | python_function_decoding.py:95-128 | The greedy answer is returned when there is one, its error is passed on, and otherwise the search decides; a response outside its limits raises. |
| BeamGenerate.BeamAnswerIsFullSearch | python_function_decoding.py:101-128 | On the network's own log probabilities, whenever the search without the early break returns, the answer is that of its winner. |
| BeamGenerate.BeamAnswerIsCounted | python_function_decoding.py:124-128 | A searched answer is the header followed by its decoded body, counts one token per byte plus one for the end byte, and is an accepted text whenever anything accepted has ended. |
| BeamGenerate.SearchReadsPrompt | python_function_decoding.py:101-111 | A candidate is scored by the logits after the bytes of the prompt, the header and its own body, and not at all when one of them is not finite. |
| BeamGenerate.BeamAnswerIsChosen | python_function_decoding.py:124-128 | Every searched answer is the header and the text of a candidate chosen so at the end of the search, with its count and reason. |
| Bpe.MergedShortens | train_nppai.py:187-197 | A merge shortens the list exactly when the pair occurs and otherwise changes nothing. |
| Bpe.MergedPairs | train_nppai.py:187-197 | A merge never creates a pair of old ids, and the merged pair never remains. |
| Bpe.TallyIsStats | train_nppai.py:181-185 | Counting pair by pair yields each pair's number of occurrences, keyed in order of first occurrence. |
| Bpe.BestIsMostFrequent | train_nppai.py:205 | The learned pair is a most frequent one, and every pair that first occurs before it is strictly rarer. |
| Bpe.NextMerge | train_nppai.py:232-235 | A round picks the lowest-ranked mergeable pair present, and none exactly when no present pair is in the table. |
| Bpe.AppliedIncreases | train_nppai.py:228-237 | On a well-formed table the merge ids that greedy encoding applies strictly increase. |
| Bpe.EncodeRounds | train_nppai.py:228-237 | Encoding makes at most one round per table entry and leaves no mergeable pair. |
| Bpe.EncodeIsOrderedPass | train_nppai.py:228-237 | Greedy encoding equals one pass over the whole table in id order, on every id list. |
| Bpe.IndexOrderExists | train_nppai.py:228-237 | Every well-formed table can be listed in id order, so the ordered pass always exists. |
| Bpe.TrainingStep | train_nppai.py:202-209 | A training round learns a pair that was never learned before, and no learned pair remains in the text. |
| Bpe.RoundIsReplayed | train_nppai.py:202-209 | With any later extension of the table, encoding starts by merging the pair the round picked. |
| Bpe.EncodeReplaysRounds | train_nppai.py:199-211 | Encoding with the final table replays all remaining rounds of training from any point of it. |
| Bpe.MergeKeepsBytes | train_nppai.py:187-197 | On a coherent table a merge keeps the bytes that the ids stand for. |
| BpeFile.EncodeReplaysTraining | train_nppai.py:199-211 | Encoding the training text with the table trained on it yields exactly the ids training ended with. |
| BpeFile.TrainedIsWellFormed | train_nppai.py:199-211 | Training from scratch builds a well-formed table. |
| BpeFile.TrainedVocabulary | train_nppai.py:199-211 | Training from scratch numbers its merges from 256 on without a gap; it makes fewer than the allowed rounds only when the text has come down to a single id. |
| BpeFile.KeepsBytesIffCoherent | train_nppai.py:228-237 | Encoding keeps the bytes of every list of known ids, not only of byte lists, if and only if every entry's id stands for its two parts' bytes. |
| BpeFile.DecodeUndoesEncode | train_nppai.py:228-241 | On every coherent table with intact byte ids, decoding undoes encoding for every text. |
| BpeFile.TrainedRoundTrip | train_nppai.py:199-241 | A tokenizer trained from scratch decodes what it encodes, for every corpus, number of rounds and text. |
| BpeFile.SafeEntryIff | train_nppai.py:223-226 | Storing one entry keeps a sound table sound if and only if its id is new, or already stands for those bytes, or is mentioned by nothing and no byte. |
| BpeFile.LoadedRoundTrip | train_nppai.py:218-241 | A tokenizer loaded from a file whose lines are all safe decodes what it encodes. |
| BpeLocality.EncodingSplits | train_nppai.py:228-237 | When no id is stored for two pairs: wherever an encoding is cut, its two parts are the encodings of two parts of the list. |
| BpeLocality.LastMerge | train_nppai.py:228-237 | When no id is stored for two pairs: a longer list that encodes to one id splits into two lists that encode to the two parts of that id's entry. |
| BpeLocality.RestoresIffEntriesDo | train_nppai.py:228-241 | For every table and every set of byte lists that holds the segments of its lists: encoding keeps all of them if and only if their bytes' ids are intact and, for each entry whose parts spell one of them, encoding that one keeps it. One trial per entry decides for all inputs, reused ids or not. |
| BpeLocality.NoTies | train_nppai.py:231-235 | On a table that passes these trials no round has a tie to break: of two different pairs present that the table can merge, the picked one always has the smaller id, even when the table gives one id to several pairs. |
| BpeLocality.SegmentsEncodeTheirBytes | train_nppai.py:228-241 | On a table that passes these trials every segment of an encoding is itself the encoding of the bytes that it stands for. |
| BpeLocality.AsciiTextsIff | train_nppai.py:228-241 | For every table: every ASCII text decodes back if and only if the ASCII byte ids are intact and the text of each entry's parts, where it is ASCII, decodes back. |
| BpeLocality.PiecesIff | train_nppai.py:228-241 | For every table: encoding keeps all pieces of texts, cut anywhere, if and only if their byte ids are intact and it keeps the bytes of each entry's parts wherever these are such a piece. |
| BpeLocality.AllTextsRoundTrip | train_nppai.py:228-241 | For every table: if the byte ids are intact and the bytes of each entry's parts are kept wherever they are a piece of some text, every text decodes back. |
| BpeLocality.LetterNeedsItsByte | train_nppai.py:228-241 | For every table, an ASCII letter decodes back if and only if its byte id is intact. |
| BpeLocality.PairNeedsItsBytes | train_nppai.py:228-241 | For every table, the text of a stored pair of ASCII letters decodes back if and only if the pair's id stands for these two letters. |
| BpeLocality.SharedIdLosesText | train_nppai.py:223-241 | When a file of two lines gives one id, no byte id, to an ASCII pair and then to another byte pair, it loads, and the text of the first pair encodes to that id, decodes to the second pair and does not come back. |
| BpeFile.TrainedReload | train_nppai.py:199-226 | The file saved after training from scratch loads back to the same two tables. |
| BpeReload.LoadUndoesSave | train_nppai.py:213-226 | If a file loads without an error and repeats no pair, saving the tables and loading them again restores both, with no error, whatever its ids. |
| BpeReload.ReloadsIff | train_nppai.py:213-226 | If a file loads without an error and none of its ids is a byte id or given to two pairs, saving and loading again restores both tables if and only if every repeated pair repeats its id. |
| BpeReload.LoadsIffComplete | train_nppai.py:223-226 | Lines load without a KeyError if and only if each line's parts stand for something there: a byte, or an id that a line before it gave. |
| BpeReload.ReloadsIffSpellingsStay | train_nppai.py:213-226 | For every file that loads without an error, whatever its pairs and ids: saving and loading again restores both tables if and only if its lines, each pair once in its first place with its last id, still load and spell every id as the file does. |
| BpeReload.ReloadNeedsItsIds | train_nppai.py:213-226 | Whatever was loaded: tables that survive saving and loading have bytes for byte ids and for the ids of their merges only. |
| BpeReload.SavedFileMayNotLoad | train_nppai.py:213-226 | A file that gives a pair an id, builds another entry on that id and then gives the pair another id loads without an error, and the file saved from it raises a KeyError. `1 2 300`, `300 3 301`, `1 2 302` is one. |
| BpeFile.SavedLinesParse | train_nppai.py:216-224 | Each line of a saved file parses back to the entry it was printed from. |
| BpeFile.LineFields | train_nppai.py:215-216 | The line of an entry has three fields: its first part, its second part and its id, as printed integers. |
| BpeFile.LoadCanRedefineByte | train_nppai.py:224-226 | A file may redefine a byte: after the line `1 2 65` the letter A decodes to two other characters. |
| BpeRetraining.RetrainingOverlays | train_nppai.py:199-211 | Training again on another text, with any numbers of rounds, leaves the tables of the first training with those of a separate second training written over them; in the order of the merges the new pairs follow the old ones. |
| BpeRetraining.RetrainedCoherentIff | train_nppai.py:199-211 | After training twice the table is coherent if and only if every pair learned only the first time still has, under its id, the bytes of its two parts. |
| BpeRetraining.RetrainedKeepsBytesIff | train_nppai.py:199-241 | After training twice, for any texts and numbers of rounds, encoding keeps all byte lists if and only if it keeps the bytes of each entry's two parts. |
| BpeRetraining.RetrainedAsciiIff | train_nppai.py:199-241 | After training twice, every ASCII text decodes back if and only if the text of each entry's parts, where it is ASCII, does. |
| BpeRetraining.SameTextIsHarmless | train_nppai.py:199-211 | Training again on the same text with the same number of rounds changes neither table, nor the order of the merges that a file lists. |
| BpeRetraining.FirstPairAfterRetraining | train_nppai.py:199-241 | After training twice, for any numbers of rounds, the first pair learned from the first text, when it is ASCII, decodes back if and only if the second training learned it too. |
| BpeTokenizer.BPETokenizer.constructor | train_nppai.py:175-179 | A new tokenizer has no merges and the 256 single bytes. |
| BpeTokenizer.BPETokenizer.GetStats | train_nppai.py:181-185 | The counting loop returns every adjacent pair with its number of occurrences, in order of first occurrence. |
| BpeTokenizer.BPETokenizer.Merge | train_nppai.py:187-197 | The index loop replaces the leftmost non-overlapping occurrences of the pair and nothing else. |
| BpeTokenizer.BPETokenizer.Train | train_nppai.py:199-211 | Training changes the two tables to those of the specified rounds; a new tokenizer then has ids below its vocabulary size only, and all of them unless the training text encodes to one id. |
| BpeTokenizer.BPETokenizer.Save | train_nppai.py:213-216 | The file lists the merges in insertion order, one line each. |
| BpeTokenizer.BPETokenizer.Load | train_nppai.py:218-226 | A missing file resets both tables; otherwise they are what the lines build, up to the line that raises and including its half-done effect. Signs, underscores and every Unicode blank are read as the program reads them. |
| BpeTokenizer.BPETokenizer.Encode | train_nppai.py:228-237 | The loop encodes as the greedy recursion does and changes nothing. |
| BpeTokenizer.BPETokenizer.Decode | train_nppai.py:239-241 | Known ids decode to the text of their joined bytes; an unknown id is a KeyError. Where the bytes of the ids behind a cut do not continue a character, both parts decode on their own. |
| BpeFile.DecodeIdsConcat | train_nppai.py:239-241 | Id lists decode one after the other whenever the bytes of the second start no continuation of a character. |
| BpeFile.BrokenCharacterIsReplaced | train_nppai.py:239-241 | Ids whose bytes are a character that breaks off and then a text decode to one U+FFFD and that text. |
| BpeFile.InterruptedLoad | train_nppai.py:218-226 | After loading any file, every stored entry has parts with bytes if and only if no KeyError interrupted it: the interrupted line leaves its half-done entry behind. |
| Decimal.ParseUndoesPrint | train_nppai.py:216-224 | Reading a printed integer gives it back, negative ones included. |
| Decimal.UnderscoreIsIgnored | train_nppai.py:224 | An underscore between two digits is read over. |
| Decimal.StrayUnderscore | train_nppai.py:224 | An underscore at the end or in front of a number is an error. |
| Decimal.ZeroInFront | train_nppai.py:224 | Leading zeros change no number. |
| Decimal.SplitsAtBlank | train_nppai.py:224 | Two words with any ASCII blank or separator between them are the two fields of the line. |
| Decimal.LinesOfReturnFeed | train_nppai.py:222-223 | A carriage return with a line feed ends one line. |
| Utf8.DecodeUndoesEncode | train_nppai.py:228-241 | UTF-8 decoding with replacement undoes encoding for every text without surrogates (section 3 of RFC 3629). |
| Utf8.DecodeConcat | train_nppai.py:239-241 | Decoding with replacement distributes over a cut in front of any byte that is no continuation byte, malformed parts included. |
| Utf8.StepReplacesMaximalSubpart | train_nppai.py:239-241 | A decoding step reads a whole character where the bytes begin with one; otherwise one U+FFFD stands for the longest beginning of a character there, or for one byte (the substitution of maximal subparts, section 3.9 of the Unicode standard). |
| Utf8.BrokenCharacter | train_nppai.py:239-241 | Every proper nonempty beginning of an encoded character decodes to exactly one U+FFFD. |
| Utf8.StrayByte | train_nppai.py:239-241 | A byte that begins no character decodes to one U+FFFD. |
| SequentialCopy.DecodeState.Step | scripts/sequential_copy_model.py:59-89 | A step emits the byte, reports the event and changes mode and cursor as the decision defines. |
| SequentialCopy.Generate | scripts/sequential_copy_model.py:92-113 | The generating loop returns the output and events of the run, with every byte accounted for as in `GeneratedIsAccounted`, and raises exactly for a prompt with a zero byte or one that does not fit. |
| SequentialCopy.WindowRolls | scripts/sequential_copy_model.py:93-111 | After emitting a byte the model sees what it saw before followed by that byte, without the oldest one once the context is full; `WindowStarts`: at first it sees exactly the frame. |
| SequentialCopy.GeneratedIsAccounted | scripts/sequential_copy_model.py:92-113 | Each emitted byte without an event is the model's base byte for the last `context` bytes of frame and output so far; where there is an event it reports that base byte, chooses the emitted one and gives the model's probability of leaving there; the first event follows `def ` and stands where attention starts. |
| CopyAudit.AuditEvents | scripts/protected_sequential.py:153-187 | The auditing loop accepts exactly the cases that pass every check. |
| CopyAudit.EligibleIsValid | scripts/sequential_copy_model.py:42-53 | A window position is eligible for copying exactly when the auditor, from the prompt alone, calls the cursor there valid. |
| CopyAudit.EveryRunPasses | scripts/protected_sequential.py:153-187 | Whatever the model does, the output and events of a run on a prompt without zero bytes are accepted. |
| CopyAudit.AcceptedIsOneEpisode | scripts/protected_sequential.py:162-185 | Accepted events are one episode: consecutive queries from 4 on, consecutive cursors, all copies but possibly the last. |
| CopyAudit.AcceptedCopyStartsWithDef | scripts/protected_sequential.py:186-187 | Copying is accepted only in a text that starts with `def ` and whose first four bytes are that, and only for the text that the bytes decode to. |
| CopyAudit.CopiesAreOneSlice | scripts/protected_sequential.py:162-185 | The bytes that accepted events copy are one contiguous slice of the prompt from the first cursor on. |
| CopyAudit.BoundaryOnlyAtPromptEnd | scripts/protected_sequential.py:170-174 | After a copy a boundary stands at the end of the prompt only: the window never overtakes the cursor. |
| CopyReplay.RunIsComplete | scripts/sequential_copy_model.py:92-111 | Runs also report an episode whenever the output starts with the trigger, and end it only by an exit, a boundary or the last query. |
| CopyReplay.ProducedIffAcceptedAndComplete | scripts/protected_sequential.py:153-187 | For a fitting prompt, some model produces an output with its events and its decoded text if and only if the auditor accepts them and they are complete in that sense. |
| CopyReplay.CheckerAcceptsSilence | scripts/protected_sequential.py:186-187 | The auditor alone accepts more: an output that starts with the trigger but reports no copying. |
| CopyReplay.ReplayRun | scripts/sequential_copy_model.py:92-111 | The model read off a recorded case reproduces its output and events from any query on. |
| CopyAttention.PickIsEligible | scripts/sequential_copy_model.py:48-52 | Whenever some position is eligible, the position that attention picks is. |
| CopyAttention.AttentionMass | scripts/gated_copy_model.py:36-40 | The attention mass of a row is 1 when some position is eligible and 0 otherwise. |
| CopyAttention.ScatterConserves | scripts/gated_copy_model.py:52-54 | Scattering attention onto byte values conserves its mass. |
| CopyAttention.ScatterGathers | scripts/gated_copy_model.py:52-54 | A byte receives exactly the attention of all positions that hold it. |
| CopyAttention.ScatterSupport | scripts/gated_copy_model.py:52-54 | A byte gets positive mass exactly when a position holding it has. |
| CopyAttention.PointerSupport | scripts/gated_copy_model.py:36-41 | The pointer gives a byte positive mass exactly when it is not 0 and stands at a prompt position. |
| CopyAttention.GateIsNearest | scripts/gated_copy_model.py:42 | Where something may be copied, the gate is the number nearest to the sigmoid's value between 0.00001 and 0.99999. |
| CopyAttention.MixtureMoves | scripts/gated_copy_model.py:44 | The mixture moves each byte's probability towards the pointer's by the gate's share of their difference. |
| CopyAttention.MixtureIsDistribution | scripts/gated_copy_model.py:41-45 | The mixture is nonnegative and sums to 1, and is the vocabulary's own distribution when nothing is eligible. |
| CopyAttention.RowIsDistribution | scripts/gated_copy_model.py:38-45 | For all scores, prompts, gates and logits, the blend of the softmax of the logits with the pointer is a probability distribution. |
| CopyAttention.AttentiveIsWellBehaved | scripts/sequential_copy_model.py:42-53 | A sequential model whose copies start where the masked attention is largest starts at an eligible position whenever there is one, as the results on sequential copying ask. |
| Bytes.FromLittleUndoes | train_nppai.py:136-139 | Reading a little-endian field gives back the number written. |
| Bytes.LittleUndoes | scripts/check_dense_runtime_parity.py:18-19 | Writing the number read from a little-endian field gives back its bytes. |
| Bytes.FromBytesUndoes | scripts/check_dense_runtime_parity.py:24 | Reading the floats of a buffer undoes writing them. |
| Bytes.TransposeTwice | train_nppai.py:110 | Transposing twice restores a matrix. |
| Bytes.ReshapeUndoesFlatten | scripts/check_dense_runtime_parity.py:27-32 | Reshaping the row-major floats of a matrix restores it. |
| Bytes.FlattenUndoesReshape | scripts/check_dense_runtime_parity.py:27-32 | Flattening a reshaped block restores the block. |
| Bytes.FlattenAt | train_nppai.py:109-112 | Entry (i, j) of a matrix stands at i times the number of columns plus j. |
| Bytes.ToBytesAt | train_nppai.py:113 | Float i of a buffer stands in bytes 4i to 4i + 3, the lowest first. |
| Checkpoint.ReadUndoesHeader | train_nppai.py:135-139 | The loader reads back the dimensions and the payload size of every header it can accept. |
| Checkpoint.HeaderStarts | train_nppai.py:135-136 | A file starts with the name of the format and version 2. |
| Checkpoint.HeaderUndoesRead | scripts/check_dense_runtime_parity.py:16-23 | Every header the loader accepts is, byte for byte, the header of what it read. |
| Checkpoint.TakeWeightsPut | scripts/check_dense_runtime_parity.py:34-43 | Reading a payload restores every tensor and ends exactly at its end. |
| Checkpoint.PayloadSize | train_nppai.py:115-128 | The number of floats in an export is the closed form in the dimensions. |
| Checkpoint.ExportIsTensors | train_nppai.py:115-128 | The exported payload is the trained model's tensors one after the other, the linear ones transposed: embeddings, positions, nine for each layer in the listed order, the last norm, the output. |
| Checkpoint.LoadUndoesExport | train_nppai.py:104-141 | For every model the runtime can run, loading its export and copying it into the training framework restores every tensor. |
| Checkpoint.ExportUndoesLoad | scripts/check_dense_runtime_parity.py:14-44 | Every file the loader accepts is, byte for byte, the export of the model it loads. |
| Checkpoint.AcceptedIffExported | scripts/check_dense_runtime_parity.py:14-44 | The loader accepts a file if and only if it is the export of some model it can run. |
| Checkpoint.LoadedReadsBytes | scripts/check_dense_runtime_parity.py:16-23 | A model that loads has 256 embeddings and at least one position, layer, feature and hidden unit. |
| CheckpointFiles.Payload.WriteLayer | train_nppai.py:117-126 | Nine writes append a layer's tensors in file order, the linear ones transposed. |
| CheckpointFiles.WriteLayers | train_nppai.py:117-126 | The loop appends all layers in order. |
| CheckpointFiles.ExportToBin | train_nppai.py:104-141 | The exporter writes exactly the specified file, or raises when a number does not fit its field. |
| CheckpointFiles.Reader.ReadTensor | scripts/check_dense_runtime_parity.py:27-32 | Taking a tensor returns the next block in its shape and moves the offset past it, or raises when the data are short. |
| CheckpointFiles.Reader.ReadLayers | scripts/check_dense_runtime_parity.py:35-39 | The loop reads all layers one after the other. |
| CheckpointFiles.LoadWeights | scripts/check_dense_runtime_parity.py:14-44 | The loader returns exactly the specified weights and raises for every other file. |
| CheckpointFiles.TorchModelFrom | scripts/check_dense_runtime_parity.py:68-85 | The copied model has the weights' values, linear ones transposed, and determines them. |
| Rename.Normalize | scripts/evaluate_canonical_binding.py:29-46 | A transform has as many canonical as original names, at least one, and distinct names stay distinct. |
| Rename.SignatureIff | scripts/evaluate_canonical_binding.py:30-36 | With a known policy a signature is accepted if and only if it has parameters and none is named like a builtin or like the function. |
| Rename.ParameterBecomes | scripts/evaluate_canonical_binding.py:37-46 | A single parameter becomes the policy's name, two become `a` and `b` in order, and more keep their names. |
| Rename.SharedCanonicalIff | scripts/evaluate_canonical_binding.py:37-46 | Two accepted signatures get the same canonical names if and only if they have the same number of parameters, one or two, or are the same. |
| Rename.CanonicalForgetsNames | scripts/evaluate_canonical_binding.py:37-46 | Bodies with one or two parameters that differ only in what these are called have the same canonical form. |
| Rename.RestoreKeepsMeaning | scripts/evaluate_canonical_binding.py:49-85 | For every compositional semantics, argument vector and global environment, an accepted restoration has the original signature and evaluates to what the generated function evaluates to, swaps included. |
| Rename.RestoreKeepsRecursion | scripts/evaluate_canonical_binding.py:49-85 | The same for functions that call themselves, to every recursion depth. |
| Rename.CaptureTestIsExact | scripts/evaluate_canonical_binding.py:67-70 | The capture test rejects a body if and only if renaming it would change its value for some arguments and globals. |
| Rename.OutcomeIsItsCause | scripts/evaluate_canonical_binding.py:49-85 | Each outcome has its own cause: syntax, then everything that is not one plain function of the requested header with one return and no binder, then capture. |
| Rename.RestoreUndoesCanonical | scripts/evaluate_canonical_binding.py:49-85 | Every function body over the original names that leaves the canonical ones alone is restored from its canonical form. |
| Rename.LongSignaturesPassThrough | scripts/evaluate_canonical_binding.py:37-46 | With three or more parameters an accepted text is returned unchanged. |
| StagedRouting.RunRouted | experimental_stage_router.py:6-26 | The loop over the three stages returns the specified trace, or lets an exception escape. |
| StagedRouting.RunIsOrdered | experimental_stage_router.py:6-26 | Every trace consists of one to three calls in the order of the stages, by the planner twice and then the coder, each asking for the task with the outputs before it; all but the last passed, the run completes exactly when three have, its code is the last output and its tokens are the sum. |
| StagedRouting.RunEscapesIff | experimental_stage_router.py:6-26 | An exception escapes from a run if and only if, after some stages that all passed, the next one's request breaks the schema or its backend, unchanged, raises something that is not caught. |
| StagedRouting.RequestsCarryTask | staged_generation.py:42-47 | With the program's own texts each request's prompt ends with the task, its context is empty without artifacts and otherwise ends with all of them, and it asks for at most 128 tokens behind no prefix. |
| StagedRouting.AuditTrace | scripts/audit_all_stage_protection.py:19-39 | The auditing loop accepts exactly the traces that pass every check. |
| StagedRouting.AuditCall | scripts/audit_all_stage_protection.py:22-36 | The checks of one call, in the loop's order, pass exactly for the record that the auditor expects at its stage, an error being allowed at the last call only, and add its tokens and output. |
| StagedRouting.ReasonIsFailure | scripts/audit_all_stage_protection.py:30-32 | The error the auditor expects beside a response is the one the router records, and empty exactly when the router accepts. |
| StagedRouting.RunIsAccepted | scripts/audit_all_stage_protection.py:19-39 | A run's trace is accepted if and only if its last stage did not record an exception with an empty message. |
| StagedRouting.RefusedIffRaisedNothing | scripts/audit_all_stage_protection.py:19-39 | A run's trace is refused if and only if the backend of its last stage raised an exception with an empty message. |
| StagedRouting.NamedErrorsAreAccepted | scripts/audit_all_stage_protection.py:19-39 | If no backend ever raises an exception with an empty message, every run's trace is accepted. |
| StagedRouting.MutePlannerIsRefused | experimental_stage_router.py:15-25 | With the program's own texts and limits: a planner that raises an exception with an empty message makes a run whose trace is refused, for every prompt of up to 99900 characters. |
| StagedRouting.AcceptedIsRun | scripts/audit_all_stage_protection.py:19-39 | An accepted trace that ends is the run of the backends that repeat its responses. |
| StagedRouting.AcceptedIffRun | scripts/audit_all_stage_protection.py:19-39 | The accepted traces that end are exactly those of runs with the given identities and no empty exception message. |
| StagedGeneration.RunStaged | staged_generation.py:50-92 | The single-checkpoint loop returns the specified result, or lets an exception escape. |
| StagedGeneration.RunOne | staged_generation.py:64-89 | The checks of one stage, in the source's order with its early exits, leave the specified record, identity and token count. |
| StagedGeneration.CompletedIsOneCheckpoint | staged_generation.py:63-92 | A completed run consists of three accepted responses of one checkpoint, and its code is the last of them. |
| StagedGeneration.StagedIsOrdered | staged_generation.py:63-92 | Every result consists of one to three records in the order of the stages, each asking for the task with the outputs before it; it stops at the first that does not pass and completes exactly when three have. |
| StagedGeneration.ReturnsIffBudgetFits | staged_generation.py:57-60 | If the backend raises only what is caught, a run returns if and only if the inputs are valid, the budget being at least 1 and three times it at most 512. |
| StagedGeneration.RecordEscapesIff | staged_generation.py:73-87 | An exception escapes from a stage exactly when its request is in order and the backend raises something that is not caught. |
| StagedGeneration.RoutedIsStaged | experimental_stage_router.py:6-26 | With one steady backend in both roles, the routed run completes exactly when the staged one does, with the same code and token count. |
| Admission.RunKeepsInvariant | server_backend.py:252-258 | In every reachable state the lock is held iff exactly one request is between acquire and release, and every answer names the pinned model. |
| Admission.ReleasedExactlyOnce | server_backend.py:275-283 | Each request acquires at most once, and has released exactly once as soon as it no longer holds the lock. |
| Admission.NeverReleasedFree | server_backend.py:85-90 | The lock is never released while it is free. |
| Admission.RefusedIffBusy | server_backend.py:275-276 | A new request is refused if and only if another one is between acquire and release. |
| Admission.LoadedOnce | server_backend.py:61-82 | A run assigns the pinned backend at most once, and exactly once if it is pinned at the end. |
| Admission.OneModel | server_backend.py:61-90 | All answers of a run, early and late, carry one model identity. |
| Admission.LockComesFree | server_backend.py:85-101 | From every reachable state the holder's own steps free the lock within six moves, whatever handing over, loading and generating each come to and whether or not its client has gone. |
| Admission.MovesAreBounded | server_backend.py:275-285 | However the steps of all requests and clients interleave, a request moves at most six times, each move uses up some of its steps, and nobody else's step touches its phase. |
| Admission.LockComesFreeInEveryRun | server_backend.py:275-285 | In every interleaved run from a state in which a request holds the lock: it still holds it, has moved fewer than six times and can move on whatever its next step comes to; or the lock has come free on the way. |
| Admission.HolderMoves | server_backend.py:85-101 | The holder always has a next step, whatever handing over, loading and generating come to, and each brings it nearer to its release. |
| Admission.CancellationIsInvisible | server_backend.py:284-285 | The lock, the pin and all workers end as if no client had ever cancelled. |
| Admission.ClientMayLeaveIff | server_backend.py:275-285 | In every run a client may go away exactly from the hand-over of its request on until it is answered, and is answered exactly when the worker has released the lock and the client is still there. |
| AdmissionServer.InferenceServer.Admit | server_backend.py:275-276 | Acquiring admits a request when the lock is free and refuses it otherwise. |
| AdmissionServer.InferenceServer.SubmitWork | server_backend.py:277-283 | Handing over queues the request; a failed hand-over releases the lock. |
| AdmissionServer.InferenceServer.ConfiguredBackend | server_backend.py:61-82 | The test and the assignment pin what loading found only if nothing was pinned, as steps of the transition system. |
| AdmissionServer.InferenceServer.GenerateWithConfiguredModel | server_backend.py:85-90 | A worker's whole call ends with the lock free and its outcome recorded, whatever went wrong in it. |
| AdmissionServer.InferenceServer.CancelClient | server_backend.py:278-285 | A cancellation changes the client only: not the lock, the pin or the worker. |
| AdmissionServer.InferenceServer.Respond | server_backend.py:285 | Once the worker has ended, the client that still waits is given its outcome, as a step of the transition system. |
| RateLimit.DecidesAsFullHistory | server_backend.py:151-162 | The pruned deque admits exactly when fewer than the limit of the client's admissions ever made lie in the window. |
| RateLimit.NoWindowOverflows | server_backend.py:144-164 | At every instant of every run at most the limit of a client's admissions lie in the window ending there. |
| RateLimit.AdmittedIffOldestLeft | server_backend.py:152-162 | After a rejection, asking again is admitted if and only if the oldest entry has left the window. |
| RateLimit.RetryAfterSuffices | server_backend.py:157-162 | Waiting the announced time is enough, and one second less is not, unless the oldest entry leaves at that very moment. |
| RateLimit.RejectionChangesNothing | server_backend.py:156-164 | A rejected request leaves the full deque as it was. |
| RateLimit.ClientsAreIndependent | server_backend.py:151 | No client's deque depends on other clients' requests. |
| RateLimit.LimiterIsExact | server_backend.py:144-164 | On a clock that never goes back, requests of all clients interleaved, each is admitted exactly when its client has room in the window, and no window overflows. |
| RateLimit.RateLimiter.Enforce | server_backend.py:144-164 | The pruning loop and the test leave the specified deque and answer, and touch no other client. |
| Ranking.NdcgBounds | benchmarks/evaluate_rag_relevance.py:37-39 | For every positive strictly decreasing discount, nDCG lies between 0 and 1 and is 1 if and only if the first min(k, number of relevant) distinct results exist and are all relevant. |
| Ranking.RecallGrows | benchmarks/evaluate_rag_relevance.py:35 | Recall lies between 0 and 1 and never falls when k grows. |
| Ranking.RecallIsShareFound | benchmarks/evaluate_rag_relevance.py:35 | Recall is the number of different relevant sources met by rank k, counted one result at a time, over their number. |
| Ranking.MrrGrows | benchmarks/evaluate_rag_relevance.py:36 | The reciprocal rank lies between 0 and 1, never falls when k grows, and stays once it is positive. |
| Ranking.MrrStep | benchmarks/evaluate_rag_relevance.py:36 | From k to k + 1 the reciprocal rank stays once it is positive, and otherwise becomes 1 over k + 1 exactly when the next distinct result is relevant. |
| Ranking.NdcgStep | benchmarks/evaluate_rag_relevance.py:37-39 | From k to k + 1 nDCG falls if and only if a relevant source is among the first k, there are more than k relevant sources, and the next distinct result is missing or not relevant; it rises if and only if the next one is relevant and nDCG was below 1. |
| Ranking.NdcgMayFall | benchmarks/evaluate_rag_relevance.py:37-39 | An instance: with several relevant sources, of which the first of two results is one and the second is none, nDCG falls from 1. |
| Ranking.QueriesAgree | scripts/evaluate_rag_jsonl.py:50-57 | Counting hits and intersecting sets give the same metrics of a query. |
| Evaluators.EvaluateRows | benchmarks/evaluate_rag_relevance.py:14-46 | The nested loops average the metrics of all rows at every cutoff, times the number of times the cutoff is listed, and raise exactly for empty or malformed data or a cutoff below 1. |
| Evaluators.RowsReportIff | benchmarks/evaluate_rag_relevance.py:15-29 | The benchmark reports if and only if there are rows, ids are named and differ, each row has relevant sources, no source is nameless, and cutoffs are positive. |
| Evaluators.EvaluateJudgments | scripts/evaluate_rag_jsonl.py:25-62 | The loops average over the labelled queries and raise exactly for malformed or unlabelled data. |
| Evaluators.UnlabelledIsIgnored | scripts/evaluate_rag_jsonl.py:46-49 | A query without labels changes nothing, with or without a prediction for it. |
| Evaluators.EvaluatorsAgree | scripts/evaluate_rag_jsonl.py:25-62 | On the same labelled queries both evaluators accept the data, and the offline one reports exactly the benchmark's averages at every cutoff that the benchmark lists once. |
| Evaluators.AveragesWithin | benchmarks/evaluate_rag_relevance.py:40-46 | The averages that the benchmark reports at a cutoff listed once lie between 0 and 1. |

## Left out

- Floating point: numbers are reals, so rounding, overflow to infinity and the finiteness tests on weights are not modelled; the test that logits are finite is an arbitrary predicate of the row.
- The arithmetic inside one row (norms, matrix products, the gated feed-forward part) is a parameter; exponential and logarithm are used only through positivity and order.
- Matrix shapes inside the network: a row that is too short reads as zeros, and token lists are never empty.
- BpeFile.DecodeUndoesEncode: one direction only, because an incoherent entry whose pair never occurs in encoded text does no harm; BpeLocality has the exact conditions.
- BpeLocality.AllTextsRoundTrip: one direction only. An entry whose bytes begin or end within a character may fail its trial and yet never apply in a whole text, because an entry with a smaller id always takes its neighbour first; over all pieces of texts, over ASCII texts and over all byte lists the condition is exact.
- BpeLocality.EncodingSplits, BpeLocality.LastMerge: about arbitrary id lists, when no id is stored for two pairs; with a shared id a tie is broken by what stands in front, so a part of a list need not encode as it does in the list.
- BpeReload.ReloadsIff: files whose ids are own; ReloadsIffSpellingsStay covers all others.
- BpeRetraining.FirstPairAfterRetraining: about the first pair of the first text; RetrainedKeepsBytesIff and RetrainedAsciiIff are exact for all inputs.
- BpeFile.LoadedRoundTrip: a sufficient condition line by line; SafeEntryIff shows that each line's condition is exact for keeping the table sound.
- BpeTokenizer.BPETokenizer.Load: decimal digits outside ASCII and the interpreter's limit of 4300 digits; saved files contain neither, and such digits are an error here.
- Strings that hold lone surrogates, which cannot be encoded as UTF-8.
- SHA-256: an arbitrary function with 32-byte results; nothing is claimed about collisions.
- The structural checks on generated Python (`acceptable`, the return test of `legacy_function`) are arbitrary predicates, and finding the declaration by a regular expression is not modelled; the header and whether there is a declaration are parameters.
- BeamSearch.EarlyStopIsSound: from the full search to the early-stopping one, because a full search may still meet a logit that is not finite at a depth the stopped one never reaches.
- SequentialCopy: the cursor before the first copy is `None` in the program and 0 here, where nothing reads it; hidden states and the two linear maps are behind the model's three functions.
- CopyAttention: one row of attention at a time, over the positions up to its own, which is what the causal mask leaves.
- CheckpointFiles.TorchModelFrom: copying into existing parameters in place is modelled on values; file writes and printed messages are not modelled.
- Rename.CanonicalForgetsNames: about bodies, as trees with renamed variables; rewriting the prompt by a regular expression and the length limits of headers are not modelled.
- Rename: replacing token spans in the source text, f-strings and whitespace; the tree with renamed variables stands for the text.
- StagedRouting: the JSON text of the artifacts is a parameter, and truncated traces that neither complete nor fail are outside AcceptedIffRun, though the auditor accepts some of them.
- StagedGeneration: error texts, elapsed times and the progress callback.
- Admission: shutdown of the event loop or the executor, changes of environment variables during a run, and the reasons for which loading fails.
- RateLimit: the settings stay fixed during a run and time is a real number that never goes back.
- Evaluators: tests that values are lists, strings and integers are settled by the types.
- Loops whose body is long are split into a method for the body and one for the loop.
- Training, optimizers, quantization, native parity runs, dataset builders, report audits, Docker, sockets, GitHub publishing and the user interface: input and output, plumbing or counting.
