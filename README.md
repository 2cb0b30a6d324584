# Word frequency against a reference file, in Dafny

Two Python programs answer the same question. Take the words of a reference file,
`file_01.txt`. How often does each of them occur in the other `.txt` files of a directory?

- `target/words/wordFreqMPI.py` (MPI) runs as `size` processes (ranks).
  - Rank 0 reads the reference file, lower-cases its tokens and builds the vocabulary.
  - Rank 0 lists the other `.txt` files and deals them round-robin into `size` chunks.
  - Each rank counts the vocabulary words in its chunk, line by line, with a
    `collections.Counter`, then merges its counters with `update`.
  - Rank 0 gathers the local results, merges them, and reports `most_common(10)`.
  - A missing reference file aborts the job. A file that cannot be opened brings it down.
- `target/words/wordFreqDask.py` (Dask) maps every target file to a `Counter` of all its tokens.
  - A file that cannot be read gives an empty counter.
  - It folds the counters with `+` from an empty `Counter()`.
  - It keeps only the reference file's words, matched case-sensitively, and reports `most_common(5)`.
  - A missing reference file raises.

The model is split into these modules:

- `Seqs` (`seqs.dfy`): flattening lists of chunks.
- `Text` (`text.dfy`):
  - `str.split()` with no argument;
  - iterating an open text file line by line;
  - `str.lower()` on ASCII letters.
- `Counter` (`counter.dfy`):
  - a counter is a `map<string, nat>`;
  - looking up a missing word gives 0;
  - `Counter(list)`, `update`, `+` and `most_common(n)`.
- `Corpus` (`corpus.dfy`):
  - the directory, modelled as a list of entries, each a name with the file's text or `None` when it cannot be read;
  - finding the reference file;
  - the list comprehension that selects the target files;
  - the vocabulary;
  - the specification count, `CorpusCount`: how often a word occurs among the normalised tokens of a list of files;
  - how a run ends.
- `WordFreqMPI` (`wordfreq_mpi.dfy`):
  - the imperative parts are methods with loops, proved against specification functions;
  - `main` is a method over the directory and `size`.
- `WordFreqDask` (`wordfreq_dask.dfy`):
  - the Dask pipeline as functions;
  - lemmas tying it to the specification count and to the MPI counter;
  - `main` as a method.

Headline results:

- **MPI.** For every `size >= 1`, when the run reports, the final counter gives each vocabulary word its total number of
  lower-cased occurrences in the target files. Every other word counts 0. The counter equals the flat merge of all
  per-file counters. How the files are dealt to the ranks does not change it.
- **Dask.** The filtered total gives each reference word its exact number of occurrences in the target files. It equals
  what the MPI counter gives with case-sensitive matching: filtering after the fold equals filtering while counting and
  then merging.

Some behaviour of the two programs worth stating plainly:

- `most_common` lists words with equal counts in whatever order `Counter` holds them. The model fixes no order among
  equal counts.
- An MPI job always runs on at least one rank, so the model requires `size >= 1`.
- Neither program keeps a list of the files it could not read.
  - MPI: opening a target file raises and ends the run.
  - Dask: the error is swallowed and the file counts as empty.
- A vocabulary word that occurs in no target file does not appear in either report.

## Model

| member | source | states |
|---|---|---|
| `Text.Split` | target/words/wordFreqMPI.py:13 | every token of `s.split()` is a non-empty, whitespace-free word; the round trip is `SplitJoin` |
| `Text.SplitFrom` | target/words/wordFreqMPI.py:13 | every token `split()` produces is a non-empty run of non-whitespace characters |
| `Text.SplitJoin` | target/words/wordFreqMPI.py:13 | `split()` undoes joining words with single spaces: any list of such words comes back unchanged |
| `Text.LinesFrom` | target/words/wordFreqMPI.py:12 | the lines a file iterator yields concatenate back to the file's text; none is empty, all but the last end in a newline, and no line holds a newline before its last character |
| `Text.Lines` | target/words/wordFreqMPI.py:12 | an empty file yields no line and any other file at least one; the full description of the lines is `LinesFrom` |
| `Text.TokensAppend` | target/words/wordFreqMPI.py:12-13 | tokenising line by line is additive: the tokens of `a + b` are those of `a` followed by those of `b` |
| `Text.SplitFlatten` | target/words/wordFreqMPI.py:12-13 | splitting the text of a line cut once gives the same tokens as splitting each line |
| `Text.SplitLines` | target/words/wordFreqMPI.py:11-13 | splitting each line of a file yields exactly `f.read().split()`, the tokens the Dask counter and the vocabulary use |
| `Text.Lower` | target/words/wordFreqMPI.py:14-15 | `lower()` keeps the length and whitespace positions of a token and leaves no ASCII capital letter |
| `Text.LowerWord` | target/words/wordFreqMPI.py:14-15 | lower-casing keeps a token a token, and lower-casing twice changes nothing further |
| `Text.Normalize` | target/words/wordFreqMPI.py:14-15 | normalising keeps the number of tokens and keeps each token a word exactly when it was one |
| `Text.NormalizeAppend` | target/words/wordFreqMPI.py:14-15 | lower-casing the tokens of a whole file equals lower-casing each line's tokens |
| `Counter.Tally` | target/words/wordFreqDask.py:13 | `Counter(tokens)` maps each word to its number of occurrences and stores no zero |
| `Counter.Update` | target/words/wordFreqMPI.py:24 | `update` of two counters without zeros stores no zero; the word-by-word sum is `UpdateAt` |
| `Counter.UpdateAt` | target/words/wordFreqMPI.py:24 | `update` adds counts word by word, keeps the keys of both counters, and keeps counts positive |
| `Counter.UpdateCommutes` | target/words/wordFreqMPI.py:24 | `update` does not depend on the order of its two counters |
| `Counter.UpdateAssociates` | target/words/wordFreqMPI.py:21-25 | `update` is associative, with `Counter()` as identity |
| `Counter.Add` | target/words/wordFreqDask.py:57 | `a + b` never stores a zero; the word-by-word sum is `AddAt` |
| `Counter.AddAt` | target/words/wordFreqDask.py:57 | `a + b` adds counts word by word and stores no zero |
| `Counter.UpdateIsAdd` | target/words/wordFreqDask.py:57 | on counters without zeros, `+` and `update` give the same counter |
| `Counter.AddCommutes` | target/words/wordFreqDask.py:57 | `+` is commutative |
| `Counter.AddAssociates` | target/words/wordFreqDask.py:57 | `+` is associative |
| `Counter.AddIdentity` | target/words/wordFreqDask.py:56-59 | the fold's initial `Counter()` is the identity of `+` |
| `Counter.Merged` | target/words/wordFreqMPI.py:21-25 | merging gives each word the sum of its counts over the counters; positive inputs give a positive result |
| `Counter.MergedKeys` | target/words/wordFreqMPI.py:21-25 | a word is in the merge exactly when one of the counters holds it, so merging no counters gives an empty counter |
| `Counter.MergedPermutation` | target/words/wordFreqMPI.py:21-25 | the merge does not depend on the order of the counters |
| `Counter.MergedTwoLevel` | target/words/wordFreqMPI.py:72-83 | merging the per-rank merges equals merging all the per-file counters at once |
| `Counter.FoldAdd` | target/words/wordFreqDask.py:56-59 | the `+` fold gives each word the sum of its counts and stores no zero |
| `Counter.FoldAddIsMerged` | target/words/wordFreqDask.py:56-59 | the `+` fold equals the `update` merge when no input stores a zero |
| `Counter.FoldAddPermutation` | target/words/wordFreqDask.py:56-59 | the `+` fold does not depend on the order of the counters |
| `Counter.FoldAddTwoLevel` | target/words/wordFreqDask.py:50-59 | folding per-partition folds equals the flat fold, whatever the grouping |
| `Counter.MostCommon` | target/words/wordFreqMPI.py:84 | returns `min(n, number of words)` distinct entries of the counter, counts non-increasing, none left out counting more than one listed (also `wordFreqDask.py:67`) |
| `Corpus.Find` | target/words/wordFreqMPI.py:43-45 | the reference lookup gives an entry of the directory with that name, or nothing exactly when no entry has it |
| `Corpus.ListTargets` | target/words/wordFreqMPI.py:55-57 | an entry is listed exactly when it is in the directory, its name ends in `.txt` and it is not the reference file; no entry is listed more often than the directory holds it (order: `ListTargetsAppend`) |
| `Corpus.ListTargetsOne` | target/words/wordFreqMPI.py:55-57 | a one-entry directory lists that entry exactly when it is a target |
| `Corpus.ListTargetsAppend` | target/words/wordFreqMPI.py:55-57 | the comprehension keeps directory order: the targets of `a + b` are those of `a` followed by those of `b` (also `wordFreqDask.py:37-39`) |
| `Corpus.Vocabulary` | target/words/wordFreqMPI.py:49-53 | every vocabulary member is a non-empty whitespace-free word (also `wordFreqDask.py:44-45`); membership exactly is `VocabularyWords` |
| `Corpus.VocabularyWords` | target/words/wordFreqMPI.py:48-53 | the vocabulary is exactly the normalised tokens of the reference text: whitespace-free words, lower-case when matching ignores case |
| `Corpus.CorpusCountAppend` | target/words/wordFreqMPI.py:72-83 | a word's occurrences in two groups of files add up |
| `Corpus.CorpusCountPermutation` | target/words/wordFreqMPI.py:59-62 | a word's occurrences do not depend on the order of the files |
| `WordFreqMPI.VocabCountAt` | target/words/wordFreqMPI.py:6-19 | a file's counter holds only vocabulary words, with positive counts, each counted as often as its normalised form occurs |
| `WordFreqMPI.VocabCountAdditive` | target/words/wordFreqMPI.py:6-19 | counting is additive over lines: the counter of `a + b` is the `update` of the two counters |
| `WordFreqMPI.CountsOfStep` | target/words/wordFreqMPI.py:16-18 | one more token raises exactly its own count, and only when it is a vocabulary word |
| `WordFreqMPI.CountTokens` | target/words/wordFreqMPI.py:16-18 | the inner loop leaves the counter holding the vocabulary counts of the tokens so far plus this line's |
| `WordFreqMPI.CountWordsInFile` | target/words/wordFreqMPI.py:6-19 | the counter's keys are vocabulary words with positive counts, each word counted as often as its normalised form occurs in the file |
| `WordFreqMPI.MergeCounters` | target/words/wordFreqMPI.py:21-25 | each word's total is the sum of its counts; its keys are exactly those of the inputs |
| `WordFreqMPI.Stride` | target/words/wordFreqMPI.py:60-62 | a chunk holds no more files than the list and only files from it; placement is `StrideAt` and `StridePlacement` |
| `WordFreqMPI.StrideLength` | target/words/wordFreqMPI.py:59-62 | chunk `k` receives `len(files) // size` files, plus one when `k < len(files) % size` |
| `WordFreqMPI.StrideBalanced` | target/words/wordFreqMPI.py:59-62 | chunk sizes differ by at most one, earlier chunks being the longer |
| `WordFreqMPI.StrideAt` | target/words/wordFreqMPI.py:59-62 | the `j`-th file of chunk `k` is file `k + j * size` |
| `WordFreqMPI.StridePlacement` | target/words/wordFreqMPI.py:59-62 | file `i` goes to chunk `i % size`, at position `i // size` |
| `WordFreqMPI.RoundRobin` | target/words/wordFreqMPI.py:59-62 | exactly `size` chunks, chunk `k` holding the files at positions `≡ k (mod size)` in order, every file in exactly one chunk |
| `WordFreqMPI.VocabCountEach` | target/words/wordFreqMPI.py:73-75 | a rank builds one counter per file of its chunk, each holding only vocabulary words; their sum is `SumAtVocabCountEach` |
| `WordFreqMPI.FileVocabCount` | target/words/wordFreqMPI.py:6-19 | a file's counter counts each vocabulary word as often as it occurs in the whole file |
| `WordFreqMPI.SumAtVocabCountEach` | target/words/wordFreqMPI.py:72-75 | summed over a rank's files, the per-file counts are each vocabulary word's count in those files |
| `WordFreqMPI.MergedVocabCounts` | target/words/wordFreqMPI.py:72-76 | merging the per-file counters counts each vocabulary word over all the files and stores no zero |
| `WordFreqMPI.CountChunk` | target/words/wordFreqMPI.py:72-76 | a rank's local result counts each vocabulary word over its chunk; it fails exactly when one of its files cannot be read |
| `WordFreqMPI.WordFrequency` | target/words/wordFreqMPI.py:27-91 | aborts exactly when the reference file is missing; crashes exactly when it or a target file is unreadable; otherwise, for every `size >= 1`, reports each vocabulary word's total lower-cased occurrences in the target files (the flat merge of all per-file counters) and its top 10 |
| `WordFreqDask.ReadAndCount` | target/words/wordFreqDask.py:8-16 | a file's counter stores no zero, and an unreadable file gives the empty counter |
| `WordFreqDask.ReadAndCountFile` | target/words/wordFreqDask.py:8-16 | a file's counter counts every word as often as it occurs, an unreadable file counting nothing |
| `WordFreqDask.CountEach` | target/words/wordFreqDask.py:53 | one counter per file, in order, none storing a zero; their sum is `SumAtCountEach` |
| `WordFreqDask.SumAtCountEach` | target/words/wordFreqDask.py:50-53 | summed over the files, the per-file counters give each word's count in all of them |
| `WordFreqDask.TotalCounts` | target/words/wordFreqDask.py:50-59 | the folded total counts every word over all the target files and stores no zero |
| `WordFreqDask.FilterToVocabulary` | target/words/wordFreqDask.py:62-64 | the filtered counter's words are the vocabulary words the total holds, each with the total's count |
| `WordFreqDask.FilterAt` | target/words/wordFreqDask.py:61-64 | the filtered counter's keys are exactly the vocabulary words in the total, with the total's counts |
| `WordFreqDask.FilterFoldAdd` | target/words/wordFreqDask.py:56-64 | filtering the folded total equals folding the filtered per-file counters |
| `WordFreqDask.FilteredTallyIsVocabCount` | target/words/wordFreqDask.py:8-16 | a file's tally cut down to the vocabulary equals the MPI program's counter for that file under case-sensitive matching |
| `WordFreqDask.FilterThenMergeAgrees` | target/words/wordFreqDask.py:56-64 | count-then-filter equals the MPI program's filter-while-counting-then-merge under case-sensitive matching |
| `WordFreqDask.WordFrequency` | target/words/wordFreqDask.py:18-85 | never aborts; crashes exactly when the reference file is missing or unreadable; otherwise reports each reference word's occurrences in the target files (the words found at least once) and its top 5 |

## Left out

- MPI and Dask runtimes.
  - `bcast`, `scatter` and `gather` are modelled as "rank `k` works on chunk `k`" and "rank 0 receives the results in rank order".
  - The ranks run one after another.
  - The cluster, the client and the partitioning into tasks are not modelled. The fold is modelled flat, with `Counter.FoldAddTwoLevel` covering any one-level grouping.
- File-system access.
  - A directory is a list of entries, each a name with its text, or no text when opening or UTF-8 decoding fails.
  - `os.path.join` paths are modelled by bare names.
  - `os.path.isfile` is modelled as "an entry has that name"; directories named `*.txt` are not modelled.
  - A directory that cannot be listed is not modelled.
- Text decoding: universal-newline translation of `\r\n` and `\r`. Lines are cut at `\n` only.
- `str.lower()` is modelled on ASCII letters only; full Unicode case mapping is not modelled. `str.split()` uses Python's whitespace code points.
- Timing (`MPI.Wtime`, `time.time`), all printing, and the reading of `sys.argv` in the Dask program.
- `comm.Abort()` is modelled as the `Aborted` outcome. An uncaught exception is modelled as `Crashed`, without the message.
- Counter.MostCommon: the order of entries with equal counts is not fixed, since `Counter.most_common` keeps insertion order there and the model does not track insertion order.
