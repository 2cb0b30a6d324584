/**
 The MPI word counter: rank 0 builds the vocabulary from the reference file and
 deals the other `.txt` files round-robin to `size` ranks; each rank counts the
 vocabulary words in its files and merges its counters; rank 0 merges the
 gathered results and ranks the words.

 Broadcast, scatter and gather are modelled as "rank k works on chunk k" and
 "rank 0 receives the per-rank results in rank order"; the ranks run one after
 another here.
 */
module WordFreqMPI {
  import opened Seqs
  import opened Text
  import opened Counter
  import opened Corpus

  /** The reference file's name. */
  const ReferenceName: string := "file_01.txt"
  /** The run matches words ignoring case. */
  const CaseSensitive: bool := false
  /** How many words are reported. */
  const TopN: nat := 10

  /** The counter `count_words_in_file` returns for a file whose lines are `lines`. */
  function VocabCount(lines: seq<string>, vocab: set<string>, caseSensitive: bool): CountMap
  {
    var toks := Normalize(Tokens(lines), caseSensitive);
    map w | w in vocab && multiset(toks)[w] > 0 :: multiset(toks)[w]
  }

  /**
   The counter of a file holds only vocabulary words, each with a positive count,
   and counts each vocabulary word as often as its normalised form occurs.
   */
  lemma VocabCountAt(lines: seq<string>, vocab: set<string>, caseSensitive: bool)
    ensures Positive(VocabCount(lines, vocab, caseSensitive))
    ensures VocabCount(lines, vocab, caseSensitive).Keys <= vocab
    ensures forall w :: Get(VocabCount(lines, vocab, caseSensitive), w) == if w in vocab then multiset(Normalize(Tokens(lines), caseSensitive))[w] else 0
  {
  }

  /** Counting is additive over lines: the counter of `a + b` is the sum of the two counters. */
  lemma VocabCountAdditive(a: seq<string>, b: seq<string>, vocab: set<string>, caseSensitive: bool)
    ensures VocabCount(a + b, vocab, caseSensitive) ==
      Update(VocabCount(a, vocab, caseSensitive), VocabCount(b, vocab, caseSensitive))
  {
    var ca, cb := VocabCount(a, vocab, caseSensitive), VocabCount(b, vocab, caseSensitive);
    TokensAppend(a, b);
    NormalizeAppend(Tokens(a), Tokens(b), caseSensitive);
    VocabCountAt(a + b, vocab, caseSensitive);
    VocabCountAt(a, vocab, caseSensitive);
    VocabCountAt(b, vocab, caseSensitive);
    UpdateAt(ca, cb);
    EqualByGet(VocabCount(a + b, vocab, caseSensitive), Update(ca, cb));
  }

  /** `counter` holds, for each vocabulary word, how often it occurs in `toks`, and nothing else. */
  ghost predicate CountsOf(counter: CountMap, vocab: set<string>, toks: seq<string>)
  {
    && Positive(counter) && counter.Keys <= vocab
    && forall w :: Get(counter, w) == if w in vocab then multiset(toks)[w] else 0
  }

  /** Counting one more token: `counter[w] += 1` when `w` is a vocabulary word. */
  lemma CountsOfStep(counter: CountMap, vocab: set<string>, before: seq<string>, words: seq<string>, j: nat)
    requires j < |words| && CountsOf(counter, vocab, before + words[..j])
    ensures var w := words[j];
      CountsOf(if w in vocab then counter[w := Get(counter, w) + 1] else counter, vocab, before + words[..j + 1])
  {
    var w := words[j];
    assert before + words[..j + 1] == before + words[..j] + [w];
    assert multiset(before + words[..j + 1]) == multiset(before + words[..j]) + multiset{w};
  }

  /** The normalised tokens of the first `i + 1` lines: those of the first `i`, then those of line `i`. */
  lemma LinePrefix(lines: seq<string>, i: nat, caseSensitive: bool)
    requires i < |lines|
    ensures Normalize(Tokens(lines[..i + 1]), caseSensitive) ==
      Normalize(Tokens(lines[..i]), caseSensitive) + Normalize(Split(lines[i]), caseSensitive)
  {
    assert lines[..i + 1][..i] == lines[..i];
    NormalizeAppend(Tokens(lines[..i]), Split(lines[i]), caseSensitive);
  }

  /** A counter holding the vocabulary counts of a file's tokens is that file's `VocabCount`. */
  lemma CountsOfFile(counter: CountMap, lines: seq<string>, vocab: set<string>, caseSensitive: bool)
    requires CountsOf(counter, vocab, Normalize(Tokens(lines), caseSensitive))
    ensures counter == VocabCount(lines, vocab, caseSensitive)
  {
    VocabCountAt(lines, vocab, caseSensitive);
    EqualByGet(counter, VocabCount(lines, vocab, caseSensitive));
  }

  /**
   The inner loop of `count_words_in_file`: `counter[w] += 1` for each token `w`
   of one line that is a vocabulary word. `before` stands for the tokens counted so far.
   */
  method CountTokens(counter: CountMap, words: seq<string>, vocab: set<string>, ghost before: seq<string>)
    returns (counted: CountMap)
    requires CountsOf(counter, vocab, before)
    ensures CountsOf(counted, vocab, before + words)
  {
    counted := counter;
    var j := 0;
    assert before + words[..0] == before;
    while j < |words|
      invariant 0 <= j <= |words|
      invariant CountsOf(counted, vocab, before + words[..j])
    {
      var w := words[j];
      CountsOfStep(counted, vocab, before, words, j);
      if w in vocab {
        counted := counted[w := Get(counted, w) + 1];
      }
      j := j + 1;
    }
    assert words[..j] == words;
  }

  /**
   `count_words_in_file`: for each line, split it, lower-case the tokens unless the
   match is case-sensitive, and count the tokens that are vocabulary words.
   */
  method CountWordsInFile(lines: seq<string>, vocab: set<string>, caseSensitive: bool) returns (counter: CountMap)
    ensures Positive(counter) && counter.Keys <= vocab
    ensures forall w :: Get(counter, w) == if w in vocab then multiset(Normalize(Tokens(lines), caseSensitive))[w] else 0
    ensures counter == VocabCount(lines, vocab, caseSensitive)
  {
    counter := map[];
    var i := 0;
    while i < |lines|
      invariant 0 <= i <= |lines|
      invariant CountsOf(counter, vocab, Normalize(Tokens(lines[..i]), caseSensitive))
    {
      var words := Split(lines[i]);
      if !caseSensitive {
        words := seq(|words|, k requires 0 <= k < |words| => Lower(words[k]));
      }
      assert words == Normalize(Split(lines[i]), caseSensitive);
      LinePrefix(lines, i, caseSensitive);
      counter := CountTokens(counter, words, vocab, Normalize(Tokens(lines[..i]), caseSensitive));
      i := i + 1;
    }
    assert lines[..i] == lines;
    CountsOfFile(counter, lines, vocab, caseSensitive);
  }

  /** `merge_counters`: `update` an empty counter with each counter in turn. */
  method MergeCounters(counters: seq<CountMap>) returns (total: CountMap)
    ensures forall w :: Get(total, w) == SumAt(counters, w)
    ensures forall w :: w in total <==> exists c :: c in counters && w in c
    ensures total == Merged(counters)
  {
    total := map[];
    var i := 0;
    while i < |counters|
      invariant 0 <= i <= |counters|
      invariant total == Merged(counters[..i])
    {
      assert counters[..i + 1][..i] == counters[..i];
      total := Update(total, counters[i]);
      i := i + 1;
    }
    assert counters[..i] == counters;
    forall w ensures w in total <==> exists c :: c in counters && w in c {
      MergedKeys(counters, w);
    }
  }

  /** The files dealt to chunk `k` of `size`: those at positions `i` with `i % size == k`, in order. */
  function Stride<T>(s: seq<T>, k: nat, size: nat): (r: seq<T>)
    requires size >= 1
    ensures |r| <= |s|
    ensures forall x :: x in r ==> x in s
  {
    if s == [] then []
    else Stride(s[..|s| - 1], k, size) + (if (|s| - 1) % size == k then [s[|s| - 1]] else [])
  }

  /** Division by `size` as the next index is reached. */
  lemma DivModNext(n: nat, size: nat)
    requires size >= 1
    ensures n % size + 1 < size ==> (n + 1) / size == n / size && (n + 1) % size == n % size + 1
    ensures n % size + 1 == size ==> (n + 1) / size == n / size + 1 && (n + 1) % size == 0
  {
    var q, r := n / size, n % size;
    assert n == q * size + r;
    if r + 1 < size {
      DivModUnique(n + 1, size, q, r + 1);
    } else {
      assert n + 1 == (q + 1) * size + 0;
      DivModUnique(n + 1, size, q + 1, 0);
    }
  }

  /** Quotient and remainder are the only such pair. */
  lemma DivModUnique(x: nat, size: nat, q: nat, r: nat)
    requires size >= 1 && r < size && x == q * size + r
    ensures x / size == q && x % size == r
  {
    var q', r' := x / size, x % size;
    assert x == q' * size + r';
    if q' < q {
      MulMonotone(q' + 1, q, size);
    } else if q' > q {
      MulMonotone(q + 1, q', size);
    }
  }

  lemma {:induction false} MulMonotone(a: nat, b: nat, c: nat)
    requires a <= b
    ensures a * c <= b * c
    decreases b - a
  {
    if a < b {
      MulMonotone(a + 1, b, c);
      assert (a + 1) * c == a * c + c;
    }
  }

  /** Chunk `k` holds `|s| / size` files, plus one when `k < |s| % size`. */
  lemma {:induction false} StrideLength<T>(s: seq<T>, k: nat, size: nat)
    requires size >= 1 && k < size
    ensures |Stride(s, k, size)| == |s| / size + (if k < |s| % size then 1 else 0)
  {
    if s != [] {
      var n := |s| - 1;
      StrideLength(s[..n], k, size);
      DivModNext(n, size);
    } else {
      assert 0 / size == 0 && 0 % size == 0;
    }
  }

  /** Chunk lengths differ by at most one, the earlier chunks being the longer ones. */
  lemma StrideBalanced<T>(s: seq<T>, k: nat, j: nat, size: nat)
    requires size >= 1 && k < j < size
    ensures |Stride(s, j, size)| <= |Stride(s, k, size)| <= |Stride(s, j, size)| + 1
  {
    StrideLength(s, k, size);
    StrideLength(s, j, size);
  }

  /** The `j`-th file of chunk `k` is the file at position `k + j * size` of the input. */
  lemma {:induction false} StrideAt<T>(s: seq<T>, k: nat, size: nat, j: nat)
    requires size >= 1 && k < size && j < |Stride(s, k, size)|
    ensures k + j * size < |s| && Stride(s, k, size)[j] == s[k + j * size]
  {
    var n := |s| - 1;
    var init := Stride(s[..n], k, size);
    if j < |init| {
      StrideAt(s[..n], k, size, j);
    } else {
      StrideLength(s[..n], k, size);
      assert n % size == k && j == n / size;
      assert n == n / size * size + n % size;
    }
  }

  /** The file at position `i` lands in chunk `i % size`, at position `i / size`. */
  lemma {:induction false} StridePlacement<T>(s: seq<T>, size: nat, i: nat)
    requires size >= 1 && i < |s|
    ensures i / size < |Stride(s, i % size, size)| && Stride(s, i % size, size)[i / size] == s[i]
  {
    var n := |s| - 1;
    var k := i % size;
    if i < n {
      StridePlacement(s[..n], size, i);
    } else {
      StrideLength(s[..n], k, size);
    }
  }

  /** Dealing file `i` appends it to chunk `i % size` and leaves the other chunks as they were. */
  lemma StrideStep<T>(chunks: seq<seq<T>>, files: seq<T>, i: nat)
    requires |chunks| >= 1 && i < |files|
    requires forall k :: 0 <= k < |chunks| ==> chunks[k] == Stride(files[..i], k, |chunks|)
    ensures var dealt := chunks[i % |chunks| := chunks[i % |chunks|] + [files[i]]];
      forall k :: 0 <= k < |dealt| ==> dealt[k] == Stride(files[..i + 1], k, |chunks|)
  {
    assert files[..i + 1][..i] == files[..i];
  }

  /** Dealing file `i` adds exactly that file to the dealt files. */
  lemma DealStep<T>(chunks: seq<seq<T>>, files: seq<T>, i: nat)
    requires |chunks| >= 1 && i < |files|
    requires multiset(Flatten(chunks)) == multiset(files[..i])
    ensures multiset(Flatten(chunks[i % |chunks| := chunks[i % |chunks|] + [files[i]]])) == multiset(files[..i + 1])
  {
    assert files[..i + 1] == files[..i] + [files[i]];
    FlattenAppendAt(chunks, i % |chunks|, files[i]);
  }

  /**
   The chunking loop of `main`: `size` empty chunks, then file `i` appended to
   chunk `i % size`. Every file ends up in exactly one chunk.
   */
  method RoundRobin<T>(files: seq<T>, size: nat) returns (chunks: seq<seq<T>>)
    requires size >= 1
    ensures |chunks| == size
    ensures forall k :: 0 <= k < size ==> chunks[k] == Stride(files, k, size)
    ensures multiset(Flatten(chunks)) == multiset(files)
  {
    chunks := seq(size, _ => []);
    FlattenEmpties(chunks);
    var i := 0;
    while i < |files|
      invariant 0 <= i <= |files| && |chunks| == size
      invariant forall k :: 0 <= k < size ==> chunks[k] == Stride(files[..i], k, size)
      invariant multiset(Flatten(chunks)) == multiset(files[..i])
    {
      DealStep(chunks, files, i);
      StrideStep(chunks, files, i);
      chunks := chunks[i % size := chunks[i % size] + [files[i]]];
      i := i + 1;
    }
    assert files[..i] == files;
  }

  /** The list `local_counters` a rank builds: one `count_words_in_file` counter per file. */
  function VocabCountEach(es: seq<Entry>, vocab: set<string>, caseSensitive: bool): (r: seq<CountMap>)
    ensures |r| == |es|
    ensures forall k :: 0 <= k < |r| ==> r[k].Keys <= vocab
  {
    seq(|es|, k requires 0 <= k < |es| => VocabCount(Lines(TextOf(es[k])), vocab, caseSensitive))
  }

  /** One file's counter counts each vocabulary word as often as it occurs in the file. */
  lemma FileVocabCount(e: Entry, vocab: set<string>, caseSensitive: bool, w: string)
    ensures Get(VocabCount(Lines(TextOf(e)), vocab, caseSensitive), w) ==
      if w in vocab then FileCount(e, caseSensitive, w) else 0
  {
    SplitLines(TextOf(e));
    VocabCountAt(Lines(TextOf(e)), vocab, caseSensitive);
  }

  /** The counters of the first `j + 1` files: those of the first `j`, then that of file `j`. */
  lemma VocabCountEachPrefix(es: seq<Entry>, j: nat, vocab: set<string>, caseSensitive: bool)
    requires j < |es|
    ensures VocabCountEach(es[..j + 1], vocab, caseSensitive) ==
      VocabCountEach(es[..j], vocab, caseSensitive) + [VocabCount(Lines(TextOf(es[j])), vocab, caseSensitive)]
  {
    assert es[..j + 1][..j] == es[..j];
  }

  /** Summed over a list of files, the counters give each vocabulary word's count in all of them. */
  lemma {:induction false} SumAtVocabCountEach(es: seq<Entry>, vocab: set<string>, caseSensitive: bool, w: string)
    ensures SumAt(VocabCountEach(es, vocab, caseSensitive), w) ==
      if w in vocab then CorpusCount(es, caseSensitive, w) else 0
  {
    if es != [] {
      var n := |es| - 1;
      var cs := VocabCountEach(es, vocab, caseSensitive);
      assert cs[..n] == VocabCountEach(es[..n], vocab, caseSensitive);
      SumAtVocabCountEach(es[..n], vocab, caseSensitive, w);
      FileVocabCount(es[n], vocab, caseSensitive, w);
    }
  }

  /** Merging the per-file counters of some files counts each vocabulary word over all of them. */
  lemma MergedVocabCounts(es: seq<Entry>, vocab: set<string>, caseSensitive: bool)
    ensures Positive(Merged(VocabCountEach(es, vocab, caseSensitive)))
    ensures forall w ::
      Get(Merged(VocabCountEach(es, vocab, caseSensitive)), w) == if w in vocab then CorpusCount(es, caseSensitive, w) else 0
  {
    var cs := VocabCountEach(es, vocab, caseSensitive);
    forall c | c in cs ensures Positive(c) {
      var k :| 0 <= k < |cs| && cs[k] == c;
      VocabCountAt(Lines(TextOf(es[k])), vocab, caseSensitive);
    }
    forall w ensures Get(Merged(VocabCountEach(es, vocab, caseSensitive)), w) ==
      if w in vocab then CorpusCount(es, caseSensitive, w) else 0
    {
      SumAtVocabCountEach(es, vocab, caseSensitive, w);
    }
  }

  /**
   What one rank does with the files scattered to it: one counter per file,
   merged into the rank's local result. `None` when some file cannot be opened,
   which raises in `count_words_in_file` and brings the run down.
   */
  method CountChunk(chunk: seq<Entry>, vocab: set<string>) returns (result: Option<CountMap>)
    ensures result.None? <==> exists e :: e in chunk && e.text.None?
    ensures result.Some? ==> result.value == Merged(VocabCountEach(chunk, vocab, CaseSensitive))
    ensures result.Some? ==> Positive(result.value)
    ensures result.Some? ==> forall w :: Get(result.value, w) == if w in vocab then CorpusCount(chunk, CaseSensitive, w) else 0
  {
    var localCounters: seq<CountMap> := [];
    var j := 0;
    while j < |chunk|
      invariant 0 <= j <= |chunk|
      invariant forall e: Entry :: e in chunk[..j] ==> e.text.Some?
      invariant localCounters == VocabCountEach(chunk[..j], vocab, CaseSensitive)
    {
      var file := chunk[j];
      if file.text.None? {
        return None;
      }
      var counter := CountWordsInFile(Lines(file.text.value), vocab, CaseSensitive);
      VocabCountEachPrefix(chunk, j, vocab, CaseSensitive);
      assert chunk[..j + 1] == chunk[..j] + [file];
      localCounters := localCounters + [counter];
      j := j + 1;
    }
    assert chunk[..j] == chunk;
    var localResult := MergeCounters(localCounters);
    MergedVocabCounts(chunk, vocab, CaseSensitive);
    return Some(localResult);
  }

  /** The chunks of the first `k + 1` ranks: those of the first `k`, then chunk `k`. */
  lemma FlattenPrefix<T>(chunks: seq<seq<T>>, k: nat)
    requires k < |chunks|
    ensures Flatten(chunks[..k + 1]) == Flatten(chunks[..k]) + chunks[k]
  {
    assert chunks[..k + 1][..k] == chunks[..k];
  }

  /** Gathering one more rank's result adds that rank's counts to the running totals. */
  lemma GatherStep(gathered: seq<CountMap>, local: CountMap, done: seq<Entry>, chunk: seq<Entry>, vocab: set<string>, w: string)
    requires SumAt(gathered, w) == if w in vocab then CorpusCount(done, CaseSensitive, w) else 0
    requires Get(local, w) == if w in vocab then CorpusCount(chunk, CaseSensitive, w) else 0
    ensures SumAt(gathered + [local], w) == if w in vocab then CorpusCount(done + chunk, CaseSensitive, w) else 0
  {
    assert (gathered + [local])[..|gathered|] == gathered;
    CorpusCountAppend(done, chunk, CaseSensitive, w);
  }

  /**
   `main` without the MPI plumbing, run with `size` ranks. The final counter
   holds, for each vocabulary word, its number of normalised occurrences in all
   the other `.txt` files, whatever `size` is; the report is its top `TopN`.
   */
  method WordFrequency(dir: seq<Entry>, size: nat) returns (outcome: Outcome)
    requires size >= 1
    ensures outcome.Aborted? <==> Find(dir, ReferenceName).None?
    ensures outcome.Crashed? <==>
      && Find(dir, ReferenceName).Some?
      && (|| Find(dir, ReferenceName).value.text.None?
          || exists e :: e in ListTargets(dir, ReferenceName, true) && e.text.None?)
    ensures outcome.Report? ==>
      && Find(dir, ReferenceName).Some?
      && Positive(outcome.counts)
      && (forall w :: Get(outcome.counts, w) ==
            if w in Vocabulary(TextOf(Find(dir, ReferenceName).value), CaseSensitive)
            then CorpusCount(ListTargets(dir, ReferenceName, true), CaseSensitive, w)
            else 0)
      && outcome.counts == Merged(VocabCountEach(ListTargets(dir, ReferenceName, true),
                                                 Vocabulary(TextOf(Find(dir, ReferenceName).value), CaseSensitive),
                                                 CaseSensitive))
      && IsMostCommon(outcome.counts, TopN, outcome.top)
  {
    var reference := Find(dir, ReferenceName);
    if reference.None? {
      return Aborted;
    }
    if reference.value.text.None? {
      return Crashed;
    }
    var vocab := Vocabulary(reference.value.text.value, CaseSensitive);
    var allFiles := ListTargets(dir, ReferenceName, true);
    var chunks := RoundRobin(allFiles, size);

    var gathered: seq<CountMap> := [];
    var rank := 0;
    while rank < size
      invariant 0 <= rank <= size
      invariant forall e: Entry :: e in Flatten(chunks[..rank]) ==> e.text.Some?
      invariant forall c :: c in gathered ==> Positive(c)
      invariant forall w :: SumAt(gathered, w) == if w in vocab then CorpusCount(Flatten(chunks[..rank]), CaseSensitive, w) else 0
    {
      var localResult := CountChunk(chunks[rank], vocab);
      if localResult.None? {
        var file: Entry :| file in chunks[rank] && file.text.None?;
        FlattenMember(chunks, file);
        assert file in multiset(allFiles);
        return Crashed;
      }
      FlattenPrefix(chunks, rank);
      forall w ensures SumAt(gathered + [localResult.value], w) ==
        if w in vocab then CorpusCount(Flatten(chunks[..rank + 1]), CaseSensitive, w) else 0
      {
        GatherStep(gathered, localResult.value, Flatten(chunks[..rank]), chunks[rank], vocab, w);
      }
      gathered := gathered + [localResult.value];
      rank := rank + 1;
    }
    assert chunks[..rank] == chunks;

    var globalCounter := MergeCounters(gathered);
    forall w ensures Get(globalCounter, w) == if w in vocab then CorpusCount(allFiles, CaseSensitive, w) else 0 {
      CorpusCountPermutation(Flatten(chunks), allFiles, CaseSensitive, w);
    }
    forall e | e in allFiles ensures e.text.Some? {
      assert e in multiset(Flatten(chunks));
    }
    MergedVocabCounts(allFiles, vocab, CaseSensitive);
    EqualByGet(globalCounter, Merged(VocabCountEach(allFiles, vocab, CaseSensitive)));
    var top := MostCommon(globalCounter, TopN);
    return Report(globalCounter, top);
  }
}
