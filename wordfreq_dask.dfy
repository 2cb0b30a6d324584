/**
 The Dask word counter: every `.txt` file other than the reference is read and
 tallied in full, the tallies are folded with `+` from an empty counter, and the
 total is then cut down to the reference file's words and ranked.
 Matching is case-sensitive and the file-name test is not lower-cased.
 */
module WordFreqDask {
  import opened Text
  import opened Counter
  import opened Corpus
  import WordFreqMPI

  /** The reference file's name. */
  const ReferenceName: string := "file_01.txt"
  /** How many words are reported. */
  const TopN: nat := 5

  /**
   `leer_y_contar_archivo`: the tally of every token of the file, or an empty
   counter when the file cannot be opened or decoded (the error is swallowed).
   */
  function ReadAndCount(text: Option<string>): (r: CountMap)
    ensures Positive(r)
    ensures text.None? ==> r == map[]
  {
    match text
    case Some(s) => Tally(Split(s))
    case None => map[]
  }

  /** A file's tally counts each word exactly as often as it occurs in the file, unreadable files counting nothing. */
  lemma ReadAndCountFile(e: Entry, w: string)
    ensures Positive(ReadAndCount(e.text))
    ensures Get(ReadAndCount(e.text), w) == FileCount(e, true, w)
  {
  }

  /** `bag.map(leer_y_contar_archivo)`: one counter per file, in order. */
  function CountEach(es: seq<Entry>): (r: seq<CountMap>)
    ensures |r| == |es|
    ensures forall k :: 0 <= k < |r| ==> Positive(r[k])
  {
    seq(|es|, k requires 0 <= k < |es| => ReadAndCount(es[k].text))
  }

  /** The tallies of a list of files, summed, count each word over all of them. */
  lemma {:induction false} SumAtCountEach(es: seq<Entry>, w: string)
    ensures SumAt(CountEach(es), w) == CorpusCount(es, true, w)
  {
    if es != [] {
      var n := |es| - 1;
      assert CountEach(es)[..n] == CountEach(es[..n]);
      SumAtCountEach(es[..n], w);
      ReadAndCountFile(es[n], w);
    }
  }

  /** The folded total counts every word (vocabulary or not) over all the files. */
  lemma TotalCounts(es: seq<Entry>)
    ensures Positive(FoldAdd(CountEach(es)))
    ensures forall w :: Get(FoldAdd(CountEach(es)), w) == CorpusCount(es, true, w)
  {
    forall w ensures Get(FoldAdd(CountEach(es)), w) == CorpusCount(es, true, w) {
      SumAtCountEach(es, w);
    }
  }

  /** The dictionary comprehension keeping the entries of `total` whose word is in `vocab`. */
  function FilterToVocabulary(total: CountMap, vocab: set<string>): (r: CountMap)
    ensures r.Keys == vocab * total.Keys
    ensures forall w :: w in r ==> r[w] == total[w]
  {
    map p | p in vocab && p in total :: total[p]
  }

  /**
   Filtering keeps exactly the vocabulary words the total counts, with their
   counts: a vocabulary word reads as in the total, any other word as 0.
   */
  lemma FilterAt(total: CountMap, vocab: set<string>)
    ensures FilterToVocabulary(total, vocab).Keys == vocab * total.Keys
    ensures Positive(total) ==> Positive(FilterToVocabulary(total, vocab))
    ensures forall w :: Get(FilterToVocabulary(total, vocab), w) == if w in vocab then Get(total, w) else 0
  {
  }

  /**
   Filtering commutes with the fold: filtering the total gives what folding the
   filtered per-file counters gives.
   */
  lemma FilterFoldAdd(cs: seq<CountMap>, vocab: set<string>)
    ensures FilterToVocabulary(FoldAdd(cs), vocab) ==
      FoldAdd(seq(|cs|, k requires 0 <= k < |cs| => FilterToVocabulary(cs[k], vocab)))
  {
    var filtered := seq(|cs|, k requires 0 <= k < |cs| => FilterToVocabulary(cs[k], vocab));
    forall w ensures Get(FilterToVocabulary(FoldAdd(cs), vocab), w) == Get(FoldAdd(filtered), w) {
      FilterAt(FoldAdd(cs), vocab);
      SumAtFiltered(cs, vocab, w);
    }
    FilterAt(FoldAdd(cs), vocab);
    EqualByGet(FilterToVocabulary(FoldAdd(cs), vocab), FoldAdd(filtered));
  }

  lemma {:induction false} SumAtFiltered(cs: seq<CountMap>, vocab: set<string>, w: string)
    ensures SumAt(seq(|cs|, k requires 0 <= k < |cs| => FilterToVocabulary(cs[k], vocab)), w) ==
      if w in vocab then SumAt(cs, w) else 0
  {
    if cs != [] {
      var n := |cs| - 1;
      var filtered := seq(|cs|, k requires 0 <= k < |cs| => FilterToVocabulary(cs[k], vocab));
      assert filtered[..n] == seq(n, k requires 0 <= k < n => FilterToVocabulary(cs[..n][k], vocab));
      SumAtFiltered(cs[..n], vocab, w);
      FilterAt(cs[n], vocab);
    }
  }

  /**
   One file's tally cut down to the vocabulary is the counter the MPI program's
   `count_words_in_file` builds for it when matching is case-sensitive.
   */
  lemma FilteredTallyIsVocabCount(e: Entry, vocab: set<string>)
    ensures FilterToVocabulary(ReadAndCount(e.text), vocab) ==
      WordFreqMPI.VocabCount(Lines(TextOf(e)), vocab, true)
  {
    var filtered := FilterToVocabulary(ReadAndCount(e.text), vocab);
    var counted := WordFreqMPI.VocabCount(Lines(TextOf(e)), vocab, true);
    forall w ensures Get(filtered, w) == Get(counted, w) {
      ReadAndCountFile(e, w);
      FilterAt(ReadAndCount(e.text), vocab);
      WordFreqMPI.FileVocabCount(e, vocab, true, w);
    }
    ReadAndCountFile(e, "");
    FilterAt(ReadAndCount(e.text), vocab);
    WordFreqMPI.VocabCountAt(Lines(TextOf(e)), vocab, true);
    EqualByGet(filtered, counted);
  }

  /**
   Count everything then filter (this program) equals filter while counting then
   merge (the MPI program with case-sensitive matching): the two agree on the same files.
   */
  lemma FilterThenMergeAgrees(es: seq<Entry>, vocab: set<string>)
    ensures FilterToVocabulary(FoldAdd(CountEach(es)), vocab) ==
      Merged(WordFreqMPI.VocabCountEach(es, vocab, true))
  {
    var lhs := FilterToVocabulary(FoldAdd(CountEach(es)), vocab);
    var rhs := Merged(WordFreqMPI.VocabCountEach(es, vocab, true));
    TotalCounts(es);
    FilterAt(FoldAdd(CountEach(es)), vocab);
    WordFreqMPI.MergedVocabCounts(es, vocab, true);
    EqualByGet(lhs, rhs);
  }

  /**
   `main` without the cluster, timing and printing. The report holds, for each
   word of the reference file that occurs in the other `.txt` files, its number
   of occurrences there, and ranks the top `TopN`. A missing or unreadable
   reference file raises; an unreadable target counts as empty.
   */
  method WordFrequency(dir: seq<Entry>) returns (outcome: Outcome)
    ensures !outcome.Aborted?
    ensures outcome.Crashed? <==> Find(dir, ReferenceName).None? || Find(dir, ReferenceName).value.text.None?
    ensures outcome.Report? ==>
      && Find(dir, ReferenceName).Some?
      && Positive(outcome.counts)
      && (forall w :: Get(outcome.counts, w) ==
            if w in Vocabulary(TextOf(Find(dir, ReferenceName).value), true)
            then CorpusCount(ListTargets(dir, ReferenceName, false), true, w)
            else 0)
      && IsMostCommon(outcome.counts, TopN, outcome.top)
  {
    var allFiles := ListTargets(dir, ReferenceName, false);
    var reference := Find(dir, ReferenceName);
    if reference.None? || reference.value.text.None? {
      return Crashed;
    }
    var vocab := Vocabulary(reference.value.text.value, true);
    var total := FoldAdd(CountEach(allFiles));
    var filtered := FilterToVocabulary(total, vocab);
    TotalCounts(allFiles);
    FilterAt(total, vocab);
    var top := MostCommon(filtered, TopN);
    return Report(filtered, top);
  }
}
