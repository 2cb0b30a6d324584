/**
 The input both programs work on: a directory snapshot of text files, one of
 which is the reference file whose words form the vocabulary; and the result
 a run ends with.
 */
module Corpus {
  import opened Text
  import opened Counter

  datatype Option<T> = None | Some(value: T)

  /**
   One directory entry: its file name and what reading it as UTF-8 text gives,
   or `None` when opening or decoding it fails.
   */
  datatype Entry = Entry(name: string, text: Option<string>)

  /** How a run ends. */
  datatype Outcome =
    | Aborted    // the reference file does not exist; the job is aborted on purpose
    | Crashed    // opening or reading a file raised an exception nobody catches
    | Report(counts: CountMap, top: seq<(string, nat)>)

  /** The entry called `name`, if the directory has one. */
  function Find(dir: seq<Entry>, name: string): (r: Option<Entry>)
    ensures r.Some? ==> r.value in dir && r.value.name == name
    ensures r.None? <==> forall e :: e in dir ==> e.name != name
  {
    if dir == [] then None
    else if dir[0].name == name then Some(dir[0])
    else
      assert forall e :: e in dir ==> e == dir[0] || e in dir[1..];
      Find(dir[1..], name)
  }

  /** `name.endswith(".txt")`. */
  predicate EndsWithTxt(name: string)
  {
    |name| >= 4 && name[|name| - 4..] == ".txt"
  }

  /**
   Whether a listed name is one of the files to count: a `.txt` name (compared
   after lower-casing when `foldExtension` holds) other than the reference file.
   */
  predicate IsTarget(name: string, reference: string, foldExtension: bool)
  {
    EndsWithTxt(if foldExtension then Lower(name) else name) && name != reference
  }

  /**
   The list comprehension over `os.listdir(...)` that picks the files to count,
   in listing order.
   */
  function ListTargets(dir: seq<Entry>, reference: string, foldExtension: bool): (r: seq<Entry>)
    ensures forall e :: e in r <==> e in dir && IsTarget(e.name, reference, foldExtension)
    ensures forall e :: e in r ==> e.name != reference
    ensures multiset(r) <= multiset(dir)
  {
    if dir == [] then []
    else
      var rest := ListTargets(dir[1..], reference, foldExtension);
      assert dir == [dir[0]] + dir[1..];
      if IsTarget(dir[0].name, reference, foldExtension) then [dir[0]] + rest else rest
  }

  /** A single entry is listed exactly when it is a target. */
  lemma ListTargetsOne(e: Entry, reference: string, foldExtension: bool)
    ensures ListTargets([e], reference, foldExtension) == if IsTarget(e.name, reference, foldExtension) then [e] else []
  {
    assert [e][1..] == [];
  }

  /**
   Listing keeps order and multiplicity: the targets of `a + b` are those of `a`
   followed by those of `b`.
   */
  lemma {:induction false} ListTargetsAppend(a: seq<Entry>, b: seq<Entry>, reference: string, foldExtension: bool)
    ensures ListTargets(a + b, reference, foldExtension) ==
      ListTargets(a, reference, foldExtension) + ListTargets(b, reference, foldExtension)
    decreases |a|
  {
    if a == [] {
      assert a + b == b;
    } else {
      assert (a + b)[0] == a[0] && (a + b)[1..] == a[1..] + b;
      ListTargetsAppend(a[1..], b, reference, foldExtension);
    }
  }

  /** The set of the (normalised) tokens of the reference text. */
  function Vocabulary(text: string, caseSensitive: bool): (r: set<string>)
    ensures forall w :: w in r ==> IsWord(w)
  {
    set w | w in Normalize(Split(text), caseSensitive)
  }

  /**
   The vocabulary holds exactly the normalised tokens of the reference text:
   each is a whitespace-free, non-empty word, lower-case when matching ignores case.
   */
  lemma VocabularyWords(text: string, caseSensitive: bool, w: string)
    ensures w in Vocabulary(text, caseSensitive) <==>
      exists t :: t in Split(text) && w == (if caseSensitive then t else Lower(t))
    ensures w in Vocabulary(text, caseSensitive) ==> IsWord(w)
    ensures w in Vocabulary(text, caseSensitive) && !caseSensitive ==> Lower(w) == w
  {
    var toks := Split(text);
    if w in Vocabulary(text, caseSensitive) {
      var i :| 0 <= i < |toks| && Normalize(toks, caseSensitive)[i] == w;
      LowerWord(toks[i]);
    }
    if exists t :: t in toks && w == (if caseSensitive then t else Lower(t)) {
      var t :| t in toks && w == (if caseSensitive then t else Lower(t));
      var i :| 0 <= i < |toks| && toks[i] == t;
      assert Normalize(toks, caseSensitive)[i] == w;
    }
  }

  /** What a file contributes when read; a file that cannot be read contributes nothing. */
  function TextOf(e: Entry): string
  {
    if e.text.Some? then e.text.value else []
  }

  /** The normalised tokens of one file. */
  function FileTokens(e: Entry, caseSensitive: bool): seq<string>
  {
    Normalize(Split(TextOf(e)), caseSensitive)
  }

  /** How often `w` occurs among the normalised tokens of all the entries. */
  function CorpusCount(es: seq<Entry>, caseSensitive: bool, w: string): nat
  {
    if es == [] then 0
    else CorpusCount(es[..|es| - 1], caseSensitive, w) + FileCount(es[|es| - 1], caseSensitive, w)
  }

  /** How often `w` occurs among the normalised tokens of one entry. */
  function FileCount(e: Entry, caseSensitive: bool, w: string): nat
  {
    multiset(FileTokens(e, caseSensitive))[w]
  }

  lemma CorpusCountLast(es: seq<Entry>, caseSensitive: bool, w: string)
    requires es != []
    ensures CorpusCount(es, caseSensitive, w) ==
      CorpusCount(es[..|es| - 1], caseSensitive, w) + FileCount(es[|es| - 1], caseSensitive, w)
  {
  }

  /** A word's occurrences in two lists of files add up. */
  lemma {:induction false} CorpusCountAppend(a: seq<Entry>, b: seq<Entry>, caseSensitive: bool, w: string)
    ensures CorpusCount(a + b, caseSensitive, w) == CorpusCount(a, caseSensitive, w) + CorpusCount(b, caseSensitive, w)
    decreases |b|
  {
    if b == [] {
      assert a + b == a;
    } else {
      var n, ab := |b| - 1, a + b;
      var last := |ab| - 1;
      assert ab[..last] == a + b[..n];
      assert ab[last] == b[n];
      CorpusCountAppend(a, b[..n], caseSensitive, w);
      CorpusCountLast(ab, caseSensitive, w);
      CorpusCountLast(b, caseSensitive, w);
    }
  }

  /** How often a word occurs in the whole corpus does not depend on the order of the files. */
  lemma {:induction false} CorpusCountPermutation(a: seq<Entry>, b: seq<Entry>, caseSensitive: bool, w: string)
    requires multiset(a) == multiset(b)
    ensures CorpusCount(a, caseSensitive, w) == CorpusCount(b, caseSensitive, w)
    decreases |a|
  {
    if a != [] {
      var n := |a| - 1;
      var x := a[n];
      assert a == a[..n] + [x];
      assert x in multiset(b);
      var j :| 0 <= j < |b| && b[j] == x;
      assert b == b[..j] + [x] + b[j + 1..];
      var rest := b[..j] + b[j + 1..];
      assert multiset(a) == multiset(a[..n]) + multiset{x};
      assert multiset(b) == multiset(b[..j]) + multiset{x} + multiset(b[j + 1..]);
      assert multiset(a[..n]) == multiset(a) - multiset{x};
      assert multiset(rest) == multiset(b) - multiset{x};
      CorpusCountPermutation(a[..n], rest, caseSensitive, w);
      CorpusCountAppend(b[..j] + [x], b[j + 1..], caseSensitive, w);
      CorpusCountAppend(b[..j], [x], caseSensitive, w);
      CorpusCountAppend(b[..j], b[j + 1..], caseSensitive, w);
      var none: seq<Entry> := [];
      assert [x][..0] == none;
    }
  }
}
