/**
 The parts of Python's `collections.Counter` the two programs use: looking a
 word up (missing words count 0), building a counter from a list of tokens,
 `update` with another counter, the `+` operator, and `most_common(n)`.
 A counter is a finite map from words to natural counts.
 */
module Counter {
  import opened Seqs

  type CountMap = map<string, nat>

  /** `c[w]`: a word the counter has never seen counts 0. */
  function Get(m: CountMap, w: string): nat
  {
    if w in m then m[w] else 0
  }

  /** Every stored count is at least 1, as in every counter the programs build. */
  predicate Positive(m: CountMap)
  {
    forall w :: w in m ==> m[w] >= 1
  }

  /** Two counters without zero entries are equal when they agree on every word. */
  lemma EqualByGet(a: CountMap, b: CountMap)
    requires Positive(a) && Positive(b)
    requires forall w :: Get(a, w) == Get(b, w)
    ensures a == b
  {
    forall w ensures w in a <==> w in b {
      assert Get(a, w) == Get(b, w);
    }
    forall w | w in a ensures a[w] == b[w] {
      assert Get(a, w) == Get(b, w);
    }
  }

  /** `Counter(ws)`: each word of `ws` mapped to how often it occurs there. */
  function Tally(ws: seq<string>): (r: CountMap)
    ensures Positive(r)
    ensures forall w :: Get(r, w) == multiset(ws)[w]
  {
    map w | w in ws :: multiset(ws)[w]
  }

  /** `a.update(b)`: add `b`'s counts to `a`'s, keeping every key of either. */
  function Update(a: CountMap, b: CountMap): (r: CountMap)
    ensures Positive(a) && Positive(b) ==> Positive(r)
  {
    map w | w in a.Keys + b.Keys :: Get(a, w) + Get(b, w)
  }

  /** `a + b`: add the counts and keep only the words whose sum is positive. */
  function Add(a: CountMap, b: CountMap): (r: CountMap)
    ensures Positive(r)
  {
    map w | w in a.Keys + b.Keys && Get(a, w) + Get(b, w) > 0 :: Get(a, w) + Get(b, w)
  }

  /** `update` adds pointwise and keeps the keys of both sides. */
  lemma UpdateAt(a: CountMap, b: CountMap)
    ensures forall w :: Get(Update(a, b), w) == Get(a, w) + Get(b, w)
    ensures Update(a, b).Keys == a.Keys + b.Keys
    ensures Positive(a) && Positive(b) ==> Positive(Update(a, b))
  {
  }

  /** `+` adds pointwise and never stores a zero. */
  lemma AddAt(a: CountMap, b: CountMap)
    ensures forall w :: Get(Add(a, b), w) == Get(a, w) + Get(b, w)
    ensures Positive(Add(a, b))
  {
  }

  /** On counters without zero entries, `+` and `update` agree: `+` only drops non-positive sums. */
  lemma UpdateIsAdd(a: CountMap, b: CountMap)
    requires Positive(a) && Positive(b)
    ensures Update(a, b) == Add(a, b)
  {
    UpdateAt(a, b);
    AddAt(a, b);
    EqualByGet(Update(a, b), Add(a, b));
  }

  /** `+` is commutative. */
  lemma AddCommutes(a: CountMap, b: CountMap)
    ensures Add(a, b) == Add(b, a)
  {
    AddAt(a, b);
    AddAt(b, a);
    EqualByGet(Add(a, b), Add(b, a));
  }

  /** `+` is associative. */
  lemma AddAssociates(a: CountMap, b: CountMap, c: CountMap)
    ensures Add(Add(a, b), c) == Add(a, Add(b, c))
  {
    AddAt(a, b);
    AddAt(Add(a, b), c);
    AddAt(b, c);
    AddAt(a, Add(b, c));
    EqualByGet(Add(Add(a, b), c), Add(a, Add(b, c)));
  }

  /** The empty counter is the identity of `+` on counters without zeros. */
  lemma AddIdentity(a: CountMap)
    requires Positive(a)
    ensures Add(map[], a) == a
  {
    AddAt(map[], a);
    EqualByGet(Add(map[], a), a);
  }

  /** `update` is commutative. */
  lemma UpdateCommutes(a: CountMap, b: CountMap)
    ensures Update(a, b) == Update(b, a)
  {
    UpdateAt(a, b);
    UpdateAt(b, a);
  }

  /** `update` is associative, with the empty counter as identity. */
  lemma UpdateAssociates(a: CountMap, b: CountMap, c: CountMap)
    ensures Update(Update(a, b), c) == Update(a, Update(b, c))
    ensures Update(map[], a) == a
  {
    UpdateAt(a, b);
    UpdateAt(Update(a, b), c);
    UpdateAt(b, c);
    UpdateAt(a, Update(b, c));
    UpdateAt(map[], a);
  }

  /** The sum of the counts of `w` over a list of counters. */
  function SumAt(cs: seq<CountMap>, w: string): nat
  {
    if cs == [] then 0 else SumAt(cs[..|cs| - 1], w) + Get(cs[|cs| - 1], w)
  }

  lemma {:induction false} SumAtAppend(a: seq<CountMap>, b: seq<CountMap>, w: string)
    ensures SumAt(a + b, w) == SumAt(a, w) + SumAt(b, w)
    decreases |b|
  {
    if b == [] {
      assert a + b == a;
    } else {
      var n := |b| - 1;
      assert (a + b)[..|a| + n] == a + b[..n];
      SumAtAppend(a, b[..n], w);
    }
  }

  /** Summing over a list does not depend on the order of the list. */
  lemma {:induction false} SumAtPermutation(a: seq<CountMap>, b: seq<CountMap>, w: string)
    requires multiset(a) == multiset(b)
    ensures SumAt(a, w) == SumAt(b, w)
    decreases |a|
  {
    if a != [] {
      var n := |a| - 1;
      var x := a[n];
      assert a == a[..n] + [x];
      assert x in multiset(b);
      var j :| 0 <= j < |b| && b[j] == x;
      assert b == b[..j] + [x] + b[j + 1..];
      var rest := b[..j] + b[j + 1..];
      assert multiset(a) == multiset(a[..n]) + multiset{x};
      assert multiset(b) == multiset(b[..j]) + multiset{x} + multiset(b[j + 1..]);
      assert multiset(rest) == multiset(b[..j]) + multiset(b[j + 1..]);
      assert multiset(a[..n]) == multiset(a) - multiset{x};
      assert multiset(rest) == multiset(b) - multiset{x};
      SumAtPermutation(a[..n], rest, w);
      SumAtAppend(b[..j] + [x], b[j + 1..], w);
      SumAtAppend(b[..j], [x], w);
      SumAtAppend(b[..j], b[j + 1..], w);
      assert SumAt([x], w) == Get(x, w) by {
        var none: seq<CountMap> := [];
        assert [x][..0] == none;
      }
    }
  }

  /** What `merge_counters` computes: `update` with each counter in turn, from an empty one. */
  function Merged(cs: seq<CountMap>): (r: CountMap)
    ensures forall w :: Get(r, w) == SumAt(cs, w)
    ensures (forall c :: c in cs ==> Positive(c)) ==> Positive(r)
  {
    if cs == [] then map[]
    else
      var init := cs[..|cs| - 1];
      UpdateAt(Merged(init), cs[|cs| - 1]);
      assert forall c :: c in cs <==> c in init || c == cs[|cs| - 1] by {
        assert cs == init + [cs[|cs| - 1]];
      }
      Update(Merged(init), cs[|cs| - 1])
  }

  /** A word is a key of the merge exactly when it is a key of one of the counters. */
  lemma {:induction false} MergedKeys(cs: seq<CountMap>, w: string)
    ensures w in Merged(cs) <==> exists c :: c in cs && w in c
  {
    if cs != [] {
      var init := cs[..|cs| - 1];
      MergedKeys(init, w);
      UpdateAt(Merged(init), cs[|cs| - 1]);
      assert forall c :: c in cs <==> c in init || c == cs[|cs| - 1] by {
        assert cs == init + [cs[|cs| - 1]];
      }
    }
  }

  /** Merging does not depend on the order of the counters. */
  lemma MergedPermutation(a: seq<CountMap>, b: seq<CountMap>)
    requires multiset(a) == multiset(b)
    ensures Merged(a) == Merged(b)
  {
    var ma, mb := Merged(a), Merged(b);
    forall w ensures w in ma <==> w in mb {
      MergedKeys(a, w);
      MergedKeys(b, w);
      if w in ma {
        var c :| c in a && w in c;
        assert c in multiset(a);
      }
      if w in mb {
        var c :| c in b && w in c;
        assert c in multiset(b);
      }
    }
    forall w | w in ma ensures ma[w] == mb[w] {
      SumAtPermutation(a, b, w);
      assert Get(ma, w) == Get(mb, w);
    }
  }

  /** Merging each group of counters, in order. */
  function MergeEach(parts: seq<seq<CountMap>>): (r: seq<CountMap>)
    ensures |r| == |parts|
    ensures forall k :: 0 <= k < |parts| ==> r[k] == Merged(parts[k])
  {
    if parts == [] then [] else MergeEach(parts[..|parts| - 1]) + [Merged(parts[|parts| - 1])]
  }

  lemma {:induction false} SumAtMergeEach(parts: seq<seq<CountMap>>, w: string)
    ensures SumAt(MergeEach(parts), w) == SumAt(Flatten(parts), w)
    decreases |parts|
  {
    if parts != [] {
      var n := |parts| - 1;
      SumAtMergeEach(parts[..n], w);
      assert MergeEach(parts)[..n] == MergeEach(parts[..n]);
      SumAtAppend(Flatten(parts[..n]), parts[n], w);
    }
  }

  /** Merging the merges of groups equals merging all the counters at once. */
  lemma MergedTwoLevel(parts: seq<seq<CountMap>>)
    ensures Merged(MergeEach(parts)) == Merged(Flatten(parts))
  {
    var lhs, rhs := Merged(MergeEach(parts)), Merged(Flatten(parts));
    forall w ensures w in lhs <==> w in rhs {
      MergedTwoLevelKey(parts, w);
    }
    assert lhs.Keys == rhs.Keys;
    forall w | w in lhs ensures lhs[w] == rhs[w] {
      SumAtMergeEach(parts, w);
      assert lhs[w] == Get(lhs, w) == SumAt(MergeEach(parts), w);
      assert rhs[w] == Get(rhs, w) == SumAt(Flatten(parts), w);
    }
  }

  lemma MergedTwoLevelKey(parts: seq<seq<CountMap>>, w: string)
    ensures w in Merged(MergeEach(parts)) <==> w in Merged(Flatten(parts))
  {
    var each := MergeEach(parts);
    MergedKeys(each, w);
    MergedKeys(Flatten(parts), w);
    if w in Merged(each) {
      var m :| m in each && w in m;
      var k :| 0 <= k < |each| && each[k] == m;
      MergedKeys(parts[k], w);
      var c :| c in parts[k] && w in c;
      FlattenMember(parts, c);
      assert c in Flatten(parts);
    }
    if w in Merged(Flatten(parts)) {
      var c :| c in Flatten(parts) && w in c;
      FlattenMember(parts, c);
      var k :| 0 <= k < |parts| && c in parts[k];
      MergedKeys(parts[k], w);
      assert w in each[k] && each[k] in each;
    }
  }

  /** A fold with `+` starting from an empty counter, taking the counters in turn. */
  function FoldAdd(cs: seq<CountMap>): (r: CountMap)
    ensures Positive(r)
    ensures forall w :: Get(r, w) == SumAt(cs, w)
  {
    if cs == [] then map[]
    else
      AddAt(FoldAdd(cs[..|cs| - 1]), cs[|cs| - 1]);
      Add(FoldAdd(cs[..|cs| - 1]), cs[|cs| - 1])
  }

  /** Folding with `+` equals merging with `update` whenever no input stores a zero. */
  lemma FoldAddIsMerged(cs: seq<CountMap>)
    requires forall c :: c in cs ==> Positive(c)
    ensures FoldAdd(cs) == Merged(cs)
  {
    EqualByGet(FoldAdd(cs), Merged(cs));
  }

  /** The `+` fold does not depend on the order of the counters. */
  lemma FoldAddPermutation(a: seq<CountMap>, b: seq<CountMap>)
    requires multiset(a) == multiset(b)
    ensures FoldAdd(a) == FoldAdd(b)
  {
    forall w ensures Get(FoldAdd(a), w) == Get(FoldAdd(b), w) {
      SumAtPermutation(a, b, w);
    }
    EqualByGet(FoldAdd(a), FoldAdd(b));
  }

  /** Folding each group with `+`, in order. */
  function FoldEach(parts: seq<seq<CountMap>>): (r: seq<CountMap>)
    ensures |r| == |parts|
    ensures forall k :: 0 <= k < |parts| ==> r[k] == FoldAdd(parts[k])
  {
    if parts == [] then [] else FoldEach(parts[..|parts| - 1]) + [FoldAdd(parts[|parts| - 1])]
  }

  /** A fold of per-group folds (any one-level grouping a reduction tree uses) equals the flat fold. */
  lemma {:induction false} FoldAddTwoLevel(parts: seq<seq<CountMap>>)
    ensures FoldAdd(FoldEach(parts)) == FoldAdd(Flatten(parts))
  {
    forall w ensures Get(FoldAdd(FoldEach(parts)), w) == Get(FoldAdd(Flatten(parts)), w) {
      SumAtFoldEach(parts, w);
    }
    EqualByGet(FoldAdd(FoldEach(parts)), FoldAdd(Flatten(parts)));
  }

  lemma {:induction false} SumAtFoldEach(parts: seq<seq<CountMap>>, w: string)
    ensures SumAt(FoldEach(parts), w) == SumAt(Flatten(parts), w)
    decreases |parts|
  {
    if parts != [] {
      var n := |parts| - 1;
      SumAtFoldEach(parts[..n], w);
      assert FoldEach(parts)[..n] == FoldEach(parts[..n]);
      SumAtAppend(Flatten(parts[..n]), parts[n], w);
    }
  }

  /** The words listed in a ranking. */
  function RankedWords(top: seq<(string, nat)>): set<string>
  {
    set i | 0 <= i < |top| :: top[i].0
  }

  lemma RankedWordsAppend(top: seq<(string, nat)>, e: (string, nat))
    ensures RankedWords(top + [e]) == RankedWords(top) + {e.0}
  {
    var t := top + [e];
    assert forall i :: 0 <= i < |top| ==> t[i] == top[i];
    assert t[|top|] == e;
  }

  /**
   What `m.most_common(n)` returns, up to the order of equal counts: `min(n, |m|)`
   distinct entries of `m`, counts non-increasing, and no entry left out counts
   more than one listed.
   */
  ghost predicate IsMostCommon(m: CountMap, n: nat, top: seq<(string, nat)>)
  {
    && |top| == (if n < |m.Keys| then n else |m.Keys|)
    && (forall i :: 0 <= i < |top| ==> top[i].0 in m && m[top[i].0] == top[i].1)
    && (forall i, j :: 0 <= i < j < |top| ==> top[i].0 != top[j].0 && top[i].1 >= top[j].1)
    && (forall w, i :: w in m && w !in RankedWords(top) && 0 <= i < |top| ==> m[w] <= top[i].1)
  }

  /** A non-empty set of keys holds one whose count is largest. */
  lemma {:induction false} LargestExists(m: CountMap, keys: set<string>)
    requires keys != {} && keys <= m.Keys
    ensures exists w :: w in keys && forall v :: v in keys ==> m[v] <= m[w]
    decreases keys
  {
    var x :| x in keys;
    if keys != {x} {
      var rest := keys - {x};
      LargestExists(m, rest);
      var y :| y in rest && forall v :: v in rest ==> m[v] <= m[y];
      if m[x] <= m[y] {
        assert forall v :: v in keys ==> m[v] <= m[y];
      } else {
        assert forall v :: v in keys ==> m[v] <= m[x];
      }
    }
  }

  /**
   The state of `most_common` part way: `top` holds distinct entries of `m` in
   non-increasing order, `rest` the keys not yet taken, none of which counts more
   than a taken one.
   */
  ghost predicate RankedSoFar(m: CountMap, top: seq<(string, nat)>, rest: set<string>)
  {
    && rest <= m.Keys
    && |top| + |rest| == |m.Keys|
    && (forall i :: 0 <= i < |top| ==> top[i].0 in m && top[i].0 !in rest && m[top[i].0] == top[i].1)
    && (forall i, j :: 0 <= i < j < |top| ==> top[i].0 != top[j].0 && top[i].1 >= top[j].1)
    && (forall w, i :: w in rest && 0 <= i < |top| ==> m[w] <= top[i].1)
    && (forall w :: w in m && w !in rest ==> w in RankedWords(top))
  }

  /** Taking a largest remaining entry keeps the ranking. */
  lemma RankStep(m: CountMap, top: seq<(string, nat)>, rest: set<string>, w: string)
    requires RankedSoFar(m, top, rest)
    requires w in rest && forall v :: v in rest ==> m[v] <= m[w]
    ensures RankedSoFar(m, top + [(w, m[w])], rest - {w})
  {
    RankedWordsAppend(top, (w, m[w]));
    assert |rest - {w}| == |rest| - 1;
    RankStepEntries(m, top, rest, w);
    RankStepOrder(m, top, rest, w);
    RankStepBound(m, top, rest, w);
  }

  lemma RankStepEntries(m: CountMap, top: seq<(string, nat)>, rest: set<string>, w: string)
    requires forall i :: 0 <= i < |top| ==> top[i].0 in m && top[i].0 !in rest && m[top[i].0] == top[i].1
    requires w in rest && w in m
    ensures var top', rest' := top + [(w, m[w])], rest - {w};
      forall i :: 0 <= i < |top'| ==> top'[i].0 in m && top'[i].0 !in rest' && m[top'[i].0] == top'[i].1
  {
    var top', rest' := top + [(w, m[w])], rest - {w};
    forall i | 0 <= i < |top'|
      ensures top'[i].0 in m && top'[i].0 !in rest' && m[top'[i].0] == top'[i].1
    {
      if i < |top| { assert top'[i] == top[i]; }
    }
  }

  lemma RankStepOrder(m: CountMap, top: seq<(string, nat)>, rest: set<string>, w: string)
    requires rest <= m.Keys
    requires forall i :: 0 <= i < |top| ==> top[i].0 !in rest
    requires forall i, j :: 0 <= i < j < |top| ==> top[i].0 != top[j].0 && top[i].1 >= top[j].1
    requires forall v, i :: v in rest && 0 <= i < |top| ==> m[v] <= top[i].1
    requires w in rest && w in m
    ensures var top' := top + [(w, m[w])];
      forall i, j :: 0 <= i < j < |top'| ==> top'[i].0 != top'[j].0 && top'[i].1 >= top'[j].1
  {
    var top' := top + [(w, m[w])];
    forall i, j | 0 <= i < j < |top'|
      ensures top'[i].0 != top'[j].0 && top'[i].1 >= top'[j].1
    {
      assert top'[i] == top[i];
      if j < |top| { assert top'[j] == top[j]; }
    }
  }

  lemma RankStepBound(m: CountMap, top: seq<(string, nat)>, rest: set<string>, w: string)
    requires rest <= m.Keys
    requires forall v, i :: v in rest && 0 <= i < |top| ==> m[v] <= top[i].1
    requires w in rest && forall v :: v in rest ==> m[v] <= m[w]
    ensures var top', rest' := top + [(w, m[w])], rest - {w};
      forall v, i :: v in rest' && 0 <= i < |top'| ==> m[v] <= top'[i].1
  {
    var top', rest' := top + [(w, m[w])], rest - {w};
    forall v, i | v in rest' && 0 <= i < |top'|
      ensures m[v] <= top'[i].1
    {
      if i < |top| { assert top'[i] == top[i]; }
    }
  }

  /** When the loop stops, the ranking is what `most_common(n)` returns. */
  lemma RankDone(m: CountMap, n: nat, top: seq<(string, nat)>, rest: set<string>)
    requires RankedSoFar(m, top, rest) && |top| <= n
    requires |top| == n || rest == {}
    ensures IsMostCommon(m, n, top)
  {
  }

  /**
   `m.most_common(n)`: repeatedly take an entry of largest count among those not
   yet taken. Which of several equal counts comes first depends, in Python, on the
   counter's insertion order; here it is left open.
   */
  method MostCommon(m: CountMap, n: nat) returns (top: seq<(string, nat)>)
    ensures |top| == if n < |m.Keys| then n else |m.Keys|
    ensures forall i :: 0 <= i < |top| ==> top[i].0 in m && m[top[i].0] == top[i].1
    ensures forall i, j :: 0 <= i < j < |top| ==> top[i].0 != top[j].0 && top[i].1 >= top[j].1
    ensures forall w, i :: w in m && w !in RankedWords(top) && 0 <= i < |top| ==> m[w] <= top[i].1
    ensures IsMostCommon(m, n, top)
  {
    top := [];
    var rest := m.Keys;
    while |top| < n && rest != {}
      invariant |top| <= n
      invariant RankedSoFar(m, top, rest)
      decreases rest
    {
      LargestExists(m, rest);
      var w :| w in rest && forall v :: v in rest ==> m[v] <= m[w];
      RankStep(m, top, rest, w);
      top := top + [(w, m[w])];
      rest := rest - {w};
    }
    RankDone(m, n, top, rest);
  }
}
