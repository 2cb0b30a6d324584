/** Lists of lists: the shape of the work chunks handed to the workers. */
module Seqs {

  /** The concatenation of a list of lists, in order. */
  function Flatten<T>(c: seq<seq<T>>): seq<T>
  {
    if c == [] then [] else Flatten(c[..|c| - 1]) + c[|c| - 1]
  }

  /** An element is in the flattened list exactly when it is in one of the lists. */
  lemma {:induction false} FlattenMember<T>(c: seq<seq<T>>, x: T)
    ensures x in Flatten(c) <==> exists k :: 0 <= k < |c| && x in c[k]
  {
    if c != [] {
      var n := |c| - 1;
      FlattenMember(c[..n], x);
      assert x in Flatten(c) <==> x in Flatten(c[..n]) || x in c[n];
      if x in Flatten(c[..n]) {
        var k :| 0 <= k < n && x in c[..n][k];
        assert x in c[k];
      }
    }
  }

  /** Appending one element to one of the lists adds exactly that element to the flattened whole. */
  lemma {:induction false} FlattenAppendAt<T>(c: seq<seq<T>>, k: nat, x: T)
    requires k < |c|
    ensures multiset(Flatten(c[k := c[k] + [x]])) == multiset(Flatten(c)) + multiset{x}
  {
    var n := |c| - 1;
    var c' := c[k := c[k] + [x]];
    assert Flatten(c) == Flatten(c[..n]) + c[n];
    assert Flatten(c') == Flatten(c'[..n]) + c'[n];
    if k == n {
      assert c'[..n] == c[..n];
      assert c'[n] == c[n] + [x];
    } else {
      assert c'[..n] == c[..n][k := c[k] + [x]];
      assert c'[n] == c[n];
      FlattenAppendAt(c[..n], k, x);
    }
  }

  /** Flattening a list with one more list in front puts that list's elements in front. */
  lemma {:induction false} FlattenCons<T>(x: seq<T>, c: seq<seq<T>>)
    ensures Flatten([x] + c) == x + Flatten(c)
    decreases |c|
  {
    if c == [] {
      assert Flatten([x]) == Flatten([x][..0]) + x;
      assert [x][..0] == [];
    } else {
      var n := |c| - 1;
      assert ([x] + c)[..n + 1] == [x] + c[..n];
      FlattenCons(x, c[..n]);
    }
  }

  /** A list of empty lists flattens to nothing. */
  lemma {:induction false} FlattenEmpties<T>(c: seq<seq<T>>)
    requires forall k :: 0 <= k < |c| ==> c[k] == []
    ensures Flatten(c) == []
  {
    if c != [] {
      FlattenEmpties(c[..|c| - 1]);
    }
  }
}
