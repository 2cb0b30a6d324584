/**
 The text handling both counters rely on: `str.split()` with no argument
 (split on runs of whitespace, drop empty pieces), iterating over an open
 text file line by line, and `str.lower()` restricted to ASCII letters.
 */
module Text {
  import opened Seqs

  /** The characters `str.split()` with no argument treats as separators. */
  predicate IsSpace(c: char)
  {
    var n := c as int;
    || n == 0x20 || 0x09 <= n <= 0x0D || 0x1C <= n <= 0x1F || n == 0x85 || n == 0xA0
    || n == 0x1680 || 0x2000 <= n <= 0x200A || n == 0x2028 || n == 0x2029
    || n == 0x202F || n == 0x205F || n == 0x3000
  }

  predicate NoSpace(s: string)
  {
    forall i :: 0 <= i < |s| ==> !IsSpace(s[i])
  }

  /** What `str.split()` can produce: a non-empty run of non-whitespace characters. */
  predicate IsWord(t: string)
  {
    |t| > 0 && NoSpace(t)
  }

  /** The token being read so far, if there is one. */
  function Flush(cur: string): seq<string>
  {
    if cur == [] then [] else [cur]
  }

  /** The tokens of `s` when `cur` holds the part of a token read just before `s`. */
  function SplitFrom(s: string, cur: string): (r: seq<string>)
    decreases |s|
    ensures NoSpace(cur) ==> forall k :: 0 <= k < |r| ==> IsWord(r[k])
  {
    if s == [] then Flush(cur)
    else if IsSpace(s[0]) then Flush(cur) + SplitFrom(s[1..], [])
    else SplitFrom(s[1..], cur + [s[0]])
  }

  /** `s.split()`. */
  function Split(s: string): (r: seq<string>)
    ensures forall k :: 0 <= k < |r| ==> IsWord(r[k])
  {
    SplitFrom(s, [])
  }

  /** Words joined by single spaces: the text whose split gives those words back. */
  function Join(ws: seq<string>): string
  {
    if ws == [] then []
    else if |ws| == 1 then ws[0]
    else ws[0] + " " + Join(ws[1..])
  }

  /** Reading a run of non-whitespace characters only extends the current token. */
  lemma {:induction false} SplitFromWord(w: string, s: string, cur: string)
    requires NoSpace(w)
    ensures SplitFrom(w + s, cur) == SplitFrom(s, cur + w)
  {
    if w != [] {
      assert (w + s)[0] == w[0] && (w + s)[1..] == w[1..] + s;
      SplitFromWord(w[1..], s, cur + [w[0]]);
      assert cur + [w[0]] + w[1..] == cur + w;
    } else {
      assert w + s == s && cur + w == cur;
    }
  }

  /** Splitting is the inverse of joining with spaces: `split` recovers every list of words. */
  lemma {:induction false} SplitJoin(ws: seq<string>)
    requires forall k :: 0 <= k < |ws| ==> IsWord(ws[k])
    ensures Split(Join(ws)) == ws
  {
    if |ws| == 1 {
      SplitFromWord(ws[0], [], []);
      assert ws[0] + [] == ws[0] && [] + ws[0] == ws[0];
    } else if |ws| > 1 {
      var rest := Join(ws[1..]);
      assert ws[0] + " " + rest == ws[0] + (" " + rest);
      SplitFromWord(ws[0], " " + rest, []);
      assert [] + ws[0] == ws[0];
      assert (" " + rest)[1..] == rest;
      assert IsSpace((" " + rest)[0]);
      SplitJoin(ws[1..]);
      assert ws == [ws[0]] + ws[1..];
    }
  }

  /** Text that ends in whitespace ends the token being read, so what follows splits on its own. */
  lemma {:induction false} SplitFromAppend(a: string, b: string, cur: string)
    requires a != [] && IsSpace(a[|a| - 1])
    ensures SplitFrom(a + b, cur) == SplitFrom(a, cur) + Split(b)
    decreases |a|
  {
    assert (a + b)[0] == a[0] && (a + b)[1..] == a[1..] + b;
    if |a| == 1 {
      assert a[1..] + b == b;
    } else if IsSpace(a[0]) {
      SplitFromAppend(a[1..], b, []);
    } else {
      SplitFromAppend(a[1..], b, cur + [a[0]]);
    }
  }

  predicate EndsInNewline(line: string)
  {
    |line| > 0 && line[|line| - 1] == '\n'
  }

  /** How a file iterator cuts text: every line but the last ends in a newline, and no line is empty. */
  predicate IsLineCut(ls: seq<string>)
  {
    && (forall i :: 0 <= i < |ls| ==> |ls[i]| > 0)
    && (forall i :: 0 <= i < |ls| - 1 ==> EndsInNewline(ls[i]))
  }

  /** No character of `s` is a newline. */
  predicate NoNewline(s: string)
  {
    forall k :: 0 <= k < |s| ==> s[k] != '\n'
  }

  /** The lines of `s` when `cur` holds the part of a line read just before `s`. */
  function LinesFrom(s: string, cur: string): (r: seq<string>)
    decreases |s|
    ensures Flatten(r) == cur + s
    ensures IsLineCut(r)
    ensures NoNewline(cur) ==> forall i :: 0 <= i < |r| ==> NoNewline(r[i][..|r[i]| - 1])
  {
    if s == [] then Flush(cur)
    else if s[0] == '\n' then
      var rest := LinesFrom(s[1..], []);
      FlattenCons(cur + "\n", rest);
      assert cur + "\n" + s[1..] == cur + s;
      [cur + "\n"] + rest
    else
      assert cur + [s[0]] + s[1..] == cur + s;
      LinesFrom(s[1..], cur + [s[0]])
  }

  /** `for line in f`: the lines of an open text file, each keeping its newline. */
  function Lines(s: string): (r: seq<string>)
    ensures r == [] <==> s == []
  {
    var ls := LinesFrom(s, []);
    assert ls != [] ==> Flatten(ls) == Flatten(ls[..|ls| - 1]) + ls[|ls| - 1];
    ls
  }

  /** The tokens of a file read line by line: the tokens of each line, in order. */
  function Tokens(lines: seq<string>): seq<string>
  {
    if lines == [] then [] else Tokens(lines[..|lines| - 1]) + Split(lines[|lines| - 1])
  }

  /** Tokenising line by line is additive over the lines. */
  lemma {:induction false} TokensAppend(a: seq<string>, b: seq<string>)
    ensures Tokens(a + b) == Tokens(a) + Tokens(b)
    decreases |b|
  {
    if b == [] {
      assert a + b == a;
    } else {
      var n := |b| - 1;
      assert (a + b)[..|a| + n] == a + b[..n];
      assert (a + b)[|a| + n] == b[n];
      TokensAppend(a, b[..n]);
      assert Tokens(a + b) == Tokens(a + b[..n]) + Split(b[n]);
      assert Tokens(b) == Tokens(b[..n]) + Split(b[n]);
    }
  }

  /** Splitting the whole text once gives the same tokens as splitting each line of a cut of it. */
  lemma {:induction false} SplitFlatten(ls: seq<string>)
    requires IsLineCut(ls)
    ensures Split(Flatten(ls)) == Tokens(ls)
    decreases |ls|
  {
    if ls != [] {
      var n := |ls| - 1;
      var init := ls[..n];
      assert IsLineCut(init);
      SplitFlatten(init);
      assert Flatten(ls) == Flatten(init) + ls[n];
      if n > 0 {
        FlattenEndsWithLast(init);
        SplitFromAppend(Flatten(init), ls[n], []);
      } else {
        assert Flatten(init) + ls[n] == ls[n];
      }
    }
  }

  /** A concatenation ends with the last character of its last, non-empty piece. */
  lemma FlattenEndsWithLast(ls: seq<string>)
    requires ls != [] && |ls[|ls| - 1]| > 0
    ensures |Flatten(ls)| > 0 && Flatten(ls)[|Flatten(ls)| - 1] == ls[|ls| - 1][|ls[|ls| - 1]| - 1]
  {
    assert Flatten(ls) == Flatten(ls[..|ls| - 1]) + ls[|ls| - 1];
  }

  /** Reading a file line by line and splitting each line yields the tokens of `f.read().split()`. */
  lemma SplitLines(s: string)
    ensures Tokens(Lines(s)) == Split(s)
  {
    SplitFlatten(Lines(s));
    assert [] + s == s;
  }

  function LowerChar(c: char): char
  {
    if 'A' <= c <= 'Z' then (c as int - 'A' as int + 'a' as int) as char else c
  }

  /** `w.lower()` on ASCII letters; every other character is kept. */
  function Lower(w: string): (r: string)
    ensures |r| == |w|
    ensures forall i :: 0 <= i < |r| ==> !('A' <= r[i] <= 'Z')
    ensures forall i :: 0 <= i < |r| ==> (IsSpace(r[i]) <==> IsSpace(w[i]))
  {
    seq(|w|, i requires 0 <= i < |w| => LowerChar(w[i]))
  }

  /** Lower-casing a token gives a token, and lower-casing twice changes nothing further. */
  lemma LowerWord(t: string)
    ensures IsWord(t) ==> IsWord(Lower(t))
    ensures Lower(Lower(t)) == Lower(t)
  {
  }

  /** The tokens as the counter compares them: lower-cased unless the match is case-sensitive. */
  function Normalize(ws: seq<string>, caseSensitive: bool): (r: seq<string>)
    ensures |r| == |ws|
    ensures forall i :: 0 <= i < |r| ==> (IsWord(r[i]) <==> IsWord(ws[i]))
  {
    if caseSensitive then ws else seq(|ws|, i requires 0 <= i < |ws| => Lower(ws[i]))
  }

  lemma NormalizeAppend(a: seq<string>, b: seq<string>, caseSensitive: bool)
    ensures Normalize(a + b, caseSensitive) == Normalize(a, caseSensitive) + Normalize(b, caseSensitive)
  {
  }
}
