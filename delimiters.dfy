/** The two word delimiters and the Python string operations the converters
    apply to them: single-character `replace`, the pair-collapsing
    `replace(c + c, c)`, and `strip("-_")`. */
module Delimiters {

  const KEBAB: char := '-'
  const TAIL: char := '_'

  predicate IsDelim(c: char) { c == KEBAB || c == TAIL }

  /** `s.replace(from, to)` for one-character arguments. */
  function ReplaceChar(s: string, from: char, to: char): (r: string)
    ensures |r| == |s|
    ensures from != to ==> from !in r
  {
    seq(|s|, i requires 0 <= i < |s| => if s[i] == from then to else s[i])
  }

  /** `s.replace(c + c, c)`: occurrences of the pair are found left to right
      and do not overlap, so a run of k copies of `c` becomes (k + 1) / 2 copies. */
  function CollapsePairs(s: string, c: char): (r: string)
    ensures |r| <= |s|
    ensures |s| > 0 ==> |r| > 0 && r[0] == s[0] && r[|r| - 1] == s[|s| - 1]
    decreases |s|
  {
    if s == [] then []
    else if |s| >= 2 && s[0] == c && s[1] == c then [c] + CollapsePairs(s[2..], c)
    else [s[0]] + CollapsePairs(s[1..], c)
  }

  /** Collapsing pairs never introduces a character. */
  lemma {:induction false} CollapseAddsNothing(s: string, c: char, x: char)
    requires x !in s
    ensures x !in CollapsePairs(s, c)
    decreases |s|
  {
    if s != [] {
      CollapseStep(s, c);
      if |s| >= 2 && s[0] == c && s[1] == c {
        assert forall y :: y in s[2..] ==> y in s;
        CollapseAddsNothing(s[2..], c, x);
      } else {
        assert forall y :: y in s[1..] ==> y in s;
        CollapseAddsNothing(s[1..], c, x);
      }
    }
  }

  /** The source always applies the pair replacement twice in a row. */
  function CollapseTwice(s: string, c: char): string
  {
    CollapsePairs(CollapsePairs(s, c), c)
  }

  /** Leading half of `strip("-_")`. */
  function DropLeading(s: string): (r: string)
    ensures |r| <= |s| && r == s[|s| - |r|..]
    ensures forall i :: 0 <= i < |s| - |r| ==> IsDelim(s[i])
    ensures r == [] || !IsDelim(r[0])
  {
    if s != [] && IsDelim(s[0]) then DropLeading(s[1..]) else s
  }

  /** Trailing half of `strip("-_")`. */
  function DropTrailing(s: string): (r: string)
    ensures |r| <= |s| && r == s[..|r|]
    ensures forall i :: |r| <= i < |s| ==> IsDelim(s[i])
    ensures r == [] || !IsDelim(r[|r| - 1])
  {
    if s != [] && IsDelim(s[|s| - 1]) then DropTrailing(s[..|s| - 1]) else s
  }

  /** The characters of `s` that are not delimiters, in order. */
  function NonDelims(s: string): string
  {
    if s == [] then [] else (if IsDelim(s[0]) then [] else [s[0]]) + NonDelims(s[1..])
  }

  lemma {:induction false} NonDelimsAppend(a: string, b: string)
    ensures NonDelims(a + b) == NonDelims(a) + NonDelims(b)
  {
    if a == [] {
      assert a + b == b;
    } else {
      assert (a + b)[0] == a[0];
      assert (a + b)[1..] == a[1..] + b;
      NonDelimsAppend(a[1..], b);
    }
  }

  lemma {:induction false} NonDelimsOfDelims(s: string)
    requires forall i :: 0 <= i < |s| ==> IsDelim(s[i])
    ensures NonDelims(s) == []
  {
    if s != [] {
      NonDelimsOfDelims(s[1..]);
    }
  }

  /** `s.strip("-_")`: no delimiter is left at either end. */
  function Strip(s: string): (r: string)
    ensures r == [] || (!IsDelim(r[0]) && !IsDelim(r[|r| - 1]))
  {
    var a := DropLeading(s);
    var r := DropTrailing(a);
    assert r != [] ==> r[0] == a[0];
    r
  }

  lemma DropLeadingKeeps(s: string)
    ensures NonDelims(DropLeading(s)) == NonDelims(s)
    ensures forall x :: x in DropLeading(s) ==> x in s
  {
    var r := DropLeading(s);
    var d := s[..|s| - |r|];
    assert s == d + r;
    NonDelimsOfDelims(d);
    NonDelimsAppend(d, r);
  }

  lemma DropTrailingKeeps(s: string)
    ensures NonDelims(DropTrailing(s)) == NonDelims(s)
    ensures forall x :: x in DropTrailing(s) ==> x in s
  {
    var r := DropTrailing(s);
    var d := s[|r|..];
    assert s == r + d;
    NonDelimsOfDelims(d);
    NonDelimsAppend(r, d);
  }

  /** `strip` removes only delimiters: every other character of `s` is still
      there, in order, and nothing new appears. */
  lemma StripKeeps(s: string)
    ensures NonDelims(Strip(s)) == NonDelims(s)
    ensures forall x :: x in Strip(s) ==> x in s
  {
    DropLeadingKeeps(s);
    DropTrailingKeeps(DropLeading(s));
  }

  /** Collapsing pairs of a delimiter removes only copies of that delimiter. */
  lemma {:induction false} CollapseKeepsNonDelims(s: string, c: char)
    requires IsDelim(c)
    ensures NonDelims(CollapsePairs(s, c)) == NonDelims(s)
    decreases |s|
  {
    if s == [] {
    } else if |s| >= 2 && s[0] == c && s[1] == c {
      CollapseKeepsNonDelims(s[2..], c);
      assert s == [s[0]] + ([s[1]] + s[2..]);
      NonDelimsAppend([s[0]], [s[1]] + s[2..]);
      NonDelimsAppend([s[1]], s[2..]);
      NonDelimsAppend([c], CollapsePairs(s[2..], c));
    } else {
      CollapseKeepsNonDelims(s[1..], c);
      assert s == [s[0]] + s[1..];
      NonDelimsAppend([s[0]], s[1..]);
      NonDelimsAppend([s[0]], CollapsePairs(s[1..], c));
    }
  }

  /** `k` copies of `c`. */
  function Run(c: char, k: nat): (r: string)
    ensures |r| == k && forall i :: 0 <= i < k ==> r[i] == c
  {
    seq(k, i => c)
  }

  /** No pair of `c` straddles the boundary between `a` and `b`. */
  predicate CleanJoin(a: string, b: string, c: char)
  {
    a == [] || b == [] || a[|a| - 1] != c || b[0] != c
  }

  lemma SliceOfAppend(a: string, b: string, n: nat)
    requires n <= |a|
    ensures (a + b)[..n] == a[..n] && (a + b)[n..] == a[n..] + b
  {
  }

  lemma AppendAssoc(x: string, y: string, z: string)
    ensures x + (y + z) == (x + y) + z
  {
  }

  /** One step of `CollapsePairs` on a non-empty string. */
  lemma CollapseStep(s: string, c: char)
    requires s != []
    ensures |s| >= 2 && s[0] == c && s[1] == c ==> CollapsePairs(s, c) == [c] + CollapsePairs(s[2..], c)
    ensures !(|s| >= 2 && s[0] == c && s[1] == c) ==> CollapsePairs(s, c) == [s[0]] + CollapsePairs(s[1..], c)
  {
  }

  /** Pair collapsing works piecewise when no pair straddles the join. */
  lemma {:induction false} CollapseSplit(a: string, b: string, c: char)
    requires CleanJoin(a, b, c)
    ensures CollapsePairs(a + b, c) == CollapsePairs(a, c) + CollapsePairs(b, c)
    decreases |a|, 1
  {
    if a == [] {
      assert a + b == b;
    } else if |a| >= 2 && a[0] == c && a[1] == c {
      CollapseSplitStep(a, b, c, 2, [c]);
    } else {
      CollapseSplitStep(a, b, c, 1, [a[0]]);
    }
  }

  /** One step of `CollapseSplit`: `a` starts with `n` characters that collapse
      to `head`, and the rest of `a` is split by the induction hypothesis. */
  lemma {:induction false} CollapseSplitStep(a: string, b: string, c: char, n: nat, head: string)
    requires CleanJoin(a, b, c) && 1 <= n <= |a|
    requires n == 2 ==> a[0] == c && a[1] == c && head == [c]
    requires n == 1 ==> !(|a| >= 2 && a[0] == c && a[1] == c) && head == [a[0]]
    requires n <= 2
    ensures CollapsePairs(a + b, c) == CollapsePairs(a, c) + CollapsePairs(b, c)
    decreases |a|, 0
  {
    var ab := a + b;
    CollapseStep(ab, c);
    CollapseStep(a, c);
    SliceOfAppend(a, b, n);
    assert a[n..] == [] || a[n..][|a[n..]| - 1] == a[|a| - 1];
    CollapseSplit(a[n..], b, c);
    assert CollapsePairs(ab, c) == head + CollapsePairs(a[n..] + b, c);
    assert CollapsePairs(a, c) == head + CollapsePairs(a[n..], c);
    AppendAssoc(head, CollapsePairs(a[n..], c), CollapsePairs(b, c));
  }

  /** A run of k copies collapses to (k + 1) / 2 copies. */
  lemma {:induction false} CollapseRun(c: char, k: nat)
    ensures CollapsePairs(Run(c, k), c) == Run(c, (k + 1) / 2)
    decreases k
  {
    if k >= 2 {
      assert Run(c, k)[2..] == Run(c, k - 2);
      CollapseRun(c, k - 2);
      assert [c] + Run(c, (k - 1) / 2) == Run(c, (k + 1) / 2);
    } else if k == 1 {
      assert Run(c, k)[1..] == [];
    }
  }

  /** Collapsing twice also works piecewise across a clean join. */
  lemma CollapseTwiceSplit(a: string, b: string, c: char)
    requires CleanJoin(a, b, c)
    ensures CollapseTwice(a + b, c) == CollapseTwice(a, c) + CollapseTwice(b, c)
  {
    CollapseSplit(a, b, c);
    CollapseSplit(CollapsePairs(a, c), CollapsePairs(b, c), c);
  }

  /** A maximal run of k >= 1 copies of `c` becomes (k + 3) / 4 copies after two
      collapsing passes, and the text on either side is collapsed on its own.
      Runs of one to four become a single delimiter; a run of five or more does not. */
  lemma CollapseTwiceRun(x: string, k: nat, y: string, c: char)
    requires k >= 1
    requires x == [] || x[|x| - 1] != c
    requires y == [] || y[0] != c
    ensures CollapseTwice(x + Run(c, k) + y, c)
         == CollapseTwice(x, c) + Run(c, (k + 3) / 4) + CollapseTwice(y, c)
  {
    var r := Run(c, k);
    RunJoins(x, k, y, c);
    CollapseTwiceSplit(x, r + y, c);
    CollapseTwiceSplit(r, y, c);
    CollapseTwiceOfRun(c, k);
    AppendAssoc(CollapseTwice(x, c), CollapseTwice(r, c), CollapseTwice(y, c));
  }

  /** A run bordered by other characters joins its neighbours cleanly. */
  lemma RunJoins(x: string, k: nat, y: string, c: char)
    requires k >= 1
    requires x == [] || x[|x| - 1] != c
    requires y == [] || y[0] != c
    ensures x + Run(c, k) + y == x + (Run(c, k) + y)
    ensures CleanJoin(x, Run(c, k) + y, c) && CleanJoin(Run(c, k), y, c)
  {
    var r := Run(c, k);
    AppendAssoc(x, r, y);
    SliceOfAppend(r, y, 1);
  }

  lemma CollapseTwiceOfRun(c: char, k: nat)
    ensures CollapseTwice(Run(c, k), c) == Run(c, (k + 3) / 4)
  {
    CollapseRun(c, k);
    CollapseRun(c, (k + 1) / 2);
  }

  /** Collapsing runs of `c` leaves a run of another character untouched. */
  lemma {:induction false} CollapseOtherRun(d: char, k: nat, c: char)
    requires d != c
    ensures CollapsePairs(Run(d, k), c) == Run(d, k)
    decreases k
  {
    if k > 0 {
      assert Run(d, k)[1..] == Run(d, k - 1);
      CollapseOtherRun(d, k - 1, c);
      assert [d] + Run(d, k - 1) == Run(d, k);
    }
  }
}
