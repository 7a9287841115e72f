/** The case converters of `converters.py`: `snake`, `kebab`, `camal` (the
    project's camelCase) and `pascal`, the generic `norm` cleanup and the
    `*_norm` variants that combine a converter with that cleanup.

    `snake`, `kebab` and `camal` are loops that append to an accumulator; they
    are methods here, each proved to compute a specification function
    (`SnakeOf`, `KebabOf`, `CamalOf`) whose properties are lemmas.
    The other converters are single expressions and are functions. */
module Converters {
  import opened Ascii
  import opened Delimiters

  /** The delimiter that `replace` turns into `d`. */
  function OtherDelim(d: char): char
    requires IsDelim(d)
  {
    if d == TAIL then KEBAB else TAIL
  }

  /** The character `s.replace(OtherDelim(d), d)` puts where `s` has `c`. */
  function Swap(c: char, d: char): char
    requires IsDelim(d)
  {
    if IsDelim(c) then d else c
  }

  // ---------------------------------------------------------------------------
  // snake and kebab

  /** Whether `snake`/`kebab` insert a delimiter before position `i`: the input
      does not start with a capital, `s[i]` is a capital, and `i` is neither the
      first nor the last position. */
  predicate SplitsBefore(s: string, i: nat)
    requires i < |s|
  {
    i != 0 && i != |s| - 1 && !IsUpper(s[0]) && IsUpper(s[i])
  }

  /** What one input position contributes to the output. */
  function Piece(s: string, d: char, i: nat): string
    requires IsDelim(d) && i < |s|
  {
    (if SplitsBefore(s, i) then [d] else []) + [ToLower(Swap(s[i], d))]
  }

  /** The output after the first `n` positions of the input. */
  function SeparatedPrefix(s: string, d: char, n: nat): string
    requires IsDelim(d) && n <= |s|
  {
    if n == 0 then [] else SeparatedPrefix(s, d, n - 1) + Piece(s, d, n - 1)
  }

  /** The common shape of `snake` (d = '_') and `kebab` (d = '-'). */
  function Separated(s: string, d: char): string
    requires IsDelim(d)
  {
    SeparatedPrefix(s, d, |s|)
  }

  /** The number of delimiters inserted before the first `n` positions. */
  function Marks(s: string, n: nat): nat
    requires n <= |s|
  {
    if n == 0 then 0 else Marks(s, n - 1) + (if SplitsBefore(s, n - 1) then 1 else 0)
  }

  /** The output index at which input position `i` lands. */
  function Slot(s: string, i: nat): nat
    requires i < |s|
  {
    i + Marks(s, i + 1)
  }

  lemma {:induction false} MarksMono(s: string, i: nat, j: nat)
    requires i <= j <= |s|
    ensures Marks(s, i) <= Marks(s, j)
    decreases j - i
  {
    if i < j {
      MarksMono(s, i, j - 1);
    }
  }

  /** The only delimiter in the output is `d`, and nothing is upper case. */
  lemma {:induction false} SeparatedShape(s: string, d: char, n: nat)
    requires IsDelim(d) && n <= |s|
    ensures forall c :: c in SeparatedPrefix(s, d, n) ==> (IsDelim(c) ==> c == d) && !IsUpper(c)
  {
    if n > 0 {
      SeparatedShape(s, d, n - 1);
      assert SeparatedPrefix(s, d, n) == SeparatedPrefix(s, d, n - 1) + Piece(s, d, n - 1);
    }
  }

  /** Where every input position lands: position `i` becomes the lower-cased,
      delimiter-swapped `s[i]` at output index `Slot(s, i)`, preceded
      by an inserted `d` exactly when `SplitsBefore(s, i)`; the output holds
      these characters and nothing else. */
  lemma SeparatedLayout(s: string, d: char, n: nat)
    requires IsDelim(d) && n <= |s|
    ensures |SeparatedPrefix(s, d, n)| == n + Marks(s, n)
    ensures forall i :: 0 <= i < n ==>
      Slot(s, i) < |SeparatedPrefix(s, d, n)| &&
      SeparatedPrefix(s, d, n)[Slot(s, i)] == ToLower(Swap(s[i], d))
    ensures forall i :: 0 <= i < n && SplitsBefore(s, i) ==>
      i + Marks(s, i) < |SeparatedPrefix(s, d, n)| &&
      SeparatedPrefix(s, d, n)[i + Marks(s, i)] == d
  {
    SeparatedLength(s, d, n);
    forall i | 0 <= i < n
      ensures Slot(s, i) < |SeparatedPrefix(s, d, n)|
      ensures SeparatedPrefix(s, d, n)[Slot(s, i)] == ToLower(Swap(s[i], d))
    {
      SeparatedSlot(s, d, n, i);
    }
    forall i | 0 <= i < n && SplitsBefore(s, i)
      ensures i + Marks(s, i) < |SeparatedPrefix(s, d, n)|
      ensures SeparatedPrefix(s, d, n)[i + Marks(s, i)] == d
    {
      SeparatedMark(s, d, n, i);
    }
  }

  lemma {:induction false} SeparatedLength(s: string, d: char, n: nat)
    requires IsDelim(d) && n <= |s|
    ensures |SeparatedPrefix(s, d, n)| == n + Marks(s, n)
  {
    if n > 0 {
      SeparatedLength(s, d, n - 1);
    }
  }

  lemma {:induction false} SeparatedSlot(s: string, d: char, n: nat, i: nat)
    requires IsDelim(d) && i < n <= |s|
    ensures Slot(s, i) < |SeparatedPrefix(s, d, n)|
    ensures SeparatedPrefix(s, d, n)[Slot(s, i)] == ToLower(Swap(s[i], d))
  {
    var q := SeparatedPrefix(s, d, n - 1);
    assert SeparatedPrefix(s, d, n) == q + Piece(s, d, n - 1);
    SeparatedLength(s, d, n - 1);
    if i < n - 1 {
      SeparatedSlot(s, d, n - 1, i);
      MarksMono(s, i + 1, n - 1);
    }
  }

  lemma {:induction false} SeparatedMark(s: string, d: char, n: nat, i: nat)
    requires IsDelim(d) && i < n <= |s| && SplitsBefore(s, i)
    ensures i + Marks(s, i) < |SeparatedPrefix(s, d, n)|
    ensures SeparatedPrefix(s, d, n)[i + Marks(s, i)] == d
  {
    var q := SeparatedPrefix(s, d, n - 1);
    assert SeparatedPrefix(s, d, n) == q + Piece(s, d, n - 1);
    SeparatedLength(s, d, n - 1);
    if i < n - 1 {
      SeparatedMark(s, d, n - 1, i);
      MarksMono(s, i, n - 1);
      MarksMono(s, i + 1, n - 1);
    }
  }

  /** A leading capital switches insertion off: the output is the input with
      the other delimiter replaced and every letter lower-cased. */
  lemma SeparatedLeadingUpper(s: string, d: char)
    requires IsDelim(d) && s != [] && IsUpper(s[0])
    ensures Separated(s, d) == LowerAll(ReplaceChar(s, OtherDelim(d), d))
  {
    forall n | 0 <= n <= |s|
      ensures Marks(s, n) == 0
    {
      MarksZero(s, n);
    }
    SeparatedLayout(s, d, |s|);
    var r := Separated(s, d);
    var t := LowerAll(ReplaceChar(s, OtherDelim(d), d));
    forall i | 0 <= i < |s|
      ensures r[i] == t[i]
    {
      assert r[Slot(s, i)] == ToLower(Swap(s[i], d));
    }
  }

  lemma {:induction false} MarksZero(s: string, n: nat)
    requires n <= |s| && s != [] && IsUpper(s[0])
    ensures Marks(s, n) == 0
  {
    if n > 0 {
      MarksZero(s, n - 1);
    }
  }

  /** `snake(s)`: the value the loop of `Snake` computes. */
  function SnakeOf(s: string): (r: string)
    ensures KEBAB !in r
    ensures forall c :: c in r ==> !IsUpper(c)
    ensures s == [] ==> r == []
  {
    SeparatedShape(s, TAIL, |s|);
    Separated(s, TAIL)
  }

  /** `kebab(s)`: the value the loop of `Kebab` computes. */
  function KebabOf(s: string): (r: string)
    ensures TAIL !in r
    ensures forall c :: c in r ==> !IsUpper(c)
    ensures s == [] ==> r == []
  {
    SeparatedShape(s, KEBAB, |s|);
    Separated(s, KEBAB)
  }

  /** `snake`: '-' becomes '_', a '_' is inserted before each inner capital
      unless the string starts with a capital, and the result is lower case. */
  method Snake(s: string) returns (r: string)
    ensures r == SnakeOf(s)
  {
    if s == [] {
      return s;
    }
    var isPascalOrUpper := IsUpper(s[0]);
    var t := ReplaceChar(s, KEBAB, TAIL);
    r := [];
    for idx := 0 to |t|
      invariant r == SeparatedPrefix(s, TAIL, idx)
    {
      var ch := t[idx];
      if idx != 0 && idx != |s| - 1 {
        if !isPascalOrUpper && IsUpper(ch) {
          r := r + [TAIL];
        }
      }
      r := r + [ToLower(ch)];
    }
  }

  /** `kebab`: the same loop as `snake` with the delimiters exchanged. */
  method Kebab(s: string) returns (r: string)
    ensures r == KebabOf(s)
  {
    if s == [] {
      return s;
    }
    var isPascalOrUpper := IsUpper(s[0]);
    var t := ReplaceChar(s, TAIL, KEBAB);
    r := [];
    for idx := 0 to |t|
      invariant r == SeparatedPrefix(s, KEBAB, idx)
    {
      var ch := t[idx];
      if idx != 0 && idx != |s| - 1 {
        if !isPascalOrUpper && IsUpper(ch) {
          r := r + [KEBAB];
        }
      }
      r := r + [ToLower(ch)];
    }
  }

  // ---------------------------------------------------------------------------
  // camal and pascal

  /** `camal` drops every delimiter except one at position 0. */
  predicate Dropped(s: string, i: nat)
    requires i < |s|
  {
    i != 0 && IsDelim(s[i])
  }

  /** What `camal` writes for a kept position: position 0 is lower-cased, the
      first character after a dropped delimiter is upper-cased, and every other
      character is copied. */
  function CamalChar(s: string, i: nat): char
    requires i < |s| && !Dropped(s, i)
  {
    if i == 0 then ToLower(s[0])
    else if i >= 2 && IsDelim(s[i - 1]) then ToUpper(s[i])
    else s[i]
  }

  /** The output of `camal` after the first `n` positions. */
  function CamalPrefix(s: string, n: nat): string
    requires n <= |s|
  {
    if n == 0 then []
    else CamalPrefix(s, n - 1) + (if Dropped(s, n - 1) then [] else [CamalChar(s, n - 1)])
  }

  /** The number of dropped positions among the first `n`. */
  function Drops(s: string, n: nat): (k: nat)
    requires n <= |s|
    ensures k <= n && (n > 0 ==> k < n)
  {
    if n == 0 then 0 else Drops(s, n - 1) + (if Dropped(s, n - 1) then 1 else 0)
  }

  lemma {:induction false} DropsMono(s: string, i: nat, j: nat)
    requires i <= j <= |s|
    ensures j - Drops(s, j) >= i - Drops(s, i)
    decreases j - i
  {
    if i < j {
      DropsMono(s, i, j - 1);
    }
  }

  /** Where `camal` puts each kept position: at index `i - Drops(s, i)`, as
      `CamalChar(s, i)`; the output has one character per kept position. */
  lemma CamalLayout(s: string, n: nat)
    requires n <= |s|
    ensures |CamalPrefix(s, n)| == n - Drops(s, n)
    ensures forall i :: 0 <= i < n && !Dropped(s, i) ==>
      i - Drops(s, i) < |CamalPrefix(s, n)| &&
      CamalPrefix(s, n)[i - Drops(s, i)] == CamalChar(s, i)
  {
    CamalLength(s, n);
    forall i | 0 <= i < n && !Dropped(s, i)
      ensures i - Drops(s, i) < |CamalPrefix(s, n)|
      ensures CamalPrefix(s, n)[i - Drops(s, i)] == CamalChar(s, i)
    {
      CamalSlot(s, n, i);
    }
  }

  lemma {:induction false} CamalLength(s: string, n: nat)
    requires n <= |s|
    ensures |CamalPrefix(s, n)| == n - Drops(s, n)
  {
    if n > 0 {
      CamalLength(s, n - 1);
    }
  }

  lemma {:induction false} CamalSlot(s: string, n: nat, i: nat)
    requires i < n <= |s| && !Dropped(s, i)
    ensures i - Drops(s, i) < |CamalPrefix(s, n)|
    ensures CamalPrefix(s, n)[i - Drops(s, i)] == CamalChar(s, i)
  {
    var q := CamalPrefix(s, n - 1);
    assert CamalPrefix(s, n) == q + (if Dropped(s, n - 1) then [] else [CamalChar(s, n - 1)]);
    CamalLength(s, n - 1);
    if i < n - 1 {
      CamalSlot(s, n - 1, i);
      DropsMono(s, i + 1, n - 1);
    }
  }

  /** Only position 0 of the output can hold a delimiter, and it is the
      lower-cased first input character. */
  lemma {:induction false} CamalShape(s: string, n: nat)
    requires n <= |s|
    ensures (CamalPrefix(s, n) == []) == (n == 0)
    ensures n > 0 ==> CamalPrefix(s, n)[0] == ToLower(s[0])
    ensures forall j :: 1 <= j < |CamalPrefix(s, n)| ==> !IsDelim(CamalPrefix(s, n)[j])
  {
    if n > 0 {
      CamalShape(s, n - 1);
      var q := CamalPrefix(s, n - 1);
      assert CamalPrefix(s, n) == q + (if Dropped(s, n - 1) then [] else [CamalChar(s, n - 1)]);
    }
  }

  /** `camal(s)`: the value the loop of `Camal` computes. */
  function CamalOf(s: string): (r: string)
    ensures (r == []) == (s == [])
    ensures s != [] ==> r[0] == ToLower(s[0])
    ensures forall j :: 1 <= j < |r| ==> !IsDelim(r[j])
  {
    CamalShape(s, |s|);
    CamalPrefix(s, |s|)
  }

  /** `camal`: drops the delimiters after position 0, upper-cases the first
      character after each such run and lower-cases position 0. */
  method Camal(s: string) returns (r: string)
    ensures r == CamalOf(s)
  {
    r := [];
    var wasBinder := false;
    for idx := 0 to |s|
      invariant r == CamalPrefix(s, idx)
      invariant wasBinder == (idx >= 2 && IsDelim(s[idx - 1]))
    {
      var ch := s[idx];
      if idx != 0 {
        if ch == TAIL || ch == KEBAB {
          wasBinder := true;
          continue;
        }
      }
      if wasBinder {
        wasBinder := false;
        r := r + [ToUpper(ch)];
      } else if idx == 0 {
        r := r + [ToLower(ch)];
      } else {
        r := r + [ch];
      }
    }
  }

  /** `raw[0].upper() + raw[1:]`, and the empty string unchanged. */
  function UpperFirst(t: string): string
  {
    if t == [] then t else [ToUpper(t[0])] + t[1..]
  }

  /** `pascal(s)`: `camal(s)` with its first character upper-cased instead. */
  function Pascal(s: string): (r: string)
    ensures |r| == |CamalOf(s)|
    ensures s != [] ==> r[0] == ToUpper(s[0]) && r[1..] == CamalOf(s)[1..]
    ensures forall j :: 1 <= j < |r| ==> !IsDelim(r[j])
  {
    UpperFirst(CamalOf(s))
  }

  function LowerFirst(t: string): string
  {
    if t == [] then t else [ToLower(t[0])] + t[1..]
  }

  /** Lower-casing the first character of `pascal(s)` gives back `camal(s)`. */
  lemma PascalToCamal(s: string)
    ensures CamalOf(s) == LowerFirst(Pascal(s))
  {
    if s != [] {
      LowerOfUpper(s[0]);
      assert CamalOf(s) == [CamalOf(s)[0]] + CamalOf(s)[1..];
    }
  }

  // ---------------------------------------------------------------------------
  // norm and the *_norm variants

  /** The delimiter collapsing of `norm`: '--' pairs twice, then '__' pairs twice. */
  function Collapsed(s: string): string
  {
    CollapseTwice(CollapseTwice(s, KEBAB), TAIL)
  }

  /** `norm(s)`: no delimiter at either end, and every other character of `s`
      kept in order. */
  function Norm(s: string): (r: string)
    ensures r == [] || (!IsDelim(r[0]) && !IsDelim(r[|r| - 1]))
    ensures NonDelims(r) == NonDelims(s)
    ensures s == [] ==> r == []
  {
    CollapseKeepsNonDelims(s, KEBAB);
    CollapseKeepsNonDelims(CollapsePairs(s, KEBAB), KEBAB);
    CollapseKeepsNonDelims(CollapseTwice(s, KEBAB), TAIL);
    CollapseKeepsNonDelims(CollapsePairs(CollapseTwice(s, KEBAB), TAIL), TAIL);
    StripKeeps(Collapsed(s));
    Strip(Collapsed(s))
  }

  lemma CollapseTwiceEnds(s: string, c: char)
    requires s != []
    ensures CollapseTwice(s, c) != []
    ensures CollapseTwice(s, c)[0] == s[0]
    ensures CollapseTwice(s, c)[|CollapseTwice(s, c)| - 1] == s[|s| - 1]
  {
  }

  /** Collapsing one delimiter leaves a run of a different character alone. */
  lemma CollapseTwiceOtherRun(a: string, d: char, k: nat, b: string, c: char)
    requires d != c && k >= 1
    ensures CollapseTwice(a + Run(d, k) + b, c) == CollapseTwice(a, c) + Run(d, k) + CollapseTwice(b, c)
  {
    var r := Run(d, k);
    AppendAssoc(a, r, b);
    SliceOfAppend(r, b, 1);
    assert CleanJoin(a, r + b, c);
    CollapseTwiceSplit(a, r + b, c);
    assert CleanJoin(r, b, c);
    CollapseTwiceSplit(r, b, c);
    CollapseOtherRun(d, k, c);
    AppendAssoc(CollapseTwice(a, c), r, CollapseTwice(b, c));
  }

  /** A maximal run of k >= 1 copies of either delimiter comes out of the
      collapsing step of `norm` as (k + 3) / 4 copies, with the text on each
      side collapsed on its own: runs of one to four become one delimiter, and
      a run of five or more leaves two or more. */
  lemma CollapsedRun(x: string, k: nat, y: string, c: char)
    requires IsDelim(c) && k >= 1
    requires x == [] || x[|x| - 1] != c
    requires y == [] || y[0] != c
    ensures Collapsed(x + Run(c, k) + y) == Collapsed(x) + Run(c, (k + 3) / 4) + Collapsed(y)
  {
    var m := (k + 3) / 4;
    if c == KEBAB {
      CollapseTwiceRun(x, k, y, KEBAB);
      CollapseTwiceOtherRun(CollapseTwice(x, KEBAB), KEBAB, m, CollapseTwice(y, KEBAB), TAIL);
    } else {
      CollapseTwiceOtherRun(x, TAIL, k, y, KEBAB);
      var x' := CollapseTwice(x, KEBAB);
      var y' := CollapseTwice(y, KEBAB);
      if x != [] { CollapseTwiceEnds(x, KEBAB); }
      if y != [] { CollapseTwiceEnds(y, KEBAB); }
      CollapseTwiceRun(x', k, y', TAIL);
    }
  }

  /** Text without the delimiter has no pair to collapse. */
  lemma {:induction false} CollapseAbsent(s: string, c: char)
    requires c !in s
    ensures CollapsePairs(s, c) == s
    decreases |s|
  {
    if s != [] {
      CollapseStep(s, c);
      assert forall y :: y in s[1..] ==> y in s;
      CollapseAbsent(s[1..], c);
    }
  }

  /** A word (text without delimiters) goes through the collapsing step unchanged. */
  lemma CollapsedWord(w: string)
    requires forall j :: 0 <= j < |w| ==> !IsDelim(w[j])
    ensures Collapsed(w) == w
  {
    assert KEBAB !in w && TAIL !in w;
    CollapseAbsent(w, KEBAB);
    CollapseAbsent(CollapsePairs(w, KEBAB), KEBAB);
    CollapseAbsent(w, TAIL);
    CollapseAbsent(CollapsePairs(w, TAIL), TAIL);
  }

  /** `strip` leaves a string alone when neither end is a delimiter. */
  lemma StripClean(s: string)
    requires s == [] || (!IsDelim(s[0]) && !IsDelim(s[|s| - 1]))
    ensures Strip(s) == s
  {
  }

  /** `norm` on two words joined by a run of k >= 1 copies of one delimiter:
      the words are kept and the run becomes (k + 3) / 4 copies. */
  lemma NormJoin(x: string, k: nat, y: string, c: char)
    requires IsDelim(c) && k >= 1 && x != [] && y != []
    requires forall j :: 0 <= j < |x| ==> !IsDelim(x[j])
    requires forall j :: 0 <= j < |y| ==> !IsDelim(y[j])
    ensures Norm(x + Run(c, k) + y) == x + Run(c, (k + 3) / 4) + y
  {
    CollapsedRun(x, k, y, c);
    CollapsedWord(x);
    CollapsedWord(y);
    var r := x + Run(c, (k + 3) / 4) + y;
    assert r[0] == x[0] && r[|r| - 1] == y[|y| - 1];
    StripClean(r);
  }

  /** Runs of one to four delimiters between words become one delimiter; a
      run of five or more keeps at least two, and a second `norm` then changes
      the result again, so `norm` is not idempotent. */
  lemma NormRunBounds(x: string, k: nat, y: string, c: char)
    requires IsDelim(c) && k >= 1 && x != [] && y != []
    requires forall j :: 0 <= j < |x| ==> !IsDelim(x[j])
    requires forall j :: 0 <= j < |y| ==> !IsDelim(y[j])
    ensures k <= 4 ==> Norm(x + Run(c, k) + y) == x + [c] + y
    ensures k >= 5 ==> Norm(Norm(x + Run(c, k) + y)) != Norm(x + Run(c, k) + y)
  {
    NormJoin(x, k, y, c);
    var m := (k + 3) / 4;
    if k <= 4 {
      assert Run(c, m) == [c];
    } else {
      NormJoin(x, m, y, c);
      var once := x + Run(c, m) + y;
      var twice := x + Run(c, (m + 3) / 4) + y;
      assert |once| != |twice|;
    }
  }

  /** Stripping a string whose only possible delimiter is at position 0
      leaves no delimiter at all. */
  lemma StripInner(t: string)
    requires forall j :: 1 <= j < |t| ==> !IsDelim(t[j])
    ensures forall c :: c in Strip(t) ==> !IsDelim(c)
  {
    var a := DropLeading(t);
    var r := DropTrailing(a);
    assert Strip(t) == r;
    forall j | 0 <= j < |a|
      ensures !IsDelim(a[j])
    {
      assert a[j] == t[|t| - |a| + j];
    }
  }

  /** The cleanup `snake_norm` applies to the output of `snake`. */
  function SnakeTidy(t: string): string
  {
    Strip(CollapseTwice(ReplaceChar(t, KEBAB, TAIL), TAIL))
  }

  /** `snake_norm(s)`: no '-' anywhere and no delimiter at either end. */
  function SnakeNorm(s: string): (r: string)
    ensures KEBAB !in r
    ensures r == [] || (!IsDelim(r[0]) && !IsDelim(r[|r| - 1]))
  {
    var t := ReplaceChar(SnakeOf(s), KEBAB, TAIL);
    CollapseAddsNothing(t, TAIL, KEBAB);
    CollapseAddsNothing(CollapsePairs(t, TAIL), TAIL, KEBAB);
    SnakeTidy(SnakeOf(s))
  }

  /** The cleanup `kebab_norm` applies to the output of `kebab`. */
  function KebabTidy(t: string): string
  {
    Strip(CollapseTwice(t, KEBAB))
  }

  /** `kebab_norm(s)`: no '_' anywhere and no delimiter at either end. */
  function KebabNorm(s: string): (r: string)
    ensures TAIL !in r
    ensures r == [] || (!IsDelim(r[0]) && !IsDelim(r[|r| - 1]))
  {
    var t := KebabOf(s);
    CollapseAddsNothing(t, KEBAB, TAIL);
    CollapseAddsNothing(CollapsePairs(t, KEBAB), KEBAB, TAIL);
    KebabTidy(t)
  }

  /** `camal_norm(s)`: no delimiter anywhere. */
  function CamalNorm(s: string): (r: string)
    ensures forall c :: c in r ==> !IsDelim(c)
  {
    StripInner(CamalOf(s));
    Strip(CamalOf(s))
  }

  /** `pascal_norm(s)`: no delimiter anywhere. */
  function PascalNorm(s: string): (r: string)
    ensures forall c :: c in r ==> !IsDelim(c)
  {
    StripInner(Pascal(s));
    Strip(Pascal(s))
  }
}
