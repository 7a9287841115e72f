/** Worked examples: properties proved on concrete keys and documents,
    including the places where the converters behave less obviously (a
    leading capital, runs of capitals, delimiters at the ends, long runs of
    delimiters under `norm`). */
module GoldenVectors {
  import opened Ascii
  import opened Delimiters
  import opened Converters
  import opened JsonKeys

  /** A lower-case start with one inner capital gets one '_'. */
  lemma SnakeFooBar()
    ensures SnakeOf("fooBar") == "foo_bar"
  {
    var s := "fooBar";
    assert SeparatedPrefix(s, TAIL, 3) == "foo";
    assert SplitsBefore(s, 3);
    assert SeparatedPrefix(s, TAIL, 4) == "foo_b";
    assert SeparatedPrefix(s, TAIL, 6) == "foo_bar";
  }

  /** The same input through `kebab`. */
  lemma KebabFooBar()
    ensures KebabOf("fooBar") == "foo-bar"
  {
    var s := "fooBar";
    assert SeparatedPrefix(s, KEBAB, 3) == "foo";
    assert SplitsBefore(s, 3);
    assert SeparatedPrefix(s, KEBAB, 4) == "foo-b";
    assert SeparatedPrefix(s, KEBAB, 6) == "foo-bar";
  }

  /** A capital in the last position gets no '_'. */
  lemma SnakeLastCapital()
    ensures SnakeOf("fooB") == "foob"
  {
    var s := "fooB";
    assert SeparatedPrefix(s, TAIL, 3) == "foo";
    assert !SplitsBefore(s, 3);
    assert SeparatedPrefix(s, TAIL, 4) == "foob";
  }

  /** Every inner capital of a run gets its own '_', except the last character. */
  lemma SnakeCapitalRun()
    ensures SnakeOf("fooBAR") == "foo_b_ar"
  {
    var s := "fooBAR";
    assert SeparatedPrefix(s, TAIL, 3) == "foo";
    assert SplitsBefore(s, 3) && SplitsBefore(s, 4) && !SplitsBefore(s, 5);
    assert SeparatedPrefix(s, TAIL, 4) == "foo_b";
    assert SeparatedPrefix(s, TAIL, 5) == "foo_b_a";
    assert SeparatedPrefix(s, TAIL, 6) == "foo_b_ar";
  }

  /** A leading capital turns insertion off altogether. */
  lemma SnakeHttpServer()
    ensures SnakeOf("HTTPServer") == "httpserver"
  {
    SeparatedLeadingUpper("HTTPServer", TAIL);
    assert LowerAll(ReplaceChar("HTTPServer", KEBAB, TAIL)) == "httpserver";
  }

  lemma SnakeCapitalFooBar()
    ensures SnakeOf("FooBar") == "foobar"
  {
    SeparatedLeadingUpper("FooBar", TAIL);
    assert LowerAll(ReplaceChar("FooBar", KEBAB, TAIL)) == "foobar";
  }

  lemma SnakeCapitalBazQux()
    ensures SnakeOf("BazQux") == "bazqux"
  {
    SeparatedLeadingUpper("BazQux", TAIL);
    assert LowerAll(ReplaceChar("BazQux", KEBAB, TAIL)) == "bazqux";
  }

  lemma SnakeArr()
    ensures SnakeOf("arr") == "arr"
  {
    assert SeparatedPrefix("arr", TAIL, 3) == "arr";
  }

  lemma CamalFooBar()
    ensures CamalOf("foo_bar") == "fooBar"
    ensures Pascal("foo_bar") == "FooBar"
  {
    var s := "foo_bar";
    assert CamalPrefix(s, 3) == "foo";
    assert CamalPrefix(s, 4) == "foo";
    assert CamalPrefix(s, 5) == "fooB";
    assert CamalPrefix(s, 7) == "fooBar";
  }

  /** Consecutive delimiters act as one. */
  lemma CamalDoubleDelimiter()
    ensures CamalOf("foo__bar") == "fooBar"
  {
    var s := "foo__bar";
    assert CamalPrefix(s, 3) == "foo";
    assert CamalPrefix(s, 5) == "foo";
    assert CamalPrefix(s, 6) == "fooB";
    assert CamalPrefix(s, 8) == "fooBar";
  }

  /** The first letter is always lower-cased. */
  lemma CamalCapitalStart()
    ensures CamalOf("Foo-Bar") == "fooBar"
  {
    var s := "Foo-Bar";
    assert CamalPrefix(s, 1) == "f";
    assert CamalPrefix(s, 3) == "foo";
    assert CamalPrefix(s, 4) == "foo";
    assert CamalPrefix(s, 5) == "fooB";
    assert CamalPrefix(s, 7) == "fooBar";
  }

  /** A delimiter at position 0 is kept, and the character after it is not
      upper-cased. */
  lemma CamalLeadingDelimiter()
    ensures CamalOf("_a") == "_a"
  {
    assert CamalPrefix("_a", 2) == "_a";
  }

  /** A second delimiter is dropped and upper-cases what follows. */
  lemma CamalLeadingPair()
    ensures CamalOf("__a") == "_A"
  {
    assert CamalPrefix("__a", 1) == "_";
    assert CamalPrefix("__a", 2) == "_";
    assert CamalPrefix("__a", 3) == "_A";
  }

  /** A trailing delimiter is dropped with nothing to upper-case. */
  lemma CamalTrailingDelimiter()
    ensures CamalOf("foo_") == "foo"
  {
    assert CamalPrefix("foo_", 3) == "foo";
    assert CamalPrefix("foo_", 4) == "foo";
  }

  lemma CamalLeadingWord()
    ensures CamalOf("_foo") == "_foo"
  {
    assert CamalPrefix("_foo", 4) == "_foo";
  }

  /** `pascal` upper-cases a leading delimiter, which changes nothing, and
      `pascal_norm` then strips it. */
  lemma PascalLeadingDelimiter()
    ensures Pascal("_foo") == "_foo"
    ensures PascalNorm("_foo") == "foo"
  {
    CamalLeadingWord();
    StripLeadingOne();
  }

  lemma StripLeadingOne()
    ensures Strip("_foo") == "foo"
  {
    assert "_foo"[1..] == "foo";
    assert DropLeading("foo") == "foo";
    assert DropTrailing("foo") == "foo";
  }

  // ---------------------------------------------------------------------------
  // norm

  lemma CollapseShortKebabInner()
    ensures CollapsePairs("a__b--", KEBAB) == "a__b-"
  {
    assert CollapsePairs("b--", KEBAB) == "b-";
    assert CollapsePairs("__b--", KEBAB) == "__b-";
  }

  lemma CollapseShortKebabFirst()
    ensures CollapsePairs("--a__b--", KEBAB) == "-a__b-"
  {
    CollapseShortKebabInner();
    assert "--a__b--"[2..] == "a__b--";
  }

  lemma CollapseShortKebabSecondInner()
    ensures CollapsePairs("a__b-", KEBAB) == "a__b-"
  {
    assert CollapsePairs("b-", KEBAB) == "b-";
    assert CollapsePairs("__b-", KEBAB) == "__b-";
  }

  lemma CollapseShortKebabSecond()
    ensures CollapsePairs("-a__b-", KEBAB) == "-a__b-"
  {
    CollapseShortKebabSecondInner();
    assert "-a__b-"[1..] == "a__b-";
  }

  lemma CollapseShortTailFirst()
    ensures CollapsePairs("-a__b-", TAIL) == "-a_b-"
  {
    assert CollapsePairs("b-", TAIL) == "b-";
  }

  lemma CollapseShortTailSecond()
    ensures CollapsePairs("-a_b-", TAIL) == "-a_b-"
  {
    assert CollapsePairs("_b-", TAIL) == "_b-";
  }

  lemma CollapseShortRuns()
    ensures Collapsed("--a__b--") == "-a_b-"
  {
    CollapseShortKebabFirst();
    CollapseShortKebabSecond();
    CollapseShortTailFirst();
    CollapseShortTailSecond();
  }

  lemma DropLeadingShortRuns()
    ensures DropLeading("-a_b-") == "a_b-"
  {
    assert "-a_b-"[1..] == "a_b-";
  }

  lemma DropTrailingShortRuns()
    ensures DropTrailing("a_b-") == "a_b"
  {
    assert "a_b-"[..3] == "a_b";
  }

  lemma StripShortRuns()
    ensures Strip("-a_b-") == "a_b"
  {
    DropLeadingShortRuns();
    DropTrailingShortRuns();
  }

  /** `norm` collapses short runs and strips both ends. */
  lemma NormShortRuns()
    ensures Norm("--a__b--") == "a_b"
  {
    CollapseShortRuns();
    StripShortRuns();
  }

  /** A string with a letter at both ends is left alone by `strip`. */
  lemma StripWord(s: string)
    requires |s| >= 2 && s[0] == 'a' && s[|s| - 1] == 'b'
    ensures Strip(s) == s
  {
    StripClean(s);
  }

  lemma CollapseLongRunFirst()
    ensures CollapsePairs("a-----b", KEBAB) == "a---b"
  {
    assert CollapsePairs("-b", KEBAB) == "-b";
    assert CollapsePairs("---b", KEBAB) == "--b";
    assert CollapsePairs("-----b", KEBAB) == "---b";
  }

  lemma CollapseLongRunSecond()
    ensures CollapsePairs("a---b", KEBAB) == "a--b"
  {
    assert CollapsePairs("-b", KEBAB) == "-b";
    assert CollapsePairs("---b", KEBAB) == "--b";
  }

  lemma CollapseLongRun()
    ensures Collapsed("a-----b") == "a--b"
  {
    CollapseLongRunFirst();
    CollapseLongRunSecond();
    CollapseAbsent("a--b", TAIL);
  }

  /** A run of five '-' is more than two passes can reduce to one. */
  lemma NormLongRun()
    ensures Norm("a-----b") == "a--b"
  {
    CollapseLongRun();
    StripWord("a--b");
  }

  lemma CollapsePair()
    ensures Collapsed("a--b") == "a-b"
  {
    assert CollapsePairs("a--b", KEBAB) == "a-b";
    assert CollapsePairs("a-b", KEBAB) == "a-b";
    CollapseAbsent("a-b", TAIL);
  }

  lemma NormPair()
    ensures Norm("a--b") == "a-b"
  {
    CollapsePair();
    StripWord("a-b");
  }

  /** `norm` is not idempotent: a second pass changes its own output. */
  lemma NormNotIdempotent()
    ensures Norm(Norm("a-----b")) != Norm("a-----b")
  {
    NormLongRun();
    NormPair();
  }

  // ---------------------------------------------------------------------------
  // documents

  /** Nested objects are converted; an object inside an array is not. With a
      leading capital, `snake` inserts no '_'. */
  lemma SnakeTree()
    ensures Fill(SnakeOf, [], [
        ("FooBar", Obj([("BazQux", Num(1))])),
        ("arr", Arr([Obj([("NotConverted", Num(2))])]))])
      == [("foobar", Obj([("bazqux", Num(1))])),
          ("arr", Arr([Obj([("NotConverted", Num(2))])]))]
  {
    SnakeCapitalFooBar();
    SnakeCapitalBazQux();
    SnakeArr();
    FillOne(SnakeOf, "BazQux", Num(1));
    FillTwo(SnakeOf, "FooBar", Obj([("BazQux", Num(1))]), "arr", Arr([Obj([("NotConverted", Num(2))])]));
  }

  lemma SnakeDashed()
    ensures SnakeOf("a-b") == "a_b"
  {
    assert SeparatedPrefix("a-b", TAIL, 3) == "a_b";
  }

  lemma SnakeUnderscored()
    ensures SnakeOf("a_b") == "a_b"
  {
    assert SeparatedPrefix("a_b", TAIL, 3) == "a_b";
  }

  /** Two source keys that convert to the same key: one entry survives, at the
      place of the first, holding the value of the last. */
  lemma SnakeCollision()
    ensures Fill(SnakeOf, [], [("a-b", Num(1)), ("a_b", Num(2))]) == [("a_b", Num(2))]
  {
    SnakeDashed();
    SnakeUnderscored();
    FillTwo(SnakeOf, "a-b", Num(1), "a_b", Num(2));
  }

  lemma CamalUserName()
    ensures CamalOf("user-name") == "userName"
  {
    var s := "user-name";
    assert CamalPrefix(s, 2) == "us";
    assert CamalPrefix(s, 4) == "user";
    assert CamalPrefix(s, 5) == "user";
    assert CamalPrefix(s, 6) == "userN";
    assert CamalPrefix(s, 8) == "userNam";
    assert CamalPrefix(s, 9) == "userName";
  }

  lemma CamalUserAge()
    ensures CamalOf("userAge") == "userAge"
  {
    assert CamalPrefix("userAge", 4) == "user";
    assert CamalPrefix("userAge", 7) == "userAge";
  }

  /** `camal` end to end: order kept, values untouched. */
  lemma CamalDocument()
    ensures Fill(CamalOf, [], [("user-name", Str("x")), ("userAge", Num(5))])
         == [("userName", Str("x")), ("userAge", Num(5))]
  {
    CamalUserName();
    CamalUserAge();
    FillTwo(CamalOf, "user-name", Str("x"), "userAge", Num(5));
  }
}
