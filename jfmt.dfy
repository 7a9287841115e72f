/** The key-format selection of `jfmt`'s `main` (`jfmt/__init__.py`): the
    command line names at most one converter, either with `--format <name>` or
    with the converter's own flag, and `--norm` swaps in a normalising
    converter; the chosen converter then rewrites every key of the loaded file. */
module Jfmt {
  import opened Wrappers
  import opened Registry
  import opened JsonKeys

  /** What reading and decoding the file gave. The file system and the JSON
      decoder are outside the model: `main` only looks at which case it got. */
  datatype Input = NoSuchPath | NotAFile | BadJson | Loaded(data: Json)

  /** How `main` ends: it writes `data` back and returns `code`, returns `code`
      without writing, or dies with an uncaught exception. */
  datatype Exit = Saved(code: int, data: Json) | Stopped(code: int) | Raised

  /** The exit status for conflicting or multiple format flags. */
  const CONFLICT: int := 4

  /** The selection branch of `main`, on the parsed `--format` choice, the set
      of converter flags given and `--norm`. */
  function Decide(format: Option<Format>, flags: set<Format>, norm: bool): Decision
  {
    var present := FlagsPresent(flags);
    if format.Some? then
      if present != [] then Reject
      else Rewrite(if norm then NamespaceNorm(format.value) else format.value)
    else if |present| == 0 then
      if norm then Rewrite(GetDefaultConverter()) else Keep
    else if |present| != 1 then Reject
    else Rewrite(if norm then GetNormConverter(present[0]) else present[0])
  }

  /** The command line is refused exactly when `--format` comes with any
      converter flag (its own included), or when two or more converter flags
      come without `--format`. */
  lemma DecideRejects(format: Option<Format>, flags: set<Format>, norm: bool)
    ensures Decide(format, flags, norm) == Reject
        <==> (format.Some? && flags != {}) || (format.None? && |flags| >= 2)
  {
    var present := FlagsPresent(flags);
    if flags != {} {
      var f :| f in flags;
      assert f in present;
    }
  }

  /** `--format f` alone selects `f`; with `--norm` it selects `f`'s `_norm`
      companion when there is one and otherwise keeps `f` itself. */
  lemma DecideFormat(f: Format, norm: bool)
    ensures !norm ==> Decide(Some(f), {}, norm) == Rewrite(f)
    ensures norm ==>
      Decide(Some(f), {}, norm) == Rewrite(match Companion(f) case Some(g) => g case None => f)
  {
    NamespaceNormTable(f);
  }

  /** A single converter flag selects that converter; with `--norm` it selects
      the `_norm` companion when there is one and otherwise the default `norm`. */
  lemma DecideSingleFlag(f: Format, norm: bool)
    ensures !norm ==> Decide(None, {f}, norm) == Rewrite(f)
    ensures norm ==>
      Decide(None, {f}, norm) == Rewrite(match Companion(f) case Some(g) => g case None => Norm)
  {
    var present := FlagsPresent({f});
    assert present[0] in {f};
    GetNormConverterTable(f);
  }

  /** Without any format choice, `--norm` alone rewrites the keys with `norm`,
      and no flag at all leaves the keys as they are. */
  lemma DecideNone(norm: bool)
    ensures Decide(None, {}, norm) == if norm then Rewrite(Norm) else Keep
  {
  }

  /** The two ways of naming a case converter fall back differently under
      `--norm`: `--format lower --norm` keeps `lower`, `--lower --norm` uses `norm`. */
  lemma FallbacksDiffer(f: Format)
    requires Companion(f).None?
    ensures Decide(Some(f), {}, true) == Rewrite(f)
    ensures Decide(None, {f}, true) == Rewrite(Norm)
  {
    DecideFormat(f, true);
    DecideSingleFlag(f, true);
  }

  /** The whole of `main` after argument parsing: the path and decoding checks
      with their exit codes 1, 2 and 3, then the selection, then the rewrite. */
  function MainResult(input: Input, format: Option<Format>, flags: set<Format>, norm: bool): (r: Exit)
    ensures input == NoSuchPath ==> r == Stopped(1)
    ensures input == NotAFile ==> r == Stopped(2)
    ensures input == BadJson ==> r == Stopped(3)
    ensures input.Loaded? && Decide(format, flags, norm) == Reject ==> r == Stopped(CONFLICT)
    ensures input.Loaded? && Decide(format, flags, norm) == Keep ==> r == Saved(0, input.data)
    ensures r.Raised? <==> input.Loaded? && !input.data.Obj? && Decide(format, flags, norm).Rewrite?
    ensures r.Saved? ==> r.code == 0 && r.data.Obj? == input.data.Obj?
  {
    match input
    case NoSuchPath => Stopped(1)
    case NotAFile => Stopped(2)
    case BadJson => Stopped(3)
    case Loaded(data) =>
      match Decide(format, flags, norm)
      case Reject => Stopped(CONFLICT)
      case Keep => Saved(0, data)
      case Rewrite(conv) => Rewritten(conv, data)
  }

  /** The rewrite step: `convert_keys_into` walks the root's items, so a root
      that is not an object makes it raise. */
  function Rewritten(conv: Converter, data: Json): (r: Exit)
    ensures r.Raised? <==> !data.Obj?
    ensures r.Saved? ==> r.code == 0 && r.data.Obj?
  {
    if data.Obj? then Saved(0, Obj(Fill(KeyFn(conv), [], data.members))) else Raised
  }

  /** Runs the rewrite step: `convert_keys_into` on a fresh dict. */
  method RewriteKeys(conv: Converter, data: Json) returns (r: Exit)
    ensures r == Rewritten(conv, data)
  {
    if data.Obj? {
      var out := ConvertKeys(KeyFn(conv), data.members);
      r := Saved(0, Obj(out));
    } else {
      r := Raised;
    }
  }

  /** A rewritten file holds exactly the converted keys of the original, each
      once. */
  lemma MainResultKeys(input: Input, format: Option<Format>, flags: set<Format>, norm: bool)
    requires input.Loaded? && input.data.Obj?
    requires Decide(format, flags, norm).Rewrite?
    ensures var r := MainResult(input, format, flags, norm);
      var c := Decide(format, flags, norm).conv;
      r.Saved? && r.data.Obj? && DistinctKeys(r.data.members)
      && forall k :: k in Keys(r.data.members) <==> k in ConvertedKeys(KeyFn(c), input.data.members)
  {
    var c := Decide(format, flags, norm).conv;
    FillKeySet(KeyFn(c), [], input.data.members);
    FillKeepsDistinct(KeyFn(c), [], input.data.members);
  }

  /** `main` itself: the decision, then `convert_keys_into` on a fresh dict. */
  method RunMain(input: Input, format: Option<Format>, flags: set<Format>, norm: bool) returns (r: Exit)
    ensures r == MainResult(input, format, flags, norm)
  {
    if input == NoSuchPath {
      return Stopped(1);
    } else if input == NotAFile {
      return Stopped(2);
    } else if input == BadJson {
      return Stopped(3);
    }
    var data := input.data;
    var d := Decide(format, flags, norm);
    if d == Reject {
      r := Stopped(CONFLICT);
    } else if d == Keep {
      r := Saved(0, data);
    } else {
      r := RewriteKeys(d.conv, data);
    }
  }
}
