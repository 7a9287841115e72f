/** The older command-line program `script.py`. It reads the file before it
    looks at the flags, refuses bad flag combinations through the argument
    parser (which exits with status 2), and has no way of leaving the keys
    alone: with neither a converter flag nor `--norm` it refuses the command line. */
module Script {
  import opened Wrappers
  import opened Registry
  import opened JsonKeys
  import J = Jfmt

  /** The exit status of `parser.error`. */
  const USAGE_ERROR: int := 2

  /** The selection branch of `script.py`. */
  function Decide(format: Option<Format>, flags: set<Format>, norm: bool): Decision
  {
    var present := FlagsPresent(flags);
    if format.Some? then
      if present != [] then Reject
      else Rewrite(if norm then NamespaceNorm(format.value) else format.value)
    else if |present| == 0 then
      if norm then Rewrite(GetDefaultConverter()) else Reject
    else if |present| != 1 then Reject
    else Rewrite(if norm then GetNormConverter(present[0]) else present[0])
  }

  /** The script refuses exactly what `jfmt` refuses, and also the command line
      with no converter flag and no `--norm`. */
  lemma DecideRejects(format: Option<Format>, flags: set<Format>, norm: bool)
    ensures Decide(format, flags, norm) == Reject <==>
      ((format.Some? && flags != {}) || (format.None? && (|flags| >= 2 || (flags == {} && !norm))))
  {
    J.DecideRejects(format, flags, norm);
    DecideAgrees(format, flags, norm);
  }

  /** Against `jfmt`: the same decision, except that where `jfmt` keeps the
      keys as they are, the script refuses. */
  lemma DecideAgrees(format: Option<Format>, flags: set<Format>, norm: bool)
    ensures Decide(format, flags, norm)
         == if J.Decide(format, flags, norm) == Keep then Reject else J.Decide(format, flags, norm)
  {
  }

  /** The script always rewrites the keys when it accepts the command line. */
  lemma NeverKeeps(format: Option<Format>, flags: set<Format>, norm: bool)
    ensures Decide(format, flags, norm) != Keep
  {
    DecideAgrees(format, flags, norm);
  }

  /** The whole script after argument parsing. A missing path or a directory
      makes `open` raise; a decoding error is reported and `exit()` ends the
      script with status 0 without writing. */
  function ScriptResult(input: J.Input, format: Option<Format>, flags: set<Format>, norm: bool): (r: J.Exit)
    ensures input == J.NoSuchPath || input == J.NotAFile ==> r == J.Raised
    ensures input == J.BadJson ==> r == J.Stopped(0)
    ensures input.Loaded? && Decide(format, flags, norm) == Reject ==> r == J.Stopped(USAGE_ERROR)
    ensures r.Saved? ==> r.code == 0 && r.data.Obj? && input.Loaded? && input.data.Obj?
  {
    match input
    case NoSuchPath => J.Raised
    case NotAFile => J.Raised
    case BadJson => J.Stopped(0)
    case Loaded(data) =>
      var d := Decide(format, flags, norm);
      if d == Reject then J.Stopped(USAGE_ERROR)
      else
        NeverKeeps(format, flags, norm);
        J.Rewritten(d.conv, data)
  }

  /** Where both programs get as far as writing the file, they write the same
      data; otherwise the script has refused or raised. */
  lemma ScriptMatchesJfmt(input: J.Input, format: Option<Format>, flags: set<Format>, norm: bool)
    requires input.Loaded?
    ensures var s := ScriptResult(input, format, flags, norm);
      var m := J.MainResult(input, format, flags, norm);
      (s.Saved? ==> s == m)
      && (m.Saved? && !s.Saved? ==> J.Decide(format, flags, norm) == Keep && s == J.Stopped(USAGE_ERROR))
  {
    DecideAgrees(format, flags, norm);
  }

  /** The script's top level after argument parsing. */
  method RunScript(input: J.Input, format: Option<Format>, flags: set<Format>, norm: bool) returns (r: J.Exit)
    ensures r == ScriptResult(input, format, flags, norm)
  {
    if input == J.NoSuchPath || input == J.NotAFile {
      return J.Raised;
    } else if input == J.BadJson {
      return J.Stopped(0);
    }
    var data := input.data;
    var d := Decide(format, flags, norm);
    NeverKeeps(format, flags, norm);
    if d == Reject {
      r := J.Stopped(USAGE_ERROR);
    } else {
      r := J.RewriteKeys(d.conv, data);
    }
  }
}
