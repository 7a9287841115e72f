/** The converters as named values. Python identifies a converter by its
    `__name__` and finds a normalising companion by looking `<name>_norm` up in
    a module namespace (`globals()`); here the namespaces are closed tables of
    the converters each module defines or imports, and the lookup is `Resolve`. */
module Registry {
  import opened Ascii
  import opened Delimiters
  import C = Converters
  import opened Wrappers

  datatype Converter =
    | Lower | Upper | Title | Snake | Camal | Kebab | Pascal
    | SnakeNorm | CamalNorm | KebabNorm | PascalNorm | Norm

  /** The `__name__` Python reports for each converter. The command line
      takes its first character as the short flag, so it is never empty. */
  function Name(c: Converter): (r: string)
    ensures |r| > 0
  {
    match c
    case Lower => "lower"
    case Upper => "upper"
    case Title => "title"
    case Snake => "snake"
    case Camal => "camal"
    case Kebab => "kebab"
    case Pascal => "pascal"
    case SnakeNorm => "snake_norm"
    case CamalNorm => "camal_norm"
    case KebabNorm => "kebab_norm"
    case PascalNorm => "pascal_norm"
    case Norm => "norm"
  }

  /** The normalising converters: `norm` and the four `*_norm`. */
  predicate IsNormalising(c: Converter)
  {
    c == Norm || c == SnakeNorm || c == CamalNorm || c == KebabNorm || c == PascalNorm
  }

  /** Calling the converter on a key. The three `str` methods only change
      case, so they keep the length; every normalising converter leaves no
      delimiter at either end of the key. */
  function Apply(c: Converter, s: string): (r: string)
    ensures c == Lower || c == Upper || c == Title ==> |r| == |s|
    ensures IsNormalising(c) ==> r == [] || (!IsDelim(r[0]) && !IsDelim(r[|r| - 1]))
  {
    match c
    case Lower => LowerAll(s)
    case Upper => UpperAll(s)
    case Title => Ascii.Title(s)
    case Snake => C.SnakeOf(s)
    case Camal => C.CamalOf(s)
    case Kebab => C.KebabOf(s)
    case Pascal => C.Pascal(s)
    case SnakeNorm => C.SnakeNorm(s)
    case CamalNorm =>
      var r := C.CamalNorm(s);
      assert r != [] ==> r[0] in r && r[|r| - 1] in r;
      r
    case KebabNorm => C.KebabNorm(s)
    case PascalNorm =>
      var r := C.PascalNorm(s);
      assert r != [] ==> r[0] in r && r[|r| - 1] in r;
      r
    case Norm => C.Norm(s)
  }

  /** The converter as the callable `convert_keys_into` receives. */
  function KeyFn(c: Converter): string -> string
  {
    s => Apply(c, s)
  }

  /** Runs the converter, using the loops of `snake`, `kebab` and `camal`
      wherever the Python converter calls them. */
  method Convert(c: Converter, s: string) returns (r: string)
    ensures r == Apply(c, s)
  {
    match c
    case Lower => r := LowerAll(s);
    case Upper => r := UpperAll(s);
    case Title => r := Ascii.Title(s);
    case Snake => r := C.Snake(s);
    case Camal => r := C.Camal(s);
    case Kebab => r := C.Kebab(s);
    case Pascal =>
      var raw := C.Camal(s);
      r := C.UpperFirst(raw);
    case SnakeNorm =>
      var t := C.Snake(s);
      r := C.SnakeTidy(t);
    case CamalNorm =>
      var t := C.Camal(s);
      r := Strip(t);
    case KebabNorm =>
      var t := C.Kebab(s);
      r := C.KebabTidy(t);
    case PascalNorm =>
      var raw := C.Camal(s);
      r := Strip(C.UpperFirst(raw));
    case Norm => r := C.Norm(s);
  }

  /** `converter_functions`: the converters a user can select, in the order
      the command line lists them. */
  const ConverterFunctions: seq<Converter> := [Lower, Upper, Title, Snake, Camal, Kebab, Pascal]

  predicate IsFormat(c: Converter) { c in ConverterFunctions }

  /** A converter that `--format` accepts and that has its own flag. */
  type Format = c: Converter | IsFormat(c) witness Lower

  /** The converters defined at module level in `converters.py` (its other
      module-level names are not converters and are left out). */
  const ConvertersNamespace: seq<Converter> :=
    [Norm, Snake, SnakeNorm, Camal, CamalNorm, Kebab, KebabNorm, Pascal, PascalNorm]

  /** The converters `jfmt/__init__.py` and `script.py` import from the
      converters module: everything but `norm`. */
  const ImportedNamespace: seq<Converter> :=
    [Snake, SnakeNorm, Camal, CamalNorm, Kebab, KebabNorm, Pascal, PascalNorm]

  /** The three tables: `converter_functions` holds the three `str` methods and
      the four case converters, each once; `converters.py` defines the case
      converters, their companions and `norm`; the command-line modules import
      all of them except `norm`. Every companion sits in both namespaces. */
  lemma ConverterTables()
    ensures Distinct(ConverterFunctions) && Distinct(ConvertersNamespace) && Distinct(ImportedNamespace)
    ensures forall c :: c in ConverterFunctions <==> c == Lower || c == Upper || c == Title || Companion(c).Some?
    ensures forall c :: c in ConvertersNamespace <==> !(c == Lower || c == Upper || c == Title)
    ensures forall c :: c in ImportedNamespace <==> c in ConvertersNamespace && c != Norm
    ensures forall f :: Companion(f).Some? ==> Companion(f).value in ImportedNamespace
  {
  }

  /** Each selectable converter adds the short flag `-<first letter of its
      name>`. The letters differ from each other and from the parser's own
      `-h`, `-v`, `-i`, `-n` and `-f`, so no two options clash. */
  lemma ShortFlagsDistinct(a: Converter, b: Converter)
    requires a in ConverterFunctions && b in ConverterFunctions
    ensures a != b ==> Name(a)[0] != Name(b)[0]
    ensures Name(a)[0] !in "hvinf"
  {
  }

  /** `namespace.get(name)`: the converter of that name, if the namespace has one. */
  function Resolve(ns: seq<Converter>, name: string): (r: Option<Converter>)
    ensures r.Some? ==> r.value in ns && Name(r.value) == name
    ensures r.None? ==> forall c :: c in ns ==> Name(c) != name
  {
    if ns == [] then None
    else if Name(ns[0]) == name then Some(ns[0])
    else Resolve(ns[1..], name)
  }

  /** The converter that exists under the name `<name>_norm`, if any:
      only the four case converters have one. */
  function Companion(f: Converter): (g: Option<Converter>)
    ensures g.Some? ==> Name(g.value) == Name(f) + "_norm"
  {
    match f
    case Snake => Some(SnakeNorm)
    case Camal => Some(CamalNorm)
    case Kebab => Some(KebabNorm)
    case Pascal => Some(PascalNorm)
    case _ => None
  }

  /** `get_default_converter()`: a normalising converter that `converters.py`
      defines. */
  function GetDefaultConverter(): (r: Converter)
    ensures r in ConvertersNamespace && IsNormalising(r)
  {
    Norm
  }

  /** `get_norm_converter(f)`: `<name>_norm` from the converters module's
      namespace, or the default converter when there is none. */
  function GetNormConverter(f: Converter): (r: Converter)
    ensures r in ConvertersNamespace
    ensures r == GetDefaultConverter() || Name(r) == Name(f) + "_norm"
  {
    match Resolve(ConvertersNamespace, Name(f) + "_norm")
    case Some(g) => g
    case None => GetDefaultConverter()
  }

  /** `globals().get(f"{name}_norm", converter)` in the command-line modules:
      `<name>_norm` from the imported converters, or the converter itself. */
  function NamespaceNorm(f: Converter): (r: Converter)
    ensures r == f || (r in ImportedNamespace && Name(r) == Name(f) + "_norm")
  {
    match Resolve(ImportedNamespace, Name(f) + "_norm")
    case Some(g) => g
    case None => f
  }

  /** Every converter has its own name. */
  lemma NameInjective(a: Converter, b: Converter)
    ensures Name(a) == Name(b) ==> a == b
  {
  }

  /** Looking up a converter's own name in a namespace that holds it finds it. */
  lemma ResolveFinds(ns: seq<Converter>, g: Converter)
    requires g in ns
    ensures Resolve(ns, Name(g)) == Some(g)
  {
    var r := Resolve(ns, Name(g));
    if r.Some? {
      NameInjective(r.value, g);
    }
  }

  /** No converter defined in `converters.py` is named `<name>_norm` for a converter
      without a companion. */
  lemma NoCompanionName(f: Converter, c: Converter)
    requires Companion(f).None? && c in ConvertersNamespace
    ensures Name(c) != Name(f) + "_norm"
  {
    var key := Name(f) + "_norm";
    assert key[0] == Name(f)[0];
    if |Name(c)| == |key| {
      assert Name(c)[0] != key[0];
    }
  }

  /** `get_norm_converter` gives the `_norm` companion of snake, camal, kebab
      and pascal, and `norm` for every other converter (lower, upper, title). */
  lemma GetNormConverterTable(f: Converter)
    ensures GetNormConverter(f) == (match Companion(f) case Some(g) => g case None => Norm)
    ensures GetDefaultConverter() == Norm
  {
    match Companion(f)
    case Some(g) =>
      ResolveFinds(ConvertersNamespace, g);
    case None =>
      forall c | c in ConvertersNamespace
        ensures Name(c) != Name(f) + "_norm"
      {
        NoCompanionName(f, c);
      }
  }

  /** The namespace lookup of the command-line modules finds the same four
      companions, and leaves every other converter as it is. */
  lemma NamespaceNormTable(f: Converter)
    ensures NamespaceNorm(f) == (match Companion(f) case Some(g) => g case None => f)
  {
    GetNormConverterTable(f);
    match Resolve(ImportedNamespace, Name(f) + "_norm")
    case Some(g) =>
      NameInjective(g, Companion(f).value);
    case None =>
  }

  /** Whatever `get_norm_converter` picks never leaves a delimiter at either end
      of a converted key. */
  lemma GetNormConverterTrims(f: Converter, s: string)
    ensures var r := Apply(GetNormConverter(f), s);
      r == [] || (!IsDelim(r[0]) && !IsDelim(r[|r| - 1]))
  {
    GetNormConverterTable(f);
    var g := GetNormConverter(f);
    var r := Apply(g, s);
    if g == CamalNorm || g == PascalNorm {
      assert r != [] ==> r[0] in r && r[|r| - 1] in r;
    } else if g == SnakeNorm {
      assert r == C.SnakeNorm(s);
    } else if g == KebabNorm {
      assert r == C.KebabNorm(s);
    } else {
      assert g == Norm;
      assert r == C.Norm(s);
    }
  }

  // ---------------------------------------------------------------------------
  // command-line selection

  /** What the command line decides: refuse the flags, leave the data alone,
      or rewrite the keys with a converter. */
  datatype Decision = Reject | Keep | Rewrite(conv: Converter)

  predicate Distinct(p: seq<Converter>)
  {
    forall i, j :: 0 <= i < j < |p| ==> p[i] != p[j]
  }

  /** The members of `order` that are in `flags`, in the order of `order`. */
  function Selected(order: seq<Converter>, flags: set<Converter>): (p: seq<Converter>)
    ensures forall c :: c in p <==> c in order && c in flags
    ensures Distinct(order) ==> Distinct(p)
  {
    if order == [] then []
    else (if order[0] in flags then [order[0]] else []) + Selected(order[1..], flags)
  }

  /** The converters whose own flag is set, in `converter_functions` order. */
  function FlagsPresent(flags: set<Format>): (p: seq<Converter>)
    ensures |p| == |flags|
    ensures forall c :: c in p <==> c in flags
  {
    var p := Selected(ConverterFunctions, flags);
    DistinctCard(p);
    SelectedCovers(flags);
    p
  }

  lemma SelectedCovers(flags: set<Format>)
    ensures (set c | c in Selected(ConverterFunctions, flags)) == flags
  {
    var p := Selected(ConverterFunctions, flags);
    forall c | c in flags
      ensures c in p
    {
      assert IsFormat(c);
    }
  }

  lemma {:induction false} DistinctCard(p: seq<Converter>)
    requires Distinct(p)
    ensures |set c | c in p| == |p|
  {
    if p != [] {
      DistinctCard(p[1..]);
      assert (set c | c in p) == {p[0]} + (set c | c in p[1..]);
      assert p[0] !in (set c | c in p[1..]);
    }
  }
}
