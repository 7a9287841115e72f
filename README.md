# jfmt key conversion, modelled in Dafny

`jfmt` reformats a JSON file and can rewrite every key of every nested
object with a case converter. This project models three parts of it:

- the case-conversion library `converters.py`:
  - `snake`, `kebab` and `camal` (the project's spelling of camelCase);
  - `pascal`;
  - the `norm` cleanup, which collapses doubled delimiters and strips `-`/`_` from both ends;
  - the four `*_norm` variants;
  - `get_norm_converter` and `get_default_converter`.
- the key-rewriting walk `convert_keys_into`, in `jfmt/__init__.py` and again in `script.py`. It fills a caller-supplied dict in place. Nested dicts are rewritten into fresh dicts; every other value is copied as it is.
- the converter-selection rules of `main` in `jfmt/__init__.py`, and of the older top-level script `script.py`. They turn `--format`, the per-converter flags and `--norm` into "refuse", "leave the data alone" or "rewrite with converter C".

Modules:

| module | file | contents |
|---|---|---|
| `Wrappers` | `wrappers.dfy` | `Option` |
| `Ascii` | `ascii.dfy` | `isupper`, `lower`, `upper` and `title` on ASCII characters |
| `Delimiters` | `delimiters.dfy` | one-character `replace`, the pair-collapsing `replace(c + c, c)`, and `strip("-_")` |
| `Converters` | `converters.dfy` | the converters. `snake`, `kebab` and `camal` are methods with loops, each proved equal to a specification function (`SnakeOf`, `KebabOf`, `CamalOf`); the one-expression converters are functions. |
| `Registry` | `registry.dfy` | converters as named values, the `converter_functions` table, closed namespace tables in place of `globals()`, and `get_norm_converter` |
| `JsonKeys` | `json_keys.dfy` | the JSON value type, the ordered-map `Buffer` class, and `convert_keys_into` as a method proved against the function `Fill` |
| `Jfmt` | `jfmt.dfy` | the selection branch and the rest of `main` after argument parsing |
| `Script` | `script.dfy` | the same for `script.py`, related to `Jfmt` by lemmas |
| `GoldenVectors` | `golden_vectors.dfy` | properties proved on concrete keys and documents |

Behaviour of the code that a reader might not expect (the model follows the code):

- A leading capital turns off `_`/`-` insertion altogether. So `snake("FooBar")` is `"foobar"`, not `"foo_bar"`, and the document `{"FooBar": {"BazQux": 1}}` becomes `{"foobar": {"bazqux": 1}}` (`GoldenVectors.SnakeTree`).
- `norm` applies each pair replacement only twice. A run of k delimiters therefore becomes (k + 3) / 4 of them, and `norm` is not idempotent: `norm("a-----b")` is `"a--b"` and `norm("a--b")` is `"a-b"` (`Converters.NormRunBounds`, `GoldenVectors.NormNotIdempotent`).
- `convert_keys_into` calls `.items()` on the root. A root that is not an object makes `main` raise, rather than being written back unchanged. The model has an explicit `Raised` outcome for that case.
- `--format X --norm` looks `X_norm` up among the importing module's names and falls back to `X`. A single flag with `--norm` uses `get_norm_converter`, which falls back to `norm`. So the two paths differ for `lower`, `upper` and `title` (`Jfmt.FallbacksDiffer`).

## Model

| member | source | states |
|---|---|---|
| Ascii.ToLower | converters.py:36 | `c.lower()`: never upper case, keeps whether the character is a letter, and leaves every non-capital unchanged |
| Ascii.ToUpper | converters.py:57 | `c.upper()`: never lower case, keeps whether the character is a letter, and leaves every non-lower-case character unchanged |
| Ascii.IsUpper | converters.py:30 | `c.isupper()` on ASCII: exactly the capitals `A` to `Z`; used by `snake`/`kebab` at lines 30 and 34 |
| Ascii.LowerOfUpper | converters.py:92 | lower-casing after upper-casing equals lower-casing directly |
| Ascii.LowerAll | jfmt/__init__.py:44 | `str.lower`: same length, no upper-case letter left, each position the same letter as before up to case, and every character that is not a capital copied |
| Ascii.UpperAll | jfmt/__init__.py:45 | `str.upper`: same length, no lower-case letter left, each position the same letter as before up to case, and every character that is not lower case copied |
| Ascii.Title | jfmt/__init__.py:46 | `str.title`: same length; each position is a letter exactly when it was one before, the same letter up to case, and every non-letter is copied |
| Ascii.TitleIdempotent | jfmt/__init__.py:46 | applying `str.title` twice gives the same result as applying it once |
| Ascii.TitleWordStarts | jfmt/__init__.py:46 | after `str.title`, a letter that starts a word is upper case and any other letter is lower case |
| Delimiters.ReplaceChar | converters.py:32 | `s.replace(a, b)` on single characters: same length, and no `a` remains when `a` and `b` differ |
| Delimiters.CollapsePairs | converters.py:20 | `s.replace(c + c, c)`: never longer, and keeps the first and last characters |
| Delimiters.CollapseAddsNothing | converters.py:41-43 | collapsing pairs brings in no character that was not already there |
| Delimiters.DropLeading | converters.py:24 | the leading half of `strip("-_")`: removes a prefix made only of delimiters, and the result does not start with one |
| Delimiters.DropTrailing | converters.py:24 | the trailing half of `strip("-_")`: removes a suffix made only of delimiters, and the result does not end with one |
| Delimiters.Strip | converters.py:24 | `strip("-_")`: no delimiter at either end of the result |
| Delimiters.DropLeadingKeeps | converters.py:24 | removing leading delimiters keeps every other character, in order, and adds nothing |
| Delimiters.DropTrailingKeeps | converters.py:24 | removing trailing delimiters keeps every other character, in order, and adds nothing |
| Delimiters.StripKeeps | converters.py:24 | `strip("-_")` keeps every non-delimiter character, in order, and adds nothing |
| Delimiters.CollapseKeepsNonDelims | converters.py:20-23 | collapsing pairs of a delimiter keeps every non-delimiter character, in order |
| Delimiters.CollapseSplit | converters.py:20 | when no pair straddles the join, collapsing a concatenation collapses each part on its own |
| Delimiters.CollapseSplitStep | converters.py:20 | the inductive step of `CollapseSplit`: the first one or two characters of the left part collapse on their own |
| Delimiters.CollapseRun | converters.py:20 | left-to-right, non-overlapping replacement turns a run of k copies into (k + 1) / 2 copies |
| Delimiters.CollapseTwiceSplit | converters.py:20-21 | the two successive replacements also act on each part on its own across a clean join |
| Delimiters.CollapseTwiceRun | converters.py:20-21 | two successive replacements turn a maximal run of k >= 1 copies into (k + 3) / 4 copies and leave the text on either side to be collapsed on its own |
| Delimiters.CollapseTwiceOfRun | converters.py:20-21 | two successive replacements turn a run of k copies into (k + 3) / 4 copies |
| Delimiters.CollapseOtherRun | converters.py:22-23 | collapsing pairs of `_` leaves a run of `-` untouched, and the other way round |
| Converters.SplitsBefore | converters.py:33-34 | the insertion rule of `snake`/`kebab`: an inner position (neither the first nor the last) holding a capital, when the first character is not a capital. `SeparatedLayout` and `MarksZero` state what follows from it |
| Converters.SeparatedShape | converters.py:32-36 | the output of the `snake`/`kebab` loop holds no delimiter except the target one, and no upper-case letter |
| Converters.SeparatedLayout | converters.py:32-36 | the loop's output has length `|s|` + number of insertions. Input position i lands, swapped and lower-cased, at its slot; an inserted delimiter sits just before it exactly where the loop inserts one |
| Converters.SeparatedLength | converters.py:32-36 | the loop's output has the input length plus one per insertion |
| Converters.SeparatedSlot | converters.py:32-36 | input position i comes out, swapped and lower-cased, at index i + (insertions up to and including i) |
| Converters.SeparatedMark | converters.py:33-35 | where the loop inserts before position i, the inserted delimiter sits just before position i's slot |
| Converters.MarksZero | converters.py:30-34 | with a capital at position 0, no delimiter is ever inserted |
| Converters.SeparatedLeadingUpper | converters.py:30-36 | with a capital at position 0, the output is the input with the other delimiter replaced and every letter lower-cased |
| Converters.SnakeOf | converters.py:27-37 | `snake`: no `-` and no upper-case letter in the result, and `""` maps to `""` |
| Converters.KebabOf | converters.py:69-79 | `kebab`: no `_` and no upper-case letter in the result, and `""` maps to `""` |
| Converters.Snake | converters.py:27-37 | the loop of `snake` computes `SnakeOf` |
| Converters.Kebab | converters.py:69-79 | the loop of `kebab` computes `KebabOf` |
| Converters.CamalChar | converters.py:55-61 | what the `camal` loop writes for a kept position: upper-cased after a dropped delimiter, lower-cased at position 0, copied otherwise. `CamalLayout` places it |
| Converters.CamalLayout | converters.py:47-62 | `camal` output length is `|s|` minus the number of delimiters at index >= 1. Each kept position i lands at i minus the drops before it, lower-cased at 0, upper-cased after a dropped delimiter, and copied otherwise |
| Converters.CamalLength | converters.py:47-62 | the `camal` output is as long as the input minus the dropped delimiters |
| Converters.CamalSlot | converters.py:50-61 | each kept input position lands at its index minus the drops before it, with the case the loop gives it |
| Converters.CamalShape | converters.py:47-62 | the `camal` output is empty exactly when the input is. Position 0 is the lower-cased first input character, and no later position holds a delimiter |
| Converters.CamalOf | converters.py:47-62 | `camal`: empty exactly on empty input, first character lower-cased, no delimiter after position 0 |
| Converters.Camal | converters.py:47-62 | the loop of `camal`, with its `was_binder` flag, computes `CamalOf` |
| Converters.UpperFirst | converters.py:90-92 | `raw[0].upper() + raw[1:]`, with the empty string returned as it is. `Pascal` and `PascalToCamal` state its effect |
| Converters.Pascal | converters.py:88-92 | `pascal(s)` is as long as `camal(s)`, starts with the upper-cased first character of `s`, agrees with `camal(s)` after position 0, and has no delimiter after position 0 |
| Converters.PascalToCamal | converters.py:88-92 | lower-casing the first character of `pascal(s)` gives back `camal(s)` |
| Converters.Collapsed | converters.py:20-23 | the four pair replacements of `norm`, in source order. `CollapsedRun`, `CollapsedWord` and `NormRunBounds` state what they do to runs |
| Converters.Norm | converters.py:19-24 | `norm`: no delimiter at either end, every non-delimiter character kept in order, and `""` maps to `""` |
| Converters.CollapseTwiceEnds | converters.py:20-21 | the double replacement keeps the first and last characters |
| Converters.CollapseTwiceOtherRun | converters.py:20-23 | collapsing one delimiter leaves a run of any other character alone, and acts on either side on its own |
| Converters.CollapsedRun | converters.py:20-23 | the four replacements of `norm` turn a maximal run of k >= 1 copies of `-` or `_` into (k + 3) / 4 copies, and act on either side on its own |
| Converters.CollapseAbsent | converters.py:20-23 | text without the delimiter is not changed by collapsing it |
| Converters.CollapsedWord | converters.py:20-23 | text without delimiters passes the four replacements unchanged |
| Converters.StripClean | converters.py:24 | `strip("-_")` leaves a string alone when neither end is a delimiter |
| Converters.NormJoin | converters.py:19-24 | `norm` on two delimiter-free words around a run of k >= 1 copies of one delimiter keeps the words and leaves (k + 3) / 4 copies |
| Converters.NormRunBounds | converters.py:19-24 | runs of 1 to 4 between words become one delimiter. A run of 5 or more does not, and `norm` applied again changes the result, so `norm` is not idempotent |
| Converters.StripInner | converters.py:66 | stripping a string whose only possible delimiter is at position 0 leaves no delimiter at all |
| Converters.SnakeTidy | converters.py:41-44 | the cleanup `snake_norm` applies to `snake`'s output: `-` to `_`, two pair collapses of `_`, and the strip. `SnakeNorm` states the result |
| Converters.SnakeNorm | converters.py:40-44 | `snake_norm`: no `-` anywhere and no delimiter at either end |
| Converters.KebabTidy | converters.py:83-85 | the cleanup `kebab_norm` applies to `kebab`'s output: two pair collapses of `-` and the strip. `KebabNorm` states the result |
| Converters.KebabNorm | converters.py:82-85 | `kebab_norm`: no `_` anywhere and no delimiter at either end |
| Converters.CamalNorm | converters.py:65-66 | `camal_norm`: no delimiter anywhere |
| Converters.PascalNorm | converters.py:95-96 | `pascal_norm`: no delimiter anywhere |
| Registry.Name | jfmt/__init__.py:122-123 | the `__name__` of each converter, never empty, since its first character becomes the short flag |
| Registry.Apply | converters.py:19-96 | calling a converter: `lower`, `upper` and `title` keep the key's length, and `norm` and every `*_norm` leave no delimiter at either end |
| Registry.Convert | converters.py:19-96 | calling a converter, using the loops of `snake`, `kebab` and `camal` where the Python converter does, gives the converter's value |
| Registry.ConverterTables | jfmt/__init__.py:19-51 | `converter_functions` holds `lower`, `upper`, `title` and the four case converters, each once. `converters.py` defines the case converters, their `_norm` companions and `norm`, and the command-line modules import all of those except `norm` |
| Registry.ShortFlagsDistinct | jfmt/__init__.py:121-128 | the short flags `-<first letter>` of the seven converters differ from each other and from `-h`, `-v`, `-i`, `-n` and `-f` |
| Registry.Resolve | converters.py:16 | `namespace.get(name)`: a found converter is in the namespace and has that name; when nothing is found, no converter of the namespace has that name |
| Registry.Companion | converters.py:7 | a `_norm` companion's name is the converter's name followed by `_norm` |
| Registry.NameInjective | jfmt/__init__.py:64-66 | different converters have different `__name__`s, so the name-keyed mapping loses none |
| Registry.ResolveFinds | converters.py:16 | looking up a converter's own name in a namespace that holds it finds exactly that converter |
| Registry.NoCompanionName | converters.py:16 | no converter that `converters.py` defines is named `lower_norm`, `upper_norm`, `title_norm`, or the `_norm` name of a `*_norm` or of `norm` |
| Registry.GetDefaultConverter | converters.py:10-11 | `get_default_converter()` returns a normalising converter that `converters.py` defines (`norm`) |
| Registry.GetNormConverter | converters.py:14-16 | `get_norm_converter(f)` returns a converter of `converters.py`: either one named `<name>_norm` or the default |
| Registry.NamespaceNorm | jfmt/__init__.py:173 | `globals().get(f"{name}_norm", converter)`: either the converter itself, or an imported converter named `<name>_norm`. The identical line 114 of `script.py` is modelled by the same function |
| Registry.GetNormConverterTable | converters.py:10-16 | `get_norm_converter` gives `snake_norm`, `camal_norm`, `kebab_norm` and `pascal_norm` for the four case converters and `norm` for every other one; `get_default_converter()` is `norm` |
| Registry.NamespaceNormTable | jfmt/__init__.py:172-173 | `globals().get(f"{name}_norm", converter)` finds the same four companions and leaves every other converter as it is |
| Registry.GetNormConverterTrims | converters.py:14-16 | whichever converter `get_norm_converter` returns never leaves a delimiter at either end of a key |
| Registry.Selected | jfmt/__init__.py:159-163 | the list comprehension over `format_action.choices` holds exactly the chosen converters, each once when the order is repetition-free |
| Registry.FlagsPresent | jfmt/__init__.py:177 | the flags present, in `converter_functions` order: as many as there are flags, and exactly the flags given |
| JsonKeys.Assign | jfmt/__init__.py:60 | `buffer[k] = v`: a present key keeps its place and a new key is appended; `k` now maps to `v`; every other key keeps its value |
| JsonKeys.AssignKeepsDistinct | jfmt/__init__.py:60 | assignment keeps the keys of the ordered map distinct |
| JsonKeys.Converted | jfmt/__init__.py:56-60 | the value stored for a source value is an object exactly when the source value is one; any other value (an array with objects inside included) is stored unchanged |
| JsonKeys.FillFrom | jfmt/__init__.py:55-60 | the state the loop leaves once the pairs from position i on are done: each pair assigned under its converted key in order, a nested object first converted into a fresh map. Its properties are the `Fill*` lemmas below |
| JsonKeys.Fill | jfmt/__init__.py:54-60 | the whole walk over a mapping into a buffer; `ConvertKeysInto` is proved to compute it |
| JsonKeys.FillFromSuffix | jfmt/__init__.py:55 | resuming the loop at position i is walking the remaining pairs |
| JsonKeys.FillFromStep | jfmt/__init__.py:55-60 | one iteration of the loop: the pair at i is stored under its converted key, with a nested object converted first |
| JsonKeys.FillStep | jfmt/__init__.py:55-60 | one iteration of the loop on the first pair |
| JsonKeys.FillOne | jfmt/__init__.py:55-60 | a one-pair mapping gives one entry under the converted key with the converted value |
| JsonKeys.FillTwoSteps | jfmt/__init__.py:55-60 | a two-pair mapping is the first pair's entry followed by the assignment of the second |
| JsonKeys.FillTwo | jfmt/__init__.py:55-60 | two pairs with different converted keys give two entries in source order; a collision gives one entry holding the second value |
| JsonKeys.FillKeepsDistinct | jfmt/__init__.py:55-60 | the buffer's keys stay distinct through the walk |
| JsonKeys.FillOrder | jfmt/__init__.py:55-60 | buffer keys keep their order, and each new converted key is appended at its first occurrence; re-assigning a key never moves it |
| JsonKeys.FillKeySet | jfmt/__init__.py:55-60 | the resulting keys are exactly the buffer's keys together with the converted source keys |
| JsonKeys.FillSize | jfmt/__init__.py:55-60 | from an empty buffer, at most one entry per source key |
| JsonKeys.FillSizeInjective | jfmt/__init__.py:55-60 | when the converted keys are pairwise different and new to the buffer, each source pair adds exactly one entry |
| JsonKeys.FillSizeExact | jfmt/__init__.py:55-60 | from an empty buffer, with distinct source keys and a converter injective on them, exactly one entry per source key |
| JsonKeys.FillLastWins | jfmt/__init__.py:55-60 | the value under a converted key is the converted value of the last source pair whose key converts to it |
| JsonKeys.FillFromLastWins | jfmt/__init__.py:55-60 | the same, for the loop resumed at any position up to that pair |
| JsonKeys.FillUntouched | jfmt/__init__.py:55-60 | a buffer entry whose key no converted key hits keeps its value |
| JsonKeys.FillFromUntouched | jfmt/__init__.py:55-60 | the same, for the loop resumed at any position |
| JsonKeys.Buffer.constructor | jfmt/__init__.py:57 | `dict()`: a fresh, empty ordered map |
| JsonKeys.Buffer.Put | jfmt/__init__.py:60 | `buffer[k] = v` on the object: the new entries are the ordered-map assignment, and keys stay distinct |
| JsonKeys.ConvertKeysInto | jfmt/__init__.py:54-60 | the in-place loop leaves the buffer holding `Fill` of its old contents and the mapping, with keys distinct; only the buffer is written. The copy at script.py lines 93-99 has the same body and is modelled by the same method |
| JsonKeys.StoreConverted | jfmt/__init__.py:56-60 | the loop body: a nested object is converted into a fresh dict stored under the converted key; any other value is stored verbatim |
| JsonKeys.ConvertKeys | jfmt/__init__.py:170-175 | `result = dict(); convert_keys_into(converter, data, result)`: the result is the walk from an empty buffer, with distinct keys, and its keys are exactly the converted source keys |
| Jfmt.Decide | jfmt/__init__.py:158-205 | the selection branch of `main`: refuse, keep the data, or rewrite with a converter. `DecideRejects`, `DecideFormat`, `DecideSingleFlag`, `DecideNone` and `FallbacksDiffer` state its outcomes |
| Jfmt.DecideRejects | jfmt/__init__.py:158-194 | the command line is refused (status 4) exactly when `--format` comes with any converter flag, or when two or more converter flags come without it |
| Jfmt.DecideFormat | jfmt/__init__.py:170-175 | `--format f` selects `f`; with `--norm` it selects `f`'s `_norm` companion, or `f` itself when there is none |
| Jfmt.DecideSingleFlag | jfmt/__init__.py:195-205 | a single converter flag selects that converter; with `--norm` it selects the companion, or `norm` when there is none |
| Jfmt.DecideNone | jfmt/__init__.py:177-183 | with no format choice, `--norm` rewrites with `norm` and no flag leaves the data alone |
| Jfmt.FallbacksDiffer | jfmt/__init__.py:172-173 | for a converter without a companion, `--format f --norm` keeps `f`, while the single flag with `--norm` uses `norm` |
| Jfmt.MainResult | jfmt/__init__.py:132-212 | `main` after parsing returns 1, 2 or 3 for a missing path, a non-file and bad JSON, and 4 when the flags are refused. It writes the data unchanged when nothing is selected, raises exactly when a rewrite meets a non-object root, and otherwise returns 0 with an object |
| Jfmt.Rewritten | jfmt/__init__.py:174-175 | the rewrite raises exactly on a non-object root and otherwise saves an object with status 0 |
| Jfmt.RewriteKeys | jfmt/__init__.py:170-175 | running `convert_keys_into` on a fresh dict gives `Rewritten` |
| Jfmt.MainResultKeys | jfmt/__init__.py:174-175 | a rewritten file holds each converted key of the original exactly once and no other key |
| Jfmt.RunMain | jfmt/__init__.py:132-212 | the body of `main` after parsing computes `MainResult` |
| Script.Decide | script.py:103-144 | the selection branch of `script.py`. `DecideRejects`, `DecideAgrees` and `NeverKeeps` state its outcomes |
| Script.DecideRejects | script.py:103-133 | `parser.error` is reached exactly when `--format` comes with any converter flag, when two or more flags come without it, or when there is no flag and no `--norm` |
| Script.DecideAgrees | script.py:102-144 | the script decides as `jfmt` does, except that it refuses where `jfmt` leaves the data alone |
| Script.NeverKeeps | script.py:119-126 | the script never leaves the keys unconverted once it accepts the command line |
| Script.ScriptResult | script.py:72-150 | a missing path or a directory makes `open` raise, and bad JSON ends with `exit()`, status 0. Refused flags end with status 2; a written file is an object and the status is 0 |
| Script.ScriptMatchesJfmt | script.py:102-144 | where the script writes the file, `jfmt` writes the same data; where only `jfmt` writes, it is the case `jfmt` leaves alone and the script refuses |
| Script.RunScript | script.py:72-150 | the script after parsing computes `ScriptResult` |
| GoldenVectors.SnakeFooBar | converters.py:27-37 | `snake("fooBar") == "foo_bar"` |
| GoldenVectors.KebabFooBar | converters.py:69-79 | `kebab("fooBar") == "foo-bar"` |
| GoldenVectors.SnakeLastCapital | converters.py:33 | `snake("fooB") == "foob"`: no `_` before the last position |
| GoldenVectors.SnakeCapitalRun | converters.py:33-36 | `snake("fooBAR") == "foo_b_ar"` |
| GoldenVectors.SnakeHttpServer | converters.py:30-36 | `snake("HTTPServer") == "httpserver"` |
| GoldenVectors.SnakeCapitalFooBar | converters.py:30-36 | `snake("FooBar") == "foobar"` |
| GoldenVectors.SnakeCapitalBazQux | converters.py:30-36 | `snake("BazQux") == "bazqux"` |
| GoldenVectors.SnakeArr | converters.py:27-37 | `snake("arr") == "arr"` |
| GoldenVectors.CamalFooBar | converters.py:47-62 | `camal("foo_bar") == "fooBar"` and `pascal("foo_bar") == "FooBar"` |
| GoldenVectors.CamalDoubleDelimiter | converters.py:47-62 | `camal("foo__bar") == "fooBar"` |
| GoldenVectors.CamalCapitalStart | converters.py:58-59 | `camal("Foo-Bar") == "fooBar"` |
| GoldenVectors.CamalLeadingDelimiter | converters.py:51 | `camal("_a") == "_a"` |
| GoldenVectors.CamalLeadingPair | converters.py:51-57 | `camal("__a") == "_A"` |
| GoldenVectors.CamalTrailingDelimiter | converters.py:52-54 | `camal("foo_") == "foo"` |
| GoldenVectors.CamalLeadingWord | converters.py:47-62 | `camal("_foo") == "_foo"` |
| GoldenVectors.PascalLeadingDelimiter | converters.py:88-96 | `pascal("_foo") == "_foo"` and `pascal_norm("_foo") == "foo"` |
| GoldenVectors.StripLeadingOne | converters.py:96 | `"_foo".strip("-_") == "foo"` |
| GoldenVectors.CollapseShortKebabInner | converters.py:20 | `"a__b--".replace("--", "-") == "a__b-"` |
| GoldenVectors.CollapseShortKebabFirst | converters.py:20 | `"--a__b--".replace("--", "-") == "-a__b-"` |
| GoldenVectors.CollapseShortKebabSecondInner | converters.py:21 | `"a__b-".replace("--", "-") == "a__b-"` |
| GoldenVectors.CollapseShortKebabSecond | converters.py:21 | `"-a__b-".replace("--", "-") == "-a__b-"` |
| GoldenVectors.CollapseShortTailFirst | converters.py:22 | `"-a__b-".replace("__", "_") == "-a_b-"` |
| GoldenVectors.CollapseShortTailSecond | converters.py:23 | `"-a_b-".replace("__", "_") == "-a_b-"` |
| GoldenVectors.CollapseShortRuns | converters.py:20-23 | the four replacements of `norm` take `"--a__b--"` to `"-a_b-"` |
| GoldenVectors.DropLeadingShortRuns | converters.py:24 | the leading strip of `"-a_b-"` is `"a_b-"` |
| GoldenVectors.DropTrailingShortRuns | converters.py:24 | the trailing strip of `"a_b-"` is `"a_b"` |
| GoldenVectors.StripShortRuns | converters.py:24 | `"-a_b-".strip("-_") == "a_b"` |
| GoldenVectors.NormShortRuns | converters.py:19-24 | `norm("--a__b--") == "a_b"` |
| GoldenVectors.StripWord | converters.py:24 | `strip("-_")` leaves alone any string that starts with `a` and ends with `b` |
| GoldenVectors.CollapseLongRunFirst | converters.py:20 | `"a-----b".replace("--", "-") == "a---b"` |
| GoldenVectors.CollapseLongRunSecond | converters.py:21 | `"a---b".replace("--", "-") == "a--b"` |
| GoldenVectors.CollapseLongRun | converters.py:20-23 | the four replacements take `"a-----b"` to `"a--b"` |
| GoldenVectors.NormLongRun | converters.py:19-24 | `norm("a-----b") == "a--b"` |
| GoldenVectors.CollapsePair | converters.py:20-23 | the four replacements take `"a--b"` to `"a-b"` |
| GoldenVectors.NormPair | converters.py:19-24 | `norm("a--b") == "a-b"` |
| GoldenVectors.NormNotIdempotent | converters.py:19-24 | `norm(norm("a-----b")) != norm("a-----b")` |
| GoldenVectors.SnakeTree | jfmt/__init__.py:54-60 | with `snake`, `{"FooBar": {"BazQux": 1}, "arr": [{"NotConverted": 2}]}` becomes `{"foobar": {"bazqux": 1}, "arr": [{"NotConverted": 2}]}`: the nested object is converted, the object inside the array is not |
| GoldenVectors.SnakeDashed | converters.py:32 | `snake("a-b") == "a_b"` |
| GoldenVectors.SnakeUnderscored | converters.py:27-37 | `snake("a_b") == "a_b"` |
| GoldenVectors.SnakeCollision | jfmt/__init__.py:55-60 | with `snake`, `{"a-b": 1, "a_b": 2}` becomes `{"a_b": 2}`: one entry, the last value |
| GoldenVectors.CamalUserName | converters.py:47-62 | `camal("user-name") == "userName"` |
| GoldenVectors.CamalUserAge | converters.py:47-62 | `camal("userAge") == "userAge"` |
| GoldenVectors.CamalDocument | jfmt/__init__.py:55-60 | with `camal`, `{"user-name": "x", "userAge": 5}` becomes `{"userName": "x", "userAge": 5}`, in the same order |

## Left out

- Argument parsing, path resolution and the file system are not modelled. `main` and the script start from the outcome of reading and decoding the file (`Jfmt.Input`).
- `json.load`, `json.dump` and the indent width are not modelled either.
- Logging, console output, the ANSI colour strings of `script.py` and the wording of error messages: console effects, with no logic to prove.
- Unicode case rules: `str.lower`, `str.upper`, `str.isupper` and `str.title` are modelled on ASCII letters only. Other characters are treated as uncased.
- `Ascii.Title`: models `str.title` on ASCII, where a word starts after any character that is not an ASCII letter.
- `globals()`: each lookup becomes a closed table of the converters the module defines or imports (`Registry.ConvertersNamespace`, `Registry.ImportedNamespace`). The other module-level names (`EMPTY`, `KEBAB`, `TAIL`, `NORM_SUFFIX`, `get_default_converter`, `get_norm_converter`, the `typing`, `argparse` and logging imports) are not in the tables. Reading the source, none of them ends in `_norm`, so no `<name>_norm` lookup can find one. That is a reading of the code, not a proved fact.
- `annotations.py` and `jfmt/annotations.py` hold only type aliases and argument namespace declarations.
- `jfmt/converters.py` is not part of this model. `jfmt/__init__.py` imports it, and `converters.py` stands in for it.
- `default_converter` in `script.py` (line 41) is never read, so it is not modelled.
- JSON numbers are integers and JSON objects are lists of pairs. The walk copies every non-object value without looking at it.
- `JsonKeys.StoreConverted`: Python stores an empty child dict and then fills it through the alias `buffer[converter(key)]`. The model fills a fresh `Buffer` first and then stores its entries. The final state is the same, but the aliasing itself is not modelled.
- `JsonKeys.ConvertKeysInto` receives the converter as a mathematical function `string -> string`, so the model relies on the converter being deterministic. Python calls it twice per nested key.
- A non-JSON-object root makes `convert_keys_into` raise inside `main`. This is the `Raised` outcome; what Python then prints is not modelled.

