# Troop client option resolver, in Dafny

Troop is a collaborative live-coding tool. Before its client opens a session
with a Troop server, `run-client.py` builds one `options` dictionary and
changes it step by step:

1. it starts with the language mode (`lang`) and the logging switch (`logging`);
2. it merges the entries of a configuration file, when a path was given and
   names an existing file, and prints a diagnostic when a given path is not a file;
3. under `--public` it sets `host` and `port` to the public server pair;
4. a non-empty `--host` or `--port` replaces that option;
5. under `--cli` it prompts for each of `host`, `port`, `name` and `password`
   that is still absent (spaces in a prompted name become underscores);
6. a non-empty interpreter argument list is stored under `args`;
7. `get_info` is set to whether some required option is missing;
8. a table-driven loop turns a text `port` into an integer and a text
   `get_info` into a boolean; a port that is not a number stops the client.

The model keeps this shape. `Stages` states each step as a function from
the mapping before it to the mapping after it; these functions are the
specification. `Resolver.Resolve` is the imperative resolver: it threads one
`options` variable through the same steps, with the completeness test as a
loop that breaks at the first missing option (`Resolver.FlagCompleteness`)
and the coercion as a loop over the table (`Coercion.CoerceOptions`), and
it is proved equal to the composition of the stage functions. The
properties of the resolver (the precedence of the sources, fill-only-if-
absent prompting, the meaning of `get_info`, what coercion does and when it
fails) are lemmas about that composition.

Values are the tagged union `VStr | VInt | VBool | VList`, and the
dictionary is a `map<string, Value>`. The type test `get_string_type`
(`run-client.py:112-121`) is the test `v.VStr?`.

Everything the script takes from outside is an input: the parsed
command line (`Stages.Flags`), whether the configuration path names a file,
what reading that file yields, the public server pair and the answers the
prompts return (`Stages.Environment`). What is printed and what is asked is
returned: `Resolve` yields the diagnostic it printed and the list of prompts
it put, in order, so that "no prompt happens" can be stated.

Two facts of the code are modelled as written:

- Prompting is gated by `--cli` alone. `get_info` is computed only after
  prompting (`run-client.py:88`, `run-client.py:123-128`), so without `--cli`
  a missing option is never prompted for and `get_info` comes out true
  (`Resolver.NoFlagsScenario`).
- `get_info` is always set to a boolean before coercion, overwriting any
  value from the configuration file, so the text-to-boolean converter of
  the table never applies to it (`Resolver.GetInfoReportsMissing`).

The diagnostic always names `client.cfg`, whatever path was given; the model
keeps that text.

## Model

| member | source | states |
|---|---|---|
| `Stages.Seed` | run-client.py:54 | the initial mapping holds exactly `lang` = mode flag and `logging` = log flag |
| `Stages.Diagnostic` | run-client.py:56-73 | a message is printed exactly when a configuration path was given that is not an existing file, and it is the fixed text naming `client.cfg` |
| `Stages.MergeConfig` | run-client.py:56-73 | file entries are merged in only when a path was given and names a file; they win over same-named options and the rest is kept; otherwise the mapping is unchanged |
| `Stages.ApplyPublic` | run-client.py:75-78 | `--public` sets `host` and `port` to the public pair and changes no other option; without it nothing changes |
| `Stages.ApplyExplicit` | run-client.py:80-86 | a non-empty `--host`/`--port` becomes that option; an absent or empty one changes nothing; no other option changes |
| `Stages.FillMissing` | run-client.py:88-104 | options already present are never overwritten; under `--cli` all four required options are present afterwards and a prompted name has no space; without `--cli` nothing is added |
| `Stages.PromptsFor` | run-client.py:88-104 | without `--cli` nothing is asked; under it every prompt is one of the four, they come in host, port, name, password order with none repeated, and each is put exactly when its option is absent |
| `Stages.AskNext` | run-client.py:88-104 | one more `if key not in options` test keeps the prompts in order, free of repeats, and put exactly for the absent options tested so far |
| `Stages.PromptsInOrder` | run-client.py:88-104 | the four tests together put only the four prompts, in order, each exactly when its option is absent |
| `Stages.AttachArgs` | run-client.py:108-110 | `args` is set to the remainder list exactly when that list is non-empty, otherwise the mapping is unchanged |
| `Stages.Completed` | run-client.py:123-128 | `get_info` is added (or replaced) with "some required option is missing"; nothing else changes |
| `Resolver.CollectFromSources` | run-client.py:54-86 | the in-place steps before prompting give the seed, file, public-pair and flag stages composed, and the diagnostic |
| `Resolver.PromptForMissing` | run-client.py:88-104 | the in-place prompting step gives the fill stage and puts exactly the prompts of the prompt stage |
| `Resolver.FlagCompleteness` | run-client.py:123-128 | the flag-and-break loop sets `get_info` to true exactly when some required option is absent, adds only that key and keeps the others, as the completeness stage does |
| `Coercion.Convert` | run-client.py:130-136 | applying a row's converter fails exactly when it is `int` and the text is not a decimal literal; `int` gives the literal's number |
| `Coercion.TableKeysAll` | run-client.py:130-133 | the rows of the table `CoercionTable` cover exactly the options `port` and `get_info` |
| `Coercion.RowConverts` | run-client.py:130-136 | each row's converter, on text it accepts, gives what the coercion of that row's option should be |
| `Coercion.ConvertRow` | run-client.py:134-136 | converting a row's text option extends the coerced prefix of the table by that row |
| `Coercion.SkipRow` | run-client.py:134-135 | a row whose option is absent or not text extends the coerced prefix without any change |
| `Coercion.CoerceOptions` | run-client.py:130-136 | the table loop gives the per-option reference coercion: failure exactly on a non-numeric text port, otherwise each listed text value converted |
| `Resolver.Resolve` | run-client.py:54-136 | the whole in-place resolution equals the composed stages, with the diagnostic and prompts they predict |
| `Coercion.Coerce` | run-client.py:130-136 | coercion fails exactly when the port is text that is not a decimal literal; otherwise no key is added or lost |
| `Coercion.TextPortCoercion` | run-client.py:130-136 | a text port becomes its integer value, and coercion succeeds exactly when the text is a decimal literal |
| `Coercion.TextGetInfoCoercion` | run-client.py:130-136 | a text `get_info` becomes the boolean the converter gives: true exactly on a padded `true` |
| `Coercion.NonTextUnchanged` | run-client.py:134-136 | the `get_string_type` gate: a value that is not text (an integer port from the public pair, a boolean `get_info`) passes unchanged |
| `Coercion.UnlistedUnchanged` | run-client.py:130-136 | options the table does not list keep their values |
| `Coercion.CoerceIdempotent` | run-client.py:130-136 | after coercion neither `port` nor `get_info` holds text, so coercing again changes nothing |
| `Text.ParseDecimal` | run-client.py:131 | the modelled `int` on text succeeds exactly on non-empty all-digit text, of any length (the differences from Python are under "Left out") |
| `Text.ParseToDecimal` | run-client.py:131 | reading back the decimal literal of any number gives that number |
| `Text.ToDecimalOfParse` | run-client.py:131 | a literal without a superfluous leading zero is the literal of the number it reads as |
| `Text.LeadingZero` | run-client.py:131 | a leading zero does not change the number a literal reads as, so `08080` reads as 8080; with the round trips this fixes the number of every accepted literal |
| `Text.PortLiteralExamples` | run-client.py:131 | `"57890"` and `"057890"` read as 57890; `"abc"` and the empty text fail |
| `Text.StripLeft` | run-client.py:132 | `strip` on the left removes exactly the leading whitespace: a suffix starting with a non-space remains |
| `Text.StripRight` | run-client.py:132 | `strip` on the right removes exactly the trailing whitespace: a prefix ending with a non-space remains |
| `Text.StripPadded` | run-client.py:132 | stripping whitespace padding returns the core unchanged |
| `Text.Strip` | run-client.py:132 | `strip` removes only whitespace: the input is the result with whitespace before and after it |
| `Text.StripEnds` | run-client.py:132 | `strip` leaves nothing strippable: a non-empty result starts and ends with a non-space |
| `Text.Lower` | run-client.py:132 | `lower` keeps the length, maps each ASCII capital to its small letter, keeps every other character, and leaves no capital |
| `Text.ParseBool` | run-client.py:132 | the `get_info` converter gives true exactly when the text is the word `true` in some case with only whitespace around it |
| `Text.StrippedTrueIsPadded` | run-client.py:132 | whatever the `get_info` converter maps to true is the word `true` in some case, with only whitespace around it |
| `Text.PaddedIsStrippedTrue` | run-client.py:132 | the word `true` in any case, with any whitespace around it, converts to true |
| `Text.ReplaceSpaces` | run-client.py:100 | every space of a prompted name becomes `_`, every other character stays in place, and no space remains |
| `Resolver.HostPrecedence` | run-client.py:75-92 | the host before coercion is the non-empty `--host`, else the public host, else the file's host, else under `--cli` the prompted host, else absent |
| `Resolver.PortPrecedence` | run-client.py:75-96 | the port before coercion follows the same order: `--port`, public pair, file, prompt, absent |
| `Resolver.AfterConfig` | run-client.py:54-73 | after the configuration step an option other than `lang`/`logging` is the file's entry if the file was loaded and has one, else absent |
| `Resolver.AfterPrompting` | run-client.py:88-110 | after prompting (and the `args` step) a required option keeps its known value, else under `--cli` holds its answer, else is absent |
| `Resolver.NameSource` | run-client.py:56-104 | the name comes from the file if it has one, else under `--cli` from its prompt with spaces replaced, else is absent |
| `Resolver.PasswordSource` | run-client.py:56-104 | the password comes from the file if it has one, else under `--cli` from the masked prompt, else is absent |
| `Resolver.ExplicitFlagsWin` | run-client.py:80-86 | a non-empty `--host` is the final host whatever the public pair and file say; a non-empty `--port` is the final port as an integer, and resolution fails exactly when it is not numeric |
| `Resolver.PublicPairUsed` | run-client.py:75-78 | `--public` without explicit flags gives the public pair, and a non-text public port survives coercion unchanged |
| `Resolver.CliLeavesNothingMissing` | run-client.py:88-128 | under `--cli` no required option is missing, so `get_info` ends false |
| `Resolver.GetInfoReportsMissing` | run-client.py:123-136 | the final `get_info` is a boolean that is true exactly when a required option was missing; any earlier value is discarded and the table's text converter never applies to it |
| `Resolver.ResolutionOutcome` | run-client.py:123-136 | resolution fails exactly on a non-numeric text port; otherwise the keys are the collected ones plus `get_info` and every option except `port` and `get_info` is passed on unchanged |
| `Resolver.PromptOrder` | run-client.py:88-104 | with nothing known, `--cli` asks for host, port, name and password in that order, with defaults `localhost` and `57890` for the first two |
| `Resolver.NoPromptWhenComplete` | run-client.py:88-104 | when all four required options are known before prompting, nothing is asked and prompting changes nothing |
| `Resolver.NoFlagsScenario` | run-client.py:54-136 | with no flags at all nothing is printed or asked and the client gets `lang`, `logging` and `get_info` = true |

## Left out

- The command-line grammar (`run-client.py:30-44`) is library configuration; the model takes its result as the `Flags` record, including the `client.cfg` default of a bare `--config` and the `foxdot` default mode.
- `Client.read_configuration_file`, `readin`, `getpass` and `PUBLIC_SERVER_ADDRESS` live in `src/client` and `src/config`, which are not part of this model; their results are inputs (`Environment`), and any default `readin` applies on empty input is inside the answer it returns.
- `os.path.isfile` is a boolean input and the printed diagnostic is a returned value: file-system and terminal I/O are outside the model.
- The session constructor `Client(**options)` (`run-client.py:139`) opens a network session and is not modelled; the model ends with the mapping handed to it.
- The Python 2 branch of `get_string_type` (`basestring`) is not modelled; text is the `VStr` case.
- Text.ParseDecimal: reads only non-empty runs of ASCII digits, giving a natural number; Python's `int` also accepts surrounding whitespace, a sign, underscores between digits and non-ASCII digits, so the model rejects some port texts Python accepts; and it accepts literals longer than the interpreter's digit limit (4300 digits by default on CPython 3.11 and later), on which `int` raises ValueError.
- Text.Lower: lowers ASCII letters only; Python's `lower` covers all of Unicode, but only ASCII letters lower to the letters of `true`, so the converter's result is the same.
- Failures other than the port conversion (a public pair that is not a two-element tuple, a configuration reader that raises) are not modelled.
