# qutebrowser command key parser, in Dafny

This project models `CommandKeyParser`, the key parser of qutebrowser's main
window (`qutebrowser/commands/keys.py`), and proves properties of the model.
The parser does four things:

- **Start-character interception.** It checks each keypress before the
  inherited keychain handler sees it. If nothing is pending and the
  whitespace-stripped key text is one of `STARTCHARS` (`:`, `/`, `?`), that
  text goes to the status line and the keypress goes no further.
- **Binding-table loading.** `read_config` walks the `keybind`
  configuration section in order. A key-spec that starts and ends with `@`
  is stripped of every surrounding `@`, normalised, and stored in the
  modifier table. Every other key-spec is stored verbatim in the plain
  table. An empty section only logs a warning. `on_config_changed` reloads
  only when the changed section is `keybind`.
- **Run-or-fill.** `_run_or_fill` runs a command string through the
  command parser. A wrong argument count puts `:<command> ` on the status
  line. An unknown command is swallowed. Any other failure propagates.
- **`execute`** runs a completed keychain with `ignore_exc=False`.

Files:

- `PyStr.dfy` (module `PyStr`): the Python string operations the parser
  relies on. These are `str.strip()`, which removes the characters for
  which `str.isspace()` holds, and `str.strip(chars)`. The module proves
  that `strip` is fully characterised: the input is a run of stripped
  characters, then the result, then another such run.
- `Keys.dfy` (module `Keys`): `STARTCHARS`, the binding-table fold `Load`,
  the interceptor `Intercept`, the dispatch policy `DispatchOf`, and the
  class `CommandKeyParser`. The class has mutable fields for the keystring,
  both tables, and logs of status-line texts, delegated events, parser
  calls and warnings.

Collaborators whose code is not part of this model are constructor
parameters, held in `const` fields of the class:

- `normalize` stands for `_normalize_keystr`.
- `parentStep` stands for the inherited `_handle_single_key`, modelled only
  through its effect on the keystring. That effect depends on the old
  keystring, on both binding tables and on the keypress, so a reload changes
  how the next delegated key is handled.
- `run` stands for `CommandParser.run`, modelled only through the outcome
  it reports.

The `keybind` section is passed in as an ordered `seq<(string, string)>`.
The `set_cmd_text` signal becomes appends to `statusOut`.

The code never clears the tables on reload. A reload only inserts or
overwrites entries, so a binding deleted from the configuration survives
until restart: a reload does not replace the tables wholesale. The model
follows the code, and `LoadDomain`, `LoadLastWins`, `LoadUntouched` and
`LoadOverlay` state what it does. Likewise,
the warning depends on whether the SECTION is empty, not on whether the
resulting table is empty.

## Model

| member | source | states |
|---|---|---|
| `PyStr.LStrip` | qutebrowser/commands/keys.py:87 | the result is a suffix of the input, everything removed is a stripped character, and the result does not start with one |
| `PyStr.RStrip` | qutebrowser/commands/keys.py:87 | the result is a prefix of the input, everything removed is a stripped character, and the result does not end with one |
| `PyStr.Strip` | qutebrowser/commands/keys.py:87 | the stripped text neither starts nor ends with a stripped character, and text made only of such characters strips to the empty string |
| `PyStr.StripDecomposition` | qutebrowser/commands/keys.py:87 | the input is a run of stripped characters, then the result, then another run of stripped characters |
| `PyStr.StripCharacterized` | qutebrowser/commands/keys.py:116 | for any split `p + r + q` where `p` and `q` are made of stripped characters and `r` has no stripped character at either end, strip returns exactly `r`, so all surrounding characters go, not just one |
| `Keys.StartCharCases` | qutebrowser/commands/keys.py:33 | the `any(txt == c for c in STARTCHARS)` test holds exactly for the strings `":"`, `"/"` and `"?"`, and never for the empty text |
| `Keys.IsStartChar` | qutebrowser/commands/keys.py:88 | the `any(txt == c for c in STARTCHARS)` test over the `STARTCHARS` constant of keys.py:33 |
| `Keys.IsModifierSpec` | qutebrowser/commands/keys.py:114 | `key.startswith('@') and key.endswith('@')`, which the one-character key `@` also meets |
| `Keys.Intercept` | qutebrowser/commands/keys.py:87-91 | a keypress is echoed if and only if the keystring is empty and the stripped text is `:`, `/` or `?`; the echoed text is the stripped text, and in every other case the event is delegated |
| `Keys.InterceptIgnoresPadding` | qutebrowser/commands/keys.py:87-89 | a start character surrounded by whitespace, typed with nothing pending, echoes just that one character |
| `Keys.PendingKeystringDelegates` | qutebrowser/commands/keys.py:88-91 | with a non-empty keystring every keypress, start characters included, goes to the inherited handler |
| `Keys.StoredKeyRouting` | qutebrowser/commands/keys.py:114-122 | each section entry is stored in exactly one table: a non-modifier spec under its own text, a modifier spec under the normalisation of the key's own text with the surrounding `@` runs removed |
| `Keys.StripRemovesEveryMark` | qutebrowser/commands/keys.py:114-116 | a key wrapped in one or more `@` on each side is a modifier spec, and strip yields the inner text with every surrounding `@` removed |
| `Keys.StoredKey` | qutebrowser/commands/keys.py:114-122 | an entry is stored in the modifier table exactly when its key is a modifier spec, and in the plain table exactly when it is not |
| `Keys.Load` | qutebrowser/commands/keys.py:113-122 | the fold of `read_config` over the section keeps every key the table already had |
| `Keys.LoadStep` | qutebrowser/commands/keys.py:113-122 | the unfolding helper of the `read_config` loop: one more section item changes a table only at the key it stores there |
| `Keys.LoadDomain` | qutebrowser/commands/keys.py:113-122 | after loading, a key is bound if and only if it was bound before or some item of the section stores it, so nothing is cleared |
| `Keys.LoadLastWins` | qutebrowser/commands/keys.py:113-122 | a key stored by an item and by no later item is bound to that item's command: among duplicates the last one wins |
| `Keys.LoadUntouched` | qutebrowser/commands/keys.py:113-122 | a key that no item of the section stores keeps its old command, or stays unbound |
| `Keys.LoadOverlay` | qutebrowser/commands/keys.py:113-122 | loading a section overlays the entries it stores onto the old table |
| `Keys.LoadIdempotent` | qutebrowser/commands/keys.py:113-122 | reloading the same section a second time leaves both tables as one reload left them |
| `Keys.FillText` | qutebrowser/commands/keys.py:76 | the partial-command text is a colon, the command string itself, then one trailing space |
| `Keys.DispatchOf` | qutebrowser/commands/keys.py:69-76 | a wrong argument count gives a fill with `:` + command + space; success and unknown command give nothing; every other failure, and only that, propagates with its message |
| `Keys.FillTextDistinct` | qutebrowser/commands/keys.py:76 | different command strings give different fill texts, and a fill text is never an echoed start character |
| `Keys.CommandKeyParser.constructor` | qutebrowser/commands/keys.py:52-55 | a new parser has an empty keystring and logs, and its tables are those `read_config` builds from empty tables |
| `Keys.CommandKeyParser.RunOrFill` | qutebrowser/commands/keys.py:57-76 | the parser is called with the given command, count and ignore flag; only an argument-count outcome appends exactly `:cmdstr ` to the status line; only another failure is raised, with its message |
| `Keys.CommandKeyParser.HandleSingleKey` | qutebrowser/commands/keys.py:78-91 | an intercepted keypress appends its stripped text to the status line and leaves the keystring and the parent untouched; any other keypress reaches the parent unchanged and nothing goes to the status line |
| `Keys.CommandKeyParser.Execute` | qutebrowser/commands/keys.py:93-95 | runs `cmdstr` with the same count and `ignore_exc=False`, with run-or-fill's effects |
| `Keys.CommandKeyParser.OnConfigChanged` | qutebrowser/commands/keys.py:98-102 | the tables and the warning count are updated as one `read_config` updates them exactly when the section is `keybind`, whatever the option; otherwise they stay as they were |
| `Keys.CommandKeyParser.Register` | qutebrowser/commands/keys.py:114-122 | a modifier spec sets only the modifier table, at its normalised stripped key; any other key sets only the plain table, at the key itself |
| `Keys.CommandKeyParser.ReadConfig` | qutebrowser/commands/keys.py:104-122 | the tables become the fold of the section over their old contents; one warning is counted exactly when the section is empty |

## Left out

- The inherited `KeyParser` (`qutebrowser/utils/keyparser.py`) is not part of this model. Its keychain accumulation, count handling, prefix and exact matching, and its own calls of `execute` are represented only by `parentStep`, which gives the new keystring. Status-line output that the parent causes through `execute` is not captured by `HandleSingleKey`.
- `_normalize_keystr` is an arbitrary function `normalize`, because its rules live in the inherited parser.
- `CommandParser.run` (`qutebrowser/commands/parsers.py`) is not part of this model. It is a function `run` from the call to an `Outcome`. Its internal state, command splitting and error messages are not modelled. Exceptions other than the two that `_run_or_fill` names are `Failed(msg)`, returned as `raised`.
- The initial state of the inherited parser (empty keystring, empty tables) is assumed by the constructor.
- Qt signals, slots and `KeyPressEvent`: emissions are appends to `statusOut`, and an event is reduced to its `text()`.
- Logging: the debug messages are dropped. The "No keybindings defined!" warning is counted in `warnings`.
- The global configuration store `config.instance` is not modelled. The `keybind` section is passed in as a sequence of pairs.
- `supports_count` is only a constant. It is read by the inherited handler, which is not modelled.
