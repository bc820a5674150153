/** The command key parser of the main window: start-character
    interception, loading of the plain and modifier binding tables from the
    `keybind` configuration section, and the run-or-fill policy that turns a
    missing-argument error into a partial command on the status line. */
module Keys {
  import opened PyStr

  datatype Option<T> = None | Some(value: T)

  // ---------------------------------------------------------------------
  // Start characters

  /** `STARTCHARS`: `:` opens the command line, `/` and `?` open a forward
      and a backward search. */
  const StartChars: string := ":/?"

  /** `any(txt == c for c in STARTCHARS)`. */
  predicate IsStartChar(txt: string) {
    exists i :: 0 <= i < |StartChars| && txt == [StartChars[i]]
  }

  /** The start-character test accepts exactly the three one-character
      strings `":"`, `"/"` and `"?"`: no empty text, no longer text. */
  lemma StartCharCases(txt: string)
    ensures IsStartChar(txt) <==> txt == ":" || txt == "/" || txt == "?"
  {
    if txt == ":" {
      assert txt == [StartChars[0]];
    } else if txt == "/" {
      assert txt == [StartChars[1]];
    } else if txt == "?" {
      assert txt == [StartChars[2]];
    }
  }

  /** A keypress, reduced to the text Qt reports for it. */
  datatype KeyEvent = KeyEvent(text: string)

  /** What `_handle_single_key` does with one keypress: echo a start
      character to the status line, or hand the event to the inherited
      keychain handler. */
  datatype KeyAction = Echo(txt: string) | Delegate

  /** The decision of `_handle_single_key` for keypress `e` while
      `keystring` is pending. */
  function Intercept(keystring: string, e: KeyEvent): (a: KeyAction)
    ensures var txt := Strip(e.text, Whitespace);
            a.Echo? <==> keystring == [] && (txt == ":" || txt == "/" || txt == "?")
    ensures a.Echo? ==> a.txt == Strip(e.text, Whitespace)
  {
    var txt := Strip(e.text, Whitespace);
    StartCharCases(txt);
    if keystring == [] && IsStartChar(txt) then Echo(txt) else Delegate
  }

  /** Surrounding whitespace does not hide a start character: a pending-free
      keypress whose text is `c` padded by whitespace on both sides echoes
      exactly `c`. */
  lemma InterceptIgnoresPadding(pre: string, c: char, post: string)
    requires AllIn(pre, Whitespace) && AllIn(post, Whitespace)
    requires c in StartChars
    ensures Intercept([], KeyEvent(pre + [c] + post)) == Echo([c])
  {
    StripCharacterized(pre + [c] + post, pre, [c], post, Whitespace);
  }

  /** Once a keychain is under way, even a start character is ordinary
      input for the inherited handler. */
  lemma PendingKeystringDelegates(keystring: string, e: KeyEvent)
    requires keystring != []
    ensures Intercept(keystring, e) == Delegate
  {
  }

  // ---------------------------------------------------------------------
  // Binding tables

  /** The two tables a section entry can be stored in. */
  datatype Table = Plain | Modifier

  /** The marker that wraps a modifier key-spec such as `@Ctrl-A@`. */
  const ModifierMark: char := '@'

  /** `key.startswith('@') and key.endswith('@')`; the one-character key
      `"@"` qualifies. */
  predicate IsModifierSpec(key: string) {
    |key| > 0 && key[0] == ModifierMark && key[|key| - 1] == ModifierMark
  }

  /** The key under which `read_config` stores the entry `key` in table
      `t`, or `None` when it does not go into `t`. */
  function StoredKey(t: Table, key: string, normalize: string -> string): (r: Option<string>)
    ensures r.Some? <==> (t == Modifier) == IsModifierSpec(key)
  {
    match t
    case Modifier =>
      if IsModifierSpec(key) then Some(normalize(Strip(key, {ModifierMark}))) else None
    case Plain =>
      if IsModifierSpec(key) then None else Some(key)
  }

  /** Table `t` after `read_config` has walked `items`, starting from `m`:
      each item in order inserts or overwrites one entry; nothing is
      removed. */
  function Load(t: Table, m: map<string, string>, items: seq<(string, string)>,
                normalize: string -> string): (r: map<string, string>)
    ensures m.Keys <= r.Keys
    decreases |items|
  {
    if items == [] then m
    else
      var rest := Load(t, m, items[..|items| - 1], normalize);
      var (key, cmd) := items[|items| - 1];
      match StoredKey(t, key, normalize)
      case None => rest
      case Some(k) => rest[k := cmd]
  }

  /** Every entry goes into exactly one table. A non-modifier spec is
      stored under its own text; a modifier spec under the normalisation of
      the key's own text with the surrounding runs of `@` removed. */
  lemma StoredKeyRouting(key: string, normalize: string -> string)
    ensures StoredKey(Plain, key, normalize).Some? != StoredKey(Modifier, key, normalize).Some?
    ensures StoredKey(Plain, key, normalize).Some? ==> StoredKey(Plain, key, normalize).value == key
    ensures StoredKey(Modifier, key, normalize).Some? ==>
              exists pre: string, inner: string, post: string ::
                && key == pre + inner + post
                && AllIn(pre, {ModifierMark}) && AllIn(post, {ModifierMark})
                && (inner == [] || (inner[0] != ModifierMark && inner[|inner| - 1] != ModifierMark))
                && StoredKey(Modifier, key, normalize).value == normalize(inner)
  {
    if IsModifierSpec(key) {
      var p, q := StripDecomposition(key, {ModifierMark});
      assert key == p + Strip(key, {ModifierMark}) + q;
    }
  }

  /** `strip('@')` removes every surrounding `@`, not just one on each
      side: `@@Ctrl-A@@` is stored as the normalisation of `Ctrl-A`. */
  lemma StripRemovesEveryMark(pre: string, inner: string, post: string)
    requires |pre| > 0 && |post| > 0
    requires AllIn(pre, {ModifierMark}) && AllIn(post, {ModifierMark})
    requires inner == [] || (inner[0] != ModifierMark && inner[|inner| - 1] != ModifierMark)
    ensures IsModifierSpec(pre + inner + post)
    ensures Strip(pre + inner + post, {ModifierMark}) == inner
  {
    var key := pre + inner + post;
    assert key[0] == pre[0];
    assert key[|key| - 1] == post[|post| - 1];
    StripCharacterized(key, pre, inner, post, {ModifierMark});
  }

  /** One more item changes table `t` at most at the key it stores there. */
  lemma LoadStep(t: Table, m: map<string, string>, items: seq<(string, string)>,
                 key: string, cmd: string, normalize: string -> string)
    ensures Load(t, m, items + [(key, cmd)], normalize) ==
              match StoredKey(t, key, normalize)
              case None => Load(t, m, items, normalize)
              case Some(k) => Load(t, m, items, normalize)[k := cmd]
  {
    assert (items + [(key, cmd)])[..|items|] == items;
  }

  /** After loading, a key is bound exactly when it was bound before or
      some item of the section stores it: loading never clears the table. */
  lemma {:induction false} LoadDomain(t: Table, m: map<string, string>,
                                      items: seq<(string, string)>,
                                      normalize: string -> string, k: string)
    ensures k in Load(t, m, items, normalize) <==>
              k in m || exists i :: 0 <= i < |items| && StoredKey(t, items[i].0, normalize) == Some(k)
    decreases |items|
  {
    if items != [] {
      var n := |items| - 1;
      var prefix := items[..n];
      LoadDomain(t, m, prefix, normalize, k);
      assert forall i :: 0 <= i < n ==> prefix[i] == items[i];
      if StoredKey(t, items[n].0, normalize) == Some(k) {
        assert k in Load(t, m, items, normalize);
      }
    }
  }

  /** A key stored by item `i` and by no later item is bound to the command
      of item `i`: the last duplicate wins. */
  lemma {:induction false} LoadLastWins(t: Table, m: map<string, string>,
                                        items: seq<(string, string)>,
                                        normalize: string -> string, k: string, i: nat)
    requires i < |items| && StoredKey(t, items[i].0, normalize) == Some(k)
    requires forall j :: i < j < |items| ==> StoredKey(t, items[j].0, normalize) != Some(k)
    ensures k in Load(t, m, items, normalize) && Load(t, m, items, normalize)[k] == items[i].1
    decreases |items|
  {
    var n := |items| - 1;
    var prefix := items[..n];
    var (key, cmd) := items[n];
    var rest := Load(t, m, prefix, normalize);
    assert items == prefix + [(key, cmd)];
    LoadStep(t, m, prefix, key, cmd, normalize);
    if i < n {
      var other := StoredKey(t, key, normalize);
      assert other != Some(k);
      assert forall j :: i < j < n ==> prefix[j] == items[j];
      LoadLastWins(t, m, prefix, normalize, k, i);
      assert prefix[i] == items[i];
      assert Load(t, m, items, normalize) == if other.Some? then rest[other.value := cmd] else rest;
    }
  }

  /** A key that no item of the section stores keeps its old command, or
      stays unbound. */
  lemma {:induction false} LoadUntouched(t: Table, m: map<string, string>,
                                         items: seq<(string, string)>,
                                         normalize: string -> string, k: string)
    requires forall i :: 0 <= i < |items| ==> StoredKey(t, items[i].0, normalize) != Some(k)
    ensures k in Load(t, m, items, normalize) <==> k in m
    ensures k in m ==> Load(t, m, items, normalize)[k] == m[k]
    decreases |items|
  {
    if items != [] {
      var n := |items| - 1;
      var prefix := items[..n];
      assert forall i :: 0 <= i < n ==> prefix[i] == items[i];
      LoadUntouched(t, m, prefix, normalize, k);
    }
  }

  /** Loading overlays what `items` stores onto the old table. */
  lemma {:induction false} LoadOverlay(t: Table, m: map<string, string>,
                                       items: seq<(string, string)>, normalize: string -> string)
    ensures Load(t, m, items, normalize) == m + Load(t, map[], items, normalize)
    decreases |items|
  {
    if items == [] {
      assert m + map[] == m;
    } else {
      LoadOverlay(t, m, items[..|items| - 1], normalize);
    }
  }

  /** Reloading the same section twice leaves every table as one reload
      does. */
  lemma LoadIdempotent(t: Table, m: map<string, string>,
                       items: seq<(string, string)>, normalize: string -> string)
    ensures Load(t, Load(t, m, items, normalize), items, normalize) == Load(t, m, items, normalize)
  {
    var added := Load(t, map[], items, normalize);
    LoadOverlay(t, m, items, normalize);
    LoadOverlay(t, Load(t, m, items, normalize), items, normalize);
    assert (m + added) + added == m + added;
  }

  // ---------------------------------------------------------------------
  // Running a completed command

  /** What `CommandParser.run` did with a command string. */
  datatype Outcome = Ran | NoSuchCommand | ArgumentCount | Failed(msg: string)

  /** One call of `CommandParser.run(cmdstr, count=count, ignore_exc=ignoreExc)`. */
  datatype ParserCall = ParserCall(cmdstr: string, count: Option<int>, ignoreExc: bool)

  /** What `_run_or_fill` makes of a parser outcome: nothing, a partial
      command for the status line, or an exception that propagates. */
  datatype Dispatch = Quiet | Fill(text: string) | Propagate(error: string)

  /** The status-line text for a command that lacks arguments: `:` + the
      command string + a trailing space. */
  function FillText(cmdstr: string): (text: string)
    ensures |text| == |cmdstr| + 2
    ensures text[0] == ':' && text[|text| - 1] == ' ' && text[1..|text| - 1] == cmdstr
  {
    ":" + cmdstr + " "
  }

  /** The case split of `_run_or_fill` over the parser outcome. */
  function DispatchOf(cmdstr: string, o: Outcome): (d: Dispatch)
    ensures d.Fill? <==> o.ArgumentCount?
    ensures d.Fill? ==> d.text == FillText(cmdstr)
    ensures d.Propagate? <==> o.Failed?
    ensures d.Propagate? ==> d.error == o.msg
    ensures d.Quiet? <==> o.Ran? || o.NoSuchCommand?
  {
    match o
    case Ran => Quiet
    case NoSuchCommand => Quiet
    case ArgumentCount => Fill(FillText(cmdstr))
    case Failed(msg) => Propagate(msg)
  }

  /** A partial-command fill names its command: two different command
      strings never produce the same status-line text, and the text is
      never mistaken for an echoed start character. */
  lemma FillTextDistinct(a: string, b: string)
    ensures FillText(a) == FillText(b) <==> a == b
    ensures !IsStartChar(FillText(a))
  {
    StartCharCases(FillText(a));
  }

  // ---------------------------------------------------------------------
  // The key parser object

  /** `CommandKeyParser`. The inherited keychain accumulator, the key
      normaliser and the command parser are collaborators given to the
      constructor; the `set_cmd_text` signal is the `statusOut` log. */
  class CommandKeyParser {
    /** `_keystring`: the keychain typed so far. */
    var keystring: string
    /** `_bindings`: plain key-specs to command strings. */
    var bindings: map<string, string>
    /** `_modifier_bindings`: normalised modifier chords to command strings. */
    var modifierBindings: map<string, string>
    /** Every text emitted on `set_cmd_text`, oldest first. */
    var statusOut: seq<string>
    /** How many times "No keybindings defined!" was logged. */
    var warnings: nat
    /** Every event handed to the inherited `_handle_single_key`. */
    var delegated: seq<KeyEvent>
    /** Every call made to the command parser. */
    var parserCalls: seq<ParserCall>

    /** `supports_count`, read by the inherited handler and by nothing in
        this class. */
    const supportsCount: bool := true
    /** `_normalize_keystr` of the inherited parser. */
    const normalize: string -> string
    /** The inherited `_handle_single_key`, by its effect on the keystring:
        the new keystring depends on the old one, on both binding tables it
        matches against, and on the keypress. */
    const parentStep: (string, map<string, string>, map<string, string>, KeyEvent) -> string
    /** `CommandParser.run`, by its outcome. */
    const run: ParserCall -> Outcome

    /** `__init__`: the inherited parser starts with an empty keystring and
        empty tables, then `read_config` fills them from `keybind`. */
    constructor (keybind: seq<(string, string)>, normalize: string -> string,
                 parentStep: (string, map<string, string>, map<string, string>, KeyEvent) -> string,
                 run: ParserCall -> Outcome)
      ensures this.normalize == normalize && this.parentStep == parentStep && this.run == run
      ensures keystring == [] && statusOut == [] && delegated == [] && parserCalls == []
      ensures bindings == Load(Plain, map[], keybind, normalize)
      ensures modifierBindings == Load(Modifier, map[], keybind, normalize)
      ensures warnings == if keybind == [] then 1 else 0
    {
      this.normalize := normalize;
      this.parentStep := parentStep;
      this.run := run;
      keystring := [];
      bindings := map[];
      modifierBindings := map[];
      statusOut := [];
      warnings := 0;
      delegated := [];
      parserCalls := [];
      new;
      ReadConfig(keybind);
    }

    /** `_run_or_fill`: run `cmdstr`; on a missing-argument error put the
        partial command on the status line; swallow an unknown command;
        let any other failure propagate (returned as `raised`). */
    method RunOrFill(cmdstr: string, count: Option<int> := None, ignoreExc: bool := true) returns (raised: Option<string>)
      modifies this`statusOut, this`parserCalls
      ensures parserCalls == old(parserCalls) + [ParserCall(cmdstr, count, ignoreExc)]
      ensures run(ParserCall(cmdstr, count, ignoreExc)).ArgumentCount? ==>
                statusOut == old(statusOut) + [":" + cmdstr + " "] && raised == None
      ensures !run(ParserCall(cmdstr, count, ignoreExc)).ArgumentCount? ==> statusOut == old(statusOut)
      ensures raised.Some? <==> run(ParserCall(cmdstr, count, ignoreExc)).Failed?
      ensures raised.Some? ==> raised.value == run(ParserCall(cmdstr, count, ignoreExc)).msg
    {
      var call := ParserCall(cmdstr, count, ignoreExc);
      parserCalls := parserCalls + [call];
      match DispatchOf(cmdstr, run(call))
      case Quiet =>
        raised := None;
      case Fill(text) =>
        statusOut := statusOut + [text];
        raised := None;
      case Propagate(error) =>
        raised := Some(error);
    }

    /** `_handle_single_key`: with nothing pending, a keypress whose
        stripped text is a start character goes to the status line and
        nowhere else; every other keypress goes, unchanged, to the inherited
        handler. */
    method HandleSingleKey(e: KeyEvent)
      modifies this`statusOut, this`keystring, this`delegated
      ensures Intercept(old(keystring), e).Echo? ==>
                && statusOut == old(statusOut) + [Strip(e.text, Whitespace)]
                && keystring == old(keystring)
                && delegated == old(delegated)
      ensures Intercept(old(keystring), e).Delegate? ==>
                && statusOut == old(statusOut)
                && keystring == parentStep(old(keystring), bindings, modifierBindings, e)
                && delegated == old(delegated) + [e]
    {
      match Intercept(keystring, e)
      case Echo(txt) =>
        statusOut := statusOut + [txt];
      case Delegate =>
        delegated := delegated + [e];
        keystring := parentStep(keystring, bindings, modifierBindings, e);
    }

    /** `execute`: handle a completed keychain. The parser is asked to
        raise instead of reporting; `_run_or_fill` then drops an unknown
        command. */
    method Execute(cmdstr: string, count: Option<int> := None) returns (raised: Option<string>)
      modifies this`statusOut, this`parserCalls
      ensures parserCalls == old(parserCalls) + [ParserCall(cmdstr, count, false)]
      ensures run(ParserCall(cmdstr, count, false)).ArgumentCount? ==>
                statusOut == old(statusOut) + [":" + cmdstr + " "] && raised == None
      ensures !run(ParserCall(cmdstr, count, false)).ArgumentCount? ==> statusOut == old(statusOut)
      ensures raised.Some? <==> run(ParserCall(cmdstr, count, false)).Failed?
      ensures raised.Some? ==> raised.value == run(ParserCall(cmdstr, count, false)).msg
    {
      raised := RunOrFill(cmdstr, count, false);
    }

    /** `on_config_changed`: reload the tables when, and only when, the
        changed section is `keybind`, whatever the option. */
    method OnConfigChanged(section: string, option: string, keybind: seq<(string, string)>)
      modifies this`bindings, this`modifierBindings, this`warnings
      ensures section == "keybind" ==>
                && bindings == Load(Plain, old(bindings), keybind, normalize)
                && modifierBindings == Load(Modifier, old(modifierBindings), keybind, normalize)
                && warnings == old(warnings) + (if keybind == [] then 1 else 0)
      ensures section != "keybind" ==>
                bindings == old(bindings) && modifierBindings == old(modifierBindings) && warnings == old(warnings)
    {
      if section == "keybind" {
        ReadConfig(keybind);
      }
    }

    /** The body of the `read_config` loop for one item `(key, cmd)`. */
    method Register(key: string, cmd: string)
      modifies this`bindings, this`modifierBindings
      ensures IsModifierSpec(key) ==>
                && modifierBindings == old(modifierBindings)[normalize(Strip(key, {ModifierMark})) := cmd]
                && bindings == old(bindings)
      ensures !IsModifierSpec(key) ==>
                bindings == old(bindings)[key := cmd] && modifierBindings == old(modifierBindings)
    {
      if IsModifierSpec(key) {
        var keystr := normalize(Strip(key, {ModifierMark}));
        modifierBindings := modifierBindings[keystr := cmd];
      } else {
        bindings := bindings[key := cmd];
      }
    }

    /** `read_config`: warn once if the section is empty, then register its
        items in order, never clearing either table. */
    method ReadConfig(keybind: seq<(string, string)>)
      modifies this`bindings, this`modifierBindings, this`warnings
      ensures bindings == Load(Plain, old(bindings), keybind, normalize)
      ensures modifierBindings == Load(Modifier, old(modifierBindings), keybind, normalize)
      ensures warnings == old(warnings) + (if keybind == [] then 1 else 0)
    {
      if |keybind| == 0 {
        warnings := warnings + 1;
      }
      var i := 0;
      while i < |keybind|
        invariant 0 <= i <= |keybind|
        invariant warnings == old(warnings) + (if keybind == [] then 1 else 0)
        invariant bindings == Load(Plain, old(bindings), keybind[..i], normalize)
        invariant modifierBindings == Load(Modifier, old(modifierBindings), keybind[..i], normalize)
      {
        var (key, cmd) := keybind[i];
        LoadStep(Plain, old(bindings), keybind[..i], key, cmd, normalize);
        LoadStep(Modifier, old(modifierBindings), keybind[..i], key, cmd, normalize);
        assert keybind[..i + 1] == keybind[..i] + [(key, cmd)];
        Register(key, cmd);
        i := i + 1;
      }
      assert keybind[..|keybind|] == keybind;
    }
  }
}
