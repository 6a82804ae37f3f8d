/** The session of the Neovim plugin (rplugin/python3/gdb_nvim/session.py): a session
    file, decoded into `state`, declares variables, modes and breakpoints; the
    session switches between modes, running each mode's `setup` and `teardown`
    action lists through the controller.  The calls it makes to the editor and to
    the controller are recorded in `trace`, and their answers are parameters. */
module Sessions {
  import opened Wrappers
  import opened Values
  import Text
  import Debugger

  /** The exceptions the session raises or catches. */
  datatype PyError =
    | ValueError(msg: string)
    | IOError(msg: string)
    | TypeError
    | KeyError(key: string)
    | AttributeError                 // a call on the controller's GDB handle while it is `None`

  /** A call the session makes on the editor or on the controller. */
  datatype Effect =
    | Log(msg: string, level: int)   // `vimx.log(msg, level)`
    | Command(cmd: string)           // `vimx.command(cmd)`
    | Eval(expr: string)             // `vimx.eval(expr)`
    | Getcwd                         // the `getcwd()` call of `vimx.abspath`
    | Chdir(dir: string)             // a successful `os.chdir(dir)`
    | ShowSession                    // `handle_show` on a live session
    | BusyMore                       // `ctrl.busy_more()`
    | BusyLess                       // `ctrl.busy_less()`
    | Execute(command: string)       // `ctrl.execute(command)`
    | DbgRun                         // `ctrl.dbg_run()`
    | DbgStop                        // `ctrl.dbg_stop()`
    | UpdateBuffers                  // `ctrl.update_buffers()`

  /** The three sections a session file may have; a missing one defaults to `{}`. */
  const Sections: seq<string> := ["variables", "modes", "breakpoints"]

  /** One step of the first loop of `parse_and_load`: a missing section is added,
      empty, at the end. */
  function AddDefault(entries: seq<(string, Json)>, key: string): (r: seq<(string, Json)>)
    ensures Keys(r) == if key in Keys(entries) then Keys(entries) else Keys(entries) + [key]
    ensures Lookup(r, key).Some?
  {
    if key in Keys(entries) then entries
    else
      var r := entries + [(key, JObject([]))];
      assert Keys(r) == Keys(entries) + [key];
      r
  }

  /** The first loop of `parse_and_load` over some section names. */
  function AddDefaults(entries: seq<(string, Json)>, keys: seq<string>): seq<(string, Json)>
    decreases |keys|
  {
    if keys == [] then entries else AddDefault(AddDefaults(entries, keys[..|keys| - 1]), keys[|keys| - 1])
  }

  /** Afterwards every listed section is there, and so is every section of the file. */
  lemma {:induction false} AddDefaultsKeys(entries: seq<(string, Json)>, keys: seq<string>, k: string)
    requires k in keys || k in Keys(entries)
    ensures k in Keys(AddDefaults(entries, keys))
    decreases |keys|
  {
    if keys != [] {
      var n := |keys| - 1;
      if k in keys[..n] || k in Keys(entries) {
        AddDefaultsKeys(entries, keys[..n], k);
      } else {
        assert k == keys[n];
      }
    }
  }

  /** Adding the defaults keeps every entry the file has, in place, and appends only
      empty sections of the listed names. */
  lemma {:induction false} AddDefaultsAppends(entries: seq<(string, Json)>, keys: seq<string>)
    ensures var r := AddDefaults(entries, keys);
      && |entries| <= |r| && r[..|entries|] == entries
      && forall i :: |entries| <= i < |r| ==> r[i].0 in keys && r[i].1 == JObject([])
    decreases |keys|
  {
    if keys != [] {
      var n := |keys| - 1;
      var prev := AddDefaults(entries, keys[..n]);
      AddDefaultsAppends(entries, keys[..n]);
      if keys[n] !in Keys(prev) {
        var r := prev + [(keys[n], JObject([]))];
        assert AddDefaults(entries, keys) == r;
        assert r[..|entries|] == prev[..|entries|];
        forall i | |entries| <= i < |r| ensures r[i].0 in keys && r[i].1 == JObject([]) {
          if i < |prev| {
            assert r[i] == prev[i] && prev[i].0 in keys[..n];
          }
        }
      } else {
        forall i | |entries| <= i < |prev| ensures prev[i].0 in keys {
          assert prev[i].0 in keys[..n];
        }
      }
    }
  }

  /** The check the second loop of `parse_and_load` makes on one section, in the
      code's order: the length of `modes`, the name, then the type. */
  function SectionCheck(key: string, v: Json): (e: Option<PyError>)
    ensures e.None? <==> key in Sections && v.JObject? && (key == "modes" ==> v.entries != [])
  {
    if key == "modes" && Length(v).None? then Some(TypeError)
    else if key == "modes" && Length(v) == Some(0) then Some(ValueError("At least one mode has to be defined"))
    else if key !in Sections then Some(ValueError("Invalid key '" + key + "'"))
    else if !v.JObject? then Some(ValueError("\"" + key + "\" must be an associative array"))
    else None
  }

  /** The error of the first section, in file order, that fails its check. */
  function FirstBadSection(entries: seq<(string, Json)>): Option<PyError>
    decreases |entries|
  {
    if entries == [] then None
    else if SectionCheck(entries[0].0, entries[0].1).Some? then SectionCheck(entries[0].0, entries[0].1)
    else FirstBadSection(entries[1..])
  }

  /** A section check fails with a `ValueError`, or with the `TypeError` of `len` on a
      `modes` value without a length; nothing else. */
  lemma {:induction false} BadSectionKinds(entries: seq<(string, Json)>)
    ensures FirstBadSection(entries).Some? ==>
      FirstBadSection(entries).value.ValueError? || FirstBadSection(entries).value == TypeError
    decreases |entries|
  {
    if entries != [] && SectionCheck(entries[0].0, entries[0].1).None? {
      BadSectionKinds(entries[1..]);
    }
  }

  /** A loaded configuration: only the three sections, every one an object, and at
      least one mode. */
  predicate ConfigOk(entries: seq<(string, Json)>)
  {
    forall i :: 0 <= i < |entries| ==> SectionCheck(entries[i].0, entries[i].1).None?
  }

  /** Validation accepts exactly the configurations whose every section passes. */
  lemma {:induction false} FirstBadSectionNone(entries: seq<(string, Json)>)
    ensures FirstBadSection(entries).None? <==> ConfigOk(entries)
    decreases |entries|
  {
    if entries != [] {
      FirstBadSectionNone(entries[1..]);
      if ConfigOk(entries[1..]) && SectionCheck(entries[0].0, entries[0].1).None? {
        forall i | 0 <= i < |entries| ensures SectionCheck(entries[i].0, entries[i].1).None? {
          if i > 0 {
            assert entries[i] == entries[1..][i - 1];
          }
        }
      }
      if ConfigOk(entries) {
        forall i | 0 <= i < |entries| - 1 ensures SectionCheck(entries[1..][i].0, entries[1..][i].1).None? {
          assert entries[1..][i] == entries[i + 1];
        }
      }
    }
  }

  /** The `modes` section of a loaded configuration, in declaration order. */
  function ModesOf(entries: seq<(string, Json)>): seq<(string, Json)>
  {
    match Lookup(entries, "modes")
    case Some(JObject(ms)) => ms
    case _ => []
  }

  /** Once the defaults are in and validation passes, the configuration has all three
      sections and at least one mode to enter. */
  lemma LoadedConfigHasModes(entries: seq<(string, Json)>)
    requires ConfigOk(AddDefaults(entries, Sections))
    ensures var c := AddDefaults(entries, Sections);
      && "variables" in Keys(c) && "breakpoints" in Keys(c)
      && ModesOf(c) != [] && |c| > 1
  {
    var c := AddDefaults(entries, Sections);
    AddDefaultsKeys(entries, Sections, "variables");
    AddDefaultsKeys(entries, Sections, "modes");
    AddDefaultsKeys(entries, Sections, "breakpoints");
    ConfigModesNonEmpty(c);
  }

  lemma ConfigModesNonEmpty(c: seq<(string, Json)>)
    requires ConfigOk(c) && "modes" in Keys(c)
    ensures ModesOf(c) != []
  {
    var v := Lookup(c, "modes").value;
    assert ("modes", v) in c;
    var i :| 0 <= i < |c| && c[i] == ("modes", v);
    assert SectionCheck(c[i].0, c[i].1).None?;
  }

  /** `cmd.startswith('debug')`: the modes that drive the debugger. */
  predicate IsDebugMode(mode: string)
  {
    Text.StartsWith(mode, "debug")
  }

  function SetupCommand(mode: string): string
  {
    "call call(g:gdb#session#mode_setup, ['" + mode + "'])"
  }

  function TeardownCommand(mode: string): string
  {
    "call call(g:gdb#session#mode_teardown, ['" + mode + "'])"
  }

  /** `Execute` of each command, in order. */
  function Executes(commands: seq<string>): (es: seq<Effect>)
    ensures |es| == |commands|
    ensures forall k :: 0 <= k < |commands| ==> es[k] == Execute(commands[k])
  {
    seq(|commands|, k requires 0 <= k < |commands| => Execute(commands[k]))
  }

  /** The strings of an action list, in order: the actions `run_actions` executes. */
  function StringActions(items: seq<Json>): (r: seq<string>)
    ensures |r| <= |items|
  {
    if items == [] then []
    else
      var n := |items| - 1;
      StringActions(items[..n]) + (if items[n].JStr? then [items[n].s] else [])
  }

  /** The busy-gate step one effect takes, if any. */
  function GateStep(e: Effect): seq<Debugger.GateOp>
  {
    match e
    case BusyMore => [Debugger.More]
    case BusyLess => [Debugger.Less]
    case _ => []
  }

  /** The busy-gate steps among some effects. */
  function GateOps(effects: seq<Effect>): seq<Debugger.GateOp>
  {
    if effects == [] then [] else GateStep(effects[0]) + GateOps(effects[1..])
  }

  lemma {:induction false} GateOpsAppend(a: seq<Effect>, b: seq<Effect>)
    ensures GateOps(a + b) == GateOps(a) + GateOps(b)
  {
    if a == [] {
      assert a + b == b;
    } else {
      assert (a + b)[1..] == a[1..] + b;
      GateOpsAppend(a[1..], b);
    }
  }

  lemma {:induction false} GateOpsExecutes(commands: seq<string>)
    ensures GateOps(Executes(commands)) == []
  {
    if commands != [] {
      assert Executes(commands)[1..] == Executes(commands[1..]);
      GateOpsExecutes(commands[1..]);
    }
  }

  /** What happened to the editor and the controller, and how it ended. */
  datatype Outcome = Outcome(effects: seq<Effect>, err: Option<PyError>, internal: map<string, string>)

  /** The default session `handle_new` writes. */
  const DefaultSession: Json := JObject([
    ("variables", JObject([])),
    ("modes", JObject([
      ("code", JObject([])),
      ("debug", JObject([
        ("setup", JList([JStr("#source -v bps.gdb #note: commented out")])),
        ("teardown", JList([JStr("#save breakpoints bps.gdb")]))
      ]))
    ]))
  ])

  /** Loading the default session adds only the `breakpoints` section. */
  lemma DefaultSessionDefaults()
    ensures AddDefaults(DefaultSession.entries, Sections) == DefaultSession.entries + [("breakpoints", JObject([]))]
  {
    var e := DefaultSession.entries;
    assert Keys(e) == ["variables", "modes"];
    assert Sections[..1][..0] == [] && Sections[..2][..1] == Sections[..1] && Sections[..2] == Sections[..|Sections| - 1];
    assert AddDefaults(e, Sections[..1]) == e;
    assert AddDefaults(e, Sections[..2]) == e;
  }

  /** The default session, with `breakpoints` added. */
  function DefaultLoaded(): seq<(string, Json)>
  {
    DefaultSession.entries + [("breakpoints", JObject([]))]
  }

  lemma DefaultLoadedValid()
    ensures ConfigOk(DefaultLoaded())
  {
    var c := DefaultLoaded();
    forall i | 0 <= i < |c| ensures SectionCheck(c[i].0, c[i].1).None? {
      assert c[i].0 in Sections && c[i].1.JObject?;
    }
  }

  lemma DefaultLoadedFirstMode()
    ensures ModesOf(DefaultLoaded()) != [] && ModesOf(DefaultLoaded())[0].0 == "code"
  {
    assert Lookup(DefaultLoaded(), "modes") == Some(DefaultLoaded()[1].1);
  }

  /** The default session loads: with `breakpoints` added it passes validation, and
      its first mode is `code`. */
  lemma DefaultSessionLoads()
    ensures var c := AddDefaults(DefaultSession.entries, Sections);
      && FirstBadSection(c).None?
      && ModesOf(c) != [] && ModesOf(c)[0].0 == "code"
  {
    DefaultSessionDefaults();
    DefaultLoadedValid();
    DefaultLoadedFirstMode();
    FirstBadSectionNone(DefaultLoaded());
  }

  /** The `:GGsession` sub-commands. */
  datatype Dispatch = NewSession | Reload | LoadSession | ShowSessionFile | Unknown

  /** The dispatch of `handle` as written: the reload branch tests for `relod`. */
  function SubCommandAsWritten(cmd: string): Dispatch
  {
    if cmd == "new" then NewSession
    else if cmd == "relod" then Reload
    else if cmd == "load" then LoadSession
    else if cmd == "show" then ShowSessionFile
    else Unknown
  }

  /** The dispatch as intended: `reload`, the sub-command the session's own help text
      tells the user to run. */
  function SubCommand(cmd: string): (c: Dispatch)
    ensures c == Reload <==> cmd == "reload"
    ensures c == NewSession <==> cmd == "new"
    ensures c == LoadSession <==> cmd == "load"
    ensures c == ShowSessionFile <==> cmd == "show"
  {
    if cmd == "new" then NewSession
    else if cmd == "reload" then Reload
    else if cmd == "load" then LoadSession
    else if cmd == "show" then ShowSessionFile
    else Unknown
  }

  /** As written, the advertised `:GGsession reload` is an invalid sub-command and the
      reload branch answers only to the misspelling; the two dispatches agree on
      every other name. */
  lemma ReloadIsUnreachableAsWritten()
    ensures SubCommandAsWritten("reload") == Unknown && SubCommand("reload") == Reload
    ensures SubCommandAsWritten("relod") == Reload && SubCommand("relod") == Unknown
    ensures forall cmd :: cmd != "reload" && cmd != "relod" ==> SubCommandAsWritten(cmd) == SubCommand(cmd)
  {
  }

  /** Changing only `@mode` keeps a named session file with its directory. */
  lemma FileKeepsDir(before: map<string, string>, after: map<string, string>)
    requires after - {"@mode"} == before - {"@mode"}
    requires "@file" in before ==> "@dir" in before
    ensures "@file" in after ==> "@dir" in after
  {
    if "@file" in after {
      assert "@file" in after - {"@mode"};
      assert "@dir" in before - {"@mode"};
    }
  }

  const DiscardPrompt := "gdb#session#discard_prompt()"
  const NewPrompt := "gdb#session#new()"
  const FindSessionFile := "findfile(g:gdb#session#file, \".;\")"
  const Skipped := "Skipped -- no session was created!"
  const ReloadHint := "Save this file, and do `:GGsession reload` to load any changes made."

  /** The error `parse_and_load` raises for a file whose root is not an object. */
  const RootNotObject := "The root object must be an associative array"

  /** The default session once `target` is set: the variable holds the target's
      path and the debug mode loads it first. */
  function TargetSession(rel: string): seq<(string, Json)>
  {
    [("variables", JObject([("target", JStr(rel))])),
     ("modes", JObject([
       ("code", JObject([])),
       ("debug", JObject([
         ("setup", JList([JStr("file {target}"), JStr("#source -v bps.gdb #note: commented out")])),
         ("teardown", JList([JStr("#save breakpoints bps.gdb")]))]))])),
     ("breakpoints", JObject([]))]
  }

  /** The target insertion of `handle_new` on a loaded configuration: `variables.target`
      is set and `file {target}` goes first in the debug mode's `setup` list.  The
      KeyError and TypeError the subscripts and `insert` raise are errors. */
  function InsertTarget(st: seq<(string, Json)>, rel: string): (r: Result<seq<(string, Json)>, PyError>)
    ensures r.Success? ==> Keys(r.value) == Keys(st)
  {
    match Lookup(st, "variables")
    case None => Failure(KeyError("variables"))
    case Some(vs) =>
      if !vs.JObject? then Failure(TypeError)
      else
        var st1 := Put(st, "variables", JObject(Put(vs.entries, "target", JStr(rel))));
        match Lookup(st1, "modes")
        case None => Failure(KeyError("modes"))
        case Some(ms) =>
          if !ms.JObject? then Failure(TypeError)
          else match Lookup(ms.entries, "debug")
            case None => Failure(KeyError("debug"))
            case Some(debug) =>
              if !debug.JObject? then Failure(TypeError)
              else match Lookup(debug.entries, "setup")
                case None => Failure(KeyError("setup"))
                case Some(setup) =>
                  if !setup.JList? then Failure(TypeError)
                  else
                    var debug' := JObject(Put(debug.entries, "setup", JList([JStr("file {target}")] + setup.items)));
                    Success(Put(st1, "modes", JObject(Put(ms.entries, "debug", debug'))))
  }

  lemma PutFirst(entries: seq<(string, Json)>, key: string, v: Json)
    requires entries != [] && entries[0].0 == key
    ensures Put(entries, key, v) == [(key, v)] + entries[1..]
  {
  }

  lemma PutLater(entries: seq<(string, Json)>, key: string, v: Json)
    requires entries != [] && entries[0].0 != key
    ensures Put(entries, key, v) == [entries[0]] + Put(entries[1..], key, v)
  {
  }

  /** The `modes` section of the default session after the insertion. */
  lemma DefaultModesInsert(rel: string)
    ensures var ms := DefaultLoaded()[1].1;
      var debug := ms.entries[1].1;
      var setup := debug.entries[0].1;
      var debug' := JObject(Put(debug.entries, "setup", JList([JStr("file {target}")] + setup.items)));
      && Lookup(ms.entries, "debug") == Some(debug)
      && Lookup(debug.entries, "setup") == Some(setup)
      && Put(ms.entries, "debug", debug') == TargetSession(rel)[1].1.entries
  {
    var t := TargetSession(rel)[1].1.entries;
    var ms := DefaultLoaded()[1].1;
    var debug := ms.entries[1].1;
    var setup := debug.entries[0].1;
    var items := [JStr("file {target}")] + setup.items;
    PutFirst(debug.entries, "setup", JList(items));
    assert items == t[1].1.entries[0].1.items;
    assert debug.entries[1..] == t[1].1.entries[1..];
    var debug' := JObject(Put(debug.entries, "setup", JList(items)));
    assert debug' == t[1].1;
    PutLater(ms.entries, "debug", debug');
    PutFirst(ms.entries[1..], "debug", debug');
  }

  lemma TargetSessionValid(rel: string)
    ensures ConfigOk(TargetSession(rel)) && |TargetSession(rel)| > 1
  {
    var t := TargetSession(rel);
    forall i | 0 <= i < |t| ensures SectionCheck(t[i].0, t[i].1).None? {
      assert t[i].0 in Sections && t[i].1.JObject?;
    }
  }

  /** The `variables` section of the default session after the insertion. */
  lemma DefaultVariablesInsert(rel: string)
    ensures var c := DefaultLoaded();
      && Lookup(c, "variables") == Some(JObject([]))
      && Put(c, "variables", JObject(Put([], "target", JStr(rel)))) == TargetSession(rel)[..1] + c[1..]
  {
    var c := DefaultLoaded();
    var vars := JObject([("target", JStr(rel))]);
    assert Put([], "target", JStr(rel)) == vars.entries;
    PutFirst(c, "variables", vars);
  }

  lemma DefaultAssemble(rel: string)
    ensures var t := TargetSession(rel);
      Put(t[..1] + DefaultLoaded()[1..], "modes", JObject(t[1].1.entries)) == t
  {
    var t := TargetSession(rel);
    var st1 := t[..1] + DefaultLoaded()[1..];
    PutLater(st1, "modes", t[1].1);
    PutFirst(st1[1..], "modes", t[1].1);
    assert st1[0] == t[0] && st1[2..] == t[2..];
  }

  /** On the freshly loaded default session the insertion succeeds: the target
      variable is set and the debug mode loads the target first. */
  lemma InsertTargetDefault(rel: string)
    ensures InsertTarget(DefaultLoaded(), rel) == Success(TargetSession(rel))
  {
    var c := DefaultLoaded();
    var t := TargetSession(rel);
    DefaultVariablesInsert(rel);
    DefaultModesInsert(rel);
    DefaultAssemble(rel);
    var st1 := t[..1] + c[1..];
    assert st1[1] == c[1];
    assert Lookup(st1, "modes") == Some(c[1].1);
  }

  /** The `target` of the answer of `gdb#session#new()`, when one is given and not
      empty; the TypeError `in`, `len` and `path.join` raise on other values. */
  function TargetOf(ret: Json): Result<Option<string>, PyError>
  {
    match ContainsKey(ret, "target")
    case None => Failure(TypeError)
    case Some(false) => Success(None)
    case Some(true) =>
      match Index(ret, "target")
      case None => Failure(TypeError)
      case Some(t) =>
        match Length(t)
        case None => Failure(TypeError)
        case Some(n) =>
          if n == 0 then Success(None)
          else if t.JStr? then Success(Some(t.s))
          else Failure(TypeError)
  }

  /** An absolute path as `os.path.abspath` returns it: it starts with a slash, has no
      empty component and, unless it is the root, no trailing slash. */
  predicate NormalAbsolute(p: string)
  {
    && |p| > 0 && p[0] == '/'
    && (forall k :: 0 < k < |p| ==> !(p[k - 1] == '/' && p[k] == '/'))
  }

  lemma TrimOneSlash(s: string)
    requires |s| >= 2 && s[|s| - 1] == '/' && s[|s| - 2] != '/'
    ensures Text.TrimSlashes(s) == s[..|s| - 1]
  {
    assert s[..|s| - 1][|s| - 2] == s[|s| - 2];
  }

  /** Splitting a normalised absolute path that names a file and joining the parts
      again gives the path back: `get_confpath()` names the file `set_path` was given. */
  lemma {:induction false} SplitJoinRoundTrip(p: string)
    requires NormalAbsolute(p) && p[|p| - 1] != '/'
    ensures Text.PathJoin(Text.PathSplit(p).0, Text.PathSplit(p).1) == p
  {
    var i := Text.AfterLastSlash(p);
    assert p[0] == '/';
    var head := p[..i];
    var tail := p[i..];
    assert !Text.StartsWith(tail, "/") by {
      if |tail| > 0 {
        assert tail[0] == p[i];
      }
    }
    if i == 1 {
      assert Text.AllSlashes(head);
      assert Text.PathSplit(p) == (head, tail);
      assert head + tail == p;
    } else {
      assert head[|head| - 2] == p[i - 2] && p[i - 2] != '/';
      assert !Text.AllSlashes(head);
      TrimOneSlash(head);
      assert head[..|head| - 1] == p[..i - 1];
      assert Text.PathSplit(p) == (p[..i - 1], tail);
      assert p[..i - 1] + "/" + tail == p;
    }
  }

  /** The session file named by the answer of `gdb#session#new()`: a truthy object
      whose `_file` is a string. */
  function NewFile(ret: Json): (f: Option<string>)
    ensures f.Some? ==> Truthy(ret) && ContainsKey(ret, "_file") == Some(true) && Index(ret, "_file") == Some(JStr(f.value))
  {
    if Truthy(ret) && ret.JObject? && Lookup(ret.entries, "_file").Some? && Lookup(ret.entries, "_file").value.JStr?
    then Some(Lookup(ret.entries, "_file").value.s)
    else None
  }

  /** `isalive()`: a loaded session (more than one section) with a session file and a
      current mode. */
  predicate Alive(state: seq<(string, Json)>, internal: map<string, string>)
  {
    |state| > 1 && "@file" in internal && "@mode" in internal
  }

  /** The answers of the editor and of the file system a sub-command may need. */
  datatype Answers = Answers(
    discard: Json,                 // `gdb#session#discard_prompt()`
    created: Json,                 // `gdb#session#new()`
    editorCwd: string,             // the editor's `getcwd()`
    found: string,                 // `findfile(g:gdb#session#file, ".;")`
    file: Result<Json, string>,    // the decoded session file, or the text of the IOError/ValueError
    chdirError: Option<string>,    // the OSError `chdir` raises, if any
    hasDbg: bool)                  // whether the controller holds a GDB handle when the command starts

  class Session {
    /** `s.format(**variables)`: the formatted text, or the exception it raises. */
    const format: (string, Json) -> Result<string, PyError>
    /** `os.path.abspath`. */
    const abspath: string -> string
    /** `os.path.relpath(path, start)`. */
    const relpath: (string, string) -> string

    /** `self.state`: the loaded session file, sections in file order. */
    var state: seq<(string, Json)>
    /** `self.internal`: `@dir`, `@file` and `@mode`. */
    var internal: map<string, string>
    /** `self.help_flags["new"]`: the session was created with a target. */
    var helpNew: bool
    /** `self.help_flags["session_show"]`: the save-and-reload hint is still to be given. */
    var helpShow: bool
    var bpidMap: map<int, int>
    var trace: seq<Effect>

    /** A session is either not loaded, and then in no mode, or loaded from a
        configuration that passed validation; the session file's directory is known
        whenever the file is. */
    ghost predicate Valid()
      reads this`state, this`internal
    {
      && (state == [] || (|state| > 1 && ConfigOk(state)))
      && (state == [] ==> "@mode" !in internal)
      && ("@file" in internal ==> "@dir" in internal)
    }

    constructor (format: (string, Json) -> Result<string, PyError>, abspath: string -> string,
                 relpath: (string, string) -> string)
      ensures Valid()
      ensures this.format == format && this.abspath == abspath && this.relpath == relpath
      ensures state == [] && internal == map[] && !helpNew && helpShow && bpidMap == map[] && trace == []
    {
      this.format := format;
      this.abspath := abspath;
      this.relpath := relpath;
      state := [];
      internal := map[];
      helpNew := false;
      helpShow := true;
      bpidMap := map[];
      trace := [];
    }

    predicate IsAlive()
      reads this`state, this`internal
    {
      Alive(state, internal)
    }

    /** `new_target`: the breakpoint id map starts over. */
    method NewTarget(target: string)
      modifies this`bpidMap
      ensures bpidMap == map[]
    {
      bpidMap := map[];
    }

    /** `self.format(action)`: `variables` missing is a KeyError. */
    function FormatAction(action: string, vars: Option<Json>): Result<string, PyError>
    {
      if vars.None? then Failure(KeyError("variables")) else format(action, vars.value)
    }

    /** The loop of `run_actions` over the actions: the commands handed to `execute`,
        and the exception that stopped it.  `dbg` says whether the controller holds a
        GDB handle: without one, `execute` raises AttributeError on its first write. */
    function ActionsRun(items: seq<Json>, vars: Option<Json>, dbg: bool): (seq<string>, Option<PyError>)
      decreases |items|
    {
      if items == [] then ([], None)
      else
        var n := |items| - 1;
        var prev := ActionsRun(items[..n], vars, dbg);
        if prev.1.Some? || !items[n].JStr? then prev
        else match FormatAction(items[n].s, vars)
          case Success(c) => (prev.0 + [c], if dbg then None else Some(AttributeError))
          case Failure(e) => (prev.0, Some(e))
    }

    /** Non-string actions are skipped and the others run in order, each formatted:
        with a GDB handle until the first one whose formatting raises, without one
        only the first, whose `execute` raises if its formatting did not. */
    lemma {:induction false} ActionsRunStrings(items: seq<Json>, vars: Option<Json>, dbg: bool)
      ensures var run := ActionsRun(items, vars, dbg);
        var strs := StringActions(items);
        && |run.0| <= |strs|
        && (forall k :: 0 <= k < |run.0| ==> FormatAction(strs[k], vars) == Success(run.0[k]))
        && (strs == [] ==> run == ([], None))
        && (dbg && run.1.None? ==> |run.0| == |strs|)
        && (dbg && run.1.Some? ==> |run.0| < |strs| && FormatAction(strs[|run.0|], vars) == Failure(run.1.value))
        && (!dbg && strs != [] ==>
              run == match FormatAction(strs[0], vars)
                     case Failure(e) => ([], Some(e))
                     case Success(c) => ([c], Some(AttributeError)))
      decreases |items|
    {
      if items != [] {
        var n := |items| - 1;
        ActionsRunStrings(items[..n], vars, dbg);
        var prev := ActionsRun(items[..n], vars, dbg);
        var strs := StringActions(items);
        var before := StringActions(items[..n]);
        assert strs[..|before|] == before;
        if !dbg && before != [] {
          assert strs[0] == before[0];
          assert prev.1.Some?;
        } else if !dbg && strs != [] {
          assert prev == ([], None);
          assert items[n].JStr? && strs[0] == items[n].s;
          match FormatAction(items[n].s, vars)
          case Success(c) =>
            assert prev.0 + [c] == [c];
          case Failure(e) =>
        }
      }
    }

    /** Once an action has failed, the later ones change nothing. */
    lemma {:induction false} ActionsRunStops(items: seq<Json>, vars: Option<Json>, dbg: bool, i: nat)
      requires i <= |items| && ActionsRun(items[..i], vars, dbg).1.Some?
      ensures ActionsRun(items, vars, dbg) == ActionsRun(items[..i], vars, dbg)
      decreases |items|
    {
      if i < |items| {
        var n := |items| - 1;
        assert items[..n][..i] == items[..i];
        ActionsRunStops(items[..n], vars, dbg, i);
      } else {
        assert items[..i] == items;
      }
    }

    /** What `run_actions(actions)` does: the gate is raised, the actions run, and
        the gate is released only when none raised. */
    function ActionEffects(actions: Json, vars: Option<Json>, dbg: bool): (seq<Effect>, Option<PyError>)
    {
      match Iterate(actions)
      case None => ([BusyMore], Some(TypeError))
      case Some(items) =>
        var run := ActionsRun(items, vars, dbg);
        ([BusyMore] + Executes(run.0) + (if run.1.None? then [BusyLess] else []), run.1)
    }

    /** A run that completes brackets its commands with the gate, so the gate ends
        where it started; a run that raises leaves it raised by one. */
    lemma ActionEffectsGate(actions: Json, vars: Option<Json>, dbg: bool, n: nat)
      ensures var (es, err) := ActionEffects(actions, vars, dbg);
        && (err.None? ==> Debugger.GateRun(n, GateOps(es)) == n)
        && (err.Some? ==> Debugger.GateRun(n, GateOps(es)) == n + 1)
    {
      var (es, err) := ActionEffects(actions, vars, dbg);
      assert GateOps([BusyMore]) == [Debugger.More];
      assert GateOps([BusyLess]) == [Debugger.Less];
      if Iterate(actions).Some? {
        var run := ActionsRun(Iterate(actions).value, vars, dbg);
        GateOpsExecutes(run.0);
        GateOpsAppend([BusyMore], Executes(run.0));
        if err.None? {
          GateOpsAppend([BusyMore] + Executes(run.0), [BusyLess]);
          assert GateOps(es) == Debugger.Repeat(Debugger.More, 1) + Debugger.Repeat(Debugger.Less, 1);
          Debugger.BracketRestoresGate(n, 1);
        } else {
          assert es == [BusyMore] + Executes(run.0);
        }
      }
    }

    /** The loop of `run_actions` over the actions. */
    method RunItems(items: seq<Json>, vars: Option<Json>, dbg: bool) returns (err: Option<PyError>)
      modifies this`trace
      ensures var run := ActionsRun(items, vars, dbg);
        trace == old(trace) + Executes(run.0) && err == run.1
    {
      ghost var done: seq<string> := [];
      var i := 0;
      while i < |items|
        invariant 0 <= i <= |items|
        invariant ActionsRun(items[..i], vars, dbg) == (done, None)
        invariant trace == old(trace) + Executes(done)
      {
        var action := items[i];
        assert items[..i + 1][..i] == items[..i];
        if action.JStr? {
          var command := FormatAction(action.s, vars);
          if command.Failure? {
            ActionsRunStops(items, vars, dbg, i + 1);
            return Some(command.error);
          }
          assert Executes(done + [command.value]) == Executes(done) + [Execute(command.value)];
          trace := trace + [Execute(command.value)];
          done := done + [command.value];
          if !dbg {
            ActionsRunStops(items, vars, dbg, i + 1);
            return Some(AttributeError);
          }
        }
        i := i + 1;
      }
      assert items[..i] == items;
      err := None;
    }

    /** `run_actions(actions)`: the exception it raises, if any. */
    method RunActions(actions: Json, dbg: bool) returns (err: Option<PyError>)
      modifies this`trace
      ensures var e := ActionEffects(actions, Lookup(state, "variables"), dbg);
        trace == old(trace) + e.0 && err == e.1
    {
      var vars := Lookup(state, "variables");
      trace := trace + [BusyMore];
      var items := Iterate(actions);
      if items.None? {
        err := Some(TypeError);
      } else {
        ghost var mid := trace;
        ghost var ex := Executes(ActionsRun(items.value, vars, dbg).0);
        err := RunItems(items.value, vars, dbg);
        assert trace == old(trace) + ([BusyMore] + ex) by {
          assert mid == old(trace) + [BusyMore];
        }
        if err.Some? {
          assert [BusyMore] + ex + [] == [BusyMore] + ex;
        } else {
          trace := trace + [BusyLess];
        }
      }
    }

    /** `if name in m: self.run_actions(m[name])` for a mode `m`. */
    function HookEffects(m: Json, name: string, vars: Option<Json>, dbg: bool): (seq<Effect>, Option<PyError>)
    {
      match ContainsKey(m, name)
      case None => ([], Some(TypeError))
      case Some(false) => ([], None)
      case Some(true) =>
        match Index(m, name)
        case None => ([], Some(TypeError))
        case Some(actions) => ActionEffects(actions, vars, dbg)
    }

    method RunHook(m: Json, name: string, dbg: bool) returns (err: Option<PyError>)
      modifies this`trace
      ensures var e := HookEffects(m, name, Lookup(state, "variables"), dbg);
        trace == old(trace) + e.0 && err == e.1
    {
      var has := ContainsKey(m, name);
      if has.None? {
        return Some(TypeError);
      }
      if !has.value {
        return None;
      }
      var actions := Index(m, name);
      if actions.None? {
        return Some(TypeError);
      }
      err := RunActions(actions.value, dbg);
    }

    /** What `mode_teardown` does to a session: nothing unless it is alive; otherwise
        the mode's `teardown` actions run, the editor is told, the mode is left,
        and a debug mode stops the debugger.  `dbg` says whether the controller holds
        a GDB handle; without one `dbg_stop` raises AttributeError once the mode is
        left. */
    function Teardown(st: seq<(string, Json)>, inl: map<string, string>, dbg: bool): (o: Outcome)
      ensures o.internal - {"@mode"} == inl - {"@mode"}
    {
      if !Alive(st, inl) then Outcome([], None, inl)
      else
        var mode := inl["@mode"];
        var mv := Lookup(ModesOf(st), mode);
        if mv.None? then Outcome([], Some(KeyError(mode)), inl)
        else
          var h := HookEffects(mv.value, "teardown", Lookup(st, "variables"), dbg);
          if h.1.Some? then Outcome(h.0, h.1, inl)
          else Outcome(h.0 + [Command(TeardownCommand(mode))] + (if IsDebugMode(mode) then [DbgStop] else []),
                       if IsDebugMode(mode) && !dbg then Some(AttributeError) else None, inl - {"@mode"})
    }

    /** A live debug mode cannot be left without a GDB handle: either a teardown action
        raises and the mode stays, or `dbg_stop` raises after the mode was left. */
    lemma TeardownNeedsHandle(st: seq<(string, Json)>, inl: map<string, string>)
      requires Alive(st, inl) && IsDebugMode(inl["@mode"])
      ensures var t := Teardown(st, inl, false);
        && t.err.Some?
        && (t.internal == inl
            || (t.internal == inl - {"@mode"} && t.err == Some(AttributeError) && t.effects[|t.effects| - 1] == DbgStop))
    {
    }

    /** How a debug mode starts: the debugger is started, the mode's `setup` actions
        run (with the GDB handle `dbg_run` guarantees), and the buffers are refreshed
        once they all ran. */
    function DebugStart(mode: string, st: seq<(string, Json)>): (seq<Effect>, Option<PyError>)
    {
      var mv := Lookup(ModesOf(st), mode);
      if mv.None? then ([DbgRun], Some(KeyError(mode)))
      else
        var h := HookEffects(mv.value, "setup", Lookup(st, "variables"), true);
        if h.1.Some? then ([DbgRun] + h.0, h.1)
        else ([DbgRun] + h.0 + [UpdateBuffers], None)
    }

    /** What `mode_setup(mode)` does after the teardown: the mode is entered and the
        editor told; a debug mode then starts. */
    function Enter(mode: string, st: seq<(string, Json)>, inl: map<string, string>): (o: Outcome)
      ensures o.internal == inl["@mode" := mode]
      ensures o.internal - {"@mode"} == inl - {"@mode"}
    {
      var entered := inl["@mode" := mode];
      var told := [Command(SetupCommand(mode))];
      if !IsDebugMode(mode) then Outcome(told, None, entered)
      else
        var d := DebugStart(mode, st);
        Outcome(told + d.0, d.1, entered)
    }

    /** `mode_setup(mode)`: an undeclared mode is only reported; otherwise the current
        mode is torn down and the new one entered. */
    function Setup(mode: string, st: seq<(string, Json)>, inl: map<string, string>, dbg: bool): (o: Outcome)
      ensures o.internal - {"@mode"} == inl - {"@mode"}
    {
      if mode !in Keys(ModesOf(st)) then Outcome([Log("Invalid mode!", 1)], None, inl)
      else
        var t := Teardown(st, inl, dbg);
        if t.err.Some? then t
        else
          var e := Enter(mode, st, t.internal);
          Outcome(t.effects + e.effects, e.err, e.internal)
    }

    /** A declared mode becomes the current one as soon as the old one is torn down,
        even if its own setup actions then fail; the debugger is started for exactly
        the debug modes.  A teardown that raises leaves the new mode unentered. */
    lemma SetupEntersMode(mode: string, st: seq<(string, Json)>, inl: map<string, string>, dbg: bool)
      requires mode in Keys(ModesOf(st))
      ensures var t := Teardown(st, inl, dbg);
        var o := Setup(mode, st, inl, dbg);
        && (t.err.None? ==>
              && "@mode" in o.internal && o.internal["@mode"] == mode
              && (DbgRun in o.effects <==> IsDebugMode(mode)))
        && (t.err.Some? ==> o.err == t.err && o.internal == t.internal && DbgRun !in o.effects)
    {
      var t := Teardown(st, inl, dbg);
      assert DbgRun !in t.effects by {
        if Alive(st, inl) {
          var mv := Lookup(ModesOf(st), inl["@mode"]);
          if mv.Some? {
            HookNeverRuns(mv.value, "teardown", Lookup(st, "variables"), dbg);
          }
        }
      }
      if t.err.None? {
        var o := Setup(mode, st, inl, dbg);
        if IsDebugMode(mode) {
          var e := Enter(mode, st, t.internal);
          assert e.effects[1] == DbgRun;
          assert o.effects[|t.effects| + 1] == DbgRun;
        } else {
          assert o.effects == t.effects + [Command(SetupCommand(mode))];
        }
      }
    }

    /** Running actions never starts or stops the debugger by itself. */
    lemma HookNeverRuns(m: Json, name: string, vars: Option<Json>, dbg: bool)
      ensures DbgRun !in HookEffects(m, name, vars, dbg).0 && DbgStop !in HookEffects(m, name, vars, dbg).0
    {
      var h := HookEffects(m, name, vars, dbg);
      forall k | 0 <= k < |h.0| ensures h.0[k] != DbgRun && h.0[k] != DbgStop {
      }
    }

    /** `mode_teardown()`: whether a live session was torn down.  `dbg` says whether
        the controller holds a GDB handle. */
    method ModeTeardown(dbg: bool) returns (r: Result<bool, PyError>)
      modifies this`trace, this`internal
      ensures var t := Teardown(old(state), old(internal), dbg);
        && trace == old(trace) + t.effects && internal == t.internal
        && r == if t.err.Some? then Failure(t.err.value) else Success(Alive(old(state), old(internal)))
    {
      if !IsAlive() {
        return Success(false);
      }
      var mode := internal["@mode"];
      var mv := Lookup(ModesOf(state), mode);
      if mv.None? {
        return Failure(KeyError(mode));
      }
      ghost var hook := HookEffects(mv.value, "teardown", Lookup(state, "variables"), dbg);
      var h := RunHook(mv.value, "teardown", dbg);
      if h.Some? {
        return Failure(h.value);
      }
      var stop := if IsDebugMode(mode) then [DbgStop] else [];
      trace := trace + ([Command(TeardownCommand(mode))] + stop);
      AppendAssoc(hook.0, [Command(TeardownCommand(mode))], stop);
      AppendAssoc(old(trace), hook.0, [Command(TeardownCommand(mode))] + stop);
      internal := internal - {"@mode"};
      if IsDebugMode(mode) && !dbg {
        return Failure(AttributeError);
      }
      r := Success(true);
    }

    /** The part of `mode_setup(mode)` that starts a debug mode. */
    method StartDebugMode(mode: string) returns (err: Option<PyError>)
      modifies this`trace
      ensures var d := DebugStart(mode, state);
        trace == old(trace) + d.0 && err == d.1
    {
      trace := trace + [DbgRun];
      var mv := Lookup(ModesOf(state), mode);
      if mv.None? {
        return Some(KeyError(mode));
      }
      ghost var h := HookEffects(mv.value, "setup", Lookup(state, "variables"), true);
      err := RunHook(mv.value, "setup", true);
      AppendAssoc(old(trace), [DbgRun], h.0);
      if err.None? {
        trace := trace + [UpdateBuffers];
        AppendAssoc(old(trace), [DbgRun] + h.0, [UpdateBuffers]);
      }
    }

    /** The part of `mode_setup(mode)` after the teardown. */
    method EnterMode(mode: string) returns (err: Option<PyError>)
      modifies this`trace, this`internal
      ensures var o := Enter(mode, old(state), old(internal));
        trace == old(trace) + o.effects && internal == o.internal && err == o.err
    {
      internal := internal["@mode" := mode];
      trace := trace + [Command(SetupCommand(mode))];
      err := None;
      if IsDebugMode(mode) {
        ghost var d := DebugStart(mode, state);
        err := StartDebugMode(mode);
        AppendAssoc(old(trace), [Command(SetupCommand(mode))], d.0);
      }
    }

    /** `mode_setup(mode)`: the exception it raises, if any.  `dbg` says whether the
        controller holds a GDB handle. */
    method ModeSetup(mode: string, dbg: bool) returns (err: Option<PyError>)
      modifies this`trace, this`internal
      ensures var o := Setup(mode, old(state), old(internal), dbg);
        trace == old(trace) + o.effects && internal == o.internal && err == o.err
    {
      if mode !in Keys(ModesOf(state)) {
        trace := trace + [Log("Invalid mode!", 1)];
        return None;
      }
      ghost var down := Teardown(state, internal, dbg);
      var t := ModeTeardown(dbg);
      if t.Failure? {
        return Some(t.error);
      }
      ghost var e := Enter(mode, state, internal);
      err := EnterMode(mode);
      AppendAssoc(old(trace), down.effects, e.effects);
    }

    /** `get_confpath()`: the session file of a live session. */
    function GetConfpath(): (p: Option<string>)
      reads this`state, this`internal
      requires Valid()
      ensures p.Some? <==> IsAlive()
    {
      if IsAlive() then Some(Text.PathJoin(internal["@dir"], internal["@file"])) else None
    }

    /** `set_path(confpath)`: the session directory becomes the working directory and
        `@dir`/`@file` are set, unless the file name is empty or `chdir` fails. */
    method SetPath(confpath: string, chdirError: Option<string>) returns (ok: bool)
      requires Valid()
      modifies this`trace, this`internal
      ensures Valid()
      ensures var head := Text.PathSplit(abspath(confpath)).0;
        var tail := Text.PathSplit(abspath(confpath)).1;
        && (ok <==> tail != [] && chdirError.None?)
        && (ok ==> internal == old(internal)["@dir" := head]["@file" := tail] && trace == old(trace) + [Chdir(head)])
        && (!ok ==> internal == old(internal))
        && (tail == [] ==> trace == old(trace) + [Log("Error: invalid path!", 1)])
        && (tail != [] && chdirError.Some? ==> trace == old(trace) + [Log(chdirError.value, 1)])
    {
      var (head, tail) := Text.PathSplit(abspath(confpath));
      if |tail| == 0 {
        trace := trace + [Log("Error: invalid path!", 1)];
        return false;
      }
      if chdirError.Some? {
        trace := trace + [Log(chdirError.value, 1)];
        return false;
      }
      trace := trace + [Chdir(head)];
      internal := internal["@dir" := head];
      internal := internal["@file" := tail];
      ok := true;
    }

    /** The teardown inside `mode_setup` right after the one `parse_and_load` makes
        does nothing: the first one left the session without a mode, or found it not
        alive for want of a mode or a file, which the new configuration does not
        supply. */
    lemma SecondTeardownIdle(st: seq<(string, Json)>, inl: map<string, string>, dbg: bool, c: seq<(string, Json)>)
      requires |st| > 1 || "@mode" !in inl
      requires Teardown(st, inl, dbg).err.None?
      ensures var t := Teardown(st, inl, dbg);
        Teardown(c, t.internal, dbg) == Outcome([], None, t.internal)
    {
    }

    /** What `parse_and_load` does once a configuration passed validation: the current
        mode is torn down, the configuration installed and its first mode entered.
        When the teardown raises, the old state stays. */
    function Install(c: seq<(string, Json)>, st: seq<(string, Json)>, inl: map<string, string>, dbg: bool): (r: (seq<(string, Json)>, Outcome))
      requires ModesOf(c) != []
      ensures r.1.internal - {"@mode"} == inl - {"@mode"}
    {
      var t := Teardown(st, inl, dbg);
      if t.err.Some? then (st, t)
      else
        var o := Setup(ModesOf(c)[0].0, c, t.internal, dbg);
        (c, Outcome(t.effects + o.effects, o.err, o.internal))
    }

    /** What `parse_and_load` does with a decoded session file: the new state and the
        outcome.  A root that is not an object or a section that fails validation is
        rejected before anything changes. */
    function Load(decoded: Json, st: seq<(string, Json)>, inl: map<string, string>, dbg: bool): (r: (seq<(string, Json)>, Outcome))
      ensures r.1.internal - {"@mode"} == inl - {"@mode"}
    {
      if !decoded.JObject? then (st, Outcome([], Some(ValueError(RootNotObject)), inl))
      else
        var c := AddDefaults(decoded.entries, Sections);
        var bad := FirstBadSection(c);
        if bad.Some? then (st, Outcome([], bad, inl))
        else
          FirstBadSectionNone(c);
          LoadedConfigHasModes(decoded.entries);
          Install(c, st, inl, dbg)
    }

    /** A rejected file changes nothing: not the state, not the session's internal
        variables, and nothing is asked of the editor or the controller. */
    lemma LoadRejects(decoded: Json, st: seq<(string, Json)>, inl: map<string, string>, dbg: bool)
      requires !decoded.JObject? || !ConfigOk(AddDefaults(decoded.entries, Sections))
      ensures var o := Load(decoded, st, inl, dbg).1;
        && Load(decoded, st, inl, dbg).0 == st && o.internal == inl && o.effects == [] && o.err.Some?
        && (!decoded.JObject? ==> o.err == Some(ValueError(RootNotObject)))
        && (decoded.JObject? ==> o.err == FirstBadSection(AddDefaults(decoded.entries, Sections)))
    {
      if decoded.JObject? {
        FirstBadSectionNone(AddDefaults(decoded.entries, Sections));
      }
    }

    /** An accepted file replaces the state by the file with its defaults, and its first
        declared mode becomes the current one, whatever that mode's own actions do. */
    lemma LoadEntersFirstMode(decoded: Json, st: seq<(string, Json)>, inl: map<string, string>, dbg: bool)
      requires decoded.JObject? && ConfigOk(AddDefaults(decoded.entries, Sections))
      requires |st| > 1 || "@mode" !in inl
      ensures var c := AddDefaults(decoded.entries, Sections);
        var t := Teardown(st, inl, dbg);
        var o := Load(decoded, st, inl, dbg).1;
        && ModesOf(c) != []
        && (t.err.None? ==>
              && Load(decoded, st, inl, dbg).0 == c
              && "@mode" in o.internal && o.internal["@mode"] == ModesOf(c)[0].0
              && o.internal - {"@mode"} == inl - {"@mode"})
        && (t.err.Some? ==> Load(decoded, st, inl, dbg) == (st, t))
    {
      var c := AddDefaults(decoded.entries, Sections);
      FirstBadSectionNone(c);
      LoadedConfigHasModes(decoded.entries);
      var t := Teardown(st, inl, dbg);
      assert Load(decoded, st, inl, dbg) == Install(c, st, inl, dbg);
      if t.err.None? {
        var first := ModesOf(c)[0].0;
        assert first in Keys(ModesOf(c));
        SecondTeardownIdle(st, inl, dbg, c);
        SetupEntersMode(first, c, t.internal, dbg);
      }
    }

    /** The second loop of `parse_and_load`: the sections are checked in file order. */
    method CheckSections(entries: seq<(string, Json)>) returns (err: Option<PyError>)
      ensures err == FirstBadSection(entries)
    {
      var i := 0;
      while i < |entries|
        invariant 0 <= i <= |entries|
        invariant FirstBadSection(entries[i..]) == FirstBadSection(entries)
      {
        assert entries[i..][1..] == entries[i + 1..];
        err := SectionCheck(entries[i].0, entries[i].1);
        if err.Some? {
          return;
        }
        i := i + 1;
      }
      err := None;
    }

    /** The first loop of `parse_and_load`: the missing sections are added. */
    method AddMissingSections(entries: seq<(string, Json)>) returns (c: seq<(string, Json)>)
      ensures c == AddDefaults(entries, Sections)
    {
      c := entries;
      var i := 0;
      while i < |Sections|
        invariant 0 <= i <= |Sections|
        invariant c == AddDefaults(entries, Sections[..i])
      {
        assert Sections[..i + 1][..i] == Sections[..i];
        c := AddDefault(c, Sections[i]);
        i := i + 1;
      }
      assert Sections[..i] == Sections;
    }

    /** The part of `parse_and_load` after validation. */
    method InstallConfig(c: seq<(string, Json)>, dbg: bool) returns (err: Option<PyError>)
      requires Valid() && |c| > 1 && ConfigOk(c) && ModesOf(c) != []
      modifies this`state, this`trace, this`internal
      ensures Valid()
      ensures var o := Install(c, old(state), old(internal), dbg).1;
        state == Install(c, old(state), old(internal), dbg).0 && trace == old(trace) + o.effects
        && internal == o.internal && err == o.err
    {
      ghost var t := Teardown(state, internal, dbg);
      var down := ModeTeardown(dbg);
      FileKeepsDir(old(internal), internal);
      if down.Failure? {
        assert t.err == Some(down.error) && Install(c, old(state), old(internal), dbg) == (old(state), t);
        return Some(down.error);
      }
      ghost var o := Setup(ModesOf(c)[0].0, c, internal, dbg);
      err := SwitchTo(c, dbg);
      assert Install(c, old(state), old(internal), dbg) == (c, Outcome(t.effects + o.effects, o.err, o.internal));
      AppendAssoc(old(trace), t.effects, o.effects);
    }

    /** The end of `parse_and_load`: the validated configuration replaces the state
        and its first mode is entered. */
    method SwitchTo(c: seq<(string, Json)>, dbg: bool) returns (err: Option<PyError>)
      requires |c| > 1 && ConfigOk(c) && ModesOf(c) != []
      requires "@file" in internal ==> "@dir" in internal
      modifies this`state, this`trace, this`internal
      ensures Valid()
      ensures var o := Setup(ModesOf(c)[0].0, c, old(internal), dbg);
        state == c && trace == old(trace) + o.effects && internal == o.internal && err == o.err
    {
      state := c;
      err := ModeSetup(ModesOf(c)[0].0, dbg);
      FileKeepsDir(old(internal), internal);
    }

    /** `parse_and_load` of a decoded session file. */
    method ParseAndLoad(decoded: Json, dbg: bool) returns (err: Option<PyError>)
      requires Valid()
      modifies this`state, this`trace, this`internal
      ensures Valid()
      ensures var o := Load(decoded, old(state), old(internal), dbg).1;
        state == Load(decoded, old(state), old(internal), dbg).0 && trace == old(trace) + o.effects
        && internal == o.internal && err == o.err
    {
      if !decoded.JObject? {
        return Some(ValueError(RootNotObject));
      }
      var c := AddMissingSections(decoded.entries);
      err := CheckSections(c);
      if err.Some? {
        return;
      }
      FirstBadSectionNone(c);
      LoadedConfigHasModes(decoded.entries);
      err := InstallConfig(c, dbg);
    }

    /** Loading the default session succeeds exactly when the teardown of the current
        mode does; it then installs the default session and enters its `code` mode. */
    lemma LoadDefaultSession(st: seq<(string, Json)>, inl: map<string, string>, dbg: bool)
      requires |st| > 1 || "@mode" !in inl
      ensures var o := Load(DefaultSession, st, inl, dbg).1;
        && (o.err.None? <==> Teardown(st, inl, dbg).err.None?)
        && (o.err.None? ==>
              Load(DefaultSession, st, inl, dbg).0 == DefaultLoaded()
              && o.internal == Teardown(st, inl, dbg).internal["@mode" := "code"])
    {
      var t := Teardown(st, inl, dbg);
      DefaultSessionLoads();
      DefaultSessionDefaults();
      var c := DefaultLoaded();
      assert Load(DefaultSession, st, inl, dbg) == Install(c, st, inl, dbg);
      if t.err.None? {
        SecondTeardownIdle(st, inl, dbg, c);
        assert "code" in Keys(ModesOf(c));
        assert !IsDebugMode("code");
      }
    }

    /** The configuration with the target inserted replaces the default session. */
    method InstallTarget(rel: string)
      requires Valid() && state == DefaultLoaded()
      modifies this`state
      ensures Valid() && state == TargetSession(rel)
    {
      var inserted := InsertTarget(state, rel);
      assert inserted == Success(TargetSession(rel)) by {
        InsertTargetDefault(rel);
      }
      state := inserted.value;
      TargetSessionValid(rel);
    }

    /** The target insertion of `handle_new`, on the default session just loaded. */
    method AddTarget(ret: Json, editorCwd: string) returns (err: Option<PyError>)
      requires Valid() && state == DefaultLoaded() && "@dir" in internal
      modifies this`state, this`trace, this`helpNew
      ensures Valid()
      ensures TargetOf(ret).Failure? ==>
        err == Some(TargetOf(ret).error) && state == old(state) && helpNew == old(helpNew)
      ensures TargetOf(ret) == Success(None) ==>
        err.None? && state == old(state) && helpNew == old(helpNew) && trace == old(trace)
      ensures TargetOf(ret).Success? && TargetOf(ret).value.Some? ==>
        && err.None? && helpNew && trace == old(trace) + [Getcwd]
        && state == TargetSession(relpath(Text.PathJoin(editorCwd, TargetOf(ret).value.value), internal["@dir"]))
    {
      var has := ContainsKey(ret, "target");
      if has.None? {
        return Some(TypeError);
      }
      if !has.value {
        return None;
      }
      var target := Index(ret, "target");
      if target.None? {
        return Some(TypeError);
      }
      var n := Length(target.value);
      if n.None? {
        return Some(TypeError);
      }
      if n.value == 0 {
        return None;
      }
      trace := trace + [Getcwd];
      if !target.value.JStr? {
        return Some(TypeError);
      }
      InstallTarget(relpath(Text.PathJoin(editorCwd, target.value.s), internal["@dir"]));
      helpNew := true;
      err := None;
    }

    /** The session state `handle_new` leaves behind when it succeeds. */
    function CreatedState(ret: Json, editorCwd: string, dir: string): seq<(string, Json)>
      requires TargetOf(ret).Success?
    {
      match TargetOf(ret).value
      case None => DefaultLoaded()
      case Some(target) => TargetSession(relpath(Text.PathJoin(editorCwd, target), dir))
    }

    /** `parse_and_load` of the default session. */
    method ParseDefaultSession(dbg: bool) returns (err: Option<PyError>)
      requires Valid()
      modifies this`state, this`trace, this`internal
      ensures Valid()
      ensures internal - {"@mode"} == old(internal) - {"@mode"}
      ensures err.None? <==> Teardown(old(state), old(internal), dbg).err.None?
      ensures err.None? ==>
        state == DefaultLoaded() && internal == Teardown(old(state), old(internal), dbg).internal["@mode" := "code"]
    {
      LoadDefaultSession(state, internal, dbg);
      err := ParseAndLoad(DefaultSession, dbg);
    }

    /** What a `handle_new` that goes all the way leaves behind, from the state `st`,
        the internal variables `inl` once the session file is named, and the help flag
        `hn`: the default session, with the target if one was given, in its `code`
        mode, and the creation reported last. */
    ghost predicate Created(ret: Json, editorCwd: string, st: seq<(string, Json)>, inl: map<string, string>, hn: bool, dbg: bool)
      reads this`state, this`internal, this`trace, this`helpNew
      requires "@dir" in inl && TargetOf(ret).Success?
    {
      && internal == Teardown(st, inl, dbg).internal["@mode" := "code"]
      && |trace| > 0 && trace[|trace| - 1] == Log("New session created!", 0)
      && state == CreatedState(ret, editorCwd, inl["@dir"])
      && helpNew == (hn || TargetOf(ret).value.Some?)
    }

    /** The part of `handle_new` after `set_path`: the default session is loaded and
        the target inserted. */
    method LoadNewSession(ret: Json, editorCwd: string, dbg: bool) returns (err: Option<PyError>)
      requires Valid() && "@dir" in internal
      modifies this`state, this`trace, this`internal, this`helpNew
      ensures Valid()
      ensures Teardown(old(state), old(internal), dbg).err.None? && TargetOf(ret).Success? ==>
        err.None? && Created(ret, editorCwd, old(state), old(internal), old(helpNew), dbg)
    {
      err := ParseDefaultSession(dbg);
      if err.Some? {
        if err.value.ValueError? {
          trace := trace + [Log("Unexpected error: " + err.value.msg, 1)];
          return None;
        }
        return;
      }
      assert internal["@dir"] == old(internal)["@dir"] by {
        assert "@dir" in old(internal) - {"@mode"};
      }
      err := AddTarget(ret, editorCwd);
      if err.Some? {
        return;
      }
      trace := trace + [Log("New session created!", 0)];
    }

    /** The path parts of the session file the editor created. */
    function NewPath(ans: Answers): (string, string)
      requires NewFile(ans.created).Some?
    {
      Text.PathSplit(abspath(NewFile(ans.created).value))
    }

    /** The internal variables once `set_path` named the new session file. */
    function Named(ans: Answers, inl: map<string, string>): (named: map<string, string>)
      requires NewFile(ans.created).Some?
      ensures "@dir" in named && named["@dir"] == NewPath(ans).0
    {
      inl["@dir" := NewPath(ans).0]["@file" := NewPath(ans).1]
    }

    /** `handle_new` goes all the way: the editor created a session file with a usable
        name in a reachable directory, the current mode tears down, and the target, if
        any, is a string. */
    predicate Creates(ans: Answers, st: seq<(string, Json)>, inl: map<string, string>)
    {
      && NewFile(ans.created).Some? && NewPath(ans).1 != [] && ans.chdirError.None?
      && Teardown(st, Named(ans, inl), ans.hasDbg).err.None?
      && TargetOf(ans.created).Success?
    }

    /** `handle_new` after the editor answered `gdb#session#new()`. */
    method CreateSession(ans: Answers) returns (err: Option<PyError>)
      requires Valid()
      modifies this`state, this`trace, this`internal, this`helpNew
      ensures Valid()
      ensures !Truthy(ans.created) ==>
        err.None? && state == old(state) && internal == old(internal) && trace == old(trace) + [Log(Skipped, 1)]
      ensures Creates(ans, old(state), old(internal)) ==>
        err.None? && Created(ans.created, ans.editorCwd, old(state), Named(ans, old(internal)), old(helpNew), ans.hasDbg)
    {
      var ret := ans.created;
      if !Truthy(ret) {
        trace := trace + [Log(Skipped, 1)];
        return None;
      }
      var has := ContainsKey(ret, "_file");
      if has.None? {
        return Some(TypeError);
      }
      if !has.value {
        trace := trace + [Log(Skipped, 1)];
        return None;
      }
      var file := Index(ret, "_file");
      if file.None? || !file.value.JStr? {
        return Some(TypeError);
      }
      var ok := SetPath(file.value.s, ans.chdirError);
      if !ok {
        return None;
      }
      err := LoadNewSession(ret, ans.editorCwd, ans.hasDbg);
    }

    /** `handle_new()`.  A live session is replaced only if the user does not decline;
        the editor creates the session file; the default session is loaded from its
        directory, and a target given with it goes into the session. */
    method HandleNew(ans: Answers) returns (err: Option<PyError>)
      requires Valid()
      modifies this`state, this`trace, this`internal, this`helpNew
      ensures Valid()
      ensures old(IsAlive()) && EqualsZero(ans.discard) ==>
        && err.None? && state == old(state) && internal == old(internal)
        && trace == old(trace) + [Eval(DiscardPrompt), Log("Session left unchanged!", 0)]
      ensures !(old(IsAlive()) && EqualsZero(ans.discard)) && !Truthy(ans.created) ==>
        && err.None? && state == old(state) && internal == old(internal)
        && trace == old(trace) + (if old(IsAlive()) then [Eval(DiscardPrompt)] else []) + [Eval(NewPrompt), Log(Skipped, 1)]
      ensures !(old(IsAlive()) && EqualsZero(ans.discard)) && Creates(ans, old(state), old(internal)) ==>
        err.None? && Created(ans.created, ans.editorCwd, old(state), Named(ans, old(internal)), old(helpNew), ans.hasDbg)
    {
      var alive := IsAlive();
      if alive {
        trace := trace + [Eval(DiscardPrompt)];
      }
      if alive && EqualsZero(ans.discard) {
        trace := trace + [Log("Session left unchanged!", 0)];
        err := None;
      } else {
        trace := trace + [Eval(NewPrompt)];
        err := CreateSession(ans);
      }
    }

    /** The error kinds `handle_load` catches and reports: `ValueError` and `IOError`. */
    predicate Caught(e: PyError)
    {
      e.ValueError? || e.IOError?
    }

    /** What the `try`/`else` of `handle_load(confpath)` leaves behind once
        `parse_and_load` produced the state and outcome `r`, from the trace `tr`: its
        `ValueError` or `IOError` is reported and its other errors escape; a file that
        loads is followed by `set_path` (given the error `chdir` would raise) and a
        report. */
    ghost predicate Parsed(confpath: string, r: (seq<(string, Json)>, Outcome), chdirError: Option<string>,
                           tr: seq<Effect>, err: Option<PyError>)
      reads this`state, this`internal, this`trace
    {
      var head := Text.PathSplit(abspath(confpath)).0;
      var tail := Text.PathSplit(abspath(confpath)).1;
      && state == r.0
      && (r.1.err.Some? && Caught(r.1.err.value) ==>
            err.None? && internal == r.1.internal
            && trace == tr + r.1.effects + [Log("Bad session file: " + r.1.err.value.msg, 1)])
      && (r.1.err.Some? && !Caught(r.1.err.value) ==>
            err == r.1.err && internal == r.1.internal && trace == tr + r.1.effects)
      && (r.1.err.None? ==>
            && err.None? && |trace| > 0 && trace[|trace| - 1] == Log("Loaded " + confpath, 0)
            && (tail != [] && chdirError.None? ==> internal == r.1.internal["@dir" := head]["@file" := tail])
            && (tail == [] || chdirError.Some? ==> internal == r.1.internal))
    }

    /** What the `try`/`else` of `handle_load(confpath)` leaves behind, from the state
        `st`, the internal variables `inl` and the trace `tr`, given the file as read
        and decoded: a file that cannot be read or decoded is reported; otherwise it
        goes through `parse_and_load`. */
    ghost predicate FileLoaded(confpath: string, file: Result<Json, string>, chdirError: Option<string>, dbg: bool,
                               st: seq<(string, Json)>, inl: map<string, string>, tr: seq<Effect>, err: Option<PyError>)
      reads this`state, this`internal, this`trace
    {
      if file.Failure? then
        && err.None? && state == st && internal == inl
        && trace == tr + [Log("Bad session file: " + file.error, 1)]
      else
        Parsed(confpath, Load(file.value, st, inl, dbg), chdirError, tr, err)
    }

    /** The part of `handle_load` from `parse_and_load` on. */
    method LoadDecoded(confpath: string, decoded: Json, chdirError: Option<string>, dbg: bool) returns (err: Option<PyError>)
      requires Valid()
      modifies this`state, this`trace, this`internal
      ensures Valid()
      ensures old(trace) <= trace
      ensures Parsed(confpath, Load(decoded, old(state), old(internal), dbg), chdirError, old(trace), err)
    {
      ghost var r := Load(decoded, state, internal, dbg);
      ghost var tr := trace;
      err := ParseAndLoad(decoded, dbg);
      assert state == r.0 && internal == r.1.internal && trace == tr + r.1.effects && err == r.1.err;
      if err.Some? {
        err := ReportLoadError(err.value);
      } else {
        FinishLoad(confpath, chdirError);
      }
    }

    /** The `except (ValueError, IOError)` of `handle_load`: those two are reported,
        anything else escapes. */
    method ReportLoadError(e: PyError) returns (err: Option<PyError>)
      modifies this`trace
      ensures Caught(e) ==> err.None? && trace == old(trace) + [Log("Bad session file: " + e.msg, 1)]
      ensures !Caught(e) ==> err == Some(e) && trace == old(trace)
    {
      if Caught(e) {
        trace := trace + [Log("Bad session file: " + e.msg, 1)];
        return None;
      }
      return Some(e);
    }

    /** The `else` of `handle_load`: `set_path`, whatever it returns, then the report. */
    method FinishLoad(confpath: string, chdirError: Option<string>)
      requires Valid()
      modifies this`trace, this`internal
      ensures Valid()
      ensures old(trace) < trace && trace[|trace| - 1] == Log("Loaded " + confpath, 0)
      ensures var head := Text.PathSplit(abspath(confpath)).0;
        var tail := Text.PathSplit(abspath(confpath)).1;
        && (tail != [] && chdirError.None? ==> internal == old(internal)["@dir" := head]["@file" := tail])
        && (tail == [] || chdirError.Some? ==> internal == old(internal))
    {
      var _ := SetPath(confpath, chdirError);
      trace := trace + [Log("Loaded " + confpath, 0)];
    }

    /** The `try`/`else` of `handle_load(confpath)` once the file was read and decoded,
        or failed to be. */
    method LoadSessionFile(confpath: string, file: Result<Json, string>, chdirError: Option<string>, dbg: bool)
      returns (err: Option<PyError>)
      requires Valid()
      modifies this`state, this`trace, this`internal
      ensures Valid()
      ensures old(trace) <= trace
      ensures FileLoaded(confpath, file, chdirError, dbg, old(state), old(internal), old(trace), err)
    {
      if file.Failure? {
        trace := trace + [Log("Bad session file: " + file.error, 1)];
        return None;
      }
      err := LoadDecoded(confpath, file.value, chdirError, dbg);
    }

    /** A file `parse_and_load` rejects leaves the session as it was and is reported;
        nothing escapes from it but the `TypeError` of a `modes` section without a
        length. */
    lemma FileRejected(confpath: string, j: Json, chdirError: Option<string>, dbg: bool,
                       st: seq<(string, Json)>, inl: map<string, string>, tr: seq<Effect>, err: Option<PyError>)
      requires FileLoaded(confpath, Success(j), chdirError, dbg, st, inl, tr, err)
      requires !j.JObject? || !ConfigOk(AddDefaults(j.entries, Sections))
      ensures state == st && internal == inl
      ensures err.None? ==> |trace| == |tr| + 1 && trace[|tr|].Log?
      ensures err.Some? ==> err == Some(TypeError) && trace == tr
    {
      LoadRejects(j, st, inl, dbg);
      if j.JObject? {
        BadSectionKinds(AddDefaults(j.entries, Sections));
      }
    }

    /** A file that loads without error, from a directory `chdir` can enter, leaves a
        live session whose current mode is the file's first and whose session file is
        the one loaded. */
    lemma FileLoadedAlive(confpath: string, j: Json, chdirError: Option<string>, dbg: bool,
                          st: seq<(string, Json)>, inl: map<string, string>, tr: seq<Effect>, err: Option<PyError>)
      requires FileLoaded(confpath, Success(j), chdirError, dbg, st, inl, tr, err)
      requires |st| > 1 || "@mode" !in inl
      requires j.JObject? && ConfigOk(AddDefaults(j.entries, Sections))
      requires Load(j, st, inl, dbg).1.err.None?
      requires Text.PathSplit(abspath(confpath)).1 != [] && chdirError.None?
      ensures err.None? && Alive(state, internal)
      ensures state == AddDefaults(j.entries, Sections) && ModesOf(state) != []
      ensures internal["@mode"] == ModesOf(state)[0].0 && internal["@file"] == Text.PathSplit(abspath(confpath)).1
    {
      LoadSucceeds(j, st, inl, dbg);
      FileParsed(confpath, j, chdirError, dbg, st, inl, tr, err);
      ParsedAlive(confpath, Load(j, st, inl, dbg), AddDefaults(j.entries, Sections), chdirError, tr, err);
    }

    /** An error-free load of a well-formed file installs it and enters its first mode. */
    lemma LoadSucceeds(j: Json, st: seq<(string, Json)>, inl: map<string, string>, dbg: bool)
      requires j.JObject? && ConfigOk(AddDefaults(j.entries, Sections))
      requires |st| > 1 || "@mode" !in inl
      requires Load(j, st, inl, dbg).1.err.None?
      ensures var c := AddDefaults(j.entries, Sections);
        var r := Load(j, st, inl, dbg);
        && r.0 == c && |c| > 1 && ModesOf(c) != []
        && "@mode" in r.1.internal && r.1.internal["@mode"] == ModesOf(c)[0].0
    {
      LoadEntersFirstMode(j, st, inl, dbg);
      LoadedConfigHasModes(j.entries);
    }

    /** An error-free load that installed `c` and entered its first mode, followed by a
        successful `set_path`, leaves a live session. */
    lemma ParsedAlive(confpath: string, r: (seq<(string, Json)>, Outcome), c: seq<(string, Json)>,
                      chdirError: Option<string>, tr: seq<Effect>, err: Option<PyError>)
      requires Parsed(confpath, r, chdirError, tr, err)
      requires r.1.err.None? && Text.PathSplit(abspath(confpath)).1 != [] && chdirError.None?
      requires r.0 == c && |c| > 1 && ModesOf(c) != []
      requires "@mode" in r.1.internal && r.1.internal["@mode"] == ModesOf(c)[0].0
      ensures err.None? && Alive(state, internal)
      ensures state == c && ModesOf(state) != []
      ensures internal["@mode"] == ModesOf(state)[0].0 && internal["@file"] == Text.PathSplit(abspath(confpath)).1
    {
      ParsedLoads(confpath, r, chdirError, tr, err);
      assert "@mode" != "@dir" && "@mode" != "@file";
    }

    /** A decoded file goes through `parse_and_load`. */
    lemma FileParsed(confpath: string, j: Json, chdirError: Option<string>, dbg: bool,
                     st: seq<(string, Json)>, inl: map<string, string>, tr: seq<Effect>, err: Option<PyError>)
      requires FileLoaded(confpath, Success(j), chdirError, dbg, st, inl, tr, err)
      ensures Parsed(confpath, Load(j, st, inl, dbg), chdirError, tr, err)
    {
    }

    /** After an error-free `parse_and_load`, a successful `set_path` names the file. */
    lemma ParsedLoads(confpath: string, r: (seq<(string, Json)>, Outcome), chdirError: Option<string>,
                      tr: seq<Effect>, err: Option<PyError>)
      requires Parsed(confpath, r, chdirError, tr, err)
      requires r.1.err.None? && Text.PathSplit(abspath(confpath)).1 != [] && chdirError.None?
      ensures err.None? && state == r.0
      ensures internal == r.1.internal["@dir" := Text.PathSplit(abspath(confpath)).0]["@file" := Text.PathSplit(abspath(confpath)).1]
    {
    }

    /** `handle_load(confpath)`: a live session is replaced only if the user does not
        decline; `confpath` is `None` when `reload` runs without a live session, and
        `open(None)` then raises `TypeError`. */
    method HandleLoad(confpath: Option<string>, ans: Answers) returns (err: Option<PyError>)
      requires Valid()
      modifies this`state, this`trace, this`internal
      ensures Valid()
      ensures old(trace) <= trace
      ensures old(IsAlive()) && EqualsZero(ans.discard) ==>
        && err.None? && state == old(state) && internal == old(internal)
        && trace == old(trace) + [Eval(DiscardPrompt), Log("Session left unchanged!", 0)]
      ensures !(old(IsAlive()) && EqualsZero(ans.discard)) && confpath.None? ==>
        && err == Some(TypeError) && state == old(state) && internal == old(internal)
        && trace == old(trace) + (if old(IsAlive()) then [Eval(DiscardPrompt)] else [])
      ensures !(old(IsAlive()) && EqualsZero(ans.discard)) && confpath.Some? ==>
        FileLoaded(confpath.value, ans.file, ans.chdirError, ans.hasDbg, old(state), old(internal),
                   old(trace) + (if old(IsAlive()) then [Eval(DiscardPrompt)] else []), err)
    {
      var alive := IsAlive();
      if alive {
        trace := trace + [Eval(DiscardPrompt)];
      }
      if alive && EqualsZero(ans.discard) {
        trace := trace + [Log("Session left unchanged!", 0)];
        return None;
      }
      if confpath.None? {
        return Some(TypeError);
      }
      assert trace == old(trace) + (if alive then [Eval(DiscardPrompt)] else []);
      err := LoadSessionFile(confpath.value, ans.file, ans.chdirError, ans.hasDbg);
    }

    /** `handle_show()`: a live session's file is shown; the first time after
        `handle_new` inserted a target, the reload hint is logged once. */
    method HandleShow()
      requires Valid()
      modifies this`trace, this`helpShow
      ensures old(IsAlive()) ==>
        trace == old(trace) + [ShowSession] + (if old(helpNew && helpShow) then [Log(ReloadHint, 1)] else [])
      ensures !old(IsAlive()) ==> trace == old(trace) + [Log("No active session.", 1)] && helpShow == old(helpShow)
      ensures helpShow == (old(helpShow) && !(old(IsAlive()) && helpNew))
    {
      if IsAlive() {
        trace := trace + [ShowSession];
        if helpNew && helpShow {
          trace := trace + [Log(ReloadHint, 1)];
          helpShow := false;
        }
      } else {
        trace := trace + [Log("No active session.", 1)];
      }
    }

    /** `handle(cmd, *args)`, the `:GGsession` command, with the reload branch
        dispatched on `reload`. */
    method Handle(cmd: string, args: seq<string>, ans: Answers) returns (err: Option<PyError>)
      requires Valid()
      modifies this`state, this`trace, this`internal, this`helpNew, this`helpShow
      ensures Valid()
      ensures SubCommand(cmd) == Unknown ==>
        err.None? && state == old(state) && internal == old(internal)
        && trace == old(trace) + [Log("Invalid sub-command: " + cmd, 1)]
      ensures SubCommand(cmd) == Reload && "@file" !in old(internal) ==>
        err.None? && state == old(state) && trace == old(trace) + [Log("No active session!", 1)]
      ensures (SubCommand(cmd) == Reload && "@file" in old(internal) && |args| > 0)
              || (SubCommand(cmd) == LoadSession && |args| > 1) ==>
        err.None? && state == old(state) && trace == old(trace) + [Log("Too many arguments!", 1)]
      ensures SubCommand(cmd) == Reload && "@file" in old(internal) && args == [] && !old(IsAlive()) ==>
        err == Some(TypeError) && state == old(state) && trace == old(trace)
      ensures SubCommand(cmd) == LoadSession && args == [] ==>
        |trace| > |old(trace)| && trace[|old(trace)|] == Eval(FindSessionFile)
      ensures SubCommand(cmd) != NewSession ==> helpNew == old(helpNew)
    {
      match SubCommand(cmd)
      case NewSession =>
        err := HandleNew(ans);
      case Reload =>
        if "@file" !in internal {
          trace := trace + [Log("No active session!", 1)];
          return None;
        }
        if |args| > 0 {
          trace := trace + [Log("Too many arguments!", 1)];
          return None;
        }
        err := HandleLoad(GetConfpath(), ans);
      case LoadSession =>
        if |args| == 0 {
          trace := trace + [Eval(FindSessionFile)];
          err := HandleLoad(Some(ans.found), ans);
        } else if |args| == 1 {
          err := HandleLoad(Some(args[0]), ans);
        } else {
          trace := trace + [Log("Too many arguments!", 1)];
          return None;
        }
      case ShowSessionFile =>
        HandleShow();
        err := None;
      case Unknown =>
        trace := trace + [Log("Invalid sub-command: " + cmd, 1)];
        return None;
    }
  }
}
