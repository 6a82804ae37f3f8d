/** The text the LLDB front end (rplugin/python/lldb_nvim/content_helper.py) puts in its
    panes and signs: locals and registers as indented lines, the process status, the
    places a breakpoint resolved to and the place of a thread's program counter.  The
    LLDB objects it reads are plain values here: a variable tree, a thread's frames,
    a breakpoint's locations. */
module ContentHelper {
  import opened Wrappers
  import Text

  /** An `SBLineEntry`: whether it is valid, the full path of its file (None when LLDB
      has none), its line and its column. */
  datatype LineEntry = LineEntry(valid: bool, file: Option<string>, line: int, column: int)

  /** The line entry of a frame LLDB does not have. */
  const NoEntry := LineEntry(false, None, 0, 0)

  /** An `SBValue`: type name, name, value text (None when it is too big to show) and
      children, in order. */
  datatype Variable = Variable(typeName: string, name: string, value: Option<string>, children: seq<Variable>)

  /** A register and a register set, as `SBValue`s. */
  datatype Register = Register(name: string, value: Option<string>)
  datatype RegisterSet = RegisterSet(name: string, registers: seq<Register>)

  /** An `SBFrame`: validity, line entry, the variables `GetVariables(True, True, False,
      True)` selects (arguments, locals and in-scope statics) and its register sets. */
  datatype Frame = Frame(valid: bool, lineEntry: LineEntry, variables: seq<Variable>, registerSets: seq<RegisterSet>)

  /** An `SBThread`: validity, index id, frames (innermost first) and the index of the
      selected frame. */
  datatype Thread = Thread(valid: bool, indexId: int, frames: seq<Frame>, selected: nat)

  /** An `SBProcess`: validity, whether it is stopped, its description, its exit status
      and its selected thread. */
  datatype Process = Process(valid: bool, stopped: bool, description: string, exitStatus: int,
                             selectedThread: Option<Thread>)

  /** An `SBTarget`: validity and its process. */
  datatype Target = Target(valid: bool, process: Option<Process>)

  /** An `SBBreakpoint`: validity and the line entries of its locations' addresses. */
  datatype Breakpoint = Breakpoint(valid: bool, locations: seq<LineEntry>)

  /** Where the program-counter sign of a thread goes: thread index id, file, line, column. */
  datatype PcLoc = PcLoc(thread: int, file: Option<string>, line: int, column: int)

  // ---------------------------------------------------------------- get_pc_source_loc

  /** `thread.GetFrameAtIndex(k).line_entry`: past the last frame LLDB answers with an
      invalid frame, whose line entry is invalid. */
  function EntryAt(t: Thread, k: nat): LineEntry
  {
    if k < |t.frames| then t.frames[k].lineEntry else NoEntry
  }

  /** Frame `k` is the first frame, from the selected one outwards, with a valid line entry. */
  predicate FirstValid(t: Thread, k: nat)
  {
    && t.selected <= k < |t.frames|
    && t.frames[k].lineEntry.valid
    && forall j :: t.selected <= j < k ==> !t.frames[j].lineEntry.valid
  }

  /** `get_pc_source_loc(thread)`: the place of the first frame with a valid line entry,
      scanning outwards from the selected frame, or None when there is none. */
  method PcSourceLoc(t: Thread) returns (r: Option<PcLoc>)
    ensures r.Some? ==> exists k: nat :: FirstValid(t, k) && r.value == PcLoc(t.indexId, t.frames[k].lineEntry.file,
                                                                          t.frames[k].lineEntry.line,
                                                                          t.frames[k].lineEntry.column)
    ensures r.None? <==> forall k :: t.selected <= k < |t.frames| ==> !t.frames[k].lineEntry.valid
  {
    var frameNum := t.selected;
    var le := EntryAt(t, frameNum);
    while !le.valid && frameNum < |t.frames|
      invariant t.selected <= frameNum
      invariant le == EntryAt(t, frameNum)
      invariant forall j :: t.selected <= j < frameNum && j < |t.frames| ==> !t.frames[j].lineEntry.valid
      decreases |t.frames| - frameNum
    {
      frameNum := frameNum + 1;
      le := EntryAt(t, frameNum);
    }
    if le.valid {
      assert FirstValid(t, frameNum);
      return Some(PcLoc(t.indexId, le.file, le.line, le.column));
    }
    return None;
  }

  // ---------------------------------------------------------------- get_bploc_tuples

  /** A location `get_bploc_tuples` keeps: a file name that is not empty and a positive line. */
  predicate Resolved(le: LineEntry)
  {
    le.file.Some? && le.file.value != "" && le.line > 0
  }

  /** The `(file, line)` of the kept locations, in order. */
  function ResolvedLocations(les: seq<LineEntry>): seq<(string, int)>
  {
    if les == [] then []
    else
      var n := |les| - 1;
      ResolvedLocations(les[..n]) + (if Resolved(les[n]) then [(les[n].file.value, les[n].line)] else [])
  }

  /** A place is listed exactly when some location resolved to it. */
  lemma {:induction false} ResolvedLocationsMembers(les: seq<LineEntry>, f: string, line: int)
    ensures (f, line) in ResolvedLocations(les)
        <==> exists i :: 0 <= i < |les| && Resolved(les[i]) && les[i].file.value == f && les[i].line == line
  {
    if les != [] {
      var n := |les| - 1;
      ResolvedLocationsMembers(les[..n], f, line);
      if (f, line) in ResolvedLocations(les[..n]) {
        var i :| 0 <= i < n && Resolved(les[..n][i]) && les[..n][i].file.value == f && les[..n][i].line == line;
        assert les[i] == les[..n][i];
      }
      if exists i :: 0 <= i < |les| && Resolved(les[i]) && les[i].file.value == f && les[i].line == line {
        var i :| 0 <= i < |les| && Resolved(les[i]) && les[i].file.value == f && les[i].line == line;
        if i < n {
          assert les[..n][i] == les[i];
        }
      }
    }
  }

  /** `get_bploc_tuples(bp)`: nothing for an invalid breakpoint, else the kept locations
      in order. */
  method BplocTuples(bp: Breakpoint) returns (locs: seq<(string, int)>)
    ensures !bp.valid ==> locs == []
    ensures bp.valid ==> locs == ResolvedLocations(bp.locations)
  {
    if !bp.valid {
      return [];
    }
    locs := [];
    for i := 0 to |bp.locations|
      invariant locs == ResolvedLocations(bp.locations[..i])
    {
      var le := bp.locations[i];
      assert bp.locations[..i + 1][..i] == bp.locations[..i];
      if le.file.Some? && le.file.value != "" && le.line > 0 {
        locs := locs + [(le.file.value, le.line)];
      }
    }
    assert bp.locations[..|bp.locations|] == bp.locations;
  }

  // ---------------------------------------------------------------- get_process_stat

  /** `get_process_stat(target)`: the process (None when there is no valid target) and a
      status text that is empty exactly when the process exists and is stopped. */
  function ProcessStat(target: Option<Target>): (r: (Option<Process>, string))
    ensures target.None? || !target.value.valid ==> r == (None, "Target does not exist.")
    ensures target.Some? && target.value.valid ==> r.0 == target.value.process
    ensures target.Some? && target.value.valid && (r.0.None? || !r.0.value.valid)
            ==> r.1 == "Process does not exist."
    ensures r.1 == "" <==> r.0.Some? && r.0.value.valid && r.0.value.stopped && target.Some? && target.value.valid
  {
    if target.None? || !target.value.valid then (None, "Target does not exist.")
    else
      var proc := target.value.process;
      if proc.None? || !proc.value.valid then (proc, "Process does not exist.")
      else if proc.value.stopped then (proc, "")
      else (proc, proc.value.description + ", exit status = " + Text.IntToString(proc.value.exitStatus))
  }

  /** `get_selected_frame(process)`: the selected frame of the selected thread, when both
      are valid. */
  function SelectedFrame(p: Process): (f: Option<Frame>)
    ensures f.Some? ==> f.value.valid
    ensures f.Some? <==> p.selectedThread.Some? && p.selectedThread.value.valid
                          && p.selectedThread.value.selected < |p.selectedThread.value.frames|
                          && p.selectedThread.value.frames[p.selectedThread.value.selected].valid
  {
    if p.selectedThread.None? || !p.selectedThread.value.valid then None
    else
      var t := p.selectedThread.value;
      if t.selected < |t.frames| && t.frames[t.selected].valid then Some(t.frames[t.selected]) else None
  }

  // ---------------------------------------------------------------- format_variable

  /** Children are shown down to this indentation; deeper ones are elided. */
  const MaxDepth: nat := 6

  /** The value text, `...` when LLDB gives none. */
  function ValueText(v: Option<string>): string
  {
    if v.Some? then v.value else "..."
  }

  /** `(Type) Name = Value` after `indent` blanks. */
  function Header(v: Variable, indent: nat): string
  {
    Text.Spaces(indent) + "(" + v.typeName + ") " + v.name + " = " + ValueText(v.value)
  }

  /** `format_variable(var, indent)`: the variable's line, then its children's lines one
      level deeper, or one elision line once the depth cap is reached. */
  function FormatVariable(v: Variable, indent: nat): (lines: seq<string>)
    ensures |lines| >= 1 && lines[0] == Header(v, indent)
    decreases v
  {
    [Header(v, indent)]
    + if v.children == [] then []
      else if indent >= MaxDepth then [Text.Spaces(indent + 1) + "..."]
      else FormatAll(v.children, indent + 1)
  }

  /** The lines of some variables, one after the other (the `extend` loops). */
  function FormatAll(vs: seq<Variable>, indent: nat): (lines: seq<string>)
    ensures |lines| >= |vs|
    decreases vs
  {
    if vs == [] then [] else FormatVariable(vs[0], indent) + FormatAll(vs[1..], indent)
  }

  /** The number of variables in a tree: the variable and all its descendants. */
  function TreeSize(v: Variable): nat
    decreases v
  {
    1 + ForestSize(v.children)
  }

  function ForestSize(vs: seq<Variable>): nat
    decreases vs
  {
    if vs == [] then 0 else TreeSize(vs[0]) + ForestSize(vs[1..])
  }

  /** The number of generations below a variable: 0 for one without children. */
  function Height(v: Variable): nat
    decreases v
  {
    if v.children == [] then 0 else 1 + ForestHeight(v.children)
  }

  function ForestHeight(vs: seq<Variable>): nat
    decreases vs
  {
    if vs == [] then 0
    else
      var h := ForestHeight(vs[1..]);
      if Height(vs[0]) > h then Height(vs[0]) else h
  }

  /** The depth cap only ever shortens the output: a variable formatted at `indent`
      takes at most one line per variable of its tree, and exactly one line per variable
      when its whole tree fits under the cap. */
  lemma {:induction false} FormatVariableCount(v: Variable, indent: nat)
    ensures |FormatVariable(v, indent)| <= TreeSize(v)
    ensures indent + Height(v) <= MaxDepth ==> |FormatVariable(v, indent)| == TreeSize(v)
    decreases v
  {
    if v.children != [] {
      if indent >= MaxDepth {
        assert ForestSize(v.children) >= TreeSize(v.children[0]) >= 1;
      } else {
        FormatAllCount(v.children, indent + 1);
      }
    }
  }

  lemma {:induction false} FormatAllCount(vs: seq<Variable>, indent: nat)
    ensures |FormatAll(vs, indent)| <= ForestSize(vs)
    ensures indent + ForestHeight(vs) <= MaxDepth ==> |FormatAll(vs, indent)| == ForestSize(vs)
    decreases vs
  {
    if vs != [] {
      FormatVariableCount(vs[0], indent);
      FormatAllCount(vs[1..], indent);
    }
  }

  /** Number of blanks a line starts with. */
  function LeadingSpaces(s: string): nat
  {
    if s != [] && s[0] == ' ' then 1 + LeadingSpaces(s[1..]) else 0
  }

  lemma {:induction false} LeadingSpacesOf(n: nat, rest: string)
    requires rest != [] && rest[0] != ' '
    ensures LeadingSpaces(Text.Spaces(n) + rest) == n
  {
    if n > 0 {
      var s := Text.Spaces(n) + rest;
      assert s[1..] == Text.Spaces(n - 1) + rest;
      LeadingSpacesOf(n - 1, rest);
    }
  }

  /** The deepest indentation of lines formatted from `indent`. */
  function DepthBound(indent: nat): nat
  {
    (if indent > MaxDepth then indent else MaxDepth) + 1
  }

  /** The depth cap bounds the output: every line of a variable formatted at `indent` is
      indented by at least `indent` and at most one past the cap (or past `indent`). */
  lemma {:induction false} FormatVariableIndent(v: Variable, indent: nat)
    ensures forall l :: l in FormatVariable(v, indent) ==> indent <= LeadingSpaces(l) <= DepthBound(indent)
    decreases v
  {
    var head := Header(v, indent);
    LeadingSpacesOf(indent, head[indent..]);
    assert head == Text.Spaces(indent) + head[indent..];
    if v.children != [] {
      if indent >= MaxDepth {
        LeadingSpacesOf(indent + 1, "...");
      } else {
        FormatAllIndent(v.children, indent + 1);
      }
    }
  }

  lemma {:induction false} FormatAllIndent(vs: seq<Variable>, indent: nat)
    ensures forall l :: l in FormatAll(vs, indent) ==> indent <= LeadingSpaces(l) <= DepthBound(indent)
    decreases vs
  {
    if vs != [] {
      FormatVariableIndent(vs[0], indent);
      FormatAllIndent(vs[1..], indent);
    }
  }

  /** Each variable's own line is among the lines of a list of variables. */
  lemma {:induction false} FormatAllHeaders(vs: seq<Variable>, indent: nat)
    ensures forall i :: 0 <= i < |vs| ==> Header(vs[i], indent) in FormatAll(vs, indent)
  {
    if vs != [] {
      FormatAllHeaders(vs[1..], indent);
      forall i | 0 <= i < |vs|
        ensures Header(vs[i], indent) in FormatAll(vs, indent)
      {
        if i > 0 {
          assert vs[1..][i - 1] == vs[i];
        }
      }
    }
  }

  // ---------------------------------------------------------------- get_locals_content

  /** The text shown when the stopped process has no valid selected frame. */
  const NoFrame := "A valid frame does not exist!"

  /** `get_locals_content(target)`: the status text when there is one, else the frame's
      variables formatted from indentation 0. The pane is left empty only for a stopped
      process whose selected frame has no variables. */
  function LocalsContent(target: Option<Target>): (content: seq<string>)
    ensures content == [] <==>
      && ProcessStat(target).1 == ""
      && SelectedFrame(ProcessStat(target).0.value).Some?
      && SelectedFrame(ProcessStat(target).0.value).value.variables == []
  {
    var (proc, stat) := ProcessStat(target);
    if stat != "" then [stat]
    else
      match SelectedFrame(proc.value)
      case None => [NoFrame]
      case Some(frame) => FormatAll(frame.variables, 0)
  }

  /** The locals pane shows the status alone when the process is not stopped, the
      no-frame text alone without a frame, and otherwise every local's own line, each
      line indented no deeper than one past the cap. */
  lemma LocalsContentCases(target: Option<Target>)
    ensures var (proc, stat) := ProcessStat(target);
      && (stat != "" ==> LocalsContent(target) == [stat])
      && (stat == "" && SelectedFrame(proc.value).None? ==> LocalsContent(target) == [NoFrame])
      && (stat == "" && SelectedFrame(proc.value).Some? ==>
            var vs := SelectedFrame(proc.value).value.variables;
            && (forall i :: 0 <= i < |vs| ==> Header(vs[i], 0) in LocalsContent(target))
            && (forall l :: l in LocalsContent(target) ==> LeadingSpaces(l) <= MaxDepth + 1))
  {
    var (proc, stat) := ProcessStat(target);
    if stat == "" && SelectedFrame(proc.value).Some? {
      var vs := SelectedFrame(proc.value).value.variables;
      FormatAllHeaders(vs, 0);
      FormatAllIndent(vs, 0);
    }
  }

  // ---------------------------------------------------------------- registers

  /** `format_register(reg)`: `name = value`, the value stripped, `...` when LLDB gives none. */
  function FormatRegister(reg: Register): (line: string)
    ensures |line| >= |reg.name| + 3 && line[..|reg.name| + 3] == reg.name + " = "
  {
    reg.name + " = " + Text.Strip(ValueText(reg.value))
  }

  /** A register's line starts with its name and ` = `; a register without a value reads
      `name = ...`; a value is shown without the whitespace around it. */
  lemma FormatRegisterValue(reg: Register)
    ensures var line := FormatRegister(reg);
      && |line| >= |reg.name| + 3 && line[..|reg.name| + 3] == reg.name + " = "
      && (reg.value.None? ==> line == reg.name + " = ...")
      && var v := line[|reg.name| + 3..];
         v == [] || (!Text.IsSpace(v[0]) && !Text.IsSpace(v[|v| - 1]))
  {
    var line := FormatRegister(reg);
    assert line[|reg.name| + 3..] == Text.Strip(ValueText(reg.value));
    if reg.value.None? {
      calc {
        line;
        reg.name + " = " + Text.Strip("...");
        { assert !Text.IsSpace('.'); assert Text.TrimStart("...") == "..."; }
        reg.name + " = " + "...";
        { AppendAssoc(reg.name, " = ", "..."); }
        reg.name + (" = " + "...");
        { assert " = " + "..." == " = ..."; }
        reg.name + " = ...";
      }
    }
  }

  /** The heading line `get_registers_content` writes for a register set. */
  function SetHeading(s: RegisterSet): string
  {
    " == " + s.name + " =="
  }

  function FormatRegisters(rs: seq<Register>): (lines: seq<string>)
    ensures |lines| == |rs|
  {
    if rs == [] then [] else FormatRegisters(rs[..|rs| - 1]) + [FormatRegister(rs[|rs| - 1])]
  }

  /** Each register set's heading followed by its registers, set after set. */
  function RegisterLines(sets: seq<RegisterSet>): seq<string>
  {
    if sets == [] then []
    else
      var n := |sets| - 1;
      RegisterLines(sets[..n]) + [SetHeading(sets[n])] + FormatRegisters(sets[n].registers)
  }

  /** Total number of registers in some register sets. */
  function RegisterCount(sets: seq<RegisterSet>): nat
  {
    if sets == [] then 0 else RegisterCount(sets[..|sets| - 1]) + |sets[|sets| - 1].registers|
  }

  lemma RegisterLinesLast(sets: seq<RegisterSet>)
    requires sets != []
    ensures |RegisterLines(sets)| == |RegisterLines(sets[..|sets| - 1])| + 1 + |sets[|sets| - 1].registers|
  {
  }

  /** The registers pane has one heading per register set and one line per register. */
  lemma {:induction false} RegisterLinesCount(sets: seq<RegisterSet>)
    ensures |RegisterLines(sets)| == |sets| + RegisterCount(sets)
  {
    if sets != [] {
      RegisterLinesCount(sets[..|sets| - 1]);
      RegisterLinesLast(sets);
    }
  }

  /** `get_registers_content(target)`: the status text when there is one, the no-frame
      text without a frame, else every register set's heading and registers. */
  method RegistersContent(target: Option<Target>) returns (result: seq<string>)
    ensures var (proc, stat) := ProcessStat(target);
      && (stat != "" ==> result == [stat])
      && (stat == "" && SelectedFrame(proc.value).None? ==> result == [NoFrame])
      && (stat == "" && SelectedFrame(proc.value).Some? ==>
            result == RegisterLines(SelectedFrame(proc.value).value.registerSets))
  {
    var (proc, stat) := ProcessStat(target);
    if stat != "" {
      return [stat];
    }
    var frame := SelectedFrame(proc.value);
    if frame.None? {
      return [NoFrame];
    }
    result := RegisterSetLines(frame.value.registerSets);
  }

  /** The loops of `get_registers_content` over a frame's register sets. */
  method RegisterSetLines(sets: seq<RegisterSet>) returns (result: seq<string>)
    ensures result == RegisterLines(sets)
  {
    result := [];
    for i := 0 to |sets|
      invariant result == RegisterLines(sets[..i])
    {
      result := AppendRegisterSet(result, sets[i]);
      assert sets[..i + 1][..i] == sets[..i];
    }
    assert sets[..|sets|] == sets;
  }

  /** One turn of the outer loop: the set's heading, then each of its registers. */
  method AppendRegisterSet(before: seq<string>, s: RegisterSet) returns (result: seq<string>)
    ensures result == before + [SetHeading(s)] + FormatRegisters(s.registers)
  {
    result := before + [SetHeading(s)];
    var regs := s.registers;
    for j := 0 to |regs|
      invariant result == before + [SetHeading(s)] + FormatRegisters(regs[..j])
    {
      FormatRegistersStep(regs, j);
      AppendAssoc(before + [SetHeading(s)], FormatRegisters(regs[..j]), [FormatRegister(regs[j])]);
      result := result + [FormatRegister(regs[j])];
    }
    assert regs[..|regs|] == regs;
  }

  lemma FormatRegistersStep(regs: seq<Register>, j: nat)
    requires j < |regs|
    ensures FormatRegisters(regs[..j + 1]) == FormatRegisters(regs[..j]) + [FormatRegister(regs[j])]
  {
    assert regs[..j + 1][..j] == regs[..j];
  }
}
