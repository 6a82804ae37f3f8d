/** The editor-side panes and signs of the server (server/gdb_vim/vim_buffers.py): the
    log pane, the program-counter signs, the breakpoint signs, and the panes that
    show the output of fixed GDB commands.  Requests to the editor and to the
    controller are recorded in `requests`; the sign ids the editor displays are
    `shown`. */
module Buffers {
  import opened Wrappers
  import Text

  /** A sign location: buffer number and line. */
  type Key = (int, int)

  /** A sign object: its editor id, its place, the flag it was created with (for a
      program-counter sign whether its frame is the selected one, for a breakpoint
      sign whether a program-counter sign sits on the same line) and whether it is
      hidden. */
  datatype Sign = Sign(id: nat, bufnr: int, line: int, flag: bool, hidden: bool)

  datatype Request =
    | ScrollBottom(bufnr: int)                 // `vimx.buffer_scroll_bottom`
    | Jump(bufnr: int, signId: nat)            // `vimx.sign_jump`
    | Query(command: string)                   // `ctrl.get_command_result`
    | Refill(bufnr: int, lines: seq<string>)   // `vimx.update_noma_buffer`

  /** A KeyError on a pane name: one the editor has no buffer for, or one no GDB
      command is known for. */
  datatype BufferError = MissingPane(name: string) | UnknownPane(name: string)

  /** The panes and the GDB command whose output each shows, in display order. */
  const ContentMap: seq<(string, string)> := [
    ("backtrace", "-stack-list-frames"),
    ("breakpoints", "-break-list"),
    ("disassembly", "-data-disassemble -f ab.c -l 1 -- 0"),
    ("threads", "-thread-info"),
    ("locals", "-stack-list-variables --frame 0 --simple-values"),
    ("registers", "-data-list-register-values 0 1 2 3 4 5 6 7")
  ]

  function CommandFor(pane: string): (c: Option<string>)
    ensures c.Some? <==> exists k :: 0 <= k < |ContentMap| && ContentMap[k].0 == pane
    ensures c.Some? ==> (pane, c.value) in ContentMap
  {
    if pane == "backtrace" then Some(ContentMap[0].1)
    else if pane == "breakpoints" then Some(ContentMap[1].1)
    else if pane == "disassembly" then Some(ContentMap[2].1)
    else if pane == "threads" then Some(ContentMap[3].1)
    else if pane == "locals" then Some(ContentMap[4].1)
    else if pane == "registers" then Some(ContentMap[5].1)
    else None
  }

  /** The command of the table's `i`th pane; the second pane is the breakpoints pane. */
  lemma PaneAt(i: nat)
    requires i < |ContentMap|
    ensures CommandFor(ContentMap[i].0) == Some(ContentMap[i].1)
    ensures ContentMap[i].0 == "breakpoints" <==> i == 1
  {
  }

  /** The `k`th pane of the table is the first one without a buffer. */
  predicate FirstMissingPane(bufMap: map<string, int>, k: int)
  {
    0 <= k < |ContentMap| && ContentMap[k].0 !in bufMap && forall j :: 0 <= j < k ==> ContentMap[j].0 in bufMap
  }

  /** The first `n` panes of the table have buffers. */
  predicate HasPanes(bufMap: map<string, int>, n: int)
  {
    forall j :: 0 <= j < n && j < |ContentMap| ==> ContentMap[j].0 in bufMap
  }

  /** One more pane with a buffer extends the prefix that has them. */
  lemma HasPanesStep(bufMap: map<string, int>, i: nat)
    requires HasPanes(bufMap, i) && i < |ContentMap| && ContentMap[i].0 in bufMap
    ensures HasPanes(bufMap, i + 1)
  {
  }

  /** The requests refreshing a list of panes issues when every pane has a buffer:
      the command's output is asked for, then the pane is refilled with its lines. */
  function PaneRequests(panes: seq<(string, string)>, bufMap: map<string, int>, results: seq<string>): (reqs: seq<Request>)
    requires |results| == |panes|
    requires forall k :: 0 <= k < |panes| ==> panes[k].0 in bufMap
    ensures |reqs| == 2 * |panes|
  {
    if panes == [] then []
    else
      var n := |panes| - 1;
      PaneRequests(panes[..n], bufMap, results[..n])
        + [Query(panes[n].1), Refill(bufMap[panes[n].0], Text.Split(results[n], '\n'))]
  }

  /** Refreshing one more pane of the table adds its query and its refill. */
  lemma PaneRequestsStep(bufMap: map<string, int>, results: seq<string>, i: nat)
    requires i < |ContentMap| == |results| && HasPanes(bufMap, i + 1)
    ensures PaneRequests(ContentMap[..i + 1], bufMap, results[..i + 1]) ==
      PaneRequests(ContentMap[..i], bufMap, results[..i])
        + [Query(ContentMap[i].1), Refill(bufMap[ContentMap[i].0], Text.Split(results[i], '\n'))]
  {
    assert ContentMap[..i + 1][..i] == ContentMap[..i] && results[..i + 1][..i] == results[..i];
  }

  /** Pane by pane, the refresh asks for the pane's command and refills the pane's
      buffer with lines that join back to the command's output. */
  lemma {:induction false} PaneRequestsRefill(panes: seq<(string, string)>, bufMap: map<string, int>, results: seq<string>, k: nat)
    requires |results| == |panes|
    requires forall j :: 0 <= j < |panes| ==> panes[j].0 in bufMap
    requires k < |panes|
    ensures var reqs := PaneRequests(panes, bufMap, results);
      && reqs[2 * k] == Query(panes[k].1)
      && reqs[2 * k + 1].Refill? && reqs[2 * k + 1].bufnr == bufMap[panes[k].0]
      && Text.Join(reqs[2 * k + 1].lines, '\n') == results[k]
    decreases |panes|
  {
    var n := |panes| - 1;
    if k < n {
      PaneRequestsRefill(panes[..n], bufMap, results[..n], k);
    } else {
      Text.JoinSplit(results[k], '\n');
    }
  }

  /** The lines `logs_append` produces: CRLF normalised, split on newlines, and with a
      prefix on every line but the last, which gets it only when it is not empty. */
  function LogLines(outstr: string, prefix: Option<string>): (lines: seq<string>)
    ensures |lines| == Text.Count(Text.ReplaceCrlf(outstr), '\n') + 1
    ensures forall k :: 0 <= k < |lines| ==>
      var piece := Text.Split(Text.ReplaceCrlf(outstr), '\n')[k];
      lines[k] == if prefix.Some? && (k < |lines| - 1 || piece != []) then prefix.value + piece else piece
  {
    var pieces := Text.Split(Text.ReplaceCrlf(outstr), '\n');
    if prefix.None? then pieces
    else
      var last := pieces[|pieces| - 1];
      seq(|pieces| - 1, k requires 0 <= k < |pieces| - 1 => prefix.value + pieces[k])
        + [if |last| > 0 then prefix.value + last else last]
  }

  /** Without a prefix, joining the lines gives back the normalised text. */
  lemma UnprefixedLogLinesRejoin(outstr: string)
    ensures Text.Join(LogLines(outstr, None), '\n') == Text.ReplaceCrlf(outstr)
  {
    Text.JoinSplit(Text.ReplaceCrlf(outstr), '\n');
  }

  /** A prefix never merges or splits lines: the prefixed lines are the unprefixed
      ones, each with the prefix in front or (the empty last one) unchanged. */
  lemma PrefixKeepsLines(outstr: string, prefix: string)
    ensures |LogLines(outstr, Some(prefix))| == |LogLines(outstr, None)|
    ensures forall k :: 0 <= k < |LogLines(outstr, None)| ==>
      LogLines(outstr, Some(prefix))[k] == prefix + LogLines(outstr, None)[k]
      || (k == |LogLines(outstr, None)| - 1 && LogLines(outstr, Some(prefix))[k] == LogLines(outstr, None)[k] == [])
  {
  }

  function Ids(m: map<Key, Sign>): set<nat>
  {
    set k | k in m :: m[k].id
  }

  /** The ids of the signs of a map that are not hidden. */
  function VisibleIds(m: map<Key, Sign>): set<nat>
  {
    set k | k in m && !m[k].hidden :: m[k].id
  }

  predicate WellPlaced(m: map<Key, Sign>)
  {
    forall k :: k in m ==> m[k].bufnr == k.0 && m[k].line == k.1
  }

  predicate Distinct(m: map<Key, Sign>)
  {
    forall k1, k2 :: k1 in m && k2 in m && k1 != k2 ==> m[k1].id != m[k2].id
  }

  predicate Apart(a: map<Key, Sign>, b: map<Key, Sign>)
  {
    forall k1, k2 :: k1 in a && k2 in b ==> a[k1].id != b[k2].id
  }

  predicate Below(m: map<Key, Sign>, n: nat)
  {
    forall k :: k in m ==> m[k].id < n
  }

  /** Putting a new, visible sign at a key: the sign that was there, if any, stops
      being visible. */
  lemma VisibleAfterPut(m: map<Key, Sign>, key: Key, s: Sign)
    requires Distinct(m) && !s.hidden
    requires forall k :: k in m ==> m[k].id != s.id
    ensures VisibleIds(m[key := s]) == (VisibleIds(m) - (if key in m then {m[key].id} else {})) + {s.id}
  {
    var m' := m[key := s];
    forall id | id in VisibleIds(m')
      ensures id in (VisibleIds(m) - (if key in m then {m[key].id} else {})) + {s.id}
    {
      var k :| k in m' && !m'[k].hidden && m'[k].id == id;
      if k != key {
        assert id in VisibleIds(m);
      }
    }
    forall id | id in VisibleIds(m) - (if key in m then {m[key].id} else {})
      ensures id in VisibleIds(m')
    {
      var k :| k in m && !m[k].hidden && m[k].id == id;
      assert k != key;
      assert m'[k] == m[k];
    }
    assert s.id in VisibleIds(m') by {
      assert m'[key] == s;
    }
  }

  lemma VisibleAfterRemove(m: map<Key, Sign>, key: Key)
    requires Distinct(m) && key in m
    ensures VisibleIds(m - {key}) == VisibleIds(m) - {m[key].id}
  {
    var m' := m - {key};
    forall id | id in VisibleIds(m') ensures id in VisibleIds(m) - {m[key].id} {
      var k :| k in m' && !m'[k].hidden && m'[k].id == id;
      assert m[k] == m'[k];
    }
    forall id | id in VisibleIds(m) - {m[key].id} ensures id in VisibleIds(m') {
      var k :| k in m && !m[k].hidden && m[k].id == id;
      assert k in m';
    }
  }

  lemma VisibleAfterShow(m: map<Key, Sign>, key: Key)
    requires Distinct(m) && key in m
    ensures VisibleIds(m[key := m[key].(hidden := false)]) == VisibleIds(m) + {m[key].id}
  {
    var m' := m[key := m[key].(hidden := false)];
    forall id | id in VisibleIds(m') ensures id in VisibleIds(m) + {m[key].id} {
      var k :| k in m' && !m'[k].hidden && m'[k].id == id;
      if k != key {
        assert m[k] == m'[k];
      }
    }
    forall id | id in VisibleIds(m) ensures id in VisibleIds(m') {
      var k :| k in m && !m[k].hidden && m[k].id == id;
      assert m'[k].id == id && !m'[k].hidden;
    }
    assert m'[key].id == m[key].id && !m'[key].hidden;
  }

  /** Signs sit at their keys, carry distinct ids handed out before `n`, and the
      editor displays exactly the signs that are not hidden. */
  ghost predicate SignsOk(bp: map<Key, Sign>, pc: map<Key, Sign>, shown: set<nat>, n: nat)
  {
    && WellPlaced(bp) && WellPlaced(pc)
    && Distinct(bp) && Distinct(pc) && Apart(bp, pc)
    && Below(bp, n) && Below(pc, n)
    && shown == VisibleIds(bp) + VisibleIds(pc)
  }

  /** Every program-counter sign is displayed and was placed at or after `floor`. */
  ghost predicate FreshSigns(pc: map<Key, Sign>, floor: nat)
  {
    forall k :: k in pc ==> !pc[k].hidden && floor <= pc[k].id
  }

  /** A new visible sign with the next id, placed at its key among the program-counter
      signs, keeps the sign maps well formed; the sign it replaces, if any, stops
      being displayed. */
  lemma PcSignPlaced(bp: map<Key, Sign>, pc: map<Key, Sign>, shown: set<nat>, key: Key, flag: bool, n: nat)
    requires SignsOk(bp, pc, shown, n)
    ensures SignsOk(bp, pc[key := Sign(n, key.0, key.1, flag, false)],
                    (shown - (if key in pc then {pc[key].id} else {})) + {n}, n + 1)
  {
    var s := Sign(n, key.0, key.1, flag, false);
    VisibleAfterPut(pc, key, s);
    if key in pc {
      forall b | b in bp && !bp[b].hidden ensures bp[b].id != pc[key].id {
      }
      assert pc[key].id !in VisibleIds(bp);
    }
  }

  /** The new sign's flag is the only one that changes. */
  lemma PcSignFlag(pc: map<Key, Sign>, key: Key, flag: bool, n: nat)
    ensures FlagsOf(pc[key := Sign(n, key.0, key.1, flag, false)]) == FlagsOf(pc)[key := flag]
  {
    assert FlagsOf(pc[key := Sign(n, key.0, key.1, flag, false)]) == FlagsOf(pc)[key := flag];
  }

  /** The new sign is displayed and its id is no lower than any floor below `n`. */
  lemma PcSignFresh(pc: map<Key, Sign>, key: Key, flag: bool, n: nat, floor: nat)
    requires floor <= n && FreshSigns(pc, floor)
    ensures FreshSigns(pc[key := Sign(n, key.0, key.1, flag, false)], floor)
  {
  }

  /** Deleting a breakpoint sign after hiding it: the maps stay well formed and its id
      is no longer displayed. */
  lemma BpSignRemoved(bp: map<Key, Sign>, pc: map<Key, Sign>, key: Key, n: nat)
    requires WellPlaced(bp) && Distinct(bp) && Apart(bp, pc) && Below(bp, n) && key in bp
    ensures var bp' := bp - {key};
      && WellPlaced(bp') && Distinct(bp') && Apart(bp', pc) && Below(bp', n)
      && VisibleIds(bp') + VisibleIds(pc) == VisibleIds(bp) + VisibleIds(pc) - {bp[key].id}
  {
    VisibleAfterRemove(bp, key);
    forall c | c in pc && !pc[c].hidden ensures pc[c].id != bp[key].id {
    }
    assert bp[key].id !in VisibleIds(pc);
  }

  /** Showing a kept breakpoint sign: the maps stay well formed and its id is
      displayed. */
  lemma BpSignShown(bp: map<Key, Sign>, pc: map<Key, Sign>, key: Key, n: nat)
    requires WellPlaced(bp) && Distinct(bp) && Apart(bp, pc) && Below(bp, n) && key in bp
    ensures var bp' := bp[key := bp[key].(hidden := false)];
      && WellPlaced(bp') && Distinct(bp') && Apart(bp', pc) && Below(bp', n)
      && VisibleIds(bp') + VisibleIds(pc) == VisibleIds(bp) + VisibleIds(pc) + {bp[key].id}
  {
    VisibleAfterShow(bp, key);
  }

  /** A new visible breakpoint sign with the next id at a free location. */
  lemma BpSignPlaced(bp: map<Key, Sign>, pc: map<Key, Sign>, key: Key, flag: bool, n: nat)
    requires WellPlaced(bp) && Distinct(bp) && Apart(bp, pc) && Below(bp, n) && Below(pc, n) && key !in bp
    ensures var bp' := bp[key := Sign(n, key.0, key.1, flag, false)];
      && WellPlaced(bp') && Distinct(bp') && Apart(bp', pc) && Below(bp', n + 1) && Below(pc, n + 1)
      && VisibleIds(bp') + VisibleIds(pc) == VisibleIds(bp) + VisibleIds(pc) + {n}
  {
    VisibleAfterPut(bp, key, Sign(n, key.0, key.1, flag, false));
  }

  /** The breakpoint signs part-way through the pruning loop: the locations still to
      visit keep their signs, the visited ones keep theirs, shown, only when wanted. */
  function Pruning(m0: map<Key, Sign>, rest: set<Key>, keep: set<Key>): map<Key, Sign>
  {
    map k | k in m0 && (k in rest || k in keep) :: if k in rest then m0[k] else m0[k].(hidden := false)
  }

  lemma PruningStep(m0: map<Key, Sign>, rest: set<Key>, keep: set<Key>, key: Key)
    requires key in rest && key in m0
    ensures Pruning(m0, rest - {key}, keep) ==
      if key in keep then Pruning(m0, rest, keep)[key := m0[key].(hidden := false)]
      else Pruning(m0, rest, keep) - {key}
  {
  }

  lemma PruningDone(m0: map<Key, Sign>, hard: bool, newBps: set<Key>)
    ensures Pruning(m0, {}, if hard then {} else newBps) ==
      map k | k in m0 && !hard && k in newBps :: m0[k].(hidden := false)
  {
  }

  /** The signs deleted from a map whose other signs keep their ids are displayed by
      neither map. */
  lemma RemovedIdsGone(m0: map<Key, Sign>, m: map<Key, Sign>, pc: map<Key, Sign>)
    requires Distinct(m0) && Apart(m0, pc)
    requires forall k :: k in m ==> k in m0 && m[k].id == m0[k].id
    ensures forall k :: k in m0 && k !in m ==> m0[k].id !in VisibleIds(m) + VisibleIds(pc)
  {
    forall k | k in m0 && k !in m ensures m0[k].id !in VisibleIds(m) + VisibleIds(pc) {
      forall b | b in m ensures m[b].id != m0[k].id {
      }
      forall c | c in pc ensures pc[c].id != m0[k].id {
      }
    }
  }

  /** The ids of the signs at some of the keys of a map. */
  function IdsOn(m: map<Key, Sign>, keys: set<Key>): set<nat>
  {
    set k | k in keys && k in m :: m[k].id
  }

  lemma IdsOnGrow(m: map<Key, Sign>, keys: set<Key>, key: Key)
    requires key in m
    ensures IdsOn(m, keys + {key}) == IdsOn(m, keys) + {m[key].id}
  {
    forall id | id in IdsOn(m, keys + {key}) ensures id in IdsOn(m, keys) + {m[key].id} {
      var k :| k in keys + {key} && k in m && m[k].id == id;
      if k != key {
        assert id in IdsOn(m, keys);
      }
    }
  }

  /** The program-counter plan: the flag of the sign at each location, the locations
      jumped to, and the location last jumped to. */
  datatype PcPlan = PcPlan(flags: map<Key, bool>, jumps: seq<Key>, cur: Option<Key>)

  /** One entry of `update_pc`: an entry whose file does not exist is skipped, and so
      is an unselected entry at a location that already has a sign; otherwise the
      entry's sign takes the location, and a selected entry away from the current
      location is jumped to.  `files` maps each existing file to its buffer number. */
  function PcStep(e: (string, int, bool), files: map<string, int>, plan: PcPlan): PcPlan
  {
    if e.0 !in files then plan
    else
      var key := (files[e.0], e.1);
      if key in plan.flags && !e.2 then plan
      else
        var jump := e.2 && plan.cur != Some(key);
        PcPlan(plan.flags[key := e.2],
               plan.jumps + (if jump then [key] else []),
               if jump then Some(key) else plan.cur)
  }

  /** `update_pc` over the list of `(filepath, line, is_selected)` entries, from a
      partial plan. */
  function PlanPc(entries: seq<(string, int, bool)>, files: map<string, int>, plan: PcPlan): PcPlan
    decreases |entries|
  {
    if entries == [] then plan else PlanPc(entries[1..], files, PcStep(entries[0], files, plan))
  }

  /** The locations of the entries whose file exists. */
  function PcLocations(entries: seq<(string, int, bool)>, files: map<string, int>): set<Key>
  {
    set i | 0 <= i < |entries| && entries[i].0 in files :: (files[entries[i].0], entries[i].1)
  }

  /** Whether some entry at `key` is the selected frame of its thread. */
  predicate SelectedAt(entries: seq<(string, int, bool)>, files: map<string, int>, key: Key)
  {
    exists i :: 0 <= i < |entries| && entries[i].0 in files && entries[i].2
      && (files[entries[i].0], entries[i].1) == key
  }

  lemma PcLocationsTail(entries: seq<(string, int, bool)>, files: map<string, int>)
    requires entries != []
    ensures PcLocations(entries, files) ==
      PcLocations(entries[1..], files) + (if entries[0].0 in files then {(files[entries[0].0], entries[0].1)} else {})
  {
    var tail := entries[1..];
    forall key | key in PcLocations(entries, files)
      ensures key in PcLocations(tail, files) + (if entries[0].0 in files then {(files[entries[0].0], entries[0].1)} else {})
    {
      var i :| 0 <= i < |entries| && entries[i].0 in files && (files[entries[i].0], entries[i].1) == key;
      if i > 0 {
        assert tail[i - 1] == entries[i];
      }
    }
    forall key | key in PcLocations(tail, files) ensures key in PcLocations(entries, files) {
      var i :| 0 <= i < |tail| && tail[i].0 in files && (files[tail[i].0], tail[i].1) == key;
      assert entries[i + 1] == tail[i];
    }
  }

  /** Every location whose file exists gets exactly one sign, and no other does. */
  lemma {:induction false} PlanPcLocations(entries: seq<(string, int, bool)>, files: map<string, int>, plan: PcPlan)
    ensures PlanPc(entries, files, plan).flags.Keys == plan.flags.Keys + PcLocations(entries, files)
    decreases |entries|
  {
    if entries != [] {
      PcLocationsTail(entries, files);
      PlanPcLocations(entries[1..], files, PcStep(entries[0], files, plan));
    }
  }

  lemma SelectedAtTail(entries: seq<(string, int, bool)>, files: map<string, int>, key: Key)
    requires entries != []
    ensures SelectedAt(entries, files, key) <==>
      SelectedAt(entries[1..], files, key) || (entries[0].0 in files && entries[0].2 && (files[entries[0].0], entries[0].1) == key)
  {
    var tail := entries[1..];
    if SelectedAt(entries, files, key) {
      var i :| 0 <= i < |entries| && entries[i].0 in files && entries[i].2 && (files[entries[i].0], entries[i].1) == key;
      if i > 0 {
        assert tail[i - 1] == entries[i];
      }
    }
    if SelectedAt(tail, files, key) {
      var i :| 0 <= i < |tail| && tail[i].0 in files && tail[i].2 && (files[tail[i].0], tail[i].1) == key;
      assert entries[i + 1] == tail[i];
    }
  }

  /** A location's sign is a selected one exactly when some entry there is selected: a
      selected entry replaces an earlier sign at its location, and an unselected
      entry never replaces one. */
  lemma {:induction false} PlanPcSelection(entries: seq<(string, int, bool)>, files: map<string, int>, plan: PcPlan, key: Key)
    requires key in PlanPc(entries, files, plan).flags
    ensures PlanPc(entries, files, plan).flags[key] <==>
      (key in plan.flags && plan.flags[key]) || SelectedAt(entries, files, key)
    decreases |entries|
  {
    if entries != [] {
      SelectedAtTail(entries, files, key);
      PlanPcSelection(entries[1..], files, PcStep(entries[0], files, plan), key);
    }
  }

  /** Each jump goes somewhere else than the location before it (the previous jump, or
      the current location for the first), and the current location ends as the last
      jump. */
  predicate JumpChain(start: Option<Key>, jumps: seq<Key>, cur: Option<Key>)
  {
    && cur == (if jumps == [] then start else Some(jumps[|jumps| - 1]))
    && (forall i :: 0 < i < |jumps| ==> jumps[i] != jumps[i - 1])
    && (jumps != [] ==> start != Some(jumps[0]))
  }

  /** Jumps go only to selected locations, never twice in a row to the same place. */
  /** One step keeps the chain of jumps and adds at most the entry's own location. */
  lemma PcStepJumps(e: (string, int, bool), files: map<string, int>, plan: PcPlan, start: Option<Key>)
    requires JumpChain(start, plan.jumps, plan.cur)
    ensures var next := PcStep(e, files, plan);
      && JumpChain(start, next.jumps, next.cur)
      && (next.jumps == plan.jumps || (e.0 in files && e.2 && next.jumps == plan.jumps + [(files[e.0], e.1)]))
  {
  }

  lemma {:induction false} PlanPcJumps(entries: seq<(string, int, bool)>, files: map<string, int>, plan: PcPlan, start: Option<Key>)
    requires JumpChain(start, plan.jumps, plan.cur)
    ensures var r := PlanPc(entries, files, plan);
      && JumpChain(start, r.jumps, r.cur)
      && |plan.jumps| <= |r.jumps| && r.jumps[..|plan.jumps|] == plan.jumps
      && forall i :: |plan.jumps| <= i < |r.jumps| ==> SelectedAt(entries, files, r.jumps[i])
    decreases |entries|
  {
    if entries != [] {
      var next := PcStep(entries[0], files, plan);
      var r := PlanPc(entries, files, plan);
      PcStepJumps(entries[0], files, plan, start);
      PlanPcJumps(entries[1..], files, next, start);
      assert r == PlanPc(entries[1..], files, next);
      assert r.jumps[..|next.jumps|][..|plan.jumps|] == r.jumps[..|plan.jumps|];
      forall i | |plan.jumps| <= i < |r.jumps| ensures SelectedAt(entries, files, r.jumps[i]) {
        SelectedAtTail(entries, files, r.jumps[i]);
        if i < |next.jumps| {
          assert r.jumps[i] == next.jumps[i];
        }
      }
    }
  }

  /** What `update_pc` achieves from scratch: a sign at exactly the existing locations
      of the list, flagged exactly where some entry there is selected, and a chain of
      jumps, each to a selected location and never to the location just left. */
  lemma PlanPcFromScratch(entries: seq<(string, int, bool)>, files: map<string, int>, cur: Option<Key>)
    ensures var r := PlanPc(entries, files, PcPlan(map[], [], cur));
      && r.flags.Keys == PcLocations(entries, files)
      && (forall k :: k in r.flags ==> (r.flags[k] <==> SelectedAt(entries, files, k)))
      && JumpChain(cur, r.jumps, r.cur)
      && forall i :: 0 <= i < |r.jumps| ==> SelectedAt(entries, files, r.jumps[i])
  {
    var r := PlanPc(entries, files, PcPlan(map[], [], cur));
    PlanPcLocations(entries, files, PcPlan(map[], [], cur));
    forall k | k in r.flags ensures r.flags[k] <==> SelectedAt(entries, files, k) {
      PlanPcSelection(entries, files, PcPlan(map[], [], cur), k);
    }
    PlanPcJumps(entries, files, PcPlan(map[], [], cur), cur);
  }

  /** The locations `update_breakpoints` wants signs at: those of the breakpoints with
      a non-empty path to an existing file (`files` maps it to its buffer). */
  function ResolvedBps(bpList: seq<(string, int, int)>, files: map<string, int>): set<Key>
  {
    if bpList == [] then {}
    else
      var e := bpList[|bpList| - 1];
      ResolvedBps(bpList[..|bpList| - 1], files) + (if e.0 != "" && e.0 in files then {(files[e.0], e.1)} else {})
  }

  lemma {:induction false} ResolvedBpsMembers(bpList: seq<(string, int, int)>, files: map<string, int>, key: Key)
    ensures key in ResolvedBps(bpList, files) <==>
      exists i :: 0 <= i < |bpList| && bpList[i].0 != "" && bpList[i].0 in files && (files[bpList[i].0], bpList[i].1) == key
    decreases |bpList|
  {
    if bpList != [] {
      var init := bpList[..|bpList| - 1];
      ResolvedBpsMembers(init, files, key);
      if key in ResolvedBps(init, files) {
        var i :| 0 <= i < |init| && init[i].0 != "" && init[i].0 in files && (files[init[i].0], init[i].1) == key;
        assert bpList[i] == init[i];
      }
      if exists i :: 0 <= i < |bpList| && bpList[i].0 != "" && bpList[i].0 in files && (files[bpList[i].0], bpList[i].1) == key {
        var i :| 0 <= i < |bpList| && bpList[i].0 != "" && bpList[i].0 in files && (files[bpList[i].0], bpList[i].1) == key;
        if i < |init| {
          assert init[i] == bpList[i];
        }
      }
    }
  }

  /** The first loop of `update_breakpoints`: the locations of the breakpoints whose
      file exists. */
  method ResolveBreakpoints(bpList: seq<(string, int, int)>, files: map<string, int>) returns (newBps: set<Key>)
    ensures newBps == ResolvedBps(bpList, files)
  {
    newBps := {};
    var i := 0;
    while i < |bpList|
      invariant 0 <= i <= |bpList|
      invariant newBps == ResolvedBps(bpList[..i], files)
    {
      assert bpList[..i + 1][..i] == bpList[..i];
      var e := bpList[i];
      if e.0 != "" && e.0 in files {
        newBps := newBps + {(files[e.0], e.1)};
      }
      i := i + 1;
    }
    assert bpList[..i] == bpList;
  }

  /** The requests are jumps to the locations, one each, in order: each names the
      location's buffer and a sign created there (`placed` maps the id of every
      program-counter sign to the location it was created at) with an id from `floor` on,
      so the editor shows the location's line. */
  predicate JumpRequests(reqs: seq<Request>, jumps: seq<Key>, placed: map<nat, Key>, floor: nat)
  {
    && |reqs| == |jumps|
    && forall j :: 0 <= j < |jumps| ==>
         && reqs[j].Jump? && reqs[j].bufnr == jumps[j].0
         && floor <= reqs[j].signId && reqs[j].signId in placed && placed[reqs[j].signId] == jumps[j]
  }

  /** `placed` only gains ids: what it said of an id stays true. */
  predicate Extends(placed: map<nat, Key>, later: map<nat, Key>)
  {
    forall id :: id in placed ==> id in later && later[id] == placed[id]
  }

  /** Recording a new id keeps every earlier record. */
  lemma ExtendsByFresh(placed: map<nat, Key>, id: nat, key: Key)
    requires id !in placed
    ensures Extends(placed, placed[id := key])
  {
  }

  lemma ExtendsTransitive(a: map<nat, Key>, b: map<nat, Key>, c: map<nat, Key>)
    requires Extends(a, b) && Extends(b, c)
    ensures Extends(a, c)
  {
  }

  /** Jumps to signs placed before `later` extended `placed`, followed by jumps to
      signs recorded in `later` from `floor2` on, are jumps to signs recorded in `later`. */
  lemma JumpRequestsJoin(reqs: seq<Request>, jumps: seq<Key>, more: seq<Request>, moreJumps: seq<Key>,
                         placed: map<nat, Key>, later: map<nat, Key>, floor: nat, floor2: nat)
    requires JumpRequests(reqs, jumps, placed, floor) && Extends(placed, later)
    requires JumpRequests(more, moreJumps, later, floor2) && floor <= floor2
    ensures JumpRequests(reqs + more, jumps + moreJumps, later, floor)
  {
    forall j | 0 <= j < |jumps + moreJumps|
      ensures (reqs + more)[j].Jump? && (reqs + more)[j].bufnr == (jumps + moreJumps)[j].0
      ensures floor <= (reqs + more)[j].signId && (reqs + more)[j].signId in later
      ensures later[(reqs + more)[j].signId] == (jumps + moreJumps)[j]
    {
      if j >= |jumps| {
        assert (reqs + more)[j] == more[j - |jumps|];
      }
    }
  }

  /** The breakpoint sign at `k` after a soft `update_breakpoints`: displayed; the sign
      that was there before, shown again; or a new one created from `floor` on and flagged
      exactly when a program-counter sign shares its location. */
  ghost predicate SoftSign(bp: map<Key, Sign>, pc: map<Key, Sign>, before: map<Key, Sign>, floor: nat, k: Key)
    requires k in bp
  {
    && !bp[k].hidden
    && (k in before ==> bp[k] == before[k].(hidden := false))
    && (k !in before ==> floor <= bp[k].id && bp[k].flag == (k in pc))
  }

  /** Every breakpoint sign is as `SoftSign` says. */
  ghost predicate SoftUpdated(bp: map<Key, Sign>, pc: map<Key, Sign>, before: map<Key, Sign>, floor: nat)
  {
    forall k {:trigger SoftSign(bp, pc, before, floor, k)} :: k in bp ==> SoftSign(bp, pc, before, floor, k)
  }

  lemma SoftUpdatedLowerFloor(bp: map<Key, Sign>, pc: map<Key, Sign>, before: map<Key, Sign>, floor: nat, lower: nat)
    requires SoftUpdated(bp, pc, before, floor) && lower <= floor
    ensures SoftUpdated(bp, pc, before, lower)
  {
    forall k | k in bp ensures SoftSign(bp, pc, before, lower, k) {
      assert SoftSign(bp, pc, before, floor, k);
    }
  }

  function FlagsOf(m: map<Key, Sign>): map<Key, bool>
  {
    map k | k in m :: m[k].flag
  }

  class VimBuffers {
    /** `self.buf_map`: pane name to buffer number. */
    var bufMap: map<string, int>
    var bpSigns: map<Key, Sign>
    var pcSigns: map<Key, Sign>
    var pcCurLoc: Option<Key>
    /** Sign ids the editor displays. */
    var shown: set<nat>
    /** The id the next sign gets. */
    var nextId: nat
    var requests: seq<Request>
    /** Lines written to the error stream by `logs_append`. */
    var printed: seq<string>
    /** Every program-counter sign created so far, by id, with the location it was
        created at. */
    ghost var pcPlaced: map<nat, Key>

    /** Signs sit at their keys, carry distinct ids handed out before `nextId`, and
        the editor displays exactly the signs that are not hidden. */
    ghost predicate Valid()
      reads this`bpSigns, this`pcSigns, this`shown, this`nextId, this`pcPlaced
    {
      && SignsOk(bpSigns, pcSigns, shown, nextId)
      && (forall id :: id in pcPlaced ==> id < nextId)
    }

    constructor ()
      ensures Valid()
      ensures bufMap == map[] && bpSigns == map[] && pcSigns == map[] && pcCurLoc == None
      ensures shown == {} && nextId == 0 && requests == [] && printed == [] && pcPlaced == map[]
    {
      bufMap := map[];
      bpSigns := map[];
      pcSigns := map[];
      pcCurLoc := None;
      shown := {};
      nextId := 0;
      requests := [];
      printed := [];
      pcPlaced := map[];
    }

    /** `buf_check_init`: the pane map is fetched from the editor only while empty. */
    method BufCheckInit(initial: map<string, int>)
      modifies this`bufMap
      ensures bufMap == if old(bufMap) == map[] then initial else old(bufMap)
      ensures bpSigns == old(bpSigns) && pcSigns == old(pcSigns) && pcCurLoc == old(pcCurLoc)
      ensures shown == old(shown) && nextId == old(nextId) && requests == old(requests) && printed == old(printed) && pcPlaced == old(pcPlaced)
    {
      if bufMap == map[] {
        bufMap := initial;
      }
    }

    /** `logs_append(outstr, prefix)`: the number of lines appended, which is the
        number of newlines once CRLF is normalised.  The log pane must exist. */
    method LogsAppend(outstr: string, prefix: Option<string>, initial: map<string, int>) returns (r: Result<nat, BufferError>)
      modifies this
      ensures bufMap == if old(bufMap) == map[] then initial else old(bufMap)
      ensures outstr == [] ==> r == Success(0) && printed == old(printed) && requests == old(requests)
      ensures outstr != [] ==>
        && printed == old(printed) + LogLines(outstr, prefix)
        && ("logs" !in bufMap ==> r == Failure(MissingPane("logs")) && requests == old(requests))
        && ("logs" in bufMap ==>
              r == Success(Text.Count(Text.ReplaceCrlf(outstr), '\n'))
              && requests == old(requests) + [ScrollBottom(bufMap["logs"])])
      ensures bpSigns == old(bpSigns) && pcSigns == old(pcSigns) && pcCurLoc == old(pcCurLoc)
      ensures shown == old(shown) && nextId == old(nextId) && pcPlaced == old(pcPlaced)
    {
      BufCheckInit(initial);
      if |outstr| == 0 {
        return Success(0);
      }
      var lines := LogLines(outstr, prefix);
      printed := printed + lines;
      if "logs" !in bufMap {
        return Failure(MissingPane("logs"));
      }
      requests := requests + [ScrollBottom(bufMap["logs"])];
      r := Success(|lines| - 1);
    }

    /** The first half of `update_pc`: every program-counter sign is hidden. */
    method HidePcSigns()
      requires Valid()
      modifies this
      ensures shown == old(shown) - Ids(old(pcSigns))
      ensures shown == VisibleIds(bpSigns)
      ensures bufMap == old(bufMap) && bpSigns == old(bpSigns) && pcSigns == old(pcSigns) && pcCurLoc == old(pcCurLoc)
      ensures nextId == old(nextId) && requests == old(requests) && printed == old(printed) && pcPlaced == old(pcPlaced)
    {
      var rest := pcSigns.Keys;
      while rest != {}
        invariant rest <= pcSigns.Keys
        invariant shown == old(shown) - IdsOn(pcSigns, pcSigns.Keys - rest)
        invariant bufMap == old(bufMap) && bpSigns == old(bpSigns) && pcSigns == old(pcSigns) && pcCurLoc == old(pcCurLoc)
        invariant nextId == old(nextId) && requests == old(requests) && printed == old(printed) && pcPlaced == old(pcPlaced)
        decreases rest
      {
        var k :| k in rest;
        IdsOnGrow(pcSigns, pcSigns.Keys - rest, k);
        assert pcSigns.Keys - (rest - {k}) == (pcSigns.Keys - rest) + {k};
        shown := shown - {pcSigns[k].id};
        rest := rest - {k};
      }
      assert IdsOn(pcSigns, pcSigns.Keys) == Ids(pcSigns);
      forall id | id in VisibleIds(bpSigns) ensures id !in Ids(pcSigns) {
        var k :| k in bpSigns && !bpSigns[k].hidden && bpSigns[k].id == id;
      }
      forall id | id in VisibleIds(pcSigns) ensures id in Ids(pcSigns) {
        var k :| k in pcSigns && !pcSigns[k].hidden && pcSigns[k].id == id;
      }
    }

    /** `PCSign(vimx, bufnr, line, is_selected)` stored at its location: a new,
        displayed sign with the next id; the sign it replaces is hidden. */
    method PlacePcSign(key: Key, flag: bool, ghost floor: nat)
      requires Valid()
      requires floor <= nextId
      requires FreshSigns(pcSigns, floor)
      modifies this`shown, this`pcSigns, this`nextId, this`pcPlaced
      ensures Valid()
      ensures pcSigns == old(pcSigns)[key := Sign(old(nextId), key.0, key.1, flag, false)]
      ensures FlagsOf(pcSigns) == FlagsOf(old(pcSigns))[key := flag]
      ensures nextId == old(nextId) + 1
      ensures pcPlaced == old(pcPlaced)[old(nextId) := key]
      ensures FreshSigns(pcSigns, floor)
      ensures bufMap == old(bufMap) && bpSigns == old(bpSigns) && pcCurLoc == old(pcCurLoc)
      ensures requests == old(requests) && printed == old(printed)
    {
      var sign := Sign(nextId, key.0, key.1, flag, false);
      var displayed := (shown - (if key in pcSigns then {pcSigns[key].id} else {})) + {nextId};
      PcSignPlaced(bpSigns, pcSigns, shown, key, flag, nextId);
      PcSignFlag(pcSigns, key, flag, nextId);
      PcSignFresh(pcSigns, key, flag, nextId, floor);
      shown, pcSigns, nextId, pcPlaced := displayed, pcSigns[key := sign], nextId + 1, pcPlaced[nextId := key];
    }

    /** One iteration of `update_pc`'s loop over the entries: the state moves as
        `PcStep` says, and the requests grow by the jump `PcStep` adds, if any. */
    method PlacePcEntry(e: (string, int, bool), files: map<string, int>, ghost jumps: seq<Key>, ghost floor: nat)
      returns (ghost added: seq<Request>)
      requires Valid()
      requires floor <= nextId
      requires FreshSigns(pcSigns, floor)
      modifies this`shown, this`pcSigns, this`nextId, this`pcPlaced, this`requests, this`pcCurLoc
      ensures Valid()
      ensures old(nextId) <= nextId && Extends(old(pcPlaced), pcPlaced)
      ensures FreshSigns(pcSigns, floor)
      ensures var next := PcStep(e, files, PcPlan(FlagsOf(old(pcSigns)), jumps, old(pcCurLoc)));
        && FlagsOf(pcSigns) == next.flags && pcCurLoc == next.cur
        && requests == old(requests) + added
        && |jumps| <= |next.jumps| && next.jumps[..|jumps|] == jumps
        && JumpRequests(added, next.jumps[|jumps|..], pcPlaced, old(nextId))
      ensures bufMap == old(bufMap) && bpSigns == old(bpSigns) && printed == old(printed)
    {
      ghost var plan := PcPlan(FlagsOf(pcSigns), jumps, pcCurLoc);
      added := [];
      assert requests == old(requests) + added;
      if e.0 !in files {
        assert PcStep(e, files, plan) == plan;
        assert jumps[|jumps|..] == [];
        return;
      }
      var key := (files[e.0], e.1);
      assert key in plan.flags <==> key in pcSigns;
      if key in pcSigns && !e.2 {
        assert PcStep(e, files, plan) == plan;
        assert jumps[|jumps|..] == [];
        return;
      }
      PlacePcSign(key, e.2, floor);
      ExtendsByFresh(old(pcPlaced), old(nextId), key);
      if e.2 && pcCurLoc != Some(key) {
        assert PcStep(e, files, plan) == PcPlan(plan.flags[key := e.2], jumps + [key], Some(key));
        JumpTo(key, nextId - 1);
        added := [Jump(key.0, nextId - 1)];
        assert (jumps + [key])[|jumps|..] == [key];
      } else {
        assert PcStep(e, files, plan) == PcPlan(plan.flags[key := e.2], jumps + [], pcCurLoc);
        assert (jumps + [])[|jumps|..] == [];
      }
    }

    /** The jump of `update_pc` to the selected sign `id` at `key`, which becomes the
        current location. */
    method JumpTo(key: Key, id: nat)
      modifies this`requests, this`pcCurLoc
      ensures requests == old(requests) + [Jump(key.0, id)] && pcCurLoc == Some(key)
    {
      requests := requests + [Jump(key.0, id)];
      pcCurLoc := Some(key);
    }

    /** The loop of `update_pc` over the entries, from the current signs. */
    method PlacePcEntries(pcList: seq<(string, int, bool)>, files: map<string, int>, ghost floor: nat)
      returns (ghost added: seq<Request>)
      requires Valid()
      requires floor <= nextId
      requires FreshSigns(pcSigns, floor)
      modifies this
      ensures Valid()
      ensures FreshSigns(pcSigns, floor)
      ensures var plan := PlanPc(pcList, files, PcPlan(FlagsOf(old(pcSigns)), [], old(pcCurLoc)));
        && FlagsOf(pcSigns) == plan.flags && pcCurLoc == plan.cur
        && requests == old(requests) + added && JumpRequests(added, plan.jumps, pcPlaced, old(nextId))
      ensures old(nextId) <= nextId && Extends(old(pcPlaced), pcPlaced)
      ensures bufMap == old(bufMap) && bpSigns == old(bpSigns) && printed == old(printed)
    {
      var i := 0;
      ghost var jumps: seq<Key> := [];
      added := [];
      while i < |pcList|
        invariant 0 <= i <= |pcList|
        invariant Valid()
        invariant bufMap == old(bufMap) && bpSigns == old(bpSigns) && printed == old(printed)
        invariant floor <= nextId
        invariant FreshSigns(pcSigns, floor)
        invariant PlanPc(pcList[i..], files, PcPlan(FlagsOf(pcSigns), jumps, pcCurLoc))
               == PlanPc(pcList, files, PcPlan(FlagsOf(old(pcSigns)), [], old(pcCurLoc)))
        invariant requests == old(requests) + added
        invariant old(nextId) <= nextId && Extends(old(pcPlaced), pcPlaced)
        invariant JumpRequests(added, jumps, pcPlaced, old(nextId))
      {
        assert pcList[i..][0] == pcList[i] && pcList[i..][1..] == pcList[i + 1..];
        ghost var next := PcStep(pcList[i], files, PcPlan(FlagsOf(pcSigns), jumps, pcCurLoc));
        ghost var placed, n := pcPlaced, nextId;
        ghost var more := PlacePcEntry(pcList[i], files, jumps, floor);
        assert next.jumps == jumps + next.jumps[|jumps|..];
        JumpRequestsJoin(added, jumps, more, next.jumps[|jumps|..], placed, pcPlaced, old(nextId), n);
        ExtendsTransitive(old(pcPlaced), placed, pcPlaced);
        assert PcPlan(FlagsOf(pcSigns), next.jumps, pcCurLoc) == next;
        added := added + more;
        jumps := next.jumps;
        i := i + 1;
      }
      assert pcList[i..] == [];
    }

    /** `update_pc()` over the controller's `(filepath, line, is_selected)` list:
        previous signs are hidden and dropped, then one sign is placed per existing
        location, and the view jumps to a selected location that differs from the
        current one. */
    method UpdatePc(pcList: seq<(string, int, bool)>, files: map<string, int>)
      requires Valid()
      modifies this
      ensures Valid()
      ensures var plan := PlanPc(pcList, files, PcPlan(map[], [], old(pcCurLoc)));
        && FlagsOf(pcSigns) == plan.flags
        && pcCurLoc == plan.cur
        && |old(requests)| <= |requests| && requests[..|old(requests)|] == old(requests)
        && JumpRequests(requests[|old(requests)|..], plan.jumps, pcPlaced, old(nextId))
      ensures old(nextId) <= nextId && Extends(old(pcPlaced), pcPlaced)
      ensures FreshSigns(pcSigns, old(nextId))
      ensures forall k :: k in old(pcSigns) ==> old(pcSigns)[k].id !in shown
      ensures bufMap == old(bufMap) && bpSigns == old(bpSigns) && printed == old(printed)
    {
      HidePcSigns();
      pcSigns := map[];
      assert VisibleIds(pcSigns) == {};
      assert FlagsOf(pcSigns) == map[];
      ghost var added := PlacePcEntries(pcList, files, old(nextId));
      assert requests[|old(requests)|..] == added;
      forall k | k in old(pcSigns) ensures old(pcSigns)[k].id !in shown {
        assert old(pcSigns)[k].id < old(nextId);
        forall b | b in bpSigns ensures bpSigns[b].id != old(pcSigns)[k].id {
        }
      }
    }

    /** One iteration of `update_breakpoints`' loop over its copy of the signs. */
    method PruneBpSign(key: Key, hard: bool, newBps: set<Key>)
      requires Valid() && key in bpSigns
      modifies this`bpSigns, this`shown, this`nextId
      ensures Valid()
      ensures bpSigns == if hard || key !in newBps then old(bpSigns) - {key}
                         else old(bpSigns)[key := old(bpSigns)[key].(hidden := false)]
      ensures bufMap == old(bufMap) && pcSigns == old(pcSigns) && pcCurLoc == old(pcCurLoc)
      ensures nextId == old(nextId) && requests == old(requests) && printed == old(printed) && pcPlaced == old(pcPlaced)
    {
      if hard || key !in newBps {
        BpSignRemoved(bpSigns, pcSigns, key, nextId);
        shown := shown - {bpSigns[key].id};
        bpSigns := bpSigns - {key};
      } else if bpSigns[key].hidden {
        BpSignShown(bpSigns, pcSigns, key, nextId);
        shown := shown + {bpSigns[key].id};
        bpSigns := bpSigns[key := bpSigns[key].(hidden := false)];
      } else {
        assert bpSigns[key := bpSigns[key].(hidden := false)] == bpSigns;
      }
    }

    /** The loop of `update_breakpoints` over a copy of the breakpoint signs: a sign is
        hidden and deleted on a hard update or when its location is no longer wanted;
        otherwise it is shown again and its location needs no new sign.  Returns the
        locations still without a sign. */
    method PruneBpSigns(hard: bool, newBps: set<Key>) returns (remaining: set<Key>)
      requires Valid()
      modifies this`bpSigns, this`shown, this`nextId
      ensures Valid()
      ensures bpSigns == map k | k in old(bpSigns) && !hard && k in newBps :: old(bpSigns)[k].(hidden := false)
      ensures remaining == if hard then newBps else newBps - old(bpSigns).Keys
      ensures forall k :: k in old(bpSigns) && k !in bpSigns ==> old(bpSigns)[k].id !in shown
      ensures bufMap == old(bufMap) && pcSigns == old(pcSigns) && pcCurLoc == old(pcCurLoc)
      ensures nextId == old(nextId) && requests == old(requests) && printed == old(printed) && pcPlaced == old(pcPlaced)
    {
      var rest := bpSigns.Keys;
      remaining := newBps;
      ghost var keep := if hard then {} else newBps;
      assert bpSigns == Pruning(old(bpSigns), rest, keep);
      while rest != {}
        invariant rest <= old(bpSigns).Keys
        invariant Valid()
        invariant bpSigns == Pruning(old(bpSigns), rest, keep)
        invariant remaining == newBps - (old(bpSigns).Keys - rest) * keep
        invariant bufMap == old(bufMap) && pcSigns == old(pcSigns) && pcCurLoc == old(pcCurLoc)
        invariant nextId == old(nextId) && requests == old(requests) && printed == old(printed) && pcPlaced == old(pcPlaced)
        decreases rest
      {
        var k :| k in rest;
        PruningStep(old(bpSigns), rest, keep, k);
        PruneBpSign(k, hard, newBps);
        if !hard && k in newBps {
          remaining := remaining - {k};
        }
        rest := rest - {k};
      }
      PruningDone(old(bpSigns), hard, newBps);
      RemovedIdsGone(old(bpSigns), bpSigns, pcSigns);
    }

    /** `BPSign(vimx, bufnr, line, (bufnr, line) in self.pc_signs)` at a free location:
        a new, displayed sign with the next id. */
    method PlaceBpSign(key: Key)
      requires Valid() && key !in bpSigns
      modifies this`bpSigns, this`shown, this`nextId
      ensures Valid()
      ensures bpSigns == old(bpSigns)[key := Sign(old(nextId), key.0, key.1, key in pcSigns, false)]
      ensures nextId == old(nextId) + 1
      ensures bufMap == old(bufMap) && pcSigns == old(pcSigns) && pcCurLoc == old(pcCurLoc)
      ensures requests == old(requests) && printed == old(printed) && pcPlaced == old(pcPlaced)
    {
      BpSignPlaced(bpSigns, pcSigns, key, key in pcSigns, nextId);
      shown := shown + {nextId};
      bpSigns := bpSigns[key := Sign(nextId, key.0, key.1, key in pcSigns, false)];
      nextId := nextId + 1;
    }

    /** The last loop of `update_breakpoints`: one new, displayed sign per location,
        flagged when a program-counter sign sits there. */
    method PlaceBpSigns(wanted: set<Key>)
      requires Valid()
      requires wanted !! bpSigns.Keys
      modifies this`bpSigns, this`shown, this`nextId
      ensures Valid()
      ensures bpSigns.Keys == old(bpSigns).Keys + wanted
      ensures forall k :: k in old(bpSigns) ==> bpSigns[k] == old(bpSigns)[k]
      ensures forall k :: k in wanted ==>
        && old(nextId) <= bpSigns[k].id && !bpSigns[k].hidden
        && bpSigns[k].flag == (k in pcSigns)
      ensures bufMap == old(bufMap) && pcSigns == old(pcSigns) && pcCurLoc == old(pcCurLoc)
      ensures old(nextId) <= nextId && requests == old(requests) && printed == old(printed) && pcPlaced == old(pcPlaced)
    {
      var rest := wanted;
      while rest != {}
        invariant rest <= wanted
        invariant Valid()
        invariant old(nextId) <= nextId
        invariant bpSigns.Keys == old(bpSigns).Keys + (wanted - rest)
        invariant forall k :: k in old(bpSigns) ==> bpSigns[k] == old(bpSigns)[k]
        invariant forall k :: k in wanted - rest ==>
          && old(nextId) <= bpSigns[k].id && !bpSigns[k].hidden
          && bpSigns[k].flag == (k in pcSigns)
        invariant bufMap == old(bufMap) && pcSigns == old(pcSigns) && pcCurLoc == old(pcCurLoc)
        invariant requests == old(requests) && printed == old(printed) && pcPlaced == old(pcPlaced)
        decreases rest
      {
        var k :| k in rest;
        PlaceBpSign(k);
        rest := rest - {k};
      }
    }

    /** `update_breakpoints(hard_update)` over the controller's `(filepath, line, bpid)`
        list: afterwards there is a displayed sign at exactly the breakpoint locations
        whose file exists.  Without a hard update a sign that was already there is
        kept (shown again); every other sign is new, and flagged when a
        program-counter sign sits at its location.  Dropped signs are no longer
        displayed. */
    method UpdateBreakpoints(hard: bool, bpList: seq<(string, int, int)>, files: map<string, int>)
      requires Valid()
      modifies this`bpSigns, this`shown, this`nextId
      ensures Valid()
      ensures bpSigns.Keys == ResolvedBps(bpList, files)
      ensures forall k :: k in bpSigns ==> !bpSigns[k].hidden
      ensures forall k :: k in bpSigns && !hard && k in old(bpSigns) ==> bpSigns[k] == old(bpSigns)[k].(hidden := false)
      ensures forall k :: k in bpSigns && (hard || k !in old(bpSigns)) ==>
        old(nextId) <= bpSigns[k].id && bpSigns[k].flag == (k in pcSigns)
      ensures forall k :: k in old(bpSigns) && (hard || k !in bpSigns) ==> old(bpSigns)[k].id !in shown
      ensures bufMap == old(bufMap) && pcSigns == old(pcSigns) && pcCurLoc == old(pcCurLoc)
      ensures requests == old(requests) && printed == old(printed) && pcPlaced == old(pcPlaced)
    {
      var newBps := ResolveBreakpoints(bpList, files);
      var remaining := PruneBpSigns(hard, newBps);
      ghost var pruned := bpSigns;
      ghost var floor := nextId;
      PlaceBpSigns(remaining);
      forall k | k in old(bpSigns) && (hard || k !in bpSigns) ensures old(bpSigns)[k].id !in shown {
        assert k !in pruned;
        forall b | b in bpSigns ensures bpSigns[b].id != old(bpSigns)[k].id {
          if b in pruned {
            assert bpSigns[b] == pruned[b];
          } else {
            assert old(bpSigns)[k].id < floor;
          }
        }
      }
    }

    /** `update_buffer(buf)`: the pane's command is sent to the controller and the pane
        is refilled with the lines of `str(result)`, given here as `resultText`; the
        breakpoints pane also refreshes the breakpoint signs.  An unknown pane fails
        before anything is asked, a pane without a buffer after the command ran. */
    method UpdateBuffer(buf: string, initial: map<string, int>, resultText: string,
                        bpList: seq<(string, int, int)>, files: map<string, int>)
      returns (r: Result<(), BufferError>)
      requires Valid()
      modifies this`bufMap, this`requests, this`bpSigns, this`shown, this`nextId
      ensures Valid()
      ensures bufMap == if old(bufMap) == map[] then initial else old(bufMap)
      ensures CommandFor(buf).None? ==> r == Failure(UnknownPane(buf)) && requests == old(requests)
      ensures CommandFor(buf).Some? ==>
        && (buf in bufMap ==>
              r == Success(()) &&
              requests == old(requests) + [Query(CommandFor(buf).value), Refill(bufMap[buf], Text.Split(resultText, '\n'))])
        && (buf !in bufMap ==> r == Failure(MissingPane(buf)) && requests == old(requests) + [Query(CommandFor(buf).value)])
      ensures buf == "breakpoints" ==>
        bpSigns.Keys == ResolvedBps(bpList, files) && SoftUpdated(bpSigns, pcSigns, old(bpSigns), old(nextId))
      ensures buf != "breakpoints" ==> bpSigns == old(bpSigns) && shown == old(shown) && nextId == old(nextId)
      ensures pcSigns == old(pcSigns) && pcCurLoc == old(pcCurLoc) && printed == old(printed) && pcPlaced == old(pcPlaced)
    {
      BufCheckInit(initial);
      var command := CommandFor(buf);
      if command.None? {
        r := Failure(UnknownPane(buf));
      } else {
        requests := requests + [Query(command.value)];
        var lines := Text.Split(resultText, '\n');
        if buf == "breakpoints" {
          ghost var before, floor := bpSigns, nextId;
          UpdateBreakpoints(false, bpList, files);
          forall k | k in bpSigns ensures SoftSign(bpSigns, pcSigns, before, floor, k) {
          }
        }
        if buf !in bufMap {
          r := Failure(MissingPane(buf));
        } else {
          requests := requests + [Refill(bufMap[buf], lines)];
          r := Success(());
        }
      }
    }

    /** One iteration of `update()`'s loop: the `i`th pane of the table, after the
        ones before it have been refreshed into `requests[base..]`. */
    method RefreshPane(i: nat, initial: map<string, int>, results: seq<string>,
                       bpList: seq<(string, int, int)>, files: map<string, int>, ghost base: nat)
      returns (r: Result<(), BufferError>)
      requires Valid() && i < |ContentMap| && |results| == |ContentMap|
      requires bufMap == map[] ==> initial == map[]
      requires HasPanes(bufMap, i)
      requires base <= |requests| && requests[base..] == PaneRequests(ContentMap[..i], bufMap, results[..i])
      modifies this`bufMap, this`requests, this`bpSigns, this`shown, this`nextId
      ensures Valid()
      ensures bufMap == old(bufMap)
      ensures |old(requests)| <= |requests| && requests[..|old(requests)|] == old(requests)
      ensures r.Failure? ==> FirstMissingPane(bufMap, i) && r.error == MissingPane(ContentMap[i].0)
      ensures r.Success? ==>
        && ContentMap[i].0 in bufMap
        && requests[base..] == PaneRequests(ContentMap[..i + 1], bufMap, results[..i + 1])
      ensures i == 1 ==>
        bpSigns.Keys == ResolvedBps(bpList, files) && SoftUpdated(bpSigns, pcSigns, old(bpSigns), old(nextId))
      ensures i != 1 ==> bpSigns == old(bpSigns) && nextId == old(nextId)
      ensures pcSigns == old(pcSigns) && pcCurLoc == old(pcCurLoc) && printed == old(printed) && pcPlaced == old(pcPlaced)
    {
      PaneAt(i);
      r := UpdateBuffer(ContentMap[i].0, initial, results[i], bpList, files);
      if r.Success? {
        HasPanesStep(bufMap, i);
        PaneRequestsStep(bufMap, results, i);
        assert requests[base..] == old(requests)[base..] + requests[|old(requests)|..];
      }
    }

    /** The loop of `update()` over the panes, in table order: the first pane
        without a buffer ends it with its KeyError.  `results` holds the
        controller's answer for each pane of the table. */
    method RefreshPanes(initial: map<string, int>, results: seq<string>,
                        bpList: seq<(string, int, int)>, files: map<string, int>)
      returns (r: Result<(), BufferError>)
      requires Valid() && |results| == |ContentMap|
      modifies this`bufMap, this`requests, this`bpSigns, this`shown, this`nextId
      ensures Valid()
      ensures bufMap == if old(bufMap) == map[] then initial else old(bufMap)
      ensures old(requests) <= requests
      ensures r.Success? <==> forall k :: 0 <= k < |ContentMap| ==> ContentMap[k].0 in bufMap
      ensures r.Success? ==>
        && bpSigns.Keys == ResolvedBps(bpList, files)
        && SoftUpdated(bpSigns, pcSigns, old(bpSigns), old(nextId))
        && requests[|old(requests)|..] == PaneRequests(ContentMap, bufMap, results)
      ensures r.Failure? ==> exists k :: FirstMissingPane(bufMap, k) && r.error == MissingPane(ContentMap[k].0)
      ensures pcSigns == old(pcSigns) && pcCurLoc == old(pcCurLoc) && printed == old(printed) && pcPlaced == old(pcPlaced)
    {
      BufCheckInit(initial);
      var i := 0;
      while i < |ContentMap|
        invariant 0 <= i <= |ContentMap|
        invariant Valid()
        invariant bufMap == if old(bufMap) == map[] then initial else old(bufMap)
        invariant HasPanes(bufMap, i)
        invariant old(requests) <= requests
        invariant requests[|old(requests)|..] == PaneRequests(ContentMap[..i], bufMap, results[..i])
        invariant i <= 1 ==> bpSigns == old(bpSigns) && nextId == old(nextId)
        invariant i > 1 ==>
          bpSigns.Keys == ResolvedBps(bpList, files) && SoftUpdated(bpSigns, pcSigns, old(bpSigns), old(nextId))
      {
        ghost var bpBefore, idBefore := bpSigns, nextId;
        r := RefreshPane(i, initial, results, bpList, files, |old(requests)|);
        if r.Failure? {
          return;
        }
        if i == 1 {
          assert bpBefore == old(bpSigns) && idBefore == old(nextId);
        } else {
          assert bpSigns == bpBefore && nextId == idBefore;
        }
        HasPanesStep(bufMap, i);
        i := i + 1;
      }
      assert ContentMap[..i] == ContentMap && results[..i] == results;
      r := Success(());
    }

    /** `update()`: the program-counter signs, then every pane in table order. */
    method Update(initial: map<string, int>, pcList: seq<(string, int, bool)>, results: seq<string>,
                  bpList: seq<(string, int, int)>, files: map<string, int>)
      returns (r: Result<(), BufferError>)
      requires Valid() && |results| == |ContentMap|
      modifies this
      ensures Valid()
      ensures var plan := PlanPc(pcList, files, PcPlan(map[], [], old(pcCurLoc)));
        && FlagsOf(pcSigns) == plan.flags && pcCurLoc == plan.cur
        && |old(requests)| + |plan.jumps| <= |requests| && requests[..|old(requests)|] == old(requests)
        && JumpRequests(requests[|old(requests)|..|old(requests)| + |plan.jumps|], plan.jumps, pcPlaced, old(nextId))
        && (r.Success? <==> forall k :: 0 <= k < |ContentMap| ==> ContentMap[k].0 in bufMap)
        && (r.Success? ==>
              && bpSigns.Keys == ResolvedBps(bpList, files)
              && SoftUpdated(bpSigns, pcSigns, old(bpSigns), old(nextId))
              && requests[|old(requests)| + |plan.jumps|..] == PaneRequests(ContentMap, bufMap, results))
        && (r.Failure? ==> exists k :: FirstMissingPane(bufMap, k) && r.error == MissingPane(ContentMap[k].0))
      ensures printed == old(printed)
    {
      UpdatePc(pcList, files);
      ghost var afterPc, before, floor := requests, bpSigns, nextId;
      r := RefreshPanes(initial, results, bpList, files);
      if r.Success? {
        SoftUpdatedLowerFloor(bpSigns, pcSigns, before, floor, old(nextId));
      }
      assert requests[..|old(requests)|] == afterPc[..|old(requests)|];
      assert requests[|old(requests)|..|old(requests)| + |afterPc| - |old(requests)|] == afterPc[|old(requests)|..];
    }
  }
}
