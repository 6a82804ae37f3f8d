# gdb.vim controller core, modelled in Dafny

gdb.vim drives GDB (and, in an older front end, LLDB) from Vim and Neovim. This project
models the layer between the editor and the debugger process:

- **the editor channel** (`VimChannel`, after `server/gdb_vim/vim_x.py`): newline-delimited
  JSON arrays. A request that expects an answer carries a negative reply index taken from
  a per-connection counter, and `wait` matches incoming `[index, payload]` envelopes
  against that index. The class `VimX` keeps the counter, the buffer of deferred payloads,
  the unread input and the written output;
- **the editor buffers and signs** (`Buffers`, after `server/gdb_vim/vim_buffers.py`): the
  log splitter, the program-counter signs with their jump, the breakpoint-sign
  reconciliation, and the panes filled from fixed GDB commands. The class `VimBuffers`
  keeps the sign maps, the current location and the pane map;
- **the parts both controllers share** (`Debugger`): GDB/MI responses, the one-slot result
  mailbox (`ResultSlot`), the busy gate and the refresh rule;
- **the server controller** (`ServerController`, after `server/gdb_vim/controller.py`) and
  **the Neovim plugin controller** (`PluginController`, after
  `rplugin/python3/gdb_nvim/controller.py`): the GDB handle, the busy gate, `execute`, the
  result slot fed by `poke` or by the polling loop, and the plugin loop's watchdog;
- **the session state machine** (`Sessions`, after `rplugin/python3/gdb_nvim/session.py`):
  validation and loading of a decoded session file, mode setup and teardown, action lists
  bracketed by the busy gate, the session path, and the `:GGsession` sub-commands;
- **the LLDB content helpers** (`ContentHelper`, after
  `rplugin/python/lldb_nvim/content_helper.py`): the depth-capped variable tree, registers,
  process status, breakpoint locations and the frame scan for the program counter. These
  work over plain datatypes that stand in for the LLDB objects.

Supporting modules: `Wrappers` (Option, Result), `Text` (the `str` and `posixpath`
operations the code relies on) and `Values` (decoded JSON whose objects keep their key
order).

The editor and the debugger are not called. Every call the core makes on them is recorded,
in order, in a trace of effects (`output`, `requests` or `trace`). Every answer it needs
from them is a parameter: the input envelopes, the `Answers` of a sub-command, the poll
outcomes of the loop, the file-to-buffer map. So is whether the plugin controller holds a
GDB handle when a session operation starts (`dbg`, or `Answers.hasDbg`). Without a handle,
the controller's `execute` and `dbg_stop` raise AttributeError, and the session model
raises with them. The controller's own loop drops the handle after `dbg_stop`, on the
watchdog or on a crash. Inside one session operation only `dbg_run` creates a handle, and
only the debug mode's `setup` actions run after it.

The classes follow the objects whose fields the source updates in place (`VimX`,
`VimBuffers`, both `Controller`s, `Session`, the result `Queue`). Their methods state the
whole new state, usually through a specification function on values (`QueuedWaitOutcome`,
`PlanPc`, `ResolvedBps`, `Deliver`, `RunLoop`, `Load`, `Setup`, `Teardown`). The lemmas
beside those functions state what the source promises.

The model follows the code, with one exception. Where the code has a defect (listed
under Findings), the model holds two members: one models the code as written, and a
corrected one has the evidently intended property proved. The rest of the model uses the
corrected behaviour. The Model rows of members built on a correction start with
"corrected" and name the as-written member. This concerns `VimX.Call`, `VimX.Eval`,
`VimX.Abspath`, `VimX.Log`, `Session.Handle` and the plugin's polling loop.

A failing action leaves the busy gate raised. `run_actions` (session.py:35-42) has no
`finally`, so when an action fails to format or `execute` raises, the gate stays raised by
one (`Sessions.Session.ActionEffectsGate`).

The docstring of `wait` (vim_x.py:22-27) says that envelopes with a positive index are
queued while a reply is awaited. The code at lines 36-41 rejects them instead.
`WaitOutcome` models that code, and the members that wait for a reply use the queueing wait
of the docstring (Findings row vim_x.py:36-39).

A few names in the source are unbound or misspelt where the intent is plain. The model
uses the intended behaviour:

- `loc` and `path_exists` (vim_buffers.py:74-75) stand for logging and `path.exists`. The
  existing files are the keys of the `files` map.
- `bp_signs` (vim_buffers.py:112-113) is `self.bp_signs`.
- `self.logs_append` (server controller.py:87) is `self.buffers.logs_append`.
- `self.buffers.bp_list` (controller.py:118 in the server, controller.py:108 in the plugin)
  stands for the breakpoint signs' locations (`bpKeys`).
- In the server's `poke` (controller.py:152-161), `responses` is unbound after a failed
  poll. There a failed poll processes no responses. The plugin's loop is different: it
  keeps `responses` from round to round (see Findings).

## Model

| member | source | states |
|---|---|---|
| Values.Lookup | rplugin/python3/gdb_nvim/session.py:45-46 | a key is found exactly when it is among the object's keys, and then the entry with that key and the value is in the object |
| Values.Put | rplugin/python3/gdb_nvim/session.py:163-164 | an `OrderedDict` assignment keeps an existing key in place and puts a new key last |
| Values.PutLookup | rplugin/python3/gdb_nvim/session.py:163-164 | after the assignment the key reads as the new value and every other key reads as before |
| Values.Length | rplugin/python3/gdb_nvim/session.py:121 | `len` is defined exactly for strings, lists and objects (the others raise TypeError) |
| Values.Iterate | rplugin/python3/gdb_nvim/session.py:37 | iteration is defined exactly where `len` is, and visits `len` items |
| Values.Index | rplugin/python3/gdb_nvim/session.py:141-144 | a subscript succeeds only on an object that has the key |
| Text.TrimStart | server/gdb_vim/vim_x.py:80 | the result is a suffix of the text, starts with a non-blank, and everything removed is whitespace |
| Text.TrimEnd | server/gdb_vim/vim_x.py:80 | the result is a prefix of the text, ends with a non-blank, and everything removed is whitespace |
| Text.Strip | rplugin/python/lldb_nvim/content_helper.py:104 | the stripped text is no longer than the text and has no whitespace at either end |
| Text.Split | server/gdb_vim/vim_buffers.py:50 | a split gives one piece more than there are separators, and no piece holds a separator |
| Text.JoinSplit | server/gdb_vim/vim_buffers.py:126 | joining the pieces of a split with the same separator gives back the text |
| Text.CountAppend | server/gdb_vim/vim_buffers.py:59 | the separators of a concatenation are those of its two parts |
| Text.JoinLastGrows | server/gdb_vim/vim_buffers.py:50 | extending the last piece extends the joined text by the same character |
| Text.ReplaceCrlf | server/gdb_vim/vim_buffers.py:50 | replacing CRLF by LF never lengthens the text and keeps the number of line feeds |
| Text.Spaces | rplugin/python/lldb_nvim/content_helper.py:73 | `' ' * n` is `n` blanks |
| Text.NatToString | rplugin/python/lldb_nvim/content_helper.py:47 | the decimal text of a number is digits only, without a leading zero |
| Text.DecimalRoundTrip | rplugin/python/lldb_nvim/content_helper.py:47 | reading back the decimal text of a number gives the number |
| Text.IntToString | rplugin/python/lldb_nvim/content_helper.py:47 | the text of an integer starts with a minus sign exactly when the integer is negative |
| Text.AfterLastSlash | rplugin/python3/gdb_nvim/session.py:95 | the final component starts right after the last slash, and no slash follows |
| Text.TrimSlashes | rplugin/python3/gdb_nvim/session.py:95 | trailing slashes, and only those, are removed from the directory part |
| Text.PathSplitTail | rplugin/python3/gdb_nvim/session.py:95-98 | the file part has no slash, ends the path, and is empty exactly when the path is empty or ends with a slash |
| Text.PathJoin | server/gdb_vim/vim_x.py:109-111 | an absolute second part replaces the first, and the joined path always ends with the second part |
| VimChannel.VerdictAsWritten | server/gdb_vim/vim_x.py:36-41 | as written, an envelope is never deferred; it is accepted exactly when its index equals the expectation, or is positive when nothing is awaited |
| VimChannel.QueuedVerdict | server/gdb_vim/vim_x.py:22-27 | as the docstring of `wait` says, a positive envelope is deferred exactly while a reply is awaited, and accepted in the same cases as before |
| VimChannel.WaitOutcome | server/gdb_vim/vim_x.py:21-42 | as written, a wait never changes the buffer, reads at most one envelope, and succeeds only with a non-positive expectation and the payload of the envelope it read |
| VimChannel.PendingAfterDefer | server/gdb_vim/vim_x.py:39 | inserting at the front of the buffer appends to the queue of deferred payloads in arrival order |
| VimChannel.QueuedReplyRoundTrip | server/gdb_vim/vim_x.py:22-27 | while a reply is awaited, the spontaneous envelopes before it are deferred in arrival order, the reply's payload is returned, and reading stops right after it |
| VimChannel.DeferOne | server/gdb_vim/vim_x.py:38-39 | a spontaneous envelope read while a reply is awaited is set aside, and reading goes on |
| VimChannel.PlainReadIsFifo | server/gdb_vim/vim_x.py:30-31 | a plain read takes the oldest deferred payload first and keeps the others in order, reading nothing |
| VimChannel.InterleavedNotificationRejected | server/gdb_vim/vim_x.py:36-37 | as written, a notification that arrives before an awaited reply raises ValueError and the reply stays unread; with deferral the reply is returned |
| VimChannel.SecondItem | server/gdb_vim/vim_x.py:61 | `re[1]` succeeds only on a list or a string of at least two items |
| VimChannel.CallResultIndexedAsWritten | server/gdb_vim/vim_x.py:60-61 | as written, `call` turns a numeric reply into an error and a path reply into its second character |
| VimChannel.IssuedIndices | server/gdb_vim/vim_x.py:16 | the reply indices of one connection are -2, -3, -4, ... in issue order |
| VimChannel.IssuedIndicesDistinct | server/gdb_vim/vim_x.py:55-57 | reply indices strictly decrease, so none is handed out twice |
| VimChannel.ReplyIndex | server/gdb_vim/vim_x.py:53-58 | a written message asks for at most one reply |
| VimChannel.WrittenIndices | server/gdb_vim/vim_x.py:44-48 | writing a message adds its reply index, if any, after those written before |
| VimChannel.MessagesCarryIndexOnlyForReplies | server/gdb_vim/vim_x.py:50-75 | `call` and `eval` carry the index exactly when a reply is expected; `send` and `command` never carry one |
| VimChannel.HighlightGroup | server/gdb_vim/vim_x.py:79-81 | a level names a highlight group exactly when Python's list subscript accepts it, -3 to 2 |
| VimChannel.EscapeAsWritten | server/gdb_vim/vim_x.py:80 | the escaped message holds no line feed |
| VimChannel.EscapeForEcho | server/gdb_vim/vim_x.py:80 | the corrected escaping also leaves no line feed |
| VimChannel.EchoEscapeRoundTrip | server/gdb_vim/vim_x.py:80-81 | the editor reads the corrected escaped message back exactly, whatever follows the closing quote |
| VimChannel.PlainTextUnterminated | server/gdb_vim/vim_x.py:81 | text without a quote or a backslash never closes a string literal |
| VimChannel.TrailingBackslashBreaksEcho | server/gdb_vim/vim_x.py:80-81 | as written, a message ending in a backslash leaves the `echom` literal unterminated |
| VimChannel.LogCommandText | server/gdb_vim/vim_x.py:81 | the `echom` command is a single line whenever the group name is |
| VimChannel.HasModification | server/gdb_vim/vim_x.py:117-125 | an update is needed exactly when the cache does not hold the same lines for the buffer |
| VimChannel.VimX.constructor | server/gdb_vim/vim_x.py:13-19 | the counter starts at -1, with nothing deferred, written or cached |
| VimChannel.VimX.Wait | server/gdb_vim/vim_x.py:21-42 | the wait as written: the new buffer, the remaining input and the result are those of `WaitOutcome`, and nothing else changes |
| VimChannel.VimX.WaitQueued | server/gdb_vim/vim_x.py:21-42 | the wait its docstring describes: result, buffer and remaining input are those of `QueuedWaitOutcome` |
| VimChannel.VimX.Write | server/gdb_vim/vim_x.py:44-48 | one message is appended to the output and nothing else changes |
| VimChannel.VimX.Send | server/gdb_vim/vim_x.py:50-51 | exactly `[0, obj]` is written |
| VimChannel.VimX.Call | server/gdb_vim/vim_x.py:53-61 | corrected, see Findings rows vim_x.py:36-39 and vim_x.py:60-61 (as written: `WaitOutcome`, `SecondItem`): with a reply, the counter moves down by one, the new index ends the message, and the reply's payload is returned; without one, the counter is untouched and nothing is read |
| VimChannel.VimX.Eval | server/gdb_vim/vim_x.py:63-71 | corrected, see Findings row vim_x.py:36-39 (as written: `WaitOutcome`): the same for `['expr', expr]`, returning the whole payload |
| VimChannel.VimX.Command | server/gdb_vim/vim_x.py:73-75 | exactly `['ex', cmd]` is written |
| VimChannel.VimX.Log | server/gdb_vim/vim_x.py:77-81 | corrected, see Findings row vim_x.py:80 (as written: `EscapeAsWritten`): an out-of-range level writes nothing; any other writes one `echom` command in its highlight group |
| VimChannel.VimX.Abspath | server/gdb_vim/vim_x.py:109-111 | corrected, see Findings rows vim_x.py:36-39 and vim_x.py:60-61 (as written: `WaitOutcome`, `SecondItem`): the editor's working directory is asked with a fresh index and joined with the relative path; a non-string answer is an error |
| VimChannel.VimX.UpdateNomaBuffer | server/gdb_vim/vim_x.py:117-128 | the lines are sent, without asking for a reply, unless the cache already holds them; the cache is never modified |
| Buffers.CommandFor | server/gdb_vim/vim_buffers.py:17-24 | a pane has a command exactly when it is in the table, and then it is the table's command |
| Buffers.PaneAt | server/gdb_vim/vim_buffers.py:17-24 | each table entry is found by its name, and the breakpoints pane is the second |
| Buffers.HasPanesStep | server/gdb_vim/vim_buffers.py:137-138 | one more pane with a buffer extends the prefix of panes that have one |
| Buffers.PaneRequests | server/gdb_vim/vim_buffers.py:137-138 | refreshing the panes issues two requests per pane |
| Buffers.PaneRequestsStep | server/gdb_vim/vim_buffers.py:121-131 | one more pane adds its query and then its refill |
| Buffers.PaneRequestsRefill | server/gdb_vim/vim_buffers.py:121-131 | for each pane, the command is queried and the pane refilled with lines that join back to the command's output |
| Buffers.LogLines | server/gdb_vim/vim_buffers.py:50-55 | one line per line feed after CRLF normalisation plus one; every line but the last is prefixed, and the last only when it is not empty |
| Buffers.UnprefixedLogLinesRejoin | server/gdb_vim/vim_buffers.py:50 | without a prefix, the lines join back to the normalised text |
| Buffers.PrefixKeepsLines | server/gdb_vim/vim_buffers.py:51-55 | a prefix never merges or splits lines: each line gains it, except an empty last line |
| Buffers.VisibleAfterPut | server/gdb_vim/vim_buffers.py:87-88 | a new visible sign at a key hides, from the display, the sign it replaces |
| Buffers.VisibleAfterRemove | server/gdb_vim/vim_buffers.py:109-110 | deleting a sign removes exactly its id from the display |
| Buffers.VisibleAfterShow | server/gdb_vim/vim_buffers.py:112-113 | showing a sign adds exactly its id to the display |
| Buffers.PcSignPlaced | server/gdb_vim/vim_buffers.py:81-88 | placing a new program-counter sign keeps the signs well formed; the replaced sign stops being shown |
| Buffers.PcSignFlag | server/gdb_vim/vim_buffers.py:87-88 | only the new sign's flag changes |
| Buffers.PcSignFresh | server/gdb_vim/vim_buffers.py:87-88 | the new sign is shown and newer than the loop's start |
| Buffers.BpSignRemoved | server/gdb_vim/vim_buffers.py:108-110 | deleting a hidden breakpoint sign keeps the maps well formed and removes only its id from the display |
| Buffers.BpSignShown | server/gdb_vim/vim_buffers.py:111-113 | showing a kept breakpoint sign keeps the maps well formed and displays its id |
| Buffers.BpSignPlaced | server/gdb_vim/vim_buffers.py:117-119 | a new breakpoint sign at a free location keeps the maps well formed and adds only its id to the display |
| Buffers.PruningStep | server/gdb_vim/vim_buffers.py:107-114 | one pruning step removes the sign, or keeps and shows it, as the location is wanted or not |
| Buffers.PruningDone | server/gdb_vim/vim_buffers.py:107-114 | after pruning, exactly the old signs at wanted locations remain (none on a hard update), all shown |
| Buffers.RemovedIdsGone | server/gdb_vim/vim_buffers.py:109-110 | the signs deleted are displayed by neither map |
| Buffers.IdsOnGrow | server/gdb_vim/vim_buffers.py:69-70 | hiding one more sign hides exactly its id |
| Buffers.PcLocationsTail | server/gdb_vim/vim_buffers.py:73-80 | the locations of a list are those of its tail plus the first entry's, when its file exists |
| Buffers.PlanPcLocations | server/gdb_vim/vim_buffers.py:73-88 | every location whose file exists gets a sign, and no other location does |
| Buffers.SelectedAtTail | server/gdb_vim/vim_buffers.py:73-88 | a location is selected in a list exactly when it is selected in the tail or by the first entry |
| Buffers.PlanPcSelection | server/gdb_vim/vim_buffers.py:81-88 | a location's sign is flagged selected exactly when some entry there is selected: a selected entry replaces an earlier sign, an unselected duplicate never does |
| Buffers.PcStepJumps | server/gdb_vim/vim_buffers.py:90-92 | one entry adds at most a jump to its own selected location, and never to the location just left |
| Buffers.PlanPcJumps | server/gdb_vim/vim_buffers.py:90-92 | the jumps extend the earlier ones, go only to selected locations, and never twice in a row to the same place |
| Buffers.PlanPcFromScratch | server/gdb_vim/vim_buffers.py:61-92 | from no signs: one sign per existing location, flagged exactly where an entry is selected, and a chain of jumps to selected locations that ends at the current location |
| Buffers.ResolvedBpsMembers | server/gdb_vim/vim_buffers.py:99-104 | a location is wanted exactly when some breakpoint with a non-empty path to an existing file resolves to it |
| Buffers.ResolveBreakpoints | server/gdb_vim/vim_buffers.py:99-104 | the loop collects exactly the wanted locations |
| Buffers.VimBuffers.constructor | server/gdb_vim/vim_buffers.py:26-38 | no panes, no signs, no current location |
| Buffers.VimBuffers.BufCheckInit | server/gdb_vim/vim_buffers.py:40-42 | the pane map is fetched only while it is empty |
| Buffers.VimBuffers.LogsAppend | server/gdb_vim/vim_buffers.py:44-59 | empty text returns 0 and writes nothing; other text writes its lines, scrolls the log pane, and returns the number of line feeds after CRLF normalisation, or fails with KeyError when there is no log pane |
| Buffers.VimBuffers.HidePcSigns | server/gdb_vim/vim_buffers.py:69-70 | every program-counter sign stops being displayed, and only the breakpoint signs remain shown |
| Buffers.VimBuffers.PlacePcSign | server/gdb_vim/vim_buffers.py:87-88 | a new displayed sign with the next id takes the location, is recorded as created there, and only that flag changes |
| Buffers.VimBuffers.PlacePcEntry | server/gdb_vim/vim_buffers.py:73-92 | one entry moves the signs, the current location and the jump requests as `PcStep` says; a jump names the location's buffer and the id of the sign just created at that location |
| Buffers.VimBuffers.JumpTo | server/gdb_vim/vim_buffers.py:90-92 | a `sign_jump` to the given sign in the location's buffer is requested and the location becomes the current one |
| Buffers.VimBuffers.PlacePcEntries | server/gdb_vim/vim_buffers.py:73-92 | the loop moves signs, current location and jumps as `PlanPc` says; each jump request names its location's buffer and the id of a sign created at that location during the loop |
| Buffers.VimBuffers.UpdatePc | server/gdb_vim/vim_buffers.py:61-92 | old signs are hidden and dropped, new ones follow `PlanPc` from scratch, and the requests are its jumps, each `sign_jump` naming a sign created in this call at the jump's location, so the view moves to that line |
| Buffers.VimBuffers.PruneBpSign | server/gdb_vim/vim_buffers.py:107-114 | one sign is deleted, on a hard update or when unwanted, or else shown again |
| Buffers.VimBuffers.PruneBpSigns | server/gdb_vim/vim_buffers.py:107-114 | only the old signs at wanted locations survive (none on a hard update), the others are no longer displayed, and the locations still without a sign are returned |
| Buffers.VimBuffers.PlaceBpSign | server/gdb_vim/vim_buffers.py:118-119 | a new displayed sign with the next id, flagged when a program-counter sign shares its location |
| Buffers.VimBuffers.PlaceBpSigns | server/gdb_vim/vim_buffers.py:117-119 | one new displayed sign per wanted location, flagged exactly when a program-counter sign is there; old signs are untouched |
| Buffers.VimBuffers.UpdateBreakpoints | server/gdb_vim/vim_buffers.py:94-119 | the signs end at exactly the wanted locations, all displayed; without a hard update a kept sign is the same sign; every other sign is new and flagged by the program-counter signs; dropped signs are no longer displayed |
| Buffers.VimBuffers.UpdateBuffer | server/gdb_vim/vim_buffers.py:121-131 | an unknown pane fails before anything is asked; a known pane's command is queried and its buffer refilled with the result's lines, or a missing buffer fails after the query; the breakpoints pane also reconciles the signs softly: they sit at exactly the resolved breakpoints, all displayed, a kept sign unchanged apart from being shown again, a new one flagged exactly when a program-counter sign shares its location |
| Buffers.VimBuffers.RefreshPane | server/gdb_vim/vim_buffers.py:137-138 | one pane's turn of the loop extends the requests as `PaneRequests` says, or stops at the first pane without a buffer |
| Buffers.VimBuffers.RefreshPanes | server/gdb_vim/vim_buffers.py:137-138 | the loop succeeds exactly when every pane has a buffer, and then issues `PaneRequests` over the table and reconciles the breakpoint signs softly as `UpdateBuffer` says; otherwise it fails on the first missing pane |
| Buffers.VimBuffers.Update | server/gdb_vim/vim_buffers.py:133-138 | program-counter signs and jumps first, then every pane in table order; on success the breakpoint signs are reconciled softly against the program-counter signs just placed, as `UpdateBuffer` says |
| Debugger.Refresh | server/gdb_vim/controller.py:102-107 | a refresh is asked for exactly when the gate is down, and at most one |
| Debugger.LastResult | server/gdb_vim/controller.py:161-165 | the last result of a batch is a result of the batch; none means the batch has no result |
| Debugger.LastResultPrepend | server/gdb_vim/controller.py:161-165 | a response before a batch matters only when the batch has no result |
| Debugger.DeliverKeepsLastResult | server/gdb_vim/controller.py:161-168 | after a batch, the slot holds the batch's last result, or its earlier content when the batch has none |
| Debugger.ResultSlot.constructor | server/gdb_vim/controller.py:28 | the mailbox starts empty |
| Debugger.ResultSlot.Replace | server/gdb_vim/controller.py:163-165 | a new result takes the place of any unread one |
| Debugger.ResultSlot.Take | server/gdb_vim/controller.py:142-148 | the unread result is removed and returned, or None when there is none |
| Debugger.DeliverBatch | server/gdb_vim/controller.py:161-168 | the loop over a batch leaves the slot as `Deliver` says |
| Debugger.GateStep | server/gdb_vim/controller.py:50-57 | `busy_more` adds one; `busy_less` takes one away, or clamps at zero |
| Debugger.Repeat | server/gdb_vim/controller.py:50-57 | `k` repetitions of one gate operation |
| Debugger.GateRunAppend | server/gdb_vim/controller.py:50-57 | running two sequences of gate operations is running one after the other |
| Debugger.GateRunMore | server/gdb_vim/controller.py:50-51 | `k` acquisitions raise the gate by `k` |
| Debugger.GateRunLess | server/gdb_vim/controller.py:53-57 | `k` releases lower the gate by `k`, never below zero |
| Debugger.BracketRestoresGate | rplugin/python3/gdb_nvim/session.py:36-42 | balanced bracketing leaves the gate where it was |
| Debugger.GateBoundedByAcquires | server/gdb_vim/controller.py:50-57 | the gate never exceeds its start plus the number of acquisitions, whatever the releases |
| ServerController.Header | server/gdb_vim/controller.py:66-69 | the header starts with `message: …, stream: `, ends with a line feed, and is one line when its fields are |
| ServerController.Controller.constructor | server/gdb_vim/controller.py:18-33 | no GDB handle, the gate at zero, an empty slot |
| ServerController.Controller.DbgStart | server/gdb_vim/controller.py:35-37 | a GDB process is created only when there is none |
| ServerController.Controller.DbgStop | server/gdb_vim/controller.py:42-45 | GDB is asked to exit and the handle dropped; without a handle the call raises and nothing changes |
| ServerController.Controller.IsBusy | server/gdb_vim/controller.py:47-48 | busy exactly when the gate is above zero |
| ServerController.Controller.BusyMore | server/gdb_vim/controller.py:50-51 | the gate goes up by one |
| ServerController.Controller.BusyLess | server/gdb_vim/controller.py:53-57 | the gate goes down by one and an underflow is clamped to zero |
| ServerController.Controller.SerializedText | server/gdb_vim/controller.py:65-75 | the logged text starts with the header and ends with a line feed; it fails exactly when a string payload cannot be unescaped |
| ServerController.Controller.SerializeMijson | server/gdb_vim/controller.py:65-76 | the serialised response is appended to the log with the success mark, or the decoding error escapes with nothing logged |
| ServerController.Controller.UpdateBuffers | server/gdb_vim/controller.py:96-107 | nothing while busy; otherwise all panes, or the one named |
| ServerController.Controller.GetCommandResult | server/gdb_vim/controller.py:133-148 | the command goes to GDB, then the slot's content is taken (None when empty); without a handle it raises |
| ServerController.Controller.Execute | server/gdb_vim/controller.py:78-89 | the echoed command comes first, then the command to GDB, then the result or the error line, and the refresh last |
| ServerController.Controller.Report | server/gdb_vim/controller.py:83-87 | nothing is logged exactly when a result arrived and fails to serialise; otherwise one line-feed-terminated log entry, marked ✓ exactly when a result arrived, and then starting with the serialised header |
| Debugger.Echo | server/gdb_vim/controller.py:82 | the echo line starts with the mark, gives back the command between the mark and the final line feed, and is one line for a command without a line feed |
| ServerController.Controller.Poke | server/gdb_vim/controller.py:150-168 | a batch goes to the slot as `Deliver` says; a timeout processes nothing; any other failure stops GDB |
| PluginController.Timeouts | rplugin/python3/gdb_nvim/controller.py:146-147 | `n` consecutive poll timeouts |
| PluginController.TimeoutsWithinLimitContinue | rplugin/python3/gdb_nvim/controller.py:146-150 | timeouts that keep the count within three hours only raise the count |
| PluginController.WatchdogFires | rplugin/python3/gdb_nvim/controller.py:148-150 | the timeout that takes the count past 3*3600 ends the loop, whatever follows |
| PluginController.ResponsesResetTimeouts | rplugin/python3/gdb_nvim/controller.py:144-145 | a successful poll resets the count, so only consecutive timeouts end the loop |
| PluginController.DeliverAppend | rplugin/python3/gdb_nvim/controller.py:155-159 | delivering two batches is delivering one after the other |
| PluginController.RunningLoopKeepsLastResult | rplugin/python3/gdb_nvim/controller.py:155-159 | corrected, see Findings row controller.py:141-159 (as written: `RunLoopAsWritten`): while the loop runs, the slot holds the last result GDB sent, or its earlier content when there was none |
| PluginController.RunLoopAsWritten | rplugin/python3/gdb_nvim/controller.py:141-159 | as written: a timeout within the limit offers the last polled batch again, and a timeout before any batch ends the loop with UnboundLocalError |
| PluginController.NoTimeoutsAgree | rplugin/python3/gdb_nvim/controller.py:141-159 | without timeouts, the loop as written and the corrected `RunLoop` end alike with the same slot |
| PluginController.FirstTimeoutUnbound | rplugin/python3/gdb_nvim/controller.py:143-155 | as written, a first-round timeout escapes with the slot untouched; the corrected loop only counts it |
| PluginController.RunLoop | rplugin/python3/gdb_nvim/controller.py:141-159 | corrected, see Findings row controller.py:141-159 (as written: `RunLoopAsWritten`): from a count within the limit the watchdog fires exactly when the count passes three hours; the loop stops only when asked to and fails only when GDB crashed in one of the rounds |
| PluginController.StaleResultAfterTake | rplugin/python3/gdb_nvim/controller.py:146-159 | as written, a timeout after the slot was emptied puts the previous batch's last result back; the corrected loop leaves it empty |
| PluginController.Controller.constructor | rplugin/python3/gdb_nvim/controller.py:19-39 | no GDB handle, `ready` clear, the gate at zero, an empty slot |
| PluginController.Controller.DbgRun | rplugin/python3/gdb_nvim/controller.py:41-44 | a GDB process is created and `ready` set only when there is no handle |
| PluginController.Controller.DbgStop | rplugin/python3/gdb_nvim/controller.py:46-48 | `ready` is cleared and GDB interrupted; the handle stays for the loop to drop; without one the interrupt raises |
| PluginController.Controller.IsBusy | rplugin/python3/gdb_nvim/controller.py:50-51 | busy exactly when the gate is above zero |
| PluginController.Controller.BusyMore | rplugin/python3/gdb_nvim/controller.py:53-54 | the gate goes up by one |
| PluginController.Controller.BusyLess | rplugin/python3/gdb_nvim/controller.py:56-60 | the gate goes down by one and an underflow is clamped to zero |
| PluginController.Controller.SerializeMijson | rplugin/python3/gdb_nvim/controller.py:68-69 | `str(result)` and a line feed go to the log with the success mark, whatever the result |
| PluginController.Controller.UpdateBuffers | rplugin/python3/gdb_nvim/controller.py:86-97 | nothing while busy; otherwise all panes, or the one named |
| PluginController.Controller.GetCommandResult | rplugin/python3/gdb_nvim/controller.py:123-138 | the command goes to GDB, then the slot's content is taken (None when empty); without a handle it raises |
| PluginController.Controller.Execute | rplugin/python3/gdb_nvim/controller.py:71-79 | echo, command, the result as it came (None included), then the refresh |
| PluginController.BreakpointRequest | rplugin/python3/gdb_nvim/controller.py:99-101 | the log line holds the buffer name after the mark and a colon, then the line number, which reads back as the line when it is not negative and starts with a minus sign otherwise, then a line feed |
| PluginController.Controller.DoBreakswitch | rplugin/python3/gdb_nvim/controller.py:99-112 | a location that is not a known breakpoint is logged as a breakpoint request; a known one is left alone |
| PluginController.Controller.DbgLoop | rplugin/python3/gdb_nvim/controller.py:140-179 | corrected, see Findings row controller.py:141-159 (as written: `RunLoopAsWritten`): the loop ends as `RunLoop` says and the slot holds what it says; on leaving, GDB exits, the handle is dropped and `ready` cleared |
| Sessions.AddDefault | rplugin/python3/gdb_nvim/session.py:113-115 | a missing section is added last and an existing one stays in place; afterwards the section is there |
| Sessions.AddDefaultsKeys | rplugin/python3/gdb_nvim/session.py:113-115 | after the first loop, every listed section and every section of the file is present |
| Sessions.AddDefaultsAppends | rplugin/python3/gdb_nvim/session.py:113-115 | the file's entries stay in place and only empty listed sections are appended |
| Sessions.SectionCheck | rplugin/python3/gdb_nvim/session.py:117-129 | a section passes exactly when it is one of the three, is an object, and (for `modes`) is not empty |
| Sessions.BadSectionKinds | rplugin/python3/gdb_nvim/session.py:117-129 | validation fails only with ValueError, or the TypeError of `len` on a `modes` value without a length |
| Sessions.FirstBadSectionNone | rplugin/python3/gdb_nvim/session.py:117-129 | validation passes exactly on configurations whose every section passes |
| Sessions.LoadedConfigHasModes | rplugin/python3/gdb_nvim/session.py:113-133 | a validated configuration has all three sections and a first mode to enter |
| Sessions.ConfigModesNonEmpty | rplugin/python3/gdb_nvim/session.py:44-48 | `get_modes` of a validated configuration is not empty |
| Sessions.Executes | rplugin/python3/gdb_nvim/session.py:39 | one `execute` per command, in order |
| Sessions.StringActions | rplugin/python3/gdb_nvim/session.py:37-41 | the string actions are at most the actions |
| Sessions.GateOpsAppend | rplugin/python3/gdb_nvim/session.py:35-42 | the gate operations of two runs of effects are those of one then the other |
| Sessions.GateOpsExecutes | rplugin/python3/gdb_nvim/session.py:39 | executing commands does not touch the gate |
| Sessions.DefaultSessionDefaults | rplugin/python3/gdb_nvim/session.py:148-157 | loading the default session adds only the `breakpoints` section |
| Sessions.DefaultLoadedValid | rplugin/python3/gdb_nvim/session.py:148-157 | the default session passes validation |
| Sessions.DefaultLoadedFirstMode | rplugin/python3/gdb_nvim/session.py:148-157 | its first mode is `code` |
| Sessions.DefaultSessionLoads | rplugin/python3/gdb_nvim/session.py:147-157 | the default session, with `breakpoints` added, validates and enters `code` |
| Sessions.SubCommand | rplugin/python3/gdb_nvim/session.py:206-228 | each of `new`, `reload`, `load` and `show`, and only it, selects its branch |
| Sessions.ReloadIsUnreachableAsWritten | rplugin/python3/gdb_nvim/session.py:210 | as written, `reload` is an invalid sub-command and only `relod` reloads; the two dispatches agree on every other name |
| Sessions.FileKeepsDir | rplugin/python3/gdb_nvim/session.py:104-105 | changing only `@mode` keeps a session file's directory known |
| Sessions.InsertTarget | rplugin/python3/gdb_nvim/session.py:162-167 | inserting the target keeps the configuration's sections |
| Sessions.DefaultModesInsert | rplugin/python3/gdb_nvim/session.py:165-166 | in the default session, `file {target}` goes first in the debug mode's setup |
| Sessions.TargetSessionValid | rplugin/python3/gdb_nvim/session.py:162-167 | the session with the target still passes validation |
| Sessions.DefaultVariablesInsert | rplugin/python3/gdb_nvim/session.py:163-164 | in the default session, `variables.target` is set |
| Sessions.DefaultAssemble | rplugin/python3/gdb_nvim/session.py:162-167 | the two insertions give the session with the target |
| Sessions.InsertTargetDefault | rplugin/python3/gdb_nvim/session.py:162-167 | on the freshly loaded default session the insertion succeeds, with the target variable set and `file {target}` first in the debug setup |
| Sessions.TrimOneSlash | rplugin/python3/gdb_nvim/session.py:95 | a single trailing slash is what `rstrip('/')` removes |
| Sessions.SplitJoinRoundTrip | rplugin/python3/gdb_nvim/session.py:85-106 | splitting a normalised absolute file path and joining the parts gives it back, so `get_confpath` names the file `set_path` was given |
| Sessions.NewFile | rplugin/python3/gdb_nvim/session.py:140-144 | a session file is named only by a truthy answer whose `_file` is a string |
| Sessions.Session.constructor | rplugin/python3/gdb_nvim/session.py:13-23 | no state, no internal variables, help flags as initialised |
| Sessions.Session.NewTarget | rplugin/python3/gdb_nvim/session.py:29-30 | the breakpoint id map starts over |
| Sessions.Session.ActionsRunStrings | rplugin/python3/gdb_nvim/session.py:37-41 | non-string actions are skipped; with a GDB handle the string actions run in order, each formatted, until the first one whose formatting raises; without one only the first runs, and its `execute` raises AttributeError unless its formatting raised first |
| Sessions.Session.ActionsRunStops | rplugin/python3/gdb_nvim/session.py:37-41 | once an action has raised, the later ones change nothing |
| Sessions.Session.ActionEffectsGate | rplugin/python3/gdb_nvim/session.py:35-42 | a run that completes leaves the gate where it was; a run that raises, in formatting or in `execute` without a GDB handle, leaves it raised by one |
| Sessions.Session.RunItems | rplugin/python3/gdb_nvim/session.py:37-41 | the loop executes what `ActionsRun` says and returns its error, including the AttributeError of `execute` (rplugin/python3/gdb_nvim/controller.py:130) without a GDB handle |
| Sessions.Session.RunActions | rplugin/python3/gdb_nvim/session.py:35-42 | the effects and the error are those of `ActionEffects`: the gate raised, the commands executed, the gate released only when no formatting or `execute` raised |
| Sessions.Session.RunHook | rplugin/python3/gdb_nvim/session.py:60-61 | a mode's hook runs as `HookEffects` says, raising as its actions do, with or without a GDB handle |
| Sessions.Session.Teardown | rplugin/python3/gdb_nvim/session.py:73-83 | tearing down changes no internal variable but `@mode` |
| Sessions.Session.Enter | rplugin/python3/gdb_nvim/session.py:56-62 | entering sets `@mode` to the mode and changes nothing else internal |
| Sessions.Session.Setup | rplugin/python3/gdb_nvim/session.py:50-62 | mode setup changes no internal variable but `@mode` |
| Sessions.Session.SetupEntersMode | rplugin/python3/gdb_nvim/session.py:50-62 | a declared mode becomes current once the old one tears down, even if its own setup fails; the debugger starts for exactly the `debug*` modes; a teardown that raises (its actions, or `dbg_stop` without a GDB handle) leaves the new mode unentered with the teardown's error |
| Sessions.Session.HookNeverRuns | rplugin/python3/gdb_nvim/session.py:35-42 | running actions never starts or stops the debugger |
| Sessions.Session.TeardownNeedsHandle | rplugin/python3/gdb_nvim/session.py:73-83 | without a GDB handle a live debug mode cannot be torn down: a teardown action raises and `@mode` stays, or `dbg_stop` raises AttributeError after `@mode` was removed |
| Sessions.Session.ModeTeardown | rplugin/python3/gdb_nvim/session.py:73-83 | effects and internal variables as `Teardown` says; returns whether the session was alive, or the error its actions raised, or the AttributeError of `dbg_stop` (rplugin/python3/gdb_nvim/controller.py:48) without a GDB handle once `@mode` is gone |
| Sessions.Session.StartDebugMode | rplugin/python3/gdb_nvim/session.py:58-62 | debugger started, `setup` actions run, buffers refreshed when they all ran |
| Sessions.Session.EnterMode | rplugin/python3/gdb_nvim/session.py:56-62 | effects and internal variables as `Enter` says |
| Sessions.Session.ModeSetup | rplugin/python3/gdb_nvim/session.py:50-62 | effects and internal variables as `Setup` says |
| Sessions.Session.GetConfpath | rplugin/python3/gdb_nvim/session.py:85-89 | a session file path exactly when the session is alive |
| Sessions.Session.SetPath | rplugin/python3/gdb_nvim/session.py:94-106 | succeeds exactly when the file part is not empty and `chdir` works, and then sets `@dir` and `@file`; otherwise the internal variables are unchanged and the error is logged |
| Sessions.Session.SecondTeardownIdle | rplugin/python3/gdb_nvim/session.py:131-133 | the teardown inside `mode_setup` right after the one in `parse_and_load` does nothing |
| Sessions.Session.Install | rplugin/python3/gdb_nvim/session.py:131-133 | installing changes no internal variable but `@mode` |
| Sessions.Session.Load | rplugin/python3/gdb_nvim/session.py:108-133 | loading changes no internal variable but `@mode` |
| Sessions.Session.LoadRejects | rplugin/python3/gdb_nvim/session.py:109-129 | a rejected file changes neither state nor internal variables and asks nothing of the editor or the controller; the error is that of the first failing check |
| Sessions.Session.LoadEntersFirstMode | rplugin/python3/gdb_nvim/session.py:131-133 | when the old mode tears down, an accepted file, with its defaults, becomes the state, and its first declared mode becomes current; when the teardown raises, the old state stays with the teardown's outcome |
| Sessions.Session.CheckSections | rplugin/python3/gdb_nvim/session.py:117-129 | the loop reports the first failing section in file order |
| Sessions.Session.AddMissingSections | rplugin/python3/gdb_nvim/session.py:113-115 | the loop adds the missing sections as `AddDefaults` says |
| Sessions.Session.InstallConfig | rplugin/python3/gdb_nvim/session.py:131-133 | state, effects and internal variables as `Install` says |
| Sessions.Session.SwitchTo | rplugin/python3/gdb_nvim/session.py:132-133 | the configuration becomes the state and its first mode is set up |
| Sessions.Session.ParseAndLoad | rplugin/python3/gdb_nvim/session.py:108-133 | state, effects and internal variables as `Load` says |
| Sessions.Session.LoadDefaultSession | rplugin/python3/gdb_nvim/session.py:147-160 | loading the default session succeeds exactly when the old mode tears down, which a debug mode cannot do without a GDB handle, and then enters `code` |
| Sessions.Session.InstallTarget | rplugin/python3/gdb_nvim/session.py:162-166 | the default session becomes the session with the target |
| Sessions.Session.AddTarget | rplugin/python3/gdb_nvim/session.py:162-167 | no target leaves the session; a target sets the variable to its path relative to the session directory, puts `file {target}` first, and sets the help flag |
| Sessions.Session.ParseDefaultSession | rplugin/python3/gdb_nvim/session.py:147-160 | the default session is loaded exactly when the old mode tears down (given whether the controller holds a GDB handle), and `code` is entered |
| Sessions.Session.LoadNewSession | rplugin/python3/gdb_nvim/session.py:147-167 | the default session, with the target if one was given, in its `code` mode |
| Sessions.Session.Named | rplugin/python3/gdb_nvim/session.py:144 | `@dir` is the directory of the new session file |
| Sessions.Session.CreateSession | rplugin/python3/gdb_nvim/session.py:140-169 | no answer only logs the skip; a usable answer creates the session |
| Sessions.Session.HandleNew | rplugin/python3/gdb_nvim/session.py:135-169 | a declined prompt changes nothing; no answer only logs the skip; a usable answer creates the session in `code` mode |
| Sessions.Session.LoadDecoded | rplugin/python3/gdb_nvim/session.py:176-183 | the `try`/`else` of loading a decoded file |
| Sessions.Session.ReportLoadError | rplugin/python3/gdb_nvim/session.py:179-180 | ValueError and IOError are logged; any other error escapes |
| Sessions.Session.FinishLoad | rplugin/python3/gdb_nvim/session.py:181-183 | `set_path`, then the report is the last log |
| Sessions.Session.LoadSessionFile | rplugin/python3/gdb_nvim/session.py:176-183 | a file that cannot be read or decoded is reported; otherwise it goes through `parse_and_load` |
| Sessions.Session.FileRejected | rplugin/python3/gdb_nvim/session.py:176-180 | a rejected file leaves the session as it was and is reported; only the TypeError of a `modes` without a length escapes |
| Sessions.Session.FileLoadedAlive | rplugin/python3/gdb_nvim/session.py:171-183 | a file that loads without error from a reachable directory, which includes the old mode's teardown with or without a GDB handle, leaves a live session in its first mode, named by that file |
| Sessions.Session.FileParsed | rplugin/python3/gdb_nvim/session.py:176-178 | a decoded file goes through `parse_and_load` |
| Sessions.Session.ParsedLoads | rplugin/python3/gdb_nvim/session.py:181-182 | after an error-free load, a successful `set_path` names the file |
| Sessions.Session.HandleLoad | rplugin/python3/gdb_nvim/session.py:171-183 | a declined prompt changes nothing; `None` raises TypeError; otherwise the file is loaded |
| Sessions.Session.HandleShow | rplugin/python3/gdb_nvim/session.py:185-204 | a live session is shown and the reload hint given once after a target was inserted; otherwise "No active session." |
| Sessions.Session.Handle | rplugin/python3/gdb_nvim/session.py:206-228 | corrected, see Findings row session.py:210 (as written: `SubCommandAsWritten`): an unknown sub-command is reported; `reload` without a session file, or with arguments, only logs; `load` without arguments first asks for the session file |
| ContentHelper.PcSourceLoc | rplugin/python/lldb_nvim/content_helper.py:4-18 | the place of the first frame, outwards from the selected one, with a valid line entry; None exactly when there is none |
| ContentHelper.ResolvedLocationsMembers | rplugin/python/lldb_nvim/content_helper.py:26-29 | a place is listed exactly when some location with a non-empty file and a positive line resolved to it |
| ContentHelper.BplocTuples | rplugin/python/lldb_nvim/content_helper.py:21-30 | nothing for an invalid breakpoint, else the kept locations in order |
| ContentHelper.ProcessStat | rplugin/python/lldb_nvim/content_helper.py:32-48 | the two "does not exist" texts; the status is empty exactly when the process exists and is stopped; otherwise it gives the description and exit status |
| ContentHelper.SelectedFrame | rplugin/python/lldb_nvim/content_helper.py:50-59 | a frame exactly when the selected thread and its selected frame are valid |
| ContentHelper.FormatVariable | rplugin/python/lldb_nvim/content_helper.py:61-80 | at least one line, the first being `(Type) Name = Value` after the indentation |
| ContentHelper.FormatAll | rplugin/python/lldb_nvim/content_helper.py:74-76 | at least one line per variable |
| ContentHelper.FormatVariableCount | rplugin/python/lldb_nvim/content_helper.py:61-80 | a variable gives at most one line per node of its tree, and exactly one per node when the tree fits under the depth cap from its indentation |
| ContentHelper.FormatAllCount | rplugin/python/lldb_nvim/content_helper.py:74-76 | the same for a list of variables: at most the total size of their trees, exactly that when they fit under the cap |
| ContentHelper.LeadingSpacesOf | rplugin/python/lldb_nvim/content_helper.py:77 | a header line starts with exactly its indentation |
| ContentHelper.FormatVariableIndent | rplugin/python/lldb_nvim/content_helper.py:65-76 | every line is indented at least as deep as the variable and at most one past the cap |
| ContentHelper.FormatAllIndent | rplugin/python/lldb_nvim/content_helper.py:74-76 | the same for a list of variables |
| ContentHelper.FormatAllHeaders | rplugin/python/lldb_nvim/content_helper.py:74-76 | each variable's own line is among the lines |
| ContentHelper.LocalsContentCases | rplugin/python/lldb_nvim/content_helper.py:82-96 | the status alone when there is one, the no-frame text without a frame, else every local's line, none indented past the cap |
| ContentHelper.LocalsContent | rplugin/python/lldb_nvim/content_helper.py:82-96 | the locals pane is empty exactly when the process is stopped and its selected frame has no variables |
| ContentHelper.FormatRegisterValue | rplugin/python/lldb_nvim/content_helper.py:98-104 | `name = ` first; `name = ...` without a value; the value stripped of surrounding whitespace |
| ContentHelper.FormatRegister | rplugin/python/lldb_nvim/content_helper.py:98-104 | the line starts with the register's name followed by ` = ` |
| ContentHelper.FormatRegisters | rplugin/python/lldb_nvim/content_helper.py:119-120 | one line per register |
| ContentHelper.FormatRegistersStep | rplugin/python/lldb_nvim/content_helper.py:119-120 | one more register adds its line last |
| ContentHelper.RegisterLinesLast | rplugin/python/lldb_nvim/content_helper.py:116-120 | one more set adds its heading and its registers' lines |
| ContentHelper.RegisterLinesCount | rplugin/python/lldb_nvim/content_helper.py:116-120 | one heading per register set and one line per register |
| ContentHelper.RegistersContent | rplugin/python/lldb_nvim/content_helper.py:106-122 | the status alone when there is one, the no-frame text without a frame, else each set's heading and registers |
| ContentHelper.RegisterSetLines | rplugin/python/lldb_nvim/content_helper.py:115-122 | the loops produce `RegisterLines` of the frame's sets |
| ContentHelper.AppendRegisterSet | rplugin/python/lldb_nvim/content_helper.py:118-120 | one set's heading, then its registers, after what came before |

## Left out

- JSON encoding and decoding (`json.loads`, `json.dumps`, the `OrderedDict` decoder): messages and session files are already-decoded `Json` values, and a file that cannot be read or decoded is an error text in `Answers.file`.
- Stream I/O, `print` to stderr and logging: `logs_append` records its lines in `printed`, and the logger calls are dropped.
- Threads, `Event.wait`, the blocking 3-second `Queue.get`, `SIGINT` delivery and pygdbmi's `GdbController`: handles are numbers, a poll is a `Poll` value, and the timeout is an empty slot giving None.
- `str.format` in `Session.format`, `unicode_escape` decoding and `str` of a response are functions given to the classes (`format`, `unicodeEscape`, `pyStr`, `pyRepr`). Their results are not modelled.
- `os.path.abspath`, `relpath` and `chdir` are given: `abspath` and `relpath` as functions, and the `chdir` outcome as a parameter. `posixpath.split` and `join` are modelled in `Text`.
- `vimx.buffer_add` and `path.exists` in `update_pc` and `update_breakpoints`: the `files` map gives the buffer of every existing file.
- `get_program_counters` and `get_breakpoints` are input lists. The controllers' own versions return `[]`.
- The controllers' `update_buffers` records the refresh as an effect and does not call into `VimBuffers`, which is modelled on its own.
- The sleep and the interactive launch prompt at the end of `mode_setup` (session.py:63-71), together with `help_flags["launch_prompt"]`: these depend on a timed user prompt.
- `handle_show`'s buffer creation and pretty-printed JSON dump are one `ShowSession` effect.
- `BPSign` and `PCSign` are `Sign` records holding an id, a location, a flag and a hidden bit. The editor's sign display is the set `shown`.
- The LLDB objects are datatypes. `GetTypeName` and `GetName` are taken to return strings.
- `update_pc`, `update_breakpoints` and `update` iterate over dictionaries and sets. The model fixes an order only where the source's order is defined: list order for the entries, table order for the panes.
- `VimBuffers.update_buffer`'s `str(result)` is the text `resultText` (or `results[i]`).
- `dbg_interrupt`, `put_stdin`, `complete_command`, `do_breakdelete`, and the server's `bp_set_line` and `do_breakswitch` are outside the modelled core. The server's `do_breakswitch` is the same code as the plugin's, which is modelled.
- `VimX.buffer_add`, `buffer_scroll_bottom`, `sign_place`, `sign_unplace`, `sign_jump`, `get_buffer_name` and `init_buffers` are not separate members. In `VimBuffers`, the scroll and the jump are `requests`, placing and hiding a sign change the displayed set `shown`, and the pane map `init_buffers` answers is the `initial` parameter.
- Text.Strip: states only that no whitespace is left at either end. That the whitespace removed is exactly the leading and trailing run is stated by `TrimStart` and `TrimEnd`, which it composes.
- Sessions.Session.Handle: states the branches that only log or raise, and the first request of `load` without arguments. The `new`, `load` and `reload` branches are stated by `HandleNew` and `HandleLoad`, which it calls.
- Sessions.Session.CreateSession: states the skipped answer and the full creation. When `set_path` fails, the old mode's teardown raises (a failing action, or `execute` or `dbg_stop` without a GDB handle), or the target is not a string, it states only that the session stays valid.
- Sessions.Session.HandleNew: the same partial cases as `CreateSession`.
- Sessions.Session.LoadNewSession: states only the case where the teardown succeeds and the target is usable.
- VimChannel.VimX.Wait: models one round of the read loop. As written, no second round can start, since the deferral branch is dead (`VerdictAsWritten`).

## Findings

| source | as written | input that shows it | evidently intended | confidence | as-written member | corrected member |
|---|---|---|---|---|---|---|
| server/gdb_vim/vim_x.py:36-39 | with `expect < 0`, every index other than `expect` raises, positive ones included, so the queueing branch (and the `self.pop()` of line 31, which has no such method) is dead | `wait(-2)` reading `[3, "stop"]` then `[-2, 7]` raises ValueError and leaves the reply unread | positive envelopes are set aside, front-inserted into `buffer` and later popped from its end (FIFO), while the awaited reply is returned | not executed | VimChannel.InterleavedNotificationRejected | VimChannel.QueuedReplyRoundTrip |
| server/gdb_vim/vim_x.py:60-61 | `call` returns `re[1]` of what `wait` returns, but `wait` has already stripped the index | a `bufnr` reply of `5` raises TypeError; a `getcwd` reply `"/home"` gives `"h"` | return the reply's payload | not executed | VimChannel.CallResultIndexedAsWritten | VimChannel.VimX.Call |
| server/gdb_vim/vim_x.py:80 | `log` escapes `"` and newlines but not backslashes | the message `x\` makes `echom "x\"` take the closing quote as an escaped quote, leaving the literal unterminated | double backslashes too, so the editor reads back the message exactly | not executed | VimChannel.TrailingBackslashBreaksEcho | VimChannel.EchoEscapeRoundTrip |
| rplugin/python3/gdb_nvim/controller.py:141-159 | `responses` is assigned only by a successful poll and is read after every timeout within the limit | a batch holding result R, then `get_command_result` takes R, then one timeout: the loop offers the same batch again, R is back in the slot, and the next command receives R. A timeout in the very first round raises UnboundLocalError, which skips lines 176-178, so GDB is not told to exit, `_dbg` and `_ready` stay set, and the loop's thread ends | a timeout processes no responses | not executed | PluginController.StaleResultAfterTake | PluginController.RunningLoopKeepsLastResult |
| rplugin/python3/gdb_nvim/session.py:210 | the reload branch tests for `relod` | `:GGsession reload`, the command the hint at line 201 tells the user to run, answers "Invalid sub-command: reload" | the branch answers to `reload` | not executed | Sessions.ReloadIsUnreachableAsWritten | Sessions.SubCommand |
