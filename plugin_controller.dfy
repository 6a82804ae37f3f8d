/** The controller of the Neovim plugin (rplugin/python3/gdb_nvim/controller.py).  Its
    GDB handle is served by a polling loop that runs while the `ready` event is set;
    the loop counts consecutive poll timeouts and gives up after three hours of them.
    Effects on GDB and on the buffers are recorded in `trace`. */
module PluginController {
  import opened Wrappers
  import opened Values
  import opened Debugger
  import Text

  datatype ControllerError = NoDebugger   // AttributeError: the handle is None

  /** Consecutive one-second poll timeouts tolerated by the loop: three hours. */
  const Limit: nat := 3 * 3600

  /** What the polling loop observes on one round: a poll of GDB, or the `ready`
      event cleared by `dbg_stop` from the editor's side. */
  datatype Tick = Polled(poll: Poll) | StopRequested

  /** How the loop ended: it is still running when the observed rounds run out. */
  datatype LoopEnd = StillRunning | Stopped | Watchdog | Failed

  datatype LoopState = LoopState(end: LoopEnd, slot: Option<Response>, toCount: nat)

  /** The rounds of `_dbg_loop` from a timeout count and slot content. The loop stops
      only when asked to, when GDB fails, or on the watchdog, which fires exactly when
      the count of consecutive timeouts passes the limit. */
  function RunLoop(ticks: seq<Tick>, toCount: nat, slot: Option<Response>): (r: LoopState)
    ensures toCount <= Limit ==> r.toCount <= Limit + 1 && (r.end == Watchdog <==> r.toCount > Limit)
    ensures r.end == Stopped ==> StopRequested in ticks
    ensures r.end == Failed ==> Polled(Crashed) in ticks
    ensures r.end == StillRunning ==> StopRequested !in ticks && Polled(Crashed) !in ticks
    decreases |ticks|
  {
    if ticks == [] then LoopState(StillRunning, slot, toCount)
    else match ticks[0]
      case StopRequested => LoopState(Stopped, slot, toCount)
      case Polled(Responses(batch)) => RunLoop(ticks[1..], 0, Deliver(slot, batch))
      case Polled(NoResponse) =>
        if toCount + 1 > Limit then LoopState(Watchdog, slot, toCount + 1)
        else RunLoop(ticks[1..], toCount + 1, slot)
      case Polled(Crashed) => LoopState(Failed, slot, toCount)
  }

  function Timeouts(n: nat): (ts: seq<Tick>)
    ensures |ts| == n && forall k :: 0 <= k < n ==> ts[k] == Polled(NoResponse)
  {
    if n == 0 then [] else [Polled(NoResponse)] + Timeouts(n - 1)
  }

  /** Timeouts that keep the count within the limit only raise the count. */
  lemma {:induction false} TimeoutsWithinLimitContinue(n: nat, c: nat, rest: seq<Tick>, slot: Option<Response>)
    requires c + n <= Limit
    ensures RunLoop(Timeouts(n) + rest, c, slot) == RunLoop(rest, c + n, slot)
    decreases n
  {
    if n == 0 {
      assert Timeouts(n) + rest == rest;
    } else {
      var ticks := Timeouts(n) + rest;
      assert ticks[0] == Polled(NoResponse);
      assert ticks[1..] == Timeouts(n - 1) + rest;
      TimeoutsWithinLimitContinue(n - 1, c + 1, rest, slot);
    }
  }

  /** The timeout that takes the count past the limit ends the loop, whatever follows. */
  lemma WatchdogFires(c: nat, rest: seq<Tick>, slot: Option<Response>)
    requires c <= Limit
    ensures RunLoop(Timeouts(Limit + 1 - c) + rest, c, slot) == LoopState(Watchdog, slot, Limit + 1)
  {
    var n := Limit - c;
    assert Timeouts(n + 1) + rest == Timeouts(n) + ([Polled(NoResponse)] + rest) by {
      assert Timeouts(n + 1) == Timeouts(n) + [Polled(NoResponse)];
    }
    TimeoutsWithinLimitContinue(n, c, [Polled(NoResponse)] + rest, slot);
  }

  /** Only consecutive timeouts count: a poll with responses resets the count, so the
      limit may be reached on either side of it without ending the loop. */
  lemma ResponsesResetTimeouts(batch: seq<Response>, rest: seq<Tick>, slot: Option<Response>)
    ensures RunLoop(Timeouts(Limit) + [Polled(Responses(batch))] + Timeouts(Limit) + rest, 0, slot)
         == RunLoop(rest, Limit, Deliver(slot, batch))
  {
    var tail := [Polled(Responses(batch))] + (Timeouts(Limit) + rest);
    assert Timeouts(Limit) + [Polled(Responses(batch))] + Timeouts(Limit) + rest == Timeouts(Limit) + tail;
    TimeoutsWithinLimitContinue(Limit, 0, tail, slot);
    assert tail[1..] == Timeouts(Limit) + rest;
    TimeoutsWithinLimitContinue(Limit, 0, rest, Deliver(slot, batch));
  }

  /** All responses delivered by the polls of a run, in order. */
  function Delivered(ticks: seq<Tick>): seq<Response>
    decreases |ticks|
  {
    if ticks == [] then []
    else (if ticks[0].Polled? && ticks[0].poll.Responses? then ticks[0].poll.batch else []) + Delivered(ticks[1..])
  }

  lemma {:induction false} DeliverAppend(slot: Option<Response>, a: seq<Response>, b: seq<Response>)
    ensures Deliver(slot, a + b) == Deliver(Deliver(slot, a), b)
    decreases |a|
  {
    if a == [] {
      assert a + b == b;
    } else {
      assert (a + b)[0] == a[0];
      assert (a + b)[1..] == a[1..] + b;
      DeliverAppend(Offer(slot, a[0]), a[1..], b);
    }
  }

  /** While the loop runs, the slot holds the last result GDB sent during the run, or
      its earlier content when GDB sent no result: the queue never holds two. */
  lemma {:induction false} RunningLoopKeepsLastResult(ticks: seq<Tick>, c: nat, slot: Option<Response>)
    requires RunLoop(ticks, c, slot).end == StillRunning
    ensures RunLoop(ticks, c, slot).slot == Deliver(slot, Delivered(ticks))
    decreases |ticks|
  {
    if ticks != [] {
      match ticks[0]
      case Polled(Responses(batch)) =>
        RunningLoopKeepsLastResult(ticks[1..], 0, Deliver(slot, batch));
        DeliverAppend(slot, batch, Delivered(ticks[1..]));
      case Polled(NoResponse) =>
        RunningLoopKeepsLastResult(ticks[1..], c + 1, slot);
        assert Delivered(ticks) == Delivered(ticks[1..]);
    }
  }

  /** How `_dbg_loop` as written leaves the rounds it observes: as `RunLoop` does
      (`Ran`), or by the UnboundLocalError of a timeout before any batch arrived
      (`Unbound`).  That error escapes before GDB is told to exit, the handle dropped
      or `ready` cleared, and ends the loop's thread. */
  datatype AsWrittenEnd = Ran(state: LoopState) | Unbound(slot: Option<Response>)

  /** `_dbg_loop` as written: `responses` keeps the batch of the last successful poll
      (`last`), so a timeout within the limit offers that batch to the slot again, and a
      timeout before any batch reads an unbound name. */
  function RunLoopAsWritten(ticks: seq<Tick>, toCount: nat, slot: Option<Response>, last: Option<seq<Response>>): AsWrittenEnd
    decreases |ticks|
  {
    if ticks == [] then Ran(LoopState(StillRunning, slot, toCount))
    else match ticks[0]
      case StopRequested => Ran(LoopState(Stopped, slot, toCount))
      case Polled(Responses(batch)) => RunLoopAsWritten(ticks[1..], 0, Deliver(slot, batch), Some(batch))
      case Polled(NoResponse) =>
        if toCount + 1 > Limit then Ran(LoopState(Watchdog, slot, toCount + 1))
        else if last.None? then Unbound(slot)
        else RunLoopAsWritten(ticks[1..], toCount + 1, Deliver(slot, last.value), last)
      case Polled(Crashed) => Ran(LoopState(Failed, slot, toCount))
  }

  /** Without timeouts the loop as written and the corrected one agree. */
  lemma {:induction false} NoTimeoutsAgree(ticks: seq<Tick>, c: nat, slot: Option<Response>, last: Option<seq<Response>>)
    requires forall k :: 0 <= k < |ticks| ==> ticks[k] != Polled(NoResponse)
    ensures RunLoopAsWritten(ticks, c, slot, last) == Ran(RunLoop(ticks, c, slot))
    decreases |ticks|
  {
    if ticks != [] {
      assert ticks[0] != Polled(NoResponse);
      forall k | 0 <= k < |ticks| - 1 ensures ticks[1..][k] != Polled(NoResponse) {
        assert ticks[1..][k] == ticks[k + 1];
      }
      match ticks[0]
      case Polled(Responses(batch)) =>
        NoTimeoutsAgree(ticks[1..], 0, Deliver(slot, batch), Some(batch));
      case _ =>
    }
  }

  /** A timeout before any batch: as written the loop dies with the slot untouched and
      without its cleanup, where the corrected loop only counts the timeout. */
  lemma FirstTimeoutUnbound(rest: seq<Tick>, slot: Option<Response>)
    ensures RunLoopAsWritten([Polled(NoResponse)] + rest, 0, slot, None) == Unbound(slot)
    ensures RunLoop([Polled(NoResponse)] + rest, 0, slot) == RunLoop(rest, 1, slot)
  {
    assert ([Polled(NoResponse)] + rest)[1..] == rest;
  }

  /** As written, once `get_command_result` has emptied the slot, a timeout puts the
      previous batch's last result back, so the next command receives the result of
      the one before it; the corrected loop leaves the slot empty. */
  lemma StaleResultAfterTake(batch: seq<Response>, c: nat)
    requires c < Limit && LastResult(batch).Some?
    ensures RunLoopAsWritten([Polled(NoResponse)], c, None, Some(batch))
         == Ran(LoopState(StillRunning, LastResult(batch), c + 1))
    ensures RunLoop([Polled(NoResponse)], c, None) == LoopState(StillRunning, None, c + 1)
  {
    DeliverKeepsLastResult(None, batch);
  }

  /** The mark `bp_set_line` puts before a breakpoint request. */
  const BpMark: string := "→(gdb-bp) "

  /** The log line `bp_set_line` writes for a breakpoint request: the buffer name after
      the mark and a colon, then the line number, which reads back as the line for a
      non-negative line and starts with a minus sign otherwise. */
  function BreakpointRequest(bufName: string, line: int): (e: Effect)
    ensures e.LogsAppend? && e.prefix.None?
    ensures Text.StartsWith(e.text, BpMark + bufName + ":")
    ensures |e.text| > |BpMark + bufName + ":"| + 1 && e.text[|e.text| - 1] == '\n'
    ensures var number := e.text[|BpMark + bufName + ":"|..|e.text| - 1];
      && (line < 0 <==> number[0] == '-')
      && (line >= 0 ==> (forall i :: 0 <= i < |number| ==> Text.IsDigit(number[i]))
                        && Text.DecimalValue(number) == line)
  {
    var head := BpMark + bufName + ":";
    var number := Text.IntToString(line);
    var text := head + number + "\n";
    assert text[..|head|] == head;
    assert text[|head|..|text| - 1] == number;
    if line >= 0 then
      Text.DecimalRoundTrip(line);
      LogsAppend(text, None)
    else
      LogsAppend(text, None)
  }

  class Controller {
    /** `str(result)` of the result `execute` got (None prints as `None`). */
    const pyRepr: Option<Response> -> string
    /** `self.result_queue`. */
    const resultQueue: ResultSlot

    /** `self._dbg`: the handle of the GDB process, if any. */
    var dbg: Option<nat>
    /** Number of GDB processes created so far; handles are numbered from 0. */
    var spawned: nat
    /** Whether the `_ready` event is set. */
    var ready: bool
    var busyStack: int
    var trace: seq<Effect>

    ghost predicate Valid()
      reads this
    {
      && busyStack >= 0
      && (dbg.Some? ==> dbg.value < spawned)
      && (ready ==> dbg.Some?)
    }

    constructor (pyRepr: Option<Response> -> string)
      ensures Valid()
      ensures this.pyRepr == pyRepr
      ensures dbg == None && spawned == 0 && !ready && busyStack == 0 && trace == []
      ensures fresh(resultQueue) && resultQueue.content == None
    {
      this.pyRepr := pyRepr;
      resultQueue := new ResultSlot();
      dbg := None;
      spawned := 0;
      ready := false;
      busyStack := 0;
      trace := [];
    }

    /** `dbg_run`: a GDB process is created, and the loop released, only when there is
        no handle. */
    method DbgRun()
      requires Valid()
      modifies this
      ensures Valid()
      ensures old(dbg).Some? ==>
        dbg == old(dbg) && ready == old(ready) && spawned == old(spawned) && trace == old(trace)
      ensures old(dbg).None? ==>
        && dbg == Some(old(spawned)) && ready && spawned == old(spawned) + 1
        && trace == old(trace) + [GdbSpawn(old(spawned))]
      ensures busyStack == old(busyStack)
    {
      if dbg.None? {
        dbg := Some(spawned);
        trace := trace + [GdbSpawn(spawned)];
        spawned := spawned + 1;
        ready := true;
      }
    }

    /** `dbg_stop`: the loop is told to stop and GDB is interrupted; the handle itself
        is dropped by the loop.  Without a handle the interrupt raises. */
    method DbgStop() returns (r: Result<(), ControllerError>)
      requires Valid()
      modifies this
      ensures Valid()
      ensures !ready && dbg == old(dbg)
      ensures old(dbg).None? ==> r == Failure(NoDebugger) && trace == old(trace)
      ensures old(dbg).Some? ==> r == Success(()) && trace == old(trace) + [GdbInterrupt(old(dbg).value)]
      ensures spawned == old(spawned) && busyStack == old(busyStack)
    {
      ready := false;
      if dbg.None? {
        return Failure(NoDebugger);
      }
      trace := trace + [GdbInterrupt(dbg.value)];
      r := Success(());
    }

    method IsBusy() returns (busy: bool)
      ensures busy <==> busyStack > 0
    {
      busy := busyStack > 0;
    }

    method BusyMore()
      requires Valid()
      modifies this
      ensures Valid()
      ensures busyStack == GateStep(old(busyStack), More)
      ensures dbg == old(dbg) && ready == old(ready) && spawned == old(spawned) && trace == old(trace)
    {
      busyStack := busyStack + 1;
    }

    /** `busy_less`: an underflow is clamped back to zero. */
    method BusyLess()
      requires Valid()
      modifies this
      ensures Valid()
      ensures busyStack == GateStep(old(busyStack), Less)
      ensures dbg == old(dbg) && ready == old(ready) && spawned == old(spawned) && trace == old(trace)
    {
      busyStack := busyStack - 1;
      if busyStack < 0 {
        busyStack := 0;
      }
    }

    /** `serialize_mijson(result)`: `str(result)` and a newline, marked as a success
        whatever the result was. */
    method SerializeMijson(result: Option<Response>)
      modifies this
      ensures trace == old(trace) + [LogsAppend(pyRepr(result) + "\n", Some("✓"))]
      ensures dbg == old(dbg) && ready == old(ready) && spawned == old(spawned) && busyStack == old(busyStack)
    {
      trace := trace + [LogsAppend(pyRepr(result) + "\n", Some("✓"))];
    }

    /** `update_buffers(buf)`: nothing while busy. */
    method UpdateBuffers(buf: Option<string>)
      modifies this
      ensures trace == old(trace) + Refresh(busyStack, buf)
      ensures dbg == old(dbg) && ready == old(ready) && spawned == old(spawned) && busyStack == old(busyStack)
    {
      var busy := IsBusy();
      if busy {
        return;
      }
      if buf.None? {
        trace := trace + [RefreshAll];
      } else {
        trace := trace + [RefreshBuffer(buf.value)];
      }
    }

    /** `get_command_result`: writes the command, then takes what the slot holds;
        an empty slot is the timeout and gives None. */
    method GetCommandResult(command: string) returns (r: Result<Option<Response>, ControllerError>)
      modifies this, resultQueue
      ensures old(dbg).None? ==>
        r == Failure(NoDebugger) && trace == old(trace) && resultQueue.content == old(resultQueue.content)
      ensures old(dbg).Some? ==>
        && r == Success(old(resultQueue.content)) && resultQueue.content == None
        && trace == old(trace) + [GdbWrite(old(dbg).value, command)]
      ensures dbg == old(dbg) && ready == old(ready) && spawned == old(spawned) && busyStack == old(busyStack)
    {
      if dbg.None? {
        return Failure(NoDebugger);
      }
      trace := trace + [GdbWrite(dbg.value, command)];
      var result := resultQueue.Take();
      r := Success(result);
    }

    /** `execute(command)`: echo, the command to GDB, the result as it came (None
        included), then the refresh. */
    method Execute(command: string) returns (r: Result<(), ControllerError>)
      requires Valid()
      modifies this, resultQueue
      ensures Valid()
      ensures old(dbg).None? ==>
        && r == Failure(NoDebugger) && trace == old(trace) + [Echo(command)]
        && resultQueue.content == old(resultQueue.content)
      ensures old(dbg).Some? ==>
        && r == Success(()) && resultQueue.content == None
        && trace == old(trace)
             + [Echo(command), GdbWrite(old(dbg).value, command)]
             + [LogsAppend(pyRepr(old(resultQueue.content)) + "\n", Some("✓"))]
             + Refresh(busyStack, None)
      ensures dbg == old(dbg) && ready == old(ready) && spawned == old(spawned) && busyStack == old(busyStack)
    {
      trace := trace + [Echo(command)];
      var result := GetCommandResult(command);
      if result.Failure? {
        return Failure(result.error);
      }
      SerializeMijson(result.value);
      UpdateBuffers(None);
      r := Success(());
    }

    /** `do_breakswitch(bufnr, line)`: a location that is not a known breakpoint is
        logged as a breakpoint request; a known one is left alone.  `bpKeys` are the
        locations of the breakpoint signs and `bufName` the editor's name of `bufnr`. */
    method DoBreakswitch(bufnr: int, line: int, bpKeys: set<(int, int)>, bufName: string)
      modifies this
      ensures trace == old(trace) + if (bufnr, line) in bpKeys then [] else [BreakpointRequest(bufName, line)]
      ensures dbg == old(dbg) && ready == old(ready) && spawned == old(spawned) && busyStack == old(busyStack)
    {
      if (bufnr, line) !in bpKeys {
        trace := trace + [BreakpointRequest(bufName, line)];
      }
    }

    /** `_dbg_loop` over the rounds it observes.  Each batch goes to the slot and resets
        the timeout count; a timeout raises it, and past `Limit` the loop gives up; any
        other failure ends it at once; a cleared `ready` ends it after the round.  On
        leaving, GDB is asked to exit, the handle is dropped and `ready` cleared. */
    method DbgLoop(ticks: seq<Tick>) returns (end: LoopEnd)
      requires Valid() && ready
      modifies this, resultQueue
      ensures Valid()
      ensures var s := RunLoop(ticks, 0, old(resultQueue.content)); end == s.end && resultQueue.content == s.slot
      ensures end == StillRunning ==> dbg == old(dbg) && ready && trace == old(trace)
      ensures end != StillRunning ==>
        && dbg == None && !ready
        && trace == old(trace) + (if end == Stopped then [GdbInterrupt(old(dbg).value)] else []) + [GdbExit(old(dbg).value)]
      ensures spawned == old(spawned) && busyStack == old(busyStack)
    {
      var i := 0;
      var toCount := 0;
      end := StillRunning;
      while i < |ticks| && ready
        invariant 0 <= i <= |ticks|
        invariant Valid() && dbg == old(dbg) && spawned == old(spawned) && busyStack == old(busyStack)
        invariant ready ==>
          && end == StillRunning && trace == old(trace)
          && RunLoop(ticks[i..], toCount, resultQueue.content) == RunLoop(ticks, 0, old(resultQueue.content))
        invariant !ready ==>
          && end == Stopped && trace == old(trace) + [GdbInterrupt(old(dbg).value)]
          && RunLoop(ticks, 0, old(resultQueue.content)) == LoopState(Stopped, resultQueue.content, toCount)
        decreases |ticks| - i
      {
        var tick := ticks[i];
        assert ticks[i..][1..] == ticks[i + 1..];
        i := i + 1;
        match tick
        case StopRequested =>
          var _ := DbgStop();
          end := Stopped;
        case Polled(Responses(batch)) =>
          toCount := 0;
          DeliverBatch(resultQueue, batch);
        case Polled(NoResponse) =>
          toCount := toCount + 1;
          if toCount > Limit {
            end := Watchdog;
            break;
          }
        case Polled(Crashed) =>
          end := Failed;
          break;
      }
      if end == StillRunning {
        return;
      }
      trace := trace + [GdbExit(dbg.value)];
      dbg := None;
      ready := false;
    }
  }
}
