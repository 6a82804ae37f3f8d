/** The controller of the standalone server (server/gdb_vim/controller.py): it owns the
    GDB handle, the busy gate and the result slot, and talks to the editor buffers.
    Its effects on GDB and on the buffers are recorded in `trace`. */
module ServerController {
  import opened Wrappers
  import opened Values
  import opened Debugger
  import Text

  datatype ControllerError =
    | NoDebugger     // AttributeError: the handle is None
    | EscapeFailed   // decoding the payload with `unicode_escape` raised

  /** `'{}'.format(x)` of an optional string: None prints as `None`. */
  function Shown(o: Option<string>): string
  {
    if o.None? then "None" else o.value
  }

  function ShownToken(o: Option<int>): string
  {
    if o.None? then "None" else Text.IntToString(o.value)
  }

  /** The first line `serialize_mijson` writes: the four fields in a fixed order. */
  function Header(r: Response): (h: string)
    ensures Text.StartsWith(h, "message: " + Shown(r.message) + ", stream: ")
    ensures |h| > 0 && h[|h| - 1] == '\n'
    ensures '\n' !in Shown(r.message) + Shown(r.stream) + ShownToken(r.token) + r.kind ==> '\n' !in h[..|h| - 1]
  {
    var prefix := "message: " + Shown(r.message) + ", stream: ";
    var h := prefix + Shown(r.stream) + ", token: " + ShownToken(r.token) + ", type: " + r.kind + "\n";
    assert h[..|prefix|] == prefix;
    assert h[..|h| - 1] == prefix + Shown(r.stream) + ", token: " + ShownToken(r.token) + ", type: " + r.kind;
    h
  }

  class Controller {
    /** `s.encode('utf8').decode('unicode_escape')`, None when decoding raises. */
    const unicodeEscape: string -> Option<string>
    /** `str(payload)` for a payload that is not a string. */
    const pyStr: Json -> string
    /** `self.result_queue`. */
    const resultQueue: ResultSlot

    /** `self.dbg`: the handle of the running GDB process, if any. */
    var dbg: Option<nat>
    /** Number of GDB processes created so far; handles are numbered from 0. */
    var spawned: nat
    var busyStack: int
    var trace: seq<Effect>

    ghost predicate Valid()
      reads this
    {
      busyStack >= 0 && (dbg.Some? ==> dbg.value < spawned)
    }

    constructor (unicodeEscape: string -> Option<string>, pyStr: Json -> string)
      ensures Valid()
      ensures this.unicodeEscape == unicodeEscape && this.pyStr == pyStr
      ensures dbg == None && spawned == 0 && busyStack == 0 && trace == []
      ensures fresh(resultQueue) && resultQueue.content == None
    {
      this.unicodeEscape := unicodeEscape;
      this.pyStr := pyStr;
      resultQueue := new ResultSlot();
      dbg := None;
      spawned := 0;
      busyStack := 0;
      trace := [];
    }

    /** `dbg_start`: a GDB process is created only when there is none. */
    method DbgStart()
      requires Valid()
      modifies this
      ensures Valid()
      ensures old(dbg).Some? ==> dbg == old(dbg) && spawned == old(spawned) && trace == old(trace)
      ensures old(dbg).None? ==>
        dbg == Some(old(spawned)) && spawned == old(spawned) + 1 && trace == old(trace) + [GdbSpawn(old(spawned))]
      ensures busyStack == old(busyStack)
    {
      if dbg.None? {
        dbg := Some(spawned);
        trace := trace + [GdbSpawn(spawned)];
        spawned := spawned + 1;
      }
    }

    /** `dbg_stop`: GDB is asked to exit and the handle is dropped; without a handle
        the call raises and nothing changes. */
    method DbgStop() returns (r: Result<(), ControllerError>)
      requires Valid()
      modifies this
      ensures Valid()
      ensures dbg == None
      ensures old(dbg).None? ==> r == Failure(NoDebugger) && trace == old(trace)
      ensures old(dbg).Some? ==> r == Success(()) && trace == old(trace) + [GdbExit(old(dbg).value)]
      ensures spawned == old(spawned) && busyStack == old(busyStack)
    {
      if dbg.None? {
        return Failure(NoDebugger);
      }
      trace := trace + [GdbExit(dbg.value)];
      dbg := None;
      r := Success(());
    }

    method IsBusy() returns (busy: bool)
      ensures busy <==> busyStack > 0
    {
      busy := busyStack > 0;
    }

    method BusyMore()
      requires Valid()
      modifies this
      ensures Valid()
      ensures busyStack == GateStep(old(busyStack), More)
      ensures dbg == old(dbg) && spawned == old(spawned) && trace == old(trace)
    {
      busyStack := busyStack + 1;
    }

    /** `busy_less`: an underflow is clamped back to zero. */
    method BusyLess()
      requires Valid()
      modifies this
      ensures Valid()
      ensures busyStack == GateStep(old(busyStack), Less)
      ensures dbg == old(dbg) && spawned == old(spawned) && trace == old(trace)
    {
      busyStack := busyStack - 1;
      if busyStack < 0 {
        busyStack := 0;
      }
    }

    /** The text `serialize_mijson` logs: the header, then the payload (a string
        payload decoded with `unicode_escape`, anything else through `str`). */
    function SerializedText(r: Response): (t: Option<string>)
      ensures t.Some? ==> Text.StartsWith(t.value, Header(r)) && t.value[|t.value| - 1] == '\n'
      ensures t.None? <==> r.payload.JStr? && unicodeEscape(r.payload.s).None?
    {
      var payload := if r.payload.JStr? then unicodeEscape(r.payload.s) else Some(pyStr(r.payload));
      if payload.None? then None
      else
        var t := Header(r) + payload.value + "\n";
        assert t[..|Header(r)|] == Header(r);
        Some(t)
    }

    /** What `execute` logs for the result it got: the serialised response, the error
        line when nothing arrived, or None when serialising raises. */
    function Report(result: Option<Response>): (e: Option<Effect>)
      ensures e.None? <==> result.Some? && SerializedText(result.value).None?
      ensures e.Some? ==> e.value.LogsAppend? && e.value.text != [] && e.value.text[|e.value.text| - 1] == '\n'
      ensures e.Some? ==> (e.value.prefix == Some("✓") <==> result.Some?)
      ensures e.Some? && result.Some? ==> Text.StartsWith(e.value.text, Header(result.value))
    {
      if result.None? then Some(LogsAppend("error\n", Some("✗")))
      else
        var t := SerializedText(result.value);
        if t.None? then None else Some(LogsAppend(t.value, Some("✓")))
    }

    method SerializeMijson(r: Response) returns (res: Result<(), ControllerError>)
      modifies this
      ensures SerializedText(r).None? ==> res == Failure(EscapeFailed) && trace == old(trace)
      ensures SerializedText(r).Some? ==> res == Success(()) && trace == old(trace) + [LogsAppend(SerializedText(r).value, Some("✓"))]
      ensures dbg == old(dbg) && spawned == old(spawned) && busyStack == old(busyStack)
    {
      var t := SerializedText(r);
      if t.None? {
        return Failure(EscapeFailed);
      }
      trace := trace + [LogsAppend(t.value, Some("✓"))];
      res := Success(());
    }

    /** `update_buffers(buf)`: nothing while busy. */
    method UpdateBuffers(buf: Option<string>)
      modifies this
      ensures trace == old(trace) + Refresh(busyStack, buf)
      ensures dbg == old(dbg) && spawned == old(spawned) && busyStack == old(busyStack)
    {
      var busy := IsBusy();
      if busy {
        return;
      }
      if buf.None? {
        trace := trace + [RefreshAll];
      } else {
        trace := trace + [RefreshBuffer(buf.value)];
      }
    }

    /** `get_command_result`: writes the command, then takes what the slot holds;
        an empty slot is the timeout and gives None. */
    method GetCommandResult(command: string) returns (r: Result<Option<Response>, ControllerError>)
      modifies this, resultQueue
      ensures old(dbg).None? ==>
        r == Failure(NoDebugger) && trace == old(trace) && resultQueue.content == old(resultQueue.content)
      ensures old(dbg).Some? ==>
        && r == Success(old(resultQueue.content)) && resultQueue.content == None
        && trace == old(trace) + [GdbWrite(old(dbg).value, command)]
      ensures dbg == old(dbg) && spawned == old(spawned) && busyStack == old(busyStack)
    {
      if dbg.None? {
        return Failure(NoDebugger);
      }
      trace := trace + [GdbWrite(dbg.value, command)];
      var result := resultQueue.Take();
      r := Success(result);
    }

    /** `execute(command)`: the echoed command comes first, then the command goes to
        GDB, then its result (or the error line) is logged, and the buffers are
        refreshed last. */
    method Execute(command: string) returns (r: Result<(), ControllerError>)
      requires Valid()
      modifies this, resultQueue
      ensures Valid()
      ensures old(dbg).None? ==>
        && r == Failure(NoDebugger) && trace == old(trace) + [Echo(command)]
        && resultQueue.content == old(resultQueue.content)
      ensures old(dbg).Some? ==>
        && resultQueue.content == None
        && var report := Report(old(resultQueue.content));
        && var sent := old(trace) + [Echo(command), GdbWrite(old(dbg).value, command)];
        && (report.None? ==> r == Failure(EscapeFailed) && trace == sent)
        && (report.Some? ==> r == Success(()) && trace == sent + [report.value] + Refresh(busyStack, None))
      ensures dbg == old(dbg) && spawned == old(spawned) && busyStack == old(busyStack)
    {
      trace := trace + [Echo(command)];
      var result := GetCommandResult(command);
      if result.Failure? {
        return Failure(result.error);
      }
      if result.value.Some? {
        var s := SerializeMijson(result.value.value);
        if s.Failure? {
          return Failure(s.error);
        }
      } else {
        trace := trace + [LogsAppend("error\n", Some("✗"))];
      }
      UpdateBuffers(None);
      r := Success(());
    }

    /** `poke()`: one poll of GDB.  Every result of a batch goes to the slot; a timeout
        processes nothing; any other failure stops the debugger. */
    method Poke(poll: Poll) returns (r: Result<(), ControllerError>)
      requires Valid()
      modifies this, resultQueue
      ensures Valid()
      ensures poll.Responses? ==>
        && r == Success(()) && dbg == old(dbg) && trace == old(trace)
        && resultQueue.content == Deliver(old(resultQueue.content), poll.batch)
      ensures poll.NoResponse? ==>
        && r == Success(()) && dbg == old(dbg) && trace == old(trace)
        && resultQueue.content == old(resultQueue.content)
      ensures poll.Crashed? ==>
        && dbg == None && resultQueue.content == old(resultQueue.content)
        && (old(dbg).None? ==> r == Failure(NoDebugger) && trace == old(trace))
        && (old(dbg).Some? ==> r == Success(()) && trace == old(trace) + [GdbExit(old(dbg).value)])
      ensures spawned == old(spawned) && busyStack == old(busyStack)
    {
      match poll
      case Responses(batch) =>
        DeliverBatch(resultQueue, batch);
        r := Success(());
      case NoResponse =>
        r := Success(());
      case Crashed =>
        r := DbgStop();
    }
  }
}
