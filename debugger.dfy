/** What both controllers share: the GDB/MI responses they receive, the single-slot
    result mailbox (`Queue(maxsize=1)`), the busy gate, and the effects a controller
    has on its collaborators (the GDB process and the editor buffers). */
module Debugger {
  import opened Wrappers
  import opened Values
  import Text

  /** One GDB/MI response as the driver decodes it: its `type`, the optional
      `message`, `stream` and `token`, and the decoded `payload` (`JNull` for None). */
  datatype Response = Response(
    kind: string,
    message: Option<string>,
    stream: Option<string>,
    token: Option<int>,
    payload: Json)

  predicate IsResult(r: Response)
  {
    r.kind == "result"
  }

  /** The outcome of one poll of the GDB process: a batch of responses, a timeout
      (the driver raises ValueError) or any other exception. */
  datatype Poll = Responses(batch: seq<Response>) | NoResponse | Crashed

  /** An effect of a controller on its collaborators, in the order it happens. */
  datatype Effect =
    | GdbSpawn(handle: nat)                        // a new GDB process
    | GdbWrite(handle: nat, command: string)       // a command written to GDB
    | GdbExit(handle: nat)                         // GDB asked to exit
    | GdbInterrupt(handle: nat)                    // SIGINT sent to GDB
    | LogsAppend(text: string, prefix: Option<string>)  // `buffers.logs_append`
    | RefreshAll                                   // `buffers.update()`
    | RefreshBuffer(name: string)                  // `buffers.update_buffer(name)`

  /** The refresh `update_buffers(buf)` asks for: none while busy, all buffers when
      `buf` is None, else the one buffer. */
  function Refresh(busyStack: int, buf: Option<string>): (es: seq<Effect>)
    ensures |es| <= 1
    ensures es == [] <==> busyStack > 0
  {
    if busyStack > 0 then [] else if buf.None? then [RefreshAll] else [RefreshBuffer(buf.value)]
  }

  /** The mark `execute` puts before the command it echoes. */
  const EchoMark: string := "→(gdb) "

  /** The line `execute` logs before running a command: the command can be read back
      between the mark and the final line feed, and a command without a line feed gives
      exactly one line. */
  function Echo(command: string): (e: Effect)
    ensures e.LogsAppend? && e.prefix.None?
    ensures Text.StartsWith(e.text, EchoMark) && |e.text| == |EchoMark| + |command| + 1
    ensures e.text[|EchoMark|..|e.text| - 1] == command
    ensures '\n' !in command ==> forall i :: 0 <= i < |e.text| ==> (e.text[i] == '\n' <==> i == |e.text| - 1)
  {
    var line := EchoMark + command + "\n";
    assert line[..|EchoMark|] == EchoMark;
    assert line[|EchoMark|..|line| - 1] == command;
    LogsAppend(line, None)
  }

  /** Storing one response in the slot: a result replaces whatever was unread,
      anything else leaves the slot as it is. */
  function Offer(slot: Option<Response>, r: Response): Option<Response>
  {
    if IsResult(r) then Some(r) else slot
  }

  /** Offering a batch response by response, first to last. */
  function Deliver(slot: Option<Response>, batch: seq<Response>): Option<Response>
    decreases |batch|
  {
    if batch == [] then slot else Deliver(Offer(slot, batch[0]), batch[1..])
  }

  /** The last result-type response of a batch, searched from its end. */
  function LastResult(batch: seq<Response>): (r: Option<Response>)
    ensures r.Some? ==> r.value in batch && IsResult(r.value)
    ensures r.None? ==> forall k :: 0 <= k < |batch| ==> !IsResult(batch[k])
  {
    if batch == [] then None
    else if IsResult(batch[|batch| - 1]) then Some(batch[|batch| - 1])
    else LastResult(batch[..|batch| - 1])
  }

  lemma {:induction false} LastResultPrepend(r: Response, batch: seq<Response>)
    ensures LastResult([r] + batch) == if LastResult(batch).Some? then LastResult(batch) else Offer(None, r)
    decreases |batch|
  {
    var whole := [r] + batch;
    if batch == [] {
      assert whole[..|whole| - 1] == [];
    } else {
      assert whole[|whole| - 1] == batch[|batch| - 1];
      assert whole[..|whole| - 1] == [r] + batch[..|batch| - 1];
      LastResultPrepend(r, batch[..|batch| - 1]);
    }
  }

  /** After a batch the slot holds the batch's last result, or what it held before when
      the batch has no result: earlier results of the batch are overwritten unread. */
  lemma {:induction false} DeliverKeepsLastResult(slot: Option<Response>, batch: seq<Response>)
    ensures Deliver(slot, batch) == if LastResult(batch).Some? then LastResult(batch) else slot
    decreases |batch|
  {
    if batch != [] {
      DeliverKeepsLastResult(Offer(slot, batch[0]), batch[1..]);
      LastResultPrepend(batch[0], batch[1..]);
      assert [batch[0]] + batch[1..] == batch;
    }
  }

  /** `self.result_queue`, a queue of capacity one. */
  class ResultSlot {
    var content: Option<Response>

    constructor ()
      ensures content == None
    {
      content := None;
    }

    /** `full()` followed by `get()` when full, then `put(r)`: the unread response is
        discarded and `r` takes its place. */
    method Replace(r: Response)
      modifies this
      ensures content == Some(r)
    {
      if content.Some? {
        content := None;
      }
      content := Some(r);
    }

    /** `get(timeout=3)` in a single thread: the unread response, removed, or None
        when the slot is empty (the timeout). */
    method Take() returns (r: Option<Response>)
      modifies this
      ensures r == old(content) && content == None
    {
      r := content;
      content := None;
    }
  }

  /** The loop over a batch in `poke` and `_dbg_loop`: every result is stored. */
  method DeliverBatch(q: ResultSlot, batch: seq<Response>)
    modifies q
    ensures q.content == Deliver(old(q.content), batch)
  {
    var i := 0;
    while i < |batch|
      invariant 0 <= i <= |batch|
      invariant q.content == if LastResult(batch[..i]).Some? then LastResult(batch[..i]) else old(q.content)
    {
      assert batch[..i + 1][..i] == batch[..i];
      if IsResult(batch[i]) {
        q.Replace(batch[i]);
      }
      i := i + 1;
    }
    assert batch[..i] == batch;
    DeliverKeepsLastResult(old(q.content), batch);
  }

  /** One step of the busy gate: `busy_more` adds one, `busy_less` takes one away and
      clamps an underflow back to zero. */
  datatype GateOp = More | Less

  function GateStep(n: nat, op: GateOp): (m: nat)
    ensures op == More ==> m == n + 1
    ensures op == Less ==> m + 1 == n || m == n == 0
  {
    match op
    case More => n + 1
    case Less => if n - 1 < 0 then 0 else n - 1
  }

  function GateRun(n: nat, ops: seq<GateOp>): nat
    decreases |ops|
  {
    if ops == [] then n else GateRun(GateStep(n, ops[0]), ops[1..])
  }

  function Repeat(op: GateOp, k: nat): (ops: seq<GateOp>)
    ensures |ops| == k && forall i :: 0 <= i < k ==> ops[i] == op
  {
    if k == 0 then [] else [op] + Repeat(op, k - 1)
  }

  lemma {:induction false} GateRunAppend(n: nat, a: seq<GateOp>, b: seq<GateOp>)
    ensures GateRun(n, a + b) == GateRun(GateRun(n, a), b)
    decreases |a|
  {
    if a == [] {
      assert a + b == b;
    } else {
      assert (a + b)[0] == a[0];
      assert (a + b)[1..] == a[1..] + b;
      GateRunAppend(GateStep(n, a[0]), a[1..], b);
    }
  }

  lemma {:induction false} GateRunMore(n: nat, k: nat)
    ensures GateRun(n, Repeat(More, k)) == n + k
    decreases k
  {
    if k > 0 {
      GateRunMore(n + 1, k - 1);
    }
  }

  lemma {:induction false} GateRunLess(n: nat, k: nat)
    ensures GateRun(n, Repeat(Less, k)) == if k <= n then n - k else 0
    decreases k
  {
    if k > 0 {
      GateRunLess(GateStep(n, Less), k - 1);
    }
  }

  /** Balanced bracketing leaves the gate where it was, whatever its level. */
  lemma BracketRestoresGate(n: nat, k: nat)
    ensures GateRun(n, Repeat(More, k) + Repeat(Less, k)) == n
  {
    GateRunAppend(n, Repeat(More, k), Repeat(Less, k));
    GateRunMore(n, k);
    GateRunLess(n + k, k);
  }

  /** Surplus releases are absorbed: after any run the gate is at most its start plus
      the number of `busy_more` calls, and a release at zero keeps it at zero. */
  lemma {:induction false} GateBoundedByAcquires(n: nat, ops: seq<GateOp>)
    ensures GateRun(n, ops) <= n + multiset(ops)[More]
    decreases |ops|
  {
    if ops != [] {
      GateBoundedByAcquires(GateStep(n, ops[0]), ops[1..]);
      assert ops == [ops[0]] + ops[1..];
      assert multiset(ops) == multiset([ops[0]]) + multiset(ops[1..]);
    }
  }
}
