/** The editor channel (server/gdb_vim/vim_x.py): newline-delimited JSON arrays over a
    duplex stream.  Requests that expect an answer carry a negative index taken from a
    per-connection counter; the editor answers with `[index, payload]`, and messages the
    editor starts itself carry a non-negative index.  The stream is modelled by the
    sequence of envelopes still to be read (`input`) and the messages written so far
    (`output`). */
module VimChannel {
  import opened Wrappers
  import opened Values
  import Text

  /** One decoded line read from the editor: `[index, payload]`. */
  datatype Envelope = Envelope(index: int, payload: Json)

  /** The exceptions raised by the channel operations. */
  datatype ChannelError =
    | PositiveExpectation                       // AssertionError: `expect` must be <= 0
    | NoPopMethod                               // AttributeError: `self.pop` does not exist
    | IncorrectIndex(expected: int, received: int)  // ValueError: unexpected index
    | EndOfStream                               // nothing left to read: decoding '' fails
    | NoSecondItem                              // `re[1]` on a reply that has no item 1
    | NotAPath                                  // `path.join` on a reply that is not a string
    | NoHighlight                               // IndexError: log level outside the level list

  /** What a wait does with one envelope it has read. */
  datatype Verdict = Accept | Defer | Reject

  /** The outcome of a wait: its result and the deferred queue and input left behind. */
  datatype Read = Read(result: Result<Json, ChannelError>, buffer: seq<Json>, input: seq<Envelope>)

  /** The branch structure of vim_x.py:36-41 as written.  The deferral branch of
      lines 38-39 is dead: any index that differs from a negative `expected` is
      rejected by the first test already. */
  function VerdictAsWritten(expected: int, index: int): (v: Verdict)
    requires expected <= 0
    ensures v != Defer
    ensures v == Accept <==> index == expected || (expected == 0 && index > 0)
  {
    if (expected == 0 && index < 0) || (expected < 0 && expected != index) then Reject
    else if expected < 0 && index > 0 then Defer
    else Accept
  }

  /** The behaviour the docstring of `wait` describes: while a reply is awaited,
      messages the editor started on its own (positive index) are set aside instead of
      rejected. */
  function QueuedVerdict(expected: int, index: int): (v: Verdict)
    requires expected <= 0
    ensures v == Defer <==> expected < 0 && index > 0
    ensures v == Accept <==> index == expected || (expected == 0 && index > 0)
  {
    if expected == 0 then (if index < 0 then Reject else Accept)
    else if index == expected then Accept
    else if index > 0 then Defer
    else Reject
  }

  /** `wait(expect)` as written (vim_x.py:21-42).  It never queues anything and reads
      at most one envelope. */
  function WaitOutcome(expected: int, buffer: seq<Json>, input: seq<Envelope>): (r: Read)
    ensures r.buffer == buffer
    ensures r.input == input || (input != [] && r.input == input[1..])
    ensures r.result.Success? ==> expected <= 0 && input != [] && r.result.value == input[0].payload
  {
    if expected > 0 then Read(Failure(PositiveExpectation), buffer, input)
    else if expected == 0 && buffer != [] then Read(Failure(NoPopMethod), buffer, input)
    else if input == [] then Read(Failure(EndOfStream), buffer, input)
    else if VerdictAsWritten(expected, input[0].index) == Reject then
      Read(Failure(IncorrectIndex(expected, input[0].index)), buffer, input[1..])
    else Read(Success(input[0].payload), buffer, input[1..])
  }

  /** `wait(expect)` as its docstring describes it: positive envelopes read while a
      reply is awaited are inserted at the front of the buffer, and a plain read takes the
      buffer's last element (`self.buffer.pop()`), so the buffer is a FIFO of deferred
      payloads. */
  function QueuedWaitOutcome(expected: int, buffer: seq<Json>, input: seq<Envelope>): (r: Read)
    decreases |input|
  {
    if expected > 0 then Read(Failure(PositiveExpectation), buffer, input)
    else if expected == 0 && buffer != [] then
      Read(Success(buffer[|buffer| - 1]), buffer[..|buffer| - 1], input)
    else if input == [] then Read(Failure(EndOfStream), buffer, input)
    else
      var e := input[0];
      match QueuedVerdict(expected, e.index)
      case Reject => Read(Failure(IncorrectIndex(expected, e.index)), buffer, input[1..])
      case Accept => Read(Success(e.payload), buffer, input[1..])
      case Defer => QueuedWaitOutcome(expected, [e.payload] + buffer, input[1..])
  }

  function Reversed<T>(s: seq<T>): (r: seq<T>)
    ensures |r| == |s|
    ensures forall k :: 0 <= k < |s| ==> r[k] == s[|s| - 1 - k]
  {
    if s == [] then [] else Reversed(s[1..]) + [s[0]]
  }

  /** The deferred payloads in arrival order: the source inserts at the front. */
  function Pending(buffer: seq<Json>): seq<Json>
  {
    Reversed(buffer)
  }

  function Payloads(envelopes: seq<Envelope>): (ps: seq<Json>)
    ensures |ps| == |envelopes|
    ensures forall k :: 0 <= k < |envelopes| ==> ps[k] == envelopes[k].payload
  {
    if envelopes == [] then [] else [envelopes[0].payload] + Payloads(envelopes[1..])
  }

  predicate AllSpontaneous(envelopes: seq<Envelope>)
  {
    forall k :: 0 <= k < |envelopes| ==> envelopes[k].index > 0
  }

  /** Deferring a payload appends it to the end of the pending queue. */
  lemma PendingAfterDefer(p: Json, buffer: seq<Json>)
    ensures Pending([p] + buffer) == Pending(buffer) + [p]
  {
    assert ([p] + buffer)[1..] == buffer;
  }

  /** Index round trip: while a reply to `expected` is awaited, the spontaneous envelopes
      before it are deferred in arrival order and the reply's own payload is returned;
      reading stops right after the reply. */
  lemma {:induction false} QueuedReplyRoundTrip(
    expected: int, buffer: seq<Json>, before: seq<Envelope>, reply: Json, after: seq<Envelope>)
    requires expected < 0
    requires AllSpontaneous(before)
    ensures var r := QueuedWaitOutcome(expected, buffer, before + [Envelope(expected, reply)] + after);
      && r.result == Success(reply)
      && r.input == after
      && Pending(r.buffer) == Pending(buffer) + Payloads(before)
    decreases |before|
  {
    var input := before + [Envelope(expected, reply)] + after;
    if before == [] {
      assert input[0] == Envelope(expected, reply) && input[1..] == after;
    } else {
      var e := before[0];
      assert input[0] == e;
      assert input[1..] == before[1..] + [Envelope(expected, reply)] + after;
      DeferOne(expected, buffer, input);
      SpontaneousTail(before);
      QueuedReplyRoundTrip(expected, [e.payload] + buffer, before[1..], reply, after);
      var r := QueuedWaitOutcome(expected, [e.payload] + buffer, before[1..] + [Envelope(expected, reply)] + after);
      assert QueuedWaitOutcome(expected, buffer, input) == r;
      PendingAfterDefer(e.payload, buffer);
      calc {
        Pending(r.buffer);
        Pending([e.payload] + buffer) + Payloads(before[1..]);
        (Pending(buffer) + [e.payload]) + Payloads(before[1..]);
        { AppendAssoc(Pending(buffer), [e.payload], Payloads(before[1..])); }
        Pending(buffer) + ([e.payload] + Payloads(before[1..]));
        Pending(buffer) + Payloads(before);
      }
    }
  }

  /** A spontaneous envelope met while a reply is awaited is deferred, and reading
      goes on with the rest of the input. */
  lemma DeferOne(expected: int, buffer: seq<Json>, input: seq<Envelope>)
    requires expected < 0 && input != [] && input[0].index > 0
    ensures QueuedWaitOutcome(expected, buffer, input) ==
      QueuedWaitOutcome(expected, [input[0].payload] + buffer, input[1..])
  {
  }

  /** The envelopes after a spontaneous first one are spontaneous too. */
  lemma SpontaneousTail(envelopes: seq<Envelope>)
    requires envelopes != [] && AllSpontaneous(envelopes)
    ensures AllSpontaneous(envelopes[1..])
    ensures Payloads(envelopes) == [envelopes[0].payload] + Payloads(envelopes[1..])
  {
    forall k | 0 <= k < |envelopes[1..]| ensures envelopes[1..][k].index > 0 {
      assert envelopes[1..][k] == envelopes[k + 1];
    }
  }

  /** A plain read takes the oldest deferred payload first and leaves the rest in order. */
  lemma PlainReadIsFifo(buffer: seq<Json>, input: seq<Envelope>)
    requires buffer != []
    ensures var r := QueuedWaitOutcome(0, buffer, input);
      && r.result == Success(Pending(buffer)[0])
      && Pending(r.buffer) == Pending(buffer)[1..]
      && r.input == input
  {
    var r := QueuedWaitOutcome(0, buffer, input);
    assert r.buffer == buffer[..|buffer| - 1];
    assert Pending(r.buffer) == Pending(buffer)[1..];
  }

  /** Read as written, a spontaneous message that arrives before an awaited reply is an
      error, and the reply itself is never read; with deferral the reply is returned. */
  lemma InterleavedNotificationRejected()
    ensures var input := [Envelope(3, JStr("stop")), Envelope(-2, JInt(7))];
      && WaitOutcome(-2, [], input) == Read(Failure(IncorrectIndex(-2, 3)), [], [Envelope(-2, JInt(7))])
      && QueuedWaitOutcome(-2, [], input) == Read(Success(JInt(7)), [JStr("stop")], [])
  {
    var input := [Envelope(3, JStr("stop")), Envelope(-2, JInt(7))];
    assert input[1..] == [Envelope(-2, JInt(7))];
    assert input[1..][1..] == [];
  }

  /** `re[1]` (vim_x.py:61) applied to what `wait` returns.  The editor answers a call
      with `[index, result]` and `wait` already strips the index, so this takes item 1
      of the result itself. */
  function SecondItem(j: Json): (r: Result<Json, ChannelError>)
    ensures r.Success? <==> (j.JList? && |j.items| >= 2) || (j.JStr? && |j.s| >= 2)
  {
    match j
    case JList(items) => if |items| >= 2 then Success(items[1]) else Failure(NoSecondItem)
    case JStr(s) => if |s| >= 2 then Success(JStr([s[1]])) else Failure(NoSecondItem)
    case _ => Failure(NoSecondItem)
  }

  /** A buffer number or a working directory comes back unusable through `re[1]`. */
  lemma CallResultIndexedAsWritten()
    ensures SecondItem(JInt(5)) == Failure(NoSecondItem)
    ensures SecondItem(JStr("/home")) == Success(JStr("h"))
  {
  }

  /** Reply indices handed out by one connection, first to last: -2, -3, -4, ... */
  function IssuedIndices(n: nat): (r: seq<int>)
    ensures |r| == n
    ensures forall k :: 0 <= k < n ==> r[k] == -2 - k
  {
    if n == 0 then [] else IssuedIndices(n - 1) + [-1 - n]
  }

  /** Issued indices are strictly decreasing, so none is ever handed out twice. */
  lemma IssuedIndicesDistinct(n: nat, i: nat, j: nat)
    requires i < j < n
    ensures IssuedIndices(n)[i] > IssuedIndices(n)[j]
  {
  }

  /** `['call', fname, args]`, with the reply index appended when a reply is expected. */
  function CallMessage(fname: string, args: seq<Json>, index: Option<int>): Json
  {
    JList([JStr("call"), JStr(fname), JList(args)] + if index.Some? then [JInt(index.value)] else [])
  }

  /** `['expr', expr]`, with the reply index appended when a reply is expected. */
  function ExprMessage(expr: string, index: Option<int>): Json
  {
    JList([JStr("expr"), JStr(expr)] + if index.Some? then [JInt(index.value)] else [])
  }

  /** The reply index a written message asks the editor to answer with, if any. */
  function ReplyIndex(m: Json): (r: seq<int>)
    ensures |r| <= 1
  {
    if m.JList? && |m.items| == 4 && m.items[0] == JStr("call") && m.items[3].JInt? then [m.items[3].i]
    else if m.JList? && |m.items| == 3 && m.items[0] == JStr("expr") && m.items[2].JInt? then [m.items[2].i]
    else []
  }

  /** Every reply index written so far, in writing order. */
  function ReplyIndices(output: seq<Json>): seq<int>
  {
    if output == [] then [] else ReplyIndices(output[..|output| - 1]) + ReplyIndex(output[|output| - 1])
  }

  /** Writing a message appends its reply index, if any, to those written before. */
  lemma WrittenIndices(output: seq<Json>, m: Json)
    ensures ReplyIndices(output + [m]) == ReplyIndices(output) + ReplyIndex(m)
  {
    assert (output + [m])[..|output|] == output;
  }

  /** The messages `call`, `eval`, `send` and `command` write carry a reply index exactly
      when a reply is expected. */
  lemma MessagesCarryIndexOnlyForReplies(fname: string, args: seq<Json>, expr: string, index: int, obj: Json, cmd: string)
    ensures ReplyIndex(CallMessage(fname, args, Some(index))) == [index]
    ensures ReplyIndex(CallMessage(fname, args, None)) == []
    ensures ReplyIndex(ExprMessage(expr, Some(index))) == [index]
    ensures ReplyIndex(ExprMessage(expr, None)) == []
    ensures ReplyIndex(JList([JInt(0), obj])) == []
    ensures ReplyIndex(JList([JStr("ex"), JStr(cmd)])) == []
  {
  }

  /** The highlight group of a log level: `['None', 'WarningMsg', 'ErrorMsg'][level]`,
      negative levels counting from the end as Python does. */
  function HighlightGroup(level: int): (g: Option<string>)
    ensures g.Some? <==> -3 <= level <= 2
  {
    var groups := ["None", "WarningMsg", "ErrorMsg"];
    if 0 <= level <= 2 then Some(groups[level])
    else if -3 <= level < 0 then Some(groups[3 + level])
    else None
  }

  /** vim_x.py:80 as written: `"` becomes `\"` and a newline becomes `\n`. */
  function EscapeAsWritten(s: string): (r: string)
    ensures '\n' !in r
  {
    if s == [] then []
    else (if s[0] == '"' then "\\\"" else if s[0] == '\n' then "\\n" else [s[0]]) + EscapeAsWritten(s[1..])
  }

  /** The escaping the echo command needs: a backslash is doubled as well, so that the
      editor reads back exactly the message. */
  function EscapeForEcho(s: string): (r: string)
    ensures '\n' !in r
  {
    if s == [] then []
    else
      (if s[0] == '"' then "\\\"" else if s[0] == '\n' then "\\n" else if s[0] == '\\' then "\\\\" else [s[0]])
      + EscapeForEcho(s[1..])
  }

  /** How the editor reads a double-quoted string literal, given the text after the
      opening quote: the decoded string and the text after the closing quote, or `None`
      when the literal is not terminated.  Only the escapes `\"`, `\\` and `\n` are
      decoded; a literal using another escape is also `None` here. */
  function ReadVimString(s: string): Option<(string, string)>
  {
    if s == [] then None
    else if s[0] == '"' then Some(([], s[1..]))
    else if s[0] == '\\' then
      if |s| < 2 || s[1] !in "\"\\n" then None
      else
        var rest := ReadVimString(s[2..]);
        if rest.None? then None
        else Some(([if s[1] == 'n' then '\n' else s[1]] + rest.value.0, rest.value.1))
    else
      var rest := ReadVimString(s[1..]);
      if rest.None? then None else Some(([s[0]] + rest.value.0, rest.value.1))
  }

  /** The editor reads back every escaped message exactly, whatever follows the literal. */
  lemma {:induction false} EchoEscapeRoundTrip(s: string, tail: string)
    ensures ReadVimString(EscapeForEcho(s) + "\"" + tail) == Some((s, tail))
  {
    if s != [] {
      EchoEscapeRoundTrip(s[1..], tail);
      var head := if s[0] == '"' then "\\\"" else if s[0] == '\n' then "\\n" else if s[0] == '\\' then "\\\\" else [s[0]];
      var t := EscapeForEcho(s[1..]) + "\"" + tail;
      assert EscapeForEcho(s) + "\"" + tail == head + t;
      if |head| == 2 {
        assert (head + t)[2..] == t;
      } else {
        assert (head + t)[1..] == t;
      }
      assert [s[0]] + s[1..] == s;
    }
  }

  /** Text without quotes or backslashes never closes a literal. */
  lemma {:induction false} PlainTextUnterminated(t: string)
    requires '"' !in t && '\\' !in t
    ensures ReadVimString(t) == None
  {
    if t != [] {
      PlainTextUnterminated(t[1..]);
    }
  }

  /** A message that ends with a backslash, escaped as written, leaves the echo
      literal unterminated: the editor takes the closing quote as an escaped quote. */
  lemma TrailingBackslashBreaksEcho()
    ensures EscapeAsWritten("x\\") == "x\\"
    ensures ReadVimString(EscapeAsWritten("x\\") + "\" | echohl None") == None
  {
    var x: string := ['x'];
    var bs: string := ['\\'];
    assert "x\\" == x + bs;
    assert EscapeAsWritten(bs) == bs by {
      assert bs[1..] == [];
    }
    assert EscapeAsWritten(x + bs) == x + bs by {
      assert (x + bs)[1..] == bs;
    }
    var tail := " | echohl None";
    var s := x + bs + ['"'] + tail;
    assert "x\\" + "\" | echohl None" == s;
    assert s[1..] == bs + ['"'] + tail;
    assert s[1..][2..] == tail;
    PlainTextUnterminated(" | echohl None");
  }

  /** The command `log` sends: highlight group, the stripped and escaped message, reset. */
  function LogCommandText(group: string, msg: string): (r: string)
    ensures '\n' !in group ==> '\n' !in r
  {
    "echohl " + group + " | echom \"" + EscapeForEcho(Text.Strip(msg)) + "\" | echohl None"
  }

  /** Whether `update_noma_buffer` has to send `content`: true unless the cache holds an
      entry for `bufnr` equal to it line for line (vim_x.py:117-125). */
  method HasModification(cache: map<int, seq<string>>, bufnr: int, content: seq<string>) returns (hasMod: bool)
    ensures hasMod <==> !(bufnr in cache && cache[bufnr] == content)
  {
    hasMod := true;
    if bufnr in cache && |content| == |cache[bufnr]| {
      hasMod := false;
      var cached := cache[bufnr];
      var i := 0;
      while i < |content|
        invariant 0 <= i <= |content|
        invariant !hasMod
        invariant forall k :: 0 <= k < i ==> content[k] == cached[k]
      {
        if content[i] != cached[i] {
          hasMod := true;
          break;
        }
        i := i + 1;
      }
    }
  }

  class VimX {
    /** The last reply index handed out; -1 before the first request. */
    var counter: int
    /** Deferred payloads, newest first (`self.buffer`). */
    var buffer: seq<Json>
    /** Envelopes the editor has sent that are not read yet. */
    var input: seq<Envelope>
    /** Messages written to the editor so far. */
    var output: seq<Json>
    /** `self.buffer_cache`: buffer number to the lines last known to be shown. */
    var bufferCache: map<int, seq<string>>

    /** Reply indices are -2, -3, ... in writing order and `counter` is the last one. */
    ghost predicate Valid()
      reads this
    {
      counter <= -1 && ReplyIndices(output) == IssuedIndices(-1 - counter)
    }

    constructor (input: seq<Envelope>)
      ensures Valid()
      ensures counter == -1 && buffer == [] && this.input == input && output == [] && bufferCache == map[]
    {
      counter := -1;
      buffer := [];
      this.input := input;
      output := [];
      bufferCache := map[];
    }

    /** `wait(expect)` as written.  Because the deferral branch is dead
        (`VerdictAsWritten`), the read loop of lines 32-41 never starts a second round,
        so its single round is the whole loop. */
    method Wait(expected: int) returns (r: Result<Json, ChannelError>)
      modifies this
      ensures Read(r, buffer, input) == WaitOutcome(expected, old(buffer), old(input))
      ensures counter == old(counter) && output == old(output) && bufferCache == old(bufferCache)
    {
      if expected > 0 {
        return Failure(PositiveExpectation);
      }
      if expected == 0 && buffer != [] {
        return Failure(NoPopMethod);
      }
      if input == [] {
        return Failure(EndOfStream);
      }
      var e := input[0];
      input := input[1..];
      if VerdictAsWritten(expected, e.index) == Reject {
        r := Failure(IncorrectIndex(expected, e.index));
      } else {
        r := Success(e.payload);
      }
    }

    /** `wait(expect)` as its documentation describes it: spontaneous envelopes read
        while a reply is awaited go to the front of the buffer, and a plain read first
        takes the buffer's last (oldest) payload. */
    method WaitQueued(expected: int) returns (r: Result<Json, ChannelError>)
      modifies this
      ensures Read(r, buffer, input) == QueuedWaitOutcome(expected, old(buffer), old(input))
      ensures counter == old(counter) && output == old(output) && bufferCache == old(bufferCache)
    {
      if expected > 0 {
        return Failure(PositiveExpectation);
      }
      if expected == 0 && buffer != [] {
        r := Success(buffer[|buffer| - 1]);
        buffer := buffer[..|buffer| - 1];
        return;
      }
      while input != []
        invariant expected < 0 || buffer == []
        invariant QueuedWaitOutcome(expected, buffer, input) == QueuedWaitOutcome(expected, old(buffer), old(input))
        invariant counter == old(counter) && output == old(output) && bufferCache == old(bufferCache)
        decreases |input|
      {
        var e := input[0];
        input := input[1..];
        var v := QueuedVerdict(expected, e.index);
        if v == Reject {
          return Failure(IncorrectIndex(expected, e.index));
        } else if v == Defer {
          buffer := [e.payload] + buffer;
        } else {
          return Success(e.payload);
        }
      }
      r := Failure(EndOfStream);
    }

    /** Writes one message to the editor. */
    method Write(obj: Json)
      modifies this
      ensures output == old(output) + [obj]
      ensures counter == old(counter) && buffer == old(buffer) && input == old(input)
      ensures bufferCache == old(bufferCache)
    {
      output := output + [obj];
    }

    /** `send(obj)`: a spontaneous message `[0, obj]`. */
    method Send(obj: Json)
      requires Valid()
      modifies this
      ensures Valid()
      ensures output == old(output) + [JList([JInt(0), obj])]
      ensures counter == old(counter) && buffer == old(buffer) && input == old(input)
      ensures bufferCache == old(bufferCache)
    {
      Write(JList([JInt(0), obj]));
    }

    /** `call(fname, *args, reply)`.  With a reply the counter moves down by one, the new
        index ends the message, and the reply's payload is returned; without one the
        counter is untouched and nothing is read. */
    method Call(fname: string, args: seq<Json>, reply: bool) returns (r: Result<Json, ChannelError>)
      requires Valid()
      modifies this
      ensures Valid()
      ensures counter == old(counter) - (if reply then 1 else 0)
      ensures output == old(output) + [CallMessage(fname, args, if reply then Some(counter) else None)]
      ensures bufferCache == old(bufferCache)
      ensures !reply ==> r == Success(JNull) && buffer == old(buffer) && input == old(input)
      ensures reply ==> Read(r, buffer, input) == QueuedWaitOutcome(counter, old(buffer), old(input))
    {
      if reply {
        counter := counter - 1;
        MessagesCarryIndexOnlyForReplies(fname, args, "", counter, JNull, "");
        WrittenIndices(output, CallMessage(fname, args, Some(counter)));
        Write(CallMessage(fname, args, Some(counter)));
        r := WaitQueued(counter);
      } else {
        MessagesCarryIndexOnlyForReplies(fname, args, "", counter, JNull, "");
        WrittenIndices(output, CallMessage(fname, args, None));
        Write(CallMessage(fname, args, None));
        r := Success(JNull);
      }
    }

    /** `eval(expr, reply)`: like `call`, returning the whole reply payload. */
    method Eval(expr: string, reply: bool) returns (r: Result<Json, ChannelError>)
      requires Valid()
      modifies this
      ensures Valid()
      ensures counter == old(counter) - (if reply then 1 else 0)
      ensures output == old(output) + [ExprMessage(expr, if reply then Some(counter) else None)]
      ensures bufferCache == old(bufferCache)
      ensures !reply ==> r == Success(JNull) && buffer == old(buffer) && input == old(input)
      ensures reply ==> Read(r, buffer, input) == QueuedWaitOutcome(counter, old(buffer), old(input))
    {
      if reply {
        counter := counter - 1;
        MessagesCarryIndexOnlyForReplies([], [], expr, counter, JNull, "");
        WrittenIndices(output, ExprMessage(expr, Some(counter)));
        Write(ExprMessage(expr, Some(counter)));
        r := WaitQueued(counter);
      } else {
        MessagesCarryIndexOnlyForReplies([], [], expr, counter, JNull, "");
        WrittenIndices(output, ExprMessage(expr, None));
        Write(ExprMessage(expr, None));
        r := Success(JNull);
      }
    }

    /** `command(cmd)`: an Ex command `['ex', cmd]`. */
    method Command(cmd: string)
      requires Valid()
      modifies this
      ensures Valid()
      ensures output == old(output) + [JList([JStr("ex"), JStr(cmd)])]
      ensures counter == old(counter) && buffer == old(buffer) && input == old(input)
      ensures bufferCache == old(bufferCache)
    {
      Write(JList([JStr("ex"), JStr(cmd)]));
      assert output[..|output| - 1] == old(output);
    }

    /** `log(msg, level)`: echoes the message in the level's highlight group; a level
        outside the list raises before anything is written. */
    method Log(msg: string, level: int) returns (ok: bool)
      requires Valid()
      modifies this
      ensures Valid()
      ensures ok <==> HighlightGroup(level).Some?
      ensures output == old(output) + if ok then [JList([JStr("ex"), JStr(LogCommandText(HighlightGroup(level).value, msg))])] else []
      ensures counter == old(counter) && buffer == old(buffer) && input == old(input)
      ensures bufferCache == old(bufferCache)
    {
      var group := HighlightGroup(level);
      if group.None? {
        return false;
      }
      Command(LogCommandText(group.value, msg));
      ok := true;
    }

    /** `abspath(relpath)`: asks the editor for its working directory and joins. */
    method Abspath(relpath: string) returns (r: Result<string, ChannelError>)
      requires Valid()
      modifies this
      ensures Valid()
      ensures counter == old(counter) - 1
      ensures output == old(output) + [CallMessage("getcwd", [], Some(counter))]
      ensures var w := QueuedWaitOutcome(counter, old(buffer), old(input));
        && buffer == w.buffer && input == w.input
        && r == match w.result
                case Failure(e) => Failure(e)
                case Success(cwd) => if cwd.JStr? then Success(Text.PathJoin(cwd.s, relpath)) else Failure(NotAPath)
      ensures bufferCache == old(bufferCache)
    {
      var cwd := Call("getcwd", [], true);
      if cwd.Failure? {
        return Failure(cwd.error);
      }
      if !cwd.value.JStr? {
        return Failure(NotAPath);
      }
      r := Success(Text.PathJoin(cwd.value.s, relpath));
    }

    /** `update_noma_buffer(bufnr, content)`: sends the lines unless the cache already
        holds them; the cache itself is left as it is. */
    method UpdateNomaBuffer(bufnr: int, content: seq<string>)
      requires Valid()
      modifies this
      ensures Valid()
      ensures var msg := CallMessage("gdb#layout#update_buffer", [JInt(bufnr), JList(seq(|content|, k requires 0 <= k < |content| => JStr(content[k])))], None);
        output == old(output) + if bufnr in bufferCache && bufferCache[bufnr] == content then [] else [msg]
      ensures counter == old(counter) && buffer == old(buffer) && input == old(input)
      ensures bufferCache == old(bufferCache)
    {
      var hasMod := HasModification(bufferCache, bufnr, content);
      if hasMod {
        var lines := seq(|content|, k requires 0 <= k < |content| => JStr(content[k]));
        var _ := Call("gdb#layout#update_buffer", [JInt(bufnr), JList(lines)], false);
      }
    }
  }
}
