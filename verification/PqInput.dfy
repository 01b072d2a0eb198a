/**
 pqxParseInput3: framing of backend messages and gating by the asynchronous status.
 The readers of message bodies are parameters: they may move the cursor anywhere and, where the code
 lets them, replace status and result. The branches are those of server versions from 14.5 on.
 */
module PqInput {
  import opened Wrappers

  type Byte = b: int | 0 <= b < 256 witness 0

  datatype Async = Idle | Busy | Ready | ReadyMore | CopyIn | CopyOut | CopyBoth | PipelineIdle

  datatype ExecStatus = EmptyQuery | CommandOk | TuplesOk | FatalError | PipelineSync | OtherStatus(code: nat)

  /** A PGresult: its status, number of columns, whatever the readers put into it, and the command tag. */
  datatype Result = Result(status: ExecStatus, columns: nat, text: seq<Byte>, cmdStatus: seq<Byte>)

  datatype QueryClass = Simple | Extended | Prepare | Describe | Sync | Close | Bind

  datatype Pipeline = Off | On | Aborted

  /** What a message can change besides the input buffer. */
  datatype Core = Core(asyncStatus: Async, result: Option<Result>, queue: seq<QueryClass>, pipeline: Pipeline)

  datatype Reader =
    | Notify | Notice | ErrorMessage | ParameterStatus | CommandTag | ReadyForQuery | BackendKey
    | RowDescription | ParamDescription | DataRow | CopyStart(id: char)

  /** EOF, or the bytes the cursor moved, the connection after it, and the text it read. */
  datatype Outcome = Eof | Read(moved: int, core: Core, text: seq<Byte>)

  /** body gets the bytes from the message body to the end of the buffer and the body length. */
  datatype Readers = Readers(
    body: (Reader, seq<Byte>, nat, Core) -> Outcome,
    saveError: Option<Result> -> Option<Result>   // pqSaveErrorResult
  )

  // ----- Framing -----

  datatype Frame = Incomplete | Broken | Partial(length: nat) | Complete(id: char, length: nat)

  /** pqGetInt(4): network order into a signed 32-bit int. */
  function Int32(b: seq<Byte>): int
    requires |b| == 4
  {
    var v := b[0] as int * 0x100_0000 + b[1] as int * 0x1_0000 + b[2] as int * 0x100 + b[3] as int;
    if v < 0x8000_0000 then v else v - 0x1_0000_0000
  }

  predicate ValidLongMessageType(id: char) {
    id in {'T', 't', 'D', 'd', 'V', 'E', 'N', 'A'}
  }

  /** The message at the start of rest. */
  function FrameAt(rest: seq<Byte>): Frame {
    if |rest| < 5 then Incomplete
    else
      var id, msgLength := rest[0] as char, Int32(rest[1..5]);
      if msgLength < 4 || (msgLength > 30000 && !ValidLongMessageType(id)) then Broken
      else if |rest| - 5 < msgLength - 4 then Partial(msgLength - 4)
      else Complete(id, msgLength - 4)
  }

  // ----- One message -----

  /** pqCommandQueueAdvanceGlue. */
  function Advance(queue: seq<QueryClass>, isReadyForQuery: bool, gotSync: bool): seq<QueryClass> {
    if queue == [] then queue
    else if queue[0] == Simple && !isReadyForQuery then queue
    else if queue[0] == Sync && !gotSync then queue
    else queue[1..]
  }

  predicate HeadIs(core: Core, q: QueryClass) {
    core.queue != [] && core.queue[0] == q
  }

  predicate ResultIs(core: Core, status: ExecStatus) {
    core.result.Some? && core.result.value.status == status
  }

  /** The existing result, or an empty one of the given status. */
  function ResultOr(core: Core, status: ExecStatus): Result {
    if core.result.Some? then core.result.value else Result(status, 0, [], [])
  }

  /** Hold: return without consuming. Moved: the cursor moved so far past the header. */
  datatype Handled = Hold(core: Core) | Moved(moved: int, core: Core)

  /** A reader that only moves the cursor. */
  function JustRead(h: Readers, r: Reader, body: seq<Byte>, length: nat, core: Core): Handled {
    var out := h.body(r, body, length, core);
    if out.Eof? then Hold(core) else Moved(out.moved, core)
  }

  /** A reader that may also change status and result. */
  function ReadInto(h: Readers, r: Reader, body: seq<Byte>, length: nat, core: Core): Handled {
    var out := h.body(r, body, length, core);
    if out.Eof? then Hold(core) else Moved(out.moved, out.core)
  }

  function WithStatus(m: Handled, status: Async): Handled {
    if m.Hold? then m else Moved(m.moved, m.core.(asyncStatus := status))
  }

  /** The switch of the BUSY state. description: the number of columns of the description given, if any. */
  function HandleBusy(h: Readers, description: Option<nat>, id: char, body: seq<Byte>, length: nat, core: Core): Handled {
    match id
    case 'C' =>
      var out := h.body(CommandTag, body, length, core);
      if out.Eof? then Hold(core)
      else
        var described := if description.Some? then description.value else 0;
        var result := if core.result.Some? then core.result.value else Result(CommandOk, described, [], []);
        Moved(out.moved, core.(result := Some(result.(cmdStatus := out.text)), asyncStatus := Ready))
    case 'E' => WithStatus(ReadInto(h, ErrorMessage, body, length, core), Ready)
    case 'Z' =>
      var m := JustRead(h, Reader.ReadyForQuery, body, length, core);
      if m.Hold? then m
      else if core.pipeline != Off
      then Moved(m.moved, core.(result := Some(Result(PipelineSync, 0, [], [])), pipeline := On, asyncStatus := Ready))
      else Moved(m.moved, core.(queue := Advance(core.queue, true, false), asyncStatus := Idle))
    case 'I' => Moved(0, core.(result := Some(ResultOr(core, EmptyQuery)), asyncStatus := Ready))
    case '1' =>
      Moved(0, if HeadIs(core, Prepare) then core.(result := Some(ResultOr(core, CommandOk)), asyncStatus := Ready) else core)
    case '2' =>
      if !HeadIs(core, Bind) then Moved(0, core)
      else
        var advanced := core.(queue := Advance(core.queue, false, false));
        Moved(0, if core.pipeline != Off then advanced.(asyncStatus := PipelineIdle) else advanced)
    case '3' => Moved(0, if HeadIs(core, Close) then core.(queue := Advance(core.queue, false, false)) else core)
    case 'S' => JustRead(h, ParameterStatus, body, length, core)
    case 'K' => JustRead(h, BackendKey, body, length, core)
    case 'T' =>
      if ResultIs(core, FatalError) then Moved(length, core)
      else if core.result.None? || HeadIs(core, Describe) then ReadInto(h, RowDescription, body, length, core)
      else Hold(core.(asyncStatus := Ready))
    case 'n' =>
      Moved(0, if HeadIs(core, Describe) then core.(result := Some(ResultOr(core, CommandOk)), asyncStatus := Ready) else core)
    case 't' => ReadInto(h, ParamDescription, body, length, core)
    case 'D' =>
      if ResultIs(core, TuplesOk) then ReadInto(h, DataRow, body, length, core)
      else if ResultIs(core, FatalError) then Moved(length, core)
      else if description.None? then Moved(length, core.(result := h.saveError(core.result)))
      else if core.result.None? then ReadInto(h, DataRow, body, length, core.(result := Some(Result(TuplesOk, description.value, [], []))))
      else Moved(0, core)
    case 'G' => WithStatus(ReadInto(h, CopyStart(id), body, length, core), CopyIn)
    case 'H' => WithStatus(ReadInto(h, CopyStart(id), body, length, core), CopyOut)
    case 'W' => WithStatus(ReadInto(h, CopyStart(id), body, length, core), CopyBoth)
    case 'd' => Moved(length, core)
    case 'c' => Moved(0, core)
    case 's' => Moved(0, core.(asyncStatus := Ready))
    case _ => Moved(length, core.(result := h.saveError(core.result), asyncStatus := Ready))
  }

  /** NOTIFY and NOTICE always; the rest only in BUSY; recovery in IDLE; otherwise wait. */
  function Handle(h: Readers, description: Option<nat>, id: char, body: seq<Byte>, length: nat, core: Core): Handled {
    if id == 'A' then JustRead(h, Notify, body, length, core)
    else if id == 'N' then JustRead(h, Notice, body, length, core)
    else if core.asyncStatus != Busy then
      if core.asyncStatus != Idle then Hold(core)
      else if id == 'E' then JustRead(h, Notice, body, length, core)
      else if id == 'S' then JustRead(h, ParameterStatus, body, length, core)
      else Moved(length, core)
    else HandleBusy(h, description, id, body, length, core)
  }

  // ----- The loop -----

  /** The connection: bytes received, how far they are consumed, and whether it is still there. */
  datatype Conn = Conn(buffer: seq<Byte>, inStart: nat, core: Core, bad: bool)

  predicate ConnOk(c: Conn) {
    c.inStart <= |c.buffer| && (c.bad ==> c.buffer == [])
  }

  datatype Iteration = Stop(conn: Conn) | Continue(conn: Conn)

  function SyncLoss(h: Readers, c: Conn): Conn {
    Conn([], 0, c.core.(result := h.saveError(c.core.result), asyncStatus := Ready), true)
  }

  /** A handled message is consumed; a cursor that is not at its end makes an error of it. */
  function Settle(h: Readers, c: Conn, length: nat, m: Handled): Iteration {
    match m
    case Hold(core) => Stop(c.(core := core))
    case Moved(moved, core) =>
      var settled := if moved == length then core else core.(result := h.saveError(core.result), asyncStatus := Ready);
      Continue(c.(inStart := c.inStart + 5 + length, core := settled))
  }

  /** grows: whether the buffer can be enlarged to hold a message that is not complete yet. */
  function Iterate(h: Readers, description: Option<nat>, grows: bool, c: Conn): Iteration
    requires ConnOk(c)
  {
    var rest := c.buffer[c.inStart..];
    match FrameAt(rest)
    case Incomplete => Stop(c)
    case Broken => Stop(SyncLoss(h, c))
    case Partial(_) => Stop(if grows then c else SyncLoss(h, c))
    case Complete(id, length) =>
      Settle(h, c, length, Handle(h, description, id, rest[5..], length, c.core))
  }

  /** All messages the loop consumes in one call. */
  function ParseAll(h: Readers, description: Option<nat>, grows: bool, c: Conn): (r: Conn)
    requires ConnOk(c)
    ensures ConnOk(r)
    decreases |c.buffer| - c.inStart
  {
    match Iterate(h, description, grows, c)
    case Stop(r) => r
    case Continue(r) => ParseAll(h, description, grows, r)
  }

  class PGconn {
    var inBuffer: seq<Byte>   // the bytes before inEnd
    var inStart: nat
    var inCursor: nat
    var core: Core
    var bad: bool

    ghost predicate Valid()
      reads this
    {
      inStart <= |inBuffer| && (bad ==> inBuffer == [])
    }

    ghost function Value(): (c: Conn)
      reads this
    {
      Conn(inBuffer, inStart, core, bad)
    }

    /** pqGetc and pqGetInt: EOF when the buffer ends first. */
    method GetBytes(n: nat) returns (bytes: Option<seq<Byte>>)
      requires inCursor <= |inBuffer|
      modifies `inCursor
      ensures bytes.Some? <==> old(inCursor) + n <= |inBuffer|
      ensures bytes.Some? ==> inCursor == old(inCursor) + n && bytes.value == inBuffer[old(inCursor)..inCursor]
      ensures bytes.None? ==> inCursor == old(inCursor)
    {
      if inCursor + n > |inBuffer| { return None; }
      bytes := Some(inBuffer[inCursor..inCursor + n]);
      inCursor := inCursor + n;
    }

    method HandleSyncLoss(h: Readers)
      modifies this
      ensures Value() == SyncLoss(h, old(Value()))
      ensures bad && core.asyncStatus == Ready && inBuffer == [] && FrameAt(inBuffer[inStart..]) == Incomplete
    {
      core := core.(result := h.saveError(core.result), asyncStatus := Ready);
      inBuffer, inStart, inCursor := [], 0, 0;
      bad := true;
    }

    /** Reads type and length of the next message; a complete one leaves the cursor at its body. */
    method ReadFrame() returns (frame: Frame)
      requires Valid()
      modifies `inCursor
      ensures frame == FrameAt(inBuffer[inStart..])
      ensures frame.Complete? ==> inCursor == inStart + 5 && inStart + 5 + frame.length <= |inBuffer|
    {
      ghost var rest := inBuffer[inStart..];
      inCursor := inStart;
      var id := GetBytes(1);
      if id.None? { return Incomplete; }
      var int4 := GetBytes(4);
      if int4.None? { return Incomplete; }
      assert rest[1..5] == int4.value && rest[0] == id.value[0];
      var msgLength := Int32(int4.value);
      var tag := id.value[0] as char;
      if msgLength < 4 { return Broken; }
      if msgLength > 30000 && !ValidLongMessageType(tag) { return Broken; }
      msgLength := msgLength - 4;
      var avail := |inBuffer| - inCursor;
      if avail < msgLength { return Partial(msgLength); }
      return Complete(tag, msgLength);
    }

    /** One round of the loop; true when the loop goes on. */
    method ParseMessage(h: Readers, description: Option<nat>, grows: bool) returns (more: bool)
      requires Valid()
      modifies this
      ensures Valid() && Iterate(h, description, grows, old(Value())) == (if more then Continue(Value()) else Stop(Value()))
      ensures more ==> |inBuffer| - inStart < old(|inBuffer| - inStart)
    {
      var frame := ReadFrame();
      match frame
      case Incomplete => return false;
      case Broken => HandleSyncLoss(h); return false;
      case Partial(_) =>
        if !grows { HandleSyncLoss(h); }
        return false;
      case Complete(tag, msgLength) =>
        assert inBuffer[inStart..][5..] == inBuffer[inCursor..];
        var handled := Handle(h, description, tag, inBuffer[inCursor..], msgLength, core);
        core := handled.core;
        if handled.Hold? { return false; }
        if handled.moved != msgLength {
          core := core.(result := h.saveError(core.result), asyncStatus := Ready);
        }
        inStart := inStart + 5 + msgLength;
        return true;
    }

    method ParseInput(h: Readers, description: Option<nat>, grows: bool)
      requires Valid()
      modifies this
      ensures Valid() && Value() == ParseAll(h, description, grows, old(Value()))
    {
      var more := true;
      while more
        invariant Valid()
        invariant (if more then ParseAll(h, description, grows, Value()) else Value())
                  == ParseAll(h, description, grows, old(Value()))
        decreases more, |inBuffer| - inStart
      {
        more := ParseMessage(h, description, grows);
      }
    }
  }
}
