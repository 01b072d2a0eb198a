/**
 The body readers of pqxParseInput3 as scans of the buffer, following section 55.7 (Message Formats) of the
 PostgreSQL 16 manual. A scan may run past the end of its message while bytes follow it in the buffer.
 */
module PqWire {
  import opened Wrappers
  import opened PqInput
  import opened PqSplit

  // ----- Scans: from a position to the position behind what was read, None on EOF -----

  /** pqGets: up to and including the next zero byte. */
  function TextEnd(b: seq<Byte>, at: nat): (r: Option<nat>)
    ensures r.Some? ==> at < r.value <= |b|
    decreases |b| - at
  {
    if at >= |b| then None else if b[at] == 0 then Some(at + 1) else TextEnd(b, at + 1)
  }

  datatype Field = Bytes(count: nat) | Text

  function FieldEnd(b: seq<Byte>, at: nat, f: Field): (r: Option<nat>)
    ensures r.Some? ==> at <= r.value <= |b|
  {
    if f.Text? then TextEnd(b, at) else if at + f.count <= |b| then Some(at + f.count) else None
  }

  function Fields(b: seq<Byte>, at: nat, fields: seq<Field>): (r: Option<nat>)
    ensures r.Some? ==> at <= r.value <= |b|
    decreases |fields|
  {
    if fields == [] then if at <= |b| then Some(at) else None
    else
      var next := FieldEnd(b, at, fields[0]);
      if next.None? then None else Fields(b, next.value, fields[1..])
  }

  function RowFields(n: nat): seq<Field> {
    if n == 0 then [] else [Text, Bytes(18)] + RowFields(n - 1)
  }

  /** The columns of a data row: a signed length, then as many bytes if it is positive. */
  function Columns(b: seq<Byte>, at: nat, n: nat): (r: Option<nat>)
    ensures r.Some? ==> at <= r.value <= |b|
    decreases n
  {
    if n == 0 then if at <= |b| then Some(at) else None
    else if at + 4 > |b| then None
    else
      var vlen := Int32(b[at..at + 4]);
      Columns(b, at + 4 + (if vlen > 0 then vlen else 0), n - 1)
  }

  /** The fields of an error or notice: type byte and text, ended by a zero byte. */
  function ErrorFields(b: seq<Byte>, at: nat): (r: Option<nat>)
    ensures r.Some? ==> at <= r.value <= |b|
    decreases |b| - at
  {
    if at >= |b| then None
    else if b[at] == 0 then Some(at + 1)
    else
      var next := TextEnd(b, at + 1);
      if next.None? then None else ErrorFields(b, next.value)
  }

  function Int16(b: seq<Byte>, at: nat): nat
    requires at + 2 <= |b|
  {
    b[at] as int * 0x100 + b[at + 1] as int
  }

  /** A count of fields; the messages that have one are long enough for it. */
  function Count(b: seq<Byte>, at: nat): nat {
    if at + 2 <= |b| then Int16(b, at) else 0
  }

  function Scan(r: Reader, b: seq<Byte>): (end: Option<nat>)
    ensures end.Some? ==> end.value <= |b|
  {
    match r
    case Notify => Fields(b, 0, [Bytes(4), Text, Text])
    case Notice | ErrorMessage => ErrorFields(b, 0)
    case ParameterStatus => Fields(b, 0, [Text, Text])
    case CommandTag => Fields(b, 0, [Text])
    case ReadyForQuery => Fields(b, 0, [Bytes(1)])
    case BackendKey => Fields(b, 0, [Bytes(4), Bytes(4)])
    case RowDescription => if |b| < 2 then None else Fields(b, 2, RowFields(Int16(b, 0)))
    case ParamDescription => if |b| < 2 then None else Fields(b, 2, [Bytes(4 * Int16(b, 0))])
    case DataRow => if |b| < 2 then None else Columns(b, 2, Int16(b, 0))
    case CopyStart(_) => if |b| < 3 then None else Fields(b, 3, [Bytes(2 * Int16(b, 1))])
  }

  // ----- The readers -----

  /** 'T', 't' and 'D' report an error when they run out of data; the others wait for more. */
  predicate ComplainsOnEof(r: Reader) {
    r.RowDescription? || r.ParamDescription? || r.DataRow?
  }

  predicate Describing(core: Core) {
    core.queue == [] || core.queue[0] == Describe
  }

  function CopyStatus(id: char): ExecStatus {
    OtherStatus(id as int)
  }

  /** The connection after the reader got all it wanted. */
  function AfterRead(r: Reader, data: seq<Byte>, core: Core): Core {
    match r
    case ErrorMessage => core.(result := Some(Result(FatalError, 0, data, [])))
    case RowDescription =>
      var base := if !Describing(core) then Result(TuplesOk, 0, [], []) else ResultOr(core, CommandOk);
      var done := core.(result := Some(base.(columns := Count(data, 0), text := base.text + data)));
      if Describing(core) then done.(asyncStatus := Ready) else done
    case ParamDescription => core.(result := Some(Result(CommandOk, 0, data, [])))
    case DataRow => if core.result.None? then core else core.(result := Some(core.result.value.(text := core.result.value.text + data)))
    case CopyStart(id) => core.(result := Some(Result(CopyStatus(id), Count(data, 1), data, [])))
    case _ => core
  }

  function Wire(saveError: Option<Result> -> Option<Result>): Readers {
    Readers((r: Reader, b: seq<Byte>, length: nat, core: Core) => ReadBody(saveError, r, b, length, core), saveError)
  }

  /** A data row has to have as many columns as the result. */
  predicate Expected(r: Reader, b: seq<Byte>, core: Core) {
    r.DataRow? ==> core.result.Some? && Count(b, 0) == core.result.value.columns
  }

  function ReadBody(saveError: Option<Result> -> Option<Result>, r: Reader, b: seq<Byte>, length: nat, core: Core): Outcome
  {
    var end := Scan(r, b);
    if end.Some? && Expected(r, b, core)
    then Read(end.value, AfterRead(r, b[..end.value], core), if r.CommandTag? then b[..end.value - 1] else [])
    else if ComplainsOnEof(r) then Read(length, core.(result := saveError(None)), [])
    else Eof
  }

  // ----- A scan sees no further than where it ends -----

  /** What a scan ending at end gives on the first k bytes. */
  function Cut(end: Option<nat>, k: nat): Option<nat> {
    if end.Some? && end.value <= k then end else None
  }

  lemma {:induction false} TextLocal(b: seq<Byte>, at: nat, k: nat)
    requires k <= |b|
    ensures TextEnd(b[..k], at) == Cut(TextEnd(b, at), k)
    decreases |b| - at
  {
    if at < |b| {
      TextLocal(b, at + 1, k);
    }
  }

  lemma {:induction false} FieldsLocal(b: seq<Byte>, at: nat, fields: seq<Field>, k: nat)
    requires k <= |b|
    ensures Fields(b[..k], at, fields) == Cut(Fields(b, at, fields), k)
    decreases |fields|
  {
    if fields != [] {
      TextLocal(b, at, k);
      var next := FieldEnd(b, at, fields[0]);
      if next.Some? {
        FieldsLocal(b, next.value, fields[1..], k);
      }
    }
  }

  lemma {:induction false} ColumnsLocal(b: seq<Byte>, at: nat, n: nat, k: nat)
    requires k <= |b|
    ensures Columns(b[..k], at, n) == Cut(Columns(b, at, n), k)
    decreases n
  {
    if n > 0 && at + 4 <= |b| {
      var vlen := Int32(b[at..at + 4]);
      ColumnsLocal(b, at + 4 + (if vlen > 0 then vlen else 0), n - 1, k);
      assert at + 4 <= k ==> b[..k][at..at + 4] == b[at..at + 4];
    }
  }

  lemma {:induction false} ErrorFieldsLocal(b: seq<Byte>, at: nat, k: nat)
    requires k <= |b|
    ensures ErrorFields(b[..k], at) == Cut(ErrorFields(b, at), k)
    decreases |b| - at
  {
    if at < |b| && b[at] != 0 {
      TextLocal(b, at + 1, k);
      var next := TextEnd(b, at + 1);
      if next.Some? {
        ErrorFieldsLocal(b, next.value, k);
      }
    }
  }

  lemma ScanLocal(r: Reader, b: seq<Byte>, k: nat)
    requires k <= |b|
    ensures Scan(r, b[..k]) == Cut(Scan(r, b), k)
  {
    match r
    case Notify => FieldsLocal(b, 0, [Bytes(4), Text, Text], k);
    case Notice => ErrorFieldsLocal(b, 0, k);
    case ErrorMessage => ErrorFieldsLocal(b, 0, k);
    case ParameterStatus => FieldsLocal(b, 0, [Text, Text], k);
    case CommandTag => FieldsLocal(b, 0, [Text], k);
    case ReadyForQuery => FieldsLocal(b, 0, [Bytes(1)], k);
    case BackendKey => FieldsLocal(b, 0, [Bytes(4), Bytes(4)], k);
    case RowDescription => if |b| >= 2 { FieldsLocal(b, 2, RowFields(Int16(b, 0)), k); }
    case ParamDescription => if |b| >= 2 { FieldsLocal(b, 2, [Bytes(4 * Int16(b, 0))], k); }
    case DataRow => if |b| >= 2 { ColumnsLocal(b, 2, Int16(b, 0), k); }
    case CopyStart(_) => if |b| >= 3 { FieldsLocal(b, 3, [Bytes(2 * Int16(b, 1))], k); }
  }

  // ----- Which messages are read the same however they arrive -----

  /** The scan ends, but only behind the end of its message. */
  predicate Overruns(r: Reader, body: seq<Byte>, length: nat) {
    Scan(r, body).Some? && Scan(r, body).value > length
  }

  lemma ReadPrefix(saveError: Option<Result> -> Option<Result>,
                   r: Reader, body: seq<Byte>, length: nat, core: Core, k: nat)
    requires length <= k <= |body| && (ComplainsOnEof(r) && Expected(r, body, core) ==> !Overruns(r, body, length))
    ensures var m := ReadBody(saveError, r, body[..k], length, core);
            m.Eof? || m == ReadBody(saveError, r, body, length, core)
  {
    ScanLocal(r, body, k);
    var end := Scan(r, body);
    if end.Some? && end.value <= k {
      assert body[..k][..end.value] == body[..end.value];
      assert r.CommandTag? ==> body[..k][..end.value - 1] == body[..end.value - 1];
    }
  }

  lemma SteadyUnlessOverrun(saveError: Option<Result> -> Option<Result>,
                            r: Reader, body: seq<Byte>, length: nat, core: Core)
    requires ComplainsOnEof(r) && Expected(r, body, core) ==> !Overruns(r, body, length)
    ensures Steady(Wire(saveError), r, body, length, core)
  {
    var h := Wire(saveError);
    forall k | length <= k <= |body|
      ensures h.body(r, body[..k], length, core).Eof? || h.body(r, body[..k], length, core) == h.body(r, body, length, core)
    {
      ReadPrefix(saveError, r, body, length, core, k);
    }
  }

  /** Exactly the overrunning 'T', 't' and expected 'D' messages are read differently when cut off at their end. */
  lemma SteadyIff(saveError: Option<Result> -> Option<Result>,
                  r: Reader, body: seq<Byte>, length: nat, core: Core)
    requires length <= |body|
    ensures Steady(Wire(saveError), r, body, length, core)
            <==> !(ComplainsOnEof(r) && Overruns(r, body, length) && Expected(r, body, core))
  {
    if ComplainsOnEof(r) && Overruns(r, body, length) && Expected(r, body, core) {
      ScanLocal(r, body, length);
      var h := Wire(saveError);
      assert h.body(r, body[..length], length, core) != h.body(r, body, length, core);
    } else {
      SteadyUnlessOverrun(saveError, r, body, length, core);
    }
  }

  /** The next message is complete and will be given to a reader that overruns it and complains on less. */
  predicate OverrunNow(description: Option<nat>, c: Conn)
    requires ConnOk(c)
  {
    var rest := c.buffer[c.inStart..];
    var f := FrameAt(rest);
    f.Complete? &&
    var p := Reads(description, f.id, c.core);
    p.Some? && ComplainsOnEof(p.value.0) && Overruns(p.value.0, rest[5..], f.length) && Expected(p.value.0, rest[5..], p.value.1)
  }

  /** One call reaches such a message: an overrunning 'T', 't' or expected 'D' in BUSY. */
  predicate OverrunReached(saveError: Option<Result> -> Option<Result>, description: Option<nat>, c: Conn)
    requires ConnOk(c)
    decreases |c.buffer| - c.inStart
  {
    OverrunNow(description, c)
    || var i := Iterate(Wire(saveError), description, true, c);
       i.Continue? && OverrunReached(saveError, description, i.conn)
  }

  lemma SteadyIfNoOverrunNow(saveError: Option<Result> -> Option<Result>, description: Option<nat>, c: Conn)
    requires ConnOk(c) && !OverrunNow(description, c)
    ensures SteadyNow(Wire(saveError), description, c)
  {
    var rest := c.buffer[c.inStart..];
    var f := FrameAt(rest);
    if f.Complete? {
      var p := Reads(description, f.id, c.core);
      if p.Some? {
        SteadyUnlessOverrun(saveError, p.value.0, rest[5..], f.length, p.value.1);
      }
    }
  }

  lemma {:induction false} SteadyIfNoOverrun(saveError: Option<Result> -> Option<Result>, description: Option<nat>, c: Conn)
    requires ConnOk(c) && !OverrunReached(saveError, description, c)
    ensures SteadyRun(Wire(saveError), description, c)
    decreases |c.buffer| - c.inStart
  {
    SteadyIfNoOverrunNow(saveError, description, c);
    var i := Iterate(Wire(saveError), description, true, c);
    if i.Continue? {
      SteadyIfNoOverrun(saveError, description, i.conn);
    }
  }

  /** Split invariance with the real readers, for every stream on which no overrunning message is reached. */
  lemma WireSplitInvariance(saveError: Option<Result> -> Option<Result>, description: Option<nat>, c: Conn, chunks: seq<seq<Byte>>)
    requires ConnOk(c) && (!c.bad ==> !OverrunReached(saveError, description, Feed(c, Concat(chunks))))
    ensures var h := Wire(saveError);
            ParseChunks(h, description, c, chunks) == ParseAll(h, description, true, Feed(c, Concat(chunks)))
  {
    if !c.bad {
      SteadyIfNoOverrun(saveError, description, Feed(c, Concat(chunks)));
    }
    SplitInvariance(Wire(saveError), description, c, chunks);
  }

  /**
   An overrunning message does arrive differently: a ParameterDescription of length 5, one byte short, leaves
   the connection BUSY when parsed alone and READY when one more byte is already there.
   */
  lemma OverrunSeesTheSplit(saveError: Option<Result> -> Option<Result>, core: Core)
    requires core.asyncStatus == Busy
    ensures var h := Wire(saveError);
            var c := Conn([], 0, core, false);
            var message: seq<Byte> := ['t' as int, 0, 0, 0, 5, 0];
            && ParseChunks(h, None, c, [message, [0]]).core.asyncStatus == Busy
            && ParseChunks(h, None, c, [message + [0]]).core.asyncStatus == Ready
  {
    var h := Wire(saveError);
    var message: seq<Byte> := ['t' as int, 0, 0, 0, 5, 0];
    var alone := Conn(message, 0, core, false);
    ShortMessage(h, core, message);
    assert alone == Feed(Conn([], 0, core, false), message);
    var r := ParseAll(h, None, true, alone);
    assert r == Conn(message, 6, core.(result := saveError(None)), false);
    StopsAtTail(h, None, Feed(r, [0]));
    assert ParseChunks(h, None, Conn([], 0, core, false), [message, [0]]) == ParseChunks(h, None, r, [[0]]);

    var whole := message + [0];
    LongerMessage(h, core, whole);
    assert Conn(whole, 0, core, false) == Feed(Conn([], 0, core, false), whole);
    StopsAtTail(h, None, Iterate(h, None, true, Conn(whole, 0, core, false)).conn);
  }

  lemma StopsAtTail(h: Readers, description: Option<nat>, c: Conn)
    requires c.inStart <= |c.buffer| < c.inStart + 5 && !c.bad
    ensures ParseAll(h, description, true, c) == c
  {}

  lemma ShortMessage(h: Readers, core: Core, message: seq<Byte>)
    requires core.asyncStatus == Busy && message == ['t' as int, 0, 0, 0, 5, 0]
    requires h == Wire(h.saveError)
    ensures ParseAll(h, None, true, Conn(message, 0, core, false))
            == Conn(message, 6, core.(result := h.saveError(None)), false)
  {
    var c := Conn(message, 0, core, false);
    assert message[0..] == message && message[1..5] == [0, 0, 0, 5] && message[5..] == [0];
    assert FrameAt(message) == Complete('t', 1);
    assert Iterate(h, None, true, c).Continue?;
    StopsAtTail(h, None, Iterate(h, None, true, c).conn);
  }

  lemma LongerMessage(h: Readers, core: Core, whole: seq<Byte>)
    requires core.asyncStatus == Busy && whole == ['t' as int, 0, 0, 0, 5, 0, 0]
    requires h == Wire(h.saveError)
    ensures var i := Iterate(h, None, true, Conn(whole, 0, core, false));
            i.Continue? && i.conn.buffer == whole && i.conn.inStart == 6 && i.conn.core.asyncStatus == Ready && !i.conn.bad
  {
    assert whole[0..] == whole && whole[1..5] == [0, 0, 0, 5] && whole[5..] == [0, 0];
    assert FrameAt(whole) == Complete('t', 1);
    assert Fields([0, 0], 2, [Bytes(0)]) == Some(2);
  }
}
