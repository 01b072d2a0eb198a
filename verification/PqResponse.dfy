/** Streams of well-formed messages: how they are framed and split, and how far one call gets. */
module PqResponse {
  import opened Wrappers
  import opened PqInput
  import opened PqTheorems
  import opened PqSplit
  import opened PqWire

  datatype Message = Message(id: char, body: seq<Byte>)

  /** Network order. */
  function Int32Bytes(n: nat): seq<Byte> {
    [n / 256 / 256 / 256 % 256, n / 256 / 256 % 256, n / 256 % 256, n % 256]
  }

  /** Short enough for its length field, and for its type to be believed. */
  predicate Sendable(m: Message) {
    && m.id as int < 256 && |m.body| + 4 < 0x8000_0000
    && (|m.body| + 4 <= 30000 || m.id in {'T', 't', 'D', 'd', 'V', 'E', 'N', 'A'})
  }

  /** Section 55.7 of the PostgreSQL 16 manual: type, length including itself, body. */
  function Encode(m: Message): seq<Byte> {
    [m.id as int % 256] + Int32Bytes(|m.body| + 4) + m.body
  }

  function EncodeAll(ms: seq<Message>): seq<Byte> {
    if ms == [] then [] else Encode(ms[0]) + EncodeAll(ms[1..])
  }

  /** The body is exactly what its readers read. */
  ghost predicate WellFormed(m: Message) {
    Sendable(m) && forall r: Reader :: Uses(m.id, r) ==> Scan(r, m.body) == Some(|m.body|)
  }

  // ----- Framing -----

  /** Lengths are signed, in two's complement. */
  lemma Int32Signed(n: int)
    requires -0x8000_0000 <= n < 0x8000_0000
    ensures Int32(Int32Bytes(if n >= 0 then n else n + 0x1_0000_0000)) == n
  {
    var u: nat := if n >= 0 then n else n + 0x1_0000_0000;
    var q1, r0 := u / 256, u % 256;
    var q2, r1 := q1 / 256, q1 % 256;
    var q3, r2 := q2 / 256, q2 % 256;
    assert u == q1 * 256 + r0 && q1 == q2 * 256 + r1 && q2 == q3 * 256 + r2;
    assert q3 < 256 && (n >= 0 <==> q3 < 128);
  }

  lemma Int32RoundTrip(n: nat)
    requires n < 0x8000_0000
    ensures Int32(Int32Bytes(n)) == n
  {
    Int32Signed(n);
  }

  lemma FrameOf(m: Message, rest: seq<Byte>)
    requires Sendable(m)
    ensures var s := Encode(m) + rest;
            FrameAt(s) == Complete(m.id, |m.body|) && s[5..] == m.body + rest && |Encode(m)| == 5 + |m.body|
  {
    var s := Encode(m) + rest;
    assert s[1..5] == Int32Bytes(|m.body| + 4);
    Int32RoundTrip(|m.body| + 4);
  }

  /** The length field, as an unsigned number. */
  function Length(rest: seq<Byte>): nat
    requires |rest| >= 5
  {
    ((rest[1] as nat * 256 + rest[2] as nat) * 256 + rest[3] as nat) * 256 + rest[4] as nat
  }

  /** Every input is framed by its first five bytes: type, and a signed length that includes itself. */
  lemma FrameExactly(rest: seq<Byte>)
    ensures FrameAt(rest).Incomplete? <==> |rest| < 5
    ensures FrameAt(rest).Broken? <==>
              && |rest| >= 5
              && (Length(rest) < 4 || Length(rest) >= 0x8000_0000
                  || (Length(rest) > 30000 && rest[0] as char !in {'T', 't', 'D', 'd', 'V', 'E', 'N', 'A'}))
    ensures FrameAt(rest).Partial? ==> FrameAt(rest).length == Length(rest) - 4 > |rest| - 5
    ensures FrameAt(rest).Complete? ==>
              FrameAt(rest).id == rest[0] as char && FrameAt(rest).length == Length(rest) - 4 <= |rest| - 5
  {
    if |rest| >= 5 {
      assert rest[1..5] == [rest[1], rest[2], rest[3], rest[4]];
    }
  }

  // ----- Splitting -----

  /** A scan that ends with the body ends there whatever follows. */
  lemma ScanEndsWithBody(r: Reader, body: seq<Byte>, rest: seq<Byte>)
    requires Scan(r, body) == Some(|body|)
    ensures Scan(r, body + rest) == Some(|body|)
  {
    assert (body + rest)[..|body|] == body;
    ScanLocal(r, body + rest, |body|);
  }

  /** The rest of the input is m and then rest. */
  predicate Next(c: Conn, m: Message, rest: seq<Byte>) {
    ConnOk(c) && Sendable(m) && c.buffer[c.inStart..] == Encode(m) + rest
  }

  lemma Behind(c: Conn, m: Message, rest: seq<Byte>)
    requires Next(c, m, rest)
    ensures c.inStart + 5 + |m.body| <= |c.buffer| && c.buffer[c.inStart + 5 + |m.body|..] == rest
  {
    var n := |Encode(m)|;
    assert n == 5 + |m.body| && |c.buffer[c.inStart..]| == n + |rest|;
    assert c.buffer[c.inStart + n..] == c.buffer[c.inStart..][n..];
    assert (Encode(m) + rest)[n..] == rest;
  }

  lemma NoOverrunHere(description: Option<nat>, c: Conn, m: Message, rest: seq<Byte>)
    requires Next(c, m, rest) && WellFormed(m)
    ensures !OverrunNow(description, c)
  {
    FrameOf(m, rest);
    var p := Reads(description, m.id, c.core);
    if p.Some? {
      ScanEndsWithBody(p.value.0, m.body, rest);
    }
  }

  lemma {:induction false} NoOverrunReached(saveError: Option<Result> -> Option<Result>,
                                            description: Option<nat>, c: Conn, ms: seq<Message>)
    requires ConnOk(c) && c.buffer[c.inStart..] == EncodeAll(ms) && forall k :: 0 <= k < |ms| ==> WellFormed(ms[k])
    ensures !OverrunReached(saveError, description, c)
    decreases |ms|
  {
    if ms != [] {
      var m, rest := ms[0], EncodeAll(ms[1..]);
      NoOverrunHere(description, c, m, rest);
      var i := Iterate(Wire(saveError), description, true, c);
      if i.Continue? {
        OneRound(Wire(saveError), description, true, c);
        FrameOf(m, rest);
        Behind(c, m, rest);
        NoOverrunReached(saveError, description, i.conn, ms[1..]);
      }
    }
  }

  /** Any stream of well-formed messages, cut anywhere, is parsed as if it had come in one piece. */
  lemma WellFormedSplit(saveError: Option<Result> -> Option<Result>,
                        description: Option<nat>, core: Core, ms: seq<Message>, chunks: seq<seq<Byte>>)
    requires forall k :: 0 <= k < |ms| ==> WellFormed(ms[k])
    requires Concat(chunks) == EncodeAll(ms)
    ensures var h, c := Wire(saveError), Conn([], 0, core, false);
            ParseChunks(h, description, c, chunks) == ParseAll(h, description, true, Conn(EncodeAll(ms), 0, core, false))
  {
    var c, whole := Conn([], 0, core, false), Conn(EncodeAll(ms), 0, core, false);
    assert Feed(c, Concat(chunks)) == whole && whole.buffer[0..] == EncodeAll(ms);
    NoOverrunReached(saveError, description, whole, ms);
    WireSplitInvariance(saveError, description, c, chunks);
  }

  // ----- One message -----

  function PastMessage(c: Conn, m: Message, core: Core): Conn {
    c.(inStart := c.inStart + 5 + |m.body|, core := core)
  }

  /** A message whose handler moved over exactly its body. */
  lemma Consumes(h: Readers, description: Option<nat>, c: Conn, m: Message, rest: seq<Byte>, core: Core)
    requires Next(c, m, rest)
    requires Handle(h, description, m.id, m.body + rest, |m.body|, c.core) == Moved(|m.body|, core)
    ensures var next := PastMessage(c, m, core);
            ConnOk(next) && next.buffer[next.inStart..] == rest
            && ParseAll(h, description, true, c) == ParseAll(h, description, true, next)
  {
    FrameOf(m, rest);
    var next := PastMessage(c, m, core);
    assert |c.buffer[c.inStart..]| == 5 + |m.body| + |rest|;
    assert c.buffer[next.inStart..] == c.buffer[c.inStart..][5 + |m.body|..];
    assert (Encode(m) + rest)[|Encode(m)|..] == rest;
    assert Iterate(h, description, true, c) == Continue(next);
  }

  /** A reader that gets exactly the body. */
  lemma ReadsBody(saveError: Option<Result> -> Option<Result>, r: Reader, body: seq<Byte>, rest: seq<Byte>, core: Core)
    requires Scan(r, body) == Some(|body|) && Expected(r, body, core)
    ensures ReadBody(saveError, r, body + rest, |body|, core)
            == Read(|body|, AfterRead(r, body, core), if r.CommandTag? then body[..|body| - 1] else [])
  {
    ScanEndsWithBody(r, body, rest);
    assert (body + rest)[..|body|] == body;
    if r.CommandTag? {
      assert (body + rest)[..|body| - 1] == body[..|body| - 1];
    }
    if r.DataRow? {
      assert Count(body + rest, 0) == Count(body, 0);
    }
  }

  // ----- How far a call gets -----

  /** Readers that take every well-formed message without waiting, notifications and notices to their end. */
  ghost predicate TakesWellFormed(h: Readers) {
    forall m: Message, rest: seq<Byte>, r: Reader, core: Core :: WellFormed(m) && Uses(m.id, r) ==> Takes(h, m, rest, r, core)
  }

  predicate Takes(h: Readers, m: Message, rest: seq<Byte>, r: Reader, core: Core) {
    var out := h.body(r, m.body + rest, |m.body|, core);
    out.Read? && (AlwaysAllowed(m.id) ==> out.moved == |m.body|)
  }

  lemma WireTakesWellFormed(saveError: Option<Result> -> Option<Result>)
    ensures TakesWellFormed(Wire(saveError))
  {
    forall m: Message, rest: seq<Byte>, r: Reader, core: Core | WellFormed(m) && Uses(m.id, r)
      ensures Takes(Wire(saveError), m, rest, r, core)
    {
      ScanEndsWithBody(r, m.body, rest);
    }
  }

  lemma HeldIfTaken(h: Readers, description: Option<nat>, m: Message, rest: seq<Byte>, core: Core)
    requires var p := Reads(description, m.id, core); p.Some? ==> Takes(h, m, rest, p.value.0, p.value.1)
    ensures var x := Handle(h, description, m.id, m.body + rest, |m.body|, core);
            && (x.Hold? ==> !Open(x.core.asyncStatus) && !AlwaysAllowed(m.id))
            && (AlwaysAllowed(m.id) ==> x == Moved(|m.body|, core))
  {}

  /** A well-formed message is held back only by the gate, and notifications and notices never are. */
  lemma HeldByTheGate(h: Readers, description: Option<nat>, m: Message, rest: seq<Byte>, core: Core)
    requires TakesWellFormed(h) && WellFormed(m)
    ensures var x := Handle(h, description, m.id, m.body + rest, |m.body|, core);
            && (x.Hold? ==> !Open(x.core.asyncStatus) && !AlwaysAllowed(m.id))
            && (AlwaysAllowed(m.id) ==> x == Moved(|m.body|, core))
  {
    var p := Reads(description, m.id, core);
    if p.Some? {
      assert Takes(h, m, rest, p.value.0, p.value.1);
    }
    HeldIfTaken(h, description, m, rest, core);
  }

  lemma GateStep(h: Readers, description: Option<nat>, c: Conn, m: Message, rest: seq<Byte>)
    requires TakesWellFormed(h) && Next(c, m, rest) && !c.bad && WellFormed(m)
    ensures var i := Iterate(h, description, true, c);
            && !i.conn.bad && ConnOk(i.conn) && i.conn.buffer == c.buffer
            && (i.Stop? ==> i.conn.inStart == c.inStart && !Open(i.conn.core.asyncStatus) && !AlwaysAllowed(m.id))
            && (i.Continue? ==> i.conn.buffer[i.conn.inStart..] == rest)
            && (!Open(c.core.asyncStatus) ==> i.conn.core == c.core)
  {
    FrameOf(m, rest);
    Behind(c, m, rest);
    HeldByTheGate(h, description, m, rest, c.core);
    if !Open(c.core.asyncStatus) {
      ClosedGate(h, description, m.id, m.body + rest, |m.body|, c.core);
    }
  }

  lemma TraceStep(h: Readers, description: Option<nat>, c: Conn, m: Message, rest: seq<Byte>)
    requires TakesWellFormed(h) && Next(c, m, rest) && !c.bad && WellFormed(m)
    requires Iterate(h, description, true, c).Continue?
    ensures var t, next := Trace(h, description, true, c), Iterate(h, description, true, c).conn;
            && ConnOk(next) && t == [t[0]] + Trace(h, description, true, next)
            && t[0].id == m.id && t[0].before == c.core && t[0].after == next.core
            && (!Open(c.core.asyncStatus) ==> AlwaysAllowed(m.id) && t[0].agreed && t[0].after == t[0].before)
  {
    GateStep(h, description, c, m, rest);
    FrameOf(m, rest);
    FirstIsGated(h, description, true, c);
    HeldByTheGate(h, description, m, rest, c.core);
  }

  /** The trace of a call against the messages: open up to j, then only notifications and notices up to k. */
  ghost predicate UpToTheGate(t: seq<Consumed>, ms: seq<Message>, j: nat, k: nat) {
    && j <= k <= |ms| && |t| == k
    && (forall i :: 0 <= i < k ==> t[i].id == ms[i].id)
    && (forall i :: 0 <= i < j ==> Open(t[i].before.asyncStatus))
    && (forall i :: j <= i < k ==>
          AlwaysAllowed(ms[i].id) && !Open(t[i].before.asyncStatus) && t[i].agreed && t[i].after == t[i].before)
  }

  lemma GateCons(e: Consumed, t: seq<Consumed>, m: Message, ms: seq<Message>, j: nat, k: nat)
    requires UpToTheGate(t, ms, j, k) && e.id == m.id && (t != [] ==> t[0].before == e.after)
    requires !Open(e.before.asyncStatus) ==> AlwaysAllowed(m.id) && e.agreed && e.after == e.before
    ensures UpToTheGate([e] + t, [m] + ms, if Open(e.before.asyncStatus) then j + 1 else 0, k + 1)
  {
    var all, msgs := [e] + t, [m] + ms;
    assert forall i :: 0 < i <= k ==> all[i] == t[i - 1] && msgs[i] == ms[i - 1];
    assert !Open(e.before.asyncStatus) ==> j == 0;
  }

  /** Where a call on ms ends: k messages are consumed, the first j of them in BUSY or IDLE. */
  ghost predicate EndsAtTheGate(h: Readers, description: Option<nat>, c: Conn, ms: seq<Message>, j: nat, k: nat)
    requires ConnOk(c)
  {
    var r, t := ParseAll(h, description, true, c), Trace(h, description, true, c);
    && UpToTheGate(t, ms, j, k)
    && !r.bad && r.buffer == c.buffer && r.buffer[r.inStart..] == EncodeAll(ms[k..])
    && (k < |ms| ==> !Open(r.core.asyncStatus) && !AlwaysAllowed(ms[k].id))
    && (!Open(c.core.asyncStatus) ==> r.core == c.core)
    && (k > 0 && !Open(t[k - 1].after.asyncStatus) ==> r.core == t[k - 1].after)
  }

  lemma GateMoves(h: Readers, description: Option<nat>, c: Conn, m: Message, ms: seq<Message>, j: nat, k: nat)
    requires TakesWellFormed(h) && Next(c, m, EncodeAll(ms)) && !c.bad && WellFormed(m)
    requires var i := Iterate(h, description, true, c);
             i.Continue? && ConnOk(i.conn) && EndsAtTheGate(h, description, i.conn, ms, j, k)
    ensures EndsAtTheGate(h, description, c, [m] + ms, if Open(c.core.asyncStatus) then j + 1 else 0, k + 1)
  {
    var next := Iterate(h, description, true, c).conn;
    var t, tail := Trace(h, description, true, c), Trace(h, description, true, next);
    GateStep(h, description, c, m, EncodeAll(ms));
    TraceStep(h, description, c, m, EncodeAll(ms));
    TraceGated(h, description, true, next);
    GateCons(t[0], tail, m, ms, j, k);
    assert ([m] + ms)[k + 1..] == ms[k..];
  }

  lemma GateStops(h: Readers, description: Option<nat>, c: Conn, ms: seq<Message>)
    requires TakesWellFormed(h) && ConnOk(c) && !c.bad && c.buffer[c.inStart..] == EncodeAll(ms)
    requires ms == [] || (WellFormed(ms[0]) && Iterate(h, description, true, c).Stop?)
    ensures EndsAtTheGate(h, description, c, ms, 0, 0)
  {
    assert ms[0..] == ms;
    if ms == [] {
      assert c.buffer[c.inStart..] == [];
    } else {
      GateStep(h, description, c, ms[0], EncodeAll(ms[1..]));
    }
  }

  lemma {:induction false} ToTheGate(h: Readers, description: Option<nat>, c: Conn, ms: seq<Message>) returns (j: nat, k: nat)
    requires TakesWellFormed(h) && ConnOk(c) && !c.bad && c.buffer[c.inStart..] == EncodeAll(ms)
    requires forall i :: 0 <= i < |ms| ==> WellFormed(ms[i])
    ensures EndsAtTheGate(h, description, c, ms, j, k)
    decreases |ms|
  {
    j, k := 0, 0;
    if ms == [] || Iterate(h, description, true, c).Stop? {
      GateStops(h, description, c, ms);
    } else {
      var m, rest, next := ms[0], ms[1..], Iterate(h, description, true, c).conn;
      GateStep(h, description, c, m, EncodeAll(rest));
      j, k := ToTheGate(h, description, next, rest);
      GateMoves(h, description, c, m, rest, j, k);
      assert ms == [m] + rest;
      j, k := if Open(c.core.asyncStatus) then j + 1 else 0, k + 1;
    }
  }

  /**
   One call on any stream of well-formed messages consumes exactly the messages up to the first that closes the
   gate, then the notifications and notices behind it, which change nothing, and stops at the first other
   message or at the end.
   */
  lemma ExactlyToTheGate(saveError: Option<Result> -> Option<Result>, description: Option<nat>, c: Conn, ms: seq<Message>)
    requires ConnOk(c) && !c.bad && c.buffer[c.inStart..] == EncodeAll(ms)
    requires forall i :: 0 <= i < |ms| ==> WellFormed(ms[i])
    ensures exists j, k :: EndsAtTheGate(Wire(saveError), description, c, ms, j, k)
  {
    WireTakesWellFormed(saveError);
    var j, k := ToTheGate(Wire(saveError), description, c, ms);
  }

  // ----- Unexpected messages -----

  /** In IDLE, messages other than notifications, notices, errors and parameter changes are all dropped, changing nothing. */
  lemma {:induction false} IdleDrops(h: Readers, description: Option<nat>, c: Conn, ms: seq<Message>)
    requires ConnOk(c) && !c.bad && c.core.asyncStatus == Idle && c.buffer[c.inStart..] == EncodeAll(ms)
    requires forall i :: 0 <= i < |ms| ==> Sendable(ms[i]) && ms[i].id !in {'A', 'N', 'E', 'S'}
    ensures ParseAll(h, description, true, c) == c.(inStart := |c.buffer|)
    decreases |ms|
  {
    if ms == [] {
      assert c.buffer[c.inStart..] == [];
      StopsAtTail(h, description, c);
    } else {
      var m, rest := ms[0], EncodeAll(ms[1..]);
      assert Handle(h, description, m.id, m.body + rest, |m.body|, c.core) == Moved(|m.body|, c.core);
      Consumes(h, description, c, m, rest, c.core);
      IdleDrops(h, description, PastMessage(c, m, c.core), ms[1..]);
    }
  }
}
