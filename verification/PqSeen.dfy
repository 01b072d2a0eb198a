/** Which streams see how their bytes arrive: a cut is invisible everywhere iff no overrunning message is reached. */
module PqSeen {
  import opened Wrappers
  import opened PqInput
  import opened PqTheorems
  import opened PqSplit
  import opened PqWire

  // ----- Steady streams: cutting changes nothing -----

  /** The entry of the first message, whatever is behind it. */
  lemma SameEntry(h: Readers, description: Option<nat>, c: Conn, more: seq<Byte>) returns (e: Consumed)
    requires ConnOk(c) && !c.bad && SteadyNow(h, description, Feed(c, more)) && Iterate(h, description, true, c).Continue?
    ensures var next := Iterate(h, description, true, c).conn;
            && ConnOk(next) && !next.bad
            && Iterate(h, description, true, Feed(c, more)) == Continue(Feed(next, more))
            && Trace(h, description, true, c) == [e] + Trace(h, description, true, next)
            && Trace(h, description, true, Feed(c, more)) == [e] + Trace(h, description, true, Feed(next, more))
  {
    IterateFed(h, description, c, more);
    var rest, whole := c.buffer[c.inStart..], (c.buffer + more)[c.inStart..];
    RestFed(c, more);
    var f := FrameAt(rest);
    FrameKept(rest, more);
    HandlePrefix(h, description, f.id, rest[5..], whole[5..], f.length, c.core);
    e := Trace(h, description, true, c)[0];
  }

  /** Readers that never wait in the middle of a row. */
  ghost predicate RowsNeverWait(h: Readers) {
    forall body: seq<Byte>, length: nat, core: Core :: h.body(DataRow, body, length, core).Read?
  }

  lemma HoldAnyway(h: Readers, description: Option<nat>, id: char, part: seq<Byte>, body: seq<Byte>, length: nat, core: Core)
    requires RowsNeverWait(h)
    ensures var m := Handle(h, description, id, part, length, core);
            m.Hold? && m.core != core ==> Handle(h, description, id, body, length, core) == m
  {}

  /** A held message that changes the connection is held whatever is behind it. */
  lemma HeldAnyway(h: Readers, description: Option<nat>, c: Conn, more: seq<Byte>)
    requires ConnOk(c) && !c.bad && RowsNeverWait(h)
    ensures var i := Iterate(h, description, true, c);
            i.Stop? && !i.conn.bad && i.conn.core != c.core ==> Iterate(h, description, true, Feed(c, more)).Stop?
  {
    var rest, whole := c.buffer[c.inStart..], (c.buffer + more)[c.inStart..];
    RestFed(c, more);
    var f := FrameAt(rest);
    if f.Complete? {
      FrameKept(rest, more);
      HoldAnyway(h, description, f.id, rest[5..], whole[5..], f.length, c.core);
    }
  }

  lemma StoppedTrace(h: Readers, description: Option<nat>, c: Conn, more: seq<Byte>)
    requires ConnOk(c) && !c.bad && RowsNeverWait(h) && SteadyNow(h, description, Feed(c, more))
    requires Iterate(h, description, true, c).Stop?
    ensures var r := Iterate(h, description, true, c).conn;
            ConnOk(Feed(r, more)) && Trace(h, description, true, Feed(r, more)) == Trace(h, description, true, Feed(c, more))
  {
    var r := Iterate(h, description, true, c).conn;
    IterateFed(h, description, c, more);
    HeldAnyway(h, description, c, more);
    OneRound(h, description, true, c);
    if !r.bad && r.core == c.core {
      assert r == c;
    }
  }

  lemma ConsAppend<T>(e: T, a: seq<T>, b: seq<T>)
    ensures [e] + a + b == [e] + (a + b)
  {}

  /** The messages consumed before and after more bytes arrive are those consumed with all of them there. */
  lemma {:induction false} TraceFed(h: Readers, description: Option<nat>, c: Conn, more: seq<Byte>)
    requires ConnOk(c) && !c.bad && RowsNeverWait(h) && SteadyRun(h, description, Feed(c, more))
    ensures Trace(h, description, true, c) + Trace(h, description, true, Feed(ParseAll(h, description, true, c), more))
            == Trace(h, description, true, Feed(c, more))
    decreases |c.buffer| - c.inStart
  {
    var i := Iterate(h, description, true, c);
    if i.Continue? {
      var e := SameEntry(h, description, c, more);
      OneRound(h, description, true, c);
      TraceFed(h, description, i.conn, more);
      var r := ParseAll(h, description, true, i.conn);
      assert ParseAll(h, description, true, c) == r;
      ConsAppend(e, Trace(h, description, true, i.conn), Trace(h, description, true, Feed(r, more)));
    } else {
      StoppedTrace(h, description, c, more);
    }
  }

  // ----- Overrunning messages: some cut shows -----

  function FirstBytes(c: Conn, k: nat): Conn
    requires k <= |c.buffer|
  {
    c.(buffer := c.buffer[..k])
  }

  /** A call that comes to BUSY was in BUSY, and its first message agreed with its length. */
  lemma StaysBusy(h: Readers, description: Option<nat>, c: Conn)
    requires ConnOk(c) && Iterate(h, description, true, c).Continue? && Iterate(h, description, true, c).conn.core.asyncStatus == Busy
    ensures var rest := c.buffer[c.inStart..];
            var f := FrameAt(rest);
            && f.Complete? && c.core.asyncStatus == Busy
            && var m := Handle(h, description, f.id, rest[5..], f.length, c.core); m.Moved? && m.moved == f.length
  {}

  lemma {:induction false} OverrunInBusy(saveError: Option<Result> -> Option<Result>, description: Option<nat>, c: Conn)
    requires ConnOk(c) && OverrunReached(saveError, description, c)
    ensures c.core.asyncStatus == Busy
    decreases |c.buffer| - c.inStart
  {
    if !OverrunNow(description, c) {
      var i := Iterate(Wire(saveError), description, true, c);
      OverrunInBusy(saveError, description, i.conn);
      StaysBusy(Wire(saveError), description, c);
    }
  }

  /** The cursor moves as far as the reader says. */
  lemma MovesAsRead(h: Readers, description: Option<nat>, id: char, body: seq<Byte>, length: nat, core: Core)
    requires Reads(description, id, core).Some?
    ensures var p := Reads(description, id, core).value;
            var (out, m) := (h.body(p.0, body, length, p.1), Handle(h, description, id, body, length, core));
            if out.Eof? then m.Hold? else m.Moved? && m.moved == out.moved
  {}

  /** A cut behind a message leaves its frame and what its reader may see of it. */
  lemma FrameCut(buffer: seq<Byte>, from: nat, k: nat)
    requires from <= k <= |buffer| && FrameAt(buffer[from..]).Complete? && from + 5 + FrameAt(buffer[from..]).length <= k
    ensures var (rest, short) := (buffer[from..], buffer[..k][from..]);
            FrameAt(short) == FrameAt(rest) && short[5..] == rest[5..][..k - from - 5]
  {
    var rest, short := buffer[from..], buffer[..k][from..];
    assert short == rest[..k - from] && short[1..5] == rest[1..5];
  }

  /** The first message moves the cursor this far. */
  predicate FirstMoves(h: Readers, description: Option<nat>, c: Conn, moved: int)
    requires ConnOk(c)
  {
    var rest := c.buffer[c.inStart..];
    var f := FrameAt(rest);
    f.Complete? && var m := Handle(h, description, f.id, rest[5..], f.length, c.core); m.Moved? && m.moved == moved
  }

  lemma FirstAgreed(h: Readers, description: Option<nat>, c: Conn, moved: int)
    requires ConnOk(c) && FirstMoves(h, description, c, moved)
    ensures var t := Trace(h, description, true, c);
            t != [] && t[0].agreed == (moved == FrameAt(c.buffer[c.inStart..]).length)
  {}

  lemma OverrunReads(saveError: Option<Result> -> Option<Result>, r: Reader, body: seq<Byte>, length: nat, core: Core)
    requires length <= |body| && ComplainsOnEof(r) && Overruns(r, body, length) && Expected(r, body, core)
    ensures var (part, whole) := (ReadBody(saveError, r, body[..length], length, core), ReadBody(saveError, r, body, length, core));
            part.Read? && part.moved == length && whole.Read? && whole.moved > length
  {
    ScanLocal(r, body, length);
  }

  /** Cut off at its end, an overrunning message agrees with its length; with more bytes behind it, it does not. */
  lemma OverrunShows(saveError: Option<Result> -> Option<Result>, description: Option<nat>, c: Conn) returns (end: nat)
    requires ConnOk(c) && OverrunNow(description, c)
    ensures c.inStart <= end <= |c.buffer| && ConnOk(FirstBytes(c, end))
    ensures !(Trace(Wire(saveError), description, true, FirstBytes(c, end)) <= Trace(Wire(saveError), description, true, c))
  {
    var h, rest := Wire(saveError), c.buffer[c.inStart..];
    var f := FrameAt(rest);
    end := c.inStart + 5 + f.length;
    FrameCut(c.buffer, c.inStart, end);
    var p := Reads(description, f.id, c.core).value;
    OverrunReads(saveError, p.0, rest[5..], f.length, p.1);
    MovesAsRead(h, description, f.id, rest[5..], f.length, c.core);
    MovesAsRead(h, description, f.id, rest[5..][..f.length], f.length, c.core);
    FirstAgreed(h, description, c, h.body(p.0, rest[5..], f.length, p.1).moved);
    FirstAgreed(h, description, FirstBytes(c, end), f.length);
  }

  /** A reader that agreed with the length of its message does so on any cut behind it. */
  lemma AgreedOnCut(saveError: Option<Result> -> Option<Result>, r: Reader, body: seq<Byte>, length: nat, core: Core, k: nat)
    requires length <= k <= |body| && (ComplainsOnEof(r) && Expected(r, body, core) ==> !Overruns(r, body, length))
    requires var out := ReadBody(saveError, r, body, length, core); out.Read? && out.moved == length
    ensures ReadBody(saveError, r, body[..k], length, core) == ReadBody(saveError, r, body, length, core)
  {
    ScanLocal(r, body, k);
    ReadPrefix(saveError, r, body, length, core, k);
  }

  /** So a message that keeps the connection BUSY does the same on any cut behind it. */
  lemma GoesOnOnCut(saveError: Option<Result> -> Option<Result>, description: Option<nat>, c: Conn, k: nat)
    requires ConnOk(c) && !OverrunNow(description, c)
    requires var i := Iterate(Wire(saveError), description, true, c);
             i.Continue? && i.conn.core.asyncStatus == Busy && i.conn.inStart <= k <= |c.buffer|
    ensures Iterate(Wire(saveError), description, true, FirstBytes(c, k)).Continue?
  {
    var h, rest := Wire(saveError), c.buffer[c.inStart..];
    StaysBusy(h, description, c);
    var f := FrameAt(rest);
    var short := c.buffer[..k][c.inStart..];
    FrameCut(c.buffer, c.inStart, k);
    var p := Reads(description, f.id, c.core);
    if p.Some? {
      MovesAsRead(h, description, f.id, rest[5..], f.length, c.core);
      AgreedOnCut(saveError, p.value.0, rest[5..], f.length, p.value.1, |short| - 5);
    }
    HandleSame(h, description, f.id, rest[5..], short[5..], f.length, c.core);
  }

  lemma SameEntryOnCut(h: Readers, description: Option<nat>, c: Conn, next: Conn, k: nat) returns (e: Consumed)
    requires ConnOk(c) && !c.bad && SteadyNow(h, description, c) && Iterate(h, description, true, c) == Continue(next)
    requires ConnOk(next) && next.buffer == c.buffer && next.inStart <= k <= |c.buffer|
    requires c.inStart <= k && Iterate(h, description, true, FirstBytes(c, k)).Continue?
    ensures Trace(h, description, true, c) == [e] + Trace(h, description, true, next)
    ensures Trace(h, description, true, FirstBytes(c, k)) == [e] + Trace(h, description, true, FirstBytes(next, k))
  {
    var part, more := FirstBytes(c, k), c.buffer[k..];
    assert c.buffer[..k] + more == c.buffer;
    assert Feed(part, more) == c;
    e := SameEntry(h, description, part, more);
    var cut := Iterate(h, description, true, part).conn;
    OneRound(h, description, true, part);
    assert cut == FirstBytes(next, k);
  }

  /** A cut that shows in the rest of a call shows in the call. */
  lemma CutBehind(h: Readers, description: Option<nat>, c: Conn, next: Conn, k: nat)
    requires ConnOk(c) && !c.bad && SteadyNow(h, description, c) && Iterate(h, description, true, c) == Continue(next)
    requires ConnOk(next) && next.buffer == c.buffer && next.inStart <= k <= |c.buffer|
    requires c.inStart <= k && Iterate(h, description, true, FirstBytes(c, k)).Continue?
    requires !(Trace(h, description, true, FirstBytes(next, k)) <= Trace(h, description, true, next))
    ensures !(Trace(h, description, true, FirstBytes(c, k)) <= Trace(h, description, true, c))
  {
    var e := SameEntryOnCut(h, description, c, next, k);
    PrefixTail(e, Trace(h, description, true, FirstBytes(next, k)), Trace(h, description, true, next));
  }

  lemma PrefixTail<T>(e: T, a: seq<T>, b: seq<T>)
    ensures [e] + a <= [e] + b ==> a <= b
  {
    assert a == ([e] + a)[1..] && b == ([e] + b)[1..];
  }

  lemma {:induction false} SomeCutShows(saveError: Option<Result> -> Option<Result>, description: Option<nat>, c: Conn) returns (k: nat)
    requires ConnOk(c) && !c.bad && OverrunReached(saveError, description, c)
    ensures c.inStart <= k <= |c.buffer|
    ensures !(Trace(Wire(saveError), description, true, FirstBytes(c, k)) <= Trace(Wire(saveError), description, true, c))
    decreases |c.buffer| - c.inStart
  {
    var i := Iterate(Wire(saveError), description, true, c);
    if OverrunNow(description, c) {
      k := OverrunShows(saveError, description, c);
    } else {
      OneRound(Wire(saveError), description, true, c);
      OverrunInBusy(saveError, description, i.conn);
      k := SomeCutShows(saveError, description, i.conn);
      GoesOnOnCut(saveError, description, c, k);
      SteadyIfNoOverrunNow(saveError, description, c);
      CutBehind(Wire(saveError), description, c, i.conn, k);
    }
  }

  // ----- The condition -----

  /** Parsing the first k bytes and then the rest consumes the same messages with the same effects. */
  ghost predicate CutInvisible(h: Readers, description: Option<nat>, c: Conn, k: nat)
    requires ConnOk(c) && c.inStart <= k <= |c.buffer|
  {
    var part := FirstBytes(c, k);
    Trace(h, description, true, part) + Trace(h, description, true, Feed(ParseAll(h, description, true, part), c.buffer[k..]))
    == Trace(h, description, true, c)
  }

  /**
   The streams that see how they are cut are exactly those where one call reaches, in BUSY, a 'T', 't' or expected
   'D' message whose reader runs past its end.
   */
  lemma SeenIff(saveError: Option<Result> -> Option<Result>, description: Option<nat>, c: Conn)
    requires ConnOk(c)
    ensures (forall k :: c.inStart <= k <= |c.buffer| ==> CutInvisible(Wire(saveError), description, c, k))
            <==> !OverrunReached(saveError, description, c)
  {
    var h := Wire(saveError);
    if OverrunReached(saveError, description, c) {
      var k := SomeCutShows(saveError, description, c);
      assert !CutInvisible(h, description, c, k);
    } else {
      SteadyIfNoOverrun(saveError, description, c);
      forall k | c.inStart <= k <= |c.buffer|
        ensures CutInvisible(h, description, c, k)
      {
        CutUnseen(saveError, description, c, k);
      }
    }
  }

  lemma CutUnseen(saveError: Option<Result> -> Option<Result>, description: Option<nat>, c: Conn, k: nat)
    requires ConnOk(c) && SteadyRun(Wire(saveError), description, c) && c.inStart <= k <= |c.buffer|
    ensures CutInvisible(Wire(saveError), description, c, k)
  {
    assert c.buffer[..k] + c.buffer[k..] == c.buffer;
    if c.bad {
      assert FirstBytes(c, k) == c;
    } else {
      assert Feed(FirstBytes(c, k), c.buffer[k..]) == c;
      TraceFed(Wire(saveError), description, FirstBytes(c, k), c.buffer[k..]);
    }
  }
}
