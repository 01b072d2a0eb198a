/** What framing and gating guarantee for every byte stream, whatever the body readers do. */
module PqTheorems {
  import opened Wrappers
  import opened PqInput

  // ----- Framing -----

  /** to lies a whole number of complete messages after from. */
  predicate FramesTo(buffer: seq<Byte>, from: nat, to: nat)
    decreases to - from
  {
    from == to ||
    (from < to <= |buffer| &&
     var f := FrameAt(buffer[from..]);
     f.Complete? && from + 5 + f.length <= to && FramesTo(buffer, from + 5 + f.length, to))
  }

  /** A round keeps inStart, drops the connection, or advances over exactly one message. */
  lemma OneRound(h: Readers, description: Option<nat>, grows: bool, c: Conn)
    requires ConnOk(c)
    ensures var i := Iterate(h, description, grows, c);
            match i
            case Stop(r) => (r.buffer == c.buffer && r.inStart == c.inStart && r.bad == c.bad) || (r.bad && r.buffer == [])
            case Continue(r) =>
              var f := FrameAt(c.buffer[c.inStart..]);
              && f.Complete? && r.inStart == c.inStart + 5 + f.length <= |c.buffer|
              && r.buffer == c.buffer && r.bad == c.bad
  {}

  lemma FramesCons(buffer: seq<Byte>, from: nat, until: nat)
    requires from <= |buffer| && FrameAt(buffer[from..]).Complete?
    requires var next := from + 5 + FrameAt(buffer[from..]).length; next <= until <= |buffer| && FramesTo(buffer, next, until)
    ensures FramesTo(buffer, from, until)
  {}

  /** What a call does to the buffer: inStart moves to a later message boundary, or the connection is dropped. */
  predicate AtBoundary(c: Conn, r: Conn) {
    || (r.buffer == c.buffer && r.bad == c.bad && c.inStart <= r.inStart <= |c.buffer| && FramesTo(c.buffer, c.inStart, r.inStart))
    || (r.bad && r.buffer == [])
  }

  /** A call leaves inStart on a message boundary of an unchanged buffer, or the connection is dropped. */
  lemma {:induction false} ParseKeepsBoundaries(h: Readers, description: Option<nat>, grows: bool, c: Conn)
    requires ConnOk(c)
    ensures AtBoundary(c, ParseAll(h, description, grows, c))
    decreases |c.buffer| - c.inStart
  {
    OneRound(h, description, grows, c);
    var i, r := Iterate(h, description, grows, c), ParseAll(h, description, grows, c);
    if i.Continue? {
      ParseKeepsBoundaries(h, description, grows, i.conn);
      assert r == ParseAll(h, description, grows, i.conn);
      if !(r.bad && r.buffer == []) {
        FramesCons(c.buffer, c.inStart, r.inStart);
      }
    }
  }

  // ----- Gating -----

  /** A consumed message, the connection before and after it, and whether its reader agreed with its length. */
  datatype Consumed = Consumed(id: char, before: Core, after: Core, agreed: bool)

  function Trace(h: Readers, description: Option<nat>, grows: bool, c: Conn): seq<Consumed>
    requires ConnOk(c)
    decreases |c.buffer| - c.inStart
  {
    var i := Iterate(h, description, grows, c);
    if i.Stop? then []
    else
      var f := FrameAt(c.buffer[c.inStart..]);
      var handled := Handle(h, description, f.id, c.buffer[c.inStart..][5..], f.length, c.core);
      [Consumed(f.id, c.core, i.conn.core, handled.moved == f.length)] + Trace(h, description, grows, i.conn)
  }

  predicate Open(a: Async) {
    a == Busy || a == Idle
  }

  predicate AlwaysAllowed(id: char) {
    id == 'A' || id == 'N'
  }

  /** Outside BUSY and IDLE only notifications and notices are consumed, and they change nothing unless malformed. */
  lemma ClosedGate(h: Readers, description: Option<nat>, id: char, body: seq<Byte>, length: nat, core: Core)
    requires !Open(core.asyncStatus)
    ensures var m := Handle(h, description, id, body, length, core);
            m.core == core && (m.Moved? ==> AlwaysAllowed(id))
  {}

  /** Let through by the gate, and harmless if the gate was closed. */
  predicate EntryGated(e: Consumed) {
    && (AlwaysAllowed(e.id) || Open(e.before.asyncStatus))
    && (!Open(e.before.asyncStatus) ==> !Open(e.after.asyncStatus) && (e.agreed ==> e.after == e.before))
  }

  /** Consecutive entries of a trace from start, each of them let through by the gate. */
  ghost predicate Gated(t: seq<Consumed>, start: Core) {
    && (forall i :: 0 <= i < |t| ==> EntryGated(t[i]))
    && (t != [] ==> t[0].before == start)
    && (forall i, j :: 0 <= i < j < |t| && j == i + 1 ==> t[j].before == t[i].after)
  }

  lemma GatedCons(e: Consumed, t: seq<Consumed>)
    requires EntryGated(e) && Gated(t, e.after)
    ensures Gated([e] + t, e.before)
  {
    var all := [e] + t;
    assert forall i :: 0 < i < |all| ==> all[i] == t[i - 1];
  }

  lemma FirstIsGated(h: Readers, description: Option<nat>, grows: bool, c: Conn)
    requires ConnOk(c) && Iterate(h, description, grows, c).Continue?
    ensures var next := Iterate(h, description, grows, c).conn;
            var t := Trace(h, description, grows, c);
            && EntryGated(t[0]) && t[0].before == c.core && t[0].after == next.core
            && t == [t[0]] + Trace(h, description, grows, next)
  {
    var f := FrameAt(c.buffer[c.inStart..]);
    if !Open(c.core.asyncStatus) {
      ClosedGate(h, description, f.id, c.buffer[c.inStart..][5..], f.length, c.core);
    }
  }

  lemma {:induction false} TraceGated(h: Readers, description: Option<nat>, grows: bool, c: Conn)
    requires ConnOk(c)
    ensures Gated(Trace(h, description, grows, c), c.core)
    decreases |c.buffer| - c.inStart
  {
    var i := Iterate(h, description, grows, c);
    if i.Continue? {
      var t := Trace(h, description, grows, c);
      FirstIsGated(h, description, grows, c);
      TraceGated(h, description, grows, i.conn);
      GatedCons(t[0], Trace(h, description, grows, i.conn));
    }
  }

  /**
   Once a message moves the status out of BUSY and IDLE, every further message the call consumes is a
   notification or a notice, and as long as those agree with their lengths the result stays the one reported.
   */
  lemma {:induction false} OneResultPerCall(h: Readers, description: Option<nat>, grows: bool, c: Conn, i: nat, j: nat)
    requires ConnOk(c)
    requires var t := Trace(h, description, grows, c); i < j < |t| && !Open(t[i].after.asyncStatus)
    ensures var t := Trace(h, description, grows, c);
            && AlwaysAllowed(t[j].id) && !Open(t[j].after.asyncStatus)
            && ((forall k :: i < k <= j ==> t[k].agreed) ==> t[j].after == t[i].after)
    decreases j
  {
    var t := Trace(h, description, grows, c);
    TraceGated(h, description, grows, c);
    if i + 1 < j {
      OneResultPerCall(h, description, grows, c, i, j - 1);
    }
    assert t[j].before == t[j - 1].after;
  }

  /** Handling a held message again changes nothing more. */
  lemma HoldIsStable(h: Readers, description: Option<nat>, id: char, body: seq<Byte>, length: nat, core: Core)
    ensures var m := Handle(h, description, id, body, length, core);
            m.Hold? ==> Handle(h, description, id, body, length, m.core) == m
  {}

  /** A call consumes all it can: calling again without new bytes or a collected result does nothing. */
  lemma {:induction false} ParseIdempotent(h: Readers, description: Option<nat>, grows: bool, c: Conn)
    requires ConnOk(c)
    ensures var r := ParseAll(h, description, grows, c); ParseAll(h, description, grows, r) == r
    decreases |c.buffer| - c.inStart
  {
    var i := Iterate(h, description, grows, c);
    if i.Continue? {
      ParseIdempotent(h, description, grows, i.conn);
    } else {
      var f := FrameAt(c.buffer[c.inStart..]);
      if f.Complete? {
        HoldIsStable(h, description, f.id, c.buffer[c.inStart..][5..], f.length, c.core);
      }
    }
  }
}
