/** pqxParseInput3 one message at a time: the byte-level loop refines it, and messages of no consequence do not show. */
module PqMessages {
  import opened Wrappers
  import opened PqInput
  import opened PqTheorems
  import opened PqSplit
  import opened PqWire
  import opened PqResponse

  datatype Step = Held(core: Core) | Taken(core: Core)

  /** What a message given to a connection does, seen without a buffer. */
  type Taker = (Message, Core) -> Step

  function TakeMessage(h: Readers, description: Option<nat>, m: Message, core: Core): Step {
    match Handle(h, description, m.id, m.body, |m.body|, core)
    case Hold(held) => Held(held)
    case Moved(moved, next) =>
      Taken(if moved == |m.body| then next else next.(result := h.saveError(next.result), asyncStatus := Ready))
  }

  function WireTaker(saveError: Option<Result> -> Option<Result>, description: Option<nat>): Taker {
    (m: Message, core: Core) => TakeMessage(Wire(saveError), description, m, core)
  }

  /** What is left of the messages, and the connection. */
  function TakeAll(take: Taker, ms: seq<Message>, core: Core): (seq<Message>, Core) {
    if ms == [] then (ms, core)
    else
      var step := take(ms[0], core);
      if step.Held? then (ms, step.core) else TakeAll(take, ms[1..], step.core)
  }

  ghost predicate AllWellFormed(ms: seq<Message>) {
    forall i :: 0 <= i < |ms| ==> WellFormed(ms[i])
  }

  // ----- Refinement -----

  /** A reader does not see what follows a well-formed message. */
  lemma ReadsAlone(saveError: Option<Result> -> Option<Result>, r: Reader, m: Message, rest: seq<Byte>, core: Core)
    requires WellFormed(m) && Uses(m.id, r)
    ensures ReadBody(saveError, r, m.body + rest, |m.body|, core) == ReadBody(saveError, r, m.body, |m.body|, core)
  {
    if Expected(r, m.body, core) {
      ReadsBody(saveError, r, m.body, rest, core);
      ReadsBody(saveError, r, m.body, [], core);
      assert m.body + [] == m.body;
    } else {
      ScanEndsWithBody(r, m.body, rest);
      assert Count(m.body + rest, 0) == Count(m.body, 0);
    }
  }

  /** One round of the loop is one message taken, or held. */
  lemma RoundTakes(saveError: Option<Result> -> Option<Result>, description: Option<nat>, c: Conn, m: Message, rest: seq<Byte>)
    requires Next(c, m, rest) && WellFormed(m)
    ensures var step := WireTaker(saveError, description)(m, c.core);
            && ConnOk(PastMessage(c, m, step.core))
            && Iterate(Wire(saveError), description, true, c)
               == if step.Held? then Stop(c.(core := step.core)) else Continue(PastMessage(c, m, step.core))
  {
    FrameOf(m, rest);
    Behind(c, m, rest);
    var p := Reads(description, m.id, c.core);
    if p.Some? {
      ReadsAlone(saveError, p.value.0, m, rest, p.value.1);
    }
    HandleSame(Wire(saveError), description, m.id, m.body, m.body + rest, |m.body|, c.core);
  }

  /** The connection with rest as what is left of its input. */
  function LeftWith(c: Conn, rest: seq<Message>, core: Core): Conn
    requires |EncodeAll(rest)| <= |c.buffer|
  {
    c.(inStart := |c.buffer| - |EncodeAll(rest)|, core := core)
  }

  /** r is where taking the messages one by one ends: in the same state and in front of the same message. */
  ghost predicate TakenTo(take: Taker, c: Conn, ms: seq<Message>, r: Conn) {
    var (rest, core) := TakeAll(take, ms, c.core);
    && AllWellFormed(rest) && |EncodeAll(rest)| <= |c.buffer| && c.buffer[|c.buffer| - |EncodeAll(rest)|..] == EncodeAll(rest)
    && r == LeftWith(c, rest, core)
  }

  lemma TakenToFrom(take: Taker, c: Conn, next: Conn, ms: seq<Message>, r: Conn)
    requires ms != [] && take(ms[0], c.core) == Taken(next.core) && TakenTo(take, next, ms[1..], r)
    requires next.buffer == c.buffer && next.bad == c.bad
    ensures TakenTo(take, c, ms, r)
  {
    assert TakeAll(take, ms, c.core) == TakeAll(take, ms[1..], next.core);
  }

  /** Refinement: a call with the real readers ends there, on any stream of well-formed messages. */
  lemma {:induction false} ParseRefines(saveError: Option<Result> -> Option<Result>,
                                        description: Option<nat>, c: Conn, ms: seq<Message>)
    requires ConnOk(c) && AllWellFormed(ms) && c.buffer[c.inStart..] == EncodeAll(ms)
    ensures TakenTo(WireTaker(saveError, description), c, ms, ParseAll(Wire(saveError), description, true, c))
    decreases |ms|
  {
    var take := WireTaker(saveError, description);
    if ms == [] {
      assert c.buffer[c.inStart..] == [];
    } else {
      var m, rest := ms[0], EncodeAll(ms[1..]);
      RoundTakes(saveError, description, c, m, rest);
      var step := take(m, c.core);
      if step.Taken? {
        var next := PastMessage(c, m, step.core);
        Behind(c, m, rest);
        ParseRefines(saveError, description, next, ms[1..]);
        TakenToFrom(take, c, next, ms, ParseAll(Wire(saveError), description, true, next));
      }
    }
  }

  // ----- Messages of no consequence -----

  /**
   What changes nothing while only queries of these kinds are under way: notifications, notices, parameter changes,
   key data, left-over copy data, and the acknowledgements none of them waits for.
   */
  predicate Noise(kinds: set<QueryClass>, m: Message) {
    m.id in {'A', 'N', 'S', 'K', 'd'} || (m.body == [] && (m.id == 'c' || Unawaited(kinds, m.id)))
  }

  predicate Unawaited(kinds: set<QueryClass>, id: char) {
    match id
    case '1' => Prepare !in kinds
    case '2' => Bind !in kinds
    case '3' => Close !in kinds
    case 'n' => Describe !in kinds
    case _ => false
  }

  function Clean(kinds: set<QueryClass>, ms: seq<Message>): (r: seq<Message>)
    ensures r == [] || !Noise(kinds, r[0])
  {
    if ms == [] then []
    else if Noise(kinds, ms[0]) then Clean(kinds, ms[1..]) else [ms[0]] + Clean(kinds, ms[1..])
  }

  predicate Only(kinds: set<QueryClass>, core: Core) {
    forall i :: 0 <= i < |core.queue| ==> core.queue[i] in kinds
  }

  /** What the gate makes of well-formed messages. */
  ghost predicate GatedTaker(take: Taker, kinds: set<QueryClass>) {
    forall m: Message, core: Core :: WellFormed(m) && Only(kinds, core) ==> TakesGated(take, kinds, m, core)
  }

  predicate TakesGated(take: Taker, kinds: set<QueryClass>, m: Message, core: Core) {
    var step := take(m, core);
    && Only(kinds, step.core)
    && (Noise(kinds, m) && Open(core.asyncStatus) ==> step == Taken(core))
    && (!Open(core.asyncStatus) ==> step == if AlwaysAllowed(m.id) then Taken(core) else Held(core))
    && (step.Held? ==> !Open(step.core.asyncStatus))
  }

  lemma WireReads(saveError: Option<Result> -> Option<Result>, r: Reader, m: Message, core: Core)
    requires WellFormed(m) && Uses(m.id, r)
    ensures var out := ReadBody(saveError, r, m.body, |m.body|, core);
            out.Read? && out.moved == |m.body| && out.core.queue == core.queue
  {}

  /** The reader of the message, if any, reads exactly the body and leaves the queue alone. */
  predicate ReadsCleanly(h: Readers, description: Option<nat>, m: Message, core: Core) {
    var p := Reads(description, m.id, core);
    p.Some? ==>
      var out := h.body(p.value.0, m.body, |m.body|, p.value.1);
      out.Read? && out.moved == |m.body| && out.core.queue == core.queue
  }

  lemma QueueKept(h: Readers, description: Option<nat>, m: Message, core: Core)
    requires ReadsCleanly(h, description, m, core)
    ensures var queue := TakeMessage(h, description, m, core).core.queue;
            queue == core.queue || (core.queue != [] && queue == core.queue[1..])
  {}

  lemma GatedIfRead(h: Readers, description: Option<nat>, kinds: set<QueryClass>, m: Message, core: Core)
    requires Only(kinds, core) && ReadsCleanly(h, description, m, core)
    ensures var step := TakeMessage(h, description, m, core);
            && (Noise(kinds, m) && Open(core.asyncStatus) ==> step == Taken(core))
            && (!Open(core.asyncStatus) ==> step == if AlwaysAllowed(m.id) then Taken(core) else Held(core))
            && (step.Held? ==> !Open(step.core.asyncStatus))
  {}

  lemma WireIsGated(saveError: Option<Result> -> Option<Result>, description: Option<nat>, kinds: set<QueryClass>)
    ensures GatedTaker(WireTaker(saveError, description), kinds)
  {
    forall m: Message, core: Core | WellFormed(m) && Only(kinds, core)
      ensures TakesGated(WireTaker(saveError, description), kinds, m, core)
    {
      var p := Reads(description, m.id, core);
      if p.Some? {
        WireReads(saveError, p.value.0, m, p.value.1);
      }
      QueueKept(Wire(saveError), description, m, core);
      GatedIfRead(Wire(saveError), description, kinds, m, core);
    }
  }

  /** Such messages do not change where a call ends: the same connection, in front of the same message. */
  lemma {:induction false} NoiseIgnored(take: Taker, kinds: set<QueryClass>, ms: seq<Message>, core: Core)
    requires GatedTaker(take, kinds) && AllWellFormed(ms) && Only(kinds, core)
    ensures var ((rest, last), (left, end)) := (TakeAll(take, ms, core), TakeAll(take, Clean(kinds, ms), core));
            last == end && Clean(kinds, rest) == left && Only(kinds, last) && AllWellFormed(rest)
    decreases |ms|
  {
    if ms != [] {
      var step := take(ms[0], core);
      assert TakesGated(take, kinds, ms[0], core);
      if step.Taken? {
        NoiseIgnored(take, kinds, ms[1..], step.core);
      } else if Noise(kinds, ms[0]) {
        HeldWhenClosed(take, kinds, ms[1..], core);
      }
      assert ([ms[0]] + Clean(kinds, ms[1..]))[1..] == Clean(kinds, ms[1..]);
    }
  }

  /** With the gate closed the first message of consequence is held. */
  lemma {:induction false} HeldWhenClosed(take: Taker, kinds: set<QueryClass>, ms: seq<Message>, core: Core)
    requires GatedTaker(take, kinds) && AllWellFormed(ms) && Only(kinds, core) && !Open(core.asyncStatus)
    ensures TakeAll(take, Clean(kinds, ms), core) == (Clean(kinds, ms), core)
    decreases |ms|
  {
    if ms != [] {
      if Noise(kinds, ms[0]) {
        HeldWhenClosed(take, kinds, ms[1..], core);
      } else {
        assert TakesGated(take, kinds, ms[0], core);
      }
    }
  }

  /** A call that ends with the gate open has consumed everything. */
  lemma {:induction false} OpenMeansAll(take: Taker, kinds: set<QueryClass>, ms: seq<Message>, core: Core)
    requires GatedTaker(take, kinds) && AllWellFormed(ms) && Only(kinds, core)
    ensures var (rest, last) := TakeAll(take, ms, core); Open(last.asyncStatus) ==> rest == []
    decreases |ms|
  {
    if ms != [] {
      var step := take(ms[0], core);
      assert TakesGated(take, kinds, ms[0], core);
      if step.Taken? {
        OpenMeansAll(take, kinds, ms[1..], step.core);
      }
    }
  }
}
