/** What pqxParseInput3 does outside the ordinary course of a query: bad input, unexpected messages and pipelines. */
module PqCases {
  import opened Wrappers
  import opened PqInput
  import opened PqWire
  import opened PqResponse
  import opened PqMessages
  import opened PqQuery

  // ----- Losing the connection -----

  /** A header that cannot be believed, or a message the buffer cannot hold, ends the connection with an error to collect. */
  lemma BadFrameDrops(h: Readers, description: Option<nat>, grows: bool, c: Conn)
    requires ConnOk(c)
    requires var f := FrameAt(c.buffer[c.inStart..]); f.Broken? || (f.Partial? && !grows)
    ensures var r := ParseAll(h, description, grows, c);
            && r.bad && r.buffer == [] && r.inStart == 0 && r.core.asyncStatus == Ready
            && r.core.result == h.saveError(c.core.result) && r.core.queue == c.core.queue && r.core.pipeline == c.core.pipeline
  {}

  /** A message that is not complete yet is waited for. */
  lemma IncompleteWaits(h: Readers, description: Option<nat>, c: Conn)
    requires ConnOk(c)
    requires var f := FrameAt(c.buffer[c.inStart..]); f.Incomplete? || f.Partial?
    ensures ParseAll(h, description, true, c) == c
  {}

  // ----- Unexpected messages in BUSY -----

  /** The message is consumed and the error is there to collect. */
  predicate MadeError(h: Readers, before: Core, step: Step) {
    step == Taken(before.(result := h.saveError(before.result), asyncStatus := Ready))
  }

  /** A message of no known type is an error. */
  lemma UnknownIsError(h: Readers, description: Option<nat>, m: Message, core: Core)
    requires core.asyncStatus == Busy
    requires m.id !in {'A', 'N', 'C', 'E', 'Z', 'I', '1', '2', '3', 'S', 'K', 'T', 'n', 't', 'D', 'G', 'H', 'W', 'd', 'c', 's'}
    ensures MadeError(h, core, TakeMessage(h, description, m, core))
  {}

  /** After an error, row descriptions and rows are dropped until the query ends. */
  lemma ChokedDropsRows(h: Readers, description: Option<nat>, m: Message, core: Core)
    requires core.asyncStatus == Busy && m.id in {'T', 'D'} && core.result.Some? && core.result.value.status == FatalError
    ensures TakeMessage(h, description, m, core) == Taken(core)
  {}

  /** A row with nothing to describe it is dropped and leaves an error, reported when the query ends. */
  lemma UndescribedRow(h: Readers, m: Message, core: Core)
    requires core.asyncStatus == Busy && m.id == 'D' && (core.result.None? || core.result.value.status !in {TuplesOk, FatalError})
    ensures TakeMessage(h, None, m, core) == Taken(core.(result := h.saveError(core.result)))
  {}

  /** A row on top of another kind of result is an error. */
  lemma MisplacedRow(h: Readers, n: nat, m: Message, core: Core)
    requires core.asyncStatus == Busy && m.id == 'D' && m.body != []
    requires core.result.Some? && core.result.value.status !in {TuplesOk, FatalError}
    ensures MadeError(h, core, TakeMessage(h, Some(n), m, core))
  {}

  /** A row with another number of fields than the result has columns is skipped and replaces the result by an error. */
  lemma WrongWidth(saveError: Option<Result> -> Option<Result>, description: Option<nat>, row: seq<Byte>, core: Core)
    requires core.asyncStatus == Busy && |row| >= 2
    requires core.result.Some? && core.result.value.status == TuplesOk && core.result.value.columns != Int16(row, 0)
    ensures WireTaker(saveError, description)(Message('D', row), core) == Taken(core.(result := saveError(None)))
  {}

  /** A second row description waits until the result so far is collected. */
  lemma SecondDescriptionWaits(h: Readers, description: Option<nat>, m: Message, core: Core)
    requires core.asyncStatus == Busy && m.id == 'T' && core.result.Some? && core.result.value.status != FatalError
    requires core.queue == [] || core.queue[0] != Describe
    ensures TakeMessage(h, description, m, core) == Held(core.(asyncStatus := Ready))
  {}

  /** Acknowledgements have no body: one that has is an error. */
  lemma EmptyOnly(h: Readers, description: Option<nat>, m: Message, core: Core)
    requires core.asyncStatus == Busy && m.id in {'1', '2', '3', 'n', 'c', 's', 'I'} && m.body != []
    ensures var step := TakeMessage(h, description, m, core);
            step.Taken? && step.core.asyncStatus == Ready && exists r :: step.core.result == h.saveError(r)
  {
    var x := Handle(h, description, m.id, m.body, |m.body|, core);
    assert TakeMessage(h, description, m, core).core.result == h.saveError(x.core.result);
  }

  /** A reader that does not end with its message makes an error of it, and the next message is still found. */
  lemma DisagreementIsError(h: Readers, description: Option<nat>, c: Conn)
    requires ConnOk(c) && FrameAt(c.buffer[c.inStart..]).Complete?
    requires var rest := c.buffer[c.inStart..];
             var x := Handle(h, description, FrameAt(rest).id, rest[5..], FrameAt(rest).length, c.core);
             x.Moved? && x.moved != FrameAt(rest).length
    ensures var i := Iterate(h, description, true, c);
            && i.Continue? && i.conn.inStart == c.inStart + 5 + FrameAt(c.buffer[c.inStart..]).length
            && i.conn.core.asyncStatus == Ready && exists r :: i.conn.core.result == h.saveError(r)
  {
    var rest := c.buffer[c.inStart..];
    var x := Handle(h, description, FrameAt(rest).id, rest[5..], FrameAt(rest).length, c.core);
    assert Iterate(h, description, true, c).conn.core.result == h.saveError(x.core.result);
  }

  // ----- The command queue -----

  /** Only the head ever leaves the queue: a simple query with ReadyForQuery, a sync with its own result, the others at once. */
  lemma OnlyHeadLeaves(queue: seq<QueryClass>, isReadyForQuery: bool, gotSync: bool)
    ensures var q := Advance(queue, isReadyForQuery, gotSync);
            && (queue == [] ==> q == [])
            && (queue != [] && queue[0] == Simple ==> q == if isReadyForQuery then queue[1..] else queue)
            && (queue != [] && queue[0] == Sync ==> q == if gotSync then queue[1..] else queue)
            && (queue != [] && queue[0] !in {Simple, Sync} ==> q == queue[1..])
  {}

  /** Outside pipelines ReadyForQuery makes the connection IDLE and takes the query off the queue, but never a sync. */
  lemma ReadyOutsidePipeline(saveError: Option<Result> -> Option<Result>, description: Option<nat>, core: Core, status: Byte)
    requires core.asyncStatus == Busy && core.pipeline == Off
    ensures WireTaker(saveError, description)(Message('Z', [status]), core)
            == Taken(core.(asyncStatus := Idle,
                           queue := if core.queue == [] || core.queue[0] == Sync then core.queue else core.queue[1..]))
  {
    assert Scan(Reader.ReadyForQuery, [status]) == Some(1);
  }

  /** In a pipeline it is the result of the sync, which ends an aborted stretch; the queue waits for it to be collected. */
  lemma ReadyInPipeline(saveError: Option<Result> -> Option<Result>, description: Option<nat>, core: Core, status: Byte)
    requires core.asyncStatus == Busy && core.pipeline != Off
    ensures WireTaker(saveError, description)(Message('Z', [status]), core)
            == Taken(core.(result := Some(Result(PipelineSync, 0, [], [])), pipeline := On, asyncStatus := Ready))
  {
    assert Scan(Reader.ReadyForQuery, [status]) == Some(1);
  }

  /** BindComplete takes a lone Bind off the queue; in a pipeline the connection then waits for the next command. */
  lemma BindAcknowledged(h: Readers, description: Option<nat>, core: Core)
    requires core.asyncStatus == Busy && core.queue != [] && core.queue[0] == Bind
    ensures TakeMessage(h, description, Message('2', []), core)
            == Taken(core.(queue := core.queue[1..], asyncStatus := if core.pipeline == Off then Busy else PipelineIdle))
  {}

  /** Collecting a result takes the query off the queue, unless more results may follow or it is a sync. */
  lemma CollectingAdvances(core: Core)
    ensures var c := Collected(core);
            && c.result.None? && c.asyncStatus == Busy && c.pipeline == core.pipeline
            && c.queue == if core.queue == [] || core.queue[0] in {Simple, Sync} then core.queue else core.queue[1..]
  {}

  /** NoData for a statement without parameters described is a result without columns. */
  lemma NoDataAlone(h: Readers, description: Option<nat>, core: Core)
    requires core.asyncStatus == Busy && core.queue != [] && core.queue[0] == Describe && core.result.None?
    ensures TakeMessage(h, description, Message('n', []), core)
            == Taken(core.(result := Some(Result(CommandOk, 0, [], [])), asyncStatus := Ready))
  {}
}
