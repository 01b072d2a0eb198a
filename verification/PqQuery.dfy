/** Whole queries: what the application collects from the messages the server answers with. */
module PqQuery {
  import opened Wrappers
  import opened PqInput
  import opened PqTheorems
  import opened PqSplit
  import opened PqWire
  import opened PqResponse
  import opened PqMessages

  // ----- Rows -----

  function RowMessages(rows: seq<seq<Byte>>): seq<Message> {
    if rows == [] then [] else [Message('D', rows[0])] + RowMessages(rows[1..])
  }

  ghost predicate GoodRow(row: seq<Byte>, n: nat) {
    WellFormed(Message('D', row)) && Count(row, 0) == n
  }

  /** Every row is well-formed and has n columns. */
  ghost predicate GoodRows(rows: seq<seq<Byte>>, n: nat) {
    forall i :: 0 <= i < |rows| ==> GoodRow(rows[i], n)
  }

  /** The connection while a result of n columns is built, with text in it. */
  function WithText(core: Core, n: nat, text: seq<Byte>): Core {
    core.(result := Some(Result(TuplesOk, n, text, [])))
  }

  predicate Building(core: Core, n: nat, text: seq<Byte>) {
    core.asyncStatus == Busy && core == WithText(core, n, text)
  }

  ghost predicate TakesRows(take: Taker) {
    forall core: Core, n: nat, text: seq<Byte>, row: seq<Byte> :: Building(core, n, text) && GoodRow(row, n) ==>
      take(Message('D', row), core) == Taken(WithText(core, n, text + row))
  }

  /** A reader that gets a well-formed message reads exactly its body. */
  lemma ReadsWhole(saveError: Option<Result> -> Option<Result>, r: Reader, m: Message, core: Core)
    requires WellFormed(m) && Uses(m.id, r) && Expected(r, m.body, core) && !r.CommandTag?
    ensures ReadBody(saveError, r, m.body, |m.body|, core) == Read(|m.body|, AfterRead(r, m.body, core), [])
  {
    assert m.body[..|m.body|] == m.body;
  }

  lemma WireTakesRows(saveError: Option<Result> -> Option<Result>, description: Option<nat>)
    ensures TakesRows(WireTaker(saveError, description))
  {
    forall core: Core, n: nat, text: seq<Byte>, row: seq<Byte> | Building(core, n, text) && GoodRow(row, n)
      ensures WireTaker(saveError, description)(Message('D', row), core) == Taken(WithText(core, n, text + row))
    {
      assert Uses('D', DataRow);
      assert row[..|row|] == row;
    }
  }

  lemma TakeFirst(take: Taker, m: Message, ms: seq<Message>, core: Core, next: Core)
    requires take(m, core) == Taken(next)
    ensures TakeAll(take, [m] + ms, core) == TakeAll(take, ms, next)
  {
    assert ([m] + ms)[1..] == ms;
  }

  lemma RowMessagesFirst(rows: seq<seq<Byte>>, rest: seq<Message>)
    requires rows != []
    ensures RowMessages(rows) + rest == [Message('D', rows[0])] + (RowMessages(rows[1..]) + rest)
  {}

  lemma FirstRow(take: Taker, core: Core, n: nat, text: seq<Byte>, rows: seq<seq<Byte>>, rest: seq<Message>)
    requires TakesRows(take) && rows != [] && GoodRow(rows[0], n) && Building(core, n, text)
    ensures TakeAll(take, RowMessages(rows) + rest, core)
            == TakeAll(take, RowMessages(rows[1..]) + rest, WithText(core, n, text + rows[0]))
  {
    RowMessagesFirst(rows, rest);
    TakeFirst(take, Message('D', rows[0]), RowMessages(rows[1..]) + rest, core, WithText(core, n, text + rows[0]));
  }

  lemma {:induction false} RowsTaken(take: Taker, core: Core, n: nat, text: seq<Byte>, rows: seq<seq<Byte>>, rest: seq<Message>)
    requires TakesRows(take) && GoodRows(rows, n) && Building(core, n, text)
    ensures TakeAll(take, RowMessages(rows) + rest, core) == TakeAll(take, rest, WithText(core, n, text + Concat(rows)))
    decreases |rows|
  {
    if rows == [] {
      assert text + [] == text && [] + rest == rest;
    } else {
      var longer := text + rows[0];
      FirstRow(take, core, n, text, rows, rest);
      RowsTaken(take, WithText(core, n, longer), n, longer, rows[1..], rest);
      assert longer + Concat(rows[1..]) == text + Concat(rows);
    }
  }

  /** Rows are all consumed and added to the result in the order they come, whatever follows them. */
  lemma CollectsRows(saveError: Option<Result> -> Option<Result>, description: Option<nat>,
                     core: Core, n: nat, text: seq<Byte>, rows: seq<seq<Byte>>, rest: seq<Message>)
    requires GoodRows(rows, n) && Building(core, n, text)
    ensures var take := WireTaker(saveError, description);
            TakeAll(take, RowMessages(rows) + rest, core) == TakeAll(take, rest, WithText(core, n, text + Concat(rows)))
  {
    WireTakesRows(saveError, description);
    RowsTaken(WireTaker(saveError, description), core, n, text, rows, rest);
  }

  // ----- Statements -----

  /** A query of this kind is being executed and there is no result yet. */
  predicate Executing(core: Core, kind: QueryClass) {
    && core.asyncStatus == Busy && core.result.None? && core.pipeline == Off
    && core.queue != [] && Only({kind}, core)
  }

  /** How a statement ends: completed, at the row limit of a portal, without a statement, or with an error. */
  datatype Ending = Completed(tag: seq<Byte>) | Suspended | NoQuery | Failed(error: seq<Byte>)

  /**
   What the server answers: to a statement, rows and an ending, the rows announced by a description of their columns
   or, where none was asked for, under the one the application has; to Prepare; to Describe.
   */
  datatype Answer =
    | Statement(announced: Option<seq<Byte>>, rows: seq<seq<Byte>>, end: Ending)
    | Prepared
    | Described(parameters: seq<Byte>, columns: Option<seq<Byte>>)

  function Last(end: Ending): Message {
    match end
    case Completed(tag) => Message('C', tag + [0])
    case Suspended => Message('s', [])
    case NoQuery => Message('I', [])
    case Failed(error) => Message('E', error)
  }

  function TupleMessages(announced: Option<seq<Byte>>, rows: seq<seq<Byte>>): seq<Message> {
    (if announced.Some? then [Message('T', announced.value)] else []) + RowMessages(rows)
  }

  function AnswerMessages(a: Answer): seq<Message> {
    match a
    case Statement(announced, rows, end) => TupleMessages(announced, rows) + [Last(end)]
    case Prepared => [Message('1', [])]
    case Described(parameters, columns) =>
      [Message('t', parameters), if columns.Some? then Message('T', columns.value) else Message('n', [])]
  }

  function Width(description: Option<nat>, announced: Option<seq<Byte>>): nat {
    if announced.Some? then Count(announced.value, 0) else if description.Some? then description.value else 0
  }

  /** Well-formed messages; rows have the announced or the given number of columns, and only rows can be suspended. */
  ghost predicate GoodAnswer(kind: QueryClass, description: Option<nat>, a: Answer) {
    match a
    case Statement(announced, rows, end) =>
      && (kind in {Simple, Extended} || (announced.None? && rows == [] && end.Failed?))
      && WellFormed(Last(end)) && (announced.Some? ==> WellFormed(Message('T', announced.value)))
      && GoodRows(rows, Width(description, announced)) && (rows != [] ==> announced.Some? || description.Some?)
      && (end.Suspended? ==> announced.Some? || rows != [])
    case Prepared => kind == Prepare && WellFormed(Message('1', []))
    case Described(parameters, columns) =>
      && kind == Describe && WellFormed(Message('t', parameters))
      && WellFormed(if columns.Some? then Message('T', columns.value) else Message('n', []))
  }

  /** The result collected from the rows, if there is one. */
  function Tuples(description: Option<nat>, announced: Option<seq<Byte>>, rows: seq<seq<Byte>>): Option<Result> {
    if announced.Some? then Some(Result(TuplesOk, Width(description, announced), announced.value + Concat(rows), []))
    else if rows != [] then Some(Result(TuplesOk, Width(description, announced), Concat(rows), []))
    else None
  }

  /** What the application should get: description, rows in order and tag, or the error alone. */
  function ResultOf(description: Option<nat>, a: Answer): Result {
    match a
    case Statement(announced, rows, end) =>
      var tuples := Tuples(description, announced, rows);
      match end {
        case Completed(tag) =>
          (if tuples.Some? then tuples.value else Result(CommandOk, Width(description, None), [], [])).(cmdStatus := tag)
        case Failed(error) => Result(FatalError, 0, error, [])
        case _ => if tuples.Some? then tuples.value else Result(EmptyQuery, 0, [], [])
      }
    case Prepared => Result(CommandOk, 0, [], [])
    case Described(parameters, columns) =>
      if columns.None? then Result(CommandOk, 0, parameters, [])
      else Result(CommandOk, Count(columns.value, 0), parameters + columns.value, [])
  }

  /** The connection after an answer, before the application collects the result. */
  function Answered(core: Core, description: Option<nat>, a: Answer): Core {
    core.(result := Some(ResultOf(description, a)), asyncStatus := Ready)
  }

  lemma TakesColumns(saveError: Option<Result> -> Option<Result>, description: Option<nat>,
                     kind: QueryClass, core: Core, columns: seq<Byte>)
    requires WellFormed(Message('T', columns)) && Executing(core, kind) && kind != Describe
    ensures WireTaker(saveError, description)(Message('T', columns), core) == Taken(WithText(core, Count(columns, 0), columns))
  {
    var m := Message('T', columns);
    assert Uses('T', RowDescription);
    ReadsWhole(saveError, RowDescription, m, core);
    assert [] + columns == columns;
    assert AfterRead(RowDescription, columns, core) == WithText(core, Count(columns, 0), columns);
  }

  /** The first row without an announcement starts a result of the given description. */
  lemma TakesFirstRow(saveError: Option<Result> -> Option<Result>, description: Option<nat>,
                      kind: QueryClass, core: Core, row: seq<Byte>)
    requires description.Some? && GoodRow(row, description.value) && Executing(core, kind)
    ensures WireTaker(saveError, description)(Message('D', row), core) == Taken(WithText(core, description.value, row))
  {
    assert Uses('D', DataRow);
    var started := WithText(core, description.value, []);
    ReadsWhole(saveError, DataRow, Message('D', row), started);
    assert [] + row == row;
    assert AfterRead(DataRow, row, started) == WithText(core, description.value, row);
  }

  /** The announcement, if any, and the rows, whatever follows them. */
  lemma TakesTuples(saveError: Option<Result> -> Option<Result>, description: Option<nat>, kind: QueryClass, core: Core,
                    announced: Option<seq<Byte>>, rows: seq<seq<Byte>>, rest: seq<Message>)
    requires Executing(core, kind) && (announced.Some? || rows != [] ==> kind != Describe)
    requires announced.Some? ==> WellFormed(Message('T', announced.value))
    requires GoodRows(rows, Width(description, announced)) && (rows != [] ==> announced.Some? || description.Some?)
    ensures var take := WireTaker(saveError, description);
            TakeAll(take, TupleMessages(announced, rows) + rest, core)
            == TakeAll(take, rest, core.(result := Tuples(description, announced, rows)))
  {
    var take, n := WireTaker(saveError, description), Width(description, announced);
    if announced.Some? {
      var columns := announced.value;
      assert TupleMessages(announced, rows) + rest == [Message('T', columns)] + (RowMessages(rows) + rest);
      TakesColumns(saveError, description, kind, core, columns);
      TakeFirst(take, Message('T', columns), RowMessages(rows) + rest, core, WithText(core, n, columns));
      CollectsRows(saveError, description, WithText(core, n, columns), n, columns, rows, rest);
    } else if rows != [] {
      var more := RowMessages(rows[1..]) + rest;
      assert TupleMessages(announced, rows) == RowMessages(rows);
      RowMessagesFirst(rows, rest);
      TakesFirstRow(saveError, description, kind, core, rows[0]);
      TakeFirst(take, Message('D', rows[0]), more, core, WithText(core, n, rows[0]));
      CollectsRows(saveError, description, WithText(core, n, rows[0]), n, rows[0], rows[1..], rest);
    } else {
      assert TupleMessages(announced, rows) + rest == rest;
      assert core.(result := None) == core;
    }
  }

  /** The result so far, or a new one, gets the tag. */
  lemma TakesTag(saveError: Option<Result> -> Option<Result>, description: Option<nat>, core: Core, tag: seq<Byte>)
    requires WellFormed(Message('C', tag + [0])) && core.asyncStatus == Busy
    ensures var result := if core.result.Some? then core.result.value else Result(CommandOk, Width(description, None), [], []);
            WireTaker(saveError, description)(Message('C', tag + [0]), core)
            == Taken(core.(result := Some(result.(cmdStatus := tag)), asyncStatus := Ready))
  {
    var body := tag + [0];
    assert Uses('C', CommandTag);
    assert body[..|body| - 1] == tag;
  }

  /** The error replaces what was collected. */
  lemma TakesError(saveError: Option<Result> -> Option<Result>, description: Option<nat>, core: Core, error: seq<Byte>)
    requires WellFormed(Message('E', error)) && core.asyncStatus == Busy
    ensures WireTaker(saveError, description)(Message('E', error), core)
            == Taken(core.(result := Some(Result(FatalError, 0, error, [])), asyncStatus := Ready))
  {
    assert Uses('E', ErrorMessage);
    assert error[..|error|] == error;
  }

  lemma TakesLast(saveError: Option<Result> -> Option<Result>, description: Option<nat>, core: Core, a: Answer)
    requires a.Statement? && WellFormed(Last(a.end)) && core.asyncStatus == Busy
    requires core.result == Tuples(description, a.announced, a.rows) && (a.end.Suspended? ==> core.result.Some?)
    ensures WireTaker(saveError, description)(Last(a.end), core) == Taken(Answered(core, description, a))
  {
    match a.end
    case Completed(tag) => TakesTag(saveError, description, core, tag);
    case Failed(error) => TakesError(saveError, description, core, error);
    case _ =>
  }

  lemma TakesStatement(saveError: Option<Result> -> Option<Result>, description: Option<nat>, kind: QueryClass,
                       core: Core, a: Answer, rest: seq<Message>)
    requires Executing(core, kind) && a.Statement? && GoodAnswer(kind, description, a)
    ensures var take := WireTaker(saveError, description);
            TakeAll(take, AnswerMessages(a) + rest, core) == TakeAll(take, rest, Answered(core, description, a))
  {
    var take, more := WireTaker(saveError, description), [Last(a.end)] + rest;
    var full := core.(result := Tuples(description, a.announced, a.rows));
    assert AnswerMessages(a) + rest == TupleMessages(a.announced, a.rows) + more;
    TakesTuples(saveError, description, kind, core, a.announced, a.rows, more);
    TakesLast(saveError, description, full, a);
    TakeFirst(take, Last(a.end), rest, full, Answered(full, description, a));
  }

  // ----- Prepare and Describe -----

  lemma TakesParameters(saveError: Option<Result> -> Option<Result>, description: Option<nat>, core: Core, parameters: seq<Byte>)
    requires WellFormed(Message('t', parameters)) && core.asyncStatus == Busy
    ensures WireTaker(saveError, description)(Message('t', parameters), core)
            == Taken(core.(result := Some(Result(CommandOk, 0, parameters, []))))
  {
    assert Uses('t', ParamDescription);
    assert parameters[..|parameters|] == parameters;
  }

  lemma TakesDescription(saveError: Option<Result> -> Option<Result>, description: Option<nat>,
                         core: Core, parameters: seq<Byte>, columns: Option<seq<Byte>>)
    requires core.asyncStatus == Busy && HeadIs(core, Describe) && core.result == Some(Result(CommandOk, 0, parameters, []))
    requires WellFormed(if columns.Some? then Message('T', columns.value) else Message('n', []))
    ensures WireTaker(saveError, description)(if columns.Some? then Message('T', columns.value) else Message('n', []), core)
            == Taken(Answered(core, description, Described(parameters, columns)))
  {
    if columns.Some? {
      assert Uses('T', RowDescription);
      assert columns.value[..|columns.value|] == columns.value;
    }
  }

  lemma TakesDescribed(saveError: Option<Result> -> Option<Result>, description: Option<nat>,
                       core: Core, a: Answer, rest: seq<Message>)
    requires Executing(core, Describe) && a.Described? && GoodAnswer(Describe, description, a)
    ensures var take := WireTaker(saveError, description);
            TakeAll(take, AnswerMessages(a) + rest, core) == TakeAll(take, rest, Answered(core, description, a))
  {
    var take, next := WireTaker(saveError, description), core.(result := Some(Result(CommandOk, 0, a.parameters, [])));
    var second := if a.columns.Some? then Message('T', a.columns.value) else Message('n', []);
    assert AnswerMessages(a) + rest == [Message('t', a.parameters)] + ([second] + rest);
    TakesParameters(saveError, description, core, a.parameters);
    TakeFirst(take, Message('t', a.parameters), [second] + rest, core, next);
    TakesDescription(saveError, description, next, a.parameters, a.columns);
    TakeFirst(take, second, rest, next, Answered(next, description, a));
  }

  lemma TakesAnswer(saveError: Option<Result> -> Option<Result>, description: Option<nat>, kind: QueryClass,
                    core: Core, a: Answer, rest: seq<Message>)
    requires Executing(core, kind) && GoodAnswer(kind, description, a)
    ensures var take := WireTaker(saveError, description);
            TakeAll(take, AnswerMessages(a) + rest, core) == TakeAll(take, rest, Answered(core, description, a))
  {
    match a
    case Statement(_, _, _) => TakesStatement(saveError, description, kind, core, a, rest);
    case Prepared => TakeFirst(WireTaker(saveError, description), Message('1', []), rest, core, Answered(core, description, a));
    case Described(_, _) => TakesDescribed(saveError, description, core, a, rest);
  }

  ghost predicate TakesAnswers(take: Taker, kind: QueryClass, description: Option<nat>) {
    forall core: Core, a: Answer, rest: seq<Message> :: Executing(core, kind) && GoodAnswer(kind, description, a) ==>
      TakeAll(take, AnswerMessages(a) + rest, core) == TakeAll(take, rest, Answered(core, description, a))
  }

  lemma WireTakesAnswers(saveError: Option<Result> -> Option<Result>, kind: QueryClass, description: Option<nat>)
    ensures TakesAnswers(WireTaker(saveError, description), kind, description)
  {
    var take := WireTaker(saveError, description);
    forall core: Core, a: Answer, rest: seq<Message> | Executing(core, kind) && GoodAnswer(kind, description, a)
      ensures TakeAll(take, AnswerMessages(a) + rest, core) == TakeAll(take, rest, Answered(core, description, a))
    {
      TakesAnswer(saveError, description, kind, core, a, rest);
    }
  }

  // ----- COPY -----

  /** A COPY message leaves a result with its column formats, and the connection in the state of its direction. */
  lemma CopyBegins(saveError: Option<Result> -> Option<Result>, description: Option<nat>, core: Core, id: char, body: seq<Byte>)
    requires WellFormed(Message(id, body)) && core.asyncStatus == Busy && id in {'G', 'H', 'W'}
    ensures var status := if id == 'G' then CopyIn else if id == 'H' then CopyOut else CopyBoth;
            WireTaker(saveError, description)(Message(id, body), core)
            == Taken(core.(result := Some(Result(CopyStatus(id), Count(body, 1), body, [])), asyncStatus := status))
    ensures forall other :: other in {'G', 'H', 'W'} && CopyStatus(other) == CopyStatus(id) ==> other == id
  {
    assert Uses(id, CopyStart(id));
    ReadsWhole(saveError, CopyStart(id), Message(id, body), core);
  }

  // ----- Queries -----

  /** How a query was sent, the description its results are read with, the answers, and the status byte of ReadyForQuery. */
  datatype Query = Query(kind: QueryClass, description: Option<nat>, answers: seq<Answer>, status: Byte)

  function AnswersMessages(answers: seq<Answer>, status: Byte): seq<Message> {
    if answers == [] then [Message('Z', [status])] else AnswerMessages(answers[0]) + AnswersMessages(answers[1..], status)
  }

  /** Bind and Close are acknowledged without a result, unless they fail. */
  function Acknowledgement(q: Query): seq<Message> {
    if q.answers != [] then []
    else if q.kind == Bind then [Message('2', [])]
    else if q.kind == Close then [Message('3', [])]
    else []
  }

  function QueryMessages(q: Query): seq<Message> {
    Acknowledgement(q) + AnswersMessages(q.answers, q.status)
  }

  function ResultsOf(description: Option<nat>, answers: seq<Answer>): (r: seq<Result>)
    ensures |r| == |answers|
  {
    if answers == [] then [] else [ResultOf(description, answers[0])] + ResultsOf(description, answers[1..])
  }

  ghost predicate GoodAnswers(kind: QueryClass, description: Option<nat>, answers: seq<Answer>) {
    forall i :: 0 <= i < |answers| ==> GoodAnswer(kind, description, answers[i])
  }

  /** Outside pipelines; only the simple protocol has several statements in a query. */
  ghost predicate GoodQuery(q: Query) {
    q.kind != Sync && (q.kind == Simple || |q.answers| <= 1) && GoodAnswers(q.kind, q.description, q.answers)
  }

  /** PQXgetResult in READY outside pipelines: the result is handed out and parsing may go on. */
  function Collected(core: Core): Core {
    core.(result := None, asyncStatus := Busy, queue := Advance(core.queue, false, false))
  }

  /** Taking messages and collecting in turn, up to limit times, until nothing is left to collect. */
  function GetFrom(take: Taker, ms: seq<Message>, core: Core, limit: nat): (seq<Result>, seq<Message>, Core)
    decreases limit
  {
    var (rest, last) := TakeAll(take, ms, core);
    if limit == 0 || last.asyncStatus != Ready || last.result.None? then ([], rest, last)
    else
      var (results, left, end) := GetFrom(take, rest, Collected(last), limit - 1);
      ([last.result.value] + results, left, end)
  }

  /** The connection is still owed these answers. */
  predicate Expecting(core: Core, kind: QueryClass, answers: seq<Answer>) {
    && kind != Sync && core.asyncStatus == Busy && core.result.None? && core.pipeline == Off
    && ((core.queue == [kind] && (kind == Simple || |answers| <= 1)) || (core.queue == [] && answers == []))
  }

  function Finished(core: Core): Core {
    core.(asyncStatus := Idle, result := None, queue := [])
  }

  /** Takes answers, holds the next message until the result is collected, and ends the query at ReadyForQuery. */
  ghost predicate TakesQueries(take: Taker, kind: QueryClass, description: Option<nat>) {
    && TakesAnswers(take, kind, description) && GatedTaker(take, {kind})
    && forall core: Core, status: Byte :: Expecting(core, kind, []) ==> take(Message('Z', [status]), core) == Taken(Finished(core))
  }

  lemma TakesReady(saveError: Option<Result> -> Option<Result>, description: Option<nat>, kind: QueryClass, core: Core, status: Byte)
    requires Expecting(core, kind, [])
    ensures WireTaker(saveError, description)(Message('Z', [status]), core) == Taken(Finished(core))
  {
    assert Scan(Reader.ReadyForQuery, [status]) == Some(1);
  }

  lemma WireTakesQueries(saveError: Option<Result> -> Option<Result>, kind: QueryClass, description: Option<nat>)
    ensures TakesQueries(WireTaker(saveError, description), kind, description)
  {
    WireTakesAnswers(saveError, kind, description);
    WireIsGated(saveError, description, {kind});
    forall core: Core, status: Byte | Expecting(core, kind, [])
      ensures WireTaker(saveError, description)(Message('Z', [status]), core) == Taken(Finished(core))
    {
      TakesReady(saveError, description, kind, core, status);
    }
  }

  /** What follows an answer waits until the result is collected. */
  lemma HeldBehind(take: Taker, kinds: set<QueryClass>, ms: seq<Message>, core: Core)
    requires GatedTaker(take, kinds) && Only(kinds, core) && core.asyncStatus == Ready
    requires ms == [] || (WellFormed(ms[0]) && !AlwaysAllowed(ms[0].id))
    ensures TakeAll(take, ms, core) == (ms, core)
  {
    if ms != [] {
      assert TakesGated(take, kinds, ms[0], core);
    }
  }

  lemma StatementFirst(a: Answer)
    requires a.Statement?
    ensures AnswerMessages(a) != []
    ensures AnswerMessages(a)[0] == if a.announced.Some? then Message('T', a.announced.value)
                                    else if a.rows != [] then Message('D', a.rows[0])
                                    else Last(a.end)
  {}

  lemma AnswerStarts(kind: QueryClass, description: Option<nat>, a: Answer)
    requires GoodAnswer(kind, description, a)
    ensures var ms := AnswerMessages(a); ms != [] && WellFormed(ms[0]) && !AlwaysAllowed(ms[0].id)
  {
    if a.Statement? {
      StatementFirst(a);
      if a.announced.None? && a.rows != [] {
        assert GoodRow(a.rows[0], Width(description, a.announced));
      }
    }
  }

  lemma StartsWithConsequence(kind: QueryClass, description: Option<nat>, answers: seq<Answer>, status: Byte)
    requires GoodAnswers(kind, description, answers)
    ensures var ms := AnswersMessages(answers, status); ms != [] && WellFormed(ms[0]) && !AlwaysAllowed(ms[0].id)
  {
    if answers == [] {
      assert Scan(Reader.ReadyForQuery, [status]) == Some(1);
    } else {
      AnswerStarts(kind, description, answers[0]);
      assert AnswersMessages(answers, status)[0] == AnswerMessages(answers[0])[0];
    }
  }

  lemma FirstAnswer(take: Taker, kind: QueryClass, description: Option<nat>, answers: seq<Answer>, status: Byte, core: Core)
    requires TakesQueries(take, kind, description) && GoodAnswers(kind, description, answers) && Expecting(core, kind, answers)
    ensures TakeAll(take, AnswersMessages(answers, status), core)
            == if answers == [] then ([], Finished(core))
               else (AnswersMessages(answers[1..], status), Answered(core, description, answers[0]))
  {
    if answers != [] {
      StartsWithConsequence(kind, description, answers[1..], status);
      HeldBehind(take, {kind}, AnswersMessages(answers[1..], status), Answered(core, description, answers[0]));
    }
  }

  /** Once the first result has been collected the other answers are due. */
  lemma NextExpected(kind: QueryClass, description: Option<nat>, answers: seq<Answer>, core: Core)
    requires answers != [] && Expecting(core, kind, answers)
    ensures var next := Collected(Answered(core, description, answers[0]));
            Expecting(next, kind, answers[1..]) && Finished(next) == Finished(core)
  {}

  lemma CollectedFirst(take: Taker, ms: seq<Message>, rest: seq<Message>, core: Core, last: Core, limit: nat)
    requires TakeAll(take, ms, core) == (rest, last) && limit > 0 && last.asyncStatus == Ready && last.result.Some?
    ensures var (results, left, end) := GetFrom(take, rest, Collected(last), limit - 1);
            GetFrom(take, ms, core, limit) == ([last.result.value] + results, left, end)
  {}

  lemma {:induction false} AnswersTaken(take: Taker, kind: QueryClass, description: Option<nat>,
                                        answers: seq<Answer>, status: Byte, core: Core, limit: nat)
    requires TakesQueries(take, kind, description) && GoodAnswers(kind, description, answers)
    requires Expecting(core, kind, answers) && limit >= |answers|
    ensures GetFrom(take, AnswersMessages(answers, status), core, limit) == (ResultsOf(description, answers), [], Finished(core))
    decreases |answers|
  {
    FirstAnswer(take, kind, description, answers, status, core);
    if answers != [] {
      var a := answers[0];
      var next := Collected(Answered(core, description, a));
      NextExpected(kind, description, answers, core);
      AnswersTaken(take, kind, description, answers[1..], status, next, limit - 1);
      CollectedFirst(take, AnswersMessages(answers, status), AnswersMessages(answers[1..], status), core,
                     Answered(core, description, a), limit);
    }
  }

  /** The acknowledgement of Bind or Close takes it off the queue. */
  lemma TakesAcknowledgement(saveError: Option<Result> -> Option<Result>, q: Query, core: Core, rest: seq<Message>)
    requires Expecting(core, q.kind, q.answers) && core.queue != []
    ensures var take := WireTaker(saveError, q.description);
            var next := if Acknowledgement(q) == [] then core else core.(queue := []);
            TakeAll(take, Acknowledgement(q) + rest, core) == TakeAll(take, rest, next) && Expecting(next, q.kind, q.answers)
  {
    if Acknowledgement(q) == [] {
      assert [] + rest == rest;
    } else {
      TakeFirst(WireTaker(saveError, q.description), Acknowledgement(q)[0], rest, core, core.(queue := []));
    }
  }

  lemma QueryTaken(saveError: Option<Result> -> Option<Result>, q: Query, core: Core, limit: nat)
    requires GoodQuery(q) && Expecting(core, q.kind, q.answers) && core.queue != [] && limit >= |q.answers|
    ensures GetFrom(WireTaker(saveError, q.description), QueryMessages(q), core, limit)
            == (ResultsOf(q.description, q.answers), [], Finished(core))
  {
    var take, rest := WireTaker(saveError, q.description), AnswersMessages(q.answers, q.status);
    TakesAcknowledgement(saveError, q, core, rest);
    var next := if Acknowledgement(q) == [] then core else core.(queue := []);
    WireTakesQueries(saveError, q.kind, q.description);
    AnswersTaken(take, q.kind, q.description, q.answers, q.status, next, limit);
    GetSame(take, QueryMessages(q), core, rest, next, limit);
  }

  lemma GetSame(take: Taker, ms: seq<Message>, core: Core, rest: seq<Message>, next: Core, limit: nat)
    requires TakeAll(take, ms, core) == TakeAll(take, rest, next)
    ensures GetFrom(take, ms, core, limit) == GetFrom(take, rest, next, limit)
  {}

  /** Messages of no consequence do not change what is collected. */
  lemma {:induction false} CollectedDespiteNoise(take: Taker, kinds: set<QueryClass>, ms: seq<Message>, core: Core, limit: nat)
    requires GatedTaker(take, kinds) && AllWellFormed(ms) && Only(kinds, core)
    ensures var ((results, left, last), (same, clean, end))
              := (GetFrom(take, ms, core, limit), GetFrom(take, Clean(kinds, ms), core, limit));
            results == same && Clean(kinds, left) == clean && last == end && (Open(last.asyncStatus) ==> left == [])
    decreases limit
  {
    NoiseIgnored(take, kinds, ms, core);
    OpenMeansAll(take, kinds, ms, core);
    var (rest, last) := TakeAll(take, ms, core);
    if limit > 0 && last.asyncStatus == Ready && last.result.Some? {
      CollectedDespiteNoise(take, kinds, rest, Collected(last), limit - 1);
    }
  }

  /** A query with such messages anywhere in it is collected all the same, and nothing of it is left. */
  lemma NoisyQueryTaken(saveError: Option<Result> -> Option<Result>, q: Query, ms: seq<Message>, core: Core, limit: nat)
    requires AllWellFormed(ms) && Clean({q.kind}, ms) == QueryMessages(q)
    requires GoodQuery(q) && Expecting(core, q.kind, q.answers) && core.queue != [] && limit >= |q.answers|
    ensures GetFrom(WireTaker(saveError, q.description), ms, core, limit)
            == (ResultsOf(q.description, q.answers), [], Finished(core))
  {
    WireIsGated(saveError, q.description, {q.kind});
    CollectedDespiteNoise(WireTaker(saveError, q.description), {q.kind}, ms, core, limit);
    QueryTaken(saveError, q, core, limit);
  }

  lemma NoisyAnswerTaken(saveError: Option<Result> -> Option<Result>, description: Option<nat>, kind: QueryClass,
                         core: Core, a: Answer, ms: seq<Message>, more: seq<Message>)
    requires AllWellFormed(ms) && Clean({kind}, ms) == AnswerMessages(a) + Clean({kind}, more) && AllWellFormed(more)
    requires Executing(core, kind) && GoodAnswer(kind, description, a)
    ensures var (left, last) := TakeAll(WireTaker(saveError, description), ms, core);
            Clean({kind}, left) == Clean({kind}, more) && last == Answered(core, description, a)
  {
    var take := WireTaker(saveError, description);
    WireIsGated(saveError, description, {kind});
    NoiseIgnored(take, {kind}, ms, core);
    TakesAnswer(saveError, description, kind, core, a, Clean({kind}, more));
    HeldWhenClosed(take, {kind}, more, Answered(core, description, a));
  }

  // ----- From the bytes -----

  function Parser(h: Readers, description: Option<nat>): Conn -> Conn {
    c => if ConnOk(c) then ParseAll(h, description, true, c) else c
  }

  /** Parsing and collecting in turn, up to limit times, until a call leaves nothing to collect. */
  function GetResults(parse: Conn -> Conn, c: Conn, limit: nat): (seq<Result>, Conn)
    decreases limit
  {
    var r := parse(c);
    if limit == 0 || r.core.asyncStatus != Ready || r.core.result.None? then ([], r)
    else
      var (results, last) := GetResults(parse, r.(core := Collected(r.core)), limit - 1);
      ([r.core.result.value] + results, last)
  }

  /** The rest of the input is these messages. */
  ghost predicate Pending(c: Conn, ms: seq<Message>) {
    ConnOk(c) && AllWellFormed(ms) && c.buffer[c.inStart..] == EncodeAll(ms)
  }

  /** A call of parse ends where taking the messages one by one ends. */
  ghost predicate Refines(parse: Conn -> Conn, take: Taker) {
    forall c: Conn, ms: seq<Message> :: Pending(c, ms) ==> TakenTo(take, c, ms, parse(c))
  }

  lemma WireRefines(saveError: Option<Result> -> Option<Result>, description: Option<nat>)
    ensures Refines(Parser(Wire(saveError), description), WireTaker(saveError, description))
  {
    var parse, take := Parser(Wire(saveError), description), WireTaker(saveError, description);
    forall c: Conn, ms: seq<Message> | Pending(c, ms)
      ensures TakenTo(take, c, ms, parse(c))
    {
      ParseRefines(saveError, description, c, ms);
    }
  }

  lemma CallRefines(parse: Conn -> Conn, take: Taker, c: Conn, ms: seq<Message>)
    requires Refines(parse, take) && Pending(c, ms)
    ensures var (rest, core) := TakeAll(take, ms, c.core);
            && |EncodeAll(rest)| <= |c.buffer| && parse(c) == LeftWith(c, rest, core)
            && Pending(LeftWith(c, rest, Collected(core)), rest)
  {}

  /** GetResults on the bytes agrees with GetFrom on the messages. */
  predicate GetsSame(parse: Conn -> Conn, take: Taker, c: Conn, ms: seq<Message>, limit: nat) {
    var (results, left, core) := GetFrom(take, ms, c.core, limit);
    |EncodeAll(left)| <= |c.buffer| && GetResults(parse, c, limit) == (results, LeftWith(c, left, core))
  }

  lemma GetsSameStep(parse: Conn -> Conn, take: Taker, c: Conn, ms: seq<Message>, rest: seq<Message>, last: Core, limit: nat)
    requires TakeAll(take, ms, c.core) == (rest, last) && |EncodeAll(rest)| <= |c.buffer| && parse(c) == LeftWith(c, rest, last)
    requires limit > 0 && last.asyncStatus == Ready && last.result.Some? ==>
               GetsSame(parse, take, LeftWith(c, rest, Collected(last)), rest, limit - 1)
    ensures GetsSame(parse, take, c, ms, limit)
  {
    if limit > 0 && last.asyncStatus == Ready && last.result.Some? {
      var next := LeftWith(c, rest, Collected(last));
      assert parse(c).(core := Collected(last)) == next;
    }
  }

  lemma {:induction false} GetRefines(parse: Conn -> Conn, take: Taker, c: Conn, ms: seq<Message>, limit: nat)
    requires Refines(parse, take) && Pending(c, ms)
    ensures GetsSame(parse, take, c, ms, limit)
    decreases limit
  {
    CallRefines(parse, take, c, ms);
    var (rest, last) := TakeAll(take, ms, c.core);
    if limit > 0 && last.asyncStatus == Ready && last.result.Some? {
      GetRefines(parse, take, LeftWith(c, rest, Collected(last)), rest, limit - 1);
    }
    GetsSameStep(parse, take, c, ms, rest, last, limit);
  }

  /**
   One call on an answer, with messages of no consequence anywhere in it: it becomes exactly the one result it
   should, and what follows it is left.
   */
  lemma CollectsAnswer(saveError: Option<Result> -> Option<Result>, description: Option<nat>, kind: QueryClass,
                       c: Conn, a: Answer, ms: seq<Message>, more: seq<Message>) returns (left: seq<Message>)
    requires Pending(c, ms) && Clean({kind}, ms) == AnswerMessages(a) + Clean({kind}, more) && AllWellFormed(more)
    requires Executing(c.core, kind) && GoodAnswer(kind, description, a)
    ensures Clean({kind}, left) == Clean({kind}, more) && |EncodeAll(left)| <= |c.buffer|
    ensures ParseAll(Wire(saveError), description, true, c) == LeftWith(c, left, Answered(c.core, description, a))
    ensures Pending(LeftWith(c, left, Answered(c.core, description, a)), left)
  {
    NoisyAnswerTaken(saveError, description, kind, c.core, a, ms, more);
    ParseRefines(saveError, description, c, ms);
    left := TakeAll(WireTaker(saveError, description), ms, c.core).0;
  }

  /**
   The rest of the input is what the server sends for the query, with messages of no consequence anywhere in it, and
   the connection is waiting for it.
   */
  ghost predicate QueryDue(c: Conn, q: Query, ms: seq<Message>) {
    && Pending(c, ms) && Clean({q.kind}, ms) == QueryMessages(q)
    && GoodQuery(q) && Expecting(c.core, q.kind, q.answers) && c.core.queue != []
  }

  /**
   Parsing and collecting in turn, the application gets exactly one result per statement, in order, and then
   IDLE with everything consumed, no result left and the query off the queue.
   */
  lemma CollectsQuery(saveError: Option<Result> -> Option<Result>, c: Conn, q: Query, ms: seq<Message>, limit: nat)
    requires QueryDue(c, q, ms) && limit >= |q.answers|
    ensures GetResults(Parser(Wire(saveError), q.description), c, limit)
            == (ResultsOf(q.description, q.answers), c.(inStart := |c.buffer|, core := Finished(c.core)))
  {
    WireRefines(saveError, q.description);
    GetRefines(Parser(Wire(saveError), q.description), WireTaker(saveError, q.description), c, ms, limit);
    NoisyQueryTaken(saveError, q, ms, c.core, limit);
  }

  // ----- Sessions -----

  /** A query and the messages the server sends for it. */
  datatype Exchange = Exchange(query: Query, messages: seq<Message>)

  ghost predicate GoodExchange(e: Exchange) {
    GoodQuery(e.query) && AllWellFormed(e.messages) && Clean({e.query.kind}, e.messages) == QueryMessages(e.query)
  }

  /** A query is sent outside pipelines, and the bytes of the answer arrive. */
  function Sent(c: Conn, e: Exchange): Conn {
    Feed(c.(core := c.core.(asyncStatus := Busy, result := None, queue := [e.query.kind])), EncodeAll(e.messages))
  }

  /** Queries one after the other, each answered and collected under its own description before the next. */
  function Session(parser: Option<nat> -> (Conn -> Conn), c: Conn, exchanges: seq<Exchange>): (seq<seq<Result>>, Conn)
    decreases |exchanges|
  {
    if exchanges == [] then ([], c)
    else
      var q := exchanges[0].query;
      var (results, next) := GetResults(parser(q.description), Sent(c, exchanges[0]), |q.answers|);
      var (more, last) := Session(parser, next, exchanges[1..]);
      ([results] + more, last)
  }

  function SessionResults(exchanges: seq<Exchange>): seq<seq<Result>> {
    if exchanges == [] then []
    else
      var q := exchanges[0].query;
      [ResultsOf(q.description, q.answers)] + SessionResults(exchanges[1..])
  }

  /** Nothing to do and nothing left over. */
  predicate AtRest(c: Conn) {
    && !c.bad && c.inStart == |c.buffer| && c.core.asyncStatus == Idle
    && c.core.result.None? && c.core.queue == [] && c.core.pipeline == Off
  }

  lemma SentIsDue(c: Conn, e: Exchange)
    requires AtRest(c) && GoodExchange(e)
    ensures QueryDue(Sent(c, e), e.query, e.messages)
  {
    var sent := Sent(c, e);
    assert sent.buffer[sent.inStart..] == EncodeAll(e.messages);
  }

  /** Parsers with which every exchange on a connection at rest gives its results and leaves the connection at rest. */
  ghost predicate ServesExchanges(parser: Option<nat> -> (Conn -> Conn)) {
    forall c: Conn, e: Exchange :: AtRest(c) && GoodExchange(e) ==>
      var (results, last) := GetResults(parser(e.query.description), Sent(c, e), |e.query.answers|);
      results == ResultsOf(e.query.description, e.query.answers) && AtRest(last)
  }

  function WireParser(saveError: Option<Result> -> Option<Result>): Option<nat> -> (Conn -> Conn) {
    (description: Option<nat>) => Parser(Wire(saveError), description)
  }

  lemma WireServesExchanges(saveError: Option<Result> -> Option<Result>)
    ensures ServesExchanges(WireParser(saveError))
  {
    forall c: Conn, e: Exchange | AtRest(c) && GoodExchange(e)
      ensures var (results, last) := GetResults(WireParser(saveError)(e.query.description), Sent(c, e), |e.query.answers|);
              results == ResultsOf(e.query.description, e.query.answers) && AtRest(last)
    {
      SentIsDue(c, e);
      CollectsQuery(saveError, Sent(c, e), e.query, e.messages, |e.query.answers|);
    }
  }

  lemma {:induction false} SessionCollected(parser: Option<nat> -> (Conn -> Conn), c: Conn, exchanges: seq<Exchange>)
    requires ServesExchanges(parser)
    requires AtRest(c) && forall i :: 0 <= i < |exchanges| ==> GoodExchange(exchanges[i])
    ensures var (results, last) := Session(parser, c, exchanges); results == SessionResults(exchanges) && AtRest(last)
    decreases |exchanges|
  {
    if exchanges != [] {
      var q := exchanges[0].query;
      var (_, next) := GetResults(parser(q.description), Sent(c, exchanges[0]), |q.answers|);
      SessionCollected(parser, next, exchanges[1..]);
    }
  }

  /**
   Over any sequence of queries, each with its own description, every result belongs to its query and statement, and
   the connection is at rest after each.
   */
  lemma CollectsSession(saveError: Option<Result> -> Option<Result>, c: Conn, exchanges: seq<Exchange>)
    requires AtRest(c) && forall i :: 0 <= i < |exchanges| ==> GoodExchange(exchanges[i])
    ensures var (results, last) := Session(WireParser(saveError), c, exchanges);
            results == SessionResults(exchanges) && AtRest(last)
  {
    WireServesExchanges(saveError);
    SessionCollected(WireParser(saveError), c, exchanges);
  }
}
