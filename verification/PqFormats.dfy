/**
 The messages of section 55.7 (Message Formats) of the PostgreSQL 16 manual, built from what they carry, are
 well-formed; so are the answers made of them.
 */
module PqFormats {
  import opened Wrappers
  import opened PqInput
  import opened PqSplit
  import opened PqWire
  import opened PqResponse
  import opened PqMessages
  import opened PqQuery

  // ----- Fields -----

  /** A field of fixed size, or a text ended by a zero byte. */
  datatype Item = Raw(bytes: seq<Byte>) | Str(text: seq<Byte>)

  predicate GoodItem(i: Item) {
    i.Str? ==> 0 !in i.text
  }

  predicate GoodItems(items: seq<Item>) {
    items == [] || (GoodItem(items[0]) && GoodItems(items[1..]))
  }

  function ItemBytes(i: Item): seq<Byte> {
    if i.Raw? then i.bytes else i.text + [0]
  }

  function ItemsBytes(items: seq<Item>): seq<Byte> {
    if items == [] then [] else ItemBytes(items[0]) + ItemsBytes(items[1..])
  }

  function Kind(i: Item): Field {
    if i.Raw? then Bytes(|i.bytes|) else Text
  }

  function Kinds(items: seq<Item>): seq<Field> {
    if items == [] then [] else [Kind(items[0])] + Kinds(items[1..])
  }

  lemma {:induction false} TextRead(b: seq<Byte>, at: nat, text: seq<Byte>)
    requires 0 !in text && at + |text| < |b| && b[at..at + |text|] == text && b[at + |text|] == 0
    ensures TextEnd(b, at) == Some(at + |text| + 1)
    decreases |text|
  {
    if text != [] {
      assert b[at] == b[at..at + |text|][0];
      assert b[at + 1..at + |text|] == b[at..at + |text|][1..];
      TextRead(b, at + 1, text[1..]);
    }
  }

  lemma ItemRead(b: seq<Byte>, at: nat, item: Item, rest: seq<Byte>)
    requires at <= |b| && b[at..] == ItemBytes(item) + rest && GoodItem(item)
    ensures var end := at + |ItemBytes(item)|; end <= |b| && b[end..] == rest && FieldEnd(b, at, Kind(item)) == Some(end)
  {
    var size := |ItemBytes(item)|;
    assert |b[at..]| == size + |rest|;
    assert b[at + size..] == b[at..][size..];
    if item.Str? {
      var n := |item.text|;
      assert b[at..at + n] == b[at..][..n] == item.text;
      assert b[at + n] == b[at..][n] == 0;
      TextRead(b, at, item.text);
    }
  }

  lemma FieldsStep(b: seq<Byte>, at: nat, items: seq<Item>, end: nat)
    requires items != [] && FieldEnd(b, at, Kind(items[0])) == Some(end)
    ensures Fields(b, at, Kinds(items)) == Fields(b, end, Kinds(items[1..]))
  {
    assert Kinds(items)[1..] == Kinds(items[1..]);
  }

  /** Fields are read to their end, wherever they start. */
  lemma {:induction false} ItemsRead(b: seq<Byte>, at: nat, items: seq<Item>)
    requires at <= |b| && b[at..] == ItemsBytes(items) && GoodItems(items)
    ensures Fields(b, at, Kinds(items)) == Some(|b|)
    decreases |items|
  {
    if items == [] {
      assert |b[at..]| == 0;
    } else {
      var end := at + |ItemBytes(items[0])|;
      ItemRead(b, at, items[0], ItemsBytes(items[1..]));
      ItemsRead(b, end, items[1..]);
      FieldsStep(b, at, items, end);
    }
  }

  function Int16Bytes(n: nat): seq<Byte> {
    [n / 256 % 256, n % 256]
  }

  lemma CountRead(n: nat, rest: seq<Byte>)
    requires n < 0x1_0000
    ensures var b := Int16Bytes(n) + rest; Count(b, 0) == n && Int16(b, 0) == n && b[2..] == rest
  {}

  // ----- Rows and reports -----

  /** A null, or a length and as many bytes. */
  function ValueBytes(v: Option<seq<Byte>>): seq<Byte> {
    if v.None? then [255, 255, 255, 255] else Int32Bytes(|v.value|) + v.value
  }

  function ValuesBytes(values: seq<Option<seq<Byte>>>): seq<Byte> {
    if values == [] then [] else ValueBytes(values[0]) + ValuesBytes(values[1..])
  }

  lemma ValueRead(b: seq<Byte>, at: nat, v: Option<seq<Byte>>, rest: seq<Byte>)
    requires at <= |b| && b[at..] == ValueBytes(v) + rest && |b| < 0x8000_0000
    ensures var end := at + |ValueBytes(v)|;
            && end <= |b| && b[end..] == rest && at + 4 <= |b|
            && var vlen := Int32(b[at..at + 4]); at + 4 + (if vlen > 0 then vlen else 0) == end
  {
    var size := |ValueBytes(v)|;
    assert |b[at..]| == size + |rest|;
    assert b[at + size..] == b[at..][size..];
    assert b[at..at + 4] == b[at..][..4] == ValueBytes(v)[..4];
    if v.Some? {
      assert ValueBytes(v)[..4] == Int32Bytes(|v.value|);
      Int32RoundTrip(|v.value|);
    }
  }

  lemma {:induction false} ValuesRead(b: seq<Byte>, at: nat, values: seq<Option<seq<Byte>>>)
    requires at <= |b| && b[at..] == ValuesBytes(values) && |b| < 0x8000_0000
    ensures Columns(b, at, |values|) == Some(|b|)
    decreases |values|
  {
    if values == [] {
      assert |b[at..]| == 0;
    } else {
      var end := at + |ValueBytes(values[0])|;
      ValueRead(b, at, values[0], ValuesBytes(values[1..]));
      ValuesRead(b, end, values[1..]);
      assert Columns(b, at, |values|) == Columns(b, end, |values| - 1);
    }
  }

  /** A field of an error or notice: its type and its text. */
  datatype Part = Part(code: Byte, text: seq<Byte>)

  predicate GoodPart(p: Part) {
    p.code != 0 && 0 !in p.text
  }

  function PartsBytes(parts: seq<Part>): seq<Byte> {
    if parts == [] then [0] else [parts[0].code] + ItemBytes(Str(parts[0].text)) + PartsBytes(parts[1..])
  }

  lemma {:induction false} PartsRead(b: seq<Byte>, at: nat, parts: seq<Part>)
    requires at <= |b| && b[at..] == PartsBytes(parts) && forall i :: 0 <= i < |parts| ==> GoodPart(parts[i])
    ensures ErrorFields(b, at) == Some(|b|)
    decreases |parts|
  {
    assert b[at] == b[at..][0];
    if parts != [] {
      assert b[at + 1..] == b[at..][1..];
      ItemRead(b, at + 1, Str(parts[0].text), PartsBytes(parts[1..]));
      PartsRead(b, at + 1 + |ItemBytes(Str(parts[0].text))|, parts[1..]);
    }
  }

  // ----- Messages -----

  /** A column: its name, and table, position, type, size, modifier and format. */
  datatype Column = Column(name: seq<Byte>, description: seq<Byte>)

  function ColumnItems(columns: seq<Column>): seq<Item> {
    if columns == [] then []
    else [Str(columns[0].name), Raw(columns[0].description)] + ColumnItems(columns[1..])
  }

  /** What a message carries. */
  datatype Content =
    | Status(status: Byte)
    | Tag(tag: seq<Byte>)
    | Parameter(name: seq<Byte>, value: seq<Byte>)
    | Notification(process: seq<Byte>, channel: seq<Byte>, payload: seq<Byte>)
    | Key(process: seq<Byte>, secret: seq<Byte>)
    | Error(parts: seq<Part>)
    | Warning(parts: seq<Part>)
    | Description(columns: seq<Column>)
    | Row(values: seq<Option<seq<Byte>>>)
    | ParameterTypes(count: nat, types: seq<Byte>)
    | CopyFormat(copy: char, format: Byte, count: nat, formats: seq<Byte>)
    | Unread(id: char, body: seq<Byte>)   // a type without a reader

  function MessageOf(c: Content): Message {
    match c
    case Status(status) => Message('Z', [status])
    case Tag(tag) => Message('C', tag + [0])
    case Parameter(name, value) => Message('S', ItemsBytes([Str(name), Str(value)]))
    case Notification(process, channel, payload) => Message('A', ItemsBytes([Raw(process), Str(channel), Str(payload)]))
    case Key(process, secret) => Message('K', ItemsBytes([Raw(process), Raw(secret)]))
    case Error(parts) => Message('E', PartsBytes(parts))
    case Warning(parts) => Message('N', PartsBytes(parts))
    case Description(columns) => Message('T', Int16Bytes(|columns|) + ItemsBytes(ColumnItems(columns)))
    case Row(values) => Message('D', Int16Bytes(|values|) + ValuesBytes(values))
    case ParameterTypes(count, types) => Message('t', Int16Bytes(count) + types)
    case CopyFormat(copy, format, count, formats) => Message(copy, [format] + Int16Bytes(count) + formats)
    case Unread(id, body) => Message(id, body)
  }

  /** Texts without zero bytes, fields of their sizes, counts that fit 16 bits. */
  predicate GoodContent(c: Content) {
    match c
    case Status(_) => true
    case Tag(tag) => 0 !in tag
    case Parameter(name, value) => 0 !in name && 0 !in value
    case Notification(process, channel, payload) => |process| == 4 && 0 !in channel && 0 !in payload
    case Key(process, secret) => |process| == 4 && |secret| == 4
    case Error(parts) => forall i :: 0 <= i < |parts| ==> GoodPart(parts[i])
    case Warning(parts) => forall i :: 0 <= i < |parts| ==> GoodPart(parts[i])
    case Description(columns) =>
      |columns| < 0x1_0000 && forall i :: 0 <= i < |columns| ==> 0 !in columns[i].name && |columns[i].description| == 18
    case Row(values) => |values| < 0x1_0000
    case ParameterTypes(count, types) => count < 0x1_0000 && |types| == 4 * count
    case CopyFormat(copy, _, count, formats) => copy in {'G', 'H', 'W'} && count < 0x1_0000 && |formats| == 2 * count
    case Unread(id, _) => id !in {'A', 'N', 'E', 'S', 'C', 'Z', 'K', 'T', 't', 'D', 'G', 'H', 'W'}
  }

  lemma {:induction false} ColumnKinds(columns: seq<Column>)
    requires forall i :: 0 <= i < |columns| ==> 0 !in columns[i].name && |columns[i].description| == 18
    ensures var items := ColumnItems(columns);
            Kinds(items) == RowFields(|columns|) && GoodItems(items)
    decreases |columns|
  {
    if columns != [] {
      var items, more := ColumnItems(columns), ColumnItems(columns[1..]);
      ColumnKinds(columns[1..]);
      assert items[1..] == [Raw(columns[0].description)] + more && items[1..][1..] == more;
    }
  }

  /** A body made of fields only. */
  lemma ItemsBody(items: seq<Item>)
    requires GoodItems(items)
    ensures Fields(ItemsBytes(items), 0, Kinds(items)) == Some(|ItemsBytes(items)|)
  {
    assert ItemsBytes(items)[0..] == ItemsBytes(items);
    ItemsRead(ItemsBytes(items), 0, items);
  }

  lemma DescriptionRead(columns: seq<Column>)
    requires GoodContent(Description(columns))
    ensures var body := MessageOf(Description(columns)).body;
            Scan(RowDescription, body) == Some(|body|) && Count(body, 0) == |columns|
  {
    CountRead(|columns|, ItemsBytes(ColumnItems(columns)));
    ColumnKinds(columns);
    ItemsRead(MessageOf(Description(columns)).body, 2, ColumnItems(columns));
  }

  lemma RowRead(values: seq<Option<seq<Byte>>>)
    requires GoodContent(Row(values)) && Sendable(MessageOf(Row(values)))
    ensures var body := MessageOf(Row(values)).body; Scan(DataRow, body) == Some(|body|) && Count(body, 0) == |values|
  {
    CountRead(|values|, ValuesBytes(values));
    ValuesRead(MessageOf(Row(values)).body, 2, values);
  }

  lemma CountedRead(first: seq<Byte>, n: nat, rest: seq<Byte>, size: nat)
    requires |first| <= 1 && n < 0x1_0000 && |rest| == size * n
    ensures var b := first + Int16Bytes(n) + rest;
            Int16(b, |first|) == n && Fields(b, |first| + 2, [Bytes(size * n)]) == Some(|b|)
  {
    var b := first + Int16Bytes(n) + rest;
    assert b[|first|] == n / 256 && b[|first| + 1] == n % 256;
  }

  lemma TagRead(tag: seq<Byte>)
    requires 0 !in tag
    ensures Scan(CommandTag, tag + [0]) == Some(|tag| + 1)
  {
    TextRead(tag + [0], 0, tag);
  }

  lemma TwoItems(a: Item, b: Item)
    ensures Kinds([a, b]) == [Kind(a), Kind(b)] && (GoodItems([a, b]) <==> GoodItem(a) && GoodItem(b))
  {
    assert [a, b][1..] == [b] && [b][1..] == [];
    assert Kinds([b]) == [Kind(b)] && (GoodItems([b]) <==> GoodItem(b));
  }

  lemma ParameterRead(name: seq<Byte>, value: seq<Byte>)
    requires 0 !in name && 0 !in value
    ensures var body := MessageOf(Parameter(name, value)).body; Scan(ParameterStatus, body) == Some(|body|)
  {
    TwoItems(Str(name), Str(value));
    ItemsBody([Str(name), Str(value)]);
  }

  lemma NotificationRead(process: seq<Byte>, channel: seq<Byte>, payload: seq<Byte>)
    requires |process| == 4 && 0 !in channel && 0 !in payload
    ensures var body := MessageOf(Notification(process, channel, payload)).body; Scan(Notify, body) == Some(|body|)
  {
    var items := [Raw(process), Str(channel), Str(payload)];
    assert items[1..] == [Str(channel), Str(payload)];
    TwoItems(Str(channel), Str(payload));
    ItemsBody(items);
    assert Kinds(items) == [Bytes(4), Text, Text];
  }

  lemma KeyRead(process: seq<Byte>, secret: seq<Byte>)
    requires |process| == 4 && |secret| == 4
    ensures var body := MessageOf(Key(process, secret)).body; Scan(BackendKey, body) == Some(|body|)
  {
    TwoItems(Raw(process), Raw(secret));
    ItemsBody([Raw(process), Raw(secret)]);
  }

  /** Every reader of the message reads exactly its body. */
  lemma ContentRead(c: Content, r: Reader)
    requires GoodContent(c) && Sendable(MessageOf(c)) && Uses(MessageOf(c).id, r)
    ensures Scan(r, MessageOf(c).body) == Some(|MessageOf(c).body|)
  {
    match c
    case Status(status) => assert Fields([status], 0, [Bytes(1)]) == Some(1);
    case Tag(tag) => TagRead(tag);
    case Parameter(name, value) => ParameterRead(name, value);
    case Notification(process, channel, payload) => NotificationRead(process, channel, payload);
    case Key(process, secret) => KeyRead(process, secret);
    case Error(parts) => assert PartsBytes(parts)[0..] == PartsBytes(parts); PartsRead(PartsBytes(parts), 0, parts);
    case Warning(parts) => assert PartsBytes(parts)[0..] == PartsBytes(parts); PartsRead(PartsBytes(parts), 0, parts);
    case Description(columns) => DescriptionRead(columns);
    case Row(values) => RowRead(values);
    case ParameterTypes(count, types) => CountedRead([], count, types, 4); assert [] + Int16Bytes(count) == Int16Bytes(count);
    case CopyFormat(_, format, count, formats) => CountedRead([format], count, formats, 2);
    case Unread(_, _) => assert false;
  }

  /** Whatever a message carries, it is well-formed if it can be sent at all. */
  lemma ContentWellFormed(c: Content)
    requires GoodContent(c) && Sendable(MessageOf(c))
    ensures WellFormed(MessageOf(c))
  {
    forall r: Reader | Uses(MessageOf(c).id, r)
      ensures Scan(r, MessageOf(c).body) == Some(|MessageOf(c).body|)
    {
      ContentRead(c, r);
    }
  }

  // ----- Answers -----

  type Row = seq<Option<seq<Byte>>>

  datatype End = Tagged(tag: seq<Byte>) | AtLimit | Blank | Wrong(parts: seq<Part>)

  /** The reply to a statement, with or without the names of its columns, to Prepare, and to Describe. */
  datatype Reply =
    | Executed(columns: Option<seq<Column>>, rows: seq<Row>, end: End)
    | Parsed
    | Inspected(count: nat, types: seq<Byte>, columns: Option<seq<Column>>)

  predicate CanSend(c: Content) {
    GoodContent(c) && Sendable(MessageOf(c))
  }

  predicate CanSendRows(rows: seq<Row>, n: nat) {
    forall i :: 0 <= i < |rows| ==> |rows[i]| == n && CanSend(Content.Row(rows[i]))
  }

  predicate CanSendColumns(columns: Option<seq<Column>>) {
    columns.Some? ==> CanSend(Description(columns.value))
  }

  predicate CanEnd(end: End) {
    match end
    case Tagged(tag) => CanSend(Tag(tag))
    case Wrong(parts) => CanSend(Error(parts))
    case _ => true
  }

  /** Rows are as wide as their columns or, without those, as the description given. */
  predicate CanAnswer(kind: QueryClass, description: Option<nat>, r: Reply) {
    match r
    case Executed(columns, rows, end) =>
      && (kind in {Simple, Extended} || (columns.None? && rows == [] && end.Wrong?))
      && CanSendColumns(columns) && CanEnd(end) && (end.AtLimit? ==> columns.Some? || rows != [])
      && (if columns.Some? then CanSendRows(rows, |columns.value|)
          else rows == [] || (description.Some? && CanSendRows(rows, description.value)))
    case Parsed => kind == Prepare
    case Inspected(count, types, columns) => kind == Describe && CanSend(ParameterTypes(count, types)) && CanSendColumns(columns)
  }

  function RowBodies(rows: seq<Row>): seq<seq<Byte>> {
    seq(|rows|, i requires 0 <= i < |rows| => MessageOf(Content.Row(rows[i])).body)
  }

  function ColumnsBody(columns: Option<seq<Column>>): Option<seq<Byte>> {
    if columns.None? then None else Some(MessageOf(Description(columns.value)).body)
  }

  function EndingOf(end: End): Ending {
    match end
    case Tagged(tag) => Completed(tag)
    case AtLimit => Suspended
    case Blank => NoQuery
    case Wrong(parts) => Failed(PartsBytes(parts))
  }

  function AnswerOf(r: Reply): Answer {
    match r
    case Executed(columns, rows, end) => Statement(ColumnsBody(columns), RowBodies(rows), EndingOf(end))
    case Parsed => Prepared
    case Inspected(count, types, columns) => Described(MessageOf(ParameterTypes(count, types)).body, ColumnsBody(columns))
  }

  lemma EndWellFormed(end: End)
    requires CanEnd(end)
    ensures WellFormed(Last(EndingOf(end)))
  {
    match end
    case Tagged(tag) => ContentWellFormed(Tag(tag));
    case AtLimit => ContentWellFormed(Unread('s', []));
    case Blank => ContentWellFormed(Unread('I', []));
    case Wrong(parts) => ContentWellFormed(Error(parts));
  }

  lemma ColumnsWellFormed(columns: Option<seq<Column>>)
    requires CanSendColumns(columns)
    ensures columns.Some? ==> var body := ColumnsBody(columns).value; WellFormed(Message('T', body)) && Count(body, 0) == |columns.value|
  {
    if columns.Some? {
      ContentWellFormed(Description(columns.value));
      DescriptionRead(columns.value);
    }
  }

  lemma RowsGood(rows: seq<Row>, n: nat)
    requires CanSendRows(rows, n)
    ensures GoodRows(RowBodies(rows), n)
  {
    var bodies := RowBodies(rows);
    forall i | 0 <= i < |bodies|
      ensures GoodRow(bodies[i], n)
    {
      ContentWellFormed(Content.Row(rows[i]));
      RowRead(rows[i]);
    }
  }

  /** Every reply is made by well-formed messages with matching column counts. */
  lemma ReplyAnswered(kind: QueryClass, description: Option<nat>, r: Reply)
    requires CanAnswer(kind, description, r)
    ensures GoodAnswer(kind, description, AnswerOf(r))
  {
    match r
    case Executed(columns, rows, end) =>
      EndWellFormed(end);
      ColumnsWellFormed(columns);
      if columns.Some? {
        RowsGood(rows, |columns.value|);
      } else if rows != [] {
        RowsGood(rows, description.value);
      }
    case Parsed => ContentWellFormed(Unread('1', []));
    case Inspected(count, types, columns) =>
      ContentWellFormed(ParameterTypes(count, types));
      ColumnsWellFormed(columns);
      ContentWellFormed(Unread('n', []));
  }

  // ----- Exchanges -----

  function AnswersOf(replies: seq<Reply>): seq<Answer> {
    seq(|replies|, i requires 0 <= i < |replies| => AnswerOf(replies[i]))
  }

  function QueryOf(kind: QueryClass, description: Option<nat>, replies: seq<Reply>, status: Byte): Query {
    Query(kind, description, AnswersOf(replies), status)
  }

  /** A query answered by the messages of its answers only. */
  function Plain(q: Query): Exchange {
    Exchange(q, QueryMessages(q))
  }

  ghost predicate AllMatter(kind: QueryClass, ms: seq<Message>) {
    forall i :: 0 <= i < |ms| ==> WellFormed(ms[i]) && !Noise({kind}, ms[i])
  }

  lemma {:induction false} RowsMatter(kind: QueryClass, rows: seq<seq<Byte>>, n: nat)
    requires GoodRows(rows, n)
    ensures AllMatter(kind, RowMessages(rows))
    decreases |rows|
  {
    if rows != [] {
      RowsMatter(kind, rows[1..], n);
    }
  }

  lemma AnswerMatters(kind: QueryClass, description: Option<nat>, a: Answer)
    requires GoodAnswer(kind, description, a)
    ensures AllMatter(kind, AnswerMessages(a))
  {
    if a.Statement? {
      RowsMatter(kind, a.rows, Width(description, a.announced));
    }
  }

  lemma {:induction false} AnswersMatter(kind: QueryClass, description: Option<nat>, answers: seq<Answer>, status: Byte)
    requires GoodAnswers(kind, description, answers)
    ensures AllMatter(kind, AnswersMessages(answers, status))
    decreases |answers|
  {
    if answers == [] {
      ContentWellFormed(Status(status));
    } else {
      AnswerMatters(kind, description, answers[0]);
      AnswersMatter(kind, description, answers[1..], status);
    }
  }

  lemma QueryMatters(q: Query)
    requires GoodQuery(q)
    ensures AllMatter(q.kind, QueryMessages(q))
  {
    ContentWellFormed(Unread('2', []));
    ContentWellFormed(Unread('3', []));
    AnswersMatter(q.kind, q.description, q.answers, q.status);
  }

  lemma {:induction false} CleanKeeps(kind: QueryClass, ms: seq<Message>)
    requires AllMatter(kind, ms)
    ensures Clean({kind}, ms) == ms
    decreases |ms|
  {
    if ms != [] {
      CleanKeeps(kind, ms[1..]);
    }
  }

  /** Any replies of any queries make an exchange the session theorem applies to. */
  lemma PlainIsGood(kind: QueryClass, description: Option<nat>, replies: seq<Reply>, status: Byte)
    requires kind != Sync && (kind == Simple || |replies| <= 1)
    requires forall i :: 0 <= i < |replies| ==> CanAnswer(kind, description, replies[i])
    ensures GoodExchange(Plain(QueryOf(kind, description, replies, status)))
  {
    var q := QueryOf(kind, description, replies, status);
    forall i | 0 <= i < |q.answers|
      ensures GoodAnswer(kind, description, q.answers[i])
    {
      ReplyAnswered(kind, description, replies[i]);
    }
    QueryMatters(q);
    CleanKeeps(kind, QueryMessages(q));
  }

  lemma {:induction false} CleanInserted(kind: QueryClass, ms: seq<Message>, m: Message, i: nat)
    requires i <= |ms| && Noise({kind}, m)
    ensures Clean({kind}, ms[..i] + [m] + ms[i..]) == Clean({kind}, ms)
    decreases i
  {
    var more := ms[..i] + [m] + ms[i..];
    if i == 0 {
      assert more[1..] == ms;
    } else {
      assert more[1..] == ms[1..][..i - 1] + [m] + ms[1..][i - 1..];
      CleanInserted(kind, ms[1..], m, i - 1);
    }
  }

  /** So does that exchange with a message of no consequence anywhere in it, and so on for more of them. */
  lemma NoiseAnywhere(e: Exchange, m: Message, i: nat)
    requires GoodExchange(e) && i <= |e.messages| && Noise({e.query.kind}, m) && WellFormed(m)
    ensures GoodExchange(e.(messages := e.messages[..i] + [m] + e.messages[i..]))
  {
    CleanInserted(e.query.kind, e.messages, m, i);
  }

  lemma NoiseFirst(e: Exchange, m: Message) returns (r: Exchange)
    requires GoodExchange(e) && Noise({e.query.kind}, m) && WellFormed(m)
    ensures GoodExchange(r) && r == e.(messages := [m] + e.messages)
  {
    NoiseAnywhere(e, m, 0);
    r := e.(messages := [m] + e.messages);
    assert e.messages[..0] + [m] + e.messages[0..] == [m] + e.messages;
  }

  // ----- A sample session -----

  function SampleColumns(): seq<Column> {
    [Column([97], seq(18, i => 0))]
  }

  function SampleRows(): seq<Row> {
    [[Some([49])], [None]]
  }

  const OK: seq<Byte> := [79, 75]

  lemma SampleTable()
    ensures CanSendColumns(Some(SampleColumns())) && CanSendRows(SampleRows(), 1)
  {
    var columns, rows := SampleColumns(), SampleRows();
    assert columns[1..] == [];
    var items := ColumnItems(columns);
    assert ColumnItems([]) == [] && |items| == 2;
    assert items[1..] == [items[1]] && items[1..][1..] == [];
    assert |ItemsBytes(items)| == 20 by {
      assert |ItemsBytes(items[1..])| == 18;
    }
    assert rows[0][1..] == [] && rows[1][1..] == [];
    assert |ValuesBytes(rows[0])| == 5 && |ValuesBytes(rows[1])| == 4;
  }

  /** A query with one reply. */
  lemma OneReply(kind: QueryClass, description: Option<nat>, r: Reply) returns (e: Exchange)
    requires kind != Sync && CanAnswer(kind, description, r)
    ensures GoodExchange(e) && e.query == Query(kind, description, [AnswerOf(r)], 73)
  {
    PlainIsGood(kind, description, [r], 73);
    e := Plain(QueryOf(kind, description, [r], 73));
    assert AnswersOf([r]) == [AnswerOf(r)];
  }

  /** A table with its columns, a command and a failure in one simple query. */
  lemma SampleSimple() returns (e: Exchange)
    ensures GoodExchange(e) && e.query.kind == Simple && |e.query.answers| == 3
    ensures var answers := e.query.answers;
            && answers[0].Statement? && answers[0].announced.Some? && |answers[0].rows| == 2
            && answers[1] == Statement(None, [], Completed(OK)) && answers[2].Statement? && answers[2].end.Failed?
  {
    var parts: seq<Part> := [Part(67, [52, 50])];
    assert parts[1..] == [] && |PartsBytes(parts)| == 5;
    SampleTable();
    var table := Executed(Some(SampleColumns()), SampleRows(), Tagged(OK));
    var replies := [table, Executed(None, [], Tagged(OK)), Executed(None, [], Wrong(parts))];
    PlainIsGood(Simple, None, replies, 73);
    e := Plain(QueryOf(Simple, None, replies, 73));
  }

  lemma SampleDescribed() returns (e: Exchange)
    ensures GoodExchange(e) && e.query.kind == Describe && |e.query.answers| == 1
    ensures e.query.answers[0].Described? && ResultOf(None, e.query.answers[0]).columns == 1
  {
    SampleTable();
    DescriptionRead(SampleColumns());
    var r := Inspected(0, [], Some(SampleColumns()));
    assert CanSend(ParameterTypes(0, []));
    e := OneReply(Describe, None, r);
  }

  /** Two rows under a description of n columns, not announced again. */
  predicate FetchesTwo(e: Exchange, n: nat, end: Ending) {
    && e.query.kind == Extended && e.query.description == Some(n) && |e.query.answers| == 1
    && var a := e.query.answers[0]; a.Statement? && a.announced.None? && |a.rows| == 2 && a.end == end
  }

  lemma SampleFetch(end: End)
    requires end == Tagged(OK) || end == AtLimit
    ensures CanAnswer(Extended, Some(1), Executed(None, SampleRows(), end))
  {
    SampleTable();
  }

  /** The acknowledgement of Bind and a notice before an answer. */
  lemma WithNoise(e: Exchange) returns (r: Exchange)
    requires GoodExchange(e) && e.query.kind == Extended
    ensures GoodExchange(r) && r.query == e.query && r.messages == [Message('2', []), Message('N', [0])] + e.messages
  {
    ContentWellFormed(Warning([]));
    ContentWellFormed(Unread('2', []));
    r := NoiseFirst(e, Message('N', [0]));
    r := NoiseFirst(r, Message('2', []));
  }

  lemma SampleFetched(end: End) returns (e: Exchange)
    requires end == Tagged(OK) || end == AtLimit
    ensures GoodExchange(e) && FetchesTwo(e, 1, EndingOf(end)) && |e.messages| >= 2 && e.messages[0].id == '2'
  {
    SampleFetch(end);
    e := OneReply(Extended, Some(1), Executed(None, SampleRows(), end));
    assert |RowBodies(SampleRows())| == 2;
    e := WithNoise(e);
  }

  lemma SampleBound() returns (e: Exchange)
    ensures GoodExchange(e) && e.query.kind == Bind && e.query.answers == []
  {
    PlainIsGood(Bind, None, [], 73);
    e := Plain(QueryOf(Bind, None, [], 73));
  }

  ghost predicate GoodSession(session: seq<Exchange>) {
    forall i :: 0 <= i < |session| ==> GoodExchange(session[i])
  }

  lemma GoodSessions(a: seq<Exchange>, b: seq<Exchange>)
    requires GoodSession(a) && GoodSession(b)
    ensures GoodSession(a + b)
  {}

  /** A statement prepared, described, and executed under the description. */
  lemma SampleStatement() returns (session: seq<Exchange>)
    ensures GoodSession(session) && |session| == 3 && session[0].query.answers == [Prepared]
    ensures var described := session[1].query.answers;
            && |described| == 1 && described[0].Described? && ResultOf(None, described[0]).columns == 1
            && FetchesTwo(session[2], 1, Completed(OK))
  {
    var prepared := OneReply(Prepare, None, Parsed);
    var described := SampleDescribed();
    var executed := SampleFetched(Tagged(OK));
    session := [prepared, described, executed];
  }

  /** A portal bound and fetched up to its limit. */
  lemma SamplePortal() returns (session: seq<Exchange>)
    ensures GoodSession(session) && |session| == 2 && session[0].query.kind == Bind && FetchesTwo(session[1], 1, Suspended)
  {
    var bound := SampleBound();
    var fetched := SampleFetched(AtLimit);
    session := [bound, fetched];
  }

  /** A session the session theorem applies to: a simple query of three statements, such a statement and such a portal. */
  lemma SampleSession() returns (simple: Exchange, statement: seq<Exchange>, portal: seq<Exchange>)
    ensures GoodSession([simple] + statement + portal)
    ensures simple.query.kind == Simple && |simple.query.answers| == 3
    ensures |statement| == 3 && FetchesTwo(statement[2], 1, Completed(OK))
    ensures |portal| == 2 && FetchesTwo(portal[1], 1, Suspended)
  {
    simple := SampleSimple();
    statement := SampleStatement();
    portal := SamplePortal();
    GoodSessions([simple], statement);
    GoodSessions([simple] + statement, portal);
  }
}
