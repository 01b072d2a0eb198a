/** How the bytes arrive does not matter: parsing chunk by chunk against parsing the whole stream. */
module PqSplit {
  import opened Wrappers
  import opened PqInput
  import opened PqTheorems

  /** More bytes from the socket; a dropped connection takes none. */
  function Feed(c: Conn, bytes: seq<Byte>): (r: Conn) {
    if c.bad then c else c.(buffer := c.buffer + bytes)
  }

  function Concat(chunks: seq<seq<Byte>>): seq<Byte> {
    if chunks == [] then [] else chunks[0] + Concat(chunks[1..])
  }

  /** One call per chunk, each on what the earlier calls left. */
  function ParseChunks(h: Readers, description: Option<nat>, c: Conn, chunks: seq<seq<Byte>>): Conn
    requires ConnOk(c)
    decreases |chunks|
  {
    if chunks == [] then ParseAll(h, description, true, c)
    else ParseChunks(h, description, ParseAll(h, description, true, Feed(c, chunks[0])), chunks[1..])
  }

  /** Given only the first k bytes from the body on, the reader waits or does what it does given all of them. */
  ghost predicate Steady(h: Readers, r: Reader, body: seq<Byte>, length: nat, core: Core) {
    forall k :: length <= k <= |body| ==>
      h.body(r, body[..k], length, core).Eof? || h.body(r, body[..k], length, core) == h.body(r, body, length, core)
  }

  /** The readers a message of this type can be given to. */
  predicate Uses(id: char, r: Reader) {
    match r
    case Notify => id == 'A'
    case Notice => id == 'N' || id == 'E'
    case ErrorMessage => id == 'E'
    case ParameterStatus => id == 'S'
    case CommandTag => id == 'C'
    case ReadyForQuery => id == 'Z'
    case BackendKey => id == 'K'
    case RowDescription => id == 'T'
    case ParamDescription => id == 't'
    case DataRow => id == 'D'
    case CopyStart(copy) => id == copy && id in {'G', 'H', 'W'}
  }

  /** The reader Handle gives the message to and the connection it gives it, if any. */
  function Reads(description: Option<nat>, id: char, core: Core): (p: Option<(Reader, Core)>)
    ensures p.Some? ==> Uses(id, p.value.0)
  {
    if id == 'A' then Some((Notify, core))
    else if id == 'N' then Some((Notice, core))
    else if core.asyncStatus == Busy then ReadsBusy(description, id, core)
    else if core.asyncStatus == Idle && id == 'E' then Some((Notice, core))
    else if core.asyncStatus == Idle && id == 'S' then Some((ParameterStatus, core))
    else None
  }

  function ReadsBusy(description: Option<nat>, id: char, core: Core): (p: Option<(Reader, Core)>)
    ensures p.Some? ==> Uses(id, p.value.0)
  {
    match id
    case 'E' => Some((ErrorMessage, core))
    case 'S' => Some((ParameterStatus, core))
    case 'C' => Some((CommandTag, core))
    case 'Z' => Some((Reader.ReadyForQuery, core))
    case 'K' => Some((BackendKey, core))
    case 'T' =>
      if !ResultIs(core, FatalError) && (core.result.None? || HeadIs(core, Describe)) then Some((RowDescription, core)) else None
    case 't' => Some((ParamDescription, core))
    case 'D' =>
      if ResultIs(core, TuplesOk) then Some((DataRow, core))
      else if core.result.None? && description.Some?
      then Some((DataRow, core.(result := Some(Result(TuplesOk, description.value, [], [])))))
      else None
    case 'G' | 'H' | 'W' => Some((CopyStart(id), core))
    case _ => None
  }

  /** The reader the message is given to, if any, is steady on it. */
  ghost predicate SteadyMessage(h: Readers, description: Option<nat>, id: char, body: seq<Byte>, length: nat, core: Core) {
    var p := Reads(description, id, core);
    p.Some? ==> Steady(h, p.value.0, body, length, p.value.1)
  }

  /** On the next message, if it is complete. */
  ghost predicate SteadyNow(h: Readers, description: Option<nat>, c: Conn)
    requires ConnOk(c)
  {
    var rest := c.buffer[c.inStart..];
    var f := FrameAt(rest);
    f.Complete? ==> SteadyMessage(h, description, f.id, rest[5..], f.length, c.core)
  }

  /** On every message one call reaches. */
  ghost predicate SteadyRun(h: Readers, description: Option<nat>, c: Conn)
    requires ConnOk(c)
    decreases |c.buffer| - c.inStart
  {
    SteadyNow(h, description, c)
    && var i := Iterate(h, description, true, c);
       i.Continue? ==> SteadyRun(h, description, i.conn)
  }

  // ----- One message -----

  lemma FrameKept(rest: seq<Byte>, more: seq<Byte>)
    requires FrameAt(rest).Complete? || FrameAt(rest).Broken?
    ensures FrameAt(rest + more) == FrameAt(rest)
  {
    assert (rest + more)[1..5] == rest[1..5];
  }

  /** Handle sees the bytes only through that reader. */
  lemma HandleSame(h: Readers, description: Option<nat>, id: char, body: seq<Byte>, longer: seq<Byte>, length: nat, core: Core)
    requires var p := Reads(description, id, core);
             p.Some? ==> h.body(p.value.0, longer, length, p.value.1) == h.body(p.value.0, body, length, p.value.1)
    ensures Handle(h, description, id, longer, length, core) == Handle(h, description, id, body, length, core)
  {}

  /** A message handled on a prefix is handled the same on the whole; a held one resumes as if just met. */
  lemma HandlePrefix(h: Readers, description: Option<nat>, id: char, part: seq<Byte>, body: seq<Byte>, length: nat, core: Core)
    requires length <= |part| <= |body| && part == body[..|part|] && SteadyMessage(h, description, id, body, length, core)
    ensures var m := Handle(h, description, id, part, length, core);
            if m.Moved? then Handle(h, description, id, body, length, core) == m
            else Handle(h, description, id, body, length, m.core) == Handle(h, description, id, body, length, core)
                 && (Reads(description, id, m.core) == Reads(description, id, core) || Reads(description, id, m.core).None?)
  {
    var p := Reads(description, id, core);
    if p.Some? {
      assert body[..|part|] == part;
    }
  }

  lemma RestFed(c: Conn, more: seq<Byte>)
    requires ConnOk(c)
    ensures var (rest, whole) := (c.buffer[c.inStart..], (c.buffer + more)[c.inStart..]);
            whole == rest + more && (|rest| >= 5 ==> rest[5..] == whole[5..][..|rest| - 5])
  {}

  /** A round that goes on does the same when more bytes are behind the message; one that stops resumes there. */
  lemma IterateFed(h: Readers, description: Option<nat>, c: Conn, more: seq<Byte>)
    requires ConnOk(c) && !c.bad && SteadyNow(h, description, Feed(c, more))
    ensures var i := Iterate(h, description, true, c);
            var fed := Iterate(h, description, true, Feed(c, more));
            if i.Continue? then fed == Continue(Feed(i.conn, more))
            else if i.conn.bad then fed == i
            else ConnOk(Feed(i.conn, more)) && fed == Iterate(h, description, true, Feed(i.conn, more))
                 && SteadyNow(h, description, Feed(i.conn, more))
  {
    var rest, whole := c.buffer[c.inStart..], (c.buffer + more)[c.inStart..];
    RestFed(c, more);
    var f := FrameAt(rest);
    if f.Broken? || f.Complete? {
      FrameKept(rest, more);
    }
    if f.Complete? {
      HandlePrefix(h, description, f.id, rest[5..], whole[5..], f.length, c.core);
      var m := Handle(h, description, f.id, rest[5..], f.length, c.core);
      assert Iterate(h, description, true, c) == Settle(h, c, f.length, m);
      assert Iterate(h, description, true, Feed(c, more))
             == Settle(h, Feed(c, more), f.length, Handle(h, description, f.id, whole[5..], f.length, c.core));
    }
  }

  // ----- Whole streams -----

  /** Parsing what has arrived, then the rest, equals parsing all of it at once. */
  lemma {:induction false} SplitOnce(h: Readers, description: Option<nat>, c: Conn, more: seq<Byte>)
    requires ConnOk(c) && (!c.bad ==> SteadyRun(h, description, Feed(c, more)))
    ensures var r := ParseAll(h, description, true, c);
            && ParseAll(h, description, true, Feed(r, more)) == ParseAll(h, description, true, Feed(c, more))
            && (!r.bad ==> SteadyRun(h, description, Feed(r, more)))
    decreases |c.buffer| - c.inStart
  {
    if !c.bad {
      var i := Iterate(h, description, true, c);
      IterateFed(h, description, c, more);
      if i.Continue? {
        OneRound(h, description, true, c);
        SplitOnce(h, description, i.conn, more);
      }
    }
  }

  lemma FeedNothing(c: Conn)
    ensures Feed(c, []) == c
  {
    assert c.buffer + [] == c.buffer;
  }

  lemma FeedTwice(c: Conn, a: seq<Byte>, b: seq<Byte>)
    ensures Feed(Feed(c, a), b) == Feed(c, a + b)
  {
    assert c.buffer + a + b == c.buffer + (a + b);
  }

  /**
   Split invariance: however a stream is cut into chunks, one call per chunk ends with the status, result,
   consumed prefix and loss of the connection that one call on the whole stream ends with.
   */
  lemma {:induction false} SplitInvariance(h: Readers, description: Option<nat>, c: Conn, chunks: seq<seq<Byte>>)
    requires ConnOk(c) && (!c.bad ==> SteadyRun(h, description, Feed(c, Concat(chunks))))
    ensures ParseChunks(h, description, c, chunks) == ParseAll(h, description, true, Feed(c, Concat(chunks)))
    decreases |chunks|
  {
    if chunks == [] {
      FeedNothing(c);
    } else {
      var fed := Feed(c, chunks[0]);
      var rest := Concat(chunks[1..]);
      FeedTwice(c, chunks[0], rest);
      SplitOnce(h, description, fed, rest);
      SplitInvariance(h, description, ParseAll(h, description, true, fed), chunks[1..]);
    }
  }
}
