/** AddEntry over arbitrary calls, empty arguments included: what always holds, and which runs stay consistent. */
module BaggageRuns {
  import opened Wrappers
  import opened UrlCodec
  import opened TextList
  import opened BaggageFormat
  import opened BaggageValue

  // ----- Texts that can be run together -----

  /** The key, up to the first '=', decodes. */
  predicate Keyed(m: Text) {
    !Free(m, EQUALS) && UrlDecode(m[..Find(m, EQUALS, 0)]).Some?
  }

  predicate AllKeyed(ms: seq<Text>) {
    forall i :: 0 <= i < |ms| ==> Keyed(ms[i])
  }

  /** Every member has a key that decodes. */
  predicate Pasteable(t: Text) {
    t == [] || AllKeyed(Split(t, COMMA))
  }

  lemma KeyedLonger(m: Text, more: Text)
    requires Keyed(m)
    ensures Keyed(m + more)
  {
    var eq := Find(m, EQUALS, 0);
    FindIs(m + more, EQUALS, 0, eq);
    assert (m + more)[eq] == EQUALS && (m + more)[..eq] == m[..eq];
  }

  lemma KeyedCons(m: Text, ms: seq<Text>)
    ensures AllKeyed([m] + ms) <==> Keyed(m) && AllKeyed(ms)
  {
    var all := [m] + ms;
    assert forall i :: 0 <= i < |ms| ==> ms[i] == all[i + 1];
    assert all[0] == m;
  }

  /** A text as its first member and the rest. */
  lemma FirstMember(s: Text) returns (head: Text, rest: Text)
    requires !Free(s, COMMA)
    ensures Free(head, COMMA) && s == head + [COMMA] + rest && Split(s, COMMA) == [head] + Split(rest, COMMA)
  {
    var cut := Find(s, COMMA, 0);
    CutAt(s, COMMA, 0, cut);
    assert s[0..] == s;
    head, rest := s[0..cut], s[cut + 1..];
    SplitFirst(head, rest, COMMA);
  }

  lemma PasteToOne(a: Text, b: Text)
    requires Free(a, COMMA) && Keyed(a) && AllKeyed(Split(b, COMMA))
    ensures AllKeyed(Split(a + b, COMMA))
  {
    if Free(b, COMMA) {
      SplitFree(a + b, COMMA);
      KeyedLonger(a, b);
    } else {
      var head, rest := FirstMember(b);
      KeyedCons(head, Split(rest, COMMA));
      Regrouped(a, head + [COMMA], rest);
      Regrouped(a, head, [COMMA]);
      assert a + b == (a + head) + [COMMA] + rest;
      SplitFirst(a + head, rest, COMMA);
      KeyedLonger(a, head);
      KeyedCons(a + head, Split(rest, COMMA));
    }
  }

  lemma {:induction false} PasteKeyed(a: Text, b: Text)
    requires AllKeyed(Split(a, COMMA)) && AllKeyed(Split(b, COMMA))
    ensures AllKeyed(Split(a + b, COMMA))
    decreases |a|
  {
    if Free(a, COMMA) {
      SplitFree(a, COMMA);
      assert Keyed([a][0]);
      PasteToOne(a, b);
    } else {
      var head, rest := FirstMember(a);
      KeyedCons(head, Split(rest, COMMA));
      PasteKeyed(rest, b);
      assert a + b == head + [COMMA] + (rest + b);
      SplitFirst(head, rest + b, COMMA);
      KeyedCons(head, Split(rest + b, COMMA));
    }
  }

  /** Texts run together without a separator, as the result header is. */
  lemma PasteBoth(a: Text, b: Text)
    requires Pasteable(a) && Pasteable(b)
    ensures Pasteable(a + b)
  {
    if a == [] {
      assert a + b == b;
    } else if b == [] {
      assert a + b == a;
    } else {
      PasteKeyed(a, b);
    }
  }

  lemma PasteMember(a: Text, m: Text, separator: bool)
    requires Pasteable(a) && Free(m, COMMA) && Keyed(m)
    ensures var t := a + ((if separator then [COMMA] else []) + m);
            forall i :: 0 <= i < |Split(t, COMMA)| ==> Split(t, COMMA)[i] == [] || Keyed(Split(t, COMMA)[i])
  {
    SplitFree(m, COMMA);
    if separator {
      assert a + ([COMMA] + m) == a + [COMMA] + m;
      SplitAppended(a, m, COMMA);
      if a == [] {
        SplitFree(a, COMMA);
      }
    } else {
      assert [] + m == m;
      PasteBoth(a, m);
      if a + m == [] {
        SplitFree(a + m, COMMA);
      }
    }
  }

  lemma {:induction false} PropertiesParse(ms: seq<Text>)
    ensures CollectAll(ReadProperty, ms).Parsed?
    decreases |ms|
  {
    if ms != [] {
      PropertiesParse(ms[1..]);
      CollectCons(ReadProperty, ms[0], ms[1..]);
      assert [ms[0]] + ms[1..] == ms;
    }
  }

  lemma KeyedReads(m: Text, allowed: set<Text>)
    requires m == [] || Keyed(m)
    ensures !ReadMember(m, allowed).Broken?
  {
    if m != [] {
      var semi := Find(m, SEMICOLON, Find(m, EQUALS, 0));
      if semi < |m| {
        PropertiesParse(Split(m[semi + 1..], SEMICOLON));
      }
    }
  }

  lemma {:induction false} CollectParses(ms: seq<Text>, allowed: set<Text>, room: nat)
    requires forall i :: 0 <= i < |ms| ==> ms[i] == [] || Keyed(ms[i])
    ensures Collect(EntryReader(allowed), ms, room).Parsed?
    decreases |ms|
  {
    if room > 0 && ms != [] {
      KeyedReads(ms[0], allowed);
      CollectParses(ms[1..], allowed, RoomAfter(ReadMember(ms[0], allowed), room));
    }
  }

  lemma PasteableParses(t: Text, allowed: set<Text>)
    requires Pasteable(t)
    ensures ParseHeader(t, allowed, ENTITIES_LIMIT).Parsed?
  {
    if t == [] {
      SplitFree(t, COMMA);
    }
    CollectParses(Split(t, COMMA), allowed, ENTITIES_LIMIT);
  }

  lemma EntryKeyed(e: Entry, key: Text)
    requires Free(e.key, EQUALS) && UrlDecode(e.key) == Some(key)
    ensures Keyed(EntryText(e))
  {
    var t := EntryText(e);
    EntryTextWith(e);
    assert t[|e.key|] == EQUALS && t[..|e.key|] == e.key;
    FindIs(t, EQUALS, 0, |e.key|);
  }

  lemma PrintPasteable(entries: seq<Entry>, allowed: set<Text>)
    requires GoodEntries(entries, allowed)
    ensures Pasteable(Print(entries))
  {
    if entries != [] {
      PrintedEntries(entries, allowed);
      forall i | 0 <= i < |entries|
        ensures Keyed(EntryText(entries[i]))
      {
        EntryKeyed(entries[i], UrlDecode(entries[i].key).value);
      }
    }
  }

  // ----- What every baggage in use satisfies -----

  /** A header called valid stands for the entries, and a result header, left over or not, can be read. */
  ghost predicate Loose(b: Bag) {
    && |b.entries| <= ENTITIES_LIMIT && GoodEntries(b.entries, b.allowed)
    && (b.valid ==> ParseHeader(b.header, b.allowed, ENTITIES_LIMIT) == Parsed(b.entries, true))
    && Pasteable(b.result)
  }

  lemma ConstructedIsLoose(header: Text, allowed: set<Text>)
    requires Construct(header, allowed).Some?
    ensures Loose(Construct(header, allowed).value)
  {
    ConstructedIsConsistent(header, allowed);
    var b := Construct(header, allowed).value;
    PrintPasteable(b.entries, allowed);
  }

  /** It can always be copied; the copy is consistent. */
  lemma LooseCopies(b: Bag)
    requires Loose(b)
    ensures Copy(b).Some? && Consistent(Copy(b).value) && (b.valid ==> Copy(b).value.entries == b.entries)
  {
    if !b.valid {
      PasteableParses(b.result, b.allowed);
    }
    SettledIsGood(ToString(b), b.allowed, []);
  }

  lemma AppendedToValid(b: Bag, c: Call)
    requires Loose(b) && b.valid && c.key in b.allowed && |b.entries| < ENTITIES_LIMIT
    ensures ParseHeader(b.header + Addition(b, c), b.allowed, ENTITIES_LIMIT) == Parsed(b.entries + AddedEntries(c), CleanCall(c))
  {
    EncodedEntryClean(c);
    ParseEncodedCall(c, b.allowed);
    ParseExtended(b.header, b.entries, EntryText(Encode(c)), b.allowed, ENTITIES_LIMIT);
  }

  lemma AppendedToResult(result: Text, separator: bool, c: Call, allowed: set<Text>)
    requires Pasteable(result)
    ensures ParseHeader(result + ((if separator then [COMMA] else []) + EntryText(Encode(c))), allowed, ENTITIES_LIMIT).Parsed?
  {
    var t := EntryText(Encode(c));
    EncodedEntryClean(c);
    EncodedPlain(c.key);
    EntryKeyed(Encode(c), c.key);
    PasteMember(result, t, separator);
    CollectParses(Split(result + ((if separator then [COMMA] else []) + t), COMMA), allowed, ENTITIES_LIMIT);
  }

  lemma AdditionParses(b: Bag, c: Call)
    requires Loose(b) && c.key in b.allowed && |b.entries| < ENTITIES_LIMIT
    ensures ParseHeader(ToString(b) + Addition(b, c), b.allowed, ENTITIES_LIMIT).Parsed?
    ensures b.valid ==> ParseHeader(ToString(b) + Addition(b, c), b.allowed, ENTITIES_LIMIT)
                        == Parsed(b.entries + AddedEntries(c), CleanCall(c))
  {
    if b.valid {
      AppendedToValid(b, c);
    } else {
      AppendedToResult(b.result, |b.entries| != 0, c, b.allowed);
    }
  }

  /**
   AddEntry with any arguments on any baggage in use: it never fails on what is already there, keeps to the limit
   of entries, and appends exactly what the call leaves wherever the header was valid.
   */
  lemma AddLoose(b: Bag, c: Call)
    requires Loose(b)
    ensures !Add(b, c).Threw?
    ensures Add(b, c).Refused? <==> c.key !in b.allowed || |b.entries| >= ENTITIES_LIMIT
                                    || |ToString(b)| + |Addition(b, c)| >= HEADER_LENGTH_LIMIT
    ensures Add(b, c).Done? ==>
              var r := Add(b, c).bag;
              && Loose(r) && r.allowed == b.allowed && |r.header| < HEADER_LENGTH_LIMIT
              && r.result == (if r.valid then b.result else b.result + Print(r.entries)) && |Print(r.entries)| <= |r.header|
              && (b.valid ==> r.entries == b.entries + AddedEntries(c) && (r.valid <==> CleanCall(c)))
  {
    if !Add(b, c).Refused? {
      AdditionParses(b, c);
      var header := ToString(b) + Addition(b, c);
      ParsedHeaderGood(header, b.allowed, ENTITIES_LIMIT);
      var r := Add(b, c).bag;
      PrintPasteable(r.entries, b.allowed);
      PasteBoth(b.result, Print(r.entries));
    }
  }

  /** A baggage AddEntry and the constructors can meet. */
  ghost predicate Usable(b: Bag) {
    Consistent(b) || Loose(b)
  }

  /** What adding a call keeps, and what it makes of a consistent baggage. */
  ghost predicate AddKeeps(b: Bag, c: Call, r: Bag) {
    && (Loose(b) ==> Loose(r))
    && (Consistent(b) ==> r.entries == b.entries + AddedEntries(c) && (Consistent(r) <==> CleanCall(c) || b.result == []))
    && (Consistent(b) && NonEmpty(c) ==> Consistent(r) && r.entries == b.entries + [Encode(c)])
  }

  lemma AddUsable(b: Bag, c: Call)
    requires Usable(b)
    ensures !Add(b, c).Threw? && (Add(b, c).Done? ==> AddKeeps(b, c, Add(b, c).bag))
  {
    if Consistent(b) {
      AddExact(b, c);
      KeptAll(c.properties);
    }
    if Loose(b) {
      AddLoose(b, c);
    }
  }

  // ----- Runs -----

  /** A left-over result header was short enough to be added to; a printed one may be longer than the limit. */
  predicate Bounded(b: Bag) {
    |b.header| <= HEADER_LENGTH_LIMIT && |b.result| <= if b.valid then HEADER_LENGTH_LIMIT else 2 * HEADER_LENGTH_LIMIT
  }

  lemma AddBounded(b: Bag, c: Call)
    requires Loose(b) && Bounded(b) && Add(b, c).Done?
    ensures Loose(Add(b, c).bag) && Bounded(Add(b, c).bag)
  {
    AddLoose(b, c);
  }

  lemma {:induction false} RunBounded(b: Bag, calls: seq<Call>)
    requires Loose(b) && Bounded(b)
    ensures Loose(Run(b, calls)) && Bounded(Run(b, calls))
    decreases |calls|
  {
    if calls != [] {
      if Add(b, calls[0]).Done? {
        AddBounded(b, calls[0]);
      }
      RunBounded(if Add(b, calls[0]).Done? then Add(b, calls[0]).bag else b, calls[1..]);
    }
  }

  /**
   From any header accepted by TryMakeBaggage, after any calls at all: at most 64 entries, all well-formed and
   allowed; a printed header below twice the limit; the next call and a copy never fail on what is there.
   */
  lemma AnyRun(header: Text, allowed: set<Text>, calls: seq<Call>, next: Call)
    requires |header| <= HEADER_LENGTH_LIMIT && Construct(header, allowed).Some?
    ensures var r := Run(Construct(header, allowed).value, calls);
            && |r.entries| <= ENTITIES_LIMIT && GoodEntries(r.entries, r.allowed)
            && |ToString(r)| <= 2 * HEADER_LENGTH_LIMIT
            && !Add(r, next).Threw? && Copy(r).Some? && Consistent(Copy(r).value)
  {
    var b := Construct(header, allowed).value;
    ConstructedIsLoose(header, allowed);
    ConstructedIsConsistent(header, allowed);
    StripShortens(header);
    RunBounded(b, calls);
    AddLoose(Run(b, calls), next);
    LooseCopies(Run(b, calls));
  }

  lemma {:induction false} LettersEncode(n: nat)
    ensures UrlEncode(seq(n, i => 97)) == seq(n, i => 97)
  {
    var s: Text := seq(n, i => 97);
    if n > 0 {
      LettersEncode(n - 1);
      assert s[1..] == seq(n - 1, i => 97);
      assert s == [97] + s[1..];
    }
  }

  /** The length limit is not kept by all runs: two values of 3000 letters and an empty one make a header of 9007 bytes. */
  lemma LimitExceeded(allowed: set<Text>) returns (header: Text, calls: seq<Call>)
    requires [97] in allowed
    ensures |header| <= HEADER_LENGTH_LIMIT && Construct(header, allowed).Some?
    ensures |ToString(Run(Construct(header, allowed).value, calls))| == 9007
  {
    var key: Text, v: Text := [97], seq(3000, i => 97);
    LettersEncode(3000);
    LettersEncode(1);
    assert key == seq(1, i => 97);
    var good, empty := Call(key, v, []), Call(key, [], []);
    var e := Encode(good);
    EntrySize(good);
    StaleResultHeader(key, v, v, allowed);
    PrintOneTwo(e, e);
    header, calls := EntryText(e) + [COMMA] + [EQUALS], [good, empty];
    var b0 := Construct(header, allowed).value;
    var b1 := Add(b0, good).bag;
    assert calls[1..] == [empty] && calls[1..][1..] == [];
    assert Run(b1, [empty]) == Run(Add(b1, empty).bag, []);
    assert Run(b0, calls) == Run(b1, [empty]);
  }

  /** An accepted call keeps the length limit exactly when it is clean or the result header it prints is short enough. */
  lemma LimitKeptIff(b: Bag, c: Call)
    requires Consistent(b) && Add(b, c).Done?
    ensures |ToString(Add(b, c).bag)| <= HEADER_LENGTH_LIMIT
            <==> CleanCall(c) || |b.result| + |Print(b.entries + AddedEntries(c))| <= HEADER_LENGTH_LIMIT
  {
    AddExact(b, c);
  }

  /** No accepted call drops something while there is a result header. */
  predicate NeverStale(b: Bag, calls: seq<Call>)
    decreases |calls|
  {
    calls == [] ||
    if Add(b, calls[0]).Done? then (CleanCall(calls[0]) || b.result == []) && NeverStale(Add(b, calls[0]).bag, calls[1..])
    else NeverStale(b, calls[1..])
  }

  /** The baggage is consistent after each call. */
  ghost predicate AlwaysConsistent(b: Bag, calls: seq<Call>)
    decreases |calls|
  {
    Consistent(b) &&
    (calls == [] || AlwaysConsistent(if Add(b, calls[0]).Done? then Add(b, calls[0]).bag else b, calls[1..]))
  }

  /** What the calls leave, in order. */
  function AddedBy(calls: seq<Call>): seq<Entry> {
    if calls == [] then [] else AddedEntries(calls[0]) + AddedBy(calls[1..])
  }

  lemma AddedByCons(entries: seq<Entry>, c: Call, rest: seq<Call>)
    ensures entries + AddedEntries(c) + AddedBy(rest) == entries + AddedBy([c] + rest)
  {
    assert ([c] + rest)[1..] == rest;
    Regrouped(entries, AddedEntries(c), AddedBy(rest));
  }

  /** Exactly the runs in which no call drops something while there is a result header stay consistent throughout. */
  lemma {:induction false} ConsistentRuns(b: Bag, calls: seq<Call>)
    requires Consistent(b)
    ensures AlwaysConsistent(b, calls) <==> NeverStale(b, calls)
    decreases |calls|
  {
    if calls != [] {
      AddExact(b, calls[0]);
      if Add(b, calls[0]).Done? {
        if Consistent(Add(b, calls[0]).bag) {
          ConsistentRuns(Add(b, calls[0]).bag, calls[1..]);
        }
      } else {
        ConsistentRuns(b, calls[1..]);
      }
    }
  }

  /** And in those the entries are the first ones and then what each accepted call leaves, in order. */
  lemma {:induction false} RunLeaves(b: Bag, calls: seq<Call>)
    requires Consistent(b) && NeverStale(b, calls)
    ensures Consistent(Run(b, calls)) && Run(b, calls).entries == b.entries + AddedBy(Accepted(b, calls))
    decreases |calls|
  {
    if calls == [] {
      assert b.entries + [] == b.entries;
    } else if Add(b, calls[0]).Done? {
      var next := Add(b, calls[0]).bag;
      AddExact(b, calls[0]);
      RunLeaves(next, calls[1..]);
      AddedByCons(b.entries, calls[0], Accepted(next, calls[1..]));
    } else {
      RunLeaves(b, calls[1..]);
    }
  }
}
