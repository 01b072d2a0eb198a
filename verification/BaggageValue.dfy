/** A Baggage as a value: what construction, copying and AddEntry make of it. */
module BaggageValue {
  import opened Wrappers
  import opened UrlCodec
  import opened TextList
  import opened BaggageFormat

  const ENTITIES_LIMIT: nat := 64
  const HEADER_LENGTH_LIMIT: nat := 8192

  datatype Bag = Bag(header: Text, allowed: set<Text>, entries: seq<Entry>, result: Text, valid: bool)

  function ToString(b: Bag): Text {
    if b.valid then b.header else b.result
  }

  /** FillEntries on a header, then CreateResultHeader behind what result holds if something was dropped. */
  function Settle(header: Text, allowed: set<Text>, result: Text): Option<Bag> {
    match ParseHeader(header, allowed, ENTITIES_LIMIT)
    case Threw => None
    case Parsed(entries, valid) =>
      Some(Bag(header, allowed, entries, if valid then result else result + Print(entries), valid))
  }

  function Strip(s: Text): Text {
    if s == [] then [] else (if IsSpace(s[0]) then [] else [s[0]]) + Strip(s[1..])
  }

  /** None where a broken escape in a key makes the constructor throw. */
  function Construct(header: Text, allowed: set<Text>): Option<Bag> {
    Settle(Strip(header), allowed, [])
  }

  function Copy(b: Bag): Option<Bag> {
    Settle(ToString(b), b.allowed, [])
  }

  /** What is sent on is valid and stands for exactly the entries. */
  ghost predicate Consistent(b: Bag) {
    && |b.entries| <= ENTITIES_LIMIT && GoodEntries(b.entries, b.allowed)
    && if b.valid then ParseHeader(b.header, b.allowed, ENTITIES_LIMIT) == Parsed(b.entries, true)
       else b.result == Print(b.entries)
  }

  // ----- Construction and copying -----

  lemma SettledIsGood(header: Text, allowed: set<Text>, result: Text)
    requires Settle(header, allowed, result).Some?
    ensures var b := Settle(header, allowed, result).value;
            && (Consistent(b) <==> b.valid || result == [])
            && (b.valid || result == [] ==> |ToString(b)| <= |header|)
  {
    ParsedHeaderGood(header, allowed, ENTITIES_LIMIT);
    var b := Settle(header, allowed, result).value;
    if !b.valid && result != [] {
      assert |b.result| > |Print(b.entries)|;
    }
    if !b.valid && result == [] {
      assert b.result == Print(b.entries);
    }
  }

  lemma {:induction false} StripShortens(s: Text)
    ensures |Strip(s)| <= |s|
  {
    if s != [] {
      StripShortens(s[1..]);
    }
  }

  lemma {:induction false} StripNothing(s: Text)
    requires NoSpace(s)
    ensures Strip(s) == s
  {
    if s != [] {
      StripNothing(s[1..]);
    }
  }

  lemma {:induction false} StripSpaces(s: Text)
    requires forall i :: 0 <= i < |s| ==> IsSpace(s[i])
    ensures Strip(s) == []
  {
    if s != [] {
      StripSpaces(s[1..]);
    }
  }

  lemma {:induction false} StripBoth(s: Text, t: Text)
    ensures Strip(s + t) == Strip(s) + Strip(t)
  {
    if s == [] {
      assert s + t == t && [] + Strip(t) == Strip(t);
    } else {
      assert (s + t)[1..] == s[1..] + t && (s + t)[0] == s[0];
      StripBoth(s[1..], t);
      Regrouped(if IsSpace(s[0]) then [] else [s[0]], Strip(s[1..]), Strip(t));
    }
  }

  lemma Regrouped<E>(a: seq<E>, b: seq<E>, c: seq<E>)
    ensures a + (b + c) == a + b + c
  {}

  lemma {:induction false} StripsAllSpaces(s: Text)
    ensures NoSpace(Strip(s))
  {
    if s != [] {
      StripsAllSpaces(s[1..]);
    }
  }

  /** Space, tab, line feed, vertical tab, form feed and carriage return. */
  predicate Blank(c: Octet) {
    c in {32, 9, 10, 11, 12, 13}
  }

  /** Blanks anywhere in the header make no difference, and without them it is read as it is. */
  lemma BlanksDoNotMatter(header: Text, blanks: Text, i: nat, allowed: set<Text>)
    requires i <= |header| && forall k :: 0 <= k < |blanks| ==> Blank(blanks[k])
    ensures Construct(header[..i] + blanks + header[i..], allowed) == Construct(header, allowed)
    ensures (forall k :: 0 <= k < |header| ==> !Blank(header[k])) ==> Construct(header, allowed) == Settle(header, allowed, [])
  {
    var front, back := header[..i], header[i..];
    StripBoth(front + blanks, back);
    StripBoth(front, blanks);
    StripSpaces(blanks);
    StripBoth(front, back);
    assert front + back == header && Strip(front) + [] == Strip(front);
    if forall k :: 0 <= k < |header| ==> !Blank(header[k]) {
      StripNothing(header);
    }
  }

  /** A constructed baggage is consistent and prints no longer than the header it was given. */
  lemma ConstructedIsConsistent(header: Text, allowed: set<Text>)
    requires Construct(header, allowed).Some?
    ensures var b := Construct(header, allowed).value; Consistent(b) && |ToString(b)| <= |header|
  {
    StripShortens(header);
    SettledIsGood(Strip(header), allowed, []);
  }

  /** Reading the printed header gives the entries back, as valid. */
  lemma PrintedReparses(b: Bag)
    requires Consistent(b)
    ensures ParseHeader(ToString(b), b.allowed, ENTITIES_LIMIT) == Parsed(b.entries, true)
  {
    if !b.valid {
      ReparsePrinted(b.entries, b.allowed, ENTITIES_LIMIT);
    }
  }

  /** Copying (and moving) never throws and preserves entries, allowed keys and the printed header. */
  lemma CopyPreserves(b: Bag)
    requires Consistent(b)
    ensures Copy(b).Some?
    ensures var c := Copy(b).value;
            c.entries == b.entries && c.allowed == b.allowed && ToString(c) == ToString(b) && c.valid && Consistent(c)
  {
    PrintedReparses(b);
  }

  // ----- AddEntry -----

  /** The arguments of AddEntry, not encoded. */
  datatype Call = Call(key: Text, value: Text, properties: seq<Property>)

  function EncodeProperty(p: Property): Property {
    Property(UrlEncode(p.key), if p.value.None? then None else Some(UrlEncode(p.value.value)))
  }

  function EncodeProperties(ps: seq<Property>): (r: seq<Property>)
    ensures |r| == |ps| && forall i :: 0 <= i < |r| ==> r[i] == EncodeProperty(ps[i])
  {
    seq(|ps|, i requires 0 <= i < |ps| => EncodeProperty(ps[i]))
  }

  function Encode(c: Call): Entry {
    Entry(UrlEncode(c.key), UrlEncode(c.value), EncodeProperties(c.properties))
  }

  datatype Refusal = NotAllowed | TooManyEntries | TooLong

  datatype Added = Refused(why: Refusal) | Threw | Done(bag: Bag)

  function Addition(b: Bag, c: Call): Text {
    (if |b.entries| == 0 then [] else [COMMA]) + EntryText(Encode(c))
  }

  function Add(b: Bag, c: Call): Added {
    if c.key !in b.allowed then Refused(NotAllowed)
    else if |b.entries| >= ENTITIES_LIMIT then Refused(TooManyEntries)
    else if |ToString(b)| + |Addition(b, c)| >= HEADER_LENGTH_LIMIT then Refused(TooLong)
    else
      var settled := Settle(ToString(b) + Addition(b, c), b.allowed, b.result);
      if settled.None? then Added.Threw else Done(settled.value)
  }

  predicate KeptProperty(p: Property) {
    p.key != [] && (p.value.Some? ==> p.value.value != [])
  }

  predicate CleanProperty(p: Property) {
    p.value.Some? ==> p.key != [] && p.value.value != []
  }

  function KeptProperties(ps: seq<Property>): (r: seq<Property>)
    ensures |r| <= |ps|
  {
    if ps == [] then [] else (if KeptProperty(ps[0]) then [ps[0]] else []) + KeptProperties(ps[1..])
  }

  predicate CleanProperties(ps: seq<Property>) {
    ps == [] || (CleanProperty(ps[0]) && CleanProperties(ps[1..]))
  }

  /** The entry a call leaves in the baggage: none without key or value, empty properties dropped. */
  function AddedEntries(c: Call): seq<Entry> {
    if c.key == [] || c.value == [] then [] else [Encode(c.(properties := KeptProperties(c.properties)))]
  }

  predicate CleanCall(c: Call) {
    c.key != [] && c.value != [] && CleanProperties(c.properties)
  }

  lemma KeptIsPlain(c: Octet)
    ensures Kept(c) || c == PERCENT ==> !IsSpace(c) && c != COMMA && c != SEMICOLON && c != EQUALS
  {}

  lemma EncodedPlain(s: Text)
    ensures Plain(UrlEncode(s)) && (UrlEncode(s) == [] <==> s == []) && UrlDecode(UrlEncode(s)) == Some(s)
  {
    EncodedIsPlain(s);
    DecodeUndoesEncode(s);
    var t := UrlEncode(s);
    forall i | 0 <= i < |t|
      ensures !IsSpace(t[i]) && t[i] != COMMA && t[i] != SEMICOLON && t[i] != EQUALS
    {
      KeptIsPlain(t[i]);
    }
  }

  lemma PlainProperty(p: Property)
    requires Plain(p.key) && (p.value.Some? ==> Plain(p.value.value))
    ensures var t := PropertyText(p);
            && Avoids(t, Reserved) && Free(t, SEMICOLON)
            && ReadProperty(t) == Read(if KeptProperty(p) then Some(p) else None, CleanProperty(p))
  {
    var t := PropertyText(p);
    if p.value.Some? {
      assert t[..|p.key|] == p.key && t[|p.key| + 1..] == p.value.value;
    }
    FindIs(t, EQUALS, 0, |p.key|);
  }

  lemma EncodedProperty(p: Property)
    ensures var t := PropertyText(EncodeProperty(p));
            && Avoids(t, Reserved) && Free(t, SEMICOLON)
            && ReadProperty(t) == Read(if KeptProperty(p) then Some(EncodeProperty(p)) else None, CleanProperty(p))
  {
    EncodedPlain(p.key);
    if p.value.Some? {
      EncodedPlain(p.value.value);
    }
    PlainProperty(EncodeProperty(p));
  }

  lemma EncodePropertiesCons(p: Property, ps: seq<Property>)
    ensures EncodeProperties([p] + ps) == [EncodeProperty(p)] + EncodeProperties(ps)
  {}

  lemma {:induction false} CollectEncoded(ps: seq<Property>)
    ensures CollectAll(ReadProperty, Texts(PropertyText, EncodeProperties(ps)))
            == Parsed(EncodeProperties(KeptProperties(ps)), CleanProperties(ps))
    decreases |ps|
  {
    if ps == [] {
      assert EncodeProperties(KeptProperties(ps)) == [];
    } else {
      var p, rest := ps[0], ps[1..];
      assert ps == [p] + rest;
      CollectEncoded(rest);
      EncodedProperty(p);
      EncodePropertiesCons(p, rest);
      TextsCons(PropertyText, EncodeProperty(p), EncodeProperties(rest));
      CollectCons(ReadProperty, PropertyText(EncodeProperty(p)), Texts(PropertyText, EncodeProperties(rest)));
      KeptCons(p, rest);
    }
  }

  lemma KeptCons(p: Property, rest: seq<Property>)
    ensures var kept := EncodeProperties(KeptProperties(rest));
            EncodeProperties(KeptProperties([p] + rest)) == if KeptProperty(p) then [EncodeProperty(p)] + kept else [] + kept
    ensures CleanProperties([p] + rest) <==> CleanProperty(p) && CleanProperties(rest)
  {
    assert ([p] + rest)[1..] == rest;
    var kept := KeptProperties(rest);
    if KeptProperty(p) {
      EncodePropertiesCons(p, kept);
    } else {
      assert [] + kept == kept && [] + EncodeProperties(kept) == EncodeProperties(kept);
    }
  }

  lemma ParseEncodedProperties(ps: seq<Property>)
    requires ps != []
    ensures var t := Join(Texts(PropertyText, EncodeProperties(ps)), SEMICOLON);
            Avoids(t, Reserved) && ParseProperties(t) == Parsed(EncodeProperties(KeptProperties(ps)), CleanProperties(ps))
  {
    var texts := Texts(PropertyText, EncodeProperties(ps));
    forall i | 0 <= i < |ps|
      ensures Avoids(texts[i], Reserved) && Free(texts[i], SEMICOLON)
    {
      EncodedProperty(ps[i]);
    }
    JoinAvoids(texts, SEMICOLON, Reserved);
    SplitJoin(texts, SEMICOLON);
    CollectEncoded(ps);
  }

  lemma EncodedEntryClean(c: Call)
    ensures var t := EntryText(Encode(c)); t != [] && NoSpace(t) && Free(t, COMMA)
  {
    EncodedPlain(c.key);
    EncodedPlain(c.value);
    if c.properties != [] {
      ParseEncodedProperties(c.properties);
    }
    EntryAvoids(Encode(c));
  }

  /** Reading back a value and encoded properties. */
  lemma ParseEncodedValue(key: Text, value: Text, ps: seq<Property>)
    requires Plain(value)
    ensures var t := EntryText(Entry(key, value, EncodeProperties(ps)));
            && t[|key|] == EQUALS
            && ParseValue(t, |key|) == if key == [] || value == [] then Read(None, false)
                                       else Read(Some(Entry(key, value, EncodeProperties(KeptProperties(ps)))), CleanProperties(ps))
  {
    EntryTextWith(Entry(key, value, EncodeProperties(ps)));
    if ps == [] {
      ReadValue(key, value);
      assert EncodeProperties(KeptProperties(ps)) == [] && EncodeProperties(ps) == [];
    } else {
      ParseEncodedProperties(ps);
      ReadValueAndMore(key, value, Join(Texts(PropertyText, EncodeProperties(ps)), SEMICOLON));
    }
  }

  lemma ParseEncodedCall(c: Call, allowed: set<Text>)
    requires c.key in allowed
    ensures Items(ReadMember(EntryText(Encode(c)), allowed)) == Parsed(AddedEntries(c), CleanCall(c))
  {
    var t, key := EntryText(Encode(c)), UrlEncode(c.key);
    EncodedEntryClean(c);
    EncodedPlain(c.key);
    EncodedPlain(c.value);
    ParseEncodedValue(key, UrlEncode(c.value), c.properties);
    assert t[..|key|] == key;
    ReadFromValue(t, |key|, allowed);
  }

  lemma ParseAddition(b: Bag, c: Call)
    requires Consistent(b) && c.key in b.allowed && |b.entries| < ENTITIES_LIMIT
    ensures ParseHeader(ToString(b) + Addition(b, c), b.allowed, ENTITIES_LIMIT)
            == Parsed(b.entries + AddedEntries(c), CleanCall(c))
  {
    PrintedReparses(b);
    EncodedEntryClean(c);
    ParseEncodedCall(c, b.allowed);
    ParseExtended(ToString(b), b.entries, EntryText(Encode(c)), b.allowed, ENTITIES_LIMIT);
  }

  /**
   AddEntry on a consistent baggage, for all arguments: it never throws a decoding error, keeps the earlier
   entries, adds what the call leaves, is valid exactly for clean calls, and stays consistent exactly when the
   call is clean or no result header was left over from before.
   */
  lemma AddExact(b: Bag, c: Call)
    requires Consistent(b)
    ensures !Add(b, c).Threw?
    ensures Add(b, c).Refused? <==> c.key !in b.allowed || |b.entries| >= ENTITIES_LIMIT
                                    || |ToString(b)| + |Addition(b, c)| >= HEADER_LENGTH_LIMIT
    ensures Add(b, c).Done? ==>
              var r := Add(b, c).bag;
              && r.entries == b.entries + AddedEntries(c) && r.allowed == b.allowed
              && r.result == (if r.valid then b.result else b.result + Print(r.entries))
              && (r.valid <==> CleanCall(c))
              && (Consistent(r) <==> CleanCall(c) || b.result == [])
              && (Consistent(r) ==> |ToString(r)| < HEADER_LENGTH_LIMIT)
  {
    if !Add(b, c).Refused? {
      ParseAddition(b, c);
      SettledIsGood(ToString(b) + Addition(b, c), b.allowed, b.result);
    }
  }

  // ----- What an entry stands for -----

  predicate DecodesProperty(p: Property, q: Property) {
    && UrlDecode(p.key) == Some(q.key)
    && (p.value.Some? <==> q.value.Some?)
    && (p.value.Some? ==> UrlDecode(p.value.value) == q.value)
  }

  predicate Decodes(e: Entry, c: Call) {
    && UrlDecode(e.key) == Some(c.key) && UrlDecode(e.value) == Some(c.value)
    && |e.properties| == |c.properties|
    && forall i :: 0 <= i < |c.properties| ==> DecodesProperty(e.properties[i], c.properties[i])
  }

  /** Key, value, property keys and the property values present are not empty. */
  predicate NonEmpty(c: Call) {
    c.key != [] && c.value != [] && forall i :: 0 <= i < |c.properties| ==> KeptProperty(c.properties[i])
  }

  lemma EncodeDecodes(c: Call)
    ensures Decodes(Encode(c), c)
  {
    DecodeUndoesEncode(c.key);
    DecodeUndoesEncode(c.value);
    forall i | 0 <= i < |c.properties|
      ensures DecodesProperty(EncodeProperty(c.properties[i]), c.properties[i])
    {
      DecodeUndoesEncode(c.properties[i].key);
      if c.properties[i].value.Some? {
        DecodeUndoesEncode(c.properties[i].value.value);
      }
    }
  }

  lemma {:induction false} KeptAll(ps: seq<Property>)
    ensures |KeptProperties(ps)| == |ps| <==> forall i :: 0 <= i < |ps| ==> KeptProperty(ps[i])
    ensures |KeptProperties(ps)| == |ps| ==> KeptProperties(ps) == ps && CleanProperties(ps)
  {
    if ps != [] {
      KeptAll(ps[1..]);
      assert forall i :: 0 <= i < |ps| - 1 ==> ps[1..][i] == ps[i + 1];
      assert forall i :: 1 <= i < |ps| ==> ps[i] == ps[1..][i - 1];
    }
  }

  /** A successful call appends one entry decoding to its arguments exactly when none of them is empty. */
  lemma AddAppendsIff(b: Bag, c: Call)
    requires Consistent(b) && Add(b, c).Done?
    ensures var r := Add(b, c).bag;
            (|r.entries| == |b.entries| + 1 && r.entries[..|b.entries|] == b.entries && Decodes(r.entries[|b.entries|], c))
            <==> NonEmpty(c)
  {
    AddExact(b, c);
    KeptAll(c.properties);
    EncodeDecodes(c);
    assert NonEmpty(c) ==> AddedEntries(c) == [Encode(c)];
  }

  // ----- Runs -----

  /** The baggage after each call in turn; a refused call changes nothing. */
  function Run(b: Bag, calls: seq<Call>): Bag
    decreases |calls|
  {
    if calls == [] then b
    else Run(if Add(b, calls[0]).Done? then Add(b, calls[0]).bag else b, calls[1..])
  }

  function Accepted(b: Bag, calls: seq<Call>): seq<Call>
    decreases |calls|
  {
    if calls == [] then []
    else if Add(b, calls[0]).Done? then [calls[0]] + Accepted(Add(b, calls[0]).bag, calls[1..])
    else Accepted(b, calls[1..])
  }

  function Encodings(calls: seq<Call>): (r: seq<Entry>)
    ensures |r| == |calls| && forall i :: 0 <= i < |r| ==> r[i] == Encode(calls[i])
  {
    seq(|calls|, i requires 0 <= i < |calls| => Encode(calls[i]))
  }

  lemma AddNonEmpty(b: Bag, c: Call)
    requires Consistent(b) && NonEmpty(c) && Add(b, c).Done?
    ensures var r := Add(b, c).bag;
            r.entries == b.entries + [Encode(c)] && Consistent(r) && |ToString(r)| <= HEADER_LENGTH_LIMIT
  {
    AddExact(b, c);
    KeptAll(c.properties);
  }

  lemma EncodingsCons(entries: seq<Entry>, c: Call, rest: seq<Call>)
    ensures entries + [Encode(c)] + Encodings(rest) == entries + Encodings([c] + rest) && entries + Encodings([]) == entries
  {}

  /** Room for one more entry or full, but always within the limits and true to its entries. */
  ghost predicate Sound(b: Bag) {
    Consistent(b) && |ToString(b)| <= HEADER_LENGTH_LIMIT
  }

  lemma {:induction false} RunAppends(b: Bag, calls: seq<Call>)
    requires Sound(b) && forall i :: 0 <= i < |calls| ==> NonEmpty(calls[i])
    ensures Sound(Run(b, calls)) && Run(b, calls).entries == b.entries + Encodings(Accepted(b, calls))
    decreases |calls|
  {
    if calls == [] {
      EncodingsCons(b.entries, Call([], [], []), []);
    } else {
      var c, next := calls[0], if Add(b, calls[0]).Done? then Add(b, calls[0]).bag else b;
      if Add(b, c).Done? {
        AddNonEmpty(b, c);
        EncodingsCons(b.entries, c, Accepted(next, calls[1..]));
      }
      RunAppends(next, calls[1..]);
    }
  }

  /**
   From any header accepted by TryMakeBaggage, after any calls without empty arguments: the entries are those
   parsed followed by one per accepted call, decoding to it; at most 64, printed in at most 8192 bytes, and a
   copy has the same entries and header.
   */
  lemma WholeRun(header: Text, allowed: set<Text>, calls: seq<Call>)
    requires |header| <= HEADER_LENGTH_LIMIT && Construct(header, allowed).Some?
    requires forall i :: 0 <= i < |calls| ==> NonEmpty(calls[i])
    ensures var b := Construct(header, allowed).value;
            var r, accepted := Run(b, calls), Accepted(b, calls);
            && |r.entries| == |b.entries| + |accepted| <= ENTITIES_LIMIT
            && r.entries[..|b.entries|] == b.entries
            && (forall i :: 0 <= i < |accepted| ==> Decodes(r.entries[|b.entries| + i], accepted[i]))
            && |ToString(r)| <= HEADER_LENGTH_LIMIT
            && Copy(r).Some? && Copy(r).value.entries == r.entries && ToString(Copy(r).value) == ToString(r)
  {
    var b := Construct(header, allowed).value;
    ConstructedIsConsistent(header, allowed);
    RunAppends(b, calls);
    CopyPreserves(Run(b, calls));
    var accepted := Accepted(b, calls);
    forall i | 0 <= i < |accepted|
      ensures Decodes(Encode(accepted[i]), accepted[i])
    {
      EncodeDecodes(accepted[i]);
    }
  }

  // ----- A result header that is never cleared -----

  /** Entries of a call without properties, printed alone and after another. */
  lemma PrintOneTwo(e1: Entry, e2: Entry)
    ensures Print([e1]) == EntryText(e1) && Print([e1, e2]) == EntryText(e1) + [COMMA] + EntryText(e2)
  {
    JoinSnoc([], EntryText(e1), COMMA);
    JoinSnoc([EntryText(e1)], EntryText(e2), COMMA);
    assert Texts(EntryText, [e1]) == [] + [EntryText(e1)];
    assert Texts(EntryText, [e1, e2]) == [EntryText(e1)] + [EntryText(e2)];
  }

  lemma GoodCall(key: Text, value: Text, allowed: set<Text>)
    requires key != [] && value != [] && key in allowed
    ensures GoodEntry(Encode(Call(key, value, [])), allowed)
  {
    EncodedPlain(key);
    EncodedPlain(value);
  }

  lemma ValueWithEquals(key: Text, value: Text)
    requires Free(value, SEMICOLON) && !Free(value, EQUALS)
    ensures ParseValue(key + [EQUALS] + value, |key|) == Read(None, false)
  {
    var t := key + [EQUALS] + value;
    FindIs(t, SEMICOLON, |key|, |t|);
    assert t[|key| + 1..|t|] == value;
  }

  lemma TwiceIsRejected(e: Entry, allowed: set<Text>)
    requires GoodEntry(e, allowed) && Plain(e.key) && e.properties == []
    ensures var t := EntryText(e); Free(t + t, COMMA) && ReadMember(t + t, allowed) == Read(None, false)
  {
    var t, value := EntryText(e), e.value + e.key + [EQUALS] + e.value;
    PrintedEntryClean(e, allowed);
    assert t + t == e.key + [EQUALS] + value;
    assert value[|e.value| + |e.key|] == EQUALS;
    ValueWithEquals(e.key, value);
    assert (t + t)[..|e.key|] == e.key;
    ReadFromValue(t + t, |e.key|, allowed);
  }

  /** A header with one good member and one bad one. */
  lemma StartWithBadMember(e: Entry, allowed: set<Text>)
    requires GoodEntry(e, allowed)
    ensures Construct(EntryText(e) + [COMMA] + [EQUALS], allowed)
            == Some(Bag(EntryText(e) + [COMMA] + [EQUALS], allowed, [e], EntryText(e), false))
  {
    var t := EntryText(e);
    var bad: Text := [EQUALS];
    PrintedEntryClean(e, allowed);
    StripNothing(t + [COMMA] + bad);
    ReparseEntry(e, allowed);
    FindIs(bad, EQUALS, 0, 0);
    assert ReadMember(bad, allowed) == Read(None, false);
    CollectTwo(EntryReader(allowed), t, bad, COMMA, ENTITIES_LIMIT);
    PrintOneTwo(e, e);
    assert [] + Print([e]) == t && [e] + [] == [e];
  }

  lemma CopyOfStale(b: Bag, e1: Entry, e2: Entry)
    requires GoodEntry(e1, b.allowed) && GoodEntry(e2, b.allowed) && !b.valid && b.entries == [e1, e2]
    requires b.result == EntryText(e1) + Print(b.entries)
    requires Free(EntryText(e1) + EntryText(e1), COMMA)
    requires ReadMember(EntryText(e1) + EntryText(e1), b.allowed) == Read(None, false)
    ensures Copy(b).Some? && Copy(b).value.entries == [e2]
  {
    var t1, t2 := EntryText(e1), EntryText(e2);
    PrintOneTwo(e1, e2);
    PrintedEntryClean(e2, b.allowed);
    ReparseEntry(e2, b.allowed);
    assert b.result == (t1 + t1) + [COMMA] + t2;
    CollectTwo(EntryReader(b.allowed), t1 + t1, t2, COMMA, ENTITIES_LIMIT);
    assert [] + [e2] == [e2];
  }

  /** Both entries and a third with an empty value stay below the length limit. */
  predicate FitsTwice(key: Text, v: Text, w: Text) {
    3 * |UrlEncode(key)| + |UrlEncode(v)| + |UrlEncode(w)| + 5 < HEADER_LENGTH_LIMIT
  }

  /**
   For any key and values: start from a header with the good member key=v and a bad one, add key=w, then key
   with an empty value. The baggage has both entries, but its header starts with the result header left from
   construction, run together with the new one, and a copy has lost the first entry.
   */
  lemma StaleResultHeader(key: Text, v: Text, w: Text, allowed: set<Text>)
    requires key in allowed && key != [] && v != [] && w != [] && FitsTwice(key, v, w)
    ensures var e1, e2 := Encode(Call(key, v, [])), Encode(Call(key, w, []));
            var b0 := Construct(EntryText(e1) + [COMMA] + [EQUALS], allowed);
            && b0.Some? && Add(b0.value, Call(key, w, [])).Done?
            && var b1 := Add(b0.value, Call(key, w, [])).bag;
            && Add(b1, Call(key, [], [])).Done?
            && var b2 := Add(b1, Call(key, [], [])).bag;
            && b2.entries == [e1, e2] && ToString(b2) == EntryText(e1) + Print([e1, e2])
            && Copy(b2).Some? && Copy(b2).value.entries == [e2]
  {
    var e1, e2 := Encode(Call(key, v, [])), Encode(Call(key, w, []));
    GoodCall(key, v, allowed);
    GoodCall(key, w, allowed);
    StartWithBadMember(e1, allowed);
    var b0 := Construct(EntryText(e1) + [COMMA] + [EQUALS], allowed).value;
    ConstructedIsConsistent(EntryText(e1) + [COMMA] + [EQUALS], allowed);
    StaleSteps(b0, key, v, w);
    var b2 := Add(Add(b0, Call(key, w, [])).bag, Call(key, [], [])).bag;
    EncodedPlain(key);
    TwiceIsRejected(e1, allowed);
    CopyOfStale(b2, e1, e2);
  }

  /** The good addition: nothing is cleared. */
  lemma StaleFirst(b0: Bag, key: Text, v: Text, w: Text)
    requires Consistent(b0) && key in b0.allowed && key != [] && v != [] && w != [] && FitsTwice(key, v, w)
    requires var e1 := Encode(Call(key, v, [])); b0.entries == [e1] && b0.result == EntryText(e1) && !b0.valid
    ensures Add(b0, Call(key, w, [])).Done?
    ensures var b1 := Add(b0, Call(key, w, [])).bag;
            && Consistent(b1) && b1.valid && b1.allowed == b0.allowed && b1.result == b0.result
            && b1.entries == [Encode(Call(key, v, [])), Encode(Call(key, w, []))]
            && |b1.header| == 2 * |UrlEncode(key)| + 3 + |UrlEncode(v)| + |UrlEncode(w)|
  {
    var good := Call(key, w, []);
    EntrySize(Call(key, v, []));
    EntrySize(good);
    AddExact(b0, good);
    assert AddedEntries(good) == [Encode(good)];
  }

  lemma StaleSteps(b0: Bag, key: Text, v: Text, w: Text)
    requires Consistent(b0) && key in b0.allowed && key != [] && v != [] && w != [] && FitsTwice(key, v, w)
    requires var e1 := Encode(Call(key, v, [])); b0.entries == [e1] && b0.result == EntryText(e1) && !b0.valid
    ensures Add(b0, Call(key, w, [])).Done?
    ensures var b1 := Add(b0, Call(key, w, [])).bag;
            && Add(b1, Call(key, [], [])).Done?
            && var b2 := Add(b1, Call(key, [], [])).bag;
            && b2.entries == [Encode(Call(key, v, [])), Encode(Call(key, w, []))]
            && b2.allowed == b0.allowed && !b2.valid && b2.result == b0.result + Print(b2.entries)
  {
    StaleFirst(b0, key, v, w);
    var empty := Call(key, [], []);
    EntrySize(empty);
    AddExact(Add(b0, Call(key, w, [])).bag, empty);
  }

  lemma EntrySize(c: Call)
    requires c.properties == []
    ensures |EntryText(Encode(c))| == |UrlEncode(c.key)| + 1 + |UrlEncode(c.value)|
  {}
}
