/** The Baggage class: its parsing and printing loops, proved against the functions on values. */
module BaggageClass {
  import opened Wrappers
  import opened UrlCodec
  import opened TextList
  import opened BaggageFormat
  import opened BaggageValue
  import opened BaggageRuns

  // ----- Rounds of the loops -----

  lemma Regroup(a: Text, b: Text, c: Text, d: Text)
    ensures a + b + c + d == a + (b + c + d)
  {}

  lemma AdditionGrouped(start: Text, e: Entry)
    ensures start + e.key + [EQUALS] + e.value + PropertiesText(e.properties) == start + EntryText(e)
  {
    Regroup(start, e.key, [EQUALS], e.value);
    var most, rest := e.key + [EQUALS] + e.value, PropertiesText(e.properties);
    assert start + most + rest == start + (most + rest);
  }

  lemma PropertiesTextSnoc(ps: seq<Property>, i: nat)
    requires i < |ps|
    ensures PropertiesText(ps[..i + 1]) == PropertiesText(ps[..i]) + [SEMICOLON] + PropertyText(ps[i])
  {
    JoinTextsSnoc(PropertyText, ps, i, SEMICOLON);
  }

  lemma PrintSnoc(entries: seq<Entry>, i: nat)
    requires i < |entries|
    ensures Print(entries[..i + 1]) == Print(entries[..i]) + (if i == 0 then [] else [COMMA]) + EntryText(entries[i])
  {
    JoinTextsSnoc(EntryText, entries, i, COMMA);
  }

  /** TryMakeBaggageEntryProperty. */
  method TryMakeProperty(property: Text) returns (made: Option<Property>)
    ensures made == ParseProperty(property)
    ensures made.Some? ==> GoodProperty(made.value) && PropertyText(made.value) == property
    ensures made.None? ==> forall p :: GoodProperty(p) ==> PropertyText(p) != property
  {
    PropertyAccepted(property);
    if ParseProperty(property).Some? {
      ParsedPropertyGood(property);
    }
    if property == [] { return None; }
    if !NoSpace(property) { return None; }
    if !Free(property, COMMA) || !Free(property, SEMICOLON) { return None; }
    var delimiter := Find(property, EQUALS, 0);
    if delimiter == |property| { return Some(Property(property, None)); }
    var key, value := property[..delimiter], property[delimiter + 1..];
    if !Free(value, EQUALS) { return None; }
    if value == [] || key == [] { return None; }
    return Some(Property(key, Some(value)));
  }

  /** The property loop of AddEntry. */
  method AppendProperties(start: Text, properties: seq<Property>) returns (text: Text)
    ensures text == start + PropertiesText(EncodeProperties(properties))
  {
    text := start;
    ghost var encoded := EncodeProperties(properties);
    for i := 0 to |properties|
      invariant text == start + PropertiesText(encoded[..i])
    {
      PropertiesTextSnoc(encoded, i);
      ghost var before := PropertiesText(encoded[..i]);
      text := AppendProperty(text + [SEMICOLON], properties[i]);
      Regroup(start, before, [SEMICOLON], PropertyText(encoded[i]));
    }
    assert encoded[..|properties|] == encoded;
  }

  method AppendProperty(start: Text, p: Property) returns (text: Text)
    ensures text == start + PropertyText(EncodeProperty(p))
  {
    text := UrlEncodeTo(p.key, start);
    if p.value.Some? {
      text := UrlEncodeTo(p.value.value, text + [EQUALS]);
      Regroup(start, UrlEncode(p.key), [EQUALS], UrlEncode(p.value.value));
    }
  }

  class Baggage {
    var header: Text
    const allowed: set<Text>
    var entries: seq<Entry>
    var result: Text
    var valid: bool

    ghost function Value(): Bag
      reads this
    {
      Bag(header, allowed, entries, result, valid)
    }

    constructor (header: Text, allowed: set<Text>)
      ensures Value() == Bag(header, allowed, [], [], true)
    {
      this.header, this.allowed, this.entries, this.result, this.valid := header, allowed, [], [], true;
    }

    method Print() returns (text: Text)
      ensures text == ToString(Value())
    {
      if valid { return header; }
      return result;
    }

    /** The property loop of TryMakeBaggageEntry, from the ';' at start on; drops make the header invalid. */
    method MakeProperties(entry: Text, start: nat) returns (properties: seq<Property>)
      requires start < |entry|
      modifies `valid
      ensures var r := ParseProperties(entry[start + 1..]);
              r.Parsed? && properties == r.items && valid == (old(valid) && r.valid)
    {
      properties := [];
      ghost var clean := true;
      var pos := Some(start + 1);
      ThenNothing(ParseProperties(entry[start + 1..]));
      while pos.Some?
        invariant pos.Some? ==> start < pos.value <= |entry|
        invariant valid == (old(valid) && clean)
        invariant Then(Parsed(properties, clean), AllFrom(ReadProperty, entry, SEMICOLON, pos)) == ParseProperties(entry[start + 1..])
        decreases if pos.None? then 0 else |entry| - pos.value + 1
      {
        CollectRoundAll(ReadProperty, entry, SEMICOLON, pos.value, Parsed(properties, clean));
        var next := Find(entry, SEMICOLON, pos.value);
        var property := entry[pos.value..next];
        if property == [] {
          assert properties + [] == properties;
        } else {
          var parsed := TryMakeProperty(property);
          if parsed.Some? {
            properties := properties + [parsed.value];
          } else {
            valid := false;
            clean := false;
            assert properties + [] == properties;
          }
        }
        pos := NextPos(entry, next);
      }
      ThenNothing(Parsed(properties, clean));
    }

    /** None with threw for a broken escape in the key; dropped properties make the header invalid. */
    method TryMakeBaggageEntry(entry: Text) returns (threw: bool, made: Option<Entry>)
      modifies `valid
      ensures var m := ParseEntry(entry, allowed);
              && (threw <==> m.Broken?)
              && (!threw ==> made == m.item && valid == (old(valid) && (made.Some? ==> m.clean)))
    {
      threw, made := false, None;
      if !Free(entry, COMMA) { return; }
      if !NoSpace(entry) { return; }
      var delimiter := Find(entry, EQUALS, 0);
      if delimiter == |entry| { return; }
      var key := entry[..delimiter];
      var decoded := Decode(key);
      if decoded.None? { threw := true; return; }
      if decoded.value !in allowed { return; }
      var pos := Find(entry, SEMICOLON, delimiter);
      var value := entry[delimiter + 1..pos];
      if value == [] || key == [] { return; }
      if !Free(value, EQUALS) { return; }
      if pos == |entry| {
        made := Some(Entry(key, value, []));
        return;
      }
      var properties := MakeProperties(entry, pos);
      made := Some(Entry(key, value, properties));
    }

    /** Entries collected so far, and what the rest of the header from pos on will add to them. */
    ghost function Outcome(pos: Option<nat>, room: nat): Parsed<Entry>
      requires pos.Some? ==> pos.value <= |header|
      reads this
    {
      Then(Parsed(entries, valid), From(EntryReader(allowed), header, COMMA, pos, room))
    }

    method FillEntries() returns (threw: bool)
      requires entries == [] && valid
      modifies `entries, `valid
      ensures var r := ParseHeader(header, allowed, ENTITIES_LIMIT);
              (threw <==> r.Threw?) && (!threw ==> Parsed(entries, valid) == r)
    {
      var pos: Option<nat> := Some(0);
      ghost var room: nat := ENTITIES_LIMIT;
      assert header[0..] == header;
      ThenNothing(ParseHeader(header, allowed, ENTITIES_LIMIT));
      while pos.Some? && |entries| < ENTITIES_LIMIT
        invariant (pos.Some? ==> pos.value <= |header|) && room + |entries| == ENTITIES_LIMIT
        invariant Outcome(pos, room) == ParseHeader(header, allowed, ENTITIES_LIMIT)
        decreases if pos.None? then 0 else |header| - pos.value + 1
      {
        threw, pos, room := FillOne(pos.value, room);
        if threw { return; }
      }
      ThenNothing(Parsed(entries, valid));
      threw := false;
    }

    /** The member at pos: kept, skipped, or dropped, which makes the header invalid. */
    method FillOne(pos: nat, ghost room: nat) returns (threw: bool, next: Option<nat>, ghost left: nat)
      requires pos <= |header| && room > 0
      modifies `entries, `valid
      ensures next.Some? ==> pos < next.value <= |header|
      ensures if threw then old(Outcome(Some(pos), room)).Threw?
              else Outcome(next, left) == old(Outcome(Some(pos), room)) && left + |entries| == room + |old(entries)|
    {
      CollectRound(EntryReader(allowed), header, COMMA, pos, room, Parsed(entries, valid));
      var cut := Find(header, COMMA, pos);
      next := NextPos(header, cut);
      left := RoomAfter(EntryReader(allowed)(header[pos..cut]), room);
      threw := ReadOne(header[pos..cut]);
    }

    method ReadOne(entry: Text) returns (threw: bool)
      modifies `entries, `valid
      ensures var m := EntryReader(allowed)(entry);
              && (threw <==> m.Broken?)
              && (!threw ==> Parsed(entries, valid) == Then(Parsed(old(entries), old(valid)), Items(m)))
              && (threw ==> entries == old(entries))
              && (!threw ==> |entries| == |old(entries)| + if m.item.Some? then 1 else 0)
    {
      if entry == [] {
        assert entries + [] == entries;
        return false;
      }
      var parsed;
      threw, parsed := TryMakeBaggageEntry(entry);
      if threw { return; }
      if parsed.Some? {
        entries := entries + [parsed.value];
      } else {
        RejectedIsNotClean(entry, allowed);
        valid := false;
        assert entries + [] == entries;
      }
    }

    method CreateResultHeader()
      modifies `result
      ensures result == old(result) + BaggageFormat.Print(entries)
    {
      for i := 0 to |entries|
        invariant result == old(result) + BaggageFormat.Print(entries[..i])
      {
        ghost var printed := BaggageFormat.Print(entries[..i]);
        ghost var separator := if i == 0 then [] else [COMMA];
        if i != 0 {
          result := result + [COMMA];
        } else {
          assert result + [] == result;
        }
        result := result + EntryText(entries[i]);
        Regroup(old(result), printed, separator, EntryText(entries[i]));
        PrintSnoc(entries, i);
      }
      assert entries[..|entries|] == entries;
    }

    /** Parses the header into an empty baggage and prints the result header if something was dropped. */
    method FillAndSettle() returns (threw: bool)
      requires entries == [] && valid
      modifies this
      ensures header == old(header)
      ensures var settled := Settle(header, allowed, old(result));
              threw == settled.None? && (!threw ==> Value() == settled.value)
    {
      threw := FillEntries();
      if !threw && !valid {
        CreateResultHeader();
      }
    }

    /** The copy constructor; the move constructor does the same to its target. */
    method CopyOf() returns (copy: Baggage)
      requires Usable(Value())
      ensures fresh(copy) && Copy(Value()) == Some(copy.Value()) && copy.allowed == allowed && Consistent(copy.Value())
      ensures Consistent(Value()) ==> copy.entries == entries && ToString(copy.Value()) == ToString(Value())
    {
      if Consistent(Value()) {
        CopyPreserves(Value());
      } else {
        LooseCopies(Value());
      }
      copy := new Baggage(if valid then header else result, allowed);
      var threw := copy.FillAndSettle();
    }

    method AdditionText(c: Call) returns (text: Text)
      ensures text == Addition(Value(), c)
    {
      text := if |entries| == 0 then [] else [COMMA];
      ghost var start := text;
      text := UrlEncodeTo(c.key, text);
      text := UrlEncodeTo(c.value, text + [EQUALS]);
      text := AppendProperties(text, c.properties);
      AdditionGrouped(start, Encode(c));
    }

    method AddEntry(c: Call) returns (refusal: Option<Refusal>)
      requires Usable(Value())
      modifies this
      ensures refusal.Some? ==> Add(old(Value()), c) == Refused(refusal.value) && Value() == old(Value())
      ensures refusal.None? ==> Add(old(Value()), c) == Done(Value())
      ensures refusal.None? ==> AddKeeps(old(Value()), c, Value())
    {
      AddUsable(Value(), c);
      if c.key !in allowed { return Some(NotAllowed); }
      if |entries| >= ENTITIES_LIMIT { return Some(TooManyEntries); }
      var entry := AdditionText(c);
      var sent := Print();
      if |sent| + |entry| >= HEADER_LENGTH_LIMIT { return Some(TooLong); }
      header := sent + entry;
      valid := true;
      entries := [];
      var threw := FillAndSettle();
      refusal := None;
    }
  }

  lemma RejectedIsNotClean(entry: Text, allowed: set<Text>)
    ensures var m := ParseEntry(entry, allowed); m.Read? && m.item.None? ==> !m.clean
  {}

  datatype Made = HeaderTooLong | DecodingThrew | Made(baggage: Baggage)

  method TryMakeBaggage(header: Text, allowed: set<Text>) returns (made: Made)
    ensures made.HeaderTooLong? <==> |header| > HEADER_LENGTH_LIMIT
    ensures made.DecodingThrew? <==> |header| <= HEADER_LENGTH_LIMIT && Construct(header, allowed).None?
    ensures made.Made? ==> fresh(made.baggage) && Some(made.baggage.Value()) == Construct(header, allowed)
                           && Consistent(made.baggage.Value()) && Loose(made.baggage.Value())
                           && |ToString(made.baggage.Value())| <= HEADER_LENGTH_LIMIT
  {
    if |header| > HEADER_LENGTH_LIMIT { return HeaderTooLong; }
    var b := new Baggage(Strip(header), allowed);
    var threw := b.FillAndSettle();
    if threw { return DecodingThrew; }
    ConstructedIsConsistent(header, allowed);
    ConstructedIsLoose(header, allowed);
    return Made(b);
  }
}
