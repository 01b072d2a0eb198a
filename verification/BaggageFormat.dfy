/** The baggage header (section 3 of the W3C Baggage specification) as the tolerant parser reads and prints it. */
module BaggageFormat {
  import opened Wrappers
  import opened UrlCodec
  import opened TextList

  const COMMA: Octet := 44
  const SEMICOLON: Octet := 59
  const EQUALS: Octet := 61

  datatype Property = Property(key: Text, value: Option<Text>)

  datatype Entry = Entry(key: Text, value: Text, properties: seq<Property>)

  /** isspace in the C locale. */
  predicate IsSpace(c: Octet) {
    c == SPACE || 9 <= c <= 13
  }

  predicate NoSpace(s: Text) {
    forall i :: 0 <= i < |s| ==> !IsSpace(s[i])
  }

  // ----- Parsing -----

  function ParseProperty(p: Text): Option<Property> {
    if p == [] || !NoSpace(p) || !Free(p, COMMA) || !Free(p, SEMICOLON) then None
    else
      var eq := Find(p, EQUALS, 0);
      if eq == |p| then Some(Property(p, None))
      else
        var key, value := p[..eq], p[eq + 1..];
        if !Free(value, EQUALS) || value == [] || key == [] then None else Some(Property(key, Some(value)))
  }

  /** Empty properties are skipped, bad ones dropped. */
  function ReadProperty(p: Text): Member<Property> {
    if p == [] then Read(None, true) else Read(ParseProperty(p), ParseProperty(p).Some?)
  }

  /** The text behind a ';'; there is no limit on properties. */
  function ParseProperties(rest: Text): Parsed<Property> {
    CollectAll(ReadProperty, Split(rest, SEMICOLON))
  }

  /** Broken where the key holds a broken escape; not clean where something was dropped. */
  function ParseEntry(m: Text, allowed: set<Text>): Member<Entry> {
    if !Free(m, COMMA) || !NoSpace(m) then Read(None, false)
    else
      var eq := Find(m, EQUALS, 0);
      if eq == |m| then Read(None, false)
      else if UrlDecode(m[..eq]).None? then Broken
      else if UrlDecode(m[..eq]).value !in allowed then Read(None, false)
      else ParseValue(m, eq)
  }

  /** The part of a member behind its '='. */
  function ParseValue(m: Text, eq: nat): Member<Entry>
    requires eq < |m| && m[eq] == EQUALS
  {
    var semi := Find(m, SEMICOLON, eq);
    var value := m[eq + 1..semi];
    if eq == 0 || value == [] || !Free(value, EQUALS) then Read(None, false)
    else if semi == |m| then Read(Some(Entry(m[..eq], value, [])), true)
    else
      var properties := ParseProperties(m[semi + 1..]);
      if properties.Threw? then Broken else Read(Some(Entry(m[..eq], value, properties.items)), properties.valid)
  }

  /** Empty members are skipped. */
  function ReadMember(m: Text, allowed: set<Text>): Member<Entry> {
    if m == [] then Read(None, true) else ParseEntry(m, allowed)
  }

  function EntryReader(allowed: set<Text>): Text -> Member<Entry> {
    m => ReadMember(m, allowed)
  }

  function ParseHeader(header: Text, allowed: set<Text>, room: nat): Parsed<Entry> {
    Collect(EntryReader(allowed), Split(header, COMMA), room)
  }

  // ----- Printing -----

  function PropertyText(p: Property): Text {
    if p.value.None? then p.key else p.key + [EQUALS] + p.value.value
  }

  function PropertiesText(ps: seq<Property>): Text {
    if ps == [] then [] else [SEMICOLON] + Join(Texts(PropertyText, ps), SEMICOLON)
  }

  function EntryText(e: Entry): Text {
    e.key + [EQUALS] + e.value + PropertiesText(e.properties)
  }

  function Print(entries: seq<Entry>): Text {
    Join(Texts(EntryText, entries), COMMA)
  }

  // ----- What parsing keeps -----

  predicate Plain(s: Text) {
    NoSpace(s) && Free(s, COMMA) && Free(s, SEMICOLON) && Free(s, EQUALS)
  }

  predicate GoodProperty(p: Property) {
    p.key != [] && Plain(p.key) && (p.value.Some? ==> p.value.value != [] && Plain(p.value.value))
  }

  predicate GoodProperties(ps: seq<Property>) {
    forall i :: 0 <= i < |ps| ==> GoodProperty(ps[i])
  }

  /** A key may hold ';' when the header had it before the first '='. */
  predicate GoodEntry(e: Entry, allowed: set<Text>) {
    && e.key != [] && NoSpace(e.key) && Free(e.key, COMMA) && Free(e.key, EQUALS)
    && UrlDecode(e.key).Some? && UrlDecode(e.key).value in allowed
    && e.value != [] && Plain(e.value) && GoodProperties(e.properties)
  }

  predicate GoodEntries(entries: seq<Entry>, allowed: set<Text>) {
    forall i :: 0 <= i < |entries| ==> GoodEntry(entries[i], allowed)
  }

  lemma ParsedPropertyGood(p: Text)
    requires ParseProperty(p).Some?
    ensures GoodProperty(ParseProperty(p).value) && PropertyText(ParseProperty(p).value) == p
  {
    var eq := Find(p, EQUALS, 0);
    if eq < |p| {
      assert p == p[..eq] + [EQUALS] + p[eq + 1..];
    }
  }

  lemma ParsedPropertiesGood(rest: Text)
    ensures var r := ParseProperties(rest);
            r.Parsed? ==> GoodProperties(r.items) && |PropertiesText(r.items)| <= |rest| + 1
  {
    forall m: Text | ReadProperty(m).item.Some?
      ensures GoodProperty(ReadProperty(m).item.value) && |PropertyText(ReadProperty(m).item.value)| <= |m|
    {
      ParsedPropertyGood(m);
    }
    var ms := Split(rest, SEMICOLON);
    CollectedGood(ReadProperty, GoodProperty, PropertyText, ms, |ms|);
    CollectAllIs(ReadProperty, ms, |ms|);
    SplitSize(rest, SEMICOLON);
    var r := ParseProperties(rest);
    if r.Parsed? && r.items != [] {
      JoinSize(Texts(PropertyText, r.items), SEMICOLON);
    }
  }

  lemma ParsedValueGood(m: Text, eq: nat)
    requires eq < |m| && m[eq] == EQUALS && NoSpace(m) && Free(m, COMMA)
    requires ParseValue(m, eq).Read? && ParseValue(m, eq).item.Some?
    ensures var e := ParseValue(m, eq).item.value;
            e.key == m[..eq] && e.key != [] && e.value != [] && Plain(e.value)
  {}

  lemma ParsedValueSize(m: Text, eq: nat)
    requires eq < |m| && m[eq] == EQUALS
    requires ParseValue(m, eq).Read? && ParseValue(m, eq).item.Some?
    ensures var e := ParseValue(m, eq).item.value; GoodProperties(e.properties) && |EntryText(e)| <= |m|
  {
    var semi := Find(m, SEMICOLON, eq);
    if semi < |m| {
      ParsedPropertiesGood(m[semi + 1..]);
    }
  }

  lemma ParsedEntryGood(m: Text, allowed: set<Text>)
    requires ReadMember(m, allowed).Read? && ReadMember(m, allowed).item.Some?
    ensures var e := ReadMember(m, allowed).item.value; GoodEntry(e, allowed) && |EntryText(e)| <= |m|
  {
    ParsedValueGood(m, Find(m, EQUALS, 0));
    ParsedValueSize(m, Find(m, EQUALS, 0));
  }

  /** Whatever the header, the entries kept are well-formed, at most room of them, and print no longer than it. */
  lemma ParsedHeaderGood(header: Text, allowed: set<Text>, room: nat)
    ensures var r := ParseHeader(header, allowed, room);
            r.Parsed? ==> GoodEntries(r.items, allowed) && |r.items| <= room && |Print(r.items)| <= |header|
  {
    var parse := EntryReader(allowed);
    forall m: Text | parse(m).Read? && parse(m).item.Some?
      ensures GoodEntry(parse(m).item.value, allowed) && |EntryText(parse(m).item.value)| <= |m|
    {
      ParsedEntryGood(m, allowed);
    }
    var ms := Split(header, COMMA);
    CollectedGood(parse, e => GoodEntry(e, allowed), EntryText, ms, room);
    CollectedFit(parse, ms, room);
    SplitSize(header, COMMA);
    var r := ParseHeader(header, allowed, room);
    if r.Parsed? && r.items != [] {
      JoinSize(Texts(EntryText, r.items), COMMA);
    }
  }

  // ----- Reading back what was printed -----

  lemma PrintedProperty(p: Property)
    requires GoodProperty(p)
    ensures var t := PropertyText(p); t != [] && NoSpace(t) && Free(t, COMMA) && Free(t, SEMICOLON) && ParseProperty(t) == Some(p)
  {
    var t := PropertyText(p);
    FindIs(t, EQUALS, 0, |p.key|);
    if p.value.Some? {
      assert t[..|p.key|] == p.key && t[|p.key| + 1..] == p.value.value;
    }
  }

  /** A text is accepted as a property exactly when it is the printed form of a well-formed one. */
  lemma PropertyAccepted(t: Text)
    ensures ParseProperty(t).Some? <==> exists p :: GoodProperty(p) && PropertyText(p) == t
  {
    if ParseProperty(t).Some? {
      ParsedPropertyGood(t);
    }
    forall p | GoodProperty(p) && PropertyText(p) == t ensures ParseProperty(t) == Some(p) {
      PrintedProperty(p);
    }
  }

  predicate Reserved(c: Octet) {
    IsSpace(c) || c == COMMA
  }

  lemma PrintedProperties(ps: seq<Property>)
    requires ps != [] && GoodProperties(ps)
    ensures var texts := Texts(PropertyText, ps);
            && Avoids(Join(texts, SEMICOLON), Reserved) && Split(Join(texts, SEMICOLON), SEMICOLON) == texts
            && Gives(ReadProperty, texts, ps)
  {
    var texts := Texts(PropertyText, ps);
    forall i | 0 <= i < |ps|
      ensures Avoids(texts[i], Reserved) && Free(texts[i], SEMICOLON) && ReadProperty(texts[i]) == Read(Some(ps[i]), true)
    {
      PrintedProperty(ps[i]);
    }
    JoinAvoids(texts, SEMICOLON, Reserved);
    SplitJoin(texts, SEMICOLON);
  }

  lemma ReparseProperties(ps: seq<Property>)
    requires ps != [] && GoodProperties(ps)
    ensures ParseProperties(Join(Texts(PropertyText, ps), SEMICOLON)) == Parsed(ps, true)
  {
    PrintedProperties(ps);
    CollectGives(ReadProperty, Texts(PropertyText, ps), ps, |ps|);
    CollectAllIs(ReadProperty, Texts(PropertyText, ps), |ps|);
  }

  lemma EntryAvoids(e: Entry)
    requires Avoids(e.key, Reserved) && Avoids(e.value, Reserved)
    requires e.properties != [] ==> Avoids(Join(Texts(PropertyText, e.properties), SEMICOLON), Reserved)
    ensures Avoids(EntryText(e), Reserved)
  {
    AvoidsBoth(e.key, [EQUALS], Reserved);
    AvoidsBoth(e.key + [EQUALS], e.value, Reserved);
    if e.properties != [] {
      AvoidsBoth([SEMICOLON], Join(Texts(PropertyText, e.properties), SEMICOLON), Reserved);
    }
    AvoidsBoth(e.key + [EQUALS] + e.value, PropertiesText(e.properties), Reserved);
  }

  lemma PrintedEntryClean(e: Entry, allowed: set<Text>)
    requires GoodEntry(e, allowed)
    ensures var t := EntryText(e); t != [] && NoSpace(t) && Free(t, COMMA)
  {
    if e.properties != [] {
      PrintedProperties(e.properties);
    }
    EntryAvoids(e);
  }

  /** A value alone. */
  lemma ReadValue(key: Text, value: Text)
    requires Plain(value)
    ensures ParseValue(key + [EQUALS] + value, |key|)
            == if key == [] || value == [] then Read(None, false) else Read(Some(Entry(key, value, [])), true)
  {
    var t := key + [EQUALS] + value;
    assert t[..|key|] == key && t[|key| + 1..|t|] == value;
    FindIs(t, SEMICOLON, |key|, |t|);
  }

  /** A value with properties behind it. */
  lemma ReadValueAndMore(key: Text, value: Text, more: Text)
    requires Plain(value)
    ensures ParseValue(key + [EQUALS] + value + [SEMICOLON] + more, |key|)
            == if key == [] || value == [] then Read(None, false)
               else if ParseProperties(more).Threw? then Broken
               else Read(Some(Entry(key, value, ParseProperties(more).items)), ParseProperties(more).valid)
  {
    var t := key + [EQUALS] + value + [SEMICOLON] + more;
    var eq, semi := |key|, |key| + 1 + |value|;
    assert t[..eq] == key && t[eq + 1..semi] == value && t[semi + 1..] == more;
    FindIs(t, SEMICOLON, eq, semi);
  }

  /** The text of an entry with properties. */
  lemma EntryTextWith(e: Entry)
    ensures e.properties == [] ==> EntryText(e) == e.key + [EQUALS] + e.value
    ensures e.properties != [] ==>
              EntryText(e) == e.key + [EQUALS] + e.value + [SEMICOLON] + Join(Texts(PropertyText, e.properties), SEMICOLON)
  {
    if e.properties == [] {
      assert e.key + [EQUALS] + e.value + [] == e.key + [EQUALS] + e.value;
    } else {
      var most, rest := e.key + [EQUALS] + e.value, Join(Texts(PropertyText, e.properties), SEMICOLON);
      assert most + ([SEMICOLON] + rest) == most + [SEMICOLON] + rest;
    }
  }

  /** The value and what follows it, read back. */
  lemma ReparseValue(key: Text, value: Text, properties: seq<Property>)
    requires key != [] && value != [] && Plain(value) && GoodProperties(properties)
    ensures var t := EntryText(Entry(key, value, properties));
            t[|key|] == EQUALS && ParseValue(t, |key|) == Read(Some(Entry(key, value, properties)), true)
  {
    EntryTextWith(Entry(key, value, properties));
    if properties == [] {
      ReadValue(key, value);
    } else {
      ReparseProperties(properties);
      ReadValueAndMore(key, value, Join(Texts(PropertyText, properties), SEMICOLON));
    }
  }

  /** A member whose key ends at eq and decodes to an allowed one is read from its value on. */
  lemma ReadFromValue(t: Text, eq: nat, allowed: set<Text>)
    requires NoSpace(t) && Free(t, COMMA) && eq < |t| && t[eq] == EQUALS && Free(t[..eq], EQUALS)
    requires UrlDecode(t[..eq]).Some? && UrlDecode(t[..eq]).value in allowed
    ensures ReadMember(t, allowed) == ParseValue(t, eq)
  {
    FindIs(t, EQUALS, 0, eq);
  }

  lemma ReparseEntry(e: Entry, allowed: set<Text>)
    requires GoodEntry(e, allowed)
    ensures ReadMember(EntryText(e), allowed) == Read(Some(e), true)
  {
    PrintedEntryClean(e, allowed);
    ReparseValue(e.key, e.value, e.properties);
    assert EntryText(e)[..|e.key|] == e.key;
    ReadFromValue(EntryText(e), |e.key|, allowed);
  }

  lemma PrintedEntries(entries: seq<Entry>, allowed: set<Text>)
    requires entries != [] && GoodEntries(entries, allowed)
    ensures var texts := Texts(EntryText, entries);
            Split(Print(entries), COMMA) == texts && Gives(EntryReader(allowed), texts, entries)
  {
    var texts := Texts(EntryText, entries);
    forall i | 0 <= i < |entries|
      ensures Free(texts[i], COMMA) && ReadMember(texts[i], allowed) == Read(Some(entries[i]), true)
    {
      PrintedEntryClean(entries[i], allowed);
      ReparseEntry(entries[i], allowed);
    }
    SplitJoin(texts, COMMA);
  }

  /** Print then parse gives back any well-formed entries, and calls the header valid. */
  lemma ReparsePrinted(entries: seq<Entry>, allowed: set<Text>, room: nat)
    requires GoodEntries(entries, allowed) && |entries| <= room
    ensures ParseHeader(Print(entries), allowed, room) == Parsed(entries, true)
  {
    if entries == [] {
      SplitFree([], COMMA);
      var none: seq<Text> := [[]];
      assert Print(entries) == [] && none[1..] == [];
      assert Collect(EntryReader(allowed), none[1..], room) == Parsed([], true);
    } else {
      PrintedEntries(entries, allowed);
      CollectGives(EntryReader(allowed), Texts(EntryText, entries), entries, room);
    }
  }

  /** The printed form of whatever was kept from any header reparses, as valid, to the same entries. */
  lemma PrintParseRoundTrip(header: Text, allowed: set<Text>, room: nat)
    requires ParseHeader(header, allowed, room).Parsed?
    ensures var entries := ParseHeader(header, allowed, room).items;
            ParseHeader(Print(entries), allowed, room) == Parsed(entries, true)
  {
    ParsedHeaderGood(header, allowed, room);
    ReparsePrinted(ParseHeader(header, allowed, room).items, allowed, room);
  }

  // ----- Appending -----

  lemma ReadNothing(allowed: set<Text>)
    ensures SkipsOnlyEmpty(EntryReader(allowed))
  {}

  /** A member behind a valid header, with a comma unless the header has no entries. */
  lemma ParseExtended(base: Text, entries: seq<Entry>, t: Text, allowed: set<Text>, room: nat)
    requires ParseHeader(base, allowed, room) == Parsed(entries, true) && |entries| < room && Free(t, COMMA)
    ensures ParseHeader(base + ((if |entries| == 0 then [] else [COMMA]) + t), allowed, room)
            == Then(Parsed(entries, true), Items(ReadMember(t, allowed)))
  {
    ReadNothing(allowed);
    CollectExtended(EntryReader(allowed), base, entries, t, COMMA, room);
  }
}
