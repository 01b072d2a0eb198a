/** Lists in a text: members between separators, collected up to a limit by a member parser. */
module TextList {
  import opened Wrappers

  predicate Free<E(==)>(s: seq<E>, c: E) {
    forall i :: 0 <= i < |s| ==> s[i] != c
  }

  /** The first c at or after from, or the length. */
  function Find<E(==)>(s: seq<E>, c: E, from: nat): (r: nat)
    requires from <= |s|
    ensures from <= r <= |s| && (r < |s| ==> s[r] == c)
    ensures forall i :: from <= i < r ==> s[i] != c
    decreases |s| - from
  {
    if from == |s| || s[from] == c then from else Find(s, c, from + 1)
  }

  lemma FindIs<E(!new)>(s: seq<E>, c: E, from: nat, k: nat)
    requires from <= k <= |s| && (k < |s| ==> s[k] == c) && forall i :: from <= i < k ==> s[i] != c
    ensures Find(s, c, from) == k
  {}

  function Split<E(==)>(s: seq<E>, c: E): (r: seq<seq<E>>)
    ensures r != []
    decreases |s|
  {
    var cut := Find(s, c, 0);
    if cut == |s| then [s] else [s[..cut]] + Split(s[cut + 1..], c)
  }

  lemma SplitFree<E(!new)>(s: seq<E>, c: E)
    requires Free(s, c)
    ensures Split(s, c) == [s]
  {
    FindIs(s, c, 0, |s|);
  }

  lemma {:induction false} SplitAppended<E(!new)>(a: seq<E>, b: seq<E>, c: E)
    ensures Split(a + [c] + b, c) == Split(a, c) + Split(b, c)
    decreases |a|
  {
    var whole, cut := a + [c] + b, Find(a, c, 0);
    FindIs(whole, c, 0, cut);
    assert whole[..cut] == a[..cut];
    if cut == |a| {
      assert whole[cut + 1..] == b && a[..cut] == a;
    } else {
      assert whole[cut + 1..] == a[cut + 1..] + [c] + b;
      SplitAppended(a[cut + 1..], b, c);
    }
  }

  lemma SplitFirst<E(!new)>(head: seq<E>, rest: seq<E>, c: E)
    requires Free(head, c)
    ensures Split(head + [c] + rest, c) == [head] + Split(rest, c)
  {
    SplitAppended(head, rest, c);
    SplitFree(head, c);
  }

  /** A text cut at the separator at r. */
  lemma CutAt<E(!new)>(s: seq<E>, c: E, from: nat, r: nat)
    requires from <= r < |s| && s[r] == c && forall i :: from <= i < r ==> s[i] != c
    ensures s[from..] == s[from..r] + [c] + s[r + 1..] && Free(s[from..r], c)
  {}

  lemma FreeFrom<E(!new)>(s: seq<E>, c: E, from: nat)
    requires from <= |s| && forall i :: from <= i < |s| ==> s[i] != c
    ensures Free(s[from..], c)
  {}

  /** Splitting from a position on, as a loop over find does. */
  lemma SplitFrom<E(!new)>(s: seq<E>, c: E, from: nat)
    requires from <= |s|
    ensures var r := Find(s, c, from);
            Split(s[from..], c) == if r == |s| then [s[from..]] else [s[from..r]] + Split(s[r + 1..], c)
  {
    var r := Find(s, c, from);
    if r == |s| {
      FreeFrom(s, c, from);
      SplitFree(s[from..], c);
    } else {
      CutAt(s, c, from, r);
      SplitFirst(s[from..r], s[r + 1..], c);
    }
  }

  // ----- Joining -----

  function Join<E(==)>(texts: seq<seq<E>>, c: E): seq<E> {
    if texts == [] then [] else if |texts| == 1 then texts[0] else texts[0] + [c] + Join(texts[1..], c)
  }

  lemma {:induction false} JoinSnoc<E(!new)>(texts: seq<seq<E>>, last: seq<E>, c: E)
    ensures Join(texts + [last], c) == if texts == [] then last else Join(texts, c) + [c] + last
    decreases |texts|
  {
    if texts == [] {
      assert texts + [last] == [last];
    } else {
      assert (texts + [last])[0] == texts[0] && (texts + [last])[1..] == texts[1..] + [last];
      JoinSnoc(texts[1..], last, c);
      if |texts| > 1 {
        assert texts[0] + [c] + (Join(texts[1..], c) + [c] + last) == texts[0] + [c] + Join(texts[1..], c) + [c] + last;
      }
    }
  }

  lemma {:induction false} SplitJoin<E(!new)>(texts: seq<seq<E>>, c: E)
    requires texts != [] && forall i :: 0 <= i < |texts| ==> Free(texts[i], c)
    ensures Split(Join(texts, c), c) == texts
    decreases |texts|
  {
    SplitFree(texts[0], c);
    if |texts| > 1 {
      SplitJoin(texts[1..], c);
      SplitAppended(texts[0], Join(texts[1..], c), c);
    }
  }

  ghost predicate Avoids<E(!new)>(s: seq<E>, bad: E -> bool) {
    forall i :: 0 <= i < |s| ==> !bad(s[i])
  }

  lemma AvoidsBoth<E(!new)>(s: seq<E>, t: seq<E>, bad: E -> bool)
    requires Avoids(s, bad) && Avoids(t, bad)
    ensures Avoids(s + t, bad)
  {}

  lemma {:induction false} JoinAvoids<E(!new)>(texts: seq<seq<E>>, c: E, bad: E -> bool)
    requires !bad(c) && forall i :: 0 <= i < |texts| ==> Avoids(texts[i], bad)
    ensures Avoids(Join(texts, c), bad)
    decreases |texts|
  {
    if texts != [] {
      assert Avoids(texts[0], bad);
      JoinAvoids(texts[1..], c, bad);
    }
  }

  lemma {:induction false} JoinSize<E(!new)>(texts: seq<seq<E>>, c: E)
    requires texts != []
    ensures |Join(texts, c)| + 1 == TextsSize(texts)
    decreases |texts|
  {
    if |texts| > 1 {
      JoinSize(texts[1..], c);
    }
  }

  // ----- Collecting -----

  /** What one member gives: nothing usable, or maybe an item and whether the text is fine as it is. */
  datatype Member<T> = Broken | Read(item: Option<T>, clean: bool)

  datatype Parsed<T> = Threw | Parsed(items: seq<T>, valid: bool)

  function Items<T>(m: Member<T>): Parsed<T> {
    if m.Broken? then Threw else Parsed(if m.item.Some? then [m.item.value] else [], m.clean)
  }

  function Then<T>(a: Parsed<T>, b: Parsed<T>): Parsed<T> {
    if a.Threw? || b.Threw? then Threw else Parsed(a.items + b.items, a.valid && b.valid)
  }

  function RoomAfter<T>(m: Member<T>, room: nat): nat
    requires room > 0
  {
    if m.Read? && m.item.Some? then room - 1 else room
  }

  /** Parses members until they end or room items have been kept. */
  function Collect<E(==), T>(parse: seq<E> -> Member<T>, members: seq<seq<E>>, room: nat): Parsed<T> {
    if room == 0 || members == [] then Parsed([], true)
    else
      var m := parse(members[0]);
      Then(Items(m), Collect(parse, members[1..], RoomAfter(m, room)))
  }

  lemma {:induction false} CollectedFit<E(!new), T>(parse: seq<E> -> Member<T>, members: seq<seq<E>>, room: nat)
    ensures var r := Collect(parse, members, room); r.Parsed? ==> |r.items| <= room && |r.items| <= |members|
  {
    if room > 0 && members != [] {
      CollectedFit(parse, members[1..], RoomAfter(parse(members[0]), room));
    }
  }

  lemma ThenAssociative<T>(a: Parsed<T>, b: Parsed<T>, c: Parsed<T>)
    ensures Then(Then(a, b), c) == Then(a, Then(b, c))
  {
    if a.Parsed? && b.Parsed? && c.Parsed? {
      assert a.items + b.items + c.items == a.items + (b.items + c.items);
    }
  }

  lemma ThenNothing<T>(a: Parsed<T>)
    ensures Then(Parsed([], true), a) == a && Then(a, Parsed([], true)) == a
  {
    if a.Parsed? {
      assert [] + a.items == a.items && a.items + [] == a.items;
    }
  }

  lemma CollectFirst<E(!new), T>(parse: seq<E> -> Member<T>, first: seq<E>, rest: seq<seq<E>>, room: nat)
    requires room > 0
    ensures var m := parse(first);
            Collect(parse, [first] + rest, room) == Then(Items(m), Collect(parse, rest, RoomAfter(m, room)))
  {
    assert ([first] + rest)[1..] == rest;
  }

  lemma RoomSplit<T>(m: Member<T>, tail: Parsed<T>, room: nat)
    requires room > 0 && m.Read? && tail.Parsed? && |Then(Items(m), tail).items| < room
    ensures |tail.items| < RoomAfter(m, room) && RoomAfter(m, room) - |tail.items| == room - |Then(Items(m), tail).items|
  {}

  lemma {:induction false} CollectAppended<E(!new), T>(parse: seq<E> -> Member<T>, ms: seq<seq<E>>, ns: seq<seq<E>>, room: nat)
    requires var r := Collect(parse, ms, room); r.Parsed? && |r.items| < room
    ensures var r := Collect(parse, ms, room);
            Collect(parse, ms + ns, room) == Then(r, Collect(parse, ns, room - |r.items|))
    decreases |ms|
  {
    if ms == [] {
      assert ms + ns == ns;
      ThenNothing(Collect(parse, ns, room));
    } else {
      var m, rest := parse(ms[0]), ms[1..];
      var tail := Collect(parse, rest, RoomAfter(m, room));
      assert ms == [ms[0]] + rest && ms + ns == [ms[0]] + (rest + ns);
      CollectFirst(parse, ms[0], rest, room);
      CollectFirst(parse, ms[0], rest + ns, room);
      RoomSplit(m, tail, room);
      CollectAppended(parse, rest, ns, RoomAfter(m, room));
      ThenAssociative(Items(m), tail, Collect(parse, ns, RoomAfter(m, room) - |tail.items|));
    }
  }

  lemma CollectSingle<E(!new), T>(parse: seq<E> -> Member<T>, t: seq<E>, c: E, room: nat)
    requires room > 0 && Free(t, c)
    ensures Collect(parse, Split(t, c), room) == Items(parse(t))
  {
    SplitFree(t, c);
    var one := [t];
    assert one[1..] == [];
    ThenNothing(Items(parse(t)));
  }

  lemma CollectSplitAppended<E(!new), T>(parse: seq<E> -> Member<T>, a: seq<E>, b: seq<E>, c: E, room: nat)
    requires var r := Collect(parse, Split(a, c), room); r.Parsed? && |r.items| < room
    ensures var r := Collect(parse, Split(a, c), room);
            Collect(parse, Split(a + [c] + b, c), room) == Then(r, Collect(parse, Split(b, c), room - |r.items|))
  {
    SplitAppended(a, b, c);
    CollectAppended(parse, Split(a, c), Split(b, c), room);
  }

  /** One round of a loop that looks for the next separator from a position on. */
  lemma CollectFrom<E(!new), T>(parse: seq<E> -> Member<T>, s: seq<E>, c: E, from: nat, room: nat)
    requires from <= |s| && room > 0
    ensures var cut := Find(s, c, from);
            var m := parse(s[from..cut]);
            Collect(parse, Split(s[from..], c), room)
            == Then(Items(m), if cut == |s| then Parsed([], true) else Collect(parse, Split(s[cut + 1..], c), RoomAfter(m, room)))
  {
    SplitFrom(s, c, from);
    var cut := Find(s, c, from);
    if cut == |s| {
      var one := [s[from..]];
      assert one[1..] == [] && s[from..cut] == s[from..];
    } else {
      var rest := Split(s[cut + 1..], c);
      assert ([s[from..cut]] + rest)[1..] == rest;
    }
  }

  /** What a loop has still to collect from pos on; None when the end was reached. */
  function From<E(==), T>(parse: seq<E> -> Member<T>, s: seq<E>, c: E, pos: Option<nat>, room: nat): Parsed<T>
    requires pos.Some? ==> pos.value <= |s|
  {
    if pos.None? then Parsed([], true) else Collect(parse, Split(s[pos.value..], c), room)
  }

  function NextPos<E(==)>(s: seq<E>, cut: nat): Option<nat> {
    if cut == |s| then None else Some(cut + 1)
  }

  lemma FromRound<E(!new), T>(parse: seq<E> -> Member<T>, s: seq<E>, c: E, from: nat, room: nat)
    requires from <= |s| && room > 0
    ensures var cut := Find(s, c, from);
            var m := parse(s[from..cut]);
            From(parse, s, c, Some(from), room) == Then(Items(m), From(parse, s, c, NextPos(s, cut), RoomAfter(m, room)))
  {
    CollectFrom(parse, s, c, from, room);
  }

  /** The same round, behind what has been collected already. */
  lemma CollectRound<E(!new), T>(parse: seq<E> -> Member<T>, s: seq<E>, c: E, from: nat, room: nat, done: Parsed<T>)
    requires from <= |s| && room > 0
    ensures var cut := Find(s, c, from);
            var m := parse(s[from..cut]);
            Then(done, From(parse, s, c, Some(from), room))
            == Then(Then(done, Items(m)), From(parse, s, c, NextPos(s, cut), RoomAfter(m, room)))
  {
    var cut := Find(s, c, from);
    var m := parse(s[from..cut]);
    FromRound(parse, s, c, from, room);
    ThenAssociative(done, Items(m), From(parse, s, c, NextPos(s, cut), RoomAfter(m, room)));
  }

  /** Collecting without a limit. */
  function CollectAll<E(==), T>(parse: seq<E> -> Member<T>, members: seq<seq<E>>): Parsed<T> {
    if members == [] then Parsed([], true) else Then(Items(parse(members[0])), CollectAll(parse, members[1..]))
  }

  lemma CollectCons<E(!new), T>(parse: seq<E> -> Member<T>, first: seq<E>, rest: seq<seq<E>>)
    ensures CollectAll(parse, [first] + rest) == Then(Items(parse(first)), CollectAll(parse, rest))
  {
    assert ([first] + rest)[1..] == rest;
  }

  lemma CollectOne<E(!new), T>(parse: seq<E> -> Member<T>, one: seq<E>)
    ensures CollectAll(parse, [one]) == Items(parse(one))
  {
    assert [one] == [one] + [];
    CollectCons(parse, one, []);
    ThenNothing(Items(parse(one)));
  }

  lemma {:induction false} CollectAllIs<E(!new), T>(parse: seq<E> -> Member<T>, members: seq<seq<E>>, room: nat)
    requires room >= |members|
    ensures Collect(parse, members, room) == CollectAll(parse, members)
    decreases |members|
  {
    if members != [] {
      CollectAllIs(parse, members[1..], RoomAfter(parse(members[0]), room));
    }
  }

  function AllFrom<E(==), T>(parse: seq<E> -> Member<T>, s: seq<E>, c: E, pos: Option<nat>): Parsed<T>
    requires pos.Some? ==> pos.value <= |s|
  {
    if pos.None? then Parsed([], true) else CollectAll(parse, Split(s[pos.value..], c))
  }

  lemma AllFromRound<E(!new), T>(parse: seq<E> -> Member<T>, s: seq<E>, c: E, from: nat)
    requires from <= |s|
    ensures var cut := Find(s, c, from);
            AllFrom(parse, s, c, Some(from)) == Then(Items(parse(s[from..cut])), AllFrom(parse, s, c, NextPos(s, cut)))
  {
    var cut := Find(s, c, from);
    SplitFrom(s, c, from);
    if cut == |s| {
      var last := s[from..];
      assert s[from..cut] == last && Split(last, c) == [last];
      CollectOne(parse, last);
    } else {
      CollectCons(parse, s[from..cut], Split(s[cut + 1..], c));
    }
  }

  /** The same round with room for every member. */
  lemma CollectRoundAll<E(!new), T>(parse: seq<E> -> Member<T>, s: seq<E>, c: E, from: nat, done: Parsed<T>)
    requires from <= |s|
    ensures var cut := Find(s, c, from);
            Then(done, AllFrom(parse, s, c, Some(from)))
            == Then(Then(done, Items(parse(s[from..cut]))), AllFrom(parse, s, c, NextPos(s, cut)))
  {
    var cut := Find(s, c, from);
    AllFromRound(parse, s, c, from);
    ThenAssociative(done, Items(parse(s[from..cut])), AllFrom(parse, s, c, NextPos(s, cut)));
  }

  lemma CollectTwo<E(!new), T>(parse: seq<E> -> Member<T>, a: seq<E>, b: seq<E>, c: E, room: nat)
    requires room >= 2 && Free(a, c) && Free(b, c)
    ensures Collect(parse, Split(a + [c] + b, c), room) == Then(Items(parse(a)), Items(parse(b)))
  {
    SplitFree(a, c);
    SplitFree(b, c);
    SplitAppended(a, b, c);
    var two, one := [a, b], [b];
    assert Split(a + [c] + b, c) == two && two[1..] == one && one[1..] == [];
    ThenNothing(Items(parse(b)));
    var left := RoomAfter(parse(a), room);
    assert Collect(parse, one, left) == Then(Items(parse(b)), Parsed([], true));
  }

  /** A parser that reads nothing, cleanly, from the empty member only. */
  ghost predicate SkipsOnlyEmpty<E(!new), T(!new)>(parse: seq<E> -> Member<T>) {
    forall m: seq<E> :: parse(m) == Read(None, true) <==> m == []
  }

  lemma StartsWithSeparator<E(!new), T(!new)>(parse: seq<E> -> Member<T>, a: seq<E>, c: E, room: nat)
    requires a != [] && room > 0 && SkipsOnlyEmpty(parse) && Collect(parse, Split(a, c), room) == Parsed([], true)
    ensures a[0] == c && Collect(parse, Split(a[1..], c), room) == Parsed([], true)
  {
    var ms := Split(a, c);
    var m := parse(ms[0]);
    var tail := Collect(parse, ms[1..], RoomAfter(m, room));
    assert Then(Items(m), tail) == Parsed([], true);
    assert |Items(m).items| + |tail.items| == 0;
    assert ms[0] == [];
    ThenNothing(tail);
  }

  lemma SkipSeparator<E(!new), T(!new)>(parse: seq<E> -> Member<T>, rest: seq<E>, c: E, room: nat)
    requires room > 0 && SkipsOnlyEmpty(parse)
    ensures Collect(parse, Split([c] + rest, c), room) == Collect(parse, Split(rest, c), room)
  {
    var none: seq<E> := [];
    SplitFirst(none, rest, c);
    assert none + [c] + rest == [c] + rest;
    CollectFirst(parse, none, Split(rest, c), room);
    ThenNothing(Collect(parse, Split(rest, c), room));
  }

  lemma DropFirst<E>(a: seq<E>, b: seq<E>, whole: seq<E>, c: E)
    requires a != [] && a[0] == c && whole == a + b
    ensures whole[1..] == a[1..] + b && whole == [c] + whole[1..]
  {}

  /** A valid list without items is all separators, so text can follow it directly. */
  lemma {:induction false} CollectAfterSeparators<E(!new), T(!new)>(parse: seq<E> -> Member<T>, a: seq<E>, b: seq<E>, whole: seq<E>,
                                                                    c: E, room: nat)
    requires room > 0 && SkipsOnlyEmpty(parse) && Collect(parse, Split(a, c), room) == Parsed([], true) && whole == a + b
    ensures Collect(parse, Split(whole, c), room) == Collect(parse, Split(b, c), room)
    decreases |a|
  {
    if a == [] {
      assert whole == b;
    } else {
      StartsWithSeparator(parse, a, c, room);
      DropFirst(a, b, whole, c);
      SkipSeparator(parse, whole[1..], c, room);
      CollectAfterSeparators(parse, a[1..], b, whole[1..], c, room);
    }
  }

  /** One more member behind a valid list, with a separator if the list has items. */
  lemma CollectExtended<E(!new), T(!new)>(parse: seq<E> -> Member<T>, base: seq<E>, items: seq<T>, t: seq<E>, c: E, room: nat)
    requires SkipsOnlyEmpty(parse) && Collect(parse, Split(base, c), room) == Parsed(items, true)
    requires |items| < room && Free(t, c)
    ensures Collect(parse, Split(base + ((if |items| == 0 then [] else [c]) + t), c), room)
            == Then(Parsed(items, true), Items(parse(t)))
  {
    CollectSingle(parse, t, c, room - |items|);
    if |items| == 0 {
      assert [] + t == t;
      CollectAfterSeparators(parse, base, t, base + t, c, room);
      ThenNothing(Items(parse(t)));
    } else {
      assert base + ([c] + t) == base + [c] + t;
      CollectSplitAppended(parse, base, t, c, room);
    }
  }

  /** Members that give exactly these items, cleanly. */
  ghost predicate Gives<E(!new), T(!new)>(parse: seq<E> -> Member<T>, members: seq<seq<E>>, items: seq<T>) {
    |members| == |items| && forall i :: 0 <= i < |items| ==> parse(members[i]) == Read(Some(items[i]), true)
  }

  lemma {:induction false} CollectGives<E(!new), T(!new)>(parse: seq<E> -> Member<T>, members: seq<seq<E>>, items: seq<T>, room: nat)
    requires Gives(parse, members, items) && |items| <= room
    ensures Collect(parse, members, room) == Parsed(items, true)
    decreases |members|
  {
    if members != [] {
      assert parse(members[0]) == Read(Some(items[0]), true);
      CollectGives(parse, members[1..], items[1..], room - 1);
      assert [items[0]] + items[1..] == items;
    }
  }

  // ----- Sizes: each member and item counted with its separator -----

  function TextsSize<E(==)>(members: seq<seq<E>>): nat {
    if members == [] then 0 else |members[0]| + 1 + TextsSize(members[1..])
  }

  function Texts<E(==), T>(text: T -> seq<E>, items: seq<T>): (r: seq<seq<E>>)
    ensures |r| == |items| && forall i :: 0 <= i < |r| ==> r[i] == text(items[i])
  {
    seq(|items|, i requires 0 <= i < |items| => text(items[i]))
  }

  lemma TextsCons<E(!new), T>(text: T -> seq<E>, item: T, items: seq<T>)
    ensures Texts(text, [item] + items) == [text(item)] + Texts(text, items)
  {}

  lemma TextsSnoc<E(!new), T>(text: T -> seq<E>, items: seq<T>, item: T)
    ensures Texts(text, items + [item]) == Texts(text, items) + [text(item)]
  {}

  /** Printing one more item. */
  lemma JoinTextsSnoc<E(!new), T>(text: T -> seq<E>, items: seq<T>, i: nat, c: E)
    requires i < |items|
    ensures Join(Texts(text, items[..i + 1]), c)
            == if i == 0 then text(items[i]) else Join(Texts(text, items[..i]), c) + [c] + text(items[i])
  {
    assert items[..i + 1] == items[..i] + [items[i]];
    TextsSnoc(text, items[..i], items[i]);
    JoinSnoc(Texts(text, items[..i]), text(items[i]), c);
  }

  lemma {:induction false} SplitSize<E(!new)>(s: seq<E>, c: E)
    ensures TextsSize(Split(s, c)) == |s| + 1
    decreases |s|
  {
    var cut := Find(s, c, 0);
    if cut < |s| {
      SplitSize(s[cut + 1..], c);
    }
  }

  /** A parser whose items are good and no longer than the member they came from. */
  ghost predicate Yields<E(!new), T(!new)>(parse: seq<E> -> Member<T>, good: T -> bool, text: T -> seq<E>) {
    forall m: seq<E> :: parse(m).Read? && parse(m).item.Some? ==>
      good(parse(m).item.value) && |text(parse(m).item.value)| <= |m|
  }

  lemma {:induction false} CollectedGood<E(!new), T(!new)>(parse: seq<E> -> Member<T>, good: T -> bool, text: T -> seq<E>,
                                                  members: seq<seq<E>>, room: nat)
    requires Yields(parse, good, text)
    ensures var r := Collect(parse, members, room);
            r.Parsed? ==> (forall i :: 0 <= i < |r.items| ==> good(r.items[i])) && TextsSize(Texts(text, r.items)) <= TextsSize(members)
  {
    if room > 0 && members != [] {
      var m := parse(members[0]);
      var tail := Collect(parse, members[1..], RoomAfter(m, room));
      CollectedGood(parse, good, text, members[1..], RoomAfter(m, room));
      if m.Read? && tail.Parsed? {
        if m.item.Some? {
          TextsCons(text, m.item.value, tail.items);
        } else {
          ThenNothing(tail);
          assert [] + tail.items == tail.items;
        }
      }
    }
  }
}
