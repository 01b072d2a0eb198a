/** Percent-encoding (section 2.1 of RFC 3986) as UrlEncode and UrlDecode do it. */
module UrlCodec {
  import opened Wrappers

  /** A byte of a string. */
  newtype Octet = x: int | 0 <= x < 256

  const PERCENT: Octet := 37
  const PLUS: Octet := 43
  const SPACE: Octet := 32

  predicate Between(c: Octet, low: char, high: char) {
    low as int <= c as int <= high as int
  }

  predicate Is(c: Octet, symbol: char) {
    c as int == symbol as int
  }

  type Text = seq<Octet>

  /** isalnum in the C locale, and the marks left as they are. */
  predicate Kept(c: Octet) {
    || Between(c, 'a', 'z') || Between(c, 'A', 'Z') || Between(c, '0', '9')
    || Is(c, '-') || Is(c, '_') || Is(c, '.') || Is(c, '!') || Is(c, '~') || Is(c, '*') || Is(c, '(') || Is(c, ')') || Is(c, '\'')
  }

  function HexDigit(n: nat): Octet
    requires n < 16
  {
    if n > 9 then ('A' as int + n - 10) as Octet else ('0' as int + n) as Octet
  }

  function HexValue(c: Octet): Option<nat> {
    if Between(c, '0', '9') then Some(c as int - '0' as int)
    else if Between(c, 'a', 'f') then Some(c as int - 'a' as int + 10)
    else if Between(c, 'A', 'F') then Some(c as int - 'A' as int + 10)
    else None
  }

  function EncodeSymbol(c: Octet): Text {
    if Kept(c) then [c] else [PERCENT, HexDigit(c as int / 16), HexDigit(c as int % 16)]
  }

  function UrlEncode(s: Text): Text {
    if s == [] then [] else EncodeSymbol(s[0]) + UrlEncode(s[1..])
  }

  /** What the front of s decodes to and how many characters that takes; None for a broken escape. */
  function DecodeSymbol(s: Text): (r: Option<(Octet, nat)>)
    requires s != []
    ensures r.Some? ==> 1 <= r.value.1 <= |s|
  {
    if s[0] == PERCENT then
      if |s| < 3 || HexValue(s[1]).None? || HexValue(s[2]).None? then None
      else Some(((HexValue(s[1]).value * 16 + HexValue(s[2]).value) as Octet, 3))
    else if s[0] == PLUS then Some((SPACE, 1))
    else Some((s[0], 1))
  }

  /** None where UrlDecode throws. */
  function UrlDecode(s: Text): Option<Text> {
    if s == [] then Some([])
    else
      var first := DecodeSymbol(s);
      if first.None? then None
      else
        Prepend([first.value.0], UrlDecode(s[first.value.1..]))
  }

  // ----- The loops -----

  method UrlEncodeTo(input: Text, start: Text) returns (result: Text)
    ensures result == start + UrlEncode(input)
  {
    result := start;
    for i := 0 to |input|
      invariant result + UrlEncode(input[i..]) == start + UrlEncode(input)
    {
      assert input[i..][1..] == input[i + 1..];
      result := result + EncodeSymbol(input[i]);
    }
  }

  function Prepend(out: Text, rest: Option<Text>): Option<Text> {
    if rest.None? then None else Some(out + rest.value)
  }

  lemma PrependMore(out: Text, c: Octet, rest: Option<Text>)
    ensures Prepend(out + [c], rest) == Prepend(out, Prepend([c], rest)) && Prepend([], rest) == rest
  {
    if rest.Some? {
      assert out + [c] + rest.value == out + ([c] + rest.value) && [] + rest.value == rest.value;
    }
  }

  method Decode(url: Text) returns (res: Option<Text>)
    ensures res == UrlDecode(url)
  {
    var out: Text := [];
    var at := 0;
    PrependMore([], SPACE, UrlDecode(url));
    assert url[0..] == url;
    while at < |url|
      invariant at <= |url|
      invariant UrlDecode(url) == Prepend(out, UrlDecode(url[at..]))
    {
      var symbol := DecodeSymbol(url[at..]);
      if symbol.None? { return None; }
      assert url[at..][symbol.value.1..] == url[at + symbol.value.1..];
      PrependMore(out, symbol.value.0, UrlDecode(url[at + symbol.value.1..]));
      out := out + [symbol.value.0];
      at := at + symbol.value.1;
    }
    assert out + [] == out;
    return Some(out);
  }

  // ----- Round trip -----

  lemma DecodeEncodedSymbol(c: Octet, rest: Text)
    ensures DecodeSymbol(EncodeSymbol(c) + rest) == Some((c, |EncodeSymbol(c)|))
  {}

  lemma {:induction false} DecodeUndoesEncode(s: Text)
    ensures UrlDecode(UrlEncode(s)) == Some(s)
  {
    if s != [] {
      var head, tail := EncodeSymbol(s[0]), UrlEncode(s[1..]);
      DecodeEncodedSymbol(s[0], tail);
      assert (head + tail)[|head|..] == tail;
      DecodeUndoesEncode(s[1..]);
      assert [s[0]] + s[1..] == s;
    }
  }

  /** Encoded text holds kept symbols and escapes only, and is empty only for the empty text. */
  lemma {:induction false} EncodedIsPlain(s: Text)
    ensures forall i :: 0 <= i < |UrlEncode(s)| ==> Kept(UrlEncode(s)[i]) || UrlEncode(s)[i] == PERCENT
    ensures UrlEncode(s) == [] <==> s == []
  {
    if s != [] {
      EncodedIsPlain(s[1..]);
    }
  }

  /** Different texts have different encodings. */
  lemma EncodeInjective(s: Text, t: Text)
    requires UrlEncode(s) == UrlEncode(t)
    ensures s == t
  {
    DecodeUndoesEncode(s);
    DecodeUndoesEncode(t);
  }

  // ----- Symbol by symbol -----

  /** Letters, digits and marks. */
  predicate Unreserved(c: char) {
    c in {
      'a', 'b', 'c', 'd', 'e', 'f', 'g', 'h', 'i', 'j', 'k', 'l', 'm', 'n', 'o', 'p', 'q', 'r', 's', 't', 'u', 'v', 'w', 'x',
      'y', 'z', 'A', 'B', 'C', 'D', 'E', 'F', 'G', 'H', 'I', 'J', 'K', 'L', 'M', 'N', 'O', 'P', 'Q', 'R', 'S', 'T', 'U', 'V',
      'W', 'X', 'Y', 'Z', '0', '1', '2', '3', '4', '5', '6', '7', '8', '9', '-', '_', '.', '!', '~', '*', '(', ')', '\''
    }
  }

  const HEX_DIGITS: string := "0123456789ABCDEF"

  /** Those stay, any other byte becomes an escape with two capital hex digits. */
  lemma EncodesExactly(c: Octet)
    ensures UrlEncode([c])
            == if Unreserved((c as int) as char) then [c]
               else [PERCENT, (HEX_DIGITS[c as int / 16] as int) as Octet, (HEX_DIGITS[c as int % 16] as int) as Octet]
  {
    assert [c][1..] == [];
    HexDigitIs(c as int / 16);
    HexDigitIs(c as int % 16);
    KeptIff(c);
  }

  lemma HexDigitIs(n: nat)
    requires n < 16
    ensures HexDigit(n) as int == HEX_DIGITS[n] as int
  {}

  lemma KeptIff(c: Octet)
    ensures Kept(c) <==> Unreserved((c as int) as char)
  {}

  /** A hex digit of value n, in either case. */
  predicate Hex(c: Octet, n: nat) {
    n < 16 && (Is(c, "0123456789abcdef"[n]) || Is(c, HEX_DIGITS[n]))
  }

  predicate AnyHex(c: Octet) {
    (c as int) as char in {'0', '1', '2', '3', '4', '5', '6', '7', '8', '9', 'a', 'b', 'c', 'd', 'e', 'f', 'A', 'B', 'C', 'D', 'E', 'F'}
  }

  predicate GoodEscape(s: Text, i: nat)
    requires i < |s|
  {
    i + 2 < |s| && AnyHex(s[i + 1]) && AnyHex(s[i + 2])
  }

  lemma HexValueIs(c: Octet, n: nat)
    requires n < 16
    ensures HexValue(c) == Some(n) <==> Hex(c, n)
  {}

  /** An escape is the byte of its two digits, in either case; plus is a space; anything else is itself. */
  lemma DecodesSymbol(c: Octet, hi: nat, lo: nat, a: Octet, b: Octet, rest: Text)
    requires Hex(a, hi) && Hex(b, lo)
    ensures UrlDecode([PERCENT, a, b] + rest) == Prepend([(hi * 16 + lo) as Octet], UrlDecode(rest))
    ensures c != PERCENT ==> UrlDecode([c] + rest) == Prepend([if c == PLUS then SPACE else c], UrlDecode(rest))
  {
    HexValueIs(a, hi);
    HexValueIs(b, lo);
    assert ([PERCENT, a, b] + rest)[3..] == rest && ([c] + rest)[1..] == rest;
  }

  /** Decoding fails exactly if some percent sign does not start an escape. */
  lemma {:induction false} DecodeFailsIff(s: Text)
    ensures UrlDecode(s).None? <==> exists i :: 0 <= i < |s| && BadEscape(s, i)
    decreases |s|
  {
    if s != [] {
      FirstEscape(s);
      if DecodeSymbol(s).Some? {
        var k := DecodeSymbol(s).value.1;
        DecodeFailsIff(s[k..]);
        BadEscapesBehind(s, k);
      }
    }
  }

  predicate BadEscape(s: Text, i: nat)
    requires i < |s|
  {
    s[i] == PERCENT && !GoodEscape(s, i)
  }

  lemma FirstEscape(s: Text)
    requires s != []
    ensures DecodeSymbol(s).None? <==> BadEscape(s, 0)
    ensures DecodeSymbol(s).Some? ==> forall i :: 0 <= i < DecodeSymbol(s).value.1 ==> !BadEscape(s, i)
  {
    if s[0] == PERCENT && |s| >= 3 {
      HexIff(s[1]);
      HexIff(s[2]);
    }
  }

  lemma HexIff(c: Octet)
    ensures HexValue(c).Some? <==> AnyHex(c)
    ensures AnyHex(c) ==> c != PERCENT
  {}

  lemma BadEscapesBehind(s: Text, k: nat)
    requires k <= |s| && forall i :: 0 <= i < k ==> !BadEscape(s, i)
    ensures (exists i :: 0 <= i < |s| && BadEscape(s, i)) <==> (exists i :: 0 <= i < |s[k..]| && BadEscape(s[k..], i))
  {
    forall i | 0 <= i < |s| - k ensures BadEscape(s[k..], i) == BadEscape(s, k + i) {}
    if i :| 0 <= i < |s| && BadEscape(s, i) {
      assert BadEscape(s[k..], i - k);
    }
    if i :| 0 <= i < |s[k..]| && BadEscape(s[k..], i) {
      assert BadEscape(s, k + i);
    }
  }
}
