/**
 * Base64 in both alphabets, with and without padding (sections 4 and 5 of RFC 4648): encoding as a
 * regrouping of octets into values of six bits, and decoding as its inverse.
 */
module Base64 {
  import opened Prelude

  /** A 6-bit group. */
  type sextet = v: int | 0 <= v < 64

  /** The octets regrouped into 6-bit values; missing low bits of the last group are zero. */
  function Regroup(data: seq<byte>): seq<sextet> {
    if |data| == 0 then []
    else if |data| == 1 then [data[0] / 4, data[0] % 4 * 16]
    else if |data| == 2 then [data[0] / 4, data[0] % 4 * 16 + data[1] / 16, data[1] % 16 * 4]
    else
      [data[0] / 4, data[0] % 4 * 16 + data[1] / 16, data[1] % 16 * 4 + data[2] / 64, data[2] % 64]
      + Regroup(data[3..])
  }

  /** The three octets of a group, each from two neighbouring 6-bit values. */
  function First(a: int, b: int): byte
    requires 0 <= a < 64 && 0 <= b < 64
  {
    a * 4 + b / 16
  }

  function Second(b: int, c: int): byte
    requires 0 <= b < 64 && 0 <= c < 64
  {
    b % 16 * 16 + c / 4
  }

  function Third(c: int, d: int): byte
    requires 0 <= c < 64 && 0 <= d < 64
  {
    c % 4 * 64 + d
  }

  /** The octets carried by 6-bit values. */
  function Octets(vs: seq<sextet>): Option<seq<byte>> {
    if |vs| == 0 then Some([])
    else if |vs| == 1 then None
    else if |vs| == 2 then Some([First(vs[0], vs[1])])
    else if |vs| == 3 then Some([First(vs[0], vs[1]), Second(vs[1], vs[2])])
    else
      var rest := Octets(vs[4..]);
      if rest.None? then None
      else Some([First(vs[0], vs[1]), Second(vs[1], vs[2]), Third(vs[2], vs[3])] + rest.value)
  }

  /** The character for a 6-bit value; `url` selects the URL-safe alphabet. */
  function Symbol(url: bool, v: sextet): char {
    if v < 26 then ('A' as int + v) as char
    else if v < 52 then ('a' as int + v - 26) as char
    else if v < 62 then ('0' as int + v - 52) as char
    else if v == 62 then (if url then '-' else '+')
    else (if url then '_' else '/')
  }

  function Value(url: bool, c: char): Option<sextet> {
    if 'A' <= c <= 'Z' then Some(c as int - 'A' as int)
    else if 'a' <= c <= 'z' then Some(c as int - 'a' as int + 26)
    else if '0' <= c <= '9' then Some(c as int - '0' as int + 52)
    else if c == (if url then '-' else '+') then Some(62)
    else if c == (if url then '_' else '/') then Some(63)
    else None
  }

  function Symbols(url: bool, vs: seq<sextet>): string {
    seq(|vs|, i requires 0 <= i < |vs| => Symbol(url, vs[i]))
  }

  /** Unpadded base64 text. */
  function Unpadded(url: bool, data: seq<byte>): string {
    Symbols(url, Regroup(data))
  }

  /** Padded base64 text. */
  function Encode(url: bool, data: seq<byte>): string {
    Unpadded(url, data) + if |data| % 3 == 1 then "==" else if |data| % 3 == 2 then "=" else ""
  }

  /** Python's `rstrip("=")`. */
  function StripPadding(text: string): string {
    if text != "" && text[|text| - 1] == '=' then StripPadding(text[..|text| - 1]) else text
  }

  /** Strict decoding: whole groups of four, at most two padding characters at the end. */
  function Decode(url: bool, text: string): Option<seq<byte>> {
    var body := StripPadding(text);
    if |text| % 4 != 0 || |text| - |body| > 2 then None
    else if exists i | 0 <= i < |body| :: Value(url, body[i]).None? then None
    else Octets(Values(url, body))
  }

  predicate InAlphabet(url: bool, c: char) {
    || 'A' <= c <= 'Z' || 'a' <= c <= 'z' || '0' <= c <= '9'
    || (url && (c == '-' || c == '_')) || (!url && (c == '+' || c == '/'))
  }

  /** The text is of the alphabet but for padding at its end. */
  predicate PaddedBy(url: bool, text: string, pad: nat) {
    && pad <= |text| && (forall i | 0 <= i < |text| - pad :: InAlphabet(url, text[i]))
    && forall i | |text| - pad <= i < |text| :: text[i] == '='
  }

  lemma {:induction false} StripsPadding(url: bool, text: string, pad: nat)
    requires PaddedBy(url, text, pad)
    ensures StripPadding(text) == text[..|text| - pad]
  {
    if pad > 0 {
      var init := text[..|text| - 1];
      StripsPadding(url, init, pad - 1);
      assert init[..|init| - (pad - 1)] == text[..|text| - pad];
    } else {
      assert text[..|text|] == text;
    }
  }

  lemma {:induction false} StrippedIsPrefix(text: string)
    ensures |StripPadding(text)| <= |text| && StripPadding(text) == text[..|StripPadding(text)|]
    ensures forall i | |StripPadding(text)| <= i < |text| :: text[i] == '='
  {
    if text != "" && text[|text| - 1] == '=' {
      StrippedIsPrefix(text[..|text| - 1]);
    }
  }

  lemma {:induction false} OctetsSucceed(vs: seq<sextet>)
    ensures Octets(vs).Some? <==> |vs| % 4 != 1
  {
    if |vs| >= 4 {
      OctetsSucceed(vs[4..]);
    }
  }

  lemma AlphabetHasValues(url: bool, c: char)
    ensures Value(url, c).Some? <==> InAlphabet(url, c)
  {
  }

  /** Exactly whole groups of four characters of the alphabet, with up to two padding characters at the end, are decoded. */
  lemma DecodesExactly(url: bool, text: string)
    ensures Decode(url, text).Some? <==> |text| % 4 == 0 && exists pad: nat | pad <= 2 :: PaddedBy(url, text, pad)
  {
    var body := StripPadding(text);
    StrippedIsPrefix(text);
    forall c: char
      ensures Value(url, c).Some? <==> InAlphabet(url, c)
    {
      AlphabetHasValues(url, c);
    }
    if Decode(url, text).Some? {
      assert PaddedBy(url, text, |text| - |body|);
    }
    if |text| % 4 == 0 && exists pad: nat | pad <= 2 :: PaddedBy(url, text, pad) {
      var pad: nat :| pad <= 2 && PaddedBy(url, text, pad);
      StripsPadding(url, text, pad);
      OctetsSucceed(Values(url, body));
    }
  }

  function Values(url: bool, text: string): (vs: seq<sextet>)
    requires forall i | 0 <= i < |text| :: Value(url, text[i]).Some?
  {
    seq(|text|, i requires 0 <= i < |text| => Value(url, text[i]).value)
  }

  lemma ValueInvertsSymbol(url: bool, v: sextet)
    ensures Value(url, Symbol(url, v)) == Some(v)
    ensures Symbol(url, v) != '='
    ensures url ==> IsUrlSafe(Symbol(url, v))
  {
  }

  lemma FieldsRejoin(a: byte, b: byte, c: byte)
    ensures First(a / 4, a % 4 * 16 + b / 16) == a
    ensures Second(a % 4 * 16 + b / 16, b % 16 * 4 + c / 64) == b
    ensures Third(b % 16 * 4 + c / 64, c % 64) == c
  {
  }

  lemma OctetsOfGroup(a: sextet, b: sextet, c: sextet, d: sextet, rest: seq<sextet>)
    requires Octets(rest).Some?
    ensures Octets([a, b, c, d] + rest)
         == Some([First(a, b), Second(b, c), Third(c, d)] + Octets(rest).value)
  {
    assert ([a, b, c, d] + rest)[4..] == rest;
  }

  lemma OctetsOfOne(a: byte)
    ensures Octets(Regroup([a])) == Some([a])
  {
    FieldsRejoin(a, 0, 0);
    OctetsOfPair(a / 4, a % 4 * 16, 0);
  }

  lemma OctetsOfTwo(a: byte, b: byte)
    ensures Octets(Regroup([a, b])) == Some([a, b])
  {
    var x: sextet, y: sextet, z: sextet := a / 4, a % 4 * 16 + b / 16, b % 16 * 4;
    assert Regroup([a, b]) == [x, y, z];
    TwoRejoin(a, b);
    OctetsOfPair(x, y, z);
  }

  lemma TwoRejoin(a: byte, b: byte)
    ensures First(a / 4, a % 4 * 16 + b / 16) == a
    ensures Second(a % 4 * 16 + b / 16, b % 16 * 4) == b
  {
    FieldsRejoin(a, b, 0);
  }

  lemma OctetsOfPair(a: sextet, b: sextet, c: sextet)
    ensures Octets([a, b]) == Some([First(a, b)])
    ensures Octets([a, b, c]) == Some([First(a, b), Second(b, c)])
  {
  }

  lemma RegroupOfGroup(a: byte, b: byte, c: byte, rest: seq<byte>)
    ensures Regroup([a, b, c] + rest)
         == [a / 4, a % 4 * 16 + b / 16, b % 16 * 4 + c / 64, c % 64] + Regroup(rest)
  {
    assert ([a, b, c] + rest)[3..] == rest;
  }

  lemma {:induction false} OctetsInvertRegroup(data: seq<byte>)
    ensures Octets(Regroup(data)) == Some(data)
  {
    if |data| >= 3 {
      var a, b, c := data[0], data[1], data[2];
      assert data == [a, b, c] + data[3..];
      OctetsInvertRegroup(data[3..]);
      RegroupOfGroup(a, b, c, data[3..]);
      FieldsRejoin(a, b, c);
      OctetsOfGroup(a / 4, a % 4 * 16 + b / 16, b % 16 * 4 + c / 64, c % 64, Regroup(data[3..]));
    } else if |data| > 0 {
      assert data == if |data| == 1 then [data[0]] else [data[0], data[1]];
      OctetsOfOne(data[0]);
      OctetsOfTwo(data[0], data[|data| - 1]);
    }
  }

  lemma {:induction false} RegroupLength(data: seq<byte>)
    ensures |Regroup(data)| == (4 * |data| + 2) / 3
  {
    if |data| >= 3 {
      RegroupLength(data[3..]);
    }
  }

  lemma {:induction false} StripPaddingStops(head: string, padding: string)
    requires head == "" || head[|head| - 1] != '='
    requires forall i | 0 <= i < |padding| :: padding[i] == '='
    ensures StripPadding(head + padding) == head
  {
    if padding == "" {
      assert head + padding == head;
    } else {
      assert (head + padding)[..|head + padding| - 1] == head + padding[..|padding| - 1];
      StripPaddingStops(head, padding[..|padding| - 1]);
    }
  }

  lemma SymbolsAreValues(url: bool, vs: seq<sextet>)
    ensures forall i | 0 <= i < |vs| :: Value(url, Symbols(url, vs)[i]) == Some(vs[i])
    ensures forall i | 0 <= i < |vs| :: Symbols(url, vs)[i] != '='
    ensures url ==> AllUrlSafe(Symbols(url, vs))
  {
    forall i | 0 <= i < |vs|
      ensures Value(url, Symbols(url, vs)[i]) == Some(vs[i])
      ensures Symbols(url, vs)[i] != '='
      ensures url ==> IsUrlSafe(Symbols(url, vs)[i])
    {
      ValueInvertsSymbol(url, vs[i]);
    }
  }

  lemma UnpaddedIsStripped(url: bool, data: seq<byte>)
    ensures StripPadding(Encode(url, data)) == Unpadded(url, data)
  {
    SymbolsAreValues(url, Regroup(data));
    StripPaddingStops(Unpadded(url, data),
                      if |data| % 3 == 1 then "==" else if |data| % 3 == 2 then "=" else "");
  }

  lemma WholeGroups(url: bool, data: seq<byte>)
    ensures |Encode(url, data)| % 4 == 0
    ensures |Encode(url, data)| - |Unpadded(url, data)| <= 2
  {
    EncodedLength(url, data);
  }

  lemma RoundTrip(url: bool, data: seq<byte>)
    ensures Decode(url, Encode(url, data)) == Some(data)
  {
    var body := Unpadded(url, data);
    UnpaddedIsStripped(url, data);
    SymbolsAreValues(url, Regroup(data));
    WholeGroups(url, data);
    OctetsInvertRegroup(data);
    assert forall i | 0 <= i < |body| :: Value(url, body[i]).Some?;
    assert Values(url, body) == Regroup(data);
  }

  lemma EncodedLength(url: bool, data: seq<byte>)
    ensures |Encode(url, data)| == (|data| + 2) / 3 * 4
  {
    RegroupLength(data);
    PaddedLength(|data|);
  }

  lemma PaddedLength(n: nat)
    ensures (4 * n + 2) / 3 + (if n % 3 == 1 then 2 else if n % 3 == 2 then 1 else 0) == (n + 2) / 3 * 4
  {
  }

  /** Unpadded base64url text has four characters for three octets and only URL-safe characters. */
  lemma UnpaddedShape(data: seq<byte>)
    ensures |Unpadded(true, data)| == (4 * |data| + 2) / 3
    ensures AllUrlSafe(Unpadded(true, data))
  {
    RegroupLength(data);
    SymbolsAreValues(true, Regroup(data));
  }
}
