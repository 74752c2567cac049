/**
 * The length of a text in the ASCII form in which Python's json.dumps writes it by default: control
 * characters, quotes, backslashes and everything beyond ASCII are escaped (section 7 of RFC 8259), a
 * character beyond the basic plane as two surrogates.
 */
module JsonText {

  /** The two-character escapes. */
  predicate HasShortEscape(c: char) {
    c in {'"', '\\', '\U{0008}', '\t', '\n', '\U{000C}', '\r'}
  }

  function JsonLength(c: char): nat {
    if HasShortEscape(c) then 2 else if ' ' <= c <= '~' then 1 else if c < '\U{10000}' then 6 else 12
  }

  /** One character as it is, two for a short escape, six for a code of four digits, twelve for a pair of them. */
  lemma JsonLengthExactly(c: char)
    ensures var code := c as int;
            JsonLength(c) ==
            if code == 8 || code == 9 || code == 10 || code == 12 || code == 13 || code == 34 || code == 92 then 2
            else if 32 <= code <= 126 then 1
            else if code <= 65535 then 6 else 12
  {
  }

  /** The length of the text between its quotes. */
  function JsonSize(text: string): nat {
    if text == "" then 0 else JsonLength(text[0]) + JsonSize(text[1..])
  }

  /** Printable ASCII without quotes and backslashes. */
  predicate Unescaped(text: string) {
    forall i | 0 <= i < |text| :: ' ' <= text[i] <= '~' && text[i] != '"' && text[i] != '\\'
  }

  /** No text gets shorter, and only those without escapes keep their length. */
  lemma {:induction false} UnescapedKeepsLength(text: string)
    ensures |text| <= JsonSize(text) <= 12 * |text|
    ensures JsonSize(text) == |text| <==> Unescaped(text)
  {
    if text != "" {
      UnescapedKeepsLength(text[1..]);
      assert Unescaped(text) <==> JsonLength(text[0]) == 1 && Unescaped(text[1..]);
    }
  }

  predicate Repeats(text: string, c: char) {
    forall i | 0 <= i < |text| :: text[i] == c
  }

  lemma {:induction false} RepeatedSize(text: string, c: char)
    requires Repeats(text, c)
    ensures JsonSize(text) == |text| * JsonLength(c)
  {
    if text != "" {
      RepeatedSize(text[1..], c);
    }
  }
}
