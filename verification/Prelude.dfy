/** Datatypes and text helpers shared by the models. */
module Prelude {

  datatype Option<+T> = None | Some(value: T)

  /** A Python or TypeScript operation that returns a value or raises an error with a code. */
  datatype Result<+T> = Ok(value: T) | Err(code: string)

  /** An octet. */
  type byte = b: int | 0 <= b < 256

  /** All characters of `s` lie in `[0-9a-f]`. */
  predicate IsHex(s: string) {
    forall i | 0 <= i < |s| :: '0' <= s[i] <= '9' || 'a' <= s[i] <= 'f'
  }

  predicate IsDigit(c: char) {
    '0' <= c <= '9'
  }

  /** The characters of base64url, `[A-Za-z0-9_-]`. */
  predicate IsUrlSafe(c: char) {
    'A' <= c <= 'Z' || 'a' <= c <= 'z' || '0' <= c <= '9' || c == '_' || c == '-'
  }

  predicate AllUrlSafe(s: string) {
    forall i | 0 <= i < |s| :: IsUrlSafe(s[i])
  }

  lemma SplitLast<T>(s: seq<T>)
    requires s != []
    ensures s == s[..|s| - 1] + [s[|s| - 1]]
  {
  }
}
