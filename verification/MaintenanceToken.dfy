/** The text of tokens and nonces, and both derivations of a successor. */
module MaintenanceToken {
  import opened Prelude
  import opened Base64

  /** The client's token pattern: `octm_[0-9a-f-]{36}_[A-Za-z0-9_-]{43}`. */
  predicate TokenShape(text: string) {
    && |text| == 85
    && text[..5] == "octm_"
    && (forall i | 5 <= i < 41 :: '0' <= text[i] <= '9' || 'a' <= text[i] <= 'f' || text[i] == '-')
    && text[41] == '_'
    && AllUrlSafe(text[42..])
  }

  /** `[A-Za-z0-9_-]{32,128}`, required of a nonce by the client and by the server. */
  predicate NonceShape(nonce: string) {
    32 <= |nonce| <= 128 && AllUrlSafe(nonce)
  }

  predicate IsIdPart(c: char) {
    '0' <= c <= '9' || 'a' <= c <= 'f' || c == '-'
  }

  predicate IsSecretPart(c: char) {
    'A' <= c <= 'Z' || 'a' <= c <= 'z' || '0' <= c <= '9' || c == '_' || c == '-'
  }

  /** The text is put together from the prefix, an identifier and a secret. */
  predicate Composed(text: string, id: string, secret: string) {
    && text == "octm_" + id + "_" + secret && |id| == 36 && |secret| == 43
    && (forall i | 0 <= i < |id| :: IsIdPart(id[i])) && (forall i | 0 <= i < |secret| :: IsSecretPart(secret[i]))
  }

  lemma TokensAreComposed(text: string)
    ensures TokenShape(text) <==> exists id, secret :: Composed(text, id, secret)
  {
    if TokenShape(text) {
      var id, secret := text[5..41], text[42..];
      assert text == text[..5] + id + [text[41]] + secret;
      assert Composed(text, id, secret);
    }
    if exists id, secret :: Composed(text, id, secret) {
      var id, secret :| Composed(text, id, secret);
      ComposedHasShape(text, id, secret);
    }
  }

  lemma ComposedHasShape(text: string, id: string, secret: string)
    requires Composed(text, id, secret)
    ensures TokenShape(text)
  {
    assert text[..5] == "octm_" && text[42..] == secret;
    assert forall i | 5 <= i < 41 :: text[i] == id[i - 5];
  }

  lemma NoncesExactly(nonce: string)
    ensures NonceShape(nonce) <==> 31 < |nonce| < 129 && forall i | 0 <= i < |nonce| :: IsSecretPart(nonce[i])
  {
  }

  /** The client's candidate: the first 42 characters of its token, then the unpadded digest. */
  function Candidate(token: string, digest: seq<byte>): string
    requires |token| >= 42
  {
    token[..42] + StripPadding(Encode(true, digest))
  }

  /** The grant identifier that the server's pattern captures from a token. */
  function GrantId(token: string): string
    requires TokenShape(token)
  {
    token[5..41]
  }

  /** The server's replacement: prefix, grant identifier and unpadded digest put together anew. */
  function Replacement(id: string, digest: seq<byte>): string {
    "octm_" + id + "_" + Unpadded(true, digest)
  }

  /**
   * The client and the server compute the same successor text from one digest, so the client can
   * probe for a rotation whose reply was lost; the text is a token of the same grant.
   */
  lemma CandidateIsReplacement(token: string, digest: seq<byte>)
    requires TokenShape(token) && |digest| == 32
    ensures Candidate(token, digest) == Replacement(GrantId(token), digest)
    ensures TokenShape(Candidate(token, digest))
    ensures GrantId(Candidate(token, digest)) == GrantId(token)
  {
    UnpaddedIsStripped(true, digest);
    UnpaddedShape(digest);
    var text := Candidate(token, digest);
    assert text[42..] == Unpadded(true, digest);
    assert text[..5] == token[..5];
    assert forall i | 0 <= i < 42 :: text[i] == token[i];
    assert text[5..41] == token[5..41];
    assert token[..42] == "octm_" + GrantId(token) + "_";
  }

  /** Different digests give different successors. */
  lemma CandidateDeterminesDigest(token: string, digest: seq<byte>, other: seq<byte>)
    requires TokenShape(token) && |digest| == |other| == 32
    requires Candidate(token, digest) == Candidate(token, other)
    ensures digest == other
  {
    UnpaddedIsStripped(true, digest);
    UnpaddedIsStripped(true, other);
    assert Candidate(token, digest)[42..] == Unpadded(true, digest);
    assert Candidate(token, other)[42..] == Unpadded(true, other);
    RoundTrip(true, digest);
    RoundTrip(true, other);
  }

  /** `secrets.token_urlsafe(32)` yields a nonce that both sides accept. */
  lemma FreshNonceAccepted(entropy: seq<byte>)
    requires |entropy| == 32
    ensures NonceShape(StripPadding(Encode(true, entropy)))
  {
    UnpaddedIsStripped(true, entropy);
    UnpaddedShape(entropy);
  }
}
