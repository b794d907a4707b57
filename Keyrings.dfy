/**
 * `Keyring`: HMAC-SHA256 signing of a token's canonical bytes, with the digest
 * carried as base64 text. The MAC itself is a parameter of the keyring and is
 * left uninterpreted, so every security statement here is relative to it:
 * a forged or tampered token verifies only through a MAC collision.
 */
module Keyrings {
  import opened Wrappers
  import opened Text
  import opened Tokens
  import opened Base64

  /** An HMAC-SHA256 digest: 32 bytes. */
  type Digest = bs: seq<byte> | |bs| == 32 witness seq(32, _ => 0)

  /** The secret and `HMAC-SHA256(secret, message)`. */
  datatype Keyring = Keyring(secret: seq<byte>, mac: (seq<byte>, seq<byte>) -> Digest)

  /**
   * `Keyring(secret_key)`: a missing or empty key is replaced by 32 random
   * bytes, which the caller passes in as `randomKey`.
   */
  function NewKeyring(secretKey: Option<seq<byte>>, randomKey: seq<byte>, mac: (seq<byte>, seq<byte>) -> Digest): (k: Keyring)
    requires |randomKey| == 32
    ensures k.secret != []
    ensures k.mac == mac
    ensures secretKey.Some? && secretKey.value != [] ==> k.secret == secretKey.value
    ensures secretKey.None? || secretKey.value == [] ==> k.secret == randomKey
  {
    if secretKey.Some? && secretKey.value != [] then Keyring(secretKey.value, mac) else Keyring(randomKey, mac)
  }

  /** `Keyring.sign`: the base64 text of the digest of the token's canonical bytes, 44 characters long. */
  function Sign(k: Keyring, t: Token): (tag: string)
    ensures |tag| == 44
  {
    Encode(k.mac(k.secret, CanonicalBytes(t)))
  }

  /**
   * `Keyring.verify`: a missing or empty signature fails; otherwise the
   * signature must equal the tag recomputed from the token.
   */
  predicate Verify(k: Keyring, t: Token) {
    HasSignature(t) && t.signature.value == Sign(k, t)
  }

  /** The token with its signature set, as `mint_pccap` does after building it. */
  function Signed(k: Keyring, t: Token): Token {
    t.(signature := Some(Sign(k, t)))
  }

  /** Only the signed fields reach the tag. */
  lemma SignReadsSignedFields(k: Keyring, t1: Token, t2: Token)
    requires SignedFields(t1) == SignedFields(t2)
    ensures Sign(k, t1) == Sign(k, t2)
  {
    CanonicalBytesInjective(t1, t2);
  }

  /** A token verifies exactly when its signature is the tag of its signed fields. */
  lemma VerifyCharacterized(k: Keyring, t: Token)
    ensures Verify(k, t) <==> t.signature == Some(Sign(k, t))
  {
  }

  /** Signing a token makes it verify. */
  lemma SignedVerifies(k: Keyring, t: Token)
    ensures Verify(k, Signed(k, t))
  {
    SignReadsSignedFields(k, t, Signed(k, t));
    VerifyCharacterized(k, Signed(k, t));
  }

  /** Whether a token verifies depends only on its signed fields and its signature. */
  lemma VerifyReadsSignedFields(k: Keyring, t1: Token, t2: Token)
    requires SignedFields(t1) == SignedFields(t2) && t1.signature == t2.signature
    ensures Verify(k, t1) <==> Verify(k, t2)
  {
    SignReadsSignedFields(k, t1, t2);
  }

  /**
   * Changing a signed field of a verified token while keeping its signature
   * verifies only when the MAC maps two different messages to the same tag.
   */
  lemma TamperingNeedsCollision(k: Keyring, t: Token, forged: Token)
    requires Verify(k, t) && Verify(k, forged)
    requires forged.signature == t.signature
    requires SignedFields(forged) != SignedFields(t)
    ensures CanonicalBytes(forged) != CanonicalBytes(t)
    ensures k.mac(k.secret, CanonicalBytes(forged)) == k.mac(k.secret, CanonicalBytes(t))
  {
    CanonicalBytesInjective(forged, t);
    EncodeInjective(k.mac(k.secret, CanonicalBytes(forged)), k.mac(k.secret, CanonicalBytes(t)));
  }

  /** A signature that is not 44 characters long, such as `"invalid"`, never verifies. */
  lemma MisshapenSignatureFails(k: Keyring, t: Token)
    requires t.signature.Some? && |t.signature.value| != 44
    ensures !Verify(k, t)
  {
  }

  /**
   * A token signed under one keyring verifies under another only when the two
   * MACs give the same digest for its canonical bytes.
   */
  lemma OtherKeyNeedsCollision(signer: Keyring, checker: Keyring, t: Token)
    requires Verify(checker, Signed(signer, t))
    ensures checker.mac(checker.secret, CanonicalBytes(t)) == signer.mac(signer.secret, CanonicalBytes(t))
  {
    var signed := Signed(signer, t);
    CanonicalBytesInjective(signed, t);
    EncodeInjective(checker.mac(checker.secret, CanonicalBytes(t)), signer.mac(signer.secret, CanonicalBytes(t)));
  }
}
