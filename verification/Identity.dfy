/** What an identity is to both sides: key pairs, fingerprints, the bytes that are
    signed, and the server's decision on an auth response. Ed25519 and SHA-256
    are functions the environment supplies. */
module Identity {
  import opened Common
  import opened Text
  import Base64
  import Numerals

  const KEY_TYPE_ED25519: string := "sao-ed25519"

  type Bytes32 = b: seq<byte> | |b| == 32 witness seq(32, _ => 0)
  type Bytes64 = b: seq<byte> | |b| == 64 witness seq(64, _ => 0)

  /** The foreign primitives. `validPoint`: the 32 bytes are a public key. */
  datatype Crypto = Crypto(
    sha256: seq<byte> -> Bytes32,
    validPoint: Bytes32 -> bool,
    publicKey: Bytes32 -> Bytes32,
    sign: (Bytes32, seq<byte>) -> Bytes64,
    verify: (Bytes32, seq<byte>, Bytes64) -> bool)
  {
    /** What Ed25519 promises an honest signer. */
    ghost predicate Correct() {
      && (forall sk: Bytes32 :: validPoint(publicKey(sk)))
      && (forall sk: Bytes32, m: seq<byte> :: verify(publicKey(sk), m, sign(sk, m)))
    }
  }

  // ------------------------------------------------------------- signed bytes

  /** The ASCII bytes of "sao-auth-v1" and a zero byte. */
  const PREFIX: seq<byte> := [0x73, 0x61, 0x6F, 0x2D, 0x61, 0x75, 0x74, 0x68, 0x2D, 0x76, 0x31, 0x00]

  /** `signing_bytes`; a session id is given as its UTF-8 bytes. */
  function SigningBytes(nonce: seq<byte>, sessionId: seq<byte>): seq<byte> {
    PREFIX + nonce + sessionId
  }

  method BuildSigningBytes(nonce: seq<byte>, sessionId: seq<byte>) returns (v: seq<byte>)
    ensures v == SigningBytes(nonce, sessionId)
    ensures |v| == 12 + |nonce| + |sessionId|
  {
    v := [];
    v := v + PREFIX;
    v := v + nonce;
    v := v + sessionId;
  }

  /** Equal signed bytes mean the same nonce and session exactly when the nonces are
      equally long. */
  lemma SigningBytesBind(n1: seq<byte>, s1: seq<byte>, n2: seq<byte>, s2: seq<byte>)
    requires SigningBytes(n1, s1) == SigningBytes(n2, s2)
    ensures n1 == n2 && s1 == s2 <==> |n1| == |n2|
  {
    if |n1| == |n2| {
      var v := SigningBytes(n1, s1);
      assert v[|PREFIX|..|PREFIX| + |n1|] == n1 && v[|PREFIX| + |n1|..] == s1;
      assert v[|PREFIX|..|PREFIX| + |n2|] == n2 && v[|PREFIX| + |n2|..] == s2;
    }
  }

  /** Nothing separates the two fields: every session shares its signed bytes with
      challenges whose nonce has taken over the beginning of its id. */
  lemma SigningBytesAmbiguous(n: Bytes32, s: seq<byte>, k: nat)
    requires 0 < k <= |s|
    ensures SigningBytes(n + s[..k], s[k..]) == SigningBytes(n, s)
    ensures n + s[..k] != n && s[k..] != s
  {
    assert s[..k] + s[k..] == s;
    Assoc(PREFIX, n, s[..k]);
    Assoc(PREFIX + n, s[..k], s[k..]);
    assert |n + s[..k]| > |n|;
  }

  // ------------------------------------------------------------ the key table

  datatype AuthorizedKey = AuthorizedKey(verifyingKey: Bytes32, fingerprintHex: string, comment: string)

  function FingerprintHex(crypto: Crypto, pk: Bytes32): string {
    Numerals.HexEncode(crypto.sha256(pk))
  }

  function FindFrom(keys: seq<AuthorizedKey>, fp: string): Option<AuthorizedKey> {
    if keys == [] then None
    else if keys[0].fingerprintHex == fp then Some(keys[0])
    else FindFrom(keys[1..], fp)
  }

  /** `find_key`. */
  function FindKey(keys: seq<AuthorizedKey>, fingerprint: string): Option<AuthorizedKey> {
    FindFrom(keys, Lower(Trim(fingerprint)))
  }

  function VerifySignature(crypto: Crypto, vk: Bytes32, message: seq<byte>, sigB64: string): bool {
    match Base64.Decode(sigB64)
    case Some(raw) => |raw| == 64 && crypto.verify(vk, message, raw)
    case None => false
  }

  function SignAuthMessage(crypto: Crypto, sk: Bytes32, message: seq<byte>): string {
    Base64.Encode(crypto.sign(sk, message))
  }

  datatype AuthFailure = UnsupportedKeyType | UnknownKey | BadSignature

  /** The server's decision on a well-formed auth response. */
  function Authenticate(crypto: Crypto, keys: seq<AuthorizedKey>, nonce: seq<byte>, sessionId: seq<byte>,
                        keyType: string, fingerprint: string, signature: string): Result<AuthorizedKey, AuthFailure>
  {
    if keyType != KEY_TYPE_ED25519 then Err(UnsupportedKeyType)
    else
      match FindKey(keys, fingerprint)
      case None => Err(UnknownKey)
      case Some(k) =>
        if VerifySignature(crypto, k.verifyingKey, SigningBytes(nonce, sessionId), signature) then Ok(k)
        else Err(BadSignature)
  }

  // -------------------------------------------------------------------- lemmas

  /** The first entry with the fingerprint is found, if there is one. */
  lemma {:induction false} FindFromFirst(keys: seq<AuthorizedKey>, fp: string)
    ensures FindFrom(keys, fp).None? <==> forall k <- keys :: k.fingerprintHex != fp
    ensures FindFrom(keys, fp).Some? ==>
      exists i :: 0 <= i < |keys| && FindFrom(keys, fp) == Some(keys[i]) && keys[i].fingerprintHex == fp
        && forall j :: 0 <= j < i ==> keys[j].fingerprintHex != fp
  {
    if keys != [] {
      FindFromFirst(keys[1..], fp);
      if keys[0].fingerprintHex != fp && FindFrom(keys[1..], fp).Some? {
        var i :| 0 <= i < |keys[1..]| && FindFrom(keys[1..], fp) == Some(keys[1..][i]) && keys[1..][i].fingerprintHex == fp
          && forall j :: 0 <= j < i ==> keys[1..][j].fingerprintHex != fp;
        assert keys[i + 1] == keys[1..][i];
        assert forall j :: 0 < j < i + 1 ==> keys[j] == keys[1..][j - 1];
      }
    }
  }

  lemma FingerprintFixed(crypto: Crypto, pk: Bytes32)
    ensures Lower(Trim(FingerprintHex(crypto, pk))) == FingerprintHex(crypto, pk)
  {
    var d := crypto.sha256(pk);
    var s := Numerals.HexEncode(d);
    Numerals.HexEncodeDigits(d);
    assert |s| == 64 && s[0] in s && s[63] in s;
    TrimId(s);
    assert forall i :: 0 <= i < |s| ==> s[i] in s;
    assert Lower(s) == s;
  }

  ghost predicate TableOf(crypto: Crypto, keys: seq<AuthorizedKey>) {
    forall k <- keys :: k.fingerprintHex == FingerprintHex(crypto, k.verifyingKey)
  }

  ghost predicate NoCollision(crypto: Crypto, keys: seq<AuthorizedKey>, pk: Bytes32) {
    forall k <- keys :: crypto.sha256(k.verifyingKey) == crypto.sha256(pk) ==> k.verifyingKey == pk
  }

  /** Asking the table for a listed key's fingerprint gives that key, unless another
      listed key has the same SHA-256. */
  lemma FindListed(crypto: Crypto, keys: seq<AuthorizedKey>, entry: AuthorizedKey)
    requires TableOf(crypto, keys) && entry in keys && NoCollision(crypto, keys, entry.verifyingKey)
    ensures FindKey(keys, FingerprintHex(crypto, entry.verifyingKey)).Some?
    ensures FindKey(keys, FingerprintHex(crypto, entry.verifyingKey)).value.verifyingKey == entry.verifyingKey
  {
    var fp := FingerprintHex(crypto, entry.verifyingKey);
    FingerprintFixed(crypto, entry.verifyingKey);
    FindFromFirst(keys, fp);
    SameFingerprint(crypto, FindFrom(keys, fp).value.verifyingKey, entry.verifyingKey);
  }

  /** A listed client that signs what it was sent is accepted, under its own key. */
  lemma HonestAccepted(crypto: Crypto, keys: seq<AuthorizedKey>, entry: AuthorizedKey, sk: Bytes32,
                       nonce: seq<byte>, sessionId: seq<byte>)
    requires crypto.Correct() && TableOf(crypto, keys) && entry in keys
    requires entry.verifyingKey == crypto.publicKey(sk) && NoCollision(crypto, keys, entry.verifyingKey)
    ensures var a := Authenticate(crypto, keys, nonce, sessionId, KEY_TYPE_ED25519,
        FingerprintHex(crypto, crypto.publicKey(sk)), SignAuthMessage(crypto, sk, SigningBytes(nonce, sessionId)));
      a.Ok? && a.value.verifyingKey == crypto.publicKey(sk)
  {
    FindListed(crypto, keys, entry);
    Base64.DecodeEncode(crypto.sign(sk, SigningBytes(nonce, sessionId)));
  }

  /** A response is accepted exactly when it is of the one key type and its signature,
      base64 of 64 bytes, verifies over this session's bytes under the first listed
      key with the claimed fingerprint. */
  lemma AuthenticateIff(crypto: Crypto, keys: seq<AuthorizedKey>, nonce: seq<byte>, sessionId: seq<byte>,
                        keyType: string, fingerprint: string, signature: string, k: AuthorizedKey)
    ensures Authenticate(crypto, keys, nonce, sessionId, keyType, fingerprint, signature) == Ok(k) <==>
      && keyType == KEY_TYPE_ED25519
      && (exists i :: 0 <= i < |keys| && keys[i] == k && k.fingerprintHex == Lower(Trim(fingerprint))
           && forall j :: 0 <= j < i ==> keys[j].fingerprintHex != Lower(Trim(fingerprint)))
      && exists raw: Bytes64 :: Base64.Encode(raw) == signature
           && crypto.verify(k.verifyingKey, SigningBytes(nonce, sessionId), raw)
  {
    FindFromFirst(keys, Lower(Trim(fingerprint)));
    VerifyIff(crypto, k.verifyingKey, SigningBytes(nonce, sessionId), signature);
  }

  /** The first entry of the table with this fingerprint. */
  ghost predicate FirstListed(keys: seq<AuthorizedKey>, fp: string, k: AuthorizedKey) {
    exists i :: 0 <= i < |keys| && keys[i] == k && k.fingerprintHex == fp
      && forall j :: 0 <= j < i ==> keys[j].fingerprintHex != fp
  }

  /** Why a response is refused: the key type before the table, the table before the
      signature. */
  lemma RefusalIff(crypto: Crypto, keys: seq<AuthorizedKey>, nonce: seq<byte>, sessionId: seq<byte>,
                   keyType: string, fingerprint: string, signature: string)
    ensures var a := Authenticate(crypto, keys, nonce, sessionId, keyType, fingerprint, signature);
      var fp := Lower(Trim(fingerprint));
      && (a == Err(UnsupportedKeyType) <==> keyType != "sao-ed25519")
      && (a == Err(UnknownKey) <==> keyType == "sao-ed25519" && forall k <- keys :: k.fingerprintHex != fp)
      && (a == Err(BadSignature) <==>
            && keyType == "sao-ed25519"
            && exists k :: FirstListed(keys, fp, k)
                 && forall raw: Bytes64 :: Base64.Encode(raw) == signature ==>
                      !crypto.verify(k.verifyingKey, SigningBytes(nonce, sessionId), raw))
  {
    var fp := Lower(Trim(fingerprint));
    FindFromFirst(keys, fp);
    forall k | FirstListed(keys, fp, k) ensures FindFrom(keys, fp) == Some(k) {
    }
    if FindFrom(keys, fp).Some? {
      var k := FindFrom(keys, fp).value;
      assert FirstListed(keys, fp, k);
      VerifyIff(crypto, k.verifyingKey, SigningBytes(nonce, sessionId), signature);
    }
  }

  /** A signature text verifies exactly if it is the base 64 of 64 bytes that do. */
  lemma VerifyIff(crypto: Crypto, vk: Bytes32, message: seq<byte>, signature: string)
    ensures VerifySignature(crypto, vk, message, signature) <==>
      exists raw: Bytes64 :: Base64.Encode(raw) == signature && crypto.verify(vk, message, raw)
  {
    if Base64.Decode(signature).Some? {
      Base64.EncodeDecode(signature);
    }
    forall raw: Bytes64 | Base64.Encode(raw) == signature ensures Base64.Decode(signature) == Some(raw) {
      Base64.DecodeEncode(raw);
    }
  }

  /** The signed bytes, place by place: the ASCII bytes of the name, a zero byte, the nonce
      and the session id. */
  lemma SigningBytesLayout(nonce: seq<byte>, sessionId: seq<byte>)
    ensures var v := SigningBytes(nonce, sessionId); var name := "sao-auth-v1";
      && |v| == 12 + |nonce| + |sessionId|
      && (forall i :: 0 <= i < 11 ==> v[i] == name[i] as int)
      && v[11] == 0
      && v[12..12 + |nonce|] == nonce
      && v[12 + |nonce|..] == sessionId
  {
    assert SigningBytes(nonce, sessionId)[..12] == PREFIX;
  }

  /** A fingerprint is the SHA-256 of the key in lower-case hexadecimal digits. */
  lemma FingerprintExact(crypto: Crypto, pk: Bytes32, i: nat)
    requires i < 32
    ensures var fp := FingerprintHex(crypto, pk);
      && |fp| == 64
      && fp[2 * i] == "0123456789abcdef"[crypto.sha256(pk)[i] / 16]
      && fp[2 * i + 1] == "0123456789abcdef"[crypto.sha256(pk)[i] % 16]
  {
    Numerals.HexEncodeExact(crypto.sha256(pk), i);
  }

  /** The first entry of the table whose key has the SHA-256 of this one. */
  ghost predicate FirstWithKey(crypto: Crypto, keys: seq<AuthorizedKey>, pk: Bytes32, k: AuthorizedKey) {
    exists i :: 0 <= i < |keys| && keys[i] == k && crypto.sha256(k.verifyingKey) == crypto.sha256(pk)
      && forall j :: 0 <= j < i ==> crypto.sha256(keys[j].verifyingKey) != crypto.sha256(pk)
  }

  lemma SameFingerprint(crypto: Crypto, a: Bytes32, b: Bytes32)
    ensures FingerprintHex(crypto, a) == FingerprintHex(crypto, b) <==> crypto.sha256(a) == crypto.sha256(b)
  {
    Numerals.HexPairsRoundTrip(crypto.sha256(a));
    Numerals.HexPairsRoundTrip(crypto.sha256(b));
  }

  lemma ListedIff(crypto: Crypto, keys: seq<AuthorizedKey>, pk: Bytes32)
    requires TableOf(crypto, keys)
    ensures (forall k <- keys :: k.fingerprintHex != FingerprintHex(crypto, pk)) <==>
      forall k <- keys :: crypto.sha256(k.verifyingKey) != crypto.sha256(pk)
    ensures forall k :: FirstListed(keys, FingerprintHex(crypto, pk), k) <==> FirstWithKey(crypto, keys, pk, k)
  {
    forall i | 0 <= i < |keys|
      ensures keys[i].fingerprintHex == FingerprintHex(crypto, pk) <==> crypto.sha256(keys[i].verifyingKey) == crypto.sha256(pk)
    {
      assert keys[i] in keys;
      SameFingerprint(crypto, keys[i].verifyingKey, pk);
    }
  }

  /** The decision on a client that presents its own fingerprint and its own signature. */
  lemma OwnSignature(crypto: Crypto, keys: seq<AuthorizedKey>, sk: Bytes32, nonce: seq<byte>, sessionId: seq<byte>)
    requires TableOf(crypto, keys)
    ensures var pk, message := crypto.publicKey(sk), SigningBytes(nonce, sessionId);
      var a := Authenticate(crypto, keys, nonce, sessionId, KEY_TYPE_ED25519, FingerprintHex(crypto, pk),
                            SignAuthMessage(crypto, sk, message));
      && (a == Err(UnknownKey) <==> forall k <- keys :: crypto.sha256(k.verifyingKey) != crypto.sha256(pk))
      && (a == Err(BadSignature) <==>
            exists k :: FirstWithKey(crypto, keys, pk, k) && !crypto.verify(k.verifyingKey, message, crypto.sign(sk, message)))
      && a != Err(UnsupportedKeyType)
  {
    var pk, message := crypto.publicKey(sk), SigningBytes(nonce, sessionId);
    var fp, sig := FingerprintHex(crypto, pk), SignAuthMessage(crypto, sk, message);
    FingerprintFixed(crypto, pk);
    ListedIff(crypto, keys, pk);
    RefusalIff(crypto, keys, nonce, sessionId, KEY_TYPE_ED25519, fp, sig);
    Base64.DecodeEncode(crypto.sign(sk, message));
    forall raw: Bytes64 | Base64.Encode(raw) == sig ensures raw == crypto.sign(sk, message) {
      Base64.DecodeEncode(raw);
    }
  }
}
