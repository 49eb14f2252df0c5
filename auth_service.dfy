/** The identity service: connection-bound signatures, their verification,
    public-key digests, and the two byte conversions they rest on.

    The browser primitives (RSASSA-PKCS1-v1_5 signing and verification as in
    section 8.2 of RFC 8017, SHA-256 as in FIPS 180-4, base64 as in section 4
    of RFC 4648, JSON Web Key import as in RFC 7517) are not modelled: they
    are the function-valued fields of a `Crypto` value, about which nothing is
    known except what a lemma states as a hypothesis. */
module Auth {
  import opened Js

  /** An opaque WebCrypto key handle. */
  datatype CryptoKey = CryptoKey(handle: int)

  /** The uninterpreted primitives.  `importKey` stands for `JSON.parse`
      followed by a JWK import and `atob` for the base64 decoder; each yields
      `None` where the browser would throw. */
  datatype Crypto = Crypto(
    sign: (CryptoKey, seq<Byte>) -> seq<Byte>,
    verify: (CryptoKey, seq<Byte>, seq<Byte>) -> bool,
    importKey: JsString -> Option<CryptoKey>,
    sha256: seq<Byte> -> seq<Byte>,
    btoa: JsString -> JsString,
    atob: JsString -> Option<JsString>)

  function LowByte(u: CodeUnit): Byte { (u as int % 0x100) as Byte }
  function HighByte(u: CodeUnit): Byte { (u as int / 0x100) as Byte }

  /** `new Uint16Array(s.split("").map(c => c.charCodeAt(0))).buffer`: each
      code unit becomes two bytes, low byte first (the byte order of every
      platform a browser runs on). */
  function StringToArrayBuffer(s: JsString): (r: seq<Byte>)
    ensures |r| == 2 * |s|
    ensures forall i :: 0 <= i < |s| ==> r[2 * i] == LowByte(s[i]) && r[2 * i + 1] == HighByte(s[i])
  {
    if s == [] then []
    else
      var rest := StringToArrayBuffer(s[1..]);
      var r := [LowByte(s[0]), HighByte(s[0])] + rest;
      assert forall i :: 1 <= i < |s| ==> r[2 * i] == rest[2 * (i - 1)] && r[2 * i + 1] == rest[2 * (i - 1) + 1];
      r
  }

  /** Two strings with the same buffer are the same string: the buffer keeps
      every code unit. */
  lemma StringToArrayBufferInjective(a: JsString, b: JsString)
    ensures StringToArrayBuffer(a) == StringToArrayBuffer(b) <==> a == b
  {
    var ba, bb := StringToArrayBuffer(a), StringToArrayBuffer(b);
    if ba == bb {
      assert |a| == |b|;
      forall i | 0 <= i < |a| ensures a[i] == b[i] {
        assert LowByte(a[i]) == ba[2 * i] == bb[2 * i] == LowByte(b[i]);
        assert HighByte(a[i]) == ba[2 * i + 1] == bb[2 * i + 1] == HighByte(b[i]);
      }
    }
  }

  /** `String.fromCharCode(...bytes)`: one code unit per byte. */
  function BinaryString(bytes: seq<Byte>): (r: JsString)
    ensures |r| == |bytes|
    ensures forall i :: 0 <= i < |bytes| ==> r[i] as int == bytes[i] as int
  {
    seq(|bytes|, i requires 0 <= i < |bytes| => bytes[i] as int as CodeUnit)
  }

  /** The bytes `base64ToArrayBuffer` stores for a decoded string: byte `i`
      is `charCodeAt(i)`, truncated by the `Uint8Array` to its low eight bits. */
  function BinaryToBytes(binary: JsString): (r: seq<Byte>)
    ensures |r| == |binary|
    ensures forall i :: 0 <= i < |binary| ==> binary[i] as int < 0x100 ==> r[i] as int == binary[i] as int
  {
    seq(|binary|, i requires 0 <= i < |binary| => LowByte(binary[i]))
  }

  /** Decoding a binary string gives back the bytes it was made from. */
  lemma BinaryRoundTrip(bytes: seq<Byte>)
    ensures BinaryToBytes(BinaryString(bytes)) == bytes
  {
    var r := BinaryToBytes(BinaryString(bytes));
    forall i | 0 <= i < |bytes| ensures r[i] == bytes[i] {
      assert BinaryString(bytes)[i] as int == bytes[i] as int;
    }
  }

  /** `atob` followed by the byte conversion; `None` where `atob` throws. */
  function Base64Bytes(atob: JsString -> Option<JsString>, base64: JsString): (r: Option<seq<Byte>>)
    ensures r.None? <==> atob(base64).None?
    ensures r.Some? ==> |r.value| == |atob(base64).value|
  {
    match atob(base64)
    case None => None
    case Some(binary) => Some(BinaryToBytes(binary))
  }

  /** `base64ToArrayBuffer`: decode, then fill a fresh `Uint8Array` one
      character at a time.  `None` stands for the exception `atob` throws on
      input that is not base64. */
  method Base64ToArrayBuffer(atob: JsString -> Option<JsString>, base64: JsString)
    returns (r: Option<array<Byte>>)
    ensures r.None? <==> Base64Bytes(atob, base64).None?
    ensures r.Some? ==> r.value[..] == Base64Bytes(atob, base64).value
  {
    var decoded := atob(base64);
    if decoded.None? {
      return None;
    }
    var binary := decoded.value;
    var len := |binary|;
    var bytes := new Byte[len];
    for i := 0 to len
      invariant forall k :: 0 <= k < i ==> bytes[k] == LowByte(binary[k])
    {
      bytes[i] := (binary[i] as int % 0x100) as Byte;
    }
    assert bytes[..] == BinaryToBytes(binary);
    return Some(bytes);
  }

  /** The local identity and the primitives it signs with. */
  datatype AuthService = AuthService(ownPublicKeyJson: JsString, privateKey: CryptoKey, crypto: Crypto)
  {
    /** `signConnection`: sign the buffer of `connectionID ++ ownPublicKeyJson`
        and encode the signature as base64 of its bytes. */
    function SignConnection(connectionID: JsString): JsString
    {
      var payload := connectionID + ownPublicKeyJson;
      var encMessage := crypto.sign(privateKey, StringToArrayBuffer(payload));
      crypto.btoa(BinaryString(encMessage))
    }

    /** `verify`: check `signBase64` against `connectionID ++ otherPublicKeyJson`
        under the key `otherPublicKeyJson` describes.  `None` stands for the
        exception thrown on undecodable base64 or an unimportable key. */
    function Verify(connectionID: JsString, otherPublicKeyJson: JsString, signBase64: JsString): (r: Option<bool>)
      ensures r.None? <==> crypto.atob(signBase64).None? || crypto.importKey(otherPublicKeyJson).None?
    {
      var truthPayload := connectionID + otherPublicKeyJson;
      match Base64Bytes(crypto.atob, signBase64)
      case None => None
      case Some(sign) =>
        match crypto.importKey(otherPublicKeyJson)
        case None => None
        case Some(publicKey) => Some(crypto.verify(publicKey, sign, StringToArrayBuffer(truthPayload)))
    }

    /** `digest`: SHA-256 of the string's buffer, as base64. */
    function Digest(data: JsString): JsString
    {
      crypto.btoa(BinaryString(crypto.sha256(StringToArrayBuffer(data))))
    }
  }

  /** Hypothesis: base64 decoding undoes encoding on binary strings. */
  ghost predicate Base64RoundTrips(c: Crypto)
  {
    forall bytes: seq<Byte> {:trigger BinaryString(bytes)} :: c.atob(c.btoa(BinaryString(bytes))) == Some(BinaryString(bytes))
  }

  /** Hypothesis: the key described by `publicKeyJson` imports, and accepts
      every signature `privateKey` makes, for the message signed. */
  ghost predicate KeyPairMatches(c: Crypto, publicKeyJson: JsString, privateKey: CryptoKey)
  {
    c.importKey(publicKeyJson).Some? &&
    forall m :: c.verify(c.importKey(publicKeyJson).value, c.sign(privateKey, m), m)
  }

  /** Hypothesis standing for unforgeability: a signature made over one
      message is accepted, under any key, for that message only. */
  ghost predicate SignaturesBindMessages(c: Crypto)
  {
    forall k, sk, m, m' :: c.verify(k, c.sign(sk, m), m') ==> m == m'
  }

  /** A peer verifying this peer's signature for a connection, with this
      peer's own public key, accepts it. */
  lemma SignThenVerify(auth: AuthService, connectionID: JsString)
    requires Base64RoundTrips(auth.crypto)
    requires KeyPairMatches(auth.crypto, auth.ownPublicKeyJson, auth.privateKey)
    ensures auth.Verify(connectionID, auth.ownPublicKeyJson, auth.SignConnection(connectionID)) == Some(true)
  {
    var c := auth.crypto;
    var m := StringToArrayBuffer(connectionID + auth.ownPublicKeyJson);
    var sig := c.sign(auth.privateKey, m);
    assert c.atob(c.btoa(BinaryString(sig))) == Some(BinaryString(sig));
    BinaryRoundTrip(sig);
  }

  /** Identity binding: a signature made for one connection is never accepted
      for another one under the same public key. */
  lemma IdentityBinding(auth: AuthService, signedFor: JsString, presentedOn: JsString)
    requires Base64RoundTrips(auth.crypto)
    requires SignaturesBindMessages(auth.crypto)
    requires signedFor != presentedOn
    ensures auth.Verify(presentedOn, auth.ownPublicKeyJson, auth.SignConnection(signedFor)) != Some(true)
  {
    var c := auth.crypto;
    var pk := auth.ownPublicKeyJson;
    var m := StringToArrayBuffer(signedFor + pk);
    var m' := StringToArrayBuffer(presentedOn + pk);
    var sig := c.sign(auth.privateKey, m);
    assert c.atob(c.btoa(BinaryString(sig))) == Some(BinaryString(sig));
    BinaryRoundTrip(sig);
    assert signedFor + pk != presentedOn + pk by {
      if |signedFor| == |presentedOn| {
        var i :| 0 <= i < |signedFor| && signedFor[i] != presentedOn[i];
        assert (signedFor + pk)[i] != (presentedOn + pk)[i];
      }
    }
    StringToArrayBufferInjective(signedFor + pk, presentedOn + pk);
    if c.importKey(pk).Some? {
      assert !c.verify(c.importKey(pk).value, sig, m');
    }
  }

  /** Two keys with one digest are a SHA-256 collision between two different
      buffers, as long as base64 encoding is injective. */
  lemma DigestCollisionIsHashCollision(auth: AuthService, a: JsString, b: JsString)
    requires forall x, y :: auth.crypto.btoa(x) == auth.crypto.btoa(y) ==> x == y
    requires a != b
    requires auth.Digest(a) == auth.Digest(b)
    ensures StringToArrayBuffer(a) != StringToArrayBuffer(b)
    ensures auth.crypto.sha256(StringToArrayBuffer(a)) == auth.crypto.sha256(StringToArrayBuffer(b))
  {
    var ha := auth.crypto.sha256(StringToArrayBuffer(a));
    var hb := auth.crypto.sha256(StringToArrayBuffer(b));
    assert BinaryString(ha) == BinaryString(hb);
    BinaryRoundTrip(ha);
    BinaryRoundTrip(hb);
    StringToArrayBufferInjective(a, b);
  }
}
