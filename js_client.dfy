/**
 * The JavaScript client: `verifyCertificate` throws at the first check it
 * enforces that fails; the time check and the comparison of the witness's
 * root hash with the certified data are only logged.
 */
module JsClient {
  import opened Common
  import opened Ic
  import opened Layout
  import opened Checks
  import opened ByteOrder

  /**
   * `bigEndian(n)`: the eight low-order bytes of the BigInt `n`, most
   * significant first. `n & 0xFF` and `n >>= 8n` are the Euclidean `% 256`
   * and `/ 256`, negative `n` included, so the key is `n` modulo 2^64 in the
   * same encoding as Rust's `to_be_bytes`.
   */
  method BigEndian(n: int) returns (bytes: Bytes)
    ensures bytes == LowBytes(n, 8)
    ensures bytes == ToBeBytes(n % Pow64)
    ensures |bytes| == 8 && FromBeBytes(bytes) == n % Pow64
  {
    var buf := new byte[8](_ => 0);
    var rest := n;
    var i := 7;
    while i >= 0
      invariant -1 <= i <= 7
      invariant LowBytes(n, 8) == LowBytes(rest, i + 1) + buf[i + 1..]
    {
      ghost var tail := buf[i + 1..];
      buf[i] := rest % 256;
      assert buf[i..] == [rest % 256] + tail;
      rest := rest / 256;
      i := i - 1;
    }
    bytes := buf[..];
    LowBytesKeepsLow64(n);
    LowBytesRoundTrip(n, 8);
    Pow64IsPow256Of8();
  }

  /**
   * `[te.encode("user"), bigEndian(index).buffer]`: the witness path the
   * client looks the user up at, which is the store's path for `index`
   * modulo 2^64.
   */
  method QueryParams(index: int) returns (path: seq<Bytes>)
    ensures path == UserPath(index % Pow64)
  {
    var key := BigEndian(index);
    path := [UserLabel, key];
  }

  /** The checks at which `verifyCertificate` can throw, in the order it reaches them. */
  const JsOrder: seq<Check> := [
    DecodeCertificate,      // `new Certificate(...)` decodes the blob
    VerifySignature,        // step 1, `cert.verify()`
    DecodeWitness,          // `Cbor.decode(witness)`
    FindCertifiedData,      // `certifiedData.buffer` on a missing value is a TypeError
    FindValue, DecodeValue, // step 4
    MatchValue              // step 5, `assert.deepStrictEqual`
  ]

  /** The query `verifyCertificate` checks; the clock `verifyTime` reads is left out, so the clock is 0. */
  function JsQuery<T>(certifiedUser: Response<T>, canisterId: Bytes, rootKey: Bytes, index: int): Query<T>
  {
    Query(certifiedUser, canisterId, rootKey, UserPath(index % Pow64), 0)
  }

  /**
   * `verifyCertificate(certifiedUser, index, rootKey, canisterId)`: returns
   * the user when no check of `JsOrder` fails, and otherwise throws at the
   * first that does.
   */
  method VerifyCertificate<T(==)>(
    ic: Library, decodeValue: Bytes -> Option<T>, certifiedUser: Response<T>,
    index: int, rootKey: Bytes, canisterId: Bytes) returns (r: Result<T, Check>)
    ensures r == Verdict(FirstFailing(ic, decodeValue, JsQuery(certifiedUser, canisterId, rootKey, index), JsOrder), certifiedUser.value)
  {
    ghost var q := Query(certifiedUser, canisterId, rootKey, UserPath(index % Pow64), 0);
    assert q == JsQuery(certifiedUser, canisterId, rootKey, index);
    ghost var o := JsOrder;
    var cert := ic.decodeCertificate(certifiedUser.certificate);
    if cert.None? {
      FirstFailingAt(ic, decodeValue, q, o, 0);
      return Err(DecodeCertificate);
    }
    assert Holds(ic, decodeValue, q, DecodeCertificate);
    if !ic.verify(cert.value, canisterId, rootKey) {
      FirstFailingAt(ic, decodeValue, q, o, 1);
      return Err(VerifySignature);
    }
    assert Holds(ic, decodeValue, q, VerifySignature);
    var certifiedData := ic.lookupPath(cert.value.tree, CertifiedDataPath(canisterId));
    var witnessTree := ic.decodeTree(certifiedUser.encodedWitness);
    if witnessTree.None? {
      FirstFailingAt(ic, decodeValue, q, o, 2);
      return Err(DecodeWitness);
    }
    assert Holds(ic, decodeValue, q, DecodeWitness);
    if !certifiedData.Found? {
      FirstFailingAt(ic, decodeValue, q, o, 3);
      return Err(FindCertifiedData);
    }
    assert Holds(ic, decodeValue, q, FindCertifiedData);
    var queryParams := QueryParams(index);
    var found := ic.lookupPath(witnessTree.value, queryParams);
    if !found.Found? {
      FirstFailingAt(ic, decodeValue, q, o, 4);
      return Err(FindValue);
    }
    assert Holds(ic, decodeValue, q, FindValue);
    var witnessData := decodeValue(found.value);
    if witnessData.None? {
      FirstFailingAt(ic, decodeValue, q, o, 5);
      return Err(DecodeValue);
    }
    assert Holds(ic, decodeValue, q, DecodeValue);
    if witnessData.value != certifiedUser.value {
      FirstFailingAt(ic, decodeValue, q, o, 6);
      return Err(MatchValue);
    }
    assert Holds(ic, decodeValue, q, MatchValue);
    return Ok(certifiedUser.value);
  }
}
