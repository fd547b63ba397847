/**
 * The individual checks a client runs on a certified query response, each
 * stated on its own, and the reference reading of an ordered, short-circuiting
 * pipeline: run the checks in a given order and stop at the first that fails.
 */
module Checks {
  import opened Common
  import opened Ic
  import opened Layout

  /** `MAX_CERT_TIME_OFFSET_NS`: 300 000 000 000 ns, five minutes. */
  const MaxCertTimeOffsetNs: nat := 300_000_000_000

  /** The checks a client can fail; a rejection names the check that failed. */
  datatype Check =
    | DecodeCertificate       // the certificate blob is CBOR for a certificate
    | ReadClock               // "now" is not before the Unix epoch
    | VerifySignature         // the certificate's signature verifies against the root key
    | CheckTime               // the certificate's time is within the allowed offset of "now"
    | FindCertifiedData       // `["canister", id, "certified_data"]` is Found in the certificate
    | CertifiedDataIs32Bytes  // the certified data found is exactly 32 bytes
    | DecodeWitness           // the witness blob is CBOR for a hash tree
    | MatchDigest             // the witness's digest equals the certified data
    | FindValue               // the queried path is Found in the witness
    | DecodeValue             // the bytes found there are CBOR for a value
    | MatchValue              // that value equals the value returned by the query

  /** Everything a client verifies: the response, whose data it is, the trust root, the path and the clock. */
  datatype Query<T> = Query(
    response: Response<T>,
    canisterId: Bytes,
    rootKey: Bytes,
    path: seq<Bytes>,
    /** nanoseconds since the Unix epoch; negative when the clock is before it */
    clock: int)

  /**
   * Whether `check` passes on `q`, given what the checks before it decoded.
   * A check whose inputs cannot be decoded does not pass.
   */
  predicate Holds<T(==)>(ic: Library, decodeValue: Bytes -> Option<T>, q: Query<T>, check: Check)
  {
    var certificate := ic.decodeCertificate(q.response.certificate);
    var tree := ic.decodeTree(q.response.encodedWitness);
    match check
    case DecodeCertificate => certificate.Some?
    case ReadClock => q.clock >= 0
    case VerifySignature =>
      certificate.Some? && ic.verify(certificate.value, q.canisterId, q.rootKey)
    case CheckTime =>
      certificate.Some? && q.clock >= 0 && ic.timeValid(certificate.value, q.clock, MaxCertTimeOffsetNs)
    case FindCertifiedData =>
      certificate.Some? && ic.lookupPath(certificate.value.tree, CertifiedDataPath(q.canisterId)).Found?
    case CertifiedDataIs32Bytes =>
      && certificate.Some?
      && var data := ic.lookupPath(certificate.value.tree, CertifiedDataPath(q.canisterId));
      && data.Found? && |data.value| == 32
    case DecodeWitness => tree.Some?
    case MatchDigest =>
      && certificate.Some? && tree.Some?
      && var data := ic.lookupPath(certificate.value.tree, CertifiedDataPath(q.canisterId));
      && data.Found? && ic.digest(tree.value) == data.value
    case FindValue =>
      tree.Some? && ic.lookupPath(tree.value, q.path).Found?
    case DecodeValue =>
      && tree.Some?
      && var found := ic.lookupPath(tree.value, q.path);
      && found.Found? && decodeValue(found.value).Some?
    case MatchValue =>
      && tree.Some?
      && var found := ic.lookupPath(tree.value, q.path);
      && found.Found? && decodeValue(found.value) == Some(q.response.value)
  }

  /**
   * The first check of `order` that does not hold, or `None` when they all
   * hold: what a pipeline that runs `order` and stops at the first failure
   * reports.
   */
  function FirstFailing<T(==)>(ic: Library, decodeValue: Bytes -> Option<T>, q: Query<T>, order: seq<Check>): (r: Option<Check>)
    ensures r.None? <==> forall i :: 0 <= i < |order| ==> Holds(ic, decodeValue, q, order[i])
    ensures r.Some? ==> exists k :: (0 <= k < |order| && order[k] == r.value
      && !Holds(ic, decodeValue, q, order[k])
      && forall i :: 0 <= i < k ==> Holds(ic, decodeValue, q, order[i]))
  {
    if order == [] then None
    else if !Holds(ic, decodeValue, q, order[0]) then Some(order[0])
    else
      var r := FirstFailing(ic, decodeValue, q, order[1..]);
      if r.Some? then
        var k :| 0 <= k < |order| - 1 && order[1..][k] == r.value
          && !Holds(ic, decodeValue, q, order[1..][k])
          && forall i :: 0 <= i < k ==> Holds(ic, decodeValue, q, order[1..][i]);
        assert forall i :: 0 <= i < k + 1 ==> Holds(ic, decodeValue, q, order[i]) by {
          forall i | 0 <= i < k + 1 ensures Holds(ic, decodeValue, q, order[i]) {
            if i > 0 { assert order[i] == order[1..][i - 1]; }
          }
        }
        assert order[k + 1] == r.value;
        r
      else
        assert forall i :: 0 <= i < |order| ==> Holds(ic, decodeValue, q, order[i]) by {
          forall i | 0 <= i < |order| ensures Holds(ic, decodeValue, q, order[i]) {
            if i > 0 { assert order[i] == order[1..][i - 1]; }
          }
        }
        r
  }

  /**
   * A pipeline that finds every check before position `k` passing and the
   * one at `k` failing reports exactly that check.
   */
  lemma FirstFailingAt<T>(ic: Library, decodeValue: Bytes -> Option<T>, q: Query<T>, order: seq<Check>, k: nat)
    requires k < |order|
    requires forall i :: 0 <= i < k ==> Holds(ic, decodeValue, q, order[i])
    requires !Holds(ic, decodeValue, q, order[k])
    ensures FirstFailing(ic, decodeValue, q, order) == Some(order[k])
  {
    var r := FirstFailing(ic, decodeValue, q, order);
    assert r.Some?;
    var j :| 0 <= j < |order| && order[j] == r.value && !Holds(ic, decodeValue, q, order[j])
      && forall i :: 0 <= i < j ==> Holds(ic, decodeValue, q, order[i]);
    assert !(j < k);  // the check at `j` would pass
    assert !(k < j);  // the check at `k` would pass
  }

  /** Accept with `value` when no check failed, reject with the first failure otherwise. */
  function Verdict<T>(failure: Option<Check>, value: T): Result<T, Check>
  {
    match failure
    case None => Ok(value)
    case Some(check) => Err(check)
  }

  /**
   * If every check of `longer` holds and `shorter` only runs checks that
   * `longer` runs, then no check of `shorter` fails.
   */
  lemma PassingCarriesOver<T>(ic: Library, decodeValue: Bytes -> Option<T>, q: Query<T>, longer: seq<Check>, shorter: seq<Check>)
    requires forall c :: c in shorter ==> c in longer
    requires FirstFailing(ic, decodeValue, q, longer).None?
    ensures FirstFailing(ic, decodeValue, q, shorter).None?
  {
    forall i | 0 <= i < |shorter|
      ensures Holds(ic, decodeValue, q, shorter[i])
    {
      assert shorter[i] in longer;
      var j :| 0 <= j < |longer| && longer[j] == shorter[i];
    }
  }
}
