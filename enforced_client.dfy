/**
 * The enforcing Rust client: `verify_query_response` runs every check and
 * aborts at the first that fails, so it returns the queried value only when
 * all of them pass.
 */
module EnforcedClient {
  import opened Common
  import opened Ic
  import opened Layout
  import opened Checks

  /** The order in which `verify_query_response` runs (and can abort on) its checks. */
  const EnforcedOrder: seq<Check> := [
    DecodeCertificate, ReadClock,
    VerifySignature,                          // step 1
    CheckTime,                                // step 2
    FindCertifiedData, CertifiedDataIs32Bytes,
    DecodeWitness, MatchDigest,               // step 3
    FindValue, DecodeValue,                   // step 4
    MatchValue                                // step 5
  ]

  /**
   * `verify_query_response`: `Ok(response.value)` when every check passes,
   * otherwise the check at which it panics. `clock` is `SystemTime::now()`
   * in nanoseconds since the epoch.
   */
  function VerifyQueryResponse<T(==)>(
    ic: Library, decodeValue: Bytes -> Option<T>, response: Response<T>,
    canisterId: Bytes, rootKey: Bytes, path: seq<Bytes>, clock: int): (r: Result<T, Check>)
    ensures r.Ok? ==> r.value == response.value
  {
    match ic.decodeCertificate(response.certificate)
    case None => Err(DecodeCertificate)
    case Some(certificate) =>
      if clock < 0 then Err(ReadClock)
      else if !ic.verify(certificate, canisterId, rootKey) then Err(VerifySignature)
      else if !ic.timeValid(certificate, clock, MaxCertTimeOffsetNs) then Err(CheckTime)
      else
        var lookup := ic.lookupPath(certificate.tree, CertifiedDataPath(canisterId));
        if !lookup.Found? then Err(FindCertifiedData)
        else if |lookup.value| != 32 then Err(CertifiedDataIs32Bytes)
        else
          var certifiedData := lookup.value;
          match ic.decodeTree(response.encodedWitness)
          case None => Err(DecodeWitness)
          case Some(witnessTree) =>
            if ic.digest(witnessTree) != certifiedData then Err(MatchDigest)
            else
              var found := ic.lookupPath(witnessTree, path);
              if !found.Found? then Err(FindValue)
              else
                match decodeValue(found.value)
                case None => Err(DecodeValue)
                case Some(value) =>
                  if value != response.value then Err(MatchValue) else Ok(response.value)
  }

  /**
   * When the checks before position `k` of `EnforcedOrder` hold and the one
   * at `k` does not, `verify_query_response` rejects with that check.
   */
  lemma EnforcedRejectsAt<T>(
    ic: Library, decodeValue: Bytes -> Option<T>, response: Response<T>,
    canisterId: Bytes, rootKey: Bytes, path: seq<Bytes>, clock: int, k: nat)
    requires k < |EnforcedOrder|
    requires forall i :: 0 <= i < k ==>
      Holds(ic, decodeValue, Query(response, canisterId, rootKey, path, clock), EnforcedOrder[i])
    requires !Holds(ic, decodeValue, Query(response, canisterId, rootKey, path, clock), EnforcedOrder[k])
    ensures VerifyQueryResponse(ic, decodeValue, response, canisterId, rootKey, path, clock) == Err(EnforcedOrder[k])
  {
    var q := Query(response, canisterId, rootKey, path, clock);
    var o := EnforcedOrder;
    if k > 0 { assert Holds(ic, decodeValue, q, o[0]); }
    if k > 1 { assert Holds(ic, decodeValue, q, o[1]); }
    if k > 2 { assert Holds(ic, decodeValue, q, o[2]); }
    if k > 3 { assert Holds(ic, decodeValue, q, o[3]); }
    if k > 4 { assert Holds(ic, decodeValue, q, o[4]); }
    if k > 5 { assert Holds(ic, decodeValue, q, o[5]); }
    if k > 6 { assert Holds(ic, decodeValue, q, o[6]); }
    if k > 7 { assert Holds(ic, decodeValue, q, o[7]); }
    if k > 8 { assert Holds(ic, decodeValue, q, o[8]); }
    if k > 9 { assert Holds(ic, decodeValue, q, o[9]); }
  }

  /** When every check of `EnforcedOrder` holds, `verify_query_response` returns the response's value. */
  lemma EnforcedAccepts<T>(
    ic: Library, decodeValue: Bytes -> Option<T>, response: Response<T>,
    canisterId: Bytes, rootKey: Bytes, path: seq<Bytes>, clock: int)
    requires forall i :: 0 <= i < |EnforcedOrder| ==>
      Holds(ic, decodeValue, Query(response, canisterId, rootKey, path, clock), EnforcedOrder[i])
    ensures VerifyQueryResponse(ic, decodeValue, response, canisterId, rootKey, path, clock) == Ok(response.value)
  {
    var q := Query(response, canisterId, rootKey, path, clock);
    var o := EnforcedOrder;
    assert Holds(ic, decodeValue, q, o[0]);
    assert Holds(ic, decodeValue, q, o[1]);
    assert Holds(ic, decodeValue, q, o[2]);
    assert Holds(ic, decodeValue, q, o[3]);
    assert Holds(ic, decodeValue, q, o[4]);
    assert Holds(ic, decodeValue, q, o[5]);
    assert Holds(ic, decodeValue, q, o[6]);
    assert Holds(ic, decodeValue, q, o[7]);
    assert Holds(ic, decodeValue, q, o[8]);
    assert Holds(ic, decodeValue, q, o[9]);
    assert Holds(ic, decodeValue, q, o[10]);
  }

  /**
   * `verify_query_response` is exactly "run `EnforcedOrder`, stop at the
   * first failing check": it accepts, returning the response's value, if and
   * only if every check holds, and otherwise reports the earliest failing one,
   * whatever the later checks would have said.
   */
  lemma EnforcedOutcome<T>(
    ic: Library, decodeValue: Bytes -> Option<T>, response: Response<T>,
    canisterId: Bytes, rootKey: Bytes, path: seq<Bytes>, clock: int)
    ensures VerifyQueryResponse(ic, decodeValue, response, canisterId, rootKey, path, clock)
         == Verdict(FirstFailing(ic, decodeValue, Query(response, canisterId, rootKey, path, clock), EnforcedOrder), response.value)
  {
    var q := Query(response, canisterId, rootKey, path, clock);
    var o := EnforcedOrder;
    var failure := FirstFailing(ic, decodeValue, q, o);
    if failure.None? {
      EnforcedAccepts(ic, decodeValue, response, canisterId, rootKey, path, clock);
    } else {
      var k :| 0 <= k < |o| && o[k] == failure.value && !Holds(ic, decodeValue, q, o[k])
        && forall i :: 0 <= i < k ==> Holds(ic, decodeValue, q, o[i]);
      EnforcedRejectsAt(ic, decodeValue, response, canisterId, rootKey, path, clock, k);
    }
  }
}
