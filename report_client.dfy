/**
 * The report-only Rust client: the check block of `main` runs the same
 * lookups as the enforcing client but only prints the signature, time,
 * digest and value comparisons; it aborts only where a decode, a lookup or a
 * conversion fails.
 */
module ReportClient {
  import opened Common
  import opened Ic
  import opened Layout
  import opened Checks
  import Store

  /** The checks that can abort the block, in the order it runs them. */
  const ReportOrder: seq<Check> := [
    DecodeCertificate, ReadClock,
    DecodeWitness,                                  // the witness is decoded before the certified data is matched
    FindCertifiedData, CertifiedDataIs32Bytes,      // "Certified data not found", `try_into().unwrap()`
    FindValue,                                      // "user {index} not found"
    DecodeValue
  ]

  /** What the block prints: four comparisons and the returned user. */
  datatype Report = Report(
    signatureVerified: bool,
    timeValid: bool,
    witnessMatchesCertifiedData: bool,
    valueMatches: bool,
    user: User)

  /** The queried index: a random `u64` reduced to 1..=5. */
  function QueryIndex(random: U64): (index: U64)
    ensures 1 <= index <= 5
  {
    random % 5 + 1
  }

  /** The report the block prints for record `index`, or the check at which it panics. */
  function CheckReport(
    ic: Library, decodeUser: Bytes -> Option<User>, response: Response<User>,
    canisterId: Bytes, rootKey: Bytes, index: U64, clock: int): (r: Result<Report, Check>)
    ensures r.Ok? ==> r.value.user == response.value
  {
    match ic.decodeCertificate(response.certificate)
    case None => Err(DecodeCertificate)
    case Some(certificate) =>
      if clock < 0 then Err(ReadClock)
      else
        var signatureVerified := ic.verify(certificate, canisterId, rootKey);
        var timeValid := ic.timeValid(certificate, clock, MaxCertTimeOffsetNs);
        var lookup := ic.lookupPath(certificate.tree, CertifiedDataPath(canisterId));
        match ic.decodeTree(response.encodedWitness)
        case None => Err(DecodeWitness)
        case Some(witnessTree) =>
          var witnessDigest := ic.digest(witnessTree);
          if !lookup.Found? then Err(FindCertifiedData)
          else if |lookup.value| != 32 then Err(CertifiedDataIs32Bytes)
          else
            var found := ic.lookupPath(witnessTree, UserPath(index));
            if !found.Found? then Err(FindValue)
            else
              match decodeUser(found.value)
              case None => Err(DecodeValue)
              case Some(user) =>
                Ok(Report(signatureVerified, timeValid, witnessDigest == lookup.value, user == response.value, response.value))
  }

  /** What the block prints when none of its aborting checks fails. */
  function CleanReport(ic: Library, decodeUser: Bytes -> Option<User>, q: Query<User>): Report
  {
    Report(
      Holds(ic, decodeUser, q, VerifySignature),
      Holds(ic, decodeUser, q, CheckTime),
      Holds(ic, decodeUser, q, MatchDigest),
      Holds(ic, decodeUser, q, MatchValue),
      q.response.value)
  }

  /** The query the block checks: record `index` at `["user", index.to_be_bytes()]`. */
  function ReportQuery(response: Response<User>, canisterId: Bytes, rootKey: Bytes, index: U64, clock: int): Query<User>
  {
    Query(response, canisterId, rootKey, UserPath(index), clock)
  }

  /**
   * When the checks before position `k` of `ReportOrder` hold and the one at
   * `k` does not, the block panics at that check.
   */
  lemma ReportRejectsAt(
    ic: Library, decodeUser: Bytes -> Option<User>, response: Response<User>,
    canisterId: Bytes, rootKey: Bytes, index: U64, clock: int, k: nat)
    requires k < |ReportOrder|
    requires forall i :: 0 <= i < k ==>
      Holds(ic, decodeUser, ReportQuery(response, canisterId, rootKey, index, clock), ReportOrder[i])
    requires !Holds(ic, decodeUser, ReportQuery(response, canisterId, rootKey, index, clock), ReportOrder[k])
    ensures CheckReport(ic, decodeUser, response, canisterId, rootKey, index, clock) == Err(ReportOrder[k])
  {
    var q := ReportQuery(response, canisterId, rootKey, index, clock);
    var o := ReportOrder;
    if k > 0 { assert Holds(ic, decodeUser, q, o[0]); }
    if k > 1 { assert Holds(ic, decodeUser, q, o[1]); }
    if k > 2 { assert Holds(ic, decodeUser, q, o[2]); }
    if k > 3 { assert Holds(ic, decodeUser, q, o[3]); }
    if k > 4 { assert Holds(ic, decodeUser, q, o[4]); }
    if k > 5 { assert Holds(ic, decodeUser, q, o[5]); }
  }

  /** When no aborting check fails, the block prints the four comparisons as they came out. */
  lemma ReportAccepts(
    ic: Library, decodeUser: Bytes -> Option<User>, response: Response<User>,
    canisterId: Bytes, rootKey: Bytes, index: U64, clock: int)
    requires forall i :: 0 <= i < |ReportOrder| ==>
      Holds(ic, decodeUser, ReportQuery(response, canisterId, rootKey, index, clock), ReportOrder[i])
    ensures CheckReport(ic, decodeUser, response, canisterId, rootKey, index, clock)
         == Ok(CleanReport(ic, decodeUser, ReportQuery(response, canisterId, rootKey, index, clock)))
  {
    var q := ReportQuery(response, canisterId, rootKey, index, clock);
    var o := ReportOrder;
    assert Holds(ic, decodeUser, q, o[0]);
    assert Holds(ic, decodeUser, q, o[1]);
    assert Holds(ic, decodeUser, q, o[2]);
    assert Holds(ic, decodeUser, q, o[3]);
    assert Holds(ic, decodeUser, q, o[4]);
    assert Holds(ic, decodeUser, q, o[5]);
    assert Holds(ic, decodeUser, q, o[6]);
  }

  /**
   * The block aborts exactly at the first failing check of `ReportOrder`; a
   * failed signature, time, digest or value comparison never aborts it and
   * only shows up as `false` in the report.
   */
  lemma ReportOutcome(
    ic: Library, decodeUser: Bytes -> Option<User>, response: Response<User>,
    canisterId: Bytes, rootKey: Bytes, index: U64, clock: int)
    ensures var q := ReportQuery(response, canisterId, rootKey, index, clock);
      CheckReport(ic, decodeUser, response, canisterId, rootKey, index, clock)
      == match FirstFailing(ic, decodeUser, q, ReportOrder)
         case Some(check) => Err(check)
         case None => Ok(CleanReport(ic, decodeUser, q))
  {
    var q := ReportQuery(response, canisterId, rootKey, index, clock);
    var o := ReportOrder;
    var failure := FirstFailing(ic, decodeUser, q, o);
    if failure.None? {
      ReportAccepts(ic, decodeUser, response, canisterId, rootKey, index, clock);
    } else {
      var k :| 0 <= k < |o| && o[k] == failure.value && !Holds(ic, decodeUser, q, o[k])
        && forall i :: 0 <= i < k ==> Holds(ic, decodeUser, q, o[i]);
      ReportRejectsAt(ic, decodeUser, response, canisterId, rootKey, index, clock, k);
    }
  }

  /**
   * After five `set_user` calls on a fresh canister, whatever their order,
   * the queried index names one of the five records.
   */
  lemma QueriedIndexWasAssigned(users: seq<User>, random: U64)
    requires |users| == 5
    ensures Store.LookupUser(Store.Replay(users).tree, QueryIndex(random)) == Ok(users[QueryIndex(random) - 1])
  {
    Store.ReplayAssignsConsecutiveIndices(users);
  }
}
