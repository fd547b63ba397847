/**
 * How the canister and the three clients fit together: an honest response
 * from `get_user` passes every check, an accepted response is certified,
 * and what each client lets through compared with the others.
 */
module EndToEnd {
  import opened Common
  import opened Ic
  import opened Layout
  import opened Checks
  import opened Store
  import opened EnforcedClient
  import opened ReportClient
  import opened JsClient
  import opened ByteOrder

  /**
   * The path `main` verifies, `["user", index.to_be_bytes()]`, is the path
   * whose key `set_user` stored the record under: after a call that
   * returned `index`, that key holds exactly the record passed in.
   */
  lemma VerifiedPathNamesStoredRecord(s: State, user: User)
    ensures var after := SetUserStep(s, user);
      && [UserLabel, ToBeBytes(after.counter)] == UserPath(after.counter)
      && UserLabel in after.tree
      && ToBeBytes(after.counter) in after.tree[UserLabel]
      && after.tree[UserLabel][ToBeBytes(after.counter)] == user
  {
    var after := SetUserStep(s, user);
    assert LookupUser(after.tree, after.counter) == Ok(user);
  }

  /**
   * Completeness: when the platform's certificate vouches for the root hash
   * the canister published, the witness and value encodings round-trip and
   * the witness shows the record's `as_hash_tree` leaf, the enforcing client
   * accepts the response `get_user(index)` builds. The witness's digest is
   * the root hash only because a record's two `AsHashTree` views agree
   * (`UserViewsAgree`).
   */
  lemma HonestResponseVerifies(
    ic: Library, lib: CertifiedMap, decodeUser: Bytes -> Option<User>, tree: Tree, index: U64,
    certificate: Bytes, canisterId: Bytes, rootKey: Bytes, clock: int)
    requires UserLabel in tree && UserKey(index) in tree[UserLabel]
    // the certificate: decodes, is signed under the root key, is fresh, certifies the root hash
    requires ic.decodeCertificate(certificate).Some?
    requires ic.verify(ic.decodeCertificate(certificate).value, canisterId, rootKey)
    requires clock >= 0 && ic.timeValid(ic.decodeCertificate(certificate).value, clock, MaxCertTimeOffsetNs)
    requires ic.lookupPath(ic.decodeCertificate(certificate).value.tree, CertifiedDataPath(canisterId)) == Found(lib.rootHash(tree))
    // the hash-tree digest of a leaf is `leaf_hash` of its bytes
    requires forall bytes :: ic.digest(Leaf(bytes)) == lib.leafHash(bytes)
    // the witness: decodes back, reveals the record's `as_hash_tree` leaf, and has the tree's
    // root hash whenever every record's `as_hash_tree` digests to its `root_hash`
    requires ic.decodeTree(WitnessBytes(lib, tree, index)) == Some(lib.witnessFor(tree, UserPath(index)))
    requires (forall u: User :: ic.digest(UserAsHashTree(lib, u)) == UserRootHash(lib, u))
         ==> ic.digest(lib.witnessFor(tree, UserPath(index))) == lib.rootHash(tree)
    requires ic.lookupPath(lib.witnessFor(tree, UserPath(index)), UserPath(index))
          == Found(UserAsHashTree(lib, tree[UserLabel][UserKey(index)]).value)
    // the record's CBOR decodes back
    requires decodeUser(lib.cbor(tree[UserLabel][UserKey(index)])) == Some(tree[UserLabel][UserKey(index)])
    ensures var user := tree[UserLabel][UserKey(index)];
      VerifyQueryResponse(ic, decodeUser, Response(user, certificate, WitnessBytes(lib, tree, index)),
        canisterId, rootKey, UserPath(index), clock) == Ok(user)
  {
    var user := tree[UserLabel][UserKey(index)];
    var response := Response(user, certificate, WitnessBytes(lib, tree, index));
    var q := Query(response, canisterId, rootKey, UserPath(index), clock);
    forall u: User ensures ic.digest(UserAsHashTree(lib, u)) == UserRootHash(lib, u) {
      UserViewsAgree(ic, lib, u);
    }
    forall i | 0 <= i < |EnforcedOrder| ensures Holds(ic, decodeUser, q, EnforcedOrder[i]) {
    }
    EnforcedAccepts(ic, decodeUser, response, canisterId, rootKey, UserPath(index), clock);
  }

  /**
   * Soundness: the enforcing client returns a value only when the
   * certificate is signed under the root key and fresh, certifies 32 bytes of
   * data for the canister, the witness hashes to exactly those bytes, and the
   * witness holds that very value at the queried path.
   */
  lemma AcceptedMeansCertified<T>(
    ic: Library, decodeValue: Bytes -> Option<T>, response: Response<T>,
    canisterId: Bytes, rootKey: Bytes, path: seq<Bytes>, clock: int)
    requires VerifyQueryResponse(ic, decodeValue, response, canisterId, rootKey, path, clock).Ok?
    ensures ic.decodeCertificate(response.certificate).Some?
    ensures var certificate := ic.decodeCertificate(response.certificate).value;
      && ic.verify(certificate, canisterId, rootKey)
      && clock >= 0 && ic.timeValid(certificate, clock, MaxCertTimeOffsetNs)
      && ic.lookupPath(certificate.tree, CertifiedDataPath(canisterId)).Found?
      && |ic.lookupPath(certificate.tree, CertifiedDataPath(canisterId)).value| == 32
    ensures ic.decodeTree(response.encodedWitness).Some?
    ensures var certificate := ic.decodeCertificate(response.certificate).value;
      var witnessTree := ic.decodeTree(response.encodedWitness).value;
      && ic.digest(witnessTree) == ic.lookupPath(certificate.tree, CertifiedDataPath(canisterId)).value
      && ic.lookupPath(witnessTree, path).Found?
      && decodeValue(ic.lookupPath(witnessTree, path).value) == Some(response.value)
  {
    var q := Query(response, canisterId, rootKey, path, clock);
    var o := EnforcedOrder;
    EnforcedOutcome(ic, decodeValue, response, canisterId, rootKey, path, clock);
    assert Holds(ic, decodeValue, q, o[0]) && Holds(ic, decodeValue, q, o[1]);
    assert Holds(ic, decodeValue, q, o[2]) && Holds(ic, decodeValue, q, o[3]);
    assert Holds(ic, decodeValue, q, o[5]) && Holds(ic, decodeValue, q, o[7]);
    assert Holds(ic, decodeValue, q, o[10]);
  }

  /**
   * A response whose value was swapped after certification is refused at the
   * value comparison, when the original response got through.
   */
  lemma TamperedValueRejected<T>(
    ic: Library, decodeValue: Bytes -> Option<T>, response: Response<T>, forged: T,
    canisterId: Bytes, rootKey: Bytes, path: seq<Bytes>, clock: int)
    requires VerifyQueryResponse(ic, decodeValue, response, canisterId, rootKey, path, clock).Ok?
    requires forged != response.value
    ensures VerifyQueryResponse(ic, decodeValue, response.(value := forged), canisterId, rootKey, path, clock)
         == Err(MatchValue)
  {
    var q := Query(response, canisterId, rootKey, path, clock);
    var forgedQuery := Query(response.(value := forged), canisterId, rootKey, path, clock);
    EnforcedOutcome(ic, decodeValue, response, canisterId, rootKey, path, clock);
    forall i | 0 <= i < 10 ensures Holds(ic, decodeValue, forgedQuery, EnforcedOrder[i]) {
      assert Holds(ic, decodeValue, q, EnforcedOrder[i]);
    }
    assert Holds(ic, decodeValue, q, EnforcedOrder[10]);
    EnforcedRejectsAt(ic, decodeValue, response.(value := forged), canisterId, rootKey, path, clock, 10);
  }

  /**
   * The report block prints four `true`s for a response exactly when the
   * enforcing client, given the same response and clock, accepts it.
   */
  lemma CleanReportIffAccepted(
    ic: Library, decodeUser: Bytes -> Option<User>, response: Response<User>,
    canisterId: Bytes, rootKey: Bytes, index: U64, clock: int)
    ensures (CheckReport(ic, decodeUser, response, canisterId, rootKey, index, clock)
             == Ok(Report(true, true, true, true, response.value)))
        <==> (VerifyQueryResponse(ic, decodeUser, response, canisterId, rootKey, UserPath(index), clock)
              == Ok(response.value))
  {
    var q := ReportQuery(response, canisterId, rootKey, index, clock);
    ReportOutcome(ic, decodeUser, response, canisterId, rootKey, index, clock);
    EnforcedOutcome(ic, decodeUser, response, canisterId, rootKey, UserPath(index), clock);
    var clean := CheckReport(ic, decodeUser, response, canisterId, rootKey, index, clock)
                 == Ok(Report(true, true, true, true, response.value));
    var accepted := FirstFailing(ic, decodeUser, q, EnforcedOrder).None?;
    if accepted {
      PassingCarriesOver(ic, decodeUser, q, EnforcedOrder, ReportOrder);
      assert Holds(ic, decodeUser, q, EnforcedOrder[2]) && Holds(ic, decodeUser, q, EnforcedOrder[3]);
      assert Holds(ic, decodeUser, q, EnforcedOrder[7]) && Holds(ic, decodeUser, q, EnforcedOrder[10]);
    }
    if clean {
      assert FirstFailing(ic, decodeUser, q, ReportOrder).None?;
      forall i | 0 <= i < |EnforcedOrder| ensures Holds(ic, decodeUser, q, EnforcedOrder[i]) {
        var o := ReportOrder;
        assert Holds(ic, decodeUser, q, o[0]) && Holds(ic, decodeUser, q, o[1]) && Holds(ic, decodeUser, q, o[2]);
        assert Holds(ic, decodeUser, q, o[3]) && Holds(ic, decodeUser, q, o[4]);
        assert Holds(ic, decodeUser, q, o[5]) && Holds(ic, decodeUser, q, o[6]);
      }
    }
  }

  /** Only reading the clock and the time check depend on the clock. */
  lemma ClockIrrelevant<T>(ic: Library, decodeValue: Bytes -> Option<T>, q: Query<T>, clock: int, check: Check)
    requires check != ReadClock && check != CheckTime
    ensures Holds(ic, decodeValue, q.(clock := clock), check) == Holds(ic, decodeValue, q, check)
  {
  }

  /**
   * Whatever the enforcing client accepts on `["user", index]`, the
   * JavaScript client accepts too when asked for the same index.
   */
  lemma EnforcedAcceptanceGivesJsAcceptance<T>(
    ic: Library, decodeValue: Bytes -> Option<T>, response: Response<T>,
    canisterId: Bytes, rootKey: Bytes, index: U64, clock: int)
    requires VerifyQueryResponse(ic, decodeValue, response, canisterId, rootKey, UserPath(index), clock).Ok?
    ensures Verdict(FirstFailing(ic, decodeValue, JsQuery(response, canisterId, rootKey, index), JsOrder), response.value)
         == Ok(response.value)
  {
    var q := Query(response, canisterId, rootKey, UserPath(index), clock);
    var jsQuery := JsQuery(response, canisterId, rootKey, index);
    assert jsQuery == q.(clock := 0);
    EnforcedOutcome(ic, decodeValue, response, canisterId, rootKey, UserPath(index), clock);
    PassingCarriesOver(ic, decodeValue, q, EnforcedOrder, JsOrder);
    forall i | 0 <= i < |JsOrder| ensures Holds(ic, decodeValue, jsQuery, JsOrder[i]) {
      assert Holds(ic, decodeValue, q, JsOrder[i]);
      ClockIrrelevant(ic, decodeValue, q, 0, JsOrder[i]);
    }
  }

  /**
   * The converse fails: a witness whose digest is not the certified data
   * gets through the JavaScript client, which only logs that comparison,
   * while the enforcing client refuses it. The same holds for a certificate
   * that fails `validate_certificate_time` as far as this repository's code
   * goes: `verifyCertificate` only logs `verifyTime`, and any age check
   * inside the library's `verify` is part of the abstract `verify`.
   */
  lemma JsMissesDigestAndTime<T>(
    ic: Library, decodeValue: Bytes -> Option<T>, response: Response<T>,
    canisterId: Bytes, rootKey: Bytes, index: U64, clock: int)
    requires FirstFailing(ic, decodeValue, JsQuery(response, canisterId, rootKey, index), JsOrder).None?
    requires !Holds(ic, decodeValue, Query(response, canisterId, rootKey, UserPath(index), clock), MatchDigest)
          || !Holds(ic, decodeValue, Query(response, canisterId, rootKey, UserPath(index), clock), CheckTime)
    ensures Verdict(FirstFailing(ic, decodeValue, JsQuery(response, canisterId, rootKey, index), JsOrder), response.value)
         == Ok(response.value)
    ensures VerifyQueryResponse(ic, decodeValue, response, canisterId, rootKey, UserPath(index), clock).Err?
  {
    var q := Query(response, canisterId, rootKey, UserPath(index), clock);
    EnforcedOutcome(ic, decodeValue, response, canisterId, rootKey, UserPath(index), clock);
    assert !Holds(ic, decodeValue, q, EnforcedOrder[7]) || !Holds(ic, decodeValue, q, EnforcedOrder[3]);
  }

  /**
   * `get_user` on a valid store followed by `verify_query_response`: the
   * record stored under `index` comes back verified, under the library
   * guarantees of `HonestResponseVerifies`.
   */
  method ServeAndVerify(
    store: UserStore, ic: Library, decodeUser: Bytes -> Option<User>,
    index: U64, certificate: Bytes, canisterId: Bytes, rootKey: Bytes, clock: int)
    returns (r: Result<User, Check>)
    requires store.Valid()
    requires LookupUser(store.tree, index).Ok?
    requires ic.decodeCertificate(certificate).Some?
    requires ic.verify(ic.decodeCertificate(certificate).value, canisterId, rootKey)
    requires clock >= 0 && ic.timeValid(ic.decodeCertificate(certificate).value, clock, MaxCertTimeOffsetNs)
    requires ic.lookupPath(ic.decodeCertificate(certificate).value.tree, CertifiedDataPath(canisterId))
          == Found(store.certifiedData)
    requires forall bytes :: ic.digest(Leaf(bytes)) == store.lib.leafHash(bytes)
    requires ic.decodeTree(WitnessBytes(store.lib, store.tree, index)) == Some(store.lib.witnessFor(store.tree, UserPath(index)))
    requires (forall u: User :: ic.digest(UserAsHashTree(store.lib, u)) == UserRootHash(store.lib, u))
         ==> ic.digest(store.lib.witnessFor(store.tree, UserPath(index))) == store.lib.rootHash(store.tree)
    requires ic.lookupPath(store.lib.witnessFor(store.tree, UserPath(index)), UserPath(index))
          == Found(UserAsHashTree(store.lib, LookupUser(store.tree, index).value).value)
    requires decodeUser(store.lib.cbor(LookupUser(store.tree, index).value)) == Some(LookupUser(store.tree, index).value)
    ensures r == Ok(LookupUser(store.tree, index).value)
  {
    var served := store.GetUser(index, Some(certificate));
    assert store.calls != [];
    var response := served.value;
    HonestResponseVerifies(ic, store.lib, decodeUser, store.tree, index, certificate, canisterId, rootKey, clock);
    r := VerifyQueryResponse(ic, decodeUser, response, canisterId, rootKey, UserPath(index), clock);
  }
}
