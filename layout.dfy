/**
 * The data the canister certifies and the label paths under which the store
 * keeps it and the clients look for it.
 */
module Layout {
  import opened Common
  import opened ByteOrder

  datatype User = User(name: string, age: byte)

  /**
   * What `get_user` answers: the record, the platform's certificate and the
   * CBOR-encoded witness (`CertifiedUser`, `CertifiedQueryResponse<T>`).
   */
  datatype Response<T> = Response(value: T, certificate: Bytes, encodedWitness: Bytes)

  /** `b"user"` */
  const UserLabel: Bytes := [0x75, 0x73, 0x65, 0x72]
  /** `b"canister"` */
  const CanisterLabel: Bytes := [0x63, 0x61, 0x6e, 0x69, 0x73, 0x74, 0x65, 0x72]
  /** `b"certified_data"` */
  const CertifiedDataLabel: Bytes :=
    [0x63, 0x65, 0x72, 0x74, 0x69, 0x66, 0x69, 0x65, 0x64, 0x5f, 0x64, 0x61, 0x74, 0x61]

  /** The key of the record with index `index`: `index.to_be_bytes()`. */
  function UserKey(index: U64): (key: Bytes)
    ensures |key| == 8 && FromBeBytes(key) == index
  {
    ToBeBytesRoundTrip(index);
    ToBeBytes(index)
  }

  /** `["user", index.to_be_bytes()]`: where record `index` lives. */
  function UserPath(index: U64): (path: seq<Bytes>)
    ensures |path| == 2 && path[0] == UserLabel
    ensures |path[1]| == 8 && FromBeBytes(path[1]) == index
  {
    [UserLabel, UserKey(index)]
  }

  /** `["canister", canister_id, "certified_data"]` in the certificate's tree. */
  function CertifiedDataPath(canisterId: Bytes): (path: seq<Bytes>)
    ensures |path| == 3 && path[1] == canisterId
    ensures forall index :: path != UserPath(index)
  {
    [CanisterLabel, canisterId, CertifiedDataLabel]
  }

  /** Distinct indices name distinct records. */
  lemma UserPathInjective(i: U64, j: U64)
    ensures UserPath(i) == UserPath(j) <==> i == j
  {
    ToBeBytesInjective(i, j);
    if UserPath(i) == UserPath(j) {
      assert UserKey(i) == UserPath(i)[1];
    }
  }
}
