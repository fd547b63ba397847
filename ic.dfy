/**
 * The Internet Computer certification interface the clients build on:
 * hash trees, path lookup results, certificates, and the library operations
 * over them. The operations live in libraries outside this repository (BLS
 * signature checking, SHA-256, CBOR decoding, the time check), so they are
 * carried as function-valued fields of `Library` and nothing is assumed
 * about them beyond what a lemma states in its `requires`.
 */
module Ic {
  import opened Common

  /** A SHA-256 digest. */
  type Hash = h: Bytes | |h| == 32 witness seq(32, _ => 0)

  datatype HashTree =
    | Empty
    | Fork(left: HashTree, right: HashTree)
    | Labeled(key: Bytes, subtree: HashTree)
    | Leaf(value: Bytes)
    | Pruned(digest: Hash)

  /** Outcome of looking a label path up in a (possibly pruned) hash tree. */
  datatype LookupResult = Found(value: Bytes) | Absent | Unknown | Error

  /** A decoded certificate: the signed state tree and its signature. */
  datatype Certificate = Certificate(tree: HashTree, signature: Bytes, delegation: Option<Bytes>)

  datatype Library = Library(
    /** CBOR-decoding of a certificate blob; `None` when malformed. */
    decodeCertificate: Bytes -> Option<Certificate>,
    /** `certificate.verify(canister_id, root_key)`: signature (and delegation) check. */
    verify: (Certificate, Bytes, Bytes) -> bool,
    /** `validate_certificate_time(certificate, now_ns, max_offset_ns)`. */
    timeValid: (Certificate, nat, nat) -> bool,
    /** `HashTree::lookup_path`. */
    lookupPath: (HashTree, seq<Bytes>) -> LookupResult,
    /** `HashTree::digest` (the JavaScript agent calls it `reconstruct`). */
    digest: HashTree -> Hash,
    /** CBOR-decoding of a witness into a hash tree; `None` when malformed. */
    decodeTree: Bytes -> Option<HashTree>
  )
}
