/**
 * The certified user store of the canister backend: a process-wide counter
 * and a two-level ordered map `"user"` -> 8-byte big-endian index -> `User`,
 * whose root hash is republished as the canister's certified data after
 * every insertion.
 */
module Store {
  import opened Common
  import opened ByteOrder
  import opened Ic
  import opened Layout

  /** `RbTree<[u8; 8], User>` */
  type Inner = map<Bytes, User>
  /** `RbTree<&'static str, RbTree<[u8; 8], User>>` */
  type Tree = map<Bytes, Inner>

  /** Why `get_user` traps. */
  datatype StoreError = NoDataCertificate | TreeNotInitialized | UserNotFound

  /**
   * What the backend takes from `ic_certified_map` and `serde_cbor`; these are
   * outside this repository and carried as functions.
   */
  datatype CertifiedMap = CertifiedMap(
    /** `serde_cbor::to_vec(&user)` */
    cbor: User -> Bytes,
    /** `ic_certified_map::leaf_hash` */
    leafHash: Bytes -> Hash,
    /** `RbTree::root_hash` of the whole two-level tree */
    rootHash: Tree -> Hash,
    /** `tree.nested_witness(label, |inner| inner.witness(key))` for the path `[label, key]` */
    witnessFor: (Tree, seq<Bytes>) -> HashTree,
    /** `serde_cbor` serialisation of a hash tree, after the self-describe tag */
    encodeWitness: HashTree -> Bytes
  )

  /** `AsHashTree::root_hash` for `User`: the leaf hash of the record's CBOR encoding. */
  function UserRootHash(lib: CertifiedMap, user: User): Hash
  {
    lib.leafHash(lib.cbor(user))
  }

  /** `AsHashTree::as_hash_tree` for `User`: a leaf holding the record's CBOR encoding. */
  function UserAsHashTree(lib: CertifiedMap, user: User): HashTree
  {
    Leaf(lib.cbor(user))
  }

  /**
   * The two views of a record describe the same leaf: when the hash-tree
   * digest of a leaf is `leaf_hash` of its bytes, the digest of
   * `as_hash_tree` is `root_hash`.
   */
  lemma UserViewsAgree(ic: Library, lib: CertifiedMap, user: User)
    requires forall bytes :: ic.digest(Leaf(bytes)) == lib.leafHash(bytes)
    ensures UserAsHashTree(lib, user) == Leaf(lib.cbor(user))
    ensures ic.digest(UserAsHashTree(lib, user)) == UserRootHash(lib, user)
  {
  }

  /** The counter and the tree, as values. */
  datatype State = State(counter: U64, tree: Tree)

  /** `INDEX` starts at 0, `TREE` empty. */
  const Initial: State := State(0, map[])

  /**
   * `index.get() + 1` on a `u64`: wraps to 0 past `u64::MAX`, as a release
   * build does.
   */
  function NextIndex(index: U64): (next: U64)
    ensures index < Pow64 - 1 ==> next == index + 1
    ensures index == Pow64 - 1 ==> next == 0
  {
    (index + 1) % Pow64
  }

  /**
   * The tree after inserting `user` under `key`: into the existing inner map
   * when `"user"` is present, into a new one-entry inner map otherwise.
   */
  function InsertUser(tree: Tree, key: Bytes, user: User): (result: Tree)
    ensures result.Keys == tree.Keys + {UserLabel}
    ensures forall l :: l in tree && l != UserLabel ==> result[l] == tree[l]
    ensures UserLabel !in tree ==> result[UserLabel] == map[key := user]
    ensures UserLabel in tree ==>
      && result[UserLabel].Keys == tree[UserLabel].Keys + {key}
      && result[UserLabel][key] == user
      && forall k :: k in tree[UserLabel] && k != key ==> result[UserLabel][k] == tree[UserLabel][k]
  {
    if UserLabel in tree then
      tree[UserLabel := tree[UserLabel][key := user]]
    else
      tree[UserLabel := map[key := user]]
  }

  /** The record `get_user(index)` reads, or why it traps. */
  function LookupUser(tree: Tree, index: U64): (r: Result<User, StoreError>)
    ensures r.Ok? <==> UserLabel in tree && UserKey(index) in tree[UserLabel]
    ensures r.Ok? ==> r.value == tree[UserLabel][UserKey(index)]
    ensures r.Err? ==> r.error == if UserLabel in tree then UserNotFound else TreeNotInitialized
  {
    if UserLabel in tree then
      if UserKey(index) in tree[UserLabel] then Ok(tree[UserLabel][UserKey(index)])
      else Err(UserNotFound)
    else
      Err(TreeNotInitialized)
  }

  /**
   * `set_user` on values: the next index is assigned and the record is
   * inserted under its big-endian key. Afterwards the new index reads back
   * `user`, and every other index reads what it read before (or
   * "User not found" if the tree was empty).
   */
  function SetUserStep(s: State, user: User): (r: State)
    ensures r.counter == NextIndex(s.counter)
    ensures LookupUser(r.tree, r.counter) == Ok(user)
    ensures forall j: U64 :: j != r.counter ==>
      LookupUser(r.tree, j) == if UserLabel in s.tree then LookupUser(s.tree, j) else Err(UserNotFound)
  {
    var index := NextIndex(s.counter);
    var r := State(index, InsertUser(s.tree, UserKey(index), user));
    forall j: U64 | j != index
      ensures UserKey(j) != UserKey(index)
    {
      ToBeBytesInjective(j, index);
    }
    r
  }

  /** The state after `set_user` was called with `users`, in order, from the initial state. */
  function Replay(users: seq<User>): State
  {
    if users == [] then Initial else SetUserStep(Replay(users[..|users| - 1]), users[|users| - 1])
  }

  /**
   * Fewer than 2^64 calls of `set_user` assign the indices 1, 2, 3, ... in
   * order, and each record stays readable under its index: nothing is
   * overwritten, and no other index holds a record.
   */
  lemma {:induction false} ReplayAssignsConsecutiveIndices(users: seq<User>)
    requires |users| < Pow64
    ensures Replay(users).counter == |users|
    ensures Replay(users).tree.Keys == if users == [] then {} else {UserLabel}
    ensures forall i: U64 :: 1 <= i <= |users| ==> LookupUser(Replay(users).tree, i) == Ok(users[i - 1])
    ensures forall i: U64 :: LookupUser(Replay(users).tree, i).Ok? ==> 1 <= i <= |users|
  {
    if users != [] {
      var prefix := users[..|users| - 1];
      ReplayAssignsConsecutiveIndices(prefix);
      var before := Replay(prefix);
      var after := Replay(users);
      assert after == SetUserStep(before, users[|users| - 1]);
      assert after.counter == |users|;
      forall i: U64 | 1 <= i <= |users|
        ensures LookupUser(after.tree, i) == Ok(users[i - 1])
      {
        if i < |users| {
          assert LookupUser(before.tree, i) == Ok(prefix[i - 1]);
        }
      }
    }
  }

  /** The witness `get_user(index)` returns: for exactly the path `["user", index.to_be_bytes()]`. */
  function WitnessBytes(lib: CertifiedMap, tree: Tree, index: U64): Bytes
  {
    lib.encodeWitness(lib.witnessFor(tree, UserPath(index)))
  }

  /** The canister's thread-local state and its certified data. */
  class UserStore {
    const lib: CertifiedMap
    /** `INDEX`: the last index handed out. */
    var counter: U64
    /** `TREE` */
    var tree: Tree
    /** What `set_certified_data` last published; empty until the first call. */
    var certifiedData: Bytes
    /** Every record passed to `set_user` so far, in call order. */
    ghost var calls: seq<User>

    ghost predicate Valid()
      reads this
    {
      && State(counter, tree) == Replay(calls)
      && certifiedData == if calls == [] then [] else lib.rootHash(tree)
    }

    constructor (lib: CertifiedMap)
      ensures Valid() && this.lib == lib && calls == []
      ensures counter == 0 && tree == map[] && certifiedData == []
    {
      this.lib := lib;
      counter := 0;
      tree := map[];
      certifiedData := [];
      calls := [];
    }

    /**
     * `set_user`: bumps the counter, inserts the record under the new index's
     * big-endian key, republishes the root hash and returns the new index.
     */
    method SetUser(user: User) returns (index: U64)
      requires Valid()
      modifies this
      ensures Valid() && calls == old(calls) + [user]
      ensures index == counter == NextIndex(old(counter))
      ensures tree == InsertUser(old(tree), UserKey(index), user)
      ensures certifiedData == lib.rootHash(tree)
    {
      var count := counter + 1;
      if count == Pow64 {
        count := 0;
      }
      counter := count;
      if UserLabel in tree {
        tree := tree[UserLabel := tree[UserLabel][UserKey(count) := user]];
      } else {
        var inner := map[UserKey(count) := user];
        tree := tree[UserLabel := inner];
      }
      certifiedData := lib.rootHash(tree);
      calls := calls + [user];
      assert calls[..|calls| - 1] == old(calls);
      index := count;
    }

    /**
     * `get_user`: the record stored under `index` with the certificate and a
     * witness for `["user", index.to_be_bytes()]`; traps when there is no
     * certificate, no `"user"` subtree, or no record under the key.
     */
    method GetUser(index: U64, certificate: Option<Bytes>) returns (r: Result<Response<User>, StoreError>)
      ensures r.Ok? <==> certificate.Some? && LookupUser(tree, index).Ok?
      ensures r.Ok? ==>
        r.value == Response(LookupUser(tree, index).value, certificate.value, WitnessBytes(lib, tree, index))
      ensures r.Err? ==>
        r.error == if certificate.None? then NoDataCertificate else LookupUser(tree, index).error
    {
      if certificate.None? {
        return Err(NoDataCertificate);
      }
      if UserLabel !in tree {
        return Err(TreeNotInitialized);
      }
      var inner := tree[UserLabel];
      if UserKey(index) !in inner {
        return Err(UserNotFound);
      }
      var user := inner[UserKey(index)];
      var encoded := lib.encodeWitness(lib.witnessFor(tree, UserPath(index)));
      return Ok(Response(user, certificate.value, encoded));
    }
  }

  /** Two records stored one after the other read back under indices 1 and 2. */
  method AliceThenBob(lib: CertifiedMap, certificate: Bytes)
  {
    var store := new UserStore(lib);
    var alice := User("Alice", 30);
    var bob := User("Bob", 25);
    var first := store.SetUser(alice);
    var second := store.SetUser(bob);
    ReplayAssignsConsecutiveIndices(store.calls);
    assert store.calls == [alice, bob];
    assert first == 1 && second == 2;
    var got := store.GetUser(1, Some(certificate));
    assert LookupUser(store.tree, 1) == Ok(alice);
    assert got.Ok? && got.value.value == alice;
    var got2 := store.GetUser(2, Some(certificate));
    assert LookupUser(store.tree, 2) == Ok(bob);
    assert got2.Ok? && got2.value.value == bob;
  }
}
