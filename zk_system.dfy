/**
 * The commitment-attestation engine: commitments digest a player's chosen
 * number with a nonce and a timestamp and are kept in a dictionary until they
 * expire; an attestation is a mock challenge/response over a nine-leaf Merkle
 * tree whose last leaf is the commitment, and verifying it checks only that
 * its fields are non-empty and that it is at most ten minutes old.
 */
module ZkSystem {
  import opened Wrappers
  import opened Merkle
  import Decimal

  /** Python's `str()` of a float timestamp, left uninterpreted. */
  type ShowReal = real -> string

  /** An attestation is accepted for this many seconds after it is issued. */
  const ProofLifetimeSeconds: real := 600.0

  /** Number of synthetic leaves placed before the commitment in the attestation tree. */
  const FillerCount: nat := 8

  datatype Commitment = Commitment(
    playerAddress: string,
    number: int,
    nonce: string,
    timestamp: real,
    commitmentHash: string)

  datatype ZKProof = ZKProof(
    commitment: string,
    challenge: string,
    response: string,
    merkleProof: seq<string>,
    merkleRoot: string,
    timestamp: real)

  /** The string a commitment digests: player, number, nonce and timestamp written one after another. */
  function CommitmentPreimage(show: ShowReal, player: string, number: int, nonce: string, timestamp: real): string {
    player + Decimal.IntToString(number) + nonce + show(timestamp)
  }

  /** The commitment digest. */
  function CommitmentHash(H: Hash, show: ShowReal, player: string, number: int, nonce: string, timestamp: real): string {
    H(CommitmentPreimage(show, player, number, nonce, timestamp))
  }

  /**
   * For a fixed player, nonce and timestamp the preimage determines the bet
   * number, so under a collision-free hash so does the digest.
   */
  lemma CommitmentBindsNumber(H: Hash, show: ShowReal, player: string, n1: int, n2: int, nonce: string, timestamp: real)
    ensures CommitmentPreimage(show, player, n1, nonce, timestamp) == CommitmentPreimage(show, player, n2, nonce, timestamp)
            <==> n1 == n2
    ensures (forall a, b :: H(a) == H(b) ==> a == b) ==>
      (CommitmentHash(H, show, player, n1, nonce, timestamp) == CommitmentHash(H, show, player, n2, nonce, timestamp)
       <==> n1 == n2)
  {
    var a := Decimal.IntToString(n1);
    var b := Decimal.IntToString(n2);
    var p1 := CommitmentPreimage(show, player, n1, nonce, timestamp);
    var p2 := CommitmentPreimage(show, player, n2, nonce, timestamp);
    if p1 == p2 {
      assert |a| == |b|;
      assert p1[|player|..|player| + |a|] == a;
      assert p2[|player|..|player| + |b|] == b;
      Decimal.IntToStringRoundTrip(n1);
      Decimal.IntToStringRoundTrip(n2);
    }
  }

  /** The storage key of a commitment: player and timestamp joined by an underscore. */
  function CommitmentId(show: ShowReal, player: string, timestamp: real): string {
    player + "_" + show(timestamp)
  }

  /** Every stored commitment sits under its own key and carries its own digest. */
  ghost predicate WellFormedStore(H: Hash, show: ShowReal, storage: map<string, Commitment>) {
    forall k :: k in storage ==>
      var c := storage[k];
      && k == CommitmentId(show, c.playerAddress, c.timestamp)
      && c.commitmentHash == CommitmentHash(H, show, c.playerAddress, c.number, c.nonce, c.timestamp)
  }

  /** The eight synthetic leaves `leaf_<i>_<commitment>`, hashed. */
  function FillerLeaves(H: Hash, commitment: string): seq<string> {
    seq(FillerCount, i requires 0 <= i < FillerCount => H("leaf_" + Decimal.IntToString(i) + "_" + commitment))
  }

  /** The leaves of the attestation tree: the fillers, then the commitment itself. */
  function AttestationLeaves(H: Hash, commitment: string): seq<string> {
    FillerLeaves(H, commitment) + [commitment]
  }

  /**
   * The attestation issued for a commitment. The challenge is taken at
   * `challengeTime` and the attestation is stamped at `issuedAt`: the source
   * reads the clock twice.
   */
  function Attestation(H: Hash, show: ShowReal, commitment: string, secretKey: string,
                       challengeTime: real, issuedAt: real): ZKProof
  {
    var leaves := AttestationLeaves(H, commitment);
    var root := Root(H, leaves);
    var challenge := H(commitment + root + show(challengeTime));
    ZKProof(commitment, challenge, H(challenge + secretKey), Path(Levels(H, leaves), FillerCount), root, issuedAt)
  }

  /** `verify_zk_proof`: structural non-emptiness and freshness only; the player address plays no part. */
  function VerifyZkProof(proof: ZKProof, playerAddress: string, now: real): (valid: bool)
    ensures (proof.commitment == "" || proof.challenge == "" || proof.response == "" || proof.merkleRoot == "") ==> !valid
    ensures now - proof.timestamp > ProofLifetimeSeconds ==> !valid
    ensures (&& proof.commitment != "" && proof.challenge != "" && proof.response != "" && proof.merkleRoot != ""
             && now - proof.timestamp <= ProofLifetimeSeconds) ==> valid
  {
    && proof.commitment != ""
    && proof.challenge != ""
    && proof.response != ""
    && proof.merkleRoot != ""
    && !(now - proof.timestamp > ProofLifetimeSeconds)
  }

  /** SHA-256 hex digests are never empty; the lemmas that need it say so. */
  ghost predicate NonEmptyDigests(H: Hash) {
    forall s :: H(s) != ""
  }

  /**
   * What an attestation holds: nine leaves, eight fillers and then the
   * commitment; the root of their tree; a one-entry proof for the commitment's
   * leaf that leads back to that root; a response bound to the challenge.
   */
  lemma AttestationShape(H: Hash, show: ShowReal, commitment: string, secretKey: string,
                         challengeTime: real, issuedAt: real)
    ensures var p := Attestation(H, show, commitment, secretKey, challengeTime, issuedAt);
      var leaves := AttestationLeaves(H, commitment);
      && |leaves| == 9
      && (forall i :: 0 <= i < 8 ==> leaves[i] == H("leaf_" + Decimal.IntToString(i) + "_" + commitment))
      && leaves[8] == commitment
      && p.commitment == commitment
      && p.merkleRoot == Root(H, leaves)
      && p.challenge == H(commitment + p.merkleRoot + show(challengeTime))
      && p.response == H(p.challenge + secretKey)
      && |Levels(H, leaves)| == 5
      && |Levels(H, leaves)[3]| == 2
      && p.merkleProof == [Levels(H, leaves)[3][0]]
      && Recompute(H, 9, 8, commitment, p.merkleProof) == Some(p.merkleRoot)
      && p.timestamp == issuedAt
  {
    var leaves := AttestationLeaves(H, commitment);
    NineLeafProof(H, leaves);
    ProofRoundTrip(H, leaves, 8);
  }

  /** A freshly issued attestation verifies exactly while it is at most 600 seconds old. */
  lemma VerifyIssued(H: Hash, show: ShowReal, commitment: string, secretKey: string,
                     challengeTime: real, issuedAt: real, playerAddress: string, now: real)
    requires NonEmptyDigests(H)
    requires commitment != ""
    ensures VerifyZkProof(Attestation(H, show, commitment, secretKey, challengeTime, issuedAt), playerAddress, now)
            <==> now - issuedAt <= 600.0
  {
    var leaves := AttestationLeaves(H, commitment);
    RootIsDigest(H, leaves);
  }

  /** The freshness boundary: valid at 599 and 600 seconds, invalid at 601, whoever asks. */
  lemma VerifyBoundary(proof: ZKProof, playerAddress: string, other: string)
    requires proof.commitment != "" && proof.challenge != "" && proof.response != "" && proof.merkleRoot != ""
    ensures VerifyZkProof(proof, playerAddress, proof.timestamp + 599.0)
    ensures VerifyZkProof(proof, playerAddress, proof.timestamp + 600.0)
    ensures !VerifyZkProof(proof, playerAddress, proof.timestamp + 601.0)
    ensures forall now :: VerifyZkProof(proof, playerAddress, now) == VerifyZkProof(proof, other, now)
    ensures forall q: ZKProof, now ::
      (q.commitment == "" || q.challenge == "" || q.response == "" || q.merkleRoot == "") ==> !VerifyZkProof(q, playerAddress, now)
  {
  }

  /** Keys whose commitment is older than `maxAgeSeconds` at `now`. */
  function ExpiredKeys(storage: map<string, Commitment>, now: real, maxAgeSeconds: int): set<string> {
    set k | k in storage && now - storage[k].timestamp > maxAgeSeconds as real
  }

  /** The commitments that survive a sweep. */
  function Unexpired(storage: map<string, Commitment>, now: real, maxAgeSeconds: int): map<string, Commitment> {
    map k | k in storage && !(now - storage[k].timestamp > maxAgeSeconds as real) :: storage[k]
  }

  /**
   * A sweep keeps every surviving entry as it was, all of them at most
   * `maxAgeSeconds` old, and removes exactly the expired ones: what is kept
   * and what is removed add up to what was stored.
   */
  lemma SweepAccounting(storage: map<string, Commitment>, now: real, maxAgeSeconds: int)
    ensures var kept := Unexpired(storage, now, maxAgeSeconds);
      var gone := ExpiredKeys(storage, now, maxAgeSeconds);
      && gone <= storage.Keys
      && kept.Keys == storage.Keys - gone
      && (forall k :: k in kept ==> kept[k] == storage[k] && now - kept[k].timestamp <= maxAgeSeconds as real)
      && |kept| + |gone| == |storage|
  {
    var kept := Unexpired(storage, now, maxAgeSeconds);
    var gone := ExpiredKeys(storage, now, maxAgeSeconds);
    assert kept.Keys == storage.Keys - gone;
    assert storage.Keys == kept.Keys + gone;
    assert kept.Keys !! gone;
    assert |storage.Keys| == |kept.Keys| + |gone|;
  }

  /** The deletion loop of `cleanup_expired_commitments`, on the dictionary's value. */
  method SweepExpired(storage: map<string, Commitment>, now: real, maxAgeSeconds: int)
    returns (kept: map<string, Commitment>, removed: nat)
    ensures kept == Unexpired(storage, now, maxAgeSeconds)
    ensures removed == |ExpiredKeys(storage, now, maxAgeSeconds)|
  {
    var expiredKeys := ExpiredKeys(storage, now, maxAgeSeconds);
    kept := storage;
    var pending := expiredKeys;
    while pending != {}
      invariant pending <= expiredKeys
      invariant kept == storage - (expiredKeys - pending)
      decreases pending
    {
      assert (forall y :: y !in pending) ==> pending == {};
      var key :| key in pending;
      kept := kept - {key};
      pending := pending - {key};
    }
    assert kept == storage - expiredKeys;
    forall k | k in storage
      ensures k in kept <==> k in Unexpired(storage, now, maxAgeSeconds)
    {
    }
    assert kept.Keys == Unexpired(storage, now, maxAgeSeconds).Keys;
    removed := |expiredKeys|;
  }

  /** A sweep keeps the store well formed. */
  lemma UnexpiredWellFormed(H: Hash, show: ShowReal, storage: map<string, Commitment>, now: real, maxAgeSeconds: int)
    requires WellFormedStore(H, show, storage)
    ensures WellFormedStore(H, show, Unexpired(storage, now, maxAgeSeconds))
  {
  }

  /** `m` is the smallest element of `s`. */
  predicate IsLeast(m: real, s: set<real>) {
    m in s && forall t :: t in s ==> m <= t
  }

  lemma LeastOfInsert(rest: set<real>, x: real, m: real)
    requires IsLeast(m, rest)
    ensures IsLeast(if x < m then x else m, rest + {x})
  {
  }

  lemma {:induction false} MinimumExists(s: set<real>)
    requires s != {}
    ensures exists m :: IsLeast(m, s)
    decreases |s|
  {
    assert (forall y :: y !in s) ==> s == {};
    var x :| x in s;
    if s == {x} {
      assert IsLeast(x, s);
    } else {
      var rest := s - {x};
      MinimumExists(rest);
      var m :| IsLeast(m, rest);
      LeastOfInsert(rest, x, m);
      assert rest + {x} == s;
    }
  }

  /** Python's `min` over a non-empty collection of timestamps. */
  function Minimum(s: set<real>): (m: real)
    requires s != {}
    ensures m in s && forall t :: t in s ==> m <= t
  {
    MinimumExists(s);
    var m :| IsLeast(m, s); m
  }

  datatype Stats = Stats(
    totalCommitments: nat,
    activeMerkleTrees: nat,
    merkleTreeDepth: int,
    oldestCommitment: real)

  class ZKSystem {
    /** The hash primitive and float formatting the system is run with. */
    const hash: Hash
    const showTime: ShowReal
    const merkleTreeDepth: int
    var commitmentStorage: map<string, Commitment>

    ghost predicate Valid()
      reads this
    {
      WellFormedStore(hash, showTime, commitmentStorage)
    }

    constructor (merkleTreeDepth: int, hash: Hash, showTime: ShowReal)
      ensures this.merkleTreeDepth == merkleTreeDepth && this.hash == hash && this.showTime == showTime
      ensures commitmentStorage == map[] && Valid()
    {
      this.merkleTreeDepth := merkleTreeDepth;
      this.hash := hash;
      this.showTime := showTime;
      commitmentStorage := map[];
    }

    /**
     * `generate_player_commitment` with its randomness (`nonce`) and clock
     * (`now`) passed in; the secret key it also hands back is independent
     * randomness and plays no part here. Stores exactly one entry, replacing
     * any entry under the same key, and returns the stored digest.
     */
    method GeneratePlayerCommitment(playerAddress: string, betNumber: int, nonce: string, now: real)
      returns (commitmentHash: string)
      requires Valid()
      modifies this
      ensures Valid()
      ensures commitmentHash == CommitmentHash(hash, showTime, playerAddress, betNumber, nonce, now)
      ensures commitmentStorage == old(commitmentStorage)[CommitmentId(showTime, playerAddress, now) :=
                Commitment(playerAddress, betNumber, nonce, now, commitmentHash)]
    {
      var commitment := Commitment(playerAddress, betNumber, nonce, now,
                                   CommitmentHash(hash, showTime, playerAddress, betNumber, nonce, now));
      var commitmentId := CommitmentId(showTime, playerAddress, now);
      commitmentStorage := commitmentStorage[commitmentId := commitment];
      commitmentHash := commitment.commitmentHash;
    }

    /** `generate_zk_proof`: builds the nine-leaf tree and the challenge/response; stores nothing. */
    method GenerateZkProof(playerAddress: string, commitmentHash: string, secretKey: string,
                           challengeTime: real, issuedAt: real)
      returns (proof: ZKProof)
      ensures proof == Attestation(hash, showTime, commitmentHash, secretKey, challengeTime, issuedAt)
    {
      var leaves := FillerLeaves(hash, commitmentHash) + [commitmentHash];
      var merkleTree := new MerkleTree(hash, leaves);
      var path := merkleTree.GetProof(|leaves| - 1);
      var challenge := hash(commitmentHash + merkleTree.root + showTime(challengeTime));
      var response := hash(challenge + secretKey);
      proof := ZKProof(commitmentHash, challenge, response, path, merkleTree.root, issuedAt);
    }

    /** `cleanup_expired_commitments`: deletes the expired keys and returns how many there were. */
    method CleanupExpiredCommitments(maxAgeSeconds: int, now: real) returns (removed: nat)
      requires Valid()
      modifies this
      ensures Valid()
      ensures commitmentStorage == Unexpired(old(commitmentStorage), now, maxAgeSeconds)
      ensures removed == |ExpiredKeys(old(commitmentStorage), now, maxAgeSeconds)|
      ensures removed == |old(commitmentStorage)| - |commitmentStorage|
    {
      var kept;
      kept, removed := SweepExpired(commitmentStorage, now, maxAgeSeconds);
      SweepAccounting(commitmentStorage, now, maxAgeSeconds);
      UnexpiredWellFormed(hash, showTime, commitmentStorage, now, maxAgeSeconds);
      commitmentStorage := kept;
    }

    /** `get_stats`; the oldest timestamp defaults to `now` when nothing is stored. */
    function GetStats(now: real): (s: Stats)
      reads this
      ensures s.totalCommitments == |commitmentStorage|
      ensures s.activeMerkleTrees == 0 && s.merkleTreeDepth == merkleTreeDepth
      ensures commitmentStorage == map[] ==> s.oldestCommitment == now
      ensures commitmentStorage != map[] ==>
        (exists k :: k in commitmentStorage && commitmentStorage[k].timestamp == s.oldestCommitment)
        && forall k :: k in commitmentStorage ==> s.oldestCommitment <= commitmentStorage[k].timestamp
    {
      var stamps := set k | k in commitmentStorage :: commitmentStorage[k].timestamp;
      var oldest := if stamps == {} then now else Minimum(stamps);
      assert forall k :: k in commitmentStorage ==> commitmentStorage[k].timestamp in stamps;
      assert commitmentStorage != map[] ==> stamps != {} by {
        if commitmentStorage != map[] {
          var k :| k in commitmentStorage;
          assert commitmentStorage[k].timestamp in stamps;
        }
      }
      Stats(|commitmentStorage|, 0, merkleTreeDepth, oldest)
    }
  }
}
