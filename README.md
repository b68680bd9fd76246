# ZK-Roulette backend core in Dafny

This project models the sequential logic of the ZK-Roulette Python backend and proves properties of it. It has three parts.

- **Commitment–attestation engine** (`backend/zk_system.py`). A commitment digests a player's bet number with a nonce and a timestamp, and is stored by player and time until it expires. The Merkle tree hashes adjacent pairs level by level; the last node of an odd level is paired with itself. Inclusion proofs collect in-range siblings. An attestation is a mock challenge/response over a nine-leaf tree whose last leaf is the commitment. Verifying it checks only that its fields are non-empty and that it is at most 600 seconds old.
- **Risk model** (`backend/bayesian_analyzer.py`). Each roulette number 0..36 has a Beta(alpha, beta) prior of (1, 36). Each player has a profile with bets, wins, amount, profit/loss, a win rate, and a risk score equal to twice the win rate. The score is not clamped. Risk assessment has three bands and the analytics report gives totals.
- **Admission rules of the HTTP layer** (`backend/main_v2.py`), lifted out of the handlers:
  - request validation;
  - a per-address one-hour sliding-window rate limiter (50 bets);
  - create-once sessions and the sweep of sessions idle for more than 24 hours;
  - the suspension gate `risk_score > 0.8`;
  - the mock transaction, whose `data` field is the bet number as 32 big-endian bytes in hex.

Modules:

- `Wrappers` holds `Option` and `Result`.
- `Decimal` models Python's `str()` of an int, with a parser that proves it injective.
- `Merkle` models the tree.
- `ZkSystem` models the commitment store and attestations.
- `Bayesian` models the analyzer.
- `HexCodec` models `int.to_bytes(n, 'big')` and `bytes.hex()`, each with a decoder.
- `Admission` models the API layer.

The model keeps the source's form. The following become classes whose methods state their whole new state:

- `MerkleTree`, whose fields never change after construction;
- `ZKSystem`, which holds the commitment dictionary;
- `BayesianAnalyzer`, which holds the parameter, frequency and profile dictionaries;
- `ApiState`, which holds the rate-limit and session dictionaries.

Each loop is a method proved against a specification function:

- `BuildTree` against `Levels`;
- `GetProof` against `Path`;
- the two deletion sweeps against `Unexpired` and `ActiveSessions`.

What is promised is then proved about those functions as lemmas.

Inputs that depend on the environment are parameters:

- SHA-256 is a function parameter `H: string -> string`, and no property of it is assumed. The one lemma that needs digests to be non-empty says so in its precondition.
- Python's `str()` of a float timestamp is a function parameter.
- The clock (`time.time()`, `datetime.now()`) is a parameter.
- Randomness (`secrets.token_hex` nonces, secret keys and session ids) is passed in.

Timestamps are seconds as `real`, and amounts, rates and scores are `real`.

An inclusion proof skips a sibling that falls outside its level, so it can be shorter than the tree is tall. In the nine-leaf attestation tree, the proof of leaf 8 has exactly one entry (`Merkle.NineLeafProof`, `ZkSystem.AttestationShape`). Risk scores are not clamped and range over [0, 2].

## Model

| member | source | states |
|---|---|---|
| `Decimal.IntToStringRoundTrip` | backend/zk_system.py:31 | `str()` of the bet number in the commitment preimage loses nothing: the decimal rendering parses back to the number. |
| `Decimal.NatToStringValue` | backend/zk_system.py:31 | The digits of a natural number denote that number. |
| `Decimal.NatToString` | backend/zk_system.py:31 | The rendering is non-empty, all digits, with no leading zero. |
| `Merkle.BuildTree` | backend/zk_system.py:41-59 | The level-by-level pairing loop computes exactly `Levels`: none for no leaves, the leaves themselves at level 0, and each level's parents above it. |
| `Merkle.LevelsShape` | backend/zk_system.py:39-59 | The tree is empty iff there are no leaves. Otherwise level 0 is the leaves, each level above is half the one below rounded up, the last level has one node, and that node is the root. |
| `Merkle.LevelsParent` | backend/zk_system.py:51-55 | Parent j is the hash of children 2j and 2j+1, or of child 2j twice when 2j+1 is out of range. |
| `Merkle.MerkleTree.constructor` | backend/zk_system.py:36-39 | The tree and root fields hold the levels and root of the given leaves; the root is `""` for no leaves. |
| `Merkle.MerkleTree.GetProof` | backend/zk_system.py:61-75 | No proof for an index at or past the leaf count. Otherwise the collected siblings are `Path`, each level contributing its `index ^ 1` sibling only when in range. There are at most as many entries as levels above the leaves. |
| `Merkle.PathLength` | backend/zk_system.py:69-73 | A proof has at most one entry per level above the leaves. |
| `Merkle.ProofRoundTrip` | backend/zk_system.py:61-75 | For every leaf, replaying its proof from the leaf with the reference verifier `Recompute` yields the root. |
| `Merkle.RootIsDigest` | backend/zk_system.py:39 | The root of two or more leaves is a hash output. |
| `Merkle.NineLeafProof` | backend/zk_system.py:69-73 | In a nine-leaf tree (five levels), leaf 8's proof is the single level-3 sibling. |
| `ZkSystem.ZKSystem.constructor` | backend/zk_system.py:79-81 | A new system stores no commitments and keeps the given tree depth. |
| `ZkSystem.ZKSystem.GeneratePlayerCommitment` | backend/zk_system.py:93-102 | Stores exactly one commitment under `player + "_" + str(ts)`, replacing any entry with that key and leaving all others. Returns the stored digest `H(player + str(number) + nonce + str(ts))`. |
| `ZkSystem.ZKSystem.GenerateZkProof` | backend/zk_system.py:104-139 | The result is the attestation of the commitment and nothing is stored. |
| `ZkSystem.AttestationShape` | backend/zk_system.py:113-139 | The attestation has eight filler leaves `H("leaf_" + i + "_" + c)` and then `c`, and its root is their tree's root. Its proof is the one-entry proof of leaf 8, which leads back to that root. The challenge hashes commitment, root and time, and the response is `H(challenge + secret_key)`. |
| `ZkSystem.CommitmentBindsNumber` | backend/zk_system.py:29-32 | For a fixed player, nonce and timestamp, two commitment preimages are equal iff the bet numbers are. So under a collision-free hash, the digest binds the number. |
| `ZkSystem.VerifyZkProof` | backend/zk_system.py:141-162 | An attestation is valid iff its commitment, challenge, response and root are all non-empty and it is at most 600 seconds old. Any empty field gives false. |
| `ZkSystem.VerifyIssued` | backend/zk_system.py:141-159 | A freshly issued attestation verifies iff its age is at most 600 seconds. |
| `ZkSystem.VerifyBoundary` | backend/zk_system.py:145-155 | With non-empty fields, an attestation is valid at ages 599 and 600 and invalid at 601, whatever the player address. An attestation with any empty field is invalid at every time. |
| `ZkSystem.SweepExpired` | backend/zk_system.py:166-175 | The deletion loop leaves exactly the unexpired entries and counts the expired keys. |
| `ZkSystem.SweepAccounting` | backend/zk_system.py:164-175 | The sweep deletes only stored keys, keeps the rest unchanged with age at most the maximum, and kept plus removed equals the original size. |
| `ZkSystem.UnexpiredWellFormed` | backend/zk_system.py:164-175 | After a sweep, every entry still sits under its own key and carries its own digest. |
| `ZkSystem.ZKSystem.CleanupExpiredCommitments` | backend/zk_system.py:164-175 | Removes exactly the entries with `now - ts > max_age` and returns how many, which equals the drop in size. |
| `ZkSystem.Minimum` | backend/zk_system.py:183-186 | The minimum of a non-empty set of timestamps is one of them and no greater than any of them. |
| `ZkSystem.ZKSystem.GetStats` | backend/zk_system.py:177-187 | Counts the stored commitments and reports no active trees and the configured depth. The oldest timestamp is a stored one no later than any other, or `now` when the store is empty. |
| `Bayesian.BayesianAnalyzer.constructor` | backend/bayesian_analyzer.py:36-52 | Every number 0..36 starts with alpha 1, beta 36 and frequency 0. There are no profiles or events, and the thresholds are 0.8 and 0.9. |
| `Bayesian.BayesianAnalyzer.GetBayesianProbabilityDistribution` | backend/bayesian_analyzer.py:54-82 | Gives an error iff the number is outside 0..36. Otherwise it returns the number's alpha and beta, observations = alpha + beta - 37, and mean = alpha/(alpha+beta), which lies strictly between 0 and 1. |
| `Bayesian.PriorPosterior` | backend/bayesian_analyzer.py:38-39 | On a fresh analyzer, every number's posterior has mean 1/37 and no observations. |
| `Bayesian.RecordBet` | backend/bayesian_analyzer.py:100-115 | One bet adds 1 to total bets and the amount (default 0) to the total amount. A win adds 1 to wins and `payout - amount` to profit/loss. A loss, including a missing `won`, subtracts the amount. The win rate becomes wins/bets and the risk score twice that. |
| `Bayesian.BayesianAnalyzer.UpdatePlayerStats` | backend/bayesian_analyzer.py:84-115 | Creates a zeroed profile on first sight, then records the bet in that player's profile only. The parameters, frequencies, events and other profiles are unchanged. |
| `Bayesian.RecordBetConsistent` | backend/bayesian_analyzer.py:114-115 | After any bet, `0 <= wins <= total_bets`, the win rate is in [0, 1], and the risk score is in [0, 2], unclamped above 1. |
| `Bayesian.RateBounds` | backend/bayesian_analyzer.py:114 | `wins / total_bets` with `0 <= wins <= total_bets` lies in [0, 1]. |
| `Bayesian.ReplayCounts` | backend/bayesian_analyzer.py:100-115 | Any run of bets counts each bet once and each win once and keeps the profile consistent. |
| `Bayesian.TenBetsSixWins` | backend/bayesian_analyzer.py:114-133 | Ten bets with six wins give a win rate of 0.6, a risk score of 1.2, and HIGH. |
| `Bayesian.Classify` | backend/bayesian_analyzer.py:125-133 | LOW iff score < 0.3, MEDIUM iff 0.3 <= score < 0.6, HIGH iff score >= 0.6. |
| `Bayesian.ClassifyByWinRate` | backend/bayesian_analyzer.py:115-133 | For a consistent profile, the bands fall at win rates 0.15 and 0.3. |
| `Bayesian.BayesianAnalyzer.GetPlayerRiskAssessment` | backend/bayesian_analyzer.py:117-146 | Returns not-found iff the player has no profile. Otherwise it copies the profile's score, bets, rate and blacklist flag, gives the band and its recommendation, and reports zero suspicious events. |
| `Bayesian.SumFrequenciesBounds` | backend/bayesian_analyzer.py:153 | A sum of non-negative frequencies is non-negative, and is 0 when all are 0. |
| `Bayesian.BayesianAnalyzer.ExportAnalyticsReport` | backend/bayesian_analyzer.py:148-157 | Total players is the number of profiles and total spins is the sum of the frequencies of 0..36. Spins are non-negative and 0 when every frequency is 0, and the high-risk and suspicious-event counts are 0. |
| `HexCodec.IntToBytes` | backend/main_v2.py:297 | `to_bytes(len, 'big')` succeeds iff `0 <= n < 256^len`, giving `len` bytes that denote n. |
| `HexCodec.BytesRoundTrip` | backend/main_v2.py:297 | Encoding a number that fits and decoding it gives the number back. |
| `HexCodec.BytesRoundTripBack` | backend/main_v2.py:297 | Decoding bytes and re-encoding at the same width gives the bytes back. |
| `HexCodec.FromBytesBound` | backend/main_v2.py:297 | k bytes denote a number below 256^k. |
| `HexCodec.Hex` | backend/main_v2.py:297 | `bytes.hex()` gives two lowercase hex digits per byte. |
| `HexCodec.HexRoundTrip` | backend/main_v2.py:297 | The hex text decodes back to the bytes. |
| `Admission.ValidateAmount` | backend/main_v2.py:114-120 | Accepts v iff 0.001 <= v <= 10.0 and returns it unchanged. Below the minimum is reported first, and above the maximum otherwise. |
| `Admission.ValidateBetRequest` | backend/main_v2.py:109-120 | With the intended address check, a request validates iff the number is in 0..36, the amount is within the bounds, and the address is exactly `0x` plus 40 hex digits. Otherwise each failing field reports exactly its own error. The amount validator's errors appear only when `amount > 0`. |
| `Admission.ValidateBetRequestAsWritten` | backend/main_v2.py:109-120 | The same validation with the address pattern as the request model applies it: a request validates iff number and amount are in range and the address matches the pattern, which also accepts one trailing newline. |
| `Admission.ValidatorsAgree` | backend/main_v2.py:112 | The two validators give the same verdict and errors on every address that is not 43 characters ending in a newline. |
| `Admission.NewlineRequestAccepted` | backend/main_v2.py:109-120 | As written, a valid request whose address carries a trailing newline is accepted unchanged, while the intended check rejects it with exactly the address error. |
| `Admission.Prune` | backend/main_v2.py:165-168 | The kept timestamps are exactly those strictly after the cutoff, each with its original multiplicity; none are added, and nothing is dropped when all are newer. |
| `Admission.ApiState.constructor` | backend/main_v2.py:69-70 | The process starts with no rate-limit lists and no sessions. |
| `Admission.ApiState.CheckRateLimit` | backend/main_v2.py:156-175 | The address's list becomes its last-hour window. The check admits iff the window holds fewer than 50 entries, and then appends `now`. Other addresses and the sessions are untouched. |
| `Admission.RateLimitWindow` | backend/main_v2.py:158-175 | After a check, the list holds only timestamps after `now - 1h`. It has at most one entry more than the window, and at most 50 when it had at most 50 before. |
| `Admission.TouchSession` | backend/main_v2.py:190-201 | A lookup creates a session only when the address has none: created and active now, no bets, fresh id. For an existing session it changes only the activity time. |
| `Admission.ApiState.GetPlayerSession` | backend/main_v2.py:190-201 | The table becomes the looked-up table, and the returned session is the stored one. |
| `Admission.SessionIdStable` | backend/main_v2.py:192-201 | A repeated lookup returns the same session id, creation time and bet count; only the activity time moves. |
| `Admission.SessionOthersUnchanged` | backend/main_v2.py:190-201 | A lookup, and a counted bet, leave other players' sessions unchanged. |
| `Admission.CountBet` | backend/main_v2.py:322-323 | A prepared bet raises the player's looked-up session's bet count by one. |
| `Admission.SweepIdleSessions` | backend/main_v2.py:213-220 | The deletion loop keeps exactly the sessions idle for at most 24 h and counts the others. |
| `Admission.SessionSweepAccounting` | backend/main_v2.py:213-220 | The sweep deletes exactly the sessions with `now - last_activity > 24h` and keeps the rest unchanged. Kept plus deleted equals the original size. |
| `Admission.ApiState.CleanupPass` | backend/main_v2.py:206-220 | One cleanup pass sweeps commitments older than 600 s and then sessions idle for more than a day, and reports both counts. |
| `Admission.SuspendedIffWinRate` | backend/main_v2.py:271-273 | Unknown players pass the gate. For a consistent profile, the gate `risk_score > 0.8` trips iff the win rate exceeds 0.4. |
| `Admission.TxnData` | backend/main_v2.py:297 | The data field is `0x` plus 64 lowercase hex digits: 66 characters. |
| `Admission.TxnDataRoundTrip` | backend/main_v2.py:297 | The data field decodes to 32 bytes that denote the bet number. |
| `Admission.MockTxn` | backend/main_v2.py:289-298 | The mock transaction goes to the zero address and carries the floor of `amount * 10^18`, which equals Python's truncating `int()` for the positive amounts that validation admits. It has a gas of 300000, a gas price of 20 gwei, nonce 0, and the encoded number as data. |
| `Admission.ApiState.Admit` | backend/main_v2.py:275-336 | After admission, one commitment is stored and the attestation is built over it. The player's session gets one more bet, and the response carries that session's id. |
| `Admission.ApiState.PrepareBet` | backend/main_v2.py:260-336 | Rejects iff the window is full (status 429), and otherwise iff the player is suspended (status 403); the rate-limit list is updated on every path. Either rejection stores no commitment and touches no session. An admitted bet stores its commitment, returns its attestation and the mock transaction, and counts the bet on the session. |
| `Admission.TrailingNewlineAccepted` | backend/main_v2.py:112 | As written, the address pattern also accepts a valid address followed by a newline, which the intended check refuses. |
| `Admission.NewlineEvadesSuspension` | backend/main_v2.py:112-273 | A suspended player can send its address with a trailing newline. The request validates and passes the gate, since that variant has no profile of its own. |
| `Admission.WalletAddressExact` | backend/main_v2.py:105-112 | The intended check accepts exactly `0x` plus 40 hex digits, 42 characters. Everything it accepts, the pattern as written accepts too, and the only extra input the pattern accepts ends in a newline. |

## Left out

- Hashing is an uninterpreted parameter. No collision resistance is assumed: `ZkSystem.CommitmentBindsNumber` takes injectivity of the hash as an explicit hypothesis. Nothing is proved about the cryptographic strength of the mock "zero-knowledge" check. Real SHA-256 hex digests are non-empty, but the model assumes that only where `ZkSystem.VerifyIssued` states it as a precondition.
- Python's float `str()` is an uninterpreted parameter. Python's `str()` of a float round-trips, so in the source one player's keys collide only at equal timestamps. The model does not assume `showTime` is injective, so it also allows collisions between distinct timestamps; no contract depends on this.
- Clocks and randomness are parameters. `PrepareBet` reads one `now` for the whole request, while the source reads the clock several times. `GenerateZkProof` keeps the source's two readings apart as `challengeTime` and `issuedAt`.
- Leaf indexes are natural numbers. Python's negative list indexing in `get_proof` is not modelled; the only caller passes `len(leaves) - 1`.
- `ApiState.PrepareBet` covers only the path with no contract loaded, which builds the mock transaction. These are not modelled: the contract path (transaction count, `bytes.fromhex` of the proof, `placeBet` transaction building), the Web3 connection and contract loading, and signature recovery in `verify_player_signature` and `/auth/player`. The reason is that they are foreign library calls and network I/O.
- `Admission.MockTxn`: the wei value is the floor of the exact real `amount * 10^18`. This agrees with `int()` only for non-negative amounts, which covers every amount that validation admits. Float rounding of the product is not modelled.
- scipy's Beta variance and 95 %/99 % credible intervals are not modelled, because they are floating-point special functions. The distribution lookup returns only mean, alpha, beta and observations.
- Nothing in the analyzer updates `alpha_params`, `beta_params`, `number_frequencies` or `suspicious_events`. So the model keeps them as fields that only the constructor sets, and the report's spin total is stated for any non-negative frequencies.
- `merkle_trees` is never written; only `get_stats` reads it, so the model leaves the dictionary out and `GetStats` reports 0 active trees. The per-profile `bet_patterns` dictionary is never written or read and is left out. `suspicious_threshold` and `blacklist_threshold` are modelled as constants that the constructor sets to 0.8 and 0.9; nothing reads them.
- The source's session dictionary is shared by reference: `prepare_bet` increments `bets_count` through the returned dictionary. The model writes the updated session value back into the table, so aliasing between the returned session and the table is not modelled.
- `Admission.ValidateBetRequest` uses the intended address check, not the pattern as written at backend/main_v2.py:112. The as-written behaviour is `Admission.ValidateBetRequestAsWritten`, and the two are related by `Admission.ValidatorsAgree` and `Admission.NewlineRequestAccepted` (see Findings).
- Python dictionary iteration order is not modelled. The sweeps delete a set of keys, and the result does not depend on order.
- The configuration comes from environment variables (`MAX_BETS_PER_HOUR`, `MIN_BET_AMOUNT`, `MAX_BET_AMOUNT`). The model fixes the defaults 50, 0.001 and 10.0.
- These are not modelled because they are framework and concurrency glue: FastAPI routing, CORS, pydantic coercion, the mapping of exceptions to HTTP 500, the `asyncio` lifespan, and the sleep loop around the cleanup pass. The rejections carry their HTTP codes 429 and 403.
- `roulette_server.py`, `roulette_demo.py` and the React frontend are not part of this model; they are demo pages with no backend logic.

## Findings

| source | as written | input that shows it | evidently intended | confidence | as-written member | corrected member |
|---|---|---|---|---|---|---|
| backend/main_v2.py:112 | The address `regex=r"^0x[a-fA-F0-9]{40}$"` is applied with Python's `re.match`, whose `$` also matches before a final newline. | `"0x" + 40 hex digits + "\n"`: 43 characters that validate. Rate limits are keyed by the exact string, so that variant gets a second 50-per-hour window. It also has no profile, so it would pass the suspension gate of a suspended address (`Admission.NewlineEvadesSuspension`); nothing in `backend/main_v2.py` itself writes profiles, so that consequence needs another writer of profiles. | Accept exactly `0x` followed by 40 hex digits (`\Z`, or `fullmatch`). | medium: this depends on the pydantic v1 regex semantics implied by `Field(regex=...)` and `@validator`; not executed | `Admission.NewlineRequestAccepted` | `Admission.ValidateBetRequest` |

The corrected validator `Admission.ValidateBetRequest` uses the intended check `Admission.IsWalletAddress`, whose exactness `Admission.WalletAddressExact` proves. `Admission.TrailingNewlineAccepted` states the as-written discrepancy at the level of the address alone.
