/**
 * The admission rules of the HTTP layer: request validation, the per-address
 * sliding-window rate limiter, create-once player sessions and their idle
 * sweep, the suspension gate, and the mock transaction a prepared bet carries.
 * Timestamps are seconds as `real`; the clock and the random session id are
 * parameters.
 */
module Admission {
  import opened Wrappers
  import opened HexCodec
  import Bayesian
  import ZkSystem

  const MaxBetsPerHour: nat := 50
  const MinBetAmount: real := 0.001
  const MaxBetAmount: real := 10.0
  const HourSeconds: real := 3600.0
  const DaySeconds: real := 86400.0
  /** Maximum commitment age used by the periodic cleanup. */
  const CommitmentMaxAge: int := 600
  /** Risk scores above this suspend a player. */
  const SuspensionThreshold: real := 0.8

  // ---------------------------------------------------------------- validation

  /** A hexadecimal digit of either case. */
  predicate IsHexDigit(c: char) {
    DigitValue(c).Some?
  }

  /** What the address pattern `^0x` + forty hex digits + `$` is meant to accept. */
  predicate IsWalletAddress(s: string) {
    |s| == 42 && s[0] == '0' && s[1] == 'x' && forall i :: 2 <= i < 42 ==> IsHexDigit(s[i])
  }

  /**
   * What the pattern accepts as the request models apply it: anchored at the
   * start only, with `$` also matching just before one final newline.
   */
  predicate MatchesAddressPatternAsWritten(s: string) {
    IsWalletAddress(s) || (|s| == 43 && s[42] == '\n' && IsWalletAddress(s[..42]))
  }

  /** The pattern as written lets a valid address with a trailing newline through, which the intended check refuses. */
  lemma TrailingNewlineAccepted(address: string)
    requires IsWalletAddress(address)
    ensures MatchesAddressPatternAsWritten(address + "\n")
    ensures !IsWalletAddress(address + "\n")
    ensures address + "\n" != address
  {
    assert (address + "\n")[..42] == address;
  }

  /** The intended check: exactly 42 characters, `0x` then hexadecimal digits. */
  lemma WalletAddressExact(s: string)
    ensures IsWalletAddress(s) ==> |s| == 42 && s[..2] == "0x"
    ensures IsWalletAddress(s) ==> MatchesAddressPatternAsWritten(s)
    ensures MatchesAddressPatternAsWritten(s) && |s| == 42 ==> IsWalletAddress(s)
    ensures MatchesAddressPatternAsWritten(s) && !IsWalletAddress(s) ==> s[|s| - 1] == '\n'
  {
  }

  datatype FieldError =
    | NumberOutOfRange
    | AmountNotPositive
    | BelowMinimum
    | AboveMaximum
    | AddressMalformed

  /** `validate_amount`: the minimum is checked first, both bounds are inclusive, the amount passes unchanged. */
  function ValidateAmount(v: real): (r: Result<real, FieldError>)
    ensures r.Ok? <==> MinBetAmount <= v <= MaxBetAmount
    ensures r.Ok? ==> r.value == v
    ensures v < MinBetAmount ==> r == Err(BelowMinimum)
    ensures v > MaxBetAmount ==> r == Err(AboveMaximum)
  {
    if v < MinBetAmount then Err(BelowMinimum)
    else if v > MaxBetAmount then Err(AboveMaximum)
    else Ok(v)
  }

  datatype BetRequest = BetRequest(number: int, amount: real, playerAddress: string)

  /** The errors of the amount field: the `> 0` bound, and only if it holds, the amount validator. */
  function AmountErrors(amount: real): seq<FieldError> {
    if !(amount > 0.0) then [AmountNotPositive]
    else match ValidateAmount(amount)
      case Ok(_) => []
      case Err(e) => [e]
  }

  /**
   * Request validation: every field is checked and every failing field
   * reports one error, in field order; `addressOk` is the verdict of the
   * address check in use.
   */
  function Validated(number: int, amount: real, playerAddress: string, addressOk: bool): (r: Result<BetRequest, seq<FieldError>>)
    ensures r.Ok? <==> Bayesian.InRange(number) && MinBetAmount <= amount <= MaxBetAmount && addressOk
    ensures r.Ok? ==> r.value == BetRequest(number, amount, playerAddress)
    ensures r.Err? ==>
      && (NumberOutOfRange in r.error <==> !Bayesian.InRange(number))
      && (AddressMalformed in r.error <==> !addressOk)
      && (AmountNotPositive in r.error <==> amount <= 0.0)
      && (BelowMinimum in r.error <==> 0.0 < amount < MinBetAmount)
      && (AboveMaximum in r.error <==> amount > MaxBetAmount)
      && |r.error| <= 3
  {
    var errors := (if Bayesian.InRange(number) then [] else [NumberOutOfRange])
                  + AmountErrors(amount)
                  + (if addressOk then [] else [AddressMalformed]);
    if errors == [] then Ok(BetRequest(number, amount, playerAddress)) else Err(errors)
  }

  /** Request validation with the intended address check. */
  function ValidateBetRequest(number: int, amount: real, playerAddress: string): (r: Result<BetRequest, seq<FieldError>>)
    ensures r.Ok? <==> Bayesian.InRange(number) && MinBetAmount <= amount <= MaxBetAmount && IsWalletAddress(playerAddress)
    ensures r.Ok? ==> r.value == BetRequest(number, amount, playerAddress)
    ensures r.Err? ==>
      && (NumberOutOfRange in r.error <==> !Bayesian.InRange(number))
      && (AddressMalformed in r.error <==> !IsWalletAddress(playerAddress))
      && (AmountNotPositive in r.error <==> amount <= 0.0)
      && (BelowMinimum in r.error <==> 0.0 < amount < MinBetAmount)
      && (AboveMaximum in r.error <==> amount > MaxBetAmount)
      && |r.error| <= 3
  {
    Validated(number, amount, playerAddress, IsWalletAddress(playerAddress))
  }

  /** Request validation with the address pattern as the request model applies it. */
  function ValidateBetRequestAsWritten(number: int, amount: real, playerAddress: string): (r: Result<BetRequest, seq<FieldError>>)
    ensures r.Ok? <==> Bayesian.InRange(number) && MinBetAmount <= amount <= MaxBetAmount
                       && MatchesAddressPatternAsWritten(playerAddress)
    ensures r.Ok? ==> r.value == BetRequest(number, amount, playerAddress)
    ensures r.Err? ==>
      && (NumberOutOfRange in r.error <==> !Bayesian.InRange(number))
      && (AddressMalformed in r.error <==> !MatchesAddressPatternAsWritten(playerAddress))
      && (AmountNotPositive in r.error <==> amount <= 0.0)
      && (BelowMinimum in r.error <==> 0.0 < amount < MinBetAmount)
      && (AboveMaximum in r.error <==> amount > MaxBetAmount)
      && |r.error| <= 3
  {
    Validated(number, amount, playerAddress, MatchesAddressPatternAsWritten(playerAddress))
  }

  /** The two validators differ only on a 43-character address ending in a newline. */
  lemma ValidatorsAgree(number: int, amount: real, playerAddress: string)
    requires !(|playerAddress| == 43 && playerAddress[42] == '\n')
    ensures ValidateBetRequestAsWritten(number, amount, playerAddress) == ValidateBetRequest(number, amount, playerAddress)
  {
    assert MatchesAddressPatternAsWritten(playerAddress) == IsWalletAddress(playerAddress);
  }

  /** As written, a valid request whose address carries a trailing newline is accepted; the intended check refuses it. */
  lemma NewlineRequestAccepted(number: int, amount: real, address: string)
    requires Bayesian.InRange(number) && MinBetAmount <= amount <= MaxBetAmount && IsWalletAddress(address)
    ensures ValidateBetRequestAsWritten(number, amount, address + "\n") == Ok(BetRequest(number, amount, address + "\n"))
    ensures ValidateBetRequest(number, amount, address + "\n") == Err([AddressMalformed])
  {
    TrailingNewlineAccepted(address);
    assert ValidateAmount(amount) == Ok(amount);
    assert AmountErrors(amount) == [];
    assert [] + [] + [AddressMalformed] == [AddressMalformed];
    assert Validated(number, amount, address + "\n", false) == Err([AddressMalformed]);
  }

  // ---------------------------------------------------------------- rate limit

  /** The timestamps strictly after `cutoff`, in their original order. */
  function Prune(stamps: seq<real>, cutoff: real): (kept: seq<real>)
    ensures |kept| <= |stamps|
    ensures forall t :: t in kept <==> t in stamps && t > cutoff
    ensures forall t :: multiset(kept)[t] == if t > cutoff then multiset(stamps)[t] else 0
    ensures (forall i :: 0 <= i < |stamps| ==> stamps[i] > cutoff) ==> kept == stamps
  {
    if stamps == [] then []
    else
      assert stamps == [stamps[0]] + stamps[1..];
      if stamps[0] > cutoff then [stamps[0]] + Prune(stamps[1..], cutoff)
      else Prune(stamps[1..], cutoff)
  }

  /** An address's timestamps of the last hour, the list starting empty for an unseen address. */
  function Window(rateLimits: map<string, seq<real>>, playerAddress: string, now: real): seq<real> {
    Prune(if playerAddress in rateLimits then rateLimits[playerAddress] else [], now - HourSeconds)
  }

  /** The list an address holds after a check: the window, plus `now` when the check admits. */
  function AfterCheck(window: seq<real>, now: real): seq<real> {
    if |window| < MaxBetsPerHour then window + [now] else window
  }

  /**
   * After a check an address holds only timestamps of the last hour, never
   * more than the limit when it held no more before, and at most one more entry
   * than its window.
   */
  lemma RateLimitWindow(rateLimits: map<string, seq<real>>, playerAddress: string, now: real)
    ensures var before := if playerAddress in rateLimits then rateLimits[playerAddress] else [];
      var after := AfterCheck(Window(rateLimits, playerAddress, now), now);
      && (forall t :: t in after ==> t > now - HourSeconds)
      && (|before| <= MaxBetsPerHour ==> |after| <= MaxBetsPerHour)
      && |after| <= |Window(rateLimits, playerAddress, now)| + 1
  {
  }

  // ---------------------------------------------------------------- sessions

  datatype Session = Session(createdAt: real, lastActivity: real, betsCount: int, sessionId: string)

  /** The session table after a lookup: created when absent, then its activity time refreshed. */
  function TouchSession(sessions: map<string, Session>, playerAddress: string, now: real, freshId: string): (r: map<string, Session>)
    ensures r.Keys == sessions.Keys + {playerAddress}
    ensures playerAddress in sessions ==> r[playerAddress] == sessions[playerAddress].(lastActivity := now)
    ensures playerAddress !in sessions ==> r[playerAddress] == Session(now, now, 0, freshId)
  {
    var session := if playerAddress in sessions then sessions[playerAddress] else Session(now, now, 0, freshId);
    sessions[playerAddress := session.(lastActivity := now)]
  }

  /** A second lookup keeps the session id, creation time and bet count of the first; only the activity time moves. */
  lemma SessionIdStable(sessions: map<string, Session>, playerAddress: string, t1: real, id1: string, t2: real, id2: string)
    ensures var first := TouchSession(sessions, playerAddress, t1, id1);
      var second := TouchSession(first, playerAddress, t2, id2);
      && second[playerAddress] == first[playerAddress].(lastActivity := t2)
      && second[playerAddress].sessionId == first[playerAddress].sessionId
      && second.Keys == first.Keys
  {
  }

  /** The session table after a prepared bet: looked up as above, then its bet count raised by one. */
  function CountBet(sessions: map<string, Session>, playerAddress: string, now: real, freshId: string): (r: map<string, Session>)
    ensures r.Keys == sessions.Keys + {playerAddress}
    ensures var s := TouchSession(sessions, playerAddress, now, freshId)[playerAddress];
      r[playerAddress] == s.(betsCount := s.betsCount + 1)
  {
    var touched := TouchSession(sessions, playerAddress, now, freshId);
    touched[playerAddress := touched[playerAddress].(betsCount := touched[playerAddress].betsCount + 1)]
  }

  /** A session lookup, and a counted bet, leave every other player's session as it was. */
  lemma SessionOthersUnchanged(sessions: map<string, Session>, playerAddress: string, now: real, freshId: string)
    ensures forall a :: a in sessions && a != playerAddress ==>
      TouchSession(sessions, playerAddress, now, freshId)[a] == sessions[a]
      && CountBet(sessions, playerAddress, now, freshId)[a] == sessions[a]
  {
  }

  function IdleSessions(sessions: map<string, Session>, now: real): set<string> {
    set a | a in sessions && now - sessions[a].lastActivity > DaySeconds
  }

  function ActiveSessions(sessions: map<string, Session>, now: real): map<string, Session> {
    map a | a in sessions && !(now - sessions[a].lastActivity > DaySeconds) :: sessions[a]
  }

  /** The session sweep removes exactly the sessions idle for more than a day and keeps the rest as they were. */
  lemma SessionSweepAccounting(sessions: map<string, Session>, now: real)
    ensures var kept := ActiveSessions(sessions, now);
      var gone := IdleSessions(sessions, now);
      && gone <= sessions.Keys
      && kept.Keys == sessions.Keys - gone
      && (forall a :: a in kept ==> kept[a] == sessions[a] && now - kept[a].lastActivity <= DaySeconds)
      && |kept| + |gone| == |sessions|
  {
    var kept := ActiveSessions(sessions, now);
    var gone := IdleSessions(sessions, now);
    assert kept.Keys == sessions.Keys - gone;
    assert sessions.Keys == kept.Keys + gone;
    assert kept.Keys !! gone;
    assert |sessions.Keys| == |kept.Keys| + |gone|;
  }

  /** The deletion loop of the session sweep, on the table's value. */
  method SweepIdleSessions(sessions: map<string, Session>, now: real) returns (kept: map<string, Session>, removed: nat)
    ensures kept == ActiveSessions(sessions, now)
    ensures removed == |IdleSessions(sessions, now)|
  {
    var oldSessions := IdleSessions(sessions, now);
    kept := sessions;
    var pending := oldSessions;
    while pending != {}
      invariant pending <= oldSessions
      invariant kept == sessions - (oldSessions - pending)
      decreases pending
    {
      assert (forall y :: y !in pending) ==> pending == {};
      var a :| a in pending;
      kept := kept - {a};
      pending := pending - {a};
    }
    assert kept == sessions - oldSessions;
    forall a | a in sessions
      ensures a in kept <==> a in ActiveSessions(sessions, now)
    {
    }
    assert kept.Keys == ActiveSessions(sessions, now).Keys;
    removed := |oldSessions|;
  }

  // ---------------------------------------------------------------- suspension

  /** The gate of bet preparation: a known player whose risk score exceeds 0.8. */
  predicate Suspended(profiles: map<string, Bayesian.PlayerProfile>, playerAddress: string) {
    playerAddress in profiles && profiles[playerAddress].riskScore > SuspensionThreshold
  }

  /** Unknown players pass the gate; for a consistent profile the gate trips exactly when the win rate exceeds 0.4. */
  lemma SuspendedIffWinRate(profiles: map<string, Bayesian.PlayerProfile>, playerAddress: string)
    requires playerAddress in profiles ==> Bayesian.Consistent(profiles[playerAddress])
    ensures playerAddress !in profiles ==> !Suspended(profiles, playerAddress)
    ensures playerAddress in profiles ==>
      (Suspended(profiles, playerAddress) <==> profiles[playerAddress].winRate > 0.4)
  {
  }

  /**
   * Under the pattern as written, a suspended player can send its address with
   * a trailing newline: the request validates and, having no profile of its
   * own, the variant passes the gate.
   */
  lemma NewlineEvadesSuspension(profiles: map<string, Bayesian.PlayerProfile>, playerAddress: string)
    requires IsWalletAddress(playerAddress) && Suspended(profiles, playerAddress)
    requires playerAddress + "\n" !in profiles
    ensures MatchesAddressPatternAsWritten(playerAddress + "\n")
    ensures !Suspended(profiles, playerAddress + "\n")
  {
    TrailingNewlineAccepted(playerAddress);
  }

  // ---------------------------------------------------------------- mock transaction

  datatype Txn = Txn(to: string, value: int, gas: int, gasPrice: int, nonce: int, data: string)

  const ZeroAddress: string := "0x0000000000000000000000000000000000000000"

  /** `amount * 10**18` truncated to an integer, on exact reals. */
  function Wei(amount: real): int {
    (amount * 1000000000000000000.0).Floor
  }

  /** The `data` field: `0x` and the number as 32 big-endian bytes in lowercase hex. */
  function TxnData(number: int): (d: string)
    requires Bayesian.InRange(number)
    ensures |d| == 66 && d[..2] == "0x"
    ensures forall i :: 2 <= i < |d| ==> IsLowerHex(d[i])
  {
    assert Pow256(32) > 36 by {
      assert Pow256(1) == 256;
      PowMonotone(1, 32);
    }
    "0x" + Hex(IntToBytes(number, 32).value)
  }

  lemma {:induction false} PowMonotone(j: nat, k: nat)
    requires j <= k
    ensures Pow256(j) <= Pow256(k)
    decreases k
  {
    if j < k {
      PowMonotone(j, k - 1);
    }
  }

  /** The data field decodes back to 32 bytes denoting the bet number. */
  lemma TxnDataRoundTrip(number: int)
    requires Bayesian.InRange(number)
    ensures var d := TxnData(number);
      exists bs :: UnHex(d[2..]) == Some(bs) && |bs| == 32 && FromBytesBE(bs) == number
  {
    var d := TxnData(number);
    var bs := IntToBytes(number, 32).value;
    assert d[2..] == Hex(bs);
    HexRoundTrip(bs);
  }

  /** The stand-in transaction built when no contract is loaded. */
  function MockTxn(request: BetRequest): (t: Txn)
    requires Bayesian.InRange(request.number)
    ensures t.to == ZeroAddress && |t.to| == 42
    ensures t.value as real <= request.amount * 1000000000000000000.0 < t.value as real + 1.0
    ensures t.gas == 300000 && t.gasPrice == 20000000000 && t.nonce == 0
    ensures t.data == TxnData(request.number)
  {
    Txn(ZeroAddress, Wei(request.amount), 300000, 20000000000, 0, TxnData(request.number))
  }

  // ---------------------------------------------------------------- request handling

  datatype Rejection = RateLimitExceeded | PlayerSuspended

  function StatusCode(r: Rejection): int {
    match r
    case RateLimitExceeded => 429
    case PlayerSuspended => 403
  }

  datatype PreparedBet = PreparedBet(zkProof: ZkSystem.ZKProof, transactionData: Txn, sessionId: string)

  /** The per-process tables of the HTTP layer. */
  class ApiState {
    var rateLimits: map<string, seq<real>>
    var playerSessions: map<string, Session>

    constructor ()
      ensures rateLimits == map[] && playerSessions == map[]
    {
      rateLimits := map[];
      playerSessions := map[];
    }

    /** `check_rate_limit`: prunes the address's list to the last hour, then admits and records `now` if under the limit. */
    method CheckRateLimit(playerAddress: string, now: real) returns (allowed: bool)
      modifies this
      ensures allowed <==> |Window(old(rateLimits), playerAddress, now)| < MaxBetsPerHour
      ensures rateLimits == old(rateLimits)[playerAddress := AfterCheck(Window(old(rateLimits), playerAddress, now), now)]
      ensures playerSessions == old(playerSessions)
    {
      if playerAddress !in rateLimits {
        rateLimits := rateLimits[playerAddress := []];
      }
      rateLimits := rateLimits[playerAddress := Prune(rateLimits[playerAddress], now - HourSeconds)];
      if |rateLimits[playerAddress]| >= MaxBetsPerHour {
        return false;
      }
      rateLimits := rateLimits[playerAddress := rateLimits[playerAddress] + [now]];
      return true;
    }

    /** `get_player_session`: creates the session on first sight and refreshes its activity time. */
    method GetPlayerSession(playerAddress: string, now: real, freshId: string) returns (session: Session)
      modifies this
      ensures playerSessions == TouchSession(old(playerSessions), playerAddress, now, freshId)
      ensures session == playerSessions[playerAddress]
      ensures rateLimits == old(rateLimits)
    {
      if playerAddress !in playerSessions {
        playerSessions := playerSessions[playerAddress := Session(now, now, 0, freshId)];
      }
      playerSessions := playerSessions[playerAddress := playerSessions[playerAddress].(lastActivity := now)];
      session := playerSessions[playerAddress];
    }

    /** One pass of the periodic cleanup: commitments older than ten minutes, then sessions idle for a day. */
    method CleanupPass(zk: ZkSystem.ZKSystem, now: real) returns (expiredCount: nat, oldSessions: nat)
      requires zk.Valid()
      modifies this, zk
      ensures zk.Valid()
      ensures zk.commitmentStorage == ZkSystem.Unexpired(old(zk.commitmentStorage), now, CommitmentMaxAge)
      ensures expiredCount == |ZkSystem.ExpiredKeys(old(zk.commitmentStorage), now, CommitmentMaxAge)|
      ensures playerSessions == ActiveSessions(old(playerSessions), now)
      ensures oldSessions == |IdleSessions(old(playerSessions), now)|
      ensures rateLimits == old(rateLimits)
    {
      expiredCount := zk.CleanupExpiredCommitments(CommitmentMaxAge, now);
      var kept;
      kept, oldSessions := SweepIdleSessions(playerSessions, now);
      playerSessions := kept;
    }

    /**
     * The part of `prepare_bet` that runs once a request is admitted:
     * commitment, attestation, and one more bet on the player's session; the
     * transaction, a pure value, is built by the caller.
     */
    method Admit(zk: ZkSystem.ZKSystem, request: BetRequest, now: real, nonce: string, secretKey: string,
                 freshSessionId: string, txn: Txn)
      returns (prepared: PreparedBet)
      requires Bayesian.InRange(request.number)
      requires zk.Valid()
      modifies this, zk
      ensures zk.Valid()
      ensures var commitmentHash := ZkSystem.CommitmentHash(zk.hash, zk.showTime, request.playerAddress, request.number, nonce, now);
        && zk.commitmentStorage == old(zk.commitmentStorage)[ZkSystem.CommitmentId(zk.showTime, request.playerAddress, now) :=
             ZkSystem.Commitment(request.playerAddress, request.number, nonce, now, commitmentHash)]
        && prepared.zkProof == ZkSystem.Attestation(zk.hash, zk.showTime, commitmentHash, secretKey, now, now)
      ensures prepared.transactionData == txn
      ensures playerSessions == CountBet(old(playerSessions), request.playerAddress, now, freshSessionId)
      ensures prepared.sessionId == playerSessions[request.playerAddress].sessionId
      ensures rateLimits == old(rateLimits)
    {
      var commitmentHash := zk.GeneratePlayerCommitment(request.playerAddress, request.number, nonce, now);
      var zkProof := zk.GenerateZkProof(request.playerAddress, commitmentHash, secretKey, now, now);
      var session := GetPlayerSession(request.playerAddress, now, freshSessionId);
      session := session.(betsCount := session.betsCount + 1);
      playerSessions := playerSessions[request.playerAddress := session];
      prepared := PreparedBet(zkProof, txn, session.sessionId);
    }

    /**
     * `prepare_bet` on a validated request, with no contract loaded: rate limit,
     * then the suspension gate, then the admitted part. A request stopped at
     * the gate still leaves its timestamp in the rate limiter.
     */
    method PrepareBet(zk: ZkSystem.ZKSystem, analyzer: Bayesian.BayesianAnalyzer, request: BetRequest,
                      now: real, nonce: string, secretKey: string, freshSessionId: string)
      returns (r: Result<PreparedBet, Rejection>)
      requires Bayesian.InRange(request.number)
      requires zk.Valid()
      modifies this, zk
      ensures zk.Valid()
      ensures rateLimits == old(rateLimits)[request.playerAddress :=
                AfterCheck(Window(old(rateLimits), request.playerAddress, now), now)]
      ensures r == Err(RateLimitExceeded) <==> |Window(old(rateLimits), request.playerAddress, now)| >= MaxBetsPerHour
      ensures r == Err(PlayerSuspended) <==>
        |Window(old(rateLimits), request.playerAddress, now)| < MaxBetsPerHour
        && Suspended(analyzer.playerProfiles, request.playerAddress)
      ensures r.Err? ==>
        StatusCode(r.error) == (if |Window(old(rateLimits), request.playerAddress, now)| >= MaxBetsPerHour then 429 else 403)
      ensures r.Err? ==> zk.commitmentStorage == old(zk.commitmentStorage) && playerSessions == old(playerSessions)
      ensures r.Ok? ==>
        var commitmentHash := ZkSystem.CommitmentHash(zk.hash, zk.showTime, request.playerAddress, request.number, nonce, now);
        && zk.commitmentStorage == old(zk.commitmentStorage)[ZkSystem.CommitmentId(zk.showTime, request.playerAddress, now) :=
             ZkSystem.Commitment(request.playerAddress, request.number, nonce, now, commitmentHash)]
        && r.value.zkProof == ZkSystem.Attestation(zk.hash, zk.showTime, commitmentHash, secretKey, now, now)
        && r.value.transactionData == MockTxn(request)
        && playerSessions == CountBet(old(playerSessions), request.playerAddress, now, freshSessionId)
        && r.value.sessionId == playerSessions[request.playerAddress].sessionId
    {
      var allowed := CheckRateLimit(request.playerAddress, now);
      if !allowed {
        return Err(RateLimitExceeded);
      }
      if request.playerAddress in analyzer.playerProfiles
         && analyzer.playerProfiles[request.playerAddress].riskScore > SuspensionThreshold {
        return Err(PlayerSuspended);
      }
      var prepared := Admit(zk, request, now, nonce, secretKey, freshSessionId, MockTxn(request));
      return Ok(prepared);
    }
  }
}
