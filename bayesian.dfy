/**
 * The risk model: a Beta(alpha, beta) posterior per roulette number 0..36 and
 * one profile per player, updated on every settled bet. The risk score is
 * twice the win rate and is not clamped; the risk level has three bands.
 */
module Bayesian {
  import opened Wrappers

  /** The roulette numbers 0..36. */
  predicate InRange(number: int) {
    0 <= number <= 36
  }

  const Numbers: set<int> := set n | 0 <= n <= 36

  /** Prior parameters: alpha = 1, beta = 36, a mean of 1/37. */
  const PriorAlpha: real := 1.0
  const PriorBeta: real := 36.0

  datatype SuspiciousEvent = SuspiciousEvent(
    playerAddress: string,
    eventType: string,
    severity: real,
    description: string,
    probabilityScore: real,
    timestamp: real)

  datatype PlayerProfile = PlayerProfile(
    address: string,
    totalBets: int,
    wins: int,
    totalAmount: real,
    profitLoss: real,
    riskScore: real,
    winRate: real,
    isBlacklisted: bool,
    lastActivity: real)

  /** The `bet_data` dictionary: each key may be missing. */
  datatype BetData = BetData(amount: Option<real>, won: Option<bool>, payout: Option<real>)

  /** `bet_data.get('amount', 0)` */
  function AmountOf(bet: BetData): real {
    if bet.amount.Some? then bet.amount.value else 0.0
  }

  /** `bet_data.get('won', False)` */
  predicate Won(bet: BetData) {
    bet.won == Some(true)
  }

  /** `bet_data.get('payout', 0)` */
  function PayoutOf(bet: BetData): real {
    if bet.payout.Some? then bet.payout.value else 0.0
  }

  /** The zeroed profile created on a player's first bet. */
  function NewProfile(address: string, now: real): PlayerProfile {
    PlayerProfile(address, 0, 0, 0.0, 0.0, 0.0, 0.0, false, now)
  }

  /** `wins / total_bets`, or 0 before the first bet. */
  function WinRate(wins: int, totalBets: int): real {
    if totalBets > 0 then wins as real / totalBets as real else 0.0
  }

  /** What every profile satisfies: wins within bets, and rate and score derived from them. */
  predicate Consistent(p: PlayerProfile) {
    && 0 <= p.wins <= p.totalBets
    && p.winRate == WinRate(p.wins, p.totalBets)
    && p.riskScore == 2.0 * p.winRate
  }

  /** A profile after one more settled bet. */
  function RecordBet(p: PlayerProfile, bet: BetData, now: real): (q: PlayerProfile)
    ensures q.totalBets == p.totalBets + 1
    ensures q.totalAmount == p.totalAmount + AmountOf(bet)
    ensures Won(bet) ==> q.wins == p.wins + 1 && q.profitLoss == p.profitLoss + (PayoutOf(bet) - AmountOf(bet))
    ensures !Won(bet) ==> q.wins == p.wins && q.profitLoss == p.profitLoss - AmountOf(bet)
    ensures q.address == p.address && q.isBlacklisted == p.isBlacklisted && q.lastActivity == now
    ensures p.totalBets >= 0 ==> q.winRate == q.wins as real / q.totalBets as real
    ensures q.riskScore == 2.0 * q.winRate
  {
    var totalBets := p.totalBets + 1;
    var wins := if Won(bet) then p.wins + 1 else p.wins;
    var profitLoss := if Won(bet) then p.profitLoss + (PayoutOf(bet) - AmountOf(bet)) else p.profitLoss - AmountOf(bet);
    var winRate := WinRate(wins, totalBets);
    p.(totalBets := totalBets, wins := wins, totalAmount := p.totalAmount + AmountOf(bet),
       profitLoss := profitLoss, winRate := winRate, riskScore := winRate * 2.0, lastActivity := now)
  }

  lemma RateBounds(wins: int, totalBets: int)
    requires 0 <= wins <= totalBets
    ensures 0.0 <= WinRate(wins, totalBets) <= 1.0
  {
    if totalBets > 0 {
      var t := totalBets as real;
      var r := wins as real / t;
      assert r * t == wins as real;
      assert (1.0 - r) * t == t - wins as real;
    }
  }

  /**
   * After any bet the profile is consistent, its win rate lies in [0, 1] and
   * its risk score in [0, 2]: the score is not clamped at 1.
   */
  lemma RecordBetConsistent(p: PlayerProfile, bet: BetData, now: real)
    requires Consistent(p)
    ensures var q := RecordBet(p, bet, now);
      && Consistent(q)
      && 0 < q.totalBets
      && 0.0 <= q.winRate <= 1.0
      && 0.0 <= q.riskScore <= 2.0
  {
    var q := RecordBet(p, bet, now);
    RateBounds(q.wins, q.totalBets);
  }

  /** A run of bets folded into a profile, first bet first. */
  function Replay(p: PlayerProfile, bets: seq<BetData>, now: real): PlayerProfile
    decreases |bets|
  {
    if bets == [] then p else Replay(RecordBet(p, bets[0], now), bets[1..], now)
  }

  function CountWins(bets: seq<BetData>): nat
    decreases |bets|
  {
    if bets == [] then 0 else (if Won(bets[0]) then 1 else 0) + CountWins(bets[1..])
  }

  /** Replaying bets counts every bet once and every win once, and keeps the profile consistent. */
  lemma {:induction false} ReplayCounts(p: PlayerProfile, bets: seq<BetData>, now: real)
    requires Consistent(p)
    ensures var q := Replay(p, bets, now);
      && q.totalBets == p.totalBets + |bets|
      && q.wins == p.wins + CountWins(bets)
      && Consistent(q)
    decreases |bets|
  {
    if bets != [] {
      RecordBetConsistent(p, bets[0], now);
      ReplayCounts(RecordBet(p, bets[0], now), bets[1..], now);
    }
  }

  datatype RiskLevel = Low | Medium | High

  /** The three bands: below 0.3, below 0.6, and the rest. */
  function Classify(riskScore: real): (level: RiskLevel)
    ensures level == Low <==> riskScore < 0.3
    ensures level == Medium <==> 0.3 <= riskScore < 0.6
    ensures level == High <==> 0.6 <= riskScore
  {
    if riskScore < 0.3 then Low else if riskScore < 0.6 then Medium else High
  }

  function Recommendation(level: RiskLevel): string {
    match level
    case Low => "Игрок не представляет риска"
    case Medium => "Рекомендуется наблюдение"
    case High => "Требуется пристальное внимание"
  }

  /** For a consistent profile the bands fall at win rates 0.15 and 0.3. */
  lemma ClassifyByWinRate(p: PlayerProfile)
    requires Consistent(p)
    ensures Classify(p.riskScore) == Low <==> p.winRate < 0.15
    ensures Classify(p.riskScore) == Medium <==> 0.15 <= p.winRate < 0.3
    ensures Classify(p.riskScore) == High <==> 0.3 <= p.winRate
  {
  }

  /** Ten bets with six wins from a fresh profile: win rate 0.6, score 1.2, HIGH. */
  lemma TenBetsSixWins(address: string, bets: seq<BetData>, now: real)
    requires |bets| == 10 && CountWins(bets) == 6
    ensures var q := Replay(NewProfile(address, now), bets, now);
      q.winRate == 0.6 && q.riskScore == 1.2 && Classify(q.riskScore) == High
  {
    ReplayCounts(NewProfile(address, now), bets, now);
  }

  datatype Posterior = Posterior(mean: real, alpha: real, beta: real, observations: real)

  datatype RangeError = NumberOutOfRange

  datatype Assessment =
    | PlayerNotFound(error: string)
    | Assessment(
        riskScore: real,
        totalBets: int,
        winRate: real,
        isBlacklisted: bool,
        riskLevel: RiskLevel,
        recommendation: string,
        totalSuspiciousEvents: nat,
        recentEvents: seq<SuspiciousEvent>)

  datatype Report = Report(totalPlayers: nat, totalSpins: int, highRiskPlayers: nat, suspiciousEvents24h: nat)

  /** Sum of the frequencies of numbers 0 .. n-1. */
  function SumFrequencies(freq: map<int, int>, n: nat): int
    requires forall i :: 0 <= i < n ==> i in freq
  {
    if n == 0 then 0 else SumFrequencies(freq, n - 1) + freq[n - 1]
  }

  lemma {:induction false} SumFrequenciesBounds(freq: map<int, int>, n: nat)
    requires forall i :: 0 <= i < n ==> i in freq && freq[i] >= 0
    ensures SumFrequencies(freq, n) >= 0
    ensures (forall i :: 0 <= i < n ==> freq[i] == 0) ==> SumFrequencies(freq, n) == 0
  {
    if n > 0 {
      SumFrequenciesBounds(freq, n - 1);
    }
  }

  class BayesianAnalyzer {
    var alphaParams: map<int, real>
    var betaParams: map<int, real>
    var playerProfiles: map<string, PlayerProfile>
    /** Recorded events; nothing in the analyzer ever appends to it. */
    var suspiciousEvents: seq<SuspiciousEvent>
    var numberFrequencies: map<int, int>
    const suspiciousThreshold: real
    const blacklistThreshold: real

    ghost predicate Valid()
      reads this
    {
      && alphaParams.Keys == Numbers
      && betaParams.Keys == Numbers
      && numberFrequencies.Keys == Numbers
      && (forall n :: n in alphaParams ==> alphaParams[n] > 0.0)
      && (forall n :: n in betaParams ==> betaParams[n] > 0.0)
      && (forall n :: n in numberFrequencies ==> numberFrequencies[n] >= 0)
      && (forall a :: a in playerProfiles ==> playerProfiles[a].address == a && Consistent(playerProfiles[a]))
    }

    /** Every number starts at the prior with frequency 0; there are no profiles and no events. */
    constructor ()
      ensures Valid()
      ensures alphaParams == map n | n in Numbers :: PriorAlpha
      ensures betaParams == map n | n in Numbers :: PriorBeta
      ensures numberFrequencies == map n | n in Numbers :: 0
      ensures playerProfiles == map[] && suspiciousEvents == []
      ensures suspiciousThreshold == 0.8 && blacklistThreshold == 0.9
    {
      alphaParams := map n | n in Numbers :: PriorAlpha;
      betaParams := map n | n in Numbers :: PriorBeta;
      playerProfiles := map[];
      suspiciousEvents := [];
      numberFrequencies := map n | n in Numbers :: 0;
      suspiciousThreshold := 0.8;
      blacklistThreshold := 0.9;
    }

    /**
     * `get_bayesian_probability_distribution`, without the variance and the
     * credible intervals: an error for a number outside 0..36, otherwise the
     * number's parameters, how many observations they hold beyond the prior,
     * and the posterior mean.
     */
    function GetBayesianProbabilityDistribution(number: int): (r: Result<Posterior, RangeError>)
      reads this
      requires Valid()
      ensures r.Err? <==> !InRange(number)
      ensures r.Ok? ==>
        && r.value.alpha == alphaParams[number]
        && r.value.beta == betaParams[number]
        && r.value.observations == r.value.alpha + r.value.beta - 37.0
        && r.value.mean * (r.value.alpha + r.value.beta) == r.value.alpha
        && 0.0 < r.value.mean < 1.0
    {
      if !InRange(number) then Err(NumberOutOfRange)
      else
        assert number in Numbers;
        var alpha := alphaParams[number];
        var beta := betaParams[number];
        Ok(Posterior(alpha / (alpha + beta), alpha, beta, alpha + beta - 37.0))
    }

    /** `update_player_stats`: creates the profile on first sight, then records the bet in it. */
    method UpdatePlayerStats(playerAddress: string, bet: BetData, now: real)
      requires Valid()
      modifies this
      ensures Valid()
      ensures playerProfiles == old(playerProfiles)[playerAddress :=
                RecordBet(if playerAddress in old(playerProfiles) then old(playerProfiles)[playerAddress]
                          else NewProfile(playerAddress, now), bet, now)]
      ensures alphaParams == old(alphaParams) && betaParams == old(betaParams)
      ensures numberFrequencies == old(numberFrequencies) && suspiciousEvents == old(suspiciousEvents)
    {
      if playerAddress !in playerProfiles {
        playerProfiles := playerProfiles[playerAddress := NewProfile(playerAddress, now)];
      }
      var profile := playerProfiles[playerAddress];
      ghost var before := profile;
      profile := profile.(totalBets := profile.totalBets + 1);
      profile := profile.(totalAmount := profile.totalAmount + AmountOf(bet));
      profile := profile.(lastActivity := now);
      if Won(bet) {
        profile := profile.(wins := profile.wins + 1);
        var payout := PayoutOf(bet);
        profile := profile.(profitLoss := profile.profitLoss + (payout - AmountOf(bet)));
      } else {
        profile := profile.(profitLoss := profile.profitLoss - AmountOf(bet));
      }
      profile := profile.(winRate := if profile.totalBets > 0 then profile.wins as real / profile.totalBets as real else 0.0);
      profile := profile.(riskScore := profile.winRate * 2.0);
      assert profile == RecordBet(before, bet, now);
      RecordBetConsistent(before, bet, now);
      playerProfiles := playerProfiles[playerAddress := profile];
    }

    /** `get_player_risk_assessment`: a not-found result for an unknown player, never a failure. */
    function GetPlayerRiskAssessment(playerAddress: string): (a: Assessment)
      reads this
      ensures a.PlayerNotFound? <==> playerAddress !in playerProfiles
      ensures playerAddress in playerProfiles ==>
        var p := playerProfiles[playerAddress];
        && a.riskScore == p.riskScore && a.totalBets == p.totalBets
        && a.winRate == p.winRate && a.isBlacklisted == p.isBlacklisted
        && (a.riskLevel == Low <==> p.riskScore < 0.3)
        && (a.riskLevel == Medium <==> 0.3 <= p.riskScore < 0.6)
        && (a.riskLevel == High <==> 0.6 <= p.riskScore)
        && a.recommendation == Recommendation(a.riskLevel)
        && a.totalSuspiciousEvents == 0 && a.recentEvents == []
    {
      if playerAddress !in playerProfiles then PlayerNotFound("Player not found")
      else
        var p := playerProfiles[playerAddress];
        var level := Classify(p.riskScore);
        Assessment(p.riskScore, p.totalBets, p.winRate, p.isBlacklisted, level, Recommendation(level), 0, [])
    }

    /** `export_analytics_report`: players counted, spins summed over all numbers, the rest fixed at 0. */
    function ExportAnalyticsReport(): (r: Report)
      reads this
      requires Valid()
      ensures r.totalPlayers == |playerProfiles|
      ensures r.totalSpins == SumFrequencies(numberFrequencies, 37) && r.totalSpins >= 0
      ensures (forall n :: n in numberFrequencies ==> numberFrequencies[n] == 0) ==> r.totalSpins == 0
      ensures r.highRiskPlayers == 0 && r.suspiciousEvents24h == 0
    {
      assert forall i :: 0 <= i < 37 ==> i in Numbers;
      SumFrequenciesBounds(numberFrequencies, 37);
      Report(|playerProfiles|, SumFrequencies(numberFrequencies, 37), 0, 0)
    }
  }

  /** On a fresh analyzer every number's posterior has mean 1/37 and no observations. */
  lemma PriorPosterior(analyzer: BayesianAnalyzer, number: int)
    requires analyzer.Valid()
    requires analyzer.alphaParams == map n | n in Numbers :: PriorAlpha
    requires analyzer.betaParams == map n | n in Numbers :: PriorBeta
    requires InRange(number)
    ensures analyzer.GetBayesianProbabilityDistribution(number) == Ok(Posterior(1.0 / 37.0, 1.0, 36.0, 0.0))
  {
    assert number in Numbers;
  }
}
