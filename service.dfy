/**
 * The referral service of src/referrals/referralService.js: tier progress and
 * the facade that validates its configuration and composes the repository's
 * calls into the join and dashboard results.
 */
module Service {
  import opened Common
  import opened Sorting
  import Repository
  import ReferralCode
  import Uri

  datatype Tier = Tier(referralsRequired: int, labelText: string)

  /** DEFAULT_TIERS. */
  const DefaultTiers: seq<Tier> := [
    Tier(0, "On the waitlist"),
    Tier(5, "Unlock beta access"),
    Tier(10, "Priority onboarding"),
    Tier(25, "VIP perks")
  ]

  // ---------------------------------------------------------------------------
  // Numbers

  /** A JavaScript number as far as the progress ratio needs it. */
  datatype JsNumber = Finite(value: real) | PositiveInfinity | NegativeInfinity | NaN

  /** `a / b` in JavaScript: a division by zero gives an infinity, or NaN for `0 / 0`. */
  function Divide(a: int, b: int): (r: JsNumber)
    ensures r.Finite? <==> b != 0
    ensures r.Finite? ==> r.value * (b as real) == a as real
    ensures r == PositiveInfinity <==> b == 0 && a > 0
    ensures r == NegativeInfinity <==> b == 0 && a < 0
    ensures r == NaN <==> b == 0 && a == 0
  {
    if b != 0 then Finite(a as real / b as real)
    else if a > 0 then PositiveInfinity
    else if a < 0 then NegativeInfinity
    else NaN
  }

  function RealMin(a: real, b: real): real { if a < b then a else b }

  function RealMax(a: real, b: real): real { if a < b then b else a }

  /** clamp01: NaN becomes 0, everything else is clamped into [0, 1]. */
  function Clamp01(n: JsNumber): (r: real)
    ensures 0.0 <= r <= 1.0
    ensures n.Finite? && 0.0 <= n.value <= 1.0 ==> r == n.value
    ensures n.NaN? || n.NegativeInfinity? || (n.Finite? && n.value <= 0.0) ==> r == 0.0
    ensures n.PositiveInfinity? || (n.Finite? && n.value >= 1.0) ==> r == 1.0
  {
    match n
    case NaN => 0.0
    case PositiveInfinity => 1.0
    case NegativeInfinity => 0.0
    case Finite(x) => RealMax(0.0, RealMin(1.0, x))
  }

  // ---------------------------------------------------------------------------
  // getTierProgress

  /** The sort order of `(a, b) => a.referralsRequired - b.referralsRequired`. */
  function TierKey(t: Tier): Key {
    Key(t.referralsRequired, 0)
  }

  /** The sort key orders tiers by requirement alone, so ties keep their input order. */
  lemma TierKeyOrders(a: Tier, b: Tier)
    ensures KeyLe(TierKey(a), TierKey(b)) <==> a.referralsRequired <= b.referralsRequired
  {
  }

  /** `[...tiers].sort(...)`: a stable sort by requirement, ascending. */
  function SortTiers(tiers: seq<Tier>): (sorted: seq<Tier>)
    ensures |sorted| == |tiers|
  {
    SortBy(tiers, TierKey)
  }

  /**
   * The index the scan of getTierProgress settles on: the last tier whose
   * requirement the count meets, or 0 when no tier is met.
   */
  function CurrentTierIndex(sorted: seq<Tier>, count: int): (i: nat)
    ensures sorted == [] ==> i == 0
    ensures sorted != [] ==> i < |sorted|
    ensures i > 0 ==> sorted[i].referralsRequired <= count
    ensures forall j :: i < j < |sorted| ==> sorted[j].referralsRequired > count
  {
    if sorted == [] then 0
    else if sorted[|sorted| - 1].referralsRequired <= count then |sorted| - 1
    else CurrentTierIndex(sorted[..|sorted| - 1], count)
  }

  datatype TierProgress = TierProgress(
    currentTier: Option<Tier>,
    nextTier: Option<Tier>,
    progressToNextTier: real,
    remainingToNextTier: int)

  /**
   * What getTierProgress returns. `currentTier` is None only for an empty tier
   * list (`sorted[0]` is undefined there); without a next tier progress is 1
   * and nothing remains.
   */
  function TierProgressOf(count: int, tiers: seq<Tier>): (p: TierProgress)
    ensures 0.0 <= p.progressToNextTier <= 1.0
    ensures p.remainingToNextTier >= 0
    ensures p.currentTier.None? <==> tiers == []
    ensures p.nextTier.None? ==> p.progressToNextTier == 1.0 && p.remainingToNextTier == 0
  {
    var sorted := SortTiers(tiers);
    var index := CurrentTierIndex(sorted, count);
    var currentTier := if index < |sorted| then Some(sorted[index]) else None;
    if index + 1 >= |sorted| then TierProgress(currentTier, None, 1.0, 0)
    else
      var current, next := sorted[index], sorted[index + 1];
      var span := next.referralsRequired - current.referralsRequired;
      var progressed := count - current.referralsRequired;
      TierProgress(Some(current), Some(next), Clamp01(Divide(progressed, span)),
                   Max(0, next.referralsRequired - count))
  }

  /** The scan loop of getTierProgress. */
  method ScanCurrentTier(sorted: seq<Tier>, count: int) returns (index: nat)
    ensures index == CurrentTierIndex(sorted, count)
  {
    index := 0;
    var i := 0;
    while i < |sorted|
      invariant i <= |sorted|
      invariant index == CurrentTierIndex(sorted[..i], count)
    {
      assert sorted[..i + 1][..i] == sorted[..i];
      if count >= sorted[i].referralsRequired {
        index := i;
      }
      i := i + 1;
    }
    assert sorted[..i] == sorted;
  }

  /** getTierProgress. */
  method GetTierProgress(count: int, tiers: seq<Tier>) returns (p: TierProgress)
    ensures p == TierProgressOf(count, tiers)
  {
    var sorted := SortTiers(tiers);
    var index := ScanCurrentTier(sorted, count);
    var currentTier := if index < |sorted| then Some(sorted[index]) else None;
    if index + 1 >= |sorted| {
      return TierProgress(currentTier, None, 1.0, 0);
    }
    var current, next := sorted[index], sorted[index + 1];
    var span := next.referralsRequired - current.referralsRequired;
    var progressed := count - current.referralsRequired;
    return TierProgress(Some(current), Some(next), Clamp01(Divide(progressed, span)),
                        Max(0, next.referralsRequired - count));
  }

  /** The sorted tiers are ascending and hold the same tiers. */
  lemma SortTiersOrders(tiers: seq<Tier>)
    ensures forall i, j :: 0 <= i < j < |SortTiers(tiers)| ==>
              SortTiers(tiers)[i].referralsRequired <= SortTiers(tiers)[j].referralsRequired
    ensures forall t :: t in SortTiers(tiers) <==> t in tiers
  {
    SortByIsStableSort(tiers, TierKey);
    var sorted := SortTiers(tiers);
    forall t ensures t in sorted <==> t in tiers {
      assert t in sorted <==> t in multiset(sorted);
    }
    forall i, j | 0 <= i < j < |sorted| ensures sorted[i].referralsRequired <= sorted[j].referralsRequired {
      assert KeyLe(TierKey(sorted[i]), TierKey(sorted[j]));
    }
  }

  /** A next tier is always still ahead: its requirement exceeds the count, which is what remains. */
  lemma NextTierIsAhead(count: int, tiers: seq<Tier>)
    ensures var p := TierProgressOf(count, tiers);
            p.nextTier.Some? ==>
              && p.nextTier.value.referralsRequired > count
              && p.remainingToNextTier == p.nextTier.value.referralsRequired - count
  {
  }

  /** A numerator below a non-negative denominator gives a clamped ratio below 1. */
  lemma RatioBelowOne(progressed: int, span: int)
    requires progressed < span && span >= 0
    ensures Clamp01(Divide(progressed, span)) < 1.0
  {
    if span > 0 && progressed >= 0 {
      assert (progressed as real) / (span as real) < 1.0 by {
        assert (progressed as real) < (span as real);
      }
    }
  }

  /** Progress is complete exactly when there is no next tier. */
  lemma CompleteIffNoNextTier(count: int, tiers: seq<Tier>)
    ensures TierProgressOf(count, tiers).progressToNextTier == 1.0 <==> TierProgressOf(count, tiers).nextTier.None?
  {
    var sorted := SortTiers(tiers);
    var index := CurrentTierIndex(sorted, count);
    if index + 1 < |sorted| {
      SortTiersOrders(tiers);
      assert sorted[index].referralsRequired <= sorted[index + 1].referralsRequired;
      RatioBelowOne(count - sorted[index].referralsRequired,
                    sorted[index + 1].referralsRequired - sorted[index].referralsRequired);
    }
  }

  /** The largest requirement is met exactly when every requirement is. */
  lemma LastMetIffAllMet(count: int, tiers: seq<Tier>)
    requires tiers != []
    ensures SortTiers(tiers)[|tiers| - 1].referralsRequired <= count <==>
              forall t :: t in tiers ==> t.referralsRequired <= count
  {
    SortTiersOrders(tiers);
    var sorted := SortTiers(tiers);
    var last := sorted[|sorted| - 1];
    assert last in tiers;
    if last.referralsRequired <= count {
      forall t | t in tiers ensures t.referralsRequired <= count {
        var m :| 0 <= m < |sorted| && sorted[m] == t;
        if m < |sorted| - 1 {
          assert sorted[m].referralsRequired <= last.referralsRequired;
        }
      }
    }
  }

  /** There is no next tier exactly when at most one tier exists or every requirement is met. */
  lemma NoNextTierIff(count: int, tiers: seq<Tier>)
    ensures TierProgressOf(count, tiers).nextTier.None? <==>
              |tiers| <= 1 || forall t :: t in tiers ==> t.referralsRequired <= count
  {
    if |tiers| > 1 {
      LastMetIffAllMet(count, tiers);
    }
  }

  /**
   * Progress is complete exactly when every tier's requirement is met, except
   * that a single tier, having no next tier, always reports completion.
   */
  lemma ProgressCompleteIff(count: int, tiers: seq<Tier>)
    ensures TierProgressOf(count, tiers).progressToNextTier == 1.0 <==>
              |tiers| <= 1 || forall t :: t in tiers ==> t.referralsRequired <= count
  {
    CompleteIffNoNextTier(count, tiers);
    NoNextTierIff(count, tiers);
  }

  /**
   * Over a fixed non-negative span, the clamped ratio keeps the order of the
   * numerators (a zero span gives -Infinity, NaN or +Infinity, which clamp to
   * 0, 0 and 1 in that order).
   */
  lemma DivideMonotone(a: int, b: int, span: int)
    requires a <= b && span >= 0
    ensures Clamp01(Divide(a, span)) <= Clamp01(Divide(b, span))
  {
    if span > 0 {
      assert (a as real) / (span as real) <= (b as real) / (span as real);
    }
  }

  /**
   * While the current tier stays the same, progress does not decrease as the
   * count grows. (Across tiers it drops back, e.g. from 0.8 at 4 to 0 at 5
   * with the default tiers.)
   */
  lemma ProgressMonotoneWithinTier(c1: int, c2: int, tiers: seq<Tier>)
    requires c1 <= c2
    requires CurrentTierIndex(SortTiers(tiers), c1) == CurrentTierIndex(SortTiers(tiers), c2)
    ensures TierProgressOf(c1, tiers).progressToNextTier <= TierProgressOf(c2, tiers).progressToNextTier
  {
    SortTiersOrders(tiers);
    var sorted := SortTiers(tiers);
    var index := CurrentTierIndex(sorted, c1);
    if index + 1 < |sorted| {
      var current, next := sorted[index], sorted[index + 1];
      DivideMonotone(c1 - current.referralsRequired, c2 - current.referralsRequired,
                     next.referralsRequired - current.referralsRequired);
    }
  }

  /** The default tiers are already in order, so sorting leaves them as they are. */
  lemma DefaultTiersSorted()
    ensures SortTiers(DefaultTiers) == DefaultTiers
  {
    assert SortedBy(DefaultTiers, TierKey);
    SortByCharacterized(DefaultTiers, DefaultTiers, TierKey);
  }

  /** With the default tiers, four referrals give 0.8 while five start the next tier at 0. */
  lemma DefaultTierExamples()
    ensures TierProgressOf(4, DefaultTiers) == TierProgress(Some(DefaultTiers[0]), Some(DefaultTiers[1]), 0.8, 1)
    ensures TierProgressOf(5, DefaultTiers) == TierProgress(Some(DefaultTiers[1]), Some(DefaultTiers[2]), 0.0, 5)
    ensures TierProgressOf(25, DefaultTiers) == TierProgress(Some(DefaultTiers[3]), None, 1.0, 0)
  {
    DefaultTiersSorted();
    var t := DefaultTiers;
    assert CurrentTierIndex(t[..1], 4) == 0;
    assert CurrentTierIndex(t, 4) == 0;
    assert CurrentTierIndex(t, 5) == 1;
  }

  // ---------------------------------------------------------------------------
  // ReferralService

  /** The text after `baseUrl` in a referral link, and the link itself. */
  function ReferralLink(baseUrl: string, referralCode: string): (link: string)
    ensures baseUrl + "/?ref=" <= link
    ensures AllAsciiAlnum(referralCode) ==> link == baseUrl + "/?ref=" + referralCode
  {
    Uri.EncodeIdentityIff(referralCode);
    baseUrl + "/?ref=" + Uri.EncodeUriComponent(referralCode)
  }

  /** `baseUrl.replace(/\/$/, '')`: one trailing slash, if any, is dropped. */
  function StripTrailingSlash(url: string): (r: string)
    ensures |url| > 0 && url[|url| - 1] == '/' ==> r + "/" == url
    ensures !(|url| > 0 && url[|url| - 1] == '/') ==> r == url
  {
    if |url| > 0 && url[|url| - 1] == '/' then url[..|url| - 1] else url
  }

  /**
   * A link built on a configured base: the base, then `/` unless the base
   * already ends in one (only that one trailing slash is stripped, so a base
   * ending in one `/` gets no second one), then `?ref=` and an alphanumeric
   * code (every generated one), unencoded.
   */
  lemma LinkForConfiguredBase(url: string, code: string)
    requires AllAsciiAlnum(code)
    ensures ReferralLink(StripTrailingSlash(url), code) ==
              (if |url| > 0 && url[|url| - 1] == '/' then url else url + "/") + "?ref=" + code
  {
    var base := StripTrailingSlash(url);
    assert (if |url| > 0 && url[|url| - 1] == '/' then url else url + "/") == base + "/";
    SlashThenQuery(base, code);
  }

  lemma SlashThenQuery(base: string, code: string)
    ensures base + "/?ref=" + code == (base + "/") + "?ref=" + code
  {
    assert "/?ref=" == "/" + "?ref=";
  }

  /** With base `https://widgetexplorer.com/`, every link starts with `https://widgetexplorer.com/?ref=`. */
  lemma WidgetExplorerLink(code: string)
    ensures var link := ReferralLink(StripTrailingSlash("https://widgetexplorer.com/"), code);
            "https://widgetexplorer.com/?ref=" <= link
  {
    var base := StripTrailingSlash("https://widgetexplorer.com/");
    assert base + "/" == "https://widgetexplorer.com/";
    SlashThenQuery(base, "");
  }

  datatype ServiceConfig = ServiceConfig(
    repository: Option<Repository.InMemoryReferralRepository>,
    baseUrl: Option<string>,
    tiers: Option<seq<Tier>>)

  datatype JoinMeta = JoinMeta(wasCreated: bool, referralWasApplied: bool)

  datatype JoinView = JoinView(
    userId: string,
    referralCode: string,
    referralLink: string,
    referralsCount: nat,
    position: nat,
    totalWaitlist: nat,
    totalReferrals: nat,
    leaderboard: seq<Repository.LeaderboardEntry>,
    tiers: seq<Tier>,
    tierProgress: TierProgress,
    joinMeta: JoinMeta)

  datatype Dashboard = Dashboard(
    stats: Repository.Stats,
    referralLink: string,
    tiers: seq<Tier>,
    tierProgress: TierProgress,
    leaderboard: seq<Repository.LeaderboardEntry>)

  /**
   * The ReferralService constructor: a missing repository, then a missing or
   * blank base URL, are errors; otherwise the base URL loses one trailing
   * slash (it is not trimmed) and the tiers default to DEFAULT_TIERS.
   */
  method NewReferralService(config: ServiceConfig) returns (r: Result<ReferralService>)
    ensures config.repository.None? ==> r == Err(RepositoryRequired)
    ensures config.repository.Some? && (config.baseUrl.None? || Trim(config.baseUrl.value) == "") ==>
              r == Err(BaseUrlRequired)
    ensures config.repository.Some? && config.baseUrl.Some? && Trim(config.baseUrl.value) != "" ==>
              && r.Ok? && fresh(r.value)
              && r.value.repository == config.repository.value
              && r.value.baseUrl == StripTrailingSlash(config.baseUrl.value)
              && r.value.tiers == (if config.tiers.Some? then config.tiers.value else DefaultTiers)
  {
    if config.repository.None? {
      return Err(RepositoryRequired);
    }
    if config.baseUrl.None? || |Trim(config.baseUrl.value)| == 0 {
      return Err(BaseUrlRequired);
    }
    var service := new ReferralService(config.repository.value, StripTrailingSlash(config.baseUrl.value),
                                       if config.tiers.Some? then config.tiers.value else DefaultTiers);
    return Ok(service);
  }

  class ReferralService {
    const repository: Repository.InMemoryReferralRepository
    const baseUrl: string
    const tiers: seq<Tier>

    constructor (repository: Repository.InMemoryReferralRepository, baseUrl: string, tiers: seq<Tier>)
      ensures this.repository == repository && this.baseUrl == baseUrl && this.tiers == tiers
    {
      this.repository := repository;
      this.baseUrl := baseUrl;
      this.tiers := tiers;
    }

    /**
     * joinWaitlist: joins through the repository, then reports the user's
     * stats after the join, the top five, the referral link, the tiers with
     * the progress and whether the user was created and credited.
     */
    method JoinWaitlist(input: Repository.JoinInput, now: int, rng: ReferralCode.RandomSource)
      returns (r: Result<JoinView>, ghost joined: Result<Repository.JoinResult>)
      requires repository.Valid()
      modifies repository, rng
      ensures repository.Valid()
      // `joined` is what the repository's joinWaitlist returned.
      ensures var email := Repository.NormalizeEmail(input.email);
              email == "" ==> joined == Err(EmailRequired) && unchanged(repository) && unchanged(rng)
      ensures var email := Repository.NormalizeEmail(input.email);
              email != "" && email in old(repository.userIdByEmail) ==>
                && unchanged(repository) && unchanged(rng)
                && joined.Ok?
                && joined.value.userId == old(repository.usersById)[old(repository.userIdByEmail)[email]].id
                && !joined.value.wasCreated && !joined.value.referralWasApplied
      ensures var email := Repository.NormalizeEmail(input.email);
              email != "" && email !in old(repository.userIdByEmail) ==>
                repository.JoinedAsNewUser(email, Repository.NormalizeReferralCode(input.referralCode), now, rng, joined)
      // The view passes on the repository's error, or reports the joined user.
      ensures r.Err? <==> joined.Err?
      ensures r.Err? ==> r.error == joined.error && r.error in {EmailRequired, CodeSpaceExhausted}
      ensures r.Ok? ==>
                var v := r.value;
                && v.userId == joined.value.userId
                && v.joinMeta == JoinMeta(joined.value.wasCreated, joined.value.referralWasApplied)
                && v.userId in repository.usersById
                && v.referralCode == repository.usersById[v.userId].referralCode
                && v.referralsCount == repository.usersById[v.userId].referralsCount
                && Repository.RanksAt(repository.Ranking(), v.position, v.userId)
                && v.totalWaitlist == |repository.usersById|
                && v.totalReferrals == |repository.refereeIdsThatWereCredited|
                && Repository.IsTopOfRanking(v.leaderboard, repository.Ranking(), 5)
                && v.referralLink == ReferralLink(baseUrl, v.referralCode)
                && v.tiers == tiers && v.tierProgress == TierProgressOf(v.referralsCount, tiers)
    {
      var result := repository.JoinWaitlist(input, now, rng);
      joined := result;
      if result.Err? {
        return Err(result.error), joined;
      }
      var stats := repository.GetWaitlistStats(result.value.userId);
      var leaderboard := repository.GetReferralLeaderboard(Some(5));
      var referralLink := ReferralLink(baseUrl, stats.value.referralCode);
      var tierProgress := GetTierProgress(stats.value.referralsCount, tiers);
      return Ok(JoinView(stats.value.userId, stats.value.referralCode, referralLink, stats.value.referralsCount,
                         stats.value.position, stats.value.totalWaitlist, stats.value.totalReferrals,
                         leaderboard, tiers, tierProgress,
                         JoinMeta(result.value.wasCreated, result.value.referralWasApplied))), joined;
    }

    /** getDashboard: the user's stats, the top ten, the referral link and the tiers with the progress. */
    method GetDashboard(userId: string) returns (r: Result<Dashboard>)
      requires repository.Valid()
      ensures userId !in repository.usersById ==> r == Err(UserNotFound)
      ensures userId in repository.usersById ==>
                && r.Ok?
                && r.value.stats.userId == userId
                && r.value.stats.referralCode == repository.usersById[userId].referralCode
                && r.value.stats.referralsCount == repository.usersById[userId].referralsCount
                && Repository.RanksAt(repository.Ranking(), r.value.stats.position, userId)
                && r.value.stats.totalWaitlist == |repository.usersById|
                && r.value.stats.totalReferrals == |repository.refereeIdsThatWereCredited|
                && Repository.IsTopOfRanking(r.value.leaderboard, repository.Ranking(), 10)
                && r.value.referralLink == ReferralLink(baseUrl, r.value.stats.referralCode)
                && r.value.tiers == tiers
                && r.value.tierProgress == TierProgressOf(r.value.stats.referralsCount, tiers)
    {
      var stats := repository.GetWaitlistStats(userId);
      if stats.Err? {
        return Err(stats.error);
      }
      var leaderboard := repository.GetReferralLeaderboard(Some(10));
      var referralLink := ReferralLink(baseUrl, stats.value.referralCode);
      var tierProgress := GetTierProgress(stats.value.referralsCount, tiers);
      return Ok(Dashboard(stats.value, referralLink, tiers, tierProgress, leaderboard));
    }
  }
}
