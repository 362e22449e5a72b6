/**
 * The in-memory waitlist repository (src/referrals/inMemoryReferralRepository.js):
 * users keyed by id with secondary indices by e-mail and by referral code, the
 * set of referees already credited, an id counter, and the ranking that orders
 * the waitlist by referral count (descending) and join time (ascending).
 *
 * The clock behind `createdAt: new Date()` is the parameter `now` of
 * `JoinWaitlist`; the randomness behind the referral codes is a
 * `ReferralCode.RandomSource`.
 */
module Repository {
  import opened Common
  import opened Sorting
  import ReferralCode

  // ---------------------------------------------------------------------------
  // Records

  datatype User = User(
    id: string,
    email: string,
    createdAt: int,
    referralCode: string,
    referredById: Option<string>,
    referralsCount: nat)

  datatype JoinInput = JoinInput(email: Option<string>, referralCode: Option<string>)

  datatype JoinResult = JoinResult(
    userId: string,
    referralCode: string,
    referralsCount: nat,
    position: nat,
    wasCreated: bool,
    referralWasApplied: bool)

  datatype Stats = Stats(
    userId: string,
    referralCode: string,
    referralsCount: nat,
    position: nat,
    totalWaitlist: nat,
    totalReferrals: nat)

  datatype LeaderboardEntry = LeaderboardEntry(
    userId: string,
    referralCode: string,
    referralsCount: nat,
    position: nat)

  const CodeLength: nat := 6
  const MaxCodeAttempts: nat := 20
  const DefaultLeaderboardLimit: int := 10

  /** The id `_newId` hands out for counter value `n`: `user_${n}`. */
  function UserIdFor(n: nat): (id: string)
    ensures |id| > 5 && id[..5] == "user_" && id[5..] == Decimal(n)
    ensures forall i :: 5 <= i < |id| ==> IsAsciiDigit(id[i])
  {
    "user_" + Decimal(n)
  }

  lemma UserIdInjective(a: nat, b: nat)
    requires UserIdFor(a) == UserIdFor(b)
    ensures a == b
  {
    assert Decimal(a) == UserIdFor(a)[5..];
    assert Decimal(b) == UserIdFor(b)[5..];
    DecimalInjective(a, b);
  }

  // ---------------------------------------------------------------------------
  // Input normalisation

  /** `input.email?.trim().toLowerCase()`, with an absent e-mail read as the empty string (both are falsy). */
  function NormalizeEmail(email: Option<string>): (e: string)
    ensures email.None? ==> e == ""
    ensures email.Some? ==> |e| <= |email.value|
    ensures e == [] || (!IsJsWhitespace(e[0]) && !IsJsWhitespace(e[|e| - 1]))
    ensures forall i :: 0 <= i < |e| ==> !IsAsciiUpper(e[i])
    ensures email.Some? ==> (e == "" <==> forall i :: 0 <= i < |email.value| ==> IsJsWhitespace(email.value[i]))
    ensures email.Some? ==> |e| == |Trim(email.value)|
    ensures email.Some? ==> forall i :: 0 <= i < |e| ==> e[i] == AsciiLower(Trim(email.value)[i])
  {
    if email.None? then ""
    else
      var t := Trim(email.value);
      ToLowerCaseKeepsWhitespace(t);
      ToLowerCase(t)
  }

  /** Whitespace around an e-mail does not change its key. */
  lemma NormalizeEmailIgnoresPadding(pre: string, email: string, post: string)
    requires AllWhitespace(pre) && AllWhitespace(post)
    ensures NormalizeEmail(Some(pre + email + post)) == NormalizeEmail(Some(email))
  {
    TrimIgnoresPadding(pre, email, post);
  }

  /** The case of an e-mail's ASCII letters does not change its key. */
  lemma NormalizeEmailIgnoresCase(email: string)
    ensures NormalizeEmail(Some(ToLowerCase(email))) == NormalizeEmail(Some(email))
  {
    TrimLowerCommute(email);
    ToLowerCaseIdempotent(Trim(email));
  }

  /** A padded, capitalised e-mail finds the account of its plain form. */
  lemma NormalizeEmailExample()
    ensures NormalizeEmail(Some(" A@x.com ")) == NormalizeEmail(Some("a@x.com"))
  {
    var padded, upper, lower := " A@x.com ", "A@x.com", "a@x.com";
    assert padded == " " + upper + " ";
    NormalizeEmailIgnoresPadding(" ", upper, " ");
    LowerCaseExample();
    NormalizeEmailIgnoresCase(upper);
  }

  lemma LowerCaseExample()
    ensures ToLowerCase("A@x.com") == "a@x.com"
  {
  }

  /** `input.referralCode?.trim() || null`: absent, or blank after trimming, means no code. */
  function NormalizeReferralCode(code: Option<string>): (c: Option<string>)
    ensures c.Some? ==> code.Some? && c.value == Trim(code.value) && c.value != ""
    ensures c.None? ==> code.None? || Trim(code.value) == ""
  {
    if code.None? || Trim(code.value) == "" then None else Some(Trim(code.value))
  }

  // ---------------------------------------------------------------------------
  // computeRankings

  /** The comparator of computeRankings as a key: referralsCount descending, then createdAt ascending. */
  function RankKey(u: User): Key {
    Key(0 - u.referralsCount as int, u.createdAt)
  }

  /** One user ranks at or above another when it has more referrals, or as many and joined no later. */
  predicate RanksAtOrAbove(a: User, b: User) {
    a.referralsCount > b.referralsCount || (a.referralsCount == b.referralsCount && a.createdAt <= b.createdAt)
  }

  /** The comparator of computeRankings: the key order is exactly "ranks at or above". */
  lemma RankKeyOrders(a: User, b: User)
    ensures KeyLe(RankKey(a), RankKey(b)) <==> RanksAtOrAbove(a, b)
  {
  }

  /**
   * The users of computeRankings, in ranking order: `users` (the iteration
   * order of `usersById`, which is insertion order) sorted stably by RankKey.
   * `RankingOrders` states what this order is.
   */
  function ComputeRankings(users: seq<User>): (ranked: seq<User>)
    ensures |ranked| == |users|
  {
    SortBy(users, RankKey)
  }

  /**
   * The ranking lists the same users, each at or above the next, and users with
   * equal counts and equal join times keep their insertion order.
   */
  lemma RankingOrders(users: seq<User>)
    ensures multiset(ComputeRankings(users)) == multiset(users)
    ensures forall i, j :: 0 <= i < j < |users| ==> RanksAtOrAbove(ComputeRankings(users)[i], ComputeRankings(users)[j])
    ensures forall k :: WithKey(ComputeRankings(users), RankKey, k) == WithKey(users, RankKey, k)
  {
    SortByIsStableSort(users, RankKey);
  }

  predicate DistinctIds(users: seq<User>) {
    forall i, j :: 0 <= i < j < |users| ==> users[i].id != users[j].id
  }

  /** `positionById`: each user's id mapped to its 1-based index; a later duplicate id would overwrite. */
  function PositionMap(ranked: seq<User>): (positions: map<string, nat>)
    ensures forall id :: id in positions ==> 1 <= positions[id] <= |ranked| && ranked[positions[id] - 1].id == id
  {
    if ranked == [] then map[]
    else PositionMap(ranked[..|ranked| - 1])[ranked[|ranked| - 1].id := |ranked|]
  }

  /** The sum `users.reduce((sum, u) => sum + u.referralsCount, 0)`. */
  function SumCounts(users: seq<User>): (total: nat)
    ensures forall i :: 0 <= i < |users| ==> users[i].referralsCount <= total
  {
    if users == [] then 0 else SumCounts(users[..|users| - 1]) + users[|users| - 1].referralsCount
  }

  // ---------------------------------------------------------------------------
  // Properties of the ranking

  /** positionById has an entry for exactly the ids the ranking lists. */
  lemma {:induction false} PositionMapKeys(ranked: seq<User>)
    ensures PositionMap(ranked).Keys == set u | u in ranked :: u.id
  {
    if ranked != [] {
      var init, last := ranked[..|ranked| - 1], ranked[|ranked| - 1];
      PositionMapKeys(init);
      assert ranked == init + [last];
      assert (set u | u in ranked :: u.id) == (set u | u in init :: u.id) + {last.id};
    }
  }

  /** The ranking of users with distinct ids assigns positions 1..n, one per user, in ranking order. */
  lemma {:induction false} PositionsAreIndices(ranked: seq<User>)
    requires DistinctIds(ranked)
    ensures forall i :: 0 <= i < |ranked| ==> ranked[i].id in PositionMap(ranked) && PositionMap(ranked)[ranked[i].id] == i + 1
  {
    if ranked != [] {
      var init, last := ranked[..|ranked| - 1], ranked[|ranked| - 1];
      PositionsAreIndices(init);
      forall i | 0 <= i < |init| ensures ranked[i].id in PositionMap(ranked) && PositionMap(ranked)[ranked[i].id] == i + 1 {
        assert ranked[i] == init[i] && ranked[i].id != last.id;
      }
    }
  }

  lemma {:induction false} SumCountsAppend(a: seq<User>, b: seq<User>)
    ensures SumCounts(a + b) == SumCounts(a) + SumCounts(b)
    decreases |b|
  {
    if b == [] {
      assert a + b == a;
    } else {
      var b' := b[..|b| - 1];
      assert (a + b)[..|a + b| - 1] == a + b';
      assert (a + b)[|a + b| - 1] == b[|b| - 1];
      SumCountsAppend(a, b');
    }
  }

  lemma RankingMembers(users: seq<User>)
    ensures forall u :: u in ComputeRankings(users) <==> u in users
  {
    RankingOrders(users);
    var ranked := ComputeRankings(users);
    assert forall u :: u in ranked <==> u in multiset(ranked);
    assert forall u :: u in users <==> u in multiset(users);
  }

  /** Ranking keeps the total of the referral counts. */
  lemma {:induction false} RankingKeepsSum(users: seq<User>)
    ensures SumCounts(SortBy(users, RankKey)) == SumCounts(users)
  {
    if users != [] {
      var init, last := users[..|users| - 1], users[|users| - 1];
      RankingKeepsSum(init);
      var sortedInit := SortBy(init, RankKey);
      var p := InsertSplices(last, sortedInit, RankKey);
      var a, b := sortedInit[..p], sortedInit[p..];
      assert sortedInit == a + b;
      SumCountsAppend(a, b);
      SumCountsAppend(a, [last]);
      SumCountsAppend(a + [last], b);
      assert [last][..0] == [];
    }
  }

  /** Ranking users with distinct ids gives users with distinct ids. */
  lemma {:induction false} RankingKeepsDistinctIds(users: seq<User>)
    requires DistinctIds(users)
    ensures DistinctIds(SortBy(users, RankKey))
  {
    if users != [] {
      var init, last := users[..|users| - 1], users[|users| - 1];
      RankingKeepsDistinctIds(init);
      RankingMembers(init);
      var sortedInit := SortBy(init, RankKey);
      var ranked := SortBy(users, RankKey);
      var p := InsertSplices(last, sortedInit, RankKey);
      forall i, j | 0 <= i < j < |ranked| ensures ranked[i].id != ranked[j].id {
        if i == p || j == p {
          var other := if i == p then ranked[j] else ranked[i];
          assert other in sortedInit;
          assert ComputeRankings(init) == sortedInit;
          assert other in init;
          var k :| 0 <= k < |init| && init[k] == other;
          assert users[k] == other;
        } else {
          var i' := if i < p then i else i - 1;
          var j' := if j < p then j else j - 1;
          assert ranked[i] == sortedInit[i'] && ranked[j] == sortedInit[j'];
        }
      }
    }
  }

  // ---------------------------------------------------------------------------
  // The store's invariant, stated on its field values

  /** The users whose `referredById` is `id`. */
  ghost function Referees(users: map<string, User>, id: string): set<string> {
    set x | x in users && users[x].referredById == Some(id)
  }

  /** The users that were credited to some referrer. */
  ghost function ReferredUsers(users: map<string, User>): set<string> {
    set x | x in users && users[x].referredById.Some?
  }

  /** The users credited to any of `ids`. */
  ghost function RefereesOfAll(users: map<string, User>, ids: set<string>): set<string> {
    set x | x in users && users[x].referredById.Some? && users[x].referredById.value in ids
  }

  /** The ids a sequence lists. */
  ghost function Listed(s: seq<string>): set<string> {
    if s == [] then {} else Listed(s[..|s| - 1]) + {s[|s| - 1]}
  }

  /** No id occurs twice in `s`. */
  ghost predicate NoDuplicates(s: seq<string>) {
    s == [] || (NoDuplicates(s[..|s| - 1]) && s[|s| - 1] !in s[..|s| - 1])
  }

  lemma {:induction false} ListedMembers(s: seq<string>)
    ensures forall x :: x in Listed(s) <==> x in s
  {
    if s != [] {
      ListedMembers(s[..|s| - 1]);
      assert s == s[..|s| - 1] + [s[|s| - 1]];
    }
  }

  lemma {:induction false} NoDuplicatesMeans(s: seq<string>)
    ensures NoDuplicates(s) <==> forall i, j :: 0 <= i < j < |s| ==> s[i] != s[j]
  {
    if s != [] {
      var init := s[..|s| - 1];
      NoDuplicatesMeans(init);
      assert forall i :: 0 <= i < |init| ==> init[i] == s[i];
    }
  }

  /** `order` lists every user exactly once: the iteration order of `usersById`. */
  ghost predicate OrderCoversUsers(users: map<string, User>, order: seq<string>) {
    && |order| == |users|
    && (forall i :: 0 <= i < |order| ==> order[i] in users)
    && Listed(order) == users.Keys
    && NoDuplicates(order)
  }

  /** Each user is stored under its own id, and no id `_newId` has yet to issue is in use. */
  ghost predicate RecordsKeyed(users: map<string, User>, counter: nat) {
    && (forall id {:trigger users[id]} :: id in users ==> users[id].id == id)
    && "" !in users
    && (forall m: nat :: m > counter ==> UserIdFor(m) !in users)
  }

  /** `byEmail` maps exactly the users' e-mails to their ids (so e-mails are unique). */
  ghost predicate EmailIndexed(users: map<string, User>, byEmail: map<string, string>) {
    && (forall e :: e in byEmail ==> byEmail[e] in users && users[byEmail[e]].email == e)
    && (forall id {:trigger users[id]} :: id in users ==> users[id].email in byEmail && byEmail[users[id].email] == id)
  }

  /** `byCode` maps exactly the users' referral codes to their ids (so codes are unique). */
  ghost predicate CodeIndexed(users: map<string, User>, byCode: map<string, string>) {
    && (forall c :: c in byCode ==> byCode[c] in users && users[byCode[c]].referralCode == c)
    && (forall id {:trigger users[id]} :: id in users ==> users[id].referralCode in byCode && byCode[users[id].referralCode] == id)
  }

  /**
   * The credited set is the set of users with a referrer, every referrer is
   * another stored user, and every `referralsCount` is the number of users
   * that name that user as their referrer.
   */
  ghost predicate ReferralsCounted(users: map<string, User>, credited: set<string>) {
    && credited == ReferredUsers(users)
    && ReferrersStored(users)
    && CountsMatch(users)
  }

  ghost predicate ReferrersStored(users: map<string, User>) {
    forall id {:trigger users[id].referredById} :: id in users && users[id].referredById.Some? ==>
      users[id].referredById.value in users && users[id].referredById.value != id
  }

  ghost predicate CountsMatch(users: map<string, User>) {
    forall id {:trigger Referees(users, id)} :: id in users ==> users[id].referralsCount == |Referees(users, id)|
  }

  /** The invariant of the repository. */
  ghost predicate Consistent(
    users: map<string, User>, order: seq<string>, byEmail: map<string, string>,
    byCode: map<string, string>, credited: set<string>, counter: nat)
  {
    && OrderCoversUsers(users, order)
    && RecordsKeyed(users, counter)
    && EmailIndexed(users, byEmail)
    && CodeIndexed(users, byCode)
    && ReferralsCounted(users, credited)
  }

  /** The users in the order `order` lists their ids. */
  function UsersOf(users: map<string, User>, order: seq<string>): (r: seq<User>)
    requires forall i :: 0 <= i < |order| ==> order[i] in users
    ensures |r| == |order|
    ensures forall i :: 0 <= i < |order| ==> r[i] == users[order[i]]
  {
    seq(|order|, i requires 0 <= i < |order| && order[i] in users => users[order[i]])
  }

  lemma RefereesAfterUpdate(users: map<string, User>, k: string, u: User, id: string)
    ensures Referees(users[k := u], id) ==
            (Referees(users, id) - {k}) + (if u.referredById == Some(id) then {k} else {})
  {
  }

  lemma ReferredUsersAfterUpdate(users: map<string, User>, k: string, u: User)
    ensures ReferredUsers(users[k := u]) ==
            (ReferredUsers(users) - {k}) + (if u.referredById.Some? then {k} else {})
  {
  }

  /** The counter has never reached the id `_newId` issues next. */
  lemma FreshId(users: map<string, User>, order: seq<string>, byEmail: map<string, string>,
                byCode: map<string, string>, credited: set<string>, counter: nat)
    requires Consistent(users, order, byEmail, byCode, credited, counter)
    ensures UserIdFor(counter + 1) !in users
  {
  }

  lemma CounterBumpConsistent(users: map<string, User>, order: seq<string>, byEmail: map<string, string>,
                              byCode: map<string, string>, credited: set<string>, counter: nat)
    requires Consistent(users, order, byEmail, byCode, credited, counter)
    ensures Consistent(users, order, byEmail, byCode, credited, counter + 1)
  {
  }

  /** Registering a fresh user without a referrer in all three maps keeps the invariant. */
  lemma AddUserConsistent(users: map<string, User>, order: seq<string>, byEmail: map<string, string>,
                          byCode: map<string, string>, credited: set<string>, counter: nat, u: User)
    requires Consistent(users, order, byEmail, byCode, credited, counter)
    requires u.id !in users && u.id == UserIdFor(counter)
    requires u.email !in byEmail && u.referralCode !in byCode
    requires u.referredById == None && u.referralsCount == 0
    ensures Consistent(users[u.id := u], order + [u.id], byEmail[u.email := u.id],
                       byCode[u.referralCode := u.id], credited, counter)
  {
    AddUserKeepsOrder(users, order, u);
    AddUserKeepsRecords(users, counter, u);
    AddUserKeepsEmails(users, byEmail, u);
    AddUserKeepsCodes(users, byCode, u);
    AddUserKeepsReferrals(users, credited, u);
  }

  lemma AddUserKeepsOrder(users: map<string, User>, order: seq<string>, u: User)
    requires OrderCoversUsers(users, order) && u.id !in users
    ensures OrderCoversUsers(users[u.id := u], order + [u.id])
  {
    var order' := order + [u.id];
    assert order'[..|order'| - 1] == order;
    ListedMembers(order);
  }

  lemma AddUserKeepsRecords(users: map<string, User>, counter: nat, u: User)
    requires RecordsKeyed(users, counter) && u.id == UserIdFor(counter)
    ensures RecordsKeyed(users[u.id := u], counter)
  {
    forall m: nat | m > counter ensures UserIdFor(m) != u.id {
      if UserIdFor(m) == u.id {
        UserIdInjective(m, counter);
      }
    }
  }

  lemma AddUserKeepsEmails(users: map<string, User>, byEmail: map<string, string>, u: User)
    requires EmailIndexed(users, byEmail) && u.id !in users && u.email !in byEmail
    ensures EmailIndexed(users[u.id := u], byEmail[u.email := u.id])
  {
  }

  lemma AddUserKeepsCodes(users: map<string, User>, byCode: map<string, string>, u: User)
    requires CodeIndexed(users, byCode) && u.id !in users && u.referralCode !in byCode
    ensures CodeIndexed(users[u.id := u], byCode[u.referralCode := u.id])
  {
  }

  /** A user nobody stored names as referrer has no referees; adding one without a referrer changes nobody's. */
  lemma AddUserReferees(users: map<string, User>, u: User, id: string)
    requires u.id !in users && u.referredById == None
    requires forall x :: x in users && users[x].referredById.Some? ==> users[x].referredById.value in users
    ensures Referees(users[u.id := u], id) == Referees(users, id)
    ensures Referees(users, u.id) == {}
  {
    RefereesAfterUpdate(users, u.id, u, id);
    if x :| x in Referees(users, u.id) {
      assert false;
    }
  }

  lemma AddUserKeepsReferrals(users: map<string, User>, credited: set<string>, u: User)
    requires ReferralsCounted(users, credited)
    requires u.id !in users && u.referredById == None && u.referralsCount == 0
    ensures ReferralsCounted(users[u.id := u], credited)
  {
    var users' := users[u.id := u];
    ReferredUsersAfterUpdate(users, u.id, u);
    assert credited == ReferredUsers(users');
    AddUserKeepsReferrers(users, u);
    AddUserKeepsCounts(users, u);
  }

  lemma AddUserKeepsReferrers(users: map<string, User>, u: User)
    requires ReferrersStored(users) && u.id !in users && u.referredById == None
    ensures ReferrersStored(users[u.id := u])
  {
  }

  lemma AddUserKeepsCounts(users: map<string, User>, u: User)
    requires ReferrersStored(users) && CountsMatch(users)
    requires u.id !in users && u.referredById == None && u.referralsCount == 0
    ensures CountsMatch(users[u.id := u])
  {
    var users' := users[u.id := u];
    forall id | id in users' ensures users'[id].referralsCount == |Referees(users', id)| {
      AddUserReferees(users, u, id);
      if id == u.id {
        AddUserReferees(users, u, u.id);
      }
    }
  }

  /** Crediting the fresh user `n` to referrer `r` keeps the invariant. */
  lemma CreditConsistent(users: map<string, User>, order: seq<string>, byEmail: map<string, string>,
                         byCode: map<string, string>, credited: set<string>, counter: nat, r: string, n: string)
    requires Consistent(users, order, byEmail, byCode, credited, counter)
    requires r in users && n in users && r != n && users[n].referredById == None
    ensures n !in credited
    ensures Consistent(Credit(users, r, n), order, byEmail, byCode, credited + {n}, counter)
  {
    var users' := Credit(users, r, n);
    assert OrderCoversUsers(users', order);
    assert RecordsKeyed(users', counter);
    CreditKeepsIndexes(users, byEmail, byCode, r, n);
    CreditKeepsReferrals(users, credited, r, n);
  }

  lemma CreditKeepsIndexes(users: map<string, User>, byEmail: map<string, string>, byCode: map<string, string>,
                           r: string, n: string)
    requires EmailIndexed(users, byEmail) && CodeIndexed(users, byCode)
    requires r in users && n in users && r != n
    ensures EmailIndexed(Credit(users, r, n), byEmail) && CodeIndexed(Credit(users, r, n), byCode)
  {
  }

  /** After the credit, `r` has gained referee `n` and nobody else's referees changed. */
  lemma CreditReferees(users: map<string, User>, r: string, n: string, id: string)
    requires r in users && n in users && r != n && users[n].referredById == None
    ensures n !in Referees(users, id)
    ensures Referees(Credit(users, r, n), id) == Referees(users, id) + (if id == r then {n} else {})
  {
    var users1 := users[r := users[r].(referralsCount := users[r].referralsCount + 1)];
    RefereesAfterUpdate(users, r, users1[r], id);
    RefereesAfterUpdate(users1, n, users1[n].(referredById := Some(r)), id);
  }

  lemma CreditKeepsReferrals(users: map<string, User>, credited: set<string>, r: string, n: string)
    requires ReferralsCounted(users, credited)
    requires r in users && n in users && r != n && users[n].referredById == None
    ensures ReferralsCounted(Credit(users, r, n), credited + {n})
  {
    var users' := Credit(users, r, n);
    var users1 := users[r := users[r].(referralsCount := users[r].referralsCount + 1)];
    ReferredUsersAfterUpdate(users, r, users1[r]);
    ReferredUsersAfterUpdate(users1, n, users'[n]);
    assert credited + {n} == ReferredUsers(users');
    CreditKeepsReferrers(users, r, n);
    CreditKeepsCounts(users, r, n);
  }

  lemma CreditKeepsReferrers(users: map<string, User>, r: string, n: string)
    requires ReferrersStored(users) && r in users && n in users && r != n
    ensures ReferrersStored(Credit(users, r, n))
  {
  }

  lemma CreditKeepsCounts(users: map<string, User>, r: string, n: string)
    requires CountsMatch(users)
    requires r in users && n in users && r != n && users[n].referredById == None
    ensures CountsMatch(Credit(users, r, n))
  {
    var users' := Credit(users, r, n);
    forall id | id in users' ensures users'[id].referralsCount == |Referees(users', id)| {
      CreditReferees(users, r, n, id);
    }
  }

  /** Every code holder is a stored user, so none of them is a fresh id. */
  lemma CodeHoldersAreOthers(users: map<string, User>, byCode: map<string, string>, id: string)
    requires CodeIndexed(users, byCode) && id !in users
    ensures forall c :: c in byCode ==> byCode[c] in users && byCode[c] != id
  {
  }

  /** A user without a referrer is not among the credited referees. */
  lemma NotYetCredited(users: map<string, User>, credited: set<string>, id: string)
    requires credited == ReferredUsers(users) && id in users && users[id].referredById == None
    ensures id !in credited
  {
  }

  /** `users` after `r` is credited with referee `n`: r's count rises by one and n names r. */
  function Credit(users: map<string, User>, r: string, n: string): (users': map<string, User>)
    requires r in users && n in users && r != n
    ensures users'.Keys == users.Keys
    ensures users'[r] == users[r].(referralsCount := users[r].referralsCount + 1)
    ensures users'[n] == users[n].(referredById := Some(r))
    ensures forall id :: id in users && id != r && id != n ==> users'[id] == users[id]
  {
    users[r := users[r].(referralsCount := users[r].referralsCount + 1)]
         [n := users[n].(referredById := Some(r))]
  }

  /** Summed over users with distinct ids, the counts add up to the number of users credited to one of them. */
  lemma {:induction false} SumCountsPartition(users: map<string, User>, order: seq<string>)
    requires forall i :: 0 <= i < |order| ==> order[i] in users
    requires NoDuplicates(order)
    requires forall id :: id in users ==> users[id].referralsCount == |Referees(users, id)|
    ensures SumCounts(UsersOf(users, order)) == |RefereesOfAll(users, Listed(order))|
  {
    if order == [] {
      assert RefereesOfAll(users, {}) == {};
    } else {
      var init, last := order[..|order| - 1], order[|order| - 1];
      SumCountsPartition(users, init);
      assert UsersOf(users, order)[..|order| - 1] == UsersOf(users, init);
      var before := RefereesOfAll(users, Listed(init));
      assert RefereesOfAll(users, Listed(order)) == before + Referees(users, last);
      ListedMembers(init);
      assert before * Referees(users, last) == {};
    }
  }

  /** In a consistent store the counts sum to the number of credited referees. */
  lemma TotalReferralsIsCredited(users: map<string, User>, order: seq<string>, byEmail: map<string, string>,
                                 byCode: map<string, string>, credited: set<string>, counter: nat)
    requires Consistent(users, order, byEmail, byCode, credited, counter)
    ensures SumCounts(UsersOf(users, order)) == |credited|
  {
    SumCountsPartition(users, order);
    assert RefereesOfAll(users, users.Keys) == ReferredUsers(users);
  }

  /** Users listed by distinct ids, each stored under its own id, have distinct ids. */
  lemma ListedIdsDistinct(users: map<string, User>, order: seq<string>)
    requires OrderCoversUsers(users, order)
    requires forall x :: x in users ==> users[x].id == x
    ensures DistinctIds(UsersOf(users, order))
  {
    NoDuplicatesMeans(order);
  }

  lemma ListedMember(users: map<string, User>, order: seq<string>, id: string)
    requires OrderCoversUsers(users, order) && id in users
    ensures users[id] in UsersOf(users, order)
  {
    ListedMembers(order);
    var i :| 0 <= i < |order| && order[i] == id;
    assert UsersOf(users, order)[i] == users[id];
  }

  /** The ranking of a consistent store lists distinct ids, each at the position PositionMap gives it. */
  lemma RankingDistinct(users: map<string, User>, order: seq<string>)
    requires OrderCoversUsers(users, order)
    requires forall x :: x in users ==> users[x].id == x
    ensures var ranked := ComputeRankings(UsersOf(users, order));
            && DistinctIds(ranked)
            && forall i :: 0 <= i < |ranked| ==> ranked[i].id in PositionMap(ranked) && PositionMap(ranked)[ranked[i].id] == i + 1
  {
    ListedIdsDistinct(users, order);
    RankingKeepsDistinctIds(UsersOf(users, order));
    PositionsAreIndices(ComputeRankings(UsersOf(users, order)));
  }

  /** A user of a ranking with distinct ids sits at the position PositionMap gives its id. */
  lemma PositionOfMember(ranked: seq<User>, u: User)
    requires DistinctIds(ranked) && u in ranked
    ensures u.id in PositionMap(ranked)
    ensures 1 <= PositionMap(ranked)[u.id] <= |ranked| && ranked[PositionMap(ranked)[u.id] - 1].id == u.id
  {
    PositionsAreIndices(ranked);
    var j :| 0 <= j < |ranked| && ranked[j] == u;
  }

  /** The ranking of a consistent store lists every user, and its counts add up to the number of credited referees. */
  lemma RankingTotals(users: map<string, User>, order: seq<string>, byEmail: map<string, string>,
                      byCode: map<string, string>, credited: set<string>, counter: nat)
    requires Consistent(users, order, byEmail, byCode, credited, counter)
    ensures |ComputeRankings(UsersOf(users, order))| == |users|
    ensures SumCounts(ComputeRankings(UsersOf(users, order))) == |credited|
  {
    TotalReferralsIsCredited(users, order, byEmail, byCode, credited, counter);
    RankingKeepsSum(UsersOf(users, order));
  }

  /** Every user of a consistent store has the position of its place in the ranking. */
  lemma RankingPosition(users: map<string, User>, order: seq<string>, id: string)
    requires OrderCoversUsers(users, order)
    requires forall x :: x in users ==> users[x].id == x
    requires id in users
    ensures var ranked := ComputeRankings(UsersOf(users, order));
            && id in PositionMap(ranked)
            && 1 <= PositionMap(ranked)[id] <= |ranked|
            && ranked[PositionMap(ranked)[id] - 1].id == id
  {
    var listed := UsersOf(users, order);
    ListedIdsDistinct(users, order);
    RankingKeepsDistinctIds(listed);
    ListedMember(users, order, id);
    RankingMembers(listed);
    PositionOfMember(ComputeRankings(listed), users[id]);
  }

  // ---------------------------------------------------------------------------
  // _ensureUniqueReferralCode

  /** The code the `k`-th attempt draws, when the attempts start at draw number `start`. */
  function AttemptCode(oracle: (nat, int) -> int, start: nat, k: nat): string {
    DefaultCodeAt(oracle, start + CodeLength * k)
  }

  /** The six-character default-alphabet code drawn from position `position` of the random stream. */
  function DefaultCodeAt(oracle: (nat, int) -> int, position: nat): string {
    ReferralCode.CodeFromDraws(ReferralCode.DefaultAlphabet,
      ReferralCode.Draws(oracle, position, CodeLength, |ReferralCode.DefaultAlphabet|))
  }

  /** The first attempt, from attempt `from` on and below 20, whose code is not taken yet. */
  function FirstFreeAttempt(oracle: (nat, int) -> int, start: nat, taken: set<string>, from: nat): (r: Option<nat>)
    ensures r.Some? ==> from <= r.value < MaxCodeAttempts && AttemptCode(oracle, start, r.value) !in taken
    ensures r.Some? ==> forall j :: from <= j < r.value ==> AttemptCode(oracle, start, j) in taken
    ensures r.None? ==> forall j :: from <= j < MaxCodeAttempts ==> AttemptCode(oracle, start, j) in taken
    decreases MaxCodeAttempts - from
  {
    if from >= MaxCodeAttempts then None
    else if AttemptCode(oracle, start, from) !in taken then Some(from)
    else FirstFreeAttempt(oracle, start, taken, from + 1)
  }

  /** One step of the search: attempt `from` is the answer when its code is free, otherwise the search moves on. */
  lemma FirstFreeStep(oracle: (nat, int) -> int, start: nat, taken: set<string>, from: nat)
    requires from < MaxCodeAttempts
    ensures AttemptCode(oracle, start, from) !in taken ==> FirstFreeAttempt(oracle, start, taken, from) == Some(from)
    ensures AttemptCode(oracle, start, from) in taken ==>
              FirstFreeAttempt(oracle, start, taken, from) == FirstFreeAttempt(oracle, start, taken, from + 1)
  {
  }

  // ---------------------------------------------------------------------------
  // The repository

  class InMemoryReferralRepository {
    var usersById: map<string, User>
    /** The insertion order of `usersById`, which is the order its values are listed in. */
    var insertionOrder: seq<string>
    var userIdByEmail: map<string, string>
    var userIdByReferralCode: map<string, string>
    var refereeIdsThatWereCredited: set<string>
    var idCounter: nat

    ghost predicate Valid()
      reads this
    {
      Consistent(usersById, insertionOrder, userIdByEmail, userIdByReferralCode,
                 refereeIdsThatWereCredited, idCounter)
    }

    /** `[...usersById.values()]`. */
    function Users(): seq<User>
      reads this
      requires Valid()
    {
      UsersOf(usersById, insertionOrder)
    }

    /** The users in ranking order, as computeRankings lists them. */
    function Ranking(): seq<User>
      reads this
      requires Valid()
    {
      ComputeRankings(Users())
    }

    constructor ()
      ensures Valid()
      ensures usersById == map[] && insertionOrder == [] && userIdByEmail == map[]
      ensures userIdByReferralCode == map[] && refereeIdsThatWereCredited == {} && idCounter == 0
    {
      usersById := map[];
      insertionOrder := [];
      userIdByEmail := map[];
      userIdByReferralCode := map[];
      refereeIdsThatWereCredited := {};
      idCounter := 0;
    }

    /** `_newId`: advances the counter and names the id after it; the id is not in use. */
    method NewId() returns (id: string)
      requires Valid()
      modifies this
      ensures Valid()
      ensures idCounter == old(idCounter) + 1 && id == UserIdFor(idCounter) && id !in usersById
      ensures usersById == old(usersById) && insertionOrder == old(insertionOrder)
      ensures userIdByEmail == old(userIdByEmail) && userIdByReferralCode == old(userIdByReferralCode)
      ensures refereeIdsThatWereCredited == old(refereeIdsThatWereCredited)
    {
      FreshId(usersById, insertionOrder, userIdByEmail, userIdByReferralCode, refereeIdsThatWereCredited, idCounter);
      CounterBumpConsistent(usersById, insertionOrder, userIdByEmail, userIdByReferralCode,
                            refereeIdsThatWereCredited, idCounter);
      idCounter := idCounter + 1;
      id := UserIdFor(idCounter);
    }

    /**
     * `_ensureUniqueReferralCode`: up to 20 six-character codes over the
     * default alphabet, returning the first one no user holds.
     */
    method EnsureUniqueReferralCode(rng: ReferralCode.RandomSource) returns (r: Result<string>)
      modifies rng
      ensures match FirstFreeAttempt(rng.oracle, old(rng.drawn), userIdByReferralCode.Keys, 0)
              case Some(k) =>
                && r == Ok(AttemptCode(rng.oracle, old(rng.drawn), k))
                && rng.drawn == old(rng.drawn) + CodeLength * (k + 1)
              case None =>
                && r == Err(CodeSpaceExhausted)
                && rng.drawn == old(rng.drawn) + CodeLength * MaxCodeAttempts
    {
      ghost var start := rng.drawn;
      ghost var taken := userIdByReferralCode.Keys;
      var attempt: nat := 0;
      while attempt < MaxCodeAttempts
        invariant attempt <= MaxCodeAttempts
        invariant rng.drawn == start + CodeLength * attempt
        invariant FirstFreeAttempt(rng.oracle, start, taken, 0) == FirstFreeAttempt(rng.oracle, start, taken, attempt)
      {
        var code := NextDefaultCode(rng, start, attempt);
        FirstFreeStep(rng.oracle, start, taken, attempt);
        if code !in userIdByReferralCode {
          return Ok(code);
        }
        attempt := attempt + 1;
      }
      return Err(CodeSpaceExhausted);
    }

    /** `generateReferralCode({ length: 6 })`: six draws over the default alphabet. */
    method NextDefaultCode(rng: ReferralCode.RandomSource, ghost start: nat, ghost attempt: nat) returns (code: string)
      requires rng.drawn == start + CodeLength * attempt
      modifies rng
      ensures code == AttemptCode(rng.oracle, start, attempt)
      ensures rng.drawn == old(rng.drawn) + CodeLength
    {
      var result := ReferralCode.GenerateReferralCode(ReferralCode.GenerateOptions(Some(CodeLength), None), rng);
      code := result.value;
    }

    /**
     * joinWaitlist. A blank e-mail is an error; a known e-mail returns that
     * user unchanged; any other e-mail joins as a new user (`JoinAsNewUser`).
     */
    method JoinWaitlist(input: JoinInput, now: int, rng: ReferralCode.RandomSource) returns (r: Result<JoinResult>)
      requires Valid()
      modifies this, rng
      ensures Valid()
      ensures r.Ok? ==> r.value.userId in usersById
      ensures r.Ok? ==> (r.value.wasCreated <==> NormalizeEmail(input.email) !in old(userIdByEmail))
      ensures r.Ok? && r.value.referralWasApplied ==> r.value.wasCreated
      ensures var email := NormalizeEmail(input.email);
              email == "" ==> r == Err(EmailRequired) && unchanged(this) && unchanged(rng)
      ensures var email := NormalizeEmail(input.email);
              email != "" && email in old(userIdByEmail) ==>
                && unchanged(this) && unchanged(rng)
                && var user := old(usersById)[old(userIdByEmail)[email]];
                && r.Ok? && r.value.userId == user.id && r.value.referralCode == user.referralCode
                && r.value.referralsCount == user.referralsCount
                && !r.value.wasCreated && !r.value.referralWasApplied
                && RanksAt(Ranking(), r.value.position, user.id)
      ensures var email := NormalizeEmail(input.email);
              email != "" && email !in old(userIdByEmail) ==>
                JoinedAsNewUser(email, NormalizeReferralCode(input.referralCode), now, rng, r)
    {
      var email := NormalizeEmail(input.email);
      var supplied := NormalizeReferralCode(input.referralCode);
      if email == "" {
        return Err(EmailRequired);
      }

      if email in userIdByEmail {
        var existing := usersById[userIdByEmail[email]];
        var position := Position(existing.id);
        return Ok(JoinResult(existing.id, existing.referralCode, existing.referralsCount, position, false, false));
      }

      r := JoinAsNewUser(email, supplied, now, rng);
    }

    /**
     * The outcome of a new e-mail joining: the counter advances; when all 20
     * code attempts collide nothing else changes and the error is reported,
     * with 20 six-character draws consumed; otherwise the draws of the
     * attempts up to the first free one are consumed and the user is
     * admitted (`AdmittedFrom`) under the next id with that free code.
     */
    twostate predicate JoinedAsNewUser(email: string, supplied: Option<string>, now: int,
                                       rng: ReferralCode.RandomSource, new r: Result<JoinResult>)
      reads this, rng
    {
      && Valid()
      && idCounter == old(idCounter) + 1
      && match FirstFreeAttempt(rng.oracle, old(rng.drawn), old(userIdByReferralCode).Keys, 0)
         case None =>
           && r == Err(CodeSpaceExhausted)
           && rng.drawn == old(rng.drawn) + CodeLength * MaxCodeAttempts
           && usersById == old(usersById) && insertionOrder == old(insertionOrder)
           && userIdByEmail == old(userIdByEmail) && userIdByReferralCode == old(userIdByReferralCode)
           && refereeIdsThatWereCredited == old(refereeIdsThatWereCredited)
         case Some(k) =>
           && rng.drawn == old(rng.drawn) + CodeLength * (k + 1)
           && AdmittedFrom(old(usersById), old(insertionOrder), old(userIdByEmail), old(userIdByReferralCode),
                        old(refereeIdsThatWereCredited), UserIdFor(idCounter), AttemptCode(rng.oracle, old(rng.drawn), k),
                        email, now, supplied, r)
    }

    /**
     * The store, starting from the given field values, holds the new user `id`
     * with its e-mail and code; the supplied code is looked up once the new
     * code is registered, and the user is credited to its holder unless that
     * holder is the new user itself; `r` reports the new user and its position.
     */
    ghost predicate AdmittedFrom(users0: map<string, User>, order0: seq<string>, byEmail0: map<string, string>,
                                 byCode0: map<string, string>, credited0: set<string>,
                                 id: string, code: string, email: string, now: int, supplied: Option<string>,
                                 r: Result<JoinResult>)
      reads this
      requires Valid()
    {
      var user := User(id, email, now, code, None, 0);
      var byCode1 := byCode0[code := id];
      var applied := supplied.Some? && supplied.value in byCode1 && byCode1[supplied.value] != id;
      && insertionOrder == order0 + [id]
      && userIdByEmail == byEmail0[email := id]
      && userIdByReferralCode == byCode1
      && (!applied ==> usersById == users0[id := user] && refereeIdsThatWereCredited == credited0)
      && (applied ==> && byCode1[supplied.value] in users0
                      && usersById == Credit(users0[id := user], byCode1[supplied.value], id)
                      && refereeIdsThatWereCredited == credited0 + {id})
      && r.Ok? && r.value.userId == id && r.value.referralCode == code && r.value.referralsCount == 0
      && r.value.wasCreated && r.value.referralWasApplied == applied
      && RanksAt(Ranking(), r.value.position, id)
    }

    /** joinWaitlist for an e-mail no user has: `_newId`, then a fresh code, then `Admit`. */
    method JoinAsNewUser(email: string, supplied: Option<string>, now: int, rng: ReferralCode.RandomSource)
      returns (r: Result<JoinResult>)
      requires Valid() && email !in userIdByEmail
      modifies this, rng
      ensures JoinedAsNewUser(email, supplied, now, rng, r)
    {
      var id := NewId();
      var codeResult := EnsureUniqueReferralCode(rng);
      if codeResult.Err? {
        return Err(CodeSpaceExhausted);
      }
      r := Admit(id, codeResult.value, email, now, supplied);
    }

    /**
     * Stores the new user, applies the supplied referral code and reports the
     * user with its position.
     */
    method Admit(id: string, code: string, email: string, now: int, supplied: Option<string>)
      returns (r: Result<JoinResult>)
      requires Valid()
      requires id == UserIdFor(idCounter) && id !in usersById
      requires email !in userIdByEmail && code !in userIdByReferralCode
      modifies this
      ensures Valid() && idCounter == old(idCounter)
      ensures AdmittedFrom(old(usersById), old(insertionOrder), old(userIdByEmail), old(userIdByReferralCode),
                           old(refereeIdsThatWereCredited), id, code, email, now, supplied, r)
    {
      var newUser := User(id, email, now, code, None, 0);
      CodeHoldersAreOthers(usersById, userIdByReferralCode, id);
      Register(newUser);
      var referralWasApplied := ApplyReferral(supplied, id);
      var position := Position(id);
      return Ok(JoinResult(id, newUser.referralCode, newUser.referralsCount, position, true, referralWasApplied));
    }

    /** `positionById.get(id)`: the 1-based place of `id` in the ranking. */
    function Position(id: string): (p: nat)
      reads this
      requires Valid() && id in usersById
      ensures RanksAt(Ranking(), p, id)
    {
      RankingPosition(usersById, insertionOrder, id);
      PositionMap(Ranking())[id]
    }

    /** Stores a new user under its id in `usersById` and in both indices. */
    method Register(u: User)
      requires Valid()
      requires u.id == UserIdFor(idCounter) && u.id !in usersById
      requires u.email !in userIdByEmail && u.referralCode !in userIdByReferralCode
      requires u.referredById == None && u.referralsCount == 0
      modifies this
      ensures Valid()
      ensures usersById == old(usersById)[u.id := u] && insertionOrder == old(insertionOrder) + [u.id]
      ensures userIdByEmail == old(userIdByEmail)[u.email := u.id]
      ensures userIdByReferralCode == old(userIdByReferralCode)[u.referralCode := u.id]
      ensures refereeIdsThatWereCredited == old(refereeIdsThatWereCredited) && idCounter == old(idCounter)
    {
      ghost var users0, order0, byEmail0, byCode0 := usersById, insertionOrder, userIdByEmail, userIdByReferralCode;
      usersById := usersById[u.id := u];
      insertionOrder := insertionOrder + [u.id];
      userIdByEmail := userIdByEmail[u.email := u.id];
      userIdByReferralCode := userIdByReferralCode[u.referralCode := u.id];
      AddUserConsistent(users0, order0, byEmail0, byCode0, refereeIdsThatWereCredited, idCounter, u);
    }

    /**
     * Credits the new user `id` to the holder of the supplied code, unless no
     * user holds it, the holder is `id` itself, or `id` was credited before.
     */
    method ApplyReferral(supplied: Option<string>, id: string) returns (applied: bool)
      requires Valid()
      requires id in usersById && usersById[id].referredById == None
      modifies this
      ensures Valid()
      ensures usersById.Keys == old(usersById).Keys
      ensures applied <==> supplied.Some? && supplied.value in userIdByReferralCode
                           && userIdByReferralCode[supplied.value] != id
      ensures applied ==> usersById == Credit(old(usersById), userIdByReferralCode[supplied.value], id)
                          && refereeIdsThatWereCredited == old(refereeIdsThatWereCredited) + {id}
      ensures !applied ==> usersById == old(usersById)
                           && refereeIdsThatWereCredited == old(refereeIdsThatWereCredited)
      ensures insertionOrder == old(insertionOrder) && userIdByEmail == old(userIdByEmail)
      ensures userIdByReferralCode == old(userIdByReferralCode) && idCounter == old(idCounter)
    {
      applied := false;
      NotYetCredited(usersById, refereeIdsThatWereCredited, id);
      if supplied.Some? && supplied.value in userIdByReferralCode {
        var referrerId := userIdByReferralCode[supplied.value];
        if referrerId != "" && referrerId != id && id !in refereeIdsThatWereCredited {
          CreditReferrer(referrerId, id);
          applied := true;
        }
      }
    }

    /** Records `id` as referred by `referrerId`: the credited set gains `id` and the referrer's count rises by one. */
    method CreditReferrer(referrerId: string, id: string)
      requires Valid()
      requires referrerId in usersById && id in usersById && referrerId != id
      requires usersById[id].referredById == None
      modifies this
      ensures Valid()
      ensures usersById == Credit(old(usersById), referrerId, id)
      ensures refereeIdsThatWereCredited == old(refereeIdsThatWereCredited) + {id}
      ensures insertionOrder == old(insertionOrder) && userIdByEmail == old(userIdByEmail)
      ensures userIdByReferralCode == old(userIdByReferralCode) && idCounter == old(idCounter)
    {
      CreditConsistent(usersById, insertionOrder, userIdByEmail, userIdByReferralCode,
                       refereeIdsThatWereCredited, idCounter, referrerId, id);
      refereeIdsThatWereCredited := refereeIdsThatWereCredited + {id};
      usersById := Credit(usersById, referrerId, id);
    }

    /** getWaitlistStats: the user's record and position, the waitlist size and the number of credited referrals. */
    method GetWaitlistStats(userId: string) returns (r: Result<Stats>)
      requires Valid()
      ensures userId !in usersById ==> r == Err(UserNotFound)
      ensures userId in usersById ==>
                && r.Ok? && r.value.userId == userId
                && r.value.referralCode == usersById[userId].referralCode
                && r.value.referralsCount == usersById[userId].referralsCount
                && RanksAt(Ranking(), r.value.position, userId)
                && r.value.totalWaitlist == |usersById|
                && r.value.totalReferrals == |refereeIdsThatWereCredited|
    {
      if userId !in usersById {
        return Err(UserNotFound);
      }
      var user := usersById[userId];
      var users := Ranking();
      RankingTotals(usersById, insertionOrder, userIdByEmail, userIdByReferralCode,
                    refereeIdsThatWereCredited, idCounter);
      return Ok(Stats(user.id, user.referralCode, user.referralsCount, Position(user.id),
                      |users|, SumCounts(users)));
    }

    /** getReferralLeaderboard: the first `max(1, limit)` users of the ranking (10 by default), with their positions. */
    method GetReferralLeaderboard(limit: Option<int>) returns (entries: seq<LeaderboardEntry>)
      requires Valid()
      ensures IsTopOfRanking(entries, Ranking(), if limit.Some? then limit.value else DefaultLeaderboardLimit)
    {
      var n := if limit.Some? then limit.value else DefaultLeaderboardLimit;
      RankingDistinct(usersById, insertionOrder);
      entries := Leaderboard(Ranking(), n);
    }
  }

  /** `ranked` lists the user `id` at the 1-based position `p`. */
  predicate RanksAt(ranked: seq<User>, p: int, id: string) {
    1 <= p <= |ranked| && ranked[p - 1].id == id
  }

  /** `entries` are the first `max(1, limit)` users of `ranked` (all of them if fewer), each with its 1-based position. */
  predicate IsTopOfRanking(entries: seq<LeaderboardEntry>, ranked: seq<User>, limit: int) {
    && |entries| == Min(|ranked|, Max(1, limit))
    && forall i :: 0 <= i < |entries| ==>
         entries[i] == LeaderboardEntry(ranked[i].id, ranked[i].referralCode, ranked[i].referralsCount, i + 1)
  }

  /** The leaderboard of a ranking with distinct ids: its first `max(1, limit)` users, each with its position. */
  function Leaderboard(ranked: seq<User>, limit: int): (entries: seq<LeaderboardEntry>)
    requires DistinctIds(ranked)
    ensures IsTopOfRanking(entries, ranked, limit)
  {
    PositionsAreIndices(ranked);
    var positionById := PositionMap(ranked);
    var top := ranked[..Min(|ranked|, Max(1, limit))];
    seq(|top|, i requires 0 <= i < |top| =>
      LeaderboardEntry(top[i].id, top[i].referralCode, top[i].referralsCount, positionById[top[i].id]))
  }

}
