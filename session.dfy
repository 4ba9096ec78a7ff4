/**
 * One account's turn (`loginAndUpdateUser`): log in, complete the onboarding
 * when the account has not done it yet, check the eligible quests, run the
 * tap loop from the onboarded snapshot and then the upgrade purchase scan
 * from the snapshot the tap loop returns.
 */
module Session {
  import opened PipTypes
  import opened Credential
  import opened Quests
  import opened Taps
  import opened Upgrades

  /** The number of trading groups a new account can be placed in. */
  const GroupCount: int := 4

  /** `Math.floor(random * 4) + 1` for a `random` drawn from [0, 1). */
  function GroupId(random: real): (g: int)
    requires 0.0 <= random < 1.0
    ensures 1 <= g <= GroupCount
    ensures (g - 1) as real <= random * GroupCount as real < g as real
  {
    (random * 4.0).Floor + 1
  }

  /** Every group can be drawn: the draw `(g - 1) / 4` lands in group `g`. */
  lemma EveryGroupReachable(g: int)
    requires 1 <= g <= GroupCount
    ensures 0.0 <= (g - 1) as real / 4.0 < 1.0
    ensures GroupId((g - 1) as real / 4.0) == g
  {
    assert (g - 1) as real / 4.0 * 4.0 == (g - 1) as real;
  }

  /** The two onboarding requests: join a trading group, then declare the boarding completed. */
  datatype OnboardRequest = UpdateGroup(groupId: int) | CompleteBoarding

  /** The login response: its status, the user snapshot and the quest list (`quests?.quests || []`). */
  datatype LoginReply = LoginAnswered(status: int, user: User, quests: seq<Quest>) | LoginThrown

  /** The second login request of the upgrade scan, which only supplies the catalog (`investItems?.investItems || []`). */
  datatype CatalogReply = CatalogAnswered(items: seq<InvestItem>) | CatalogThrown

  /** Everything the server answers during one turn, each request kind with its own stream. */
  datatype Server = Server(
    login: LoginReply,
    updateGroup: Reply,
    boarding: Reply,
    questChecks: seq<CheckReply>,
    taps: seq<Reply>,
    catalog: CatalogReply,
    purchases: seq<Reply>)

  /** How the turn ended; the two `Threw` cases are errors caught by the turn's own handler. */
  datatype Outcome =
    | NotLoggedIn       // the login did not answer 200
    | OnboardingThrew   // an onboarding request threw
    | UpgradesThrew     // the `user=` field is missing or the catalog request threw
    | Finished

  /**
   * What a turn did: the onboarding requests, the quest checks, the tap loop,
   * the purchase requests, the snapshot in hand when it ended and how it ended.
   */
  datatype Turn = Turn(
    onboarding: seq<OnboardRequest>,
    checks: seq<QuestCheck>,
    taps: Option<TapRun>,
    purchases: seq<Purchase>,
    user: Option<User>,
    outcome: Outcome)

  predicate LoggedIn(login: LoginReply)
  {
    login.LoginAnswered? && login.status == 200
  }

  /** The onboarding runs only for an account whose snapshot says the boarding is not completed. */
  predicate NeedsOnboarding(login: LoginReply)
  {
    LoggedIn(login) && !login.user.boardingCompleted
  }

  /**
   * The snapshot the rest of the turn starts from: the boarding reply's, when
   * both onboarding requests answered 200, and the login's otherwise.
   */
  function Onboarded(login: LoginReply, server: Server): User
    requires login.LoginAnswered?
  {
    if NeedsOnboarding(login) && Succeeded(server.updateGroup) && Succeeded(server.boarding)
    then server.boarding.user
    else login.user
  }

  /** An onboarding request that threw ends the turn before the quests. */
  predicate OnboardingAborts(server: Server)
  {
    NeedsOnboarding(server.login) &&
    (server.updateGroup.Thrown? || (Succeeded(server.updateGroup) && server.boarding.Thrown?))
  }

  /**
   * `loginAndUpdateUser`: `now` is the clock, `random` the draw that picks the
   * trading group, `server` the answers to the turn's requests.
   */
  method LoginAndUpdateUser(initData: string, now: int, random: real, maxInvestPrice: int, server: Server)
    returns (turn: Turn)
    requires 0.0 <= random < 1.0
    // nothing happens without a successful login
    ensures turn.outcome == NotLoggedIn <==> !LoggedIn(server.login)
    ensures turn.outcome == NotLoggedIn ==> turn == Turn([], [], None, [], None, NotLoggedIn)
    // the onboarding requests
    ensures turn.onboarding == [] <==> !NeedsOnboarding(server.login)
    ensures NeedsOnboarding(server.login) ==> turn.onboarding[0] == UpdateGroup(GroupId(random))
    ensures |turn.onboarding| <= 2
    ensures |turn.onboarding| == 2 <==> NeedsOnboarding(server.login) && Succeeded(server.updateGroup)
    ensures |turn.onboarding| == 2 ==> turn.onboarding[1] == CompleteBoarding
    // a thrown onboarding request ends the turn with the login snapshot
    ensures turn.outcome == OnboardingThrew <==> OnboardingAborts(server)
    ensures turn.outcome == OnboardingThrew ==>
              turn.checks == [] && turn.taps == None && turn.purchases == [] && turn.user == Some(server.login.user)
    // otherwise: the eligible quests are checked, then the taps run from the onboarded snapshot
    ensures turn.outcome in {UpgradesThrew, Finished} ==>
              var ids := EligibleQuestIds(server.login.quests, now);
              && |turn.checks| == |ids|
              && (forall k :: 0 <= k < |ids| ==>
                    turn.checks[k] == QuestCheck(ids[k], Classify(ids[k], CheckReplyAt(server.questChecks, k))))
              && turn.taps == Some(TapLoop(Onboarded(server.login, server), true, server.taps, now))
    // then the upgrade scan from the snapshot the taps returned
    ensures turn.outcome == UpgradesThrew <==>
              LoggedIn(server.login) && !OnboardingAborts(server) &&
              (UserSegment(initData).None? || server.catalog.CatalogThrown?)
    ensures turn.outcome == UpgradesThrew ==> turn.purchases == [] && turn.user == Some(turn.taps.value.user)
    ensures turn.outcome == Finished ==>
              var tapped := turn.taps.value.user;
              turn.user.Some? &&
              Scan(turn.user.value, turn.purchases) ==
              ScanCatalog(tapped, OwnedIds(tapped), server.catalog.items, maxInvestPrice, now, server.purchases)
  {
    turn := Turn([], [], None, [], None, NotLoggedIn);
    if !(server.login.LoginAnswered? && server.login.status == 200) {
      return;
    }
    var user := server.login.user;
    var onboarding: seq<OnboardRequest> := [];
    if !user.boardingCompleted {
      var groupId := GroupId(random);
      onboarding := [UpdateGroup(groupId)];
      if server.updateGroup.Thrown? {
        return Turn(onboarding, [], None, [], Some(user), OnboardingThrew);
      }
      if server.updateGroup.status == 200 {
        onboarding := onboarding + [CompleteBoarding];
        if server.boarding.Thrown? {
          return Turn(onboarding, [], None, [], Some(user), OnboardingThrew);
        }
        if server.boarding.status == 200 {
          user := server.boarding.user;
        }
      }
    }
    var questIds := EligibleQuestIds(server.login.quests, now);
    var checks := CheckAndCompleteQuests(questIds, server.questChecks);
    var tapped, trace, stop := PerformTaps(user, now, server.taps);
    var taps := Some(TapRun(tapped, trace, stop));
    if UserSegment(initData).None? || server.catalog.CatalogThrown? {
      return Turn(onboarding, checks, taps, [], Some(tapped), UpgradesThrew);
    }
    var upgraded, purchases := UpgradeCards(tapped, server.catalog.items, maxInvestPrice, now, server.purchases);
    turn := Turn(onboarding, checks, taps, purchases, Some(upgraded), Finished);
  }
}
