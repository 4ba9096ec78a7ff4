/**
 * Quest discovery and completion: the eligible quest ids are taken from the
 * login response and each one is checked with the server, in order, whatever
 * the previous check returned.
 */
module Quests {
  import opened PipTypes

  /** Not completed, and either without deadline or with the deadline not yet passed at `now`. */
  predicate Eligible(q: Quest, now: int)
  {
    !q.completed && (q.validUntil.None? || now <= q.validUntil.value)
  }

  /** The ids of the eligible quests, in the order the server listed them. */
  function EligibleQuestIds(quests: seq<Quest>, now: int): (ids: seq<int>)
    ensures |ids| <= |quests|
  {
    if |quests| == 0 then []
    else (if Eligible(quests[0], now) then [quests[0].id] else []) + EligibleQuestIds(quests[1..], now)
  }

  /** Filtering keeps the server's order: the ids of a list are those of its first part, then those of the rest. */
  lemma {:induction false} EligibleQuestIdsAppend(a: seq<Quest>, b: seq<Quest>, now: int)
    ensures EligibleQuestIds(a + b, now) == EligibleQuestIds(a, now) + EligibleQuestIds(b, now)
    decreases |a|
  {
    if |a| == 0 {
      assert a + b == b;
    } else {
      var head := if Eligible(a[0], now) then [a[0].id] else [];
      assert (a + b)[0] == a[0] && (a + b)[1..] == a[1..] + b;
      EligibleQuestIdsAppend(a[1..], b, now);
      calc {
        EligibleQuestIds(a + b, now);
        head + EligibleQuestIds(a[1..] + b, now);
        head + (EligibleQuestIds(a[1..], now) + EligibleQuestIds(b, now));
        (head + EligibleQuestIds(a[1..], now)) + EligibleQuestIds(b, now);
      }
    }
  }

  /** A single quest contributes its id exactly when it is eligible. */
  lemma EligibleQuestIdsSingle(q: Quest, now: int)
    ensures EligibleQuestIds([q], now) == if Eligible(q, now) then [q.id] else []
  {
    assert [q][1..] == [];
  }

  /** An id is checked exactly when some quest carrying it is eligible. */
  lemma {:induction false} EligibleQuestIdsMembership(quests: seq<Quest>, now: int, id: int)
    ensures id in EligibleQuestIds(quests, now) <==>
            exists i :: 0 <= i < |quests| && quests[i].id == id && Eligible(quests[i], now)
    decreases |quests|
  {
    if |quests| > 0 {
      EligibleQuestIdsMembership(quests[1..], now, id);
      if exists i :: 0 <= i < |quests| - 1 && quests[1..][i].id == id && Eligible(quests[1..][i], now) {
        var i :| 0 <= i < |quests| - 1 && quests[1..][i].id == id && Eligible(quests[1..][i], now);
        assert quests[i + 1] == quests[1..][i];
      }
      if exists i :: 0 <= i < |quests| && quests[i].id == id && Eligible(quests[i], now) {
        var i :| 0 <= i < |quests| && quests[i].id == id && Eligible(quests[i], now);
        if i > 0 {
          assert quests[1..][i - 1] == quests[i];
        }
      }
    }
  }

  /** A completed quest, or one whose deadline has passed, is never checked unless another eligible quest shares its id. */
  lemma IneligibleNeverChecked(quests: seq<Quest>, now: int, k: nat)
    requires k < |quests|
    requires quests[k].completed || (quests[k].validUntil.Some? && now > quests[k].validUntil.value)
    requires forall i :: 0 <= i < |quests| && i != k ==> quests[i].id != quests[k].id
    ensures quests[k].id !in EligibleQuestIds(quests, now)
  {
    EligibleQuestIdsMembership(quests, now, quests[k].id);
  }

  /** A reply to a quest check. */
  datatype CheckReply =
    | CheckAnswered(status: int, quests: Option<seq<Quest>>)  // a response; `quests` is `data.quests?.quests`
    | CheckRejected(errorStatus: Option<int>)                   // a thrown error, with its response status if it has one

  function CheckReplyAt(replies: seq<CheckReply>, k: nat): CheckReply
  {
    if k < |replies| then replies[k] else CheckRejected(None)
  }

  /** How the session classifies the outcome of one quest check. */
  datatype CheckOutcome =
    | Completed(title: string, reward: int)  // the quest is in the returned list
    | NotFound                               // a list came back without the quest
    | NoQuestsInResponse                     // the response carried no list
    | UnexpectedStatus(status: int)          // a response whose status is not 200
    | InvalidOrExpired                       // rejected with status 400
    | CheckError                             // rejected otherwise

  datatype QuestCheck = QuestCheck(questId: int, outcome: CheckOutcome)

  /** The first quest of the list that carries `id` (`Array.prototype.find`). */
  function FindQuest(quests: seq<Quest>, id: int): (r: Option<Quest>)
    ensures r.None? <==> forall i :: 0 <= i < |quests| ==> quests[i].id != id
    ensures r.Some? ==> exists k :: 0 <= k < |quests| && quests[k] == r.value && r.value.id == id &&
                                    forall i :: 0 <= i < k ==> quests[i].id != id
  {
    if |quests| == 0 then None
    else if quests[0].id == id then Some(quests[0])
    else
      var r := FindQuest(quests[1..], id);
      assert forall i :: 1 <= i < |quests| ==> quests[i] == quests[1..][i - 1];
      if r.Some? then
        assert exists k :: 0 <= k < |quests| && quests[k] == r.value && r.value.id == id &&
                           forall i :: 0 <= i < k ==> quests[i].id != id by {
          var k :| 0 <= k < |quests| - 1 && quests[1..][k] == r.value && r.value.id == id &&
                   forall i :: 0 <= i < k ==> quests[1..][i].id != id;
          assert quests[k + 1] == r.value;
          forall i | 0 <= i < k + 1 ensures quests[i].id != id {
            if i > 0 { assert quests[i] == quests[1..][i - 1]; }
          }
        }
        r
      else r
  }

  /** The classification of one check: only a rejection with status 400 means "invalid or expired". */
  function Classify(questId: int, reply: CheckReply): (o: CheckOutcome)
    ensures o == InvalidOrExpired <==> reply == CheckRejected(Some(400))
    ensures o == CheckError <==> reply.CheckRejected? && reply.errorStatus != Some(400)
    ensures o.UnexpectedStatus? <==> reply.CheckAnswered? && reply.status != 200
    ensures o == NoQuestsInResponse <==> reply.CheckAnswered? && reply.status == 200 && reply.quests.None?
    ensures o == NotFound <==>
            reply.CheckAnswered? && reply.status == 200 && reply.quests.Some? &&
            forall i :: 0 <= i < |reply.quests.value| ==> reply.quests.value[i].id != questId
    ensures o.Completed? <==>
            reply.CheckAnswered? && reply.status == 200 && reply.quests.Some? &&
            exists i :: 0 <= i < |reply.quests.value| && reply.quests.value[i].id == questId
    ensures o.Completed? ==>
              var qs := reply.quests.value;
              exists k :: 0 <= k < |qs| && qs[k].id == questId && o == Completed(qs[k].title, qs[k].reward) &&
                          forall i :: 0 <= i < k ==> qs[i].id != questId
  {
    match reply
    case CheckAnswered(status, quests) =>
      if status != 200 then UnexpectedStatus(status)
      else if quests.None? then NoQuestsInResponse
      else (match FindQuest(quests.value, questId)
            case Some(q) => Completed(q.title, q.reward)
            case None => NotFound)
    case CheckRejected(status) =>
      if status == Some(400) then InvalidOrExpired else CheckError
  }

  /**
   * `checkAndCompleteQuests`: one check per id, in order; reply `k` answers
   * the check of `questIds[k]`. No outcome stops the loop.
   */
  method CheckAndCompleteQuests(questIds: seq<int>, replies: seq<CheckReply>) returns (log: seq<QuestCheck>)
    ensures |log| == |questIds|
    ensures forall k :: 0 <= k < |questIds| ==>
              log[k] == QuestCheck(questIds[k], Classify(questIds[k], CheckReplyAt(replies, k)))
  {
    log := [];
    for k := 0 to |questIds|
      invariant |log| == k
      invariant forall j :: 0 <= j < k ==>
                  log[j] == QuestCheck(questIds[j], Classify(questIds[j], CheckReplyAt(replies, j)))
    {
      var questId := questIds[k];
      var reply := CheckReplyAt(replies, k);
      var outcome: CheckOutcome;
      match reply {
        case CheckAnswered(status, quests) =>
          if status == 200 {
            if quests.Some? {
              var quest := FindQuest(quests.value, questId);
              if quest.Some? {
                outcome := Completed(quest.value.title, quest.value.reward);
              } else {
                outcome := NotFound;
              }
            } else {
              outcome := NoQuestsInResponse;
            }
          } else {
            outcome := UnexpectedStatus(status);
          }
        case CheckRejected(status) =>
          if status.Some? && status.value == 400 {
            outcome := InvalidOrExpired;
          } else {
            outcome := CheckError;
          }
      }
      log := log + [QuestCheck(questId, outcome)];
    }
  }

  /** Three quests, of which only the first is open: only its id is checked. */
  lemma OnlyOpenQuestChecked(now: int, past: int)
    requires past < now
    ensures EligibleQuestIds([Quest(1, "a", 10, false, None),
                              Quest(2, "b", 10, true, None),
                              Quest(3, "c", 10, false, Some(past))], now) == [1]
  {
    var q1, q2, q3 := Quest(1, "a", 10, false, None), Quest(2, "b", 10, true, None), Quest(3, "c", 10, false, Some(past));
    EligibleQuestIdsAppend([q1], [q2, q3], now);
    EligibleQuestIdsAppend([q2], [q3], now);
    EligibleQuestIdsSingle(q1, now);
    EligibleQuestIdsSingle(q2, now);
    EligibleQuestIdsSingle(q3, now);
    assert [q1, q2, q3] == [q1] + [q2, q3] && [q2, q3] == [q2] + [q3];
  }
}
