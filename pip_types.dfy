/** Values exchanged with the game server during one account's session. */
module PipTypes {

  datatype Option<+T> = None | Some(value: T)

  /** The tap-boost entitlement of a user snapshot (`freeTapsMultiplier`). */
  datatype TapsMultiplier = TapsMultiplier(available: int, lastTimeUpdated: int)

  /**
   * A user snapshot as the server returns it. Every successful request hands
   * back a whole new snapshot, which replaces the one in hand.
   * `freeEnergyRefills` is `freeEnergyRefills.available`; `investItems` holds
   * the ids of the owned upgrade cards.
   */
  datatype User = User(
    balance: int,
    energy: int,
    maxUserEnergy: int,
    coinsPerTap: int,
    freeEnergyRefills: int,
    freeTapsMultiplier: TapsMultiplier,
    boardingCompleted: bool,
    investItems: seq<int>)

  /** A quest; `validUntil == None` is the server's `null` (no deadline). */
  datatype Quest = Quest(id: int, title: string, reward: int, completed: bool, validUntil: Option<int>)

  /** An upgrade card of the purchase catalog. */
  datatype InvestItem = InvestItem(id: int, price: int, profitPerHour: int, validUntil: Option<int>)

  /**
   * The outcome of one request whose success body carries a user snapshot:
   * a response with its status, or a thrown error (transport failure or a
   * status the HTTP client rejects).
   */
  datatype Reply = Answered(status: int, user: User) | Thrown

  predicate Succeeded(r: Reply)
  {
    r.Answered? && r.status == 200
  }

  /** The answer to the next request of a reply stream; an exhausted stream no longer answers. */
  function Answer(rs: seq<Reply>): (r: Reply)
    ensures |rs| == 0 ==> r == Thrown
    ensures |rs| > 0 ==> r == rs[0]
  {
    if |rs| == 0 then Thrown else rs[0]
  }

  /** The stream left once the next request has been answered. */
  function Rest(rs: seq<Reply>): (r: seq<Reply>)
    ensures |rs| > 0 ==> r == rs[1..]
    ensures |r| <= |rs| && (Succeeded(Answer(rs)) ==> |r| < |rs|)
  {
    if |rs| == 0 then [] else rs[1..]
  }

  /** The reply request number `k` receives from the stream `rs`. */
  function ReplyAt(rs: seq<Reply>, k: nat): Reply
  {
    if k < |rs| then rs[k] else Thrown
  }

  /** The stream left once `n` requests have been answered. */
  function Drop(rs: seq<Reply>, n: nat): (r: seq<Reply>)
    ensures Answer(r) == ReplyAt(rs, n)
  {
    if n <= |rs| then rs[n..] else []
  }

  /** Answering one more request from what is left is dropping one more reply. */
  lemma DropRest(rs: seq<Reply>, n: nat)
    ensures Drop(Rest(rs), n) == Drop(rs, n + 1)
    ensures Rest(Drop(rs, n)) == Drop(rs, n + 1)
  {
  }

  /**
   * The snapshot in hand after a sequence of replies has been received,
   * starting from `user`: each successful reply replaces it, a failed one
   * leaves it as it was.
   */
  function Adopt(user: User, replies: seq<Reply>): User
    decreases |replies|
  {
    if |replies| == 0 then user
    else Adopt(if Succeeded(replies[0]) then replies[0].user else user, replies[1..])
  }

  lemma AdoptStep(user: User, r: Reply, rs: seq<Reply>)
    ensures Adopt(user, [r] + rs) == Adopt(if Succeeded(r) then r.user else user, rs)
  {
    assert ([r] + rs)[1..] == rs;
  }

  /** Adopting two batches of replies one after the other is adopting them together. */
  lemma {:induction false} AdoptAppend(user: User, a: seq<Reply>, b: seq<Reply>)
    ensures Adopt(user, a + b) == Adopt(Adopt(user, a), b)
    decreases |a|
  {
    if |a| == 0 {
      assert a + b == b;
    } else {
      assert (a + b)[1..] == a[1..] + b;
      AdoptAppend(if Succeeded(a[0]) then a[0].user else user, a[1..], b);
    }
  }

  /** When no reply succeeds the starting snapshot is kept. */
  lemma {:induction false} AdoptNoSuccess(user: User, replies: seq<Reply>)
    requires forall i :: 0 <= i < |replies| ==> !Succeeded(replies[i])
    ensures Adopt(user, replies) == user
    decreases |replies|
  {
    if |replies| > 0 {
      assert forall i :: 0 <= i < |replies| - 1 ==> replies[1..][i] == replies[i + 1];
      AdoptNoSuccess(user, replies[1..]);
    }
  }

  /**
   * The snapshot in hand is the one of the last successful reply: nothing is
   * ever merged or guessed locally.
   */
  lemma {:induction false} AdoptLastSuccess(user: User, replies: seq<Reply>, i: nat)
    requires i < |replies| && Succeeded(replies[i])
    requires forall j :: i < j < |replies| ==> !Succeeded(replies[j])
    ensures Adopt(user, replies) == replies[i].user
    decreases |replies|
  {
    var next := if Succeeded(replies[0]) then replies[0].user else user;
    assert forall j :: 0 <= j < |replies| - 1 ==> replies[1..][j] == replies[j + 1];
    if i > 0 {
      AdoptLastSuccess(next, replies[1..], i - 1);
    } else {
      AdoptNoSuccess(next, replies[1..]);
    }
  }
}
