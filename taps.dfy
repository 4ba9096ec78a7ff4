/**
 * The tap loop: tap with `coinsPerTap` first and with the whole energy after
 * that, activate the free tap boost when it is due, refill when a tap leaves
 * the energy negative and free refills remain, and stop on low energy or on
 * any failed tap or refill.
 */
module Taps {
  import opened PipTypes

  /** Seconds that must pass after `freeTapsMultiplier.lastTimeUpdated` before a boost is activated. */
  const BoostCooldown: int := 3600
  /** A successful boost turns the next tap into `energy * BoostFactor` coins. */
  const BoostFactor: int := 5
  /** Below this energy the loop stops, unless a refill is due. */
  const LowEnergy: int := 20

  datatype TapRequest = Boost | Tap(coins: int) | Refill

  /** One request of the loop and the reply it received. */
  datatype Exchange = Exchange(request: TapRequest, reply: Reply)

  datatype TapStop =
    | NoEnergy      // the tap amount was zero: no request
    | TapFailed     // a tap failed or threw
    | RefillFailed  // a refill failed or threw
    | Depleted      // energy below LowEnergy and no refill due

  /** A whole run: the snapshot returned, every exchange in order, and why the loop ended. */
  datatype TapRun = TapRun(user: User, trace: seq<Exchange>, stop: TapStop)

  /** `isFirstTap ? user.coinsPerTap : user.energy` */
  function TapAmount(user: User, isFirstTap: bool): int
  {
    if isFirstTap then user.coinsPerTap else user.energy
  }

  /** A boost is activated only after the first tap, with one available, once the cooldown has passed. */
  predicate BoostDue(user: User, isFirstTap: bool, now: int)
  {
    !isFirstTap && user.freeTapsMultiplier.available > 0 &&
    now > user.freeTapsMultiplier.lastTimeUpdated + BoostCooldown
  }

  /** A refill follows a tap that left the energy negative while free refills remain. */
  predicate WantsRefill(user: User)
  {
    user.energy < 0 && user.freeEnergyRefills > 0
  }

  function Replies(trace: seq<Exchange>): (rs: seq<Reply>)
    ensures |rs| == |trace| && forall i :: 0 <= i < |trace| ==> rs[i] == trace[i].reply
  {
    seq(|trace|, i requires 0 <= i < |trace| => trace[i].reply)
  }

  /** Where one pass of the loop body leaves the loop. */
  datatype Iteration =
    | Stop(run: TapRun)
    | Continue(sent: seq<Exchange>, next: User, rest: seq<Reply>)

  /** One pass of the loop body from snapshot `user`, answered by the stream `replies`. */
  function Iterate(user: User, isFirstTap: bool, replies: seq<Reply>, now: int): (it: Iteration)
    ensures it.Continue? ==> |it.rest| < |replies| && |it.sent| > 0
  {
    var amount := TapAmount(user, isFirstTap);
    if amount == 0 then Stop(TapRun(user, [], NoEnergy))
    else
      var boosting := BoostDue(user, isFirstTap, now);
      var boost := Answer(replies);
      var boosted := boosting && Succeeded(boost);
      var current := if boosted then boost.user else user;
      var coins := if boosted then current.energy * BoostFactor else amount;
      var afterBoost := if boosting then Rest(replies) else replies;
      var tap := Answer(afterBoost);
      var sent := (if boosting then [Exchange(Boost, boost)] else []) + [Exchange(Tap(coins), tap)];
      if !Succeeded(tap) then Stop(TapRun(current, sent, TapFailed))
      else
        var tapped := tap.user;
        var afterTap := Rest(afterBoost);
        if WantsRefill(tapped) then
          var refill := Answer(afterTap);
          if Succeeded(refill) then Continue(sent + [Exchange(Refill, refill)], refill.user, Rest(afterTap))
          else Stop(TapRun(tapped, sent + [Exchange(Refill, refill)], RefillFailed))
        else if tapped.energy < LowEnergy then Stop(TapRun(tapped, sent, Depleted))
        else Continue(sent, tapped, afterTap)
  }

  /** The whole loop from snapshot `user`; it runs until one of the stops, the stream bounding it. */
  function TapLoop(user: User, isFirstTap: bool, replies: seq<Reply>, now: int): (r: TapRun)
    ensures r.trace == [] <==> TapAmount(user, isFirstTap) == 0
    ensures r.trace == [] ==> r.user == user && r.stop == NoEnergy
    decreases |replies|
  {
    match Iterate(user, isFirstTap, replies, now)
    case Stop(run) => run
    case Continue(sent, next, rest) =>
      var r := TapLoop(next, false, rest, now);
      TapRun(r.user, sent + r.trace, r.stop)
  }

  // ---------------------------------------------------------------------------
  // The loop as a state machine over single exchanges

  /** Where the loop stands between two requests. */
  datatype Phase =
    | Ready(user: User, isFirstTap: bool)  // at the head of the loop
    | AwaitTap(user: User, coins: int)     // the boost is settled; a tap of `coins` comes next
    | AwaitRefill(user: User)              // a tap left negative energy with refills available
    | Done(user: User, stop: TapStop)      // the loop has ended
    | Invalid                              // the exchange cannot happen here

  /** The phase after a tap that received `reply`, from snapshot `user`. */
  function AfterTap(user: User, reply: Reply): Phase
  {
    if !Succeeded(reply) then Done(user, TapFailed)
    else if WantsRefill(reply.user) then AwaitRefill(reply.user)
    else if reply.user.energy < LowEnergy then Done(reply.user, Depleted)
    else Ready(reply.user, false)
  }

  function Step(p: Phase, e: Exchange, now: int): Phase
  {
    match p
    case Ready(u, first) =>
      var amount := TapAmount(u, first);
      if amount == 0 then Invalid
      else if BoostDue(u, first, now) then
        if e.request != Boost then Invalid
        else if Succeeded(e.reply) then AwaitTap(e.reply.user, e.reply.user.energy * BoostFactor)
        else AwaitTap(u, amount)
      else if e.request == Tap(amount) then AfterTap(u, e.reply)
      else Invalid
    case AwaitTap(u, coins) =>
      if e.request == Tap(coins) then AfterTap(u, e.reply) else Invalid
    case AwaitRefill(u) =>
      if e.request != Refill then Invalid
      else if Succeeded(e.reply) then Ready(e.reply.user, false)
      else Done(u, RefillFailed)
    case Done(_, _) => Invalid
    case Invalid => Invalid
  }

  function Walk(p: Phase, trace: seq<Exchange>, now: int): Phase
    decreases |trace|
  {
    if |trace| == 0 then p else Walk(Step(p, trace[0], now), trace[1..], now)
  }

  /** Ending the trace in a phase: a loop head whose amount is zero stops; an awaited request that never came is not an end. */
  function Close(p: Phase): Phase
  {
    match p
    case Ready(u, first) => if TapAmount(u, first) == 0 then Done(u, NoEnergy) else Invalid
    case Done(_, _) => p
    case _ => Invalid
  }

  lemma {:induction false} WalkAppend(p: Phase, a: seq<Exchange>, b: seq<Exchange>, now: int)
    ensures Walk(p, a + b, now) == Walk(Walk(p, a, now), b, now)
    decreases |a|
  {
    if |a| == 0 {
      assert a + b == b;
    } else {
      assert (a + b)[1..] == a[1..] + b;
      WalkAppend(Step(p, a[0], now), a[1..], b, now);
    }
  }

  lemma WalkOne(p: Phase, e: Exchange, now: int)
    ensures Walk(p, [e], now) == Step(p, e, now)
  {
    assert [e][1..] == [];
  }

  /** One pass of the loop body is a path of the machine from the loop head. */
  lemma IterateFollowsMachine(user: User, isFirstTap: bool, replies: seq<Reply>, now: int)
    ensures var it := Iterate(user, isFirstTap, replies, now);
            && (it.Stop? ==> Close(Walk(Ready(user, isFirstTap), it.run.trace, now)) == Done(it.run.user, it.run.stop))
            && (it.Continue? ==> Walk(Ready(user, isFirstTap), it.sent, now) == Ready(it.next, false))
  {
    var p := Ready(user, isFirstTap);
    var amount := TapAmount(user, isFirstTap);
    if amount != 0 {
      var boosting := BoostDue(user, isFirstTap, now);
      var boost := Answer(replies);
      var boosted := boosting && Succeeded(boost);
      var current := if boosted then boost.user else user;
      var coins := if boosted then current.energy * BoostFactor else amount;
      var afterBoost := if boosting then Rest(replies) else replies;
      var tap := Answer(afterBoost);
      var tapE := Exchange(Tap(coins), tap);
      var sent := (if boosting then [Exchange(Boost, boost)] else []) + [tapE];
      if boosting {
        WalkAppend(p, [Exchange(Boost, boost)], [tapE], now);
        WalkOne(p, Exchange(Boost, boost), now);
        WalkOne(AwaitTap(current, coins), tapE, now);
      } else {
        assert sent == [tapE];
        WalkOne(p, tapE, now);
      }
      assert Walk(p, sent, now) == AfterTap(current, tap);
      if Succeeded(tap) && WantsRefill(tap.user) {
        var refillE := Exchange(Refill, Answer(Rest(afterBoost)));
        WalkAppend(p, sent, [refillE], now);
        WalkOne(AwaitRefill(tap.user), refillE, now);
      }
    }
  }

  /** The loop's trace is accepted by the machine, which ends in the loop's own result. */
  lemma {:induction false} TapLoopFollowsMachine(user: User, isFirstTap: bool, replies: seq<Reply>, now: int)
    ensures var r := TapLoop(user, isFirstTap, replies, now);
            Close(Walk(Ready(user, isFirstTap), r.trace, now)) == Done(r.user, r.stop)
    decreases |replies|
  {
    IterateFollowsMachine(user, isFirstTap, replies, now);
    match Iterate(user, isFirstTap, replies, now)
    case Stop(run) =>
    case Continue(sent, next, rest) =>
      TapLoopFollowsMachine(next, false, rest, now);
      WalkAppend(Ready(user, isFirstTap), sent, TapLoop(next, false, rest, now).trace, now);
  }

  // ---------------------------------------------------------------------------
  // The oracle and the snapshot in hand

  lemma ReplyAtRest(rs: seq<Reply>, i: nat)
    ensures ReplyAt(Rest(rs), i) == ReplyAt(rs, i + 1)
  {
  }

  /** One pass consumes the stream in order, one reply per request, and hands the rest on. */
  lemma IterateAnswersInOrder(user: User, isFirstTap: bool, replies: seq<Reply>, now: int)
    ensures var it := Iterate(user, isFirstTap, replies, now);
            && (it.Stop? ==> forall i :: 0 <= i < |it.run.trace| ==> it.run.trace[i].reply == ReplyAt(replies, i))
            && (it.Continue? ==> forall i :: 0 <= i < |it.sent| ==> it.sent[i].reply == ReplyAt(replies, i))
            && (it.Continue? ==> forall j: nat :: ReplyAt(it.rest, j) == ReplyAt(replies, j + |it.sent|))
  {
    forall j: nat ensures ReplyAt(Rest(replies), j) == ReplyAt(replies, j + 1)
                   && ReplyAt(Rest(Rest(replies)), j) == ReplyAt(replies, j + 2)
                   && ReplyAt(Rest(Rest(Rest(replies))), j) == ReplyAt(replies, j + 3)
    {
      ReplyAtRest(replies, j);
      ReplyAtRest(Rest(replies), j);
      ReplyAtRest(replies, j + 1);
      ReplyAtRest(Rest(Rest(replies)), j);
      ReplyAtRest(Rest(replies), j + 1);
      ReplyAtRest(replies, j + 2);
    }
  }

  /** Request `i` of a run receives reply `i` of the stream. */
  lemma {:induction false} TapLoopAnswersInOrder(user: User, isFirstTap: bool, replies: seq<Reply>, now: int)
    ensures var r := TapLoop(user, isFirstTap, replies, now);
            forall i :: 0 <= i < |r.trace| ==> r.trace[i].reply == ReplyAt(replies, i)
    decreases |replies|
  {
    IterateAnswersInOrder(user, isFirstTap, replies, now);
    match Iterate(user, isFirstTap, replies, now)
    case Stop(run) =>
    case Continue(sent, next, rest) =>
      TapLoopAnswersInOrder(next, false, rest, now);
      var r := TapLoop(next, false, rest, now);
      forall i | 0 <= i < |sent| + |r.trace|
        ensures (sent + r.trace)[i].reply == ReplyAt(replies, i)
      {
        if i >= |sent| {
          assert (sent + r.trace)[i] == r.trace[i - |sent|];
          assert ReplyAt(rest, i - |sent|) == ReplyAt(replies, i - |sent| + |sent|);
        }
      }
  }

  lemma RepliesAppend(a: seq<Exchange>, b: seq<Exchange>)
    ensures Replies(a + b) == Replies(a) + Replies(b)
  {
  }

  /** Every successful reply of one pass is adopted, and nothing else. */
  lemma IterateAdopts(user: User, isFirstTap: bool, replies: seq<Reply>, now: int)
    ensures var it := Iterate(user, isFirstTap, replies, now);
            && (it.Stop? ==> it.run.user == Adopt(user, Replies(it.run.trace)))
            && (it.Continue? ==> it.next == Adopt(user, Replies(it.sent)))
  {
    var amount := TapAmount(user, isFirstTap);
    if amount != 0 {
      var boosting := BoostDue(user, isFirstTap, now);
      var boost := Answer(replies);
      var boosted := boosting && Succeeded(boost);
      var current := if boosted then boost.user else user;
      var coins := if boosted then current.energy * BoostFactor else amount;
      var afterBoost := if boosting then Rest(replies) else replies;
      var tap := Answer(afterBoost);
      var pre := if boosting then [Exchange(Boost, boost)] else [];
      var tapE := Exchange(Tap(coins), tap);
      var sent := pre + [tapE];
      assert Adopt(user, Replies(pre)) == current by {
        if boosting {
          assert Replies(pre) == [boost] + [];
          AdoptStep(user, boost, []);
        }
      }
      RepliesAppend(pre, [tapE]);
      AdoptAppend(user, Replies(pre), Replies([tapE]));
      assert Replies([tapE]) == [tap] + [];
      AdoptStep(current, tap, []);
      if Succeeded(tap) && WantsRefill(tap.user) {
        var refillE := Exchange(Refill, Answer(Rest(afterBoost)));
        RepliesAppend(sent, [refillE]);
        AdoptAppend(user, Replies(sent), Replies([refillE]));
        assert Replies([refillE]) == [refillE.reply] + [];
        AdoptStep(tap.user, refillE.reply, []);
      }
    }
  }

  /**
   * The snapshot a run returns is the one of its last successful request
   * (boost, tap or refill), or the starting one: in particular a failed tap
   * returns the snapshot last adopted.
   */
  lemma {:induction false} TapLoopAdoptsLast(user: User, isFirstTap: bool, replies: seq<Reply>, now: int)
    ensures var r := TapLoop(user, isFirstTap, replies, now);
            r.user == Adopt(user, Replies(r.trace))
    decreases |replies|
  {
    IterateAdopts(user, isFirstTap, replies, now);
    match Iterate(user, isFirstTap, replies, now)
    case Stop(run) =>
    case Continue(sent, next, rest) =>
      TapLoopAdoptsLast(next, false, rest, now);
      var r := TapLoop(next, false, rest, now);
      assert Replies(sent + r.trace) == Replies(sent) + Replies(r.trace);
      AdoptAppend(user, Replies(sent), Replies(r.trace));
  }

  // ---------------------------------------------------------------------------
  // Consequences for particular runs

  /** A run with a non-zero first amount starts with a tap of `coinsPerTap`: no boost comes before the first tap. */
  lemma FirstRequestIsTap(user: User, replies: seq<Reply>, now: int)
    requires user.coinsPerTap != 0
    ensures var r := TapLoop(user, true, replies, now);
            |r.trace| > 0 && r.trace[0].request == Tap(user.coinsPerTap)
  {
    match Iterate(user, true, replies, now)
    case Stop(run) =>
    case Continue(sent, next, rest) =>
      assert (sent + TapLoop(next, false, rest, now).trace)[0] == sent[0];
  }

  /**
   * At any loop head where no boost is due, a tap that leaves energy in
   * [0, 20) ends the loop without a refill, whatever refills remain.
   */
  lemma LowEnergyStopsWithoutRefill(user: User, isFirstTap: bool, tapped: User, replies: seq<Reply>, now: int)
    requires TapAmount(user, isFirstTap) != 0 && !BoostDue(user, isFirstTap, now)
    requires 0 <= tapped.energy < LowEnergy
    ensures TapLoop(user, isFirstTap, [Answered(200, tapped)] + replies, now)
            == TapRun(tapped, [Exchange(Tap(TapAmount(user, isFirstTap)), Answered(200, tapped))], Depleted)
  {
  }

  /**
   * At any loop head where no boost is due, a tap that leaves energy negative
   * with refills remaining is followed by a refill; when the refill fails the
   * loop ends with the tapped snapshot.
   */
  lemma FailedRefillStops(user: User, isFirstTap: bool, tapped: User, refill: Reply, replies: seq<Reply>, now: int)
    requires TapAmount(user, isFirstTap) != 0 && !BoostDue(user, isFirstTap, now)
    requires tapped.energy < 0 && tapped.freeEnergyRefills > 0 && !Succeeded(refill)
    ensures TapLoop(user, isFirstTap, [Answered(200, tapped), refill] + replies, now)
            == TapRun(tapped, [Exchange(Tap(TapAmount(user, isFirstTap)), Answered(200, tapped)), Exchange(Refill, refill)],
                      RefillFailed)
  {
    var rs := [Answered(200, tapped), refill] + replies;
    assert Rest(rs) == [refill] + replies;
  }

  // ---------------------------------------------------------------------------
  // The loop

  /** A run that has already made the exchanges `done` and goes on with `run`. */
  function Resume(done: seq<Exchange>, run: TapRun): TapRun
  {
    TapRun(run.user, done + run.trace, run.stop)
  }

  /** One pass of the loop body, seen from the whole run. */
  lemma LoopStep(user: User, isFirstTap: bool, replies: seq<Reply>, now: int, total: TapRun, done: seq<Exchange>)
    requires total == Resume(done, TapLoop(user, isFirstTap, replies, now))
    ensures var it := Iterate(user, isFirstTap, replies, now);
            && (it.Stop? ==> total == Resume(done, it.run))
            && (it.Continue? ==> total == Resume(done + it.sent, TapLoop(it.next, false, it.rest, now)))
  {
    var it := Iterate(user, isFirstTap, replies, now);
    if it.Continue? {
      var r := TapLoop(it.next, false, it.rest, now);
      assert done + (it.sent + r.trace) == (done + it.sent) + r.trace;
    }
  }

  /**
   * One pass of the body of `performTaps` from snapshot `user`: the exchanges
   * it makes, the snapshot it leaves, the stream left, and the stop it reaches
   * (`None` when the loop goes round again).
   */
  method TapPass(user: User, isFirstTap: bool, replies: seq<Reply>, now: int)
    returns (sent: seq<Exchange>, next: User, rest: seq<Reply>, stop: Option<TapStop>)
    ensures stop.Some? ==> Iterate(user, isFirstTap, replies, now) == Stop(TapRun(next, sent, stop.value))
    ensures stop.None? ==> Iterate(user, isFirstTap, replies, now) == Continue(sent, next, rest)
  {
    next, rest, sent := user, replies, [];
    var tapAmount := if isFirstTap then user.coinsPerTap else user.energy;
    if tapAmount == 0 {
      return [], user, replies, Some(NoEnergy);
    }
    if !isFirstTap && user.freeTapsMultiplier.available > 0 {
      if now > user.freeTapsMultiplier.lastTimeUpdated + BoostCooldown {
        var boost := Answer(rest);
        rest := Rest(rest);
        sent := [Exchange(Boost, boost)];
        if Succeeded(boost) {
          next := boost.user;
          tapAmount := next.energy * BoostFactor;
        }
      }
    }
    var tap := Answer(rest);
    rest := Rest(rest);
    sent := sent + [Exchange(Tap(tapAmount), tap)];
    if !Succeeded(tap) {
      return sent, next, rest, Some(TapFailed);
    }
    next := tap.user;
    if next.energy < 0 && next.freeEnergyRefills > 0 {
      var refill := Answer(rest);
      rest := Rest(rest);
      sent := sent + [Exchange(Refill, refill)];
      if !Succeeded(refill) {
        return sent, next, rest, Some(RefillFailed);
      }
      next := refill.user;
    } else if next.energy < LowEnergy {
      return sent, next, rest, Some(Depleted);
    }
    stop := None;
  }

  /**
   * `performTaps`: the loop from snapshot `user`, the stream `replies`
   * answering its boost, tap and refill requests in the order they are made.
   */
  method PerformTaps(user: User, now: int, replies: seq<Reply>) returns (final: User, trace: seq<Exchange>, stop: TapStop)
    ensures TapRun(final, trace, stop) == TapLoop(user, true, replies, now)
    ensures Close(Walk(Ready(user, true), trace, now)) == Done(final, stop)
    ensures final == Adopt(user, Replies(trace))
    ensures forall i :: 0 <= i < |trace| ==> trace[i].reply == ReplyAt(replies, i)
  {
    final, trace := user, [];
    var isFirstTap := true;
    var rs := replies;
    while true
      invariant TapLoop(user, true, replies, now) == Resume(trace, TapLoop(final, isFirstTap, rs, now))
      decreases |rs|
    {
      LoopStep(final, isFirstTap, rs, now, TapLoop(user, true, replies, now), trace);
      var sent, next, rest, passStop := TapPass(final, isFirstTap, rs, now);
      trace, final, rs, isFirstTap := trace + sent, next, rest, false;
      if passStop.Some? {
        stop := passStop.value;
        break;
      }
    }
    TapLoopFollowsMachine(user, true, replies, now);
    TapLoopAdoptsLast(user, true, replies, now);
    TapLoopAnswersInOrder(user, true, replies, now);
  }
}
