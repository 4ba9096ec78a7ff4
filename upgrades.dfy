/**
 * The upgrade purchase scan: the catalog is walked in order and each card is
 * bought when it is not owned, not expired, affordable with the balance in
 * hand and within the configured price cap.
 */
module Upgrades {
  import opened PipTypes

  /**
   * `item.validUntil && now > item.validUntil`: a missing deadline, and a
   * deadline of 0 (falsy), never expire.
   */
  predicate Expired(item: InvestItem, now: int)
  {
    item.validUntil.Some? && item.validUntil.value != 0 && now > item.validUntil.value
  }

  /** The rule for one catalog entry, against the balance of the latest adopted snapshot. */
  predicate ShouldBuy(item: InvestItem, owned: set<int>, balance: int, maxInvestPrice: int, now: int)
  {
    item.id !in owned && !Expired(item, now) && balance > item.price && item.price <= maxInvestPrice
  }

  /** The ids of the cards a snapshot holds (`boughtItemIds`). */
  function OwnedIds(user: User): set<int>
  {
    set id | id in user.investItems
  }

  /** One purchase request: the card, the balance it was decided against, and the server's reply. */
  datatype Purchase = Purchase(item: InvestItem, balance: int, reply: Reply)

  datatype Scan = Scan(user: User, purchases: seq<Purchase>)

  function PurchaseReplies(ps: seq<Purchase>): (rs: seq<Reply>)
    ensures |rs| == |ps| && forall i :: 0 <= i < |ps| ==> rs[i] == ps[i].reply
  {
    seq(|ps|, i requires 0 <= i < |ps| => ps[i].reply)
  }

  /**
   * The scan from `user` over `catalog`, with `owned` fixed before the scan
   * starts; `replies` answers the purchase requests in order. A successful
   * purchase replaces the snapshot; a failed one leaves it and the scan goes on.
   */
  function ScanCatalog(user: User, owned: set<int>, catalog: seq<InvestItem>, maxInvestPrice: int,
                       now: int, replies: seq<Reply>): (r: Scan)
    ensures |r.purchases| <= |catalog|
    decreases |catalog|
  {
    if |catalog| == 0 then Scan(user, [])
    else
      var item := catalog[0];
      if ShouldBuy(item, owned, user.balance, maxInvestPrice, now) then
        var reply := Answer(replies);
        var next := if Succeeded(reply) then reply.user else user;
        var rest := ScanCatalog(next, owned, catalog[1..], maxInvestPrice, now, Rest(replies));
        Scan(rest.user, [Purchase(item, user.balance, reply)] + rest.purchases)
      else
        ScanCatalog(user, owned, catalog[1..], maxInvestPrice, now, replies)
  }

  /**
   * Every purchase request is for a catalog card that is not owned, not
   * expired, within the cap, and cheaper than the balance it was decided against.
   */
  lemma {:induction false} ScanBuysOnlyAllowed(user: User, owned: set<int>, catalog: seq<InvestItem>,
                                               maxInvestPrice: int, now: int, replies: seq<Reply>)
    ensures forall p :: p in ScanCatalog(user, owned, catalog, maxInvestPrice, now, replies).purchases ==>
              p.item in catalog && ShouldBuy(p.item, owned, p.balance, maxInvestPrice, now)
    decreases |catalog|
  {
    if |catalog| > 0 {
      var item := catalog[0];
      if ShouldBuy(item, owned, user.balance, maxInvestPrice, now) {
        var reply := Answer(replies);
        var next := if Succeeded(reply) then reply.user else user;
        ScanBuysOnlyAllowed(next, owned, catalog[1..], maxInvestPrice, now, Rest(replies));
      } else {
        ScanBuysOnlyAllowed(user, owned, catalog[1..], maxInvestPrice, now, replies);
      }
    }
  }

  /** The scan ends holding the snapshot adopted from all its purchase replies: a failed purchase changes nothing. */
  lemma {:induction false} ScanEndsAdopted(user: User, owned: set<int>, catalog: seq<InvestItem>,
                                           maxInvestPrice: int, now: int, replies: seq<Reply>)
    ensures var r := ScanCatalog(user, owned, catalog, maxInvestPrice, now, replies);
            r.user == Adopt(user, PurchaseReplies(r.purchases))
    decreases |catalog|
  {
    if |catalog| > 0 {
      var item := catalog[0];
      if ShouldBuy(item, owned, user.balance, maxInvestPrice, now) {
        var reply := Answer(replies);
        var next := if Succeeded(reply) then reply.user else user;
        var rest := ScanCatalog(next, owned, catalog[1..], maxInvestPrice, now, Rest(replies));
        ScanEndsAdopted(next, owned, catalog[1..], maxInvestPrice, now, Rest(replies));
        assert PurchaseReplies([Purchase(item, user.balance, reply)] + rest.purchases)
               == [reply] + PurchaseReplies(rest.purchases);
        AdoptStep(user, reply, PurchaseReplies(rest.purchases));
      } else {
        ScanEndsAdopted(user, owned, catalog[1..], maxInvestPrice, now, replies);
      }
    }
  }

  /** Purchase request `i` receives reply `i` of the stream. */
  lemma {:induction false} ScanAnswersInOrder(user: User, owned: set<int>, catalog: seq<InvestItem>,
                                              maxInvestPrice: int, now: int, replies: seq<Reply>)
    ensures var r := ScanCatalog(user, owned, catalog, maxInvestPrice, now, replies);
            forall i :: 0 <= i < |r.purchases| ==> r.purchases[i].reply == ReplyAt(replies, i)
    decreases |catalog|
  {
    if |catalog| > 0 {
      var item := catalog[0];
      if ShouldBuy(item, owned, user.balance, maxInvestPrice, now) {
        var reply := Answer(replies);
        var next := if Succeeded(reply) then reply.user else user;
        var rest := ScanCatalog(next, owned, catalog[1..], maxInvestPrice, now, Rest(replies));
        ScanAnswersInOrder(next, owned, catalog[1..], maxInvestPrice, now, Rest(replies));
        var ps := [Purchase(item, user.balance, reply)] + rest.purchases;
        forall i | 0 < i < |ps| ensures ps[i].reply == ReplyAt(replies, i) {
          assert ps[i] == rest.purchases[i - 1];
          assert ReplyAt(Rest(replies), i - 1) == ReplyAt(replies, i);
        }
      } else {
        ScanAnswersInOrder(user, owned, catalog[1..], maxInvestPrice, now, replies);
      }
    }
  }

  /** Each purchase was decided against the balance adopted, from `user`, out of the replies before it. */
  predicate LatestBalances(user: User, ps: seq<Purchase>)
  {
    forall i :: 0 <= i < |ps| ==> ps[i].balance == Adopt(user, PurchaseReplies(ps[..i])).balance
  }

  /**
   * Purchase `i` is decided against the balance of the snapshot adopted from
   * the replies before it: the latest balance, never a stale one.
   */
  lemma {:induction false} ScanUsesLatestBalance(user: User, owned: set<int>, catalog: seq<InvestItem>,
                                                 maxInvestPrice: int, now: int, replies: seq<Reply>)
    ensures LatestBalances(user, ScanCatalog(user, owned, catalog, maxInvestPrice, now, replies).purchases)
    decreases |catalog|
  {
    if |catalog| > 0 {
      var item := catalog[0];
      if ShouldBuy(item, owned, user.balance, maxInvestPrice, now) {
        var reply := Answer(replies);
        var next := if Succeeded(reply) then reply.user else user;
        var rest := ScanCatalog(next, owned, catalog[1..], maxInvestPrice, now, Rest(replies));
        ScanUsesLatestBalance(next, owned, catalog[1..], maxInvestPrice, now, Rest(replies));
        var ps := [Purchase(item, user.balance, reply)] + rest.purchases;
        assert ScanCatalog(user, owned, catalog, maxInvestPrice, now, replies).purchases == ps;
        forall i | 0 <= i < |ps| ensures ps[i].balance == Adopt(user, PurchaseReplies(ps[..i])).balance {
          if i == 0 {
            assert PurchaseReplies(ps[..0]) == [];
          } else {
            assert ps[i] == rest.purchases[i - 1];
            assert ps[..i] == [ps[0]] + rest.purchases[..i - 1];
            assert PurchaseReplies(ps[..i]) == [reply] + PurchaseReplies(rest.purchases[..i - 1]);
            assert rest.purchases[i - 1].balance == Adopt(next, PurchaseReplies(rest.purchases[..i - 1])).balance;
            AdoptStep(user, reply, PurchaseReplies(rest.purchases[..i - 1]));
          }
        }
      } else {
        ScanUsesLatestBalance(user, owned, catalog[1..], maxInvestPrice, now, replies);
      }
    }
  }

  /** `xs` can be obtained from `ys` by deleting elements: same order, each element of `ys` used at most once. */
  predicate Subsequence(xs: seq<InvestItem>, ys: seq<InvestItem>)
    decreases |ys|
  {
    |xs| == 0 ||
    (|ys| > 0 && ((xs[0] == ys[0] && Subsequence(xs[1..], ys[1..])) || Subsequence(xs, ys[1..])))
  }

  function PurchasedItems(ps: seq<Purchase>): (items: seq<InvestItem>)
    ensures |items| == |ps| && forall i :: 0 <= i < |ps| ==> items[i] == ps[i].item
  {
    seq(|ps|, i requires 0 <= i < |ps| => ps[i].item)
  }

  /** The cards are requested in catalog order and no catalog entry is requested twice, even after a failure. */
  lemma {:induction false} ScanInCatalogOrder(user: User, owned: set<int>, catalog: seq<InvestItem>,
                                              maxInvestPrice: int, now: int, replies: seq<Reply>)
    ensures Subsequence(PurchasedItems(ScanCatalog(user, owned, catalog, maxInvestPrice, now, replies).purchases), catalog)
    decreases |catalog|
  {
    var r := ScanCatalog(user, owned, catalog, maxInvestPrice, now, replies);
    if |catalog| > 0 {
      var item := catalog[0];
      if ShouldBuy(item, owned, user.balance, maxInvestPrice, now) {
        var reply := Answer(replies);
        var next := if Succeeded(reply) then reply.user else user;
        var rest := ScanCatalog(next, owned, catalog[1..], maxInvestPrice, now, Rest(replies));
        ScanInCatalogOrder(next, owned, catalog[1..], maxInvestPrice, now, Rest(replies));
        assert PurchasedItems(r.purchases) == [item] + PurchasedItems(rest.purchases);
        assert PurchasedItems(r.purchases)[1..] == PurchasedItems(rest.purchases);
      } else {
        ScanInCatalogOrder(user, owned, catalog[1..], maxInvestPrice, now, replies);
      }
    }
  }

  /**
   * A card that is owned, expired, over the cap or not affordable is passed
   * over: no request, no reply consumed, the snapshot unchanged.
   */
  lemma SkippedCardChangesNothing(user: User, owned: set<int>, item: InvestItem, catalog: seq<InvestItem>,
                                  maxInvestPrice: int, now: int, replies: seq<Reply>)
    requires !ShouldBuy(item, owned, user.balance, maxInvestPrice, now)
    ensures ScanCatalog(user, owned, [item] + catalog, maxInvestPrice, now, replies)
            == ScanCatalog(user, owned, catalog, maxInvestPrice, now, replies)
  {
    assert ([item] + catalog)[1..] == catalog;
  }

  /**
   * Scanning `a + b` is scanning `a`, then scanning `b` from the snapshot `a`
   * ends with and the stream its purchases left.
   */
  lemma {:induction false} ScanAppend(user: User, owned: set<int>, a: seq<InvestItem>, b: seq<InvestItem>,
                                      maxInvestPrice: int, now: int, replies: seq<Reply>)
    ensures var ra := ScanCatalog(user, owned, a, maxInvestPrice, now, replies);
            var rb := ScanCatalog(ra.user, owned, b, maxInvestPrice, now, Drop(replies, |ra.purchases|));
            ScanCatalog(user, owned, a + b, maxInvestPrice, now, replies) == Scan(rb.user, ra.purchases + rb.purchases)
    decreases |a|
  {
    if |a| == 0 {
      assert a + b == b;
      assert Drop(replies, 0) == replies;
    } else {
      assert (a + b)[0] == a[0] && (a + b)[1..] == a[1..] + b;
      var item := a[0];
      if ShouldBuy(item, owned, user.balance, maxInvestPrice, now) {
        var reply := Answer(replies);
        var next := if Succeeded(reply) then reply.user else user;
        ScanAppend(next, owned, a[1..], b, maxInvestPrice, now, Rest(replies));
        var ra' := ScanCatalog(next, owned, a[1..], maxInvestPrice, now, Rest(replies));
        DropRest(replies, |ra'.purchases|);
        var rb := ScanCatalog(ra'.user, owned, b, maxInvestPrice, now, Drop(replies, |ra'.purchases| + 1));
        assert [Purchase(item, user.balance, reply)] + (ra'.purchases + rb.purchases)
               == ([Purchase(item, user.balance, reply)] + ra'.purchases) + rb.purchases;
      } else {
        ScanAppend(user, owned, a[1..], b, maxInvestPrice, now, replies);
      }
    }
  }

  /**
   * One card: it is requested, with the balance in hand and the next reply,
   * exactly when it passes the rule; the snapshot then follows the reply.
   */
  lemma ScanSingle(user: User, owned: set<int>, item: InvestItem, maxInvestPrice: int, now: int, replies: seq<Reply>)
    ensures var r := ScanCatalog(user, owned, [item], maxInvestPrice, now, replies);
            && (ShouldBuy(item, owned, user.balance, maxInvestPrice, now) ==>
                  r.purchases == [Purchase(item, user.balance, Answer(replies))] &&
                  r.user == Adopt(user, [Answer(replies)]))
            && (!ShouldBuy(item, owned, user.balance, maxInvestPrice, now) ==> r == Scan(user, []))
  {
    assert [item][1..] == [];
    AdoptStep(user, Answer(replies), []);
  }

  /**
   * Card `k` of the catalog is decided against the snapshot the scan holds
   * after cards `0..k-1`: the purchases up to card `k` are those before it,
   * followed by a request for card `k` if and only if it passes the rule
   * against that snapshot's balance; the request receives the next reply.
   */
  predicate CardDecided(user: User, owned: set<int>, catalog: seq<InvestItem>, maxInvestPrice: int, now: int,
                        replies: seq<Reply>, purchases: seq<Purchase>, k: nat)
    requires k < |catalog|
  {
    var before := ScanCatalog(user, owned, catalog[..k], maxInvestPrice, now, replies);
    var n := |before.purchases|;
    var decided := if ShouldBuy(catalog[k], owned, before.user.balance, maxInvestPrice, now)
                   then before.purchases + [Purchase(catalog[k], before.user.balance, ReplyAt(replies, n))]
                   else before.purchases;
    |decided| <= |purchases| && purchases[..|decided|] == decided
  }

  /** The purchases of a scan over `a` open the purchases of the scan over `a + b`. */
  lemma ScanPrefix(user: User, owned: set<int>, a: seq<InvestItem>, b: seq<InvestItem>,
                   maxInvestPrice: int, now: int, replies: seq<Reply>)
    ensures var pa := ScanCatalog(user, owned, a, maxInvestPrice, now, replies).purchases;
            var pab := ScanCatalog(user, owned, a + b, maxInvestPrice, now, replies).purchases;
            |pa| <= |pab| && pab[..|pa|] == pa
  {
    ScanAppend(user, owned, a, b, maxInvestPrice, now, replies);
    var ra := ScanCatalog(user, owned, a, maxInvestPrice, now, replies);
    var rb := ScanCatalog(ra.user, owned, b, maxInvestPrice, now, Drop(replies, |ra.purchases|));
    assert (ra.purchases + rb.purchases)[..|ra.purchases|] == ra.purchases;
  }

  /** Extending the scanned part of the catalog by card `k` adds its request exactly when it passes the rule. */
  lemma ScanExtendsByCard(user: User, owned: set<int>, catalog: seq<InvestItem>, maxInvestPrice: int, now: int,
                          replies: seq<Reply>, k: nat)
    requires k < |catalog|
    ensures var before := ScanCatalog(user, owned, catalog[..k], maxInvestPrice, now, replies);
            ScanCatalog(user, owned, catalog[..k + 1], maxInvestPrice, now, replies).purchases ==
              if ShouldBuy(catalog[k], owned, before.user.balance, maxInvestPrice, now)
              then before.purchases + [Purchase(catalog[k], before.user.balance, ReplyAt(replies, |before.purchases|))]
              else before.purchases
  {
    var before := ScanCatalog(user, owned, catalog[..k], maxInvestPrice, now, replies);
    ScanAppend(user, owned, catalog[..k], [catalog[k]], maxInvestPrice, now, replies);
    ScanSingle(before.user, owned, catalog[k], maxInvestPrice, now, Drop(replies, |before.purchases|));
    assert catalog[..k] + [catalog[k]] == catalog[..k + 1];
  }

  /** Every card of the catalog is decided by the rule: allowed cards are requested, the others are not. */
  lemma ScanDecidesEachCard(user: User, owned: set<int>, catalog: seq<InvestItem>, maxInvestPrice: int, now: int,
                            replies: seq<Reply>, k: nat)
    requires k < |catalog|
    ensures CardDecided(user, owned, catalog, maxInvestPrice, now, replies,
                        ScanCatalog(user, owned, catalog, maxInvestPrice, now, replies).purchases, k)
  {
    ScanExtendsByCard(user, owned, catalog, maxInvestPrice, now, replies, k);
    ScanPrefix(user, owned, catalog[..k + 1], catalog[k + 1..], maxInvestPrice, now, replies);
    assert catalog[..k + 1] + catalog[k + 1..] == catalog;
  }

  /** A scan that has already made the purchases `done` and goes on with `scan`. */
  function ResumeScan(done: seq<Purchase>, scan: Scan): Scan
  {
    Scan(scan.user, done + scan.purchases)
  }

  /** One catalog entry of the scan, seen from the whole scan. */
  lemma ScanStep(user: User, owned: set<int>, catalog: seq<InvestItem>, maxInvestPrice: int, now: int,
                 replies: seq<Reply>, total: Scan, done: seq<Purchase>)
    requires |catalog| > 0
    requires total == ResumeScan(done, ScanCatalog(user, owned, catalog, maxInvestPrice, now, replies))
    ensures var item, reply := catalog[0], Answer(replies);
            && (ShouldBuy(item, owned, user.balance, maxInvestPrice, now) ==>
                  total == ResumeScan(done + [Purchase(item, user.balance, reply)],
                                      ScanCatalog(if Succeeded(reply) then reply.user else user, owned, catalog[1..],
                                                  maxInvestPrice, now, Rest(replies))))
            && (!ShouldBuy(item, owned, user.balance, maxInvestPrice, now) ==>
                  total == ResumeScan(done, ScanCatalog(user, owned, catalog[1..], maxInvestPrice, now, replies)))
  {
    var item, reply := catalog[0], Answer(replies);
    if ShouldBuy(item, owned, user.balance, maxInvestPrice, now) {
      var rest := ScanCatalog(if Succeeded(reply) then reply.user else user, owned, catalog[1..],
                              maxInvestPrice, now, Rest(replies));
      assert done + ([Purchase(item, user.balance, reply)] + rest.purchases)
             == (done + [Purchase(item, user.balance, reply)]) + rest.purchases;
    }
  }

  /** What the scan from the starting holdings promises, gathered for `UpgradeCards`. */
  lemma ScanGuarantees(user: User, catalog: seq<InvestItem>, maxInvestPrice: int, now: int, replies: seq<Reply>)
    ensures var r := ScanCatalog(user, OwnedIds(user), catalog, maxInvestPrice, now, replies);
            && (forall p :: p in r.purchases ==>
                  p.item in catalog && p.item.id !in user.investItems && !Expired(p.item, now) &&
                  p.balance > p.item.price && p.item.price <= maxInvestPrice)
            && r.user == Adopt(user, PurchaseReplies(r.purchases))
            && LatestBalances(user, r.purchases)
            && (forall i :: 0 <= i < |r.purchases| ==> r.purchases[i].reply == ReplyAt(replies, i))
            && Subsequence(PurchasedItems(r.purchases), catalog)
            && (forall k: nat :: k < |catalog| ==>
                  CardDecided(user, OwnedIds(user), catalog, maxInvestPrice, now, replies, r.purchases, k))
  {
    forall k: nat | k < |catalog|
      ensures CardDecided(user, OwnedIds(user), catalog, maxInvestPrice, now, replies,
                          ScanCatalog(user, OwnedIds(user), catalog, maxInvestPrice, now, replies).purchases, k)
    {
      ScanDecidesEachCard(user, OwnedIds(user), catalog, maxInvestPrice, now, replies, k);
    }
    ScanBuysOnlyAllowed(user, OwnedIds(user), catalog, maxInvestPrice, now, replies);
    ScanEndsAdopted(user, OwnedIds(user), catalog, maxInvestPrice, now, replies);
    ScanUsesLatestBalance(user, OwnedIds(user), catalog, maxInvestPrice, now, replies);
    ScanAnswersInOrder(user, OwnedIds(user), catalog, maxInvestPrice, now, replies);
    ScanInCatalogOrder(user, OwnedIds(user), catalog, maxInvestPrice, now, replies);
  }

  /**
   * `upgradeCards`: `owned` is built once from the starting holdings, then the
   * catalog is walked in order.
   */
  method UpgradeCards(user: User, catalog: seq<InvestItem>, maxInvestPrice: int, now: int, replies: seq<Reply>)
    returns (final: User, purchases: seq<Purchase>)
    ensures Scan(final, purchases) == ScanCatalog(user, OwnedIds(user), catalog, maxInvestPrice, now, replies)
    ensures forall p :: p in purchases ==>
              p.item in catalog && p.item.id !in user.investItems && !Expired(p.item, now) &&
              p.balance > p.item.price && p.item.price <= maxInvestPrice
    ensures final == Adopt(user, PurchaseReplies(purchases))
    ensures LatestBalances(user, purchases)
    ensures forall i :: 0 <= i < |purchases| ==> purchases[i].reply == ReplyAt(replies, i)
    ensures Subsequence(PurchasedItems(purchases), catalog)
    ensures forall k: nat :: k < |catalog| ==>
              CardDecided(user, OwnedIds(user), catalog, maxInvestPrice, now, replies, purchases, k)
  {
    var boughtItemIds := set id | id in user.investItems;
    final, purchases := user, [];
    var rs := replies;
    for i := 0 to |catalog|
      invariant ScanCatalog(user, boughtItemIds, catalog, maxInvestPrice, now, replies) ==
                ResumeScan(purchases, ScanCatalog(final, boughtItemIds, catalog[i..], maxInvestPrice, now, rs))
    {
      ScanStep(final, boughtItemIds, catalog[i..], maxInvestPrice, now, rs,
               ScanCatalog(user, boughtItemIds, catalog, maxInvestPrice, now, replies), purchases);
      var item := catalog[i];
      assert catalog[i..][0] == item && catalog[i..][1..] == catalog[i + 1..];
      if item.id in boughtItemIds {
        continue;
      }
      if item.validUntil.Some? && item.validUntil.value != 0 && now > item.validUntil.value {
        continue;
      }
      if final.balance > item.price && item.price <= maxInvestPrice {
        var reply := Answer(rs);
        rs := Rest(rs);
        purchases := purchases + [Purchase(item, final.balance, reply)];
        if !Succeeded(reply) {
          continue;
        }
        final := reply.user;
      }
    }
    assert catalog[|catalog|..] == [];
    ScanGuarantees(user, catalog, maxInvestPrice, now, replies);
  }

  /** A card priced 100 against a balance of 150, within the cap and not owned, is requested first. */
  lemma AffordableCardRequested(user: User, owned: set<int>, id: int, catalog: seq<InvestItem>,
                                maxInvestPrice: int, now: int, replies: seq<Reply>)
    requires user.balance == 150 && id !in owned && 100 <= maxInvestPrice
    ensures var r := ScanCatalog(user, owned, [InvestItem(id, 100, 5, None)] + catalog, maxInvestPrice, now, replies);
            |r.purchases| > 0 && r.purchases[0] == Purchase(InvestItem(id, 100, 5, None), 150, Answer(replies))
  {
  }

  /** A card priced 100 against a balance of 50 is neither bought nor an error; the scan moves on. */
  lemma UnaffordableCardSkipped(user: User, owned: set<int>, id: int, catalog: seq<InvestItem>,
                                maxInvestPrice: int, now: int, replies: seq<Reply>)
    requires user.balance == 50
    ensures ScanCatalog(user, owned, [InvestItem(id, 100, 5, None)] + catalog, maxInvestPrice, now, replies)
            == ScanCatalog(user, owned, catalog, maxInvestPrice, now, replies)
  {
    SkippedCardChangesNothing(user, owned, InvestItem(id, 100, 5, None), catalog, maxInvestPrice, now, replies);
  }
}
