/** The trade-application routes: a consumer applies to buy from a batch on sale
    (`/buying`), the provider accepts (`/accept`) or refuses (`/refuse`) the
    application, or the consumer withdraws it (`/cancel`); and the order in which
    `GET /` lists applications.

    Each route is a function from the database before the request to the database
    after it and the response (`Refuse`, `Cancel`, `Buying`, `Accept`), and a
    handler method over the `Store` whose new state is that function of the old
    one (`PostRefuse`, `PutCancel`, `PostBuying`, `PostAccept`). */
module RegoTradeInfoController {
  import opened Tables
  import opened Decimal
  import opened Database

  // ---------------------------------------------------------------- refuse

  /** `POST /rego-trade-info/refuse`: a pending application becomes `rejected`,
      with the reason and the completion date; any other application is left alone.
      The route has no catch: reading the status of a missing application throws,
      and the request is never answered. */
  function Refuse(db: Db, regoTradeInfoId: int, rejectedReason: string, now: Time): (r: Outcome)
    ensures r.response.Succeeded() <==>
              regoTradeInfoId in db.trades.rows && db.trades.rows[regoTradeInfoId].tradingApplicationStatus == Pending
    ensures r.response == Unanswered <==> regoTradeInfoId !in db.trades.rows
    ensures r.response == Failure(AlreadyProcessed) <==>
              regoTradeInfoId in db.trades.rows && db.trades.rows[regoTradeInfoId].tradingApplicationStatus != Pending
    ensures !r.response.Succeeded() ==> r.db == db
    ensures r.db == db.(trades := r.db.trades)
    ensures r.db.trades.nextId == db.trades.nextId
    ensures r.db.trades.rows.Keys == db.trades.rows.Keys
    ensures forall k :: k in db.trades.rows && k != regoTradeInfoId ==> r.db.trades.rows[k] == db.trades.rows[k]
    ensures r.response.Succeeded() ==>
              r.db.trades.rows[regoTradeInfoId] == db.trades.rows[regoTradeInfoId].(
                tradingApplicationStatus := Rejected,
                rejectedReason := Some(rejectedReason),
                tradeCompletedDate := Some(now))
    ensures db.Valid() ==> r.db.Valid()
  {
    if regoTradeInfoId !in db.trades.rows then
      Outcome(db, Unanswered)
    else
      var trade := db.trades.rows[regoTradeInfoId];
      if trade.tradingApplicationStatus != Pending then
        Outcome(db, Failure(AlreadyProcessed))
      else
        var rejected := trade.(tradeCompletedDate := Some(now),
                               tradingApplicationStatus := Rejected,
                               rejectedReason := Some(rejectedReason));
        Outcome(db.(trades := db.trades.Update(regoTradeInfoId, rejected)), Success)
  }

  method PostRefuse(store: Store, regoTradeInfoId: int, rejectedReason: string, now: Time)
    returns (response: Response)
    requires store.Valid()
    modifies store
    ensures store.Valid()
    ensures Outcome(store.Snapshot(), response) == Refuse(old(store.Snapshot()), regoTradeInfoId, rejectedReason, now)
  {
    if regoTradeInfoId !in store.trades {
      return Unanswered;
    }
    var trade := store.trades[regoTradeInfoId];
    if trade.tradingApplicationStatus != Pending {
      return Failure(AlreadyProcessed);
    }
    store.trades := store.trades[regoTradeInfoId := trade.(tradeCompletedDate := Some(now),
                                                           tradingApplicationStatus := Rejected,
                                                           rejectedReason := Some(rejectedReason))];
    response := Success;
  }

  // ---------------------------------------------------------------- cancel

  /** `PUT /rego-trade-info/cancel`: a pending application becomes `canceled`;
      nothing else changes, and any other application is left alone. */
  function Cancel(db: Db, regoTradeInfoId: int): (r: Outcome)
    ensures r.response.Succeeded() <==>
              regoTradeInfoId in db.trades.rows && db.trades.rows[regoTradeInfoId].tradingApplicationStatus == Pending
    ensures !r.response.Succeeded() ==> r.db == db
    ensures r.db == db.(trades := r.db.trades)
    ensures r.db.trades.nextId == db.trades.nextId
    ensures r.db.trades.rows.Keys == db.trades.rows.Keys
    ensures forall k :: k in db.trades.rows && k != regoTradeInfoId ==> r.db.trades.rows[k] == db.trades.rows[k]
    ensures r.response.Succeeded() ==>
              r.db.trades.rows[regoTradeInfoId] == db.trades.rows[regoTradeInfoId].(tradingApplicationStatus := Canceled)
    ensures db.Valid() ==> r.db.Valid()
  {
    if regoTradeInfoId !in db.trades.rows then
      Outcome(db, Failure(RowNotFound))
    else
      var trade := db.trades.rows[regoTradeInfoId];
      if trade.tradingApplicationStatus != Pending then
        Outcome(db, Failure(NotCancelable))
      else
        Outcome(db.(trades := db.trades.Update(regoTradeInfoId, trade.(tradingApplicationStatus := Canceled))), Success)
  }

  method PutCancel(store: Store, regoTradeInfoId: int) returns (response: Response)
    requires store.Valid()
    modifies store
    ensures store.Valid()
    ensures Outcome(store.Snapshot(), response) == Cancel(old(store.Snapshot()), regoTradeInfoId)
  {
    if regoTradeInfoId !in store.trades {
      return Failure(RowNotFound);
    }
    var trade := store.trades[regoTradeInfoId];
    if trade.tradingApplicationStatus != Pending {
      return Failure(NotCancelable);
    }
    store.trades := store.trades[regoTradeInfoId := trade.(tradingApplicationStatus := Canceled)];
    response := Success;
  }

  /** Refusing or cancelling settles a pending application for good: after either,
      both routes fail on it and change nothing. */
  lemma {:induction false} PendingIsResolvedOnce(db: Db, id: int, reason: string, now: Time, reason': string, now': Time)
    requires id in db.trades.rows && db.trades.rows[id].tradingApplicationStatus == Pending
    ensures var refused := Refuse(db, id, reason, now).db;
            && Refuse(refused, id, reason', now') == Outcome(refused, Failure(AlreadyProcessed))
            && Cancel(refused, id) == Outcome(refused, Failure(NotCancelable))
    ensures var canceled := Cancel(db, id).db;
            && Refuse(canceled, id, reason', now') == Outcome(canceled, Failure(AlreadyProcessed))
            && Cancel(canceled, id) == Outcome(canceled, Failure(NotCancelable))
  {
  }

  // ---------------------------------------------------------------- buying

  /** The body of a `/buying` request. */
  datatype BuyingRequest = BuyingRequest(
    regoGroupId: int,
    identificationNumber: string,
    buyingAmount: int,
    buyingPrice: real)

  /** `POST /rego-trade-info/buying`: against a batch that is `active` and on sale,
      records one pending application; the provider and plant come from the batch,
      the consumer from the caller's token, amount and price from the request. The
      amount is not checked against what the batch has left. */
  function Buying(db: Db, consumerId: int, request: BuyingRequest, now: Time): (r: Outcome)
    ensures r.response.Succeeded() <==>
              request.regoGroupId in db.groups.rows && db.groups.rows[request.regoGroupId].Buyable()
    ensures !r.response.Succeeded() ==> r.db == db
    ensures r.response.Succeeded() ==>
              var group := db.groups.rows[request.regoGroupId];
              && r.db == db.(trades := r.db.trades)
              && r.db.trades == db.trades.Insert(RegoTradeInfo(
                   group.providerId, consumerId, group.plantId, request.regoGroupId,
                   request.identificationNumber, Pending, request.buyingAmount, request.buyingPrice,
                   now, None, None))
    ensures db.Valid() ==> r.db.Valid()
    ensures db.Valid() && r.response.Succeeded() ==> db.trades.nextId !in db.trades.rows
  {
    if request.regoGroupId !in db.groups.rows then
      Outcome(db, Failure(RowNotFound))
    else
      var group := db.groups.rows[request.regoGroupId];
      if group.status != Active || group.tradingStatus != Trading then
        Outcome(db, Failure(NotBuyable))
      else
        var application := RegoTradeInfo(
          group.providerId, consumerId, group.plantId, request.regoGroupId,
          request.identificationNumber, Pending, request.buyingAmount, request.buyingPrice,
          now, None, None);
        Outcome(db.(trades := db.trades.Insert(application)), Success)
  }

  method PostBuying(store: Store, consumerId: int, request: BuyingRequest, now: Time)
    returns (response: Response)
    requires store.Valid()
    modifies store
    ensures store.Valid()
    ensures Outcome(store.Snapshot(), response) == Buying(old(store.Snapshot()), consumerId, request, now)
  {
    if request.regoGroupId !in store.groups {
      return Failure(RowNotFound);
    }
    var group := store.groups[request.regoGroupId];
    if group.status != Active || group.tradingStatus != Trading {
      return Failure(NotBuyable);
    }
    var id := store.nextTradeId;
    store.trades := store.trades[id := RegoTradeInfo(
      group.providerId, consumerId, group.plantId, request.regoGroupId,
      request.identificationNumber, Pending, request.buyingAmount, request.buyingPrice,
      now, None, None)];
    store.nextTradeId := id + 1;
    response := Success;
  }

  /** A new application is pending, so its buyer can still withdraw it. */
  lemma {:induction false} NewApplicationCanBeCanceled(db: Db, consumerId: int, request: BuyingRequest, now: Time)
    requires db.Valid()
    requires Buying(db, consumerId, request, now).response.Succeeded()
    ensures var applied := Buying(db, consumerId, request, now).db;
            Cancel(applied, db.trades.nextId).response == Success
  {
  }

  // ---------------------------------------------------------------- accept

  /** `Array.from({ length: n })` has no element when `n` is negative. */
  function ArrayLength(n: int): nat {
    if n < 0 then 0 else n
  }

  /** The identification label of the holding an accepted trade creates:
      `<batch> <start> - <start + amount>`. */
  function HoldingLabel(batch: string, start: int, amount: int): (s: string)
    ensures |s| >= |batch| + 6 && s[..|batch| + 1] == batch + " "
  {
    batch + " " + IntToString(start) + " - " + IntToString(start + amount)
  }

  /** Within one batch, the label gives back the first and the last key. */
  lemma HoldingLabelInjective(batch: string, start: int, amount: int, start': int, amount': int)
    requires HoldingLabel(batch, start, amount) == HoldingLabel(batch, start', amount')
    ensures start == start' && start + amount == start' + amount'
  {
    var x, x' := IntToString(start), IntToString(start');
    var y, y' := IntToString(start + amount), IntToString(start' + amount');
    SplitAtDash(batch + " ", x, y, x', y');
    IntToStringInjective(start, start');
    IntToStringInjective(start + amount, start' + amount');
  }

  /** `p + x + " - " + y` determines `x` and `y` when `x` has no space. */
  lemma SplitAtDash(p: string, x: string, y: string, x': string, y': string)
    requires forall k :: 0 <= k < |x| ==> x[k] != ' '
    requires forall k :: 0 <= k < |x'| ==> x'[k] != ' '
    requires p + x + " - " + y == p + x' + " - " + y'
    ensures x == x' && y == y'
  {
    var s := p + x + " - " + y;
    var n := |p|;
    assert s[n..] == x + (" - " + y);
    assert s[n..] == x' + (" - " + y') by { assert s == p + x' + " - " + y'; }
    FirstSpaceAfter(x, " - " + y);
    FirstSpaceAfter(x', " - " + y');
    assert x == s[n..][..|x|] == x';
    assert y == s[n..][|x| + 3..] == y';
  }

  /** The position of the first space of `s`, or `|s|` when there is none. */
  function FirstSpace(s: string): (k: nat)
    ensures k <= |s|
  {
    if |s| == 0 || s[0] == ' ' then 0 else 1 + FirstSpace(s[1..])
  }

  lemma {:induction false} FirstSpaceAfter(x: string, t: string)
    requires forall k :: 0 <= k < |x| ==> x[k] != ' '
    requires |t| > 0 && t[0] == ' '
    ensures FirstSpace(x + t) == |x|
  {
    if |x| > 0 {
      assert (x + t)[1..] == x[1..] + t;
      FirstSpaceAfter(x[1..], t);
    } else {
      assert x + t == t;
    }
  }

  /** The unit rows after `/accept` gave the `count` units keyed `start + 1` to
      `start + count` to `consumerId` under batch `regoGroupId`. Keys without a row
      are skipped, as an UPDATE matching no row is. */
  function Reassigned(regos: map<int, Rego>, start: int, count: nat, consumerId: int, regoGroupId: int)
    : (r: map<int, Rego>)
    ensures r.Keys == regos.Keys
    ensures forall k :: k in regos && start < k <= start + count ==>
              r[k] == regos[k].(consumerId := Some(consumerId), regoGroupId := regoGroupId)
    ensures forall k :: k in regos && !(start < k <= start + count) ==> r[k] == regos[k]
  {
    map k | k in regos ::
      if start < k <= start + count then regos[k].(consumerId := Some(consumerId), regoGroupId := regoGroupId)
      else regos[k]
  }

  /** The batch after `/accept`: what it has left is recomputed from its ISSUED
      amount, and it ends trading exactly when that is zero. */
  function AcceptedGroup(group: RegoGroup, buyingAmount: int): (g: RegoGroup)
    ensures g.remainingGenerationAmount == group.issuedGenerationAmount - buyingAmount
    ensures g.tradingStatus == End <==> group.issuedGenerationAmount == buyingAmount
    ensures g.tradingStatus != End ==> g.tradingStatus == Trading
    ensures g.status == group.status
    ensures g == group.(remainingGenerationAmount := g.remainingGenerationAmount, tradingStatus := g.tradingStatus)
  {
    var remaining := group.issuedGenerationAmount - buyingAmount;
    group.(remainingGenerationAmount := remaining, tradingStatus := if remaining == 0 then End else Trading)
  }

  /** `POST /rego-trade-info/accept`, as written: the application is set to
      `approve` whatever its status; then, if its batch exists, the batch is updated
      by `AcceptedGroup`, one holding of the bought amount is created for the buyer,
      and the units keyed `start + 1` .. `start + buyingAmount` are reassigned, where
      `start` is issued minus remaining before the update. */
  function Accept(db: Db, regoTradeInfoId: int): (r: Outcome)
    ensures regoTradeInfoId !in db.trades.rows ==> r == Outcome(db, Failure(RowNotFound))
    ensures regoTradeInfoId in db.trades.rows ==>
              r.db.trades == db.trades.Update(regoTradeInfoId, db.trades.rows[regoTradeInfoId].(tradingApplicationStatus := Approve))
    ensures r.response.Succeeded() <==>
              regoTradeInfoId in db.trades.rows && db.trades.rows[regoTradeInfoId].regoGroupId in db.groups.rows
    ensures regoTradeInfoId in db.trades.rows && !r.response.Succeeded() ==> r.db == db.(trades := r.db.trades)
    ensures r.response.Succeeded() ==>
              var trade := db.trades.rows[regoTradeInfoId];
              var group := db.groups.rows[trade.regoGroupId];
              var start := group.issuedGenerationAmount - group.remainingGenerationAmount;
              && r.db.groups == db.groups.Update(trade.regoGroupId, AcceptedGroup(group, trade.buyingAmount))
              && r.db.buyingRegos == db.buyingRegos.Insert(BuyingRego(
                   trade.regoGroupId, trade.consumerId, trade.buyingAmount,
                   HoldingLabel(group.identificationNumber, start, trade.buyingAmount),
                   Active, None, None))
              && r.db.regos == db.regos.(rows := Reassigned(db.regos.rows, start, ArrayLength(trade.buyingAmount),
                                                            trade.consumerId, trade.regoGroupId))
              && r.db == db.(trades := r.db.trades, groups := r.db.groups, buyingRegos := r.db.buyingRegos,
                             regos := r.db.regos)
    ensures db.Valid() ==> r.db.Valid()
  {
    if regoTradeInfoId !in db.trades.rows then
      Outcome(db, Failure(RowNotFound))
    else
      var trade := db.trades.rows[regoTradeInfoId];
      var approved := db.(trades := db.trades.Update(regoTradeInfoId, trade.(tradingApplicationStatus := Approve)));
      if trade.regoGroupId !in db.groups.rows then
        Outcome(approved, Failure(RowNotFound))
      else
        Outcome(Settle(approved, trade), Success)
  }

  /** The part of `/accept` after the application was approved, once the batch
      `trade` buys from is found. */
  function Settle(db: Db, trade: RegoTradeInfo): (r: Db)
    requires trade.regoGroupId in db.groups.rows
    ensures var group := db.groups.rows[trade.regoGroupId];
            var start := group.issuedGenerationAmount - group.remainingGenerationAmount;
            && r.groups == db.groups.Update(trade.regoGroupId, AcceptedGroup(group, trade.buyingAmount))
            && r.buyingRegos == db.buyingRegos.Insert(BuyingRego(
                 trade.regoGroupId, trade.consumerId, trade.buyingAmount,
                 HoldingLabel(group.identificationNumber, start, trade.buyingAmount),
                 Active, None, None))
            && r.regos == db.regos.(rows := Reassigned(db.regos.rows, start, ArrayLength(trade.buyingAmount),
                                                       trade.consumerId, trade.regoGroupId))
            && r == db.(groups := r.groups, buyingRegos := r.buyingRegos, regos := r.regos)
    ensures db.Valid() ==> r.Valid()
  {
    var group := db.groups.rows[trade.regoGroupId];
    var start := group.issuedGenerationAmount - group.remainingGenerationAmount;
    var holding := BuyingRego(
      trade.regoGroupId, trade.consumerId, trade.buyingAmount,
      HoldingLabel(group.identificationNumber, start, trade.buyingAmount),
      Active, None, None);
    db.(groups := db.groups.Update(trade.regoGroupId, AcceptedGroup(group, trade.buyingAmount)),
        buyingRegos := db.buyingRegos.Insert(holding),
        regos := db.regos.(rows := Reassigned(db.regos.rows, start, ArrayLength(trade.buyingAmount),
                                              trade.consumerId, trade.regoGroupId)))
  }

  /** The per-unit UPDATE loop of `/accept`, for `regoId` = 1 .. `count`. */
  method ReassignUnits(regos: map<int, Rego>, start: int, count: nat, consumerId: int, regoGroupId: int)
    returns (result: map<int, Rego>)
    ensures result == Reassigned(regos, start, count, consumerId, regoGroupId)
  {
    result := regos;
    for regoId := 1 to count + 1
      invariant result == Reassigned(regos, start, regoId - 1, consumerId, regoGroupId)
    {
      var key := start + regoId;
      if key in result {
        result := result[key := result[key].(consumerId := Some(consumerId), regoGroupId := regoGroupId)];
      }
    }
  }

  /** The group update, the holding insert and the unit loop of `/accept`, over
      the store. */
  method SettleTrade(store: Store, trade: RegoTradeInfo)
    requires store.Valid() && trade.regoGroupId in store.groups
    modifies store
    ensures store.Valid()
    ensures store.Snapshot() == Settle(old(store.Snapshot()), trade)
  {
    var group := store.groups[trade.regoGroupId];
    store.groups := store.groups[trade.regoGroupId := AcceptedGroup(group, trade.buyingAmount)];
    var startNumber := group.issuedGenerationAmount - group.remainingGenerationAmount;
    var holdingId := store.nextBuyingRegoId;
    store.buyingRegos := store.buyingRegos[holdingId := BuyingRego(
      trade.regoGroupId, trade.consumerId, trade.buyingAmount,
      HoldingLabel(group.identificationNumber, startNumber, trade.buyingAmount),
      Active, None, None)];
    store.nextBuyingRegoId := holdingId + 1;
    store.regos := ReassignUnits(store.regos, startNumber, ArrayLength(trade.buyingAmount),
                                 trade.consumerId, trade.regoGroupId);
  }

  method PostAccept(store: Store, regoTradeInfoId: int) returns (response: Response)
    requires store.Valid()
    modifies store
    ensures store.Valid()
    ensures Outcome(store.Snapshot(), response) == Accept(old(store.Snapshot()), regoTradeInfoId)
  {
    if regoTradeInfoId !in store.trades {
      return Failure(RowNotFound);
    }
    var trade := store.trades[regoTradeInfoId];
    store.trades := store.trades[regoTradeInfoId := trade.(tradingApplicationStatus := Approve)];
    if trade.regoGroupId !in store.groups {
      return Failure(RowNotFound);
    }
    SettleTrade(store, trade);
    response := Success;
  }

  /** Accepting is not guarded by the application's status: an application that
      was refused or cancelled is approved all the same. */
  lemma {:induction false} AcceptIgnoresStatus(db: Db, id: int)
    requires id in db.trades.rows && db.trades.rows[id].regoGroupId in db.groups.rows
    ensures Accept(db, id).response == Success
    ensures Accept(db, id).db.trades.rows[id].tradingApplicationStatus == Approve
  {
  }

  /** Accepting the same application twice succeeds twice and leaves the batch as
      the first acceptance left it, but creates a second holding of the same
      amount: what was bought is counted twice. */
  lemma {:induction false} AcceptTwiceDuplicatesHolding(db: Db, id: int)
    requires db.Valid()
    requires id in db.trades.rows && db.trades.rows[id].regoGroupId in db.groups.rows
    ensures var once := Accept(db, id).db;
            var twice := Accept(once, id);
            && twice.response == Success
            && twice.db.groups == once.groups
            && db.buyingRegos.nextId in twice.db.buyingRegos.rows
            && once.buyingRegos.nextId in twice.db.buyingRegos.rows
            && db.buyingRegos.nextId != once.buyingRegos.nextId
            && twice.db.buyingRegos.rows[db.buyingRegos.nextId].buyingAmount == db.trades.rows[id].buyingAmount
            && twice.db.buyingRegos.rows[once.buyingRegos.nextId].buyingAmount == db.trades.rows[id].buyingAmount
  {
    var once := Accept(db, id).db;
    assert once.trades.rows[id].regoGroupId == db.trades.rows[id].regoGroupId;
    assert once.trades.rows[id].buyingAmount == db.trades.rows[id].buyingAmount;
  }

  /** The unit UPDATE matches units by their key alone, with no batch filter, and
      `start` counts what the bought batch has sold, not where its units begin.
      With the units of batch 1 keyed 1-2 and those of batch 2 keyed 3-4, buying
      one unit of batch 2 hands the buyer unit 1 of batch 1, moved under batch 2,
      and leaves batch 2's own units unowned. */
  lemma AcceptTakesAnotherBatchsUnits()
    ensures var a := RegoGroup(1, 1, "A", Active, Trading, "2024-01", 2, 2, 0, 3, Some(0));
            var b := RegoGroup(1, 1, "B", Active, Trading, "2024-01", 2, 2, 0, 3, Some(0));
            var trade := RegoTradeInfo(1, 7, 1, 2, "B", Pending, 1, 1.0, 0, None, None);
            var db := Db(Table(map[1 := a, 2 := b], 3),
                         Table(map[1 := Rego(1, "A - 1", None), 2 := Rego(1, "A - 2", None),
                                   3 := Rego(2, "B - 1", None), 4 := Rego(2, "B - 2", None)], 5),
                         Table(map[1 := trade], 2), Table(map[], 1), Table(map[], 1), Table(map[], 1),
                         map[], map[]);
            var r := Accept(db, 1);
            && r.response == Success
            && r.db.regos.rows[1] == Rego(2, "A - 1", Some(7))
            && r.db.regos.rows[3] == Rego(2, "B - 1", None)
            && r.db.regos.rows[4] == Rego(2, "B - 2", None)
  {
  }

  // ---------------------------------------------------------------- listing order

  /** A nullable date as JavaScript subtracts it: `null` counts as 0. */
  function DateValue(d: Option<Time>): Time {
    if d.Some? then d.value else 0
  }

  /** The date `GET /` orders applications by. */
  function ListingDate(filter: Option<TradingApplicationStatus>, t: RegoTradeInfo): Time {
    if filter == Some(Approve) then DateValue(t.tradeCompletedDate) else t.buyingApplicationDate
  }

  /** The comparator `GET /` hands to `Array.prototype.sort`. Its third `return`
      cannot be reached and is left out. */
  function CompareForListing(filter: Option<TradingApplicationStatus>, a: RegoTradeInfo, b: RegoTradeInfo): (r: int)
    ensures r < 0 <==> ListingDate(filter, a) > ListingDate(filter, b)
    ensures r == 0 <==> ListingDate(filter, a) == ListingDate(filter, b)
  {
    if filter != Some(Approve) then b.buyingApplicationDate - a.buyingApplicationDate
    else DateValue(b.tradeCompletedDate) - DateValue(a.tradeCompletedDate)
  }

  /** A consistent comparator, so the sort is well defined: it is antisymmetric
      and its "not after" relation is transitive. */
  lemma ComparatorIsConsistent(filter: Option<TradingApplicationStatus>, a: RegoTradeInfo, b: RegoTradeInfo, c: RegoTradeInfo)
    ensures CompareForListing(filter, a, b) == -CompareForListing(filter, b, a)
    ensures CompareForListing(filter, a, b) <= 0 && CompareForListing(filter, b, c) <= 0 ==>
              CompareForListing(filter, a, c) <= 0
  {
  }

  /** What a sort by the comparator delivers. */
  ghost predicate SortedForListing(filter: Option<TradingApplicationStatus>, rows: seq<RegoTradeInfo>) {
    forall i, j :: 0 <= i < j < |rows| ==> CompareForListing(filter, rows[i], rows[j]) <= 0
  }

  /** Sorted by the comparator means: latest completion first when the status filter
      is `approve`, latest application first otherwise. */
  lemma SortedListingIsNewestFirst(filter: Option<TradingApplicationStatus>, rows: seq<RegoTradeInfo>)
    ensures SortedForListing(filter, rows) <==>
              if filter == Some(Approve) then
                forall i, j :: 0 <= i < j < |rows| ==> DateValue(rows[i].tradeCompletedDate) >= DateValue(rows[j].tradeCompletedDate)
              else
                forall i, j :: 0 <= i < j < |rows| ==> rows[i].buyingApplicationDate >= rows[j].buyingApplicationDate
  {
  }
}
