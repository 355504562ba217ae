/** The batch routes of a provider: `/rego/issue` turns generation records into
    certificate batches (REGO_GROUP) and their units (REGO), and `/rego/sell` puts
    batches on sale. `GenerateUniqueId` is the batch serial generator. */
module RegoController {
  import opened Tables
  import opened Decimal
  import opened Database

  // ---------------------------------------------------------------- serial numbers

  const RANDOM_CHAR: string := "ABCDEFGHIJKLMNOPQRSTUVWXYZ0123456789"

  /** The length `generateUniqueId` uses when called without one. */
  const DEFAULT_ID_LENGTH: nat := 8

  /** `Math.floor(random * RANDOM_CHAR.length)` for one draw of `Math.random()`. */
  function RandomIndex(random: real): (k: nat)
    requires 0.0 <= random < 1.0
    ensures k < |RANDOM_CHAR|
    ensures k as real <= random * 36.0 < k as real + 1.0
  {
    (random * 36.0).Floor
  }

  /** A sequence of draws of `Math.random()`. */
  ghost predicate Draws(randoms: seq<real>) {
    forall i :: 0 <= i < |randoms| ==> 0.0 <= randoms[i] < 1.0
  }

  /** `generateUniqueId(length)`, with the draws of `Math.random()` it makes passed
      in: one character of the alphabet per draw, appended in order. Nothing
      prevents two batches from drawing the same serial. */
  method GenerateUniqueId(length: nat, randoms: seq<real>) returns (result: string)
    requires |randoms| >= length && Draws(randoms)
    ensures |result| == length
    ensures forall i :: 0 <= i < length ==> result[i] == RANDOM_CHAR[RandomIndex(randoms[i])]
    ensures forall i :: 0 <= i < |result| ==> result[i] in RANDOM_CHAR
  {
    result := "";
    for i := 0 to length
      invariant |result| == i
      invariant forall j :: 0 <= j < i ==> result[j] == RANDOM_CHAR[RandomIndex(randoms[j])]
    {
      var randomIndex := RandomIndex(randoms[i]);
      result := result + [RANDOM_CHAR[randomIndex]];
    }
  }

  // ---------------------------------------------------------------- issue

  /** One element of `issuedRegoList`. */
  datatype IssueItem = IssueItem(
    providerId: int,
    plantId: int,
    electricityProductionPeriod: string,
    issuedGenerationAmount: int,
    remainingGenerationAmount: int,
    issuedStatus: Yn)

  /** "Add `years` years" to a timestamp, as `dayjs().add(years, 'year')` does. */
  type AddYears = (Time, int) -> Time

  /** The two `dayjs()` readings the map makes for one item: the issue date, and
      the instant the three years of validity are added to. */
  datatype ItemClock = ItemClock(issued: Time, expiryBase: Time)

  /** The REGO_GROUP row `/issue` builds for one item, under serial `batch`. */
  function GroupRow(item: IssueItem, batch: string, clock: ItemClock, addYears: AddYears): (g: RegoGroup)
    ensures g.status == Active && g.tradingStatus == Before
    ensures g.providerId == item.providerId && g.plantId == item.plantId
    ensures g.electricityProductionPeriod == item.electricityProductionPeriod
    ensures g.issuedGenerationAmount == item.issuedGenerationAmount
    ensures g.remainingGenerationAmount == item.remainingGenerationAmount
    ensures g.identificationNumber == batch
    ensures g.issuedDate == clock.issued && g.expiredDate == addYears(clock.expiryBase, 3)
    ensures g.transactionRegistrationDate == None
  {
    RegoGroup(item.providerId, item.plantId, batch, Active, Before, item.electricityProductionPeriod,
              item.issuedGenerationAmount, item.remainingGenerationAmount,
              clock.issued, addYears(clock.expiryBase, 3), None)
  }

  /** The group rows for all items, in input order. */
  function GroupRows(items: seq<IssueItem>, batches: seq<string>, clocks: seq<ItemClock>, addYears: AddYears)
    : (rows: seq<RegoGroup>)
    requires |batches| == |items| && |clocks| == |items|
    ensures |rows| == |items|
    ensures forall i :: 0 <= i < |items| ==> rows[i] == GroupRow(items[i], batches[i], clocks[i], addYears)
  {
    seq(|items|, i requires 0 <= i < |items| => GroupRow(items[i], batches[i], clocks[i], addYears))
  }

  /** `Array.from({ length: Number(amount) })` has no element when the amount is
      negative. */
  function UnitCount(amount: int): nat {
    if amount < 0 then 0 else amount
  }

  /** The identifier of unit `k` of a batch: `<batch> - <k>`. */
  function UnitLabel(batch: string, k: nat): (s: string)
    ensures |s| > |batch| + 3 && s[..|batch| + 3] == batch + " - "
  {
    batch + " - " + NatToString(k)
  }

  lemma UnitLabelInjective(batch: string, k: nat, l: nat)
    requires UnitLabel(batch, k) == UnitLabel(batch, l)
    ensures k == l
  {
    var prefix := batch + " - ";
    assert UnitLabel(batch, k) == prefix + NatToString(k);
    assert NatToString(k) == UnitLabel(batch, k)[|prefix|..];
    assert NatToString(l) == UnitLabel(batch, l)[|prefix|..];
    NatToStringInjective(k, l);
  }

  /** The unit rows of one batch: `count` rows numbered 1 .. `count`, all pointing
      to the batch, owned by nobody. */
  function UnitRows(regoGroupId: int, batch: string, count: nat): (rows: seq<Rego>)
    ensures |rows| == count
    ensures forall k :: 0 <= k < count ==> rows[k] == Rego(regoGroupId, UnitLabel(batch, k + 1), None)
  {
    seq(count, k requires 0 <= k < count => Rego(regoGroupId, UnitLabel(batch, k + 1), None))
  }

  /** The units of a batch carry pairwise distinct identifiers. */
  lemma UnitRowsDistinct(regoGroupId: int, batch: string, count: nat, i: nat, j: nat)
    requires i < j < count
    ensures UnitRows(regoGroupId, batch, count)[i].identificationNumber
            != UnitRows(regoGroupId, batch, count)[j].identificationNumber
  {
    if UnitLabel(batch, i + 1) == UnitLabel(batch, j + 1) {
      UnitLabelInjective(batch, i + 1, j + 1);
    }
  }

  /** How many units the batches `groups` have, together. */
  function TotalUnits(groups: seq<RegoGroup>): nat
    decreases |groups|
  {
    if |groups| == 0 then 0
    else TotalUnits(groups[..|groups| - 1]) + UnitCount(groups[|groups| - 1].issuedGenerationAmount)
  }

  /** What the `/issue` unit loop inserts for the batches `groups` whose ids are
      `firstId`, `firstId + 1`, ...: the unit rows of each in turn. */
  function AllUnitRows(firstId: int, groups: seq<RegoGroup>): (rows: seq<Rego>)
    ensures |rows| == TotalUnits(groups)
    decreases |groups|
  {
    if |groups| == 0 then []
    else
      var last := |groups| - 1;
      AllUnitRows(firstId, groups[..last])
        + UnitRows(firstId + last, groups[last].identificationNumber, UnitCount(groups[last].issuedGenerationAmount))
  }

  /** The units of batch `i` are the `TotalUnits(groups[..i])`-th rows onwards:
      batch `i`'s unit `k` is `<batch i> - <k + 1>`, pointing to batch id
      `firstId + i`. */
  lemma {:induction false} AllUnitRowsLayout(firstId: int, groups: seq<RegoGroup>, i: nat, k: nat)
    requires i < |groups| && k < UnitCount(groups[i].issuedGenerationAmount)
    ensures TotalUnits(groups[..i]) + k < |AllUnitRows(firstId, groups)|
    ensures AllUnitRows(firstId, groups)[TotalUnits(groups[..i]) + k]
            == Rego(firstId + i, UnitLabel(groups[i].identificationNumber, k + 1), None)
    decreases |groups|
  {
    var last := |groups| - 1;
    var front := groups[..last];
    if i == last {
      assert groups[..i] == front;
      LastBatchUnits(firstId, groups, k);
    } else {
      assert front[..i] == groups[..i];
      assert front[i] == groups[i];
      AllUnitRowsLayout(firstId, front, i, k);
      FrontBatchUnits(firstId, groups, TotalUnits(groups[..i]) + k);
    }
  }

  /** The units of the last batch close `AllUnitRows`. */
  lemma LastBatchUnits(firstId: int, groups: seq<RegoGroup>, k: nat)
    requires |groups| > 0 && k < UnitCount(groups[|groups| - 1].issuedGenerationAmount)
    ensures TotalUnits(groups[..|groups| - 1]) + k < |AllUnitRows(firstId, groups)|
    ensures AllUnitRows(firstId, groups)[TotalUnits(groups[..|groups| - 1]) + k]
            == Rego(firstId + |groups| - 1, UnitLabel(groups[|groups| - 1].identificationNumber, k + 1), None)
  {
    var last := |groups| - 1;
    var prefix := AllUnitRows(firstId, groups[..last]);
    var lastRows := UnitRows(firstId + last, groups[last].identificationNumber, UnitCount(groups[last].issuedGenerationAmount));
    assert AllUnitRows(firstId, groups) == prefix + lastRows;
    assert (prefix + lastRows)[|prefix| + k] == lastRows[k];
  }

  /** The units of the batches before the last open `AllUnitRows`. */
  lemma FrontBatchUnits(firstId: int, groups: seq<RegoGroup>, index: nat)
    requires |groups| > 0 && index < |AllUnitRows(firstId, groups[..|groups| - 1])|
    ensures index < |AllUnitRows(firstId, groups)|
    ensures AllUnitRows(firstId, groups)[index] == AllUnitRows(firstId, groups[..|groups| - 1])[index]
  {
    var last := |groups| - 1;
    var prefix := AllUnitRows(firstId, groups[..last]);
    var lastRows := UnitRows(firstId + last, groups[last].identificationNumber, UnitCount(groups[last].issuedGenerationAmount));
    assert AllUnitRows(firstId, groups) == prefix + lastRows;
  }

  /** A prefix has no more units than the whole. */
  lemma {:induction false} TotalUnitsPrefix(groups: seq<RegoGroup>, i: nat)
    requires i <= |groups|
    ensures TotalUnits(groups[..i]) <= TotalUnits(groups)
    decreases |groups|
  {
    if i < |groups| {
      var last := |groups| - 1;
      assert groups[..|groups|][..last] == groups[..last];
      assert groups[..last][..i] == groups[..i];
      TotalUnitsPrefix(groups[..last], i);
    } else {
      assert groups[..i] == groups;
    }
  }

  /** Does any item carry issuedStatus `y`? */
  predicate AnyIssued(items: seq<IssueItem>) {
    exists i :: 0 <= i < |items| && items[i].issuedStatus == Y
  }

  /** Does every batch get at least one unit? `Array.from({ length: amount })`
      is empty for an amount that is not positive. */
  predicate EveryBatchHasUnits(groups: seq<RegoGroup>) {
    forall i :: 0 <= i < |groups| ==> groups[i].issuedGenerationAmount > 0
  }

  /** The tables after the rows of `groups` were inserted into REGO_GROUP under
      consecutive ids from the next REGO_GROUP id on, and the unit rows of every
      group after them into REGO, in input order. */
  function InsertIssued(db: Db, groups: seq<RegoGroup>): (r: Db)
    ensures db.Valid() ==> r.Valid()
  {
    db.(groups := db.groups.InsertAll(groups),
        regos := db.regos.InsertAll(AllUnitRows(db.groups.nextId, groups)))
  }

  /** The two bulk inserts of `/issue` for the batches `groups`, whose every
      `executeMany` the driver refuses, by throwing, when handed no rows. The
      batches are committed by the first insert (`autoCommit`); the units only by
      the commit after the loop. A throw leaves the request unanswered. */
  function IssueRows(db: Db, groups: seq<RegoGroup>): (r: Outcome)
    ensures r.response.Succeeded() <==> |groups| > 0 && EveryBatchHasUnits(groups)
    ensures r.response.Succeeded() ==> r == Outcome(InsertIssued(db, groups), Success)
    ensures !r.response.Succeeded() ==> r == Outcome(db.(groups := db.groups.InsertAll(groups)), Unanswered)
    ensures db.Valid() ==> r.db.Valid()
  {
    if |groups| == 0 then
      assert db.groups.InsertAll(groups) == db.groups;
      Outcome(db, Unanswered)
    else if !EveryBatchHasUnits(groups) then
      Outcome(db.(groups := db.groups.InsertAll(groups)), Unanswered)
    else
      Outcome(InsertIssued(db, groups), Success)
  }

  /** `POST /rego/issue`, with `batches[i]` the serial drawn for item `i` and
      `clocks[i]` its two clock readings. An item marked `y` makes the request
      fail with nothing inserted. Otherwise the batches of all items are
      committed; the request then succeeds, with every batch's units, exactly when
      there was an item and every item has a positive amount, and is otherwise
      left unanswered without units. */
  function Issue(db: Db, items: seq<IssueItem>, batches: seq<string>, clocks: seq<ItemClock>, addYears: AddYears)
    : (r: Outcome)
    requires |batches| == |items| && |clocks| == |items|
    ensures r.response == Failure(AlreadyIssued) <==> AnyIssued(items)
    ensures r.response.Succeeded() <==>
              && |items| > 0 && !AnyIssued(items)
              && forall i :: 0 <= i < |items| ==> items[i].issuedGenerationAmount > 0
    ensures r.response in {Success, Unanswered, Failure(AlreadyIssued)}
    ensures AnyIssued(items) ==> r.db == db
    ensures !AnyIssued(items) ==>
              && r.db.groups == db.groups.InsertAll(GroupRows(items, batches, clocks, addYears))
              && r.db.groups.nextId == db.groups.nextId + |items|
    ensures r.response == Unanswered ==> r.db == db.(groups := r.db.groups)
    ensures r.response.Succeeded() ==>
              && r.db == db.(groups := r.db.groups, regos := r.db.regos)
              && r.db.regos == db.regos.InsertAll(AllUnitRows(db.groups.nextId, GroupRows(items, batches, clocks, addYears)))
              && r.db.regos.nextId == db.regos.nextId + TotalUnits(GroupRows(items, batches, clocks, addYears))
    ensures db.Valid() ==> r.db.Valid()
  {
    if AnyIssued(items) then
      Outcome(db, Failure(AlreadyIssued))
    else
      IssueRows(db, GroupRows(items, batches, clocks, addYears))
  }

  /** What an issuance with no item marked `y` leaves in REGO_GROUP, answered or
      not: item `i` became the batch with id `nextGroupId + i`, active and not on
      sale, issued at the item's first clock reading and expiring three years after
      its second, holding the item's amounts and the item's serial; the batches
      that were there before are untouched. */
  lemma {:induction false} IssuedGroups(db: Db, items: seq<IssueItem>, batches: seq<string>, clocks: seq<ItemClock>,
                                        addYears: AddYears, i: nat)
    requires db.Valid()
    requires |batches| == |items| && |clocks| == |items| && !AnyIssued(items)
    requires i < |items|
    ensures var after := Issue(db, items, batches, clocks, addYears).db;
            var id := db.groups.nextId + i;
            && id in after.groups.rows && id !in db.groups.rows
            && after.groups.rows[id].status == Active
            && after.groups.rows[id].tradingStatus == Before
            && after.groups.rows[id].issuedGenerationAmount == items[i].issuedGenerationAmount
            && after.groups.rows[id].remainingGenerationAmount == items[i].remainingGenerationAmount
            && after.groups.rows[id].identificationNumber == batches[i]
            && after.groups.rows[id].issuedDate == clocks[i].issued
            && after.groups.rows[id].expiredDate == addYears(clocks[i].expiryBase, 3)
            && (forall g :: g in db.groups.rows ==> g in after.groups.rows && after.groups.rows[g] == db.groups.rows[g])
  {
    var groups := GroupRows(items, batches, clocks, addYears);
    var after := Issue(db, items, batches, clocks, addYears).db;
    assert after.groups.rows == InsertAt(db.groups.rows, db.groups.nextId, groups);
    var id := db.groups.nextId + i;
    InsertAtNew(db.groups.rows, db.groups.nextId, groups, id);
    assert after.groups.rows[id] == GroupRow(items[i], batches[i], clocks[i], addYears);
    forall g | g in db.groups.rows
      ensures g in after.groups.rows && after.groups.rows[g] == db.groups.rows[g]
    {
      InsertAtOld(db.groups.rows, db.groups.nextId, groups, g);
    }
  }

  /** After a bulk insert into a table, the highest key is the last inserted row
      and the block `LastIds` computes from it names the inserted rows in order. */
  lemma LastRowsAreTheBatch(t: Table<RegoGroup>, groups: seq<RegoGroup>)
    requires t.Valid() && |groups| > 0
    ensures var after := t.InsertAll(groups);
            var lastId := after.nextId - 1;
            && lastId in after.rows
            && (forall g :: g in after.rows ==> g <= lastId)
            && forall i :: 0 <= i < |groups| ==>
                 LastIds(lastId, |groups|)[i] == t.nextId + i
                 && t.nextId + i in after.rows
                 && after.rows[t.nextId + i] == groups[i]
  {
    var after := t.InsertAll(groups);
    var lastId := after.nextId - 1;
    InsertAtNew(t.rows, t.nextId, groups, lastId);
    forall g | g in after.rows
      ensures g <= lastId
    {
      InsertAtKeys(t.rows, t.nextId, groups, g);
    }
    forall i | 0 <= i < |groups|
      ensures LastIds(lastId, |groups|)[i] == t.nextId + i
      ensures t.nextId + i in after.rows && after.rows[t.nextId + i] == groups[i]
    {
      InsertAtNew(t.rows, t.nextId, groups, t.nextId + i);
    }
  }

  /** What a successful issuance leaves in REGO: unit `k` (from 1 to the issued
      amount) of item `i` points to the batch with id `nextGroupId + i` and is
      labelled `<serial> - <k>`; the units of item `i` follow those of the items
      before it; the units that were there before are untouched. */
  lemma {:induction false} IssuedUnits(db: Db, items: seq<IssueItem>, batches: seq<string>, clocks: seq<ItemClock>,
                                       addYears: AddYears, i: nat, k: nat)
    requires db.Valid()
    requires |batches| == |items| && |clocks| == |items| && !AnyIssued(items)
    requires forall j :: 0 <= j < |items| ==> items[j].issuedGenerationAmount > 0
    requires i < |items| && 1 <= k <= UnitCount(items[i].issuedGenerationAmount)
    ensures var after := Issue(db, items, batches, clocks, addYears).db;
            var unit := db.regos.nextId + TotalUnits(GroupRows(items, batches, clocks, addYears)[..i]) + k - 1;
            && unit in after.regos.rows && unit !in db.regos.rows
            && after.regos.rows[unit] == Rego(db.groups.nextId + i, UnitLabel(batches[i], k), None)
            && (forall u :: u in db.regos.rows ==> u in after.regos.rows && after.regos.rows[u] == db.regos.rows[u])
  {
    var groups := GroupRows(items, batches, clocks, addYears);
    assert Issue(db, items, batches, clocks, addYears).db == InsertIssued(db, groups);
    assert groups[i].identificationNumber == batches[i];
    assert groups[i].issuedGenerationAmount == items[i].issuedGenerationAmount;
    InsertedUnit(db, groups, i, k);
    InsertedKeepsUnits(db, groups);
  }

  /** Unit `k` of group `i` lands after the units of the groups before it. */
  lemma InsertedUnit(db: Db, groups: seq<RegoGroup>, i: nat, k: nat)
    requires db.Valid()
    requires i < |groups| && 1 <= k <= UnitCount(groups[i].issuedGenerationAmount)
    ensures db.regos.nextId + TotalUnits(groups[..i]) + k - 1 in InsertIssued(db, groups).regos.rows
    ensures db.regos.nextId + TotalUnits(groups[..i]) + k - 1 !in db.regos.rows
    ensures InsertIssued(db, groups).regos.rows[db.regos.nextId + TotalUnits(groups[..i]) + k - 1]
            == Rego(db.groups.nextId + i, UnitLabel(groups[i].identificationNumber, k), None)
  {
    var units := AllUnitRows(db.groups.nextId, groups);
    AllUnitRowsLayout(db.groups.nextId, groups, i, k - 1);
    InsertAtNew(db.regos.rows, db.regos.nextId, units, db.regos.nextId + TotalUnits(groups[..i]) + k - 1);
  }

  /** The bulk inserts leave the units that were there before as they were. */
  lemma InsertedKeepsUnits(db: Db, groups: seq<RegoGroup>)
    requires db.Valid()
    ensures forall u :: u in db.regos.rows ==>
              u in InsertIssued(db, groups).regos.rows && InsertIssued(db, groups).regos.rows[u] == db.regos.rows[u]
  {
    forall u | u in db.regos.rows
      ensures u in InsertIssued(db, groups).regos.rows && InsertIssued(db, groups).regos.rows[u] == db.regos.rows[u]
    {
      InsertAtOld(db.regos.rows, db.regos.nextId, AllUnitRows(db.groups.nextId, groups), u);
    }
  }

  /** The id block `/issue` computes from `MAX(REGO_GROUP_ID)` after the insert:
      `LAST_ID - n + index + 1` for index 0 .. n-1. */
  function LastIds(lastId: int, n: nat): (ids: seq<int>)
    ensures |ids| == n
    ensures forall i :: 0 <= i < n ==> ids[i] == lastId - n + i + 1
  {
    seq(n, index => lastId - n + index + 1)
  }

  /** Issuance makes the new groups the highest ids in REGO_GROUP, so `LastIds`
      names them, in input order. */
  lemma {:induction false} LastIdsAreTheNewGroups(db: Db, items: seq<IssueItem>, batches: seq<string>,
                                                  clocks: seq<ItemClock>, addYears: AddYears)
    requires db.Valid()
    requires |batches| == |items| && |clocks| == |items| && |items| > 0 && !AnyIssued(items)
    ensures var after := Issue(db, items, batches, clocks, addYears).db;
            var lastId := after.groups.nextId - 1;
            && lastId in after.groups.rows
            && (forall g :: g in after.groups.rows ==> g <= lastId)
            && forall i :: 0 <= i < |items| ==>
                 LastIds(lastId, |items|)[i] == db.groups.nextId + i
                 && LastIds(lastId, |items|)[i] in after.groups.rows
                 && after.groups.rows[LastIds(lastId, |items|)[i]] == GroupRow(items[i], batches[i], clocks[i], addYears)
  {
    var groups := GroupRows(items, batches, clocks, addYears);
    assert Issue(db, items, batches, clocks, addYears).db.groups == db.groups.InsertAll(groups);
    LastRowsAreTheBatch(db.groups, groups);
  }

  /** The serials the `map` over `issuedRegoList` draws, one per item, in order;
      `randoms[i]` are the draws of `Math.random()` made for item `i`. */
  method DrawSerials(randoms: seq<seq<real>>) returns (batches: seq<string>)
    requires forall i :: 0 <= i < |randoms| ==> |randoms[i]| >= DEFAULT_ID_LENGTH && Draws(randoms[i])
    ensures |batches| == |randoms|
    ensures forall i :: 0 <= i < |randoms| ==> |batches[i]| == DEFAULT_ID_LENGTH
    ensures forall i, j :: 0 <= i < |randoms| && 0 <= j < DEFAULT_ID_LENGTH ==>
              Draws(randoms[i]) && batches[i][j] == RANDOM_CHAR[RandomIndex(randoms[i][j])]
  {
    batches := [];
    for i := 0 to |randoms|
      invariant |batches| == i
      invariant forall j :: 0 <= j < i ==> |batches[j]| == DEFAULT_ID_LENGTH
      invariant forall j, c :: 0 <= j < i && 0 <= c < DEFAULT_ID_LENGTH ==>
                  Draws(randoms[j]) && batches[j][c] == RANDOM_CHAR[RandomIndex(randoms[j][c])]
    {
      var identificationNumber := GenerateUniqueId(DEFAULT_ID_LENGTH, randoms[i]);
      batches := batches + [identificationNumber];
    }
  }

  /** One turn of the unit loop adds the units of group `i` after those of the
      groups before it. */
  lemma AllUnitRowsStep(firstId: int, groupRows: seq<RegoGroup>, i: nat, groupId: int)
    requires i < |groupRows| && groupId == firstId + i
    ensures AllUnitRows(firstId, groupRows[..i + 1])
            == AllUnitRows(firstId, groupRows[..i])
               + UnitRows(groupId, groupRows[i].identificationNumber, UnitCount(groupRows[i].issuedGenerationAmount))
  {
    assert groupRows[..i + 1][..i] == groupRows[..i];
  }

  /** The first `n` batches all get units. */
  ghost predicate UnitsUpTo(groups: seq<RegoGroup>, n: nat)
    requires n <= |groups|
  {
    n == 0 || (groups[n - 1].issuedGenerationAmount > 0 && UnitsUpTo(groups, n - 1))
  }

  lemma {:induction false} UnitsUpToAll(groups: seq<RegoGroup>, n: nat)
    requires n <= |groups|
    ensures UnitsUpTo(groups, n) <==> forall j :: 0 <= j < n ==> groups[j].issuedGenerationAmount > 0
  {
    if n > 0 {
      UnitsUpToAll(groups, n - 1);
    }
  }

  /** The unit loop of `/issue`: one bulk insert into REGO per group, the group
      with id `lastIds[i]` getting `Number(issuedGenerationAmount)` units. The
      first group without units stops the loop with a throw: `thrownAt` is its
      index, and `result` holds the units inserted before it. */
  method InsertUnits(regos: map<int, Rego>, nextRegoId: int, lastIds: seq<int>, groupRows: seq<RegoGroup>)
    returns (result: map<int, Rego>, next: int, thrownAt: Option<nat>)
    requires |lastIds| == |groupRows| && |lastIds| > 0
    requires forall i :: 0 <= i < |lastIds| ==> lastIds[i] == lastIds[0] + i
    ensures thrownAt.None? <==> EveryBatchHasUnits(groupRows)
    ensures thrownAt.None? ==>
              && result == InsertAt(regos, nextRegoId, AllUnitRows(lastIds[0], groupRows))
              && next == nextRegoId + TotalUnits(groupRows)
    ensures thrownAt.Some? ==>
              && thrownAt.value < |groupRows|
              && groupRows[thrownAt.value].issuedGenerationAmount <= 0
              && (forall j :: 0 <= j < thrownAt.value ==> groupRows[j].issuedGenerationAmount > 0)
              && result == InsertAt(regos, nextRegoId, AllUnitRows(lastIds[0], groupRows[..thrownAt.value]))
  {
    result, next := regos, nextRegoId;
    ghost var inserted: seq<Rego> := [];
    for i := 0 to |groupRows|
      invariant inserted == AllUnitRows(lastIds[0], groupRows[..i])
      invariant result == InsertAt(regos, nextRegoId, inserted)
      invariant next == nextRegoId + |inserted|
      invariant UnitsUpTo(groupRows, i)
    {
      var amounts := UnitCount(groupRows[i].issuedGenerationAmount);
      var insertData := UnitRows(lastIds[i], groupRows[i].identificationNumber, amounts);
      if |insertData| == 0 {
        // `executeMany` refuses an empty array of rows
        UnitsUpToAll(groupRows, i);
        return result, next, Some(i);
      }
      AllUnitRowsStep(lastIds[0], groupRows, i, lastIds[i]);
      InsertAtStep(regos, nextRegoId, inserted, result, next, insertData);
      assert UnitsUpTo(groupRows, i + 1);
      result := InsertAt(result, next, insertData);
      next := next + |insertData|;
      inserted := inserted + insertData;
    }
    assert groupRows[..|groupRows|] == groupRows;
    UnitsUpToAll(groupRows, |groupRows|);
    thrownAt := None;
  }

  /** The two bulk inserts of `/issue` and the final commit, over the store. */
  method InsertIssuedRows(store: Store, groupRows: seq<RegoGroup>) returns (response: Response)
    requires store.Valid()
    modifies store
    ensures store.Valid()
    ensures Outcome(store.Snapshot(), response) == IssueRows(old(store.Snapshot()), groupRows)
  {
    if |groupRows| == 0 {
      // `executeMany` refuses an empty array of rows
      return Unanswered;
    }
    ghost var before := store.Snapshot();
    // bulk insert into REGO_GROUP, committed at once
    var groups := Table(store.groups, store.nextGroupId).InsertAll(groupRows);
    store.groups, store.nextGroupId := groups.rows, groups.nextId;
    ghost var committed := store.Snapshot();
    assert committed == before.(groups := before.groups.InsertAll(groupRows));
    response := InsertBatchUnits(store, groupRows);
    if response == Success {
      InsertIssuedAfterBatches(before, committed, groupRows, store.Snapshot().regos);
    }
  }

  /** The unit loop of `/issue`, once the batches `groupRows` are the last rows
      of REGO_GROUP: the id block comes from `MAX(REGO_GROUP_ID)`, and the unit
      rows are committed only when every batch had units to insert. */
  method InsertBatchUnits(store: Store, groupRows: seq<RegoGroup>) returns (response: Response)
    requires store.Valid() && |groupRows| > 0
    modifies store
    ensures store.Valid()
    ensures EveryBatchHasUnits(groupRows) ==>
              && response == Success
              && store.Snapshot() == old(store.Snapshot()).(regos := old(store.Snapshot()).regos.InsertAll(
                                        AllUnitRows(old(store.nextGroupId) - |groupRows|, groupRows)))
    ensures !EveryBatchHasUnits(groupRows) ==> response == Unanswered && store.Snapshot() == old(store.Snapshot())
  {
    ghost var before := store.Snapshot();
    var lastIds := LastIds(store.nextGroupId - 1, |groupRows|);
    var regos, nextRegoId, thrownAt := InsertUnits(store.regos, store.nextRegoId, lastIds, groupRows);
    if thrownAt.Some? {
      // the unit inserts so far are never committed
      return Unanswered;
    }
    assert lastIds[0] == store.nextGroupId - |groupRows|;
    UnitsCommitted(before, lastIds[0], groupRows, regos, nextRegoId);
    store.regos, store.nextRegoId := regos, nextRegoId;
    assert store.Snapshot() == before.(regos := Table(regos, nextRegoId));
    response := Success;
  }

  /** The unit rows the loop built are the bulk insert of `AllUnitRows`. */
  lemma UnitsCommitted(before: Db, firstId: int, groupRows: seq<RegoGroup>, regos: map<int, Rego>, nextRegoId: int)
    requires before.Valid()
    requires regos == InsertAt(before.regos.rows, before.regos.nextId, AllUnitRows(firstId, groupRows))
    requires nextRegoId == before.regos.nextId + TotalUnits(groupRows)
    ensures Table(regos, nextRegoId) == before.regos.InsertAll(AllUnitRows(firstId, groupRows))
    ensures before.(regos := Table(regos, nextRegoId)).Valid()
  {
  }

  /** The units inserted after the committed batches complete `InsertIssued`. */
  lemma InsertIssuedAfterBatches(before: Db, committed: Db, groups: seq<RegoGroup>, units: Table<Rego>)
    requires committed == before.(groups := before.groups.InsertAll(groups))
    requires units == before.regos.InsertAll(AllUnitRows(before.groups.nextId, groups))
    ensures committed.(regos := units) == InsertIssued(before, groups)
  {
  }

  /** `POST /rego/issue` over the store; the serials drawn are returned. */
  method PostIssue(store: Store, items: seq<IssueItem>, randoms: seq<seq<real>>, clocks: seq<ItemClock>,
                   addYears: AddYears)
    returns (response: Response, batches: seq<string>)
    requires store.Valid()
    requires |randoms| == |items| && |clocks| == |items|
    requires forall i :: 0 <= i < |randoms| ==> |randoms[i]| >= DEFAULT_ID_LENGTH && Draws(randoms[i])
    modifies store
    ensures store.Valid()
    ensures |batches| == |items|
    ensures forall i :: 0 <= i < |items| ==> |batches[i]| == DEFAULT_ID_LENGTH
    ensures forall i, j :: 0 <= i < |items| && 0 <= j < DEFAULT_ID_LENGTH ==>
              Draws(randoms[i]) && batches[i][j] == RANDOM_CHAR[RandomIndex(randoms[i][j])]
    ensures Outcome(store.Snapshot(), response) == Issue(old(store.Snapshot()), items, batches, clocks, addYears)
  {
    batches := DrawSerials(randoms);
    if AnyIssued(items) {
      return Failure(AlreadyIssued), batches;
    }
    response := InsertIssuedRows(store, GroupRows(items, batches, clocks, addYears));
  }

  // ---------------------------------------------------------------- sell

  /** A batch after `/sell` listed it at `now`. */
  function Listed(group: RegoGroup, now: Time): (g: RegoGroup)
    ensures g.tradingStatus == Trading && g.transactionRegistrationDate == Some(now)
    ensures g == group.(tradingStatus := Trading, transactionRegistrationDate := Some(now))
  {
    group.(tradingStatus := Trading, transactionRegistrationDate := Some(now))
  }

  /** The `/sell` loop over `regoIds`, front to back, on the uncommitted REGO_GROUP
      table, `dates[i]` being the `new Date()` read for the `i`-th id: the first id
      whose batch is missing or not `active` and unlisted stops the loop. */
  function SellGroups(groups: map<int, RegoGroup>, regoIds: seq<int>, dates: seq<Time>)
    : (r: Result<map<int, RegoGroup>>)
    requires |dates| == |regoIds|
    ensures r.Ok? ==> r.value.Keys == groups.Keys
    decreases |regoIds|
  {
    if |regoIds| == 0 then Ok(groups)
    else
      var id := regoIds[0];
      if id !in groups then Err(RowNotFound)
      else if groups[id].status != Active || groups[id].tradingStatus != Before then Err(NotSellable)
      else SellGroups(groups[id := Listed(groups[id], dates[0])], regoIds[1..], dates[1..])
  }

  /** `POST /rego/sell`: the updates are committed only when the whole loop got
      through. The route has no catch: reading the status of a missing batch
      throws, and the request is never answered. */
  function Sell(db: Db, regoIds: seq<int>, dates: seq<Time>): (r: Outcome)
    requires |dates| == |regoIds|
    ensures r.response.Succeeded() <==> SellGroups(db.groups.rows, regoIds, dates).Ok?
    ensures r.response == Unanswered <==> SellGroups(db.groups.rows, regoIds, dates) == Err(RowNotFound)
    ensures r.response == Failure(NotSellable) <==> SellGroups(db.groups.rows, regoIds, dates) == Err(NotSellable)
    ensures !r.response.Succeeded() ==> r.db == db
    ensures r.response.Succeeded() ==>
              r == Outcome(db.(groups := db.groups.(rows := SellGroups(db.groups.rows, regoIds, dates).value)), Success)
    ensures db.Valid() ==> r.db.Valid()
  {
    match SellGroups(db.groups.rows, regoIds, dates)
    case Ok(groups) => Outcome(db.(groups := db.groups.(rows := groups)), Success)
    case Err(reason) => Outcome(db, if reason == RowNotFound then Unanswered else Failure(reason))
  }

  /** Every id of the list names a distinct batch that is `active` and unlisted. */
  ghost predicate SellableList(groups: map<int, RegoGroup>, regoIds: seq<int>) {
    && (forall i :: 0 <= i < |regoIds| ==> regoIds[i] in groups && groups[regoIds[i]].Sellable())
    && (forall i, j :: 0 <= i < j < |regoIds| ==> regoIds[i] != regoIds[j])
  }

  /** A sell request goes through exactly when it lists distinct batches, all
      `active` and unlisted; it then lists each of those batches at the date read
      for it and leaves the others as they were. */
  lemma {:induction false} SellSucceedsIff(groups: map<int, RegoGroup>, regoIds: seq<int>, dates: seq<Time>)
    requires |dates| == |regoIds|
    ensures SellGroups(groups, regoIds, dates).Ok? <==> SellableList(groups, regoIds)
    ensures SellGroups(groups, regoIds, dates).Ok? ==>
              var after := SellGroups(groups, regoIds, dates).value;
              && (forall i :: 0 <= i < |regoIds| ==>
                    regoIds[i] in groups && regoIds[i] in after && after[regoIds[i]] == Listed(groups[regoIds[i]], dates[i]))
              && (forall k :: k in groups && k !in regoIds ==> after[k] == groups[k])
    decreases |regoIds|
  {
    if |regoIds| > 0 {
      var id := regoIds[0];
      var rest := regoIds[1..];
      if id in groups && groups[id].Sellable() {
        var listed := groups[id := Listed(groups[id], dates[0])];
        SellSucceedsIff(listed, rest, dates[1..]);
        if SellableList(groups, regoIds) {
          SellableListRest(groups, regoIds, dates[0]);
        }
        if SellableList(listed, rest) {
          forall i | 0 <= i < |rest| ensures rest[i] != id {
            assert listed[rest[i]].Sellable();
          }
          assert SellableList(groups, regoIds) by {
            forall i, j | 0 <= i < j < |regoIds| ensures regoIds[i] != regoIds[j] {
              if i > 0 { assert regoIds[i] == rest[i - 1] && regoIds[j] == rest[j - 1]; }
            }
            forall i | 0 <= i < |regoIds| ensures regoIds[i] in groups && groups[regoIds[i]].Sellable() {
              if i > 0 { assert regoIds[i] == rest[i - 1]; }
            }
          }
          var after := SellGroups(groups, regoIds, dates).value;
          assert after == SellGroups(listed, rest, dates[1..]).value;
          forall i | 0 <= i < |regoIds|
            ensures regoIds[i] in groups && regoIds[i] in after && after[regoIds[i]] == Listed(groups[regoIds[i]], dates[i])
          {
            if i == 0 {
              assert id !in rest;
            } else {
              assert regoIds[i] == rest[i - 1] && dates[i] == dates[1..][i - 1];
            }
          }
          forall k | k in groups && k !in regoIds ensures after[k] == groups[k] {
            assert k !in rest;
          }
        }
      } else {
        assert !(regoIds[0] in groups && groups[regoIds[0]].Sellable());
      }
    }
  }

  /** Once the first batch of a sellable list is listed, the rest is still sellable. */
  lemma SellableListRest(groups: map<int, RegoGroup>, regoIds: seq<int>, now: Time)
    requires |regoIds| > 0 && SellableList(groups, regoIds)
    ensures SellableList(groups[regoIds[0] := Listed(groups[regoIds[0]], now)], regoIds[1..])
  {
    var listed := groups[regoIds[0] := Listed(groups[regoIds[0]], now)];
    var rest := regoIds[1..];
    forall i | 0 <= i < |rest| ensures rest[i] in listed && listed[rest[i]].Sellable() {
      assert rest[i] == regoIds[i + 1];
    }
    forall i, j | 0 <= i < j < |rest| ensures rest[i] != rest[j] {
      assert rest[i] == regoIds[i + 1] && rest[j] == regoIds[j + 1];
    }
  }

  /** Listing one batch twice in a request fails: the second check sees it on sale. */
  lemma DuplicateSellFails(groups: map<int, RegoGroup>, regoIds: seq<int>, dates: seq<Time>, i: nat, j: nat)
    requires |dates| == |regoIds|
    requires i < j < |regoIds| && regoIds[i] == regoIds[j]
    ensures SellGroups(groups, regoIds, dates) == Err(NotSellable) || SellGroups(groups, regoIds, dates) == Err(RowNotFound)
  {
    SellSucceedsIff(groups, regoIds, dates);
    SellNeverOk(groups, regoIds, dates);
  }

  /** A failed sell loop reports one of its two reasons. */
  lemma {:induction false} SellNeverOk(groups: map<int, RegoGroup>, regoIds: seq<int>, dates: seq<Time>)
    requires |dates| == |regoIds|
    ensures SellGroups(groups, regoIds, dates).Err? ==>
              SellGroups(groups, regoIds, dates).reason in {NotSellable, RowNotFound}
    decreases |regoIds|
  {
    if |regoIds| > 0 && regoIds[0] in groups && groups[regoIds[0]].Sellable() {
      SellNeverOk(groups[regoIds[0] := Listed(groups[regoIds[0]], dates[0])], regoIds[1..], dates[1..]);
    }
  }

  /** `POST /rego/sell` over the store: the loop works on the uncommitted table,
      which replaces REGO_GROUP only when every listed batch passed. */
  method PostSell(store: Store, regoIds: seq<int>, dates: seq<Time>) returns (response: Response)
    requires store.Valid()
    requires |dates| == |regoIds|
    modifies store
    ensures store.Valid()
    ensures Outcome(store.Snapshot(), response) == Sell(old(store.Snapshot()), regoIds, dates)
  {
    var groups := store.groups;
    for i := 0 to |regoIds|
      invariant SellGroups(store.groups, regoIds, dates) == SellGroups(groups, regoIds[i..], dates[i..])
      invariant groups.Keys == store.groups.Keys
    {
      var regoId := regoIds[i];
      assert regoIds[i..][1..] == regoIds[i + 1..] && dates[i..][1..] == dates[i + 1..];
      if regoId !in groups {
        // reading the status of the missing row throws outside any catch
        return Unanswered;
      }
      var rego := groups[regoId];
      if rego.status != Active || rego.tradingStatus != Before {
        return Failure(NotSellable);
      }
      groups := groups[regoId := Listed(rego, dates[i])];
    }
    store.groups := groups;
    response := Success;
  }
}
