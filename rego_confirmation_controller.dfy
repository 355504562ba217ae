/** The redemption route of a consumer: `/rego-confirmation/issue` checks the
    selected holdings (BUYING_REGO), writes one confirmation document
    (REGO_CONFIRMATION) for their total, and then consumes each holding, whole or
    in part, with one redemption line (CERTIFICATION_ISSUE_REGO) per selection. */
module RegoConfirmationController {
  import opened Tables
  import opened Database

  /** One element of `selectedRegos`. */
  datatype Selection = Selection(regoGroupId: int, buyingRegoId: int, regoUsageAmount: int)

  // ---------------------------------------------------------------- validation

  /** What the validation loop demands of one selection: its holding exists, is
      `active` and holds at least the amount asked for. */
  predicate Redeemable(holdings: map<int, BuyingRego>, s: Selection) {
    && s.buyingRegoId in holdings
    && holdings[s.buyingRegoId].regoStatus == Active
    && holdings[s.buyingRegoId].buyingAmount >= s.regoUsageAmount
  }

  /** Why the validation loop stops at selection `s`, if it does: a missing row
      makes the handler throw, then the status is checked, then the amount. */
  function Rejection(holdings: map<int, BuyingRego>, s: Selection): (r: Option<Reason>)
    ensures r.None? <==> Redeemable(holdings, s)
    ensures s.buyingRegoId !in holdings ==> r == Some(RowNotFound)
    ensures s.buyingRegoId in holdings && holdings[s.buyingRegoId].regoStatus != Active ==> r == Some(NotRedeemable)
    ensures r == Some(ExceedsHolding) <==>
              s.buyingRegoId in holdings && holdings[s.buyingRegoId].regoStatus == Active
              && holdings[s.buyingRegoId].buyingAmount < s.regoUsageAmount
  {
    if s.buyingRegoId !in holdings then Some(RowNotFound)
    else if holdings[s.buyingRegoId].regoStatus != Active then Some(NotRedeemable)
    else if holdings[s.buyingRegoId].buyingAmount < s.regoUsageAmount then Some(ExceedsHolding)
    else None
  }

  /** The validation loop over `selected`, front to back, on the unchanged
      holdings: the rejection of the first selection that fails, if any. */
  function FirstInvalid(holdings: map<int, BuyingRego>, selected: seq<Selection>): (r: Option<Reason>)
    ensures r.None? <==> forall i :: 0 <= i < |selected| ==> Redeemable(holdings, selected[i])
    ensures r.Some? ==> exists i :: 0 <= i < |selected| && r == Rejection(holdings, selected[i])
                                   && forall j :: 0 <= j < i ==> Redeemable(holdings, selected[j])
    decreases |selected|
  {
    if |selected| == 0 then None
    else if Rejection(holdings, selected[0]).Some? then Rejection(holdings, selected[0])
    else
      var rest := FirstInvalid(holdings, selected[1..]);
      assert forall i :: 0 < i < |selected| ==> selected[i] == selected[1..][i - 1];
      rest
  }

  /** `selectedRegos.reduce((acc, cur) => acc + cur.regoUsageAmount, 0)`. */
  function TotalUsage(selected: seq<Selection>): (total: int)
    ensures |selected| == 0 ==> total == 0
    ensures (forall k :: 0 <= k < |selected| ==> selected[k].regoUsageAmount >= 0) ==>
              total >= 0 && forall k :: 0 <= k < |selected| ==> selected[k].regoUsageAmount <= total
    decreases |selected|
  {
    if |selected| == 0 then 0 else selected[0].regoUsageAmount + TotalUsage(selected[1..])
  }

  // ---------------------------------------------------------------- redemption

  /** What is left of the holding of `s` once its usage is taken off. */
  function Left(db: Db, s: Selection): int
    requires s.buyingRegoId in db.buyingRegos.rows
  {
    db.buyingRegos.rows[s.buyingRegoId].buyingAmount - s.regoUsageAmount
  }

  /** One turn of the redemption loop, under confirmation `confirmationId`, on the
      holding as it is now. Something left: the holding keeps the rest, the used
      part becomes a new `active` holding, and the line points to the new row.
      Nothing left: the holding becomes `used` with amount 0, and the line points to
      it. Less than nothing (only after an earlier selection of the same holding):
      neither branch runs and nothing is written. */
  function RedeemStep(db: Db, confirmationId: int, s: Selection): (r: Db)
    requires s.buyingRegoId in db.buyingRegos.rows
    ensures r == db.(buyingRegos := r.buyingRegos, issueLines := r.issueLines)
    ensures db.Valid() ==> r.Valid()
    ensures db.buyingRegos.rows.Keys <= r.buyingRegos.rows.Keys
  {
    var id := s.buyingRegoId;
    var held := db.buyingRegos.rows[id];
    if Left(db, s) > 0 then
      var shrunk := db.buyingRegos.Update(id, held.(buyingAmount := Left(db, s)));
      var split := BuyingRego(held.regoGroupId, held.consumerId, s.regoUsageAmount, held.identificationNumber,
                              Active, held.identificationStartNumber, held.identificationEndNumber);
      db.(buyingRegos := shrunk.Insert(split),
          issueLines := db.issueLines.Insert(CertificationIssueRego(shrunk.nextId, confirmationId, s.regoUsageAmount)))
    else if Left(db, s) == 0 then
      db.(buyingRegos := db.buyingRegos.Update(id, held.(buyingAmount := 0, regoStatus := Used)),
          issueLines := db.issueLines.Insert(CertificationIssueRego(id, confirmationId, s.regoUsageAmount)))
    else
      db
  }

  /** What one turn writes, by what is left of the holding: a split into the
      rest and a new `active` holding of the used part, which together hold what
      the holding held, with the line pointing to the new row; or the holding
      `used` at 0 with the line pointing to it; or nothing at all. */
  lemma RedeemStepCases(db: Db, confirmationId: int, s: Selection)
    requires db.Valid() && s.buyingRegoId in db.buyingRegos.rows
    ensures Left(db, s) > 0 ==>
              && RedeemStep(db, confirmationId, s).buyingRegos.nextId == db.buyingRegos.nextId + 1
              && RedeemStep(db, confirmationId, s).buyingRegos.rows[s.buyingRegoId]
                 == db.buyingRegos.rows[s.buyingRegoId].(buyingAmount := Left(db, s))
              && db.buyingRegos.nextId in RedeemStep(db, confirmationId, s).buyingRegos.rows
              && RedeemStep(db, confirmationId, s).buyingRegos.rows[db.buyingRegos.nextId]
                 == db.buyingRegos.rows[s.buyingRegoId].(buyingAmount := s.regoUsageAmount, regoStatus := Active)
              && RedeemStep(db, confirmationId, s).buyingRegos.rows[s.buyingRegoId].buyingAmount
                 + RedeemStep(db, confirmationId, s).buyingRegos.rows[db.buyingRegos.nextId].buyingAmount
                 == db.buyingRegos.rows[s.buyingRegoId].buyingAmount
              && RedeemStep(db, confirmationId, s).issueLines == db.issueLines.Insert(
                   CertificationIssueRego(db.buyingRegos.nextId, confirmationId, s.regoUsageAmount))
    ensures Left(db, s) == 0 ==>
              && RedeemStep(db, confirmationId, s).buyingRegos == db.buyingRegos.Update(s.buyingRegoId,
                   db.buyingRegos.rows[s.buyingRegoId].(buyingAmount := 0, regoStatus := Used))
              && RedeemStep(db, confirmationId, s).issueLines == db.issueLines.Insert(
                   CertificationIssueRego(s.buyingRegoId, confirmationId, s.regoUsageAmount))
    ensures Left(db, s) < 0 ==> RedeemStep(db, confirmationId, s) == db
  {
  }

  /** One turn touches no holding but its own and the one it inserts, and no
      earlier line. */
  lemma RedeemStepKeeps(db: Db, confirmationId: int, s: Selection)
    requires db.Valid() && s.buyingRegoId in db.buyingRegos.rows
    ensures forall k :: k in db.buyingRegos.rows && k != s.buyingRegoId ==>
              RedeemStep(db, confirmationId, s).buyingRegos.rows[k] == db.buyingRegos.rows[k]
    ensures forall k :: k in db.issueLines.rows ==>
              k in RedeemStep(db, confirmationId, s).issueLines.rows
              && RedeemStep(db, confirmationId, s).issueLines.rows[k] == db.issueLines.rows[k]
  {
    assert Left(db, s) > 0 ==> db.buyingRegos.nextId !in db.buyingRegos.rows;
  }

  /** Every selection names a holding of the table. */
  predicate AllPresent(holdings: map<int, BuyingRego>, selected: seq<Selection>) {
    forall i :: 0 <= i < |selected| ==> selected[i].buyingRegoId in holdings
  }

  /** The redemption loop over `selected`, front to back. */
  function RedeemSteps(db: Db, confirmationId: int, selected: seq<Selection>): (r: Db)
    requires AllPresent(db.buyingRegos.rows, selected)
    ensures r == db.(buyingRegos := r.buyingRegos, issueLines := r.issueLines)
    ensures db.Valid() ==> r.Valid()
    ensures db.buyingRegos.rows.Keys <= r.buyingRegos.rows.Keys
    decreases |selected|
  {
    if |selected| == 0 then db
    else
      var next := RedeemStep(db, confirmationId, selected[0]);
      assert forall i :: 0 <= i < |selected[1..]| ==> selected[1..][i] == selected[i + 1];
      RedeemSteps(next, confirmationId, selected[1..])
  }

  /** `POST /rego-confirmation/issue` by consumer `consumerId`: validation first,
      on the table as it is; then the confirmation row, with the total as both
      its REGO and its power usage; then the redemptions. */
  function ConfirmationIssue(db: Db, consumerId: int, selected: seq<Selection>, usageRecognitionPeriod: string)
    : (r: Outcome)
    ensures r.response.Succeeded() <==> forall i :: 0 <= i < |selected| ==> Redeemable(db.buyingRegos.rows, selected[i])
    ensures !r.response.Succeeded() ==> r.db == db && r.response == Failure(FirstInvalid(db.buyingRegos.rows, selected).value)
    ensures r.response.Succeeded() ==>
              && r.response == Confirmed(TotalUsage(selected))
              && r.db == db.(confirmations := r.db.confirmations, buyingRegos := r.db.buyingRegos,
                             issueLines := r.db.issueLines)
              && r.db.confirmations == db.confirmations.Insert(
                   RegoConfirmation(consumerId, TotalUsage(selected), TotalUsage(selected), usageRecognitionPeriod))
    ensures db.Valid() ==> r.db.Valid()
  {
    match FirstInvalid(db.buyingRegos.rows, selected)
    case Some(reason) => Outcome(db, Failure(reason))
    case None =>
      var total := TotalUsage(selected);
      var confirmed := db.(confirmations := db.confirmations.Insert(
                             RegoConfirmation(consumerId, total, total, usageRecognitionPeriod)));
      Outcome(RedeemSteps(confirmed, db.confirmations.nextId, selected), Confirmed(total))
  }

  // ---------------------------------------------------------------- properties

  /** The holdings a request names. */
  function SelectedIds(selected: seq<Selection>): (ids: set<int>)
    ensures forall i :: 0 <= i < |selected| ==> selected[i].buyingRegoId in ids
    ensures forall k :: k in ids ==> exists i :: 0 <= i < |selected| && selected[i].buyingRegoId == k
  {
    set i | 0 <= i < |selected| :: selected[i].buyingRegoId
  }

  /** The loop leaves every holding the request does not name as it was. */
  lemma {:induction false} RedeemStepsKeeps(db: Db, confirmationId: int, selected: seq<Selection>)
    requires db.Valid() && AllPresent(db.buyingRegos.rows, selected)
    ensures forall k :: k in db.buyingRegos.rows && k !in SelectedIds(selected) ==>
              RedeemSteps(db, confirmationId, selected).buyingRegos.rows[k] == db.buyingRegos.rows[k]
    decreases |selected|
  {
    if |selected| > 0 {
      var next := RedeemStep(db, confirmationId, selected[0]);
      var rest := selected[1..];
      RedeemStepKeeps(db, confirmationId, selected[0]);
      assert AllPresent(next.buyingRegos.rows, rest) by {
        assert forall i :: 0 <= i < |rest| ==> rest[i] == selected[i + 1];
      }
      RedeemStepsKeeps(next, confirmationId, rest);
      assert RedeemSteps(db, confirmationId, selected) == RedeemSteps(next, confirmationId, rest);
    }
  }

  /** The loop leaves every line that was there before as it was. */
  lemma {:induction false} RedeemStepsKeepLine(db: Db, confirmationId: int, selected: seq<Selection>, k: int)
    requires db.Valid() && AllPresent(db.buyingRegos.rows, selected)
    requires k in db.issueLines.rows
    ensures k in RedeemSteps(db, confirmationId, selected).issueLines.rows
    ensures RedeemSteps(db, confirmationId, selected).issueLines.rows[k] == db.issueLines.rows[k]
    decreases |selected|
  {
    if |selected| > 0 {
      var next := RedeemStep(db, confirmationId, selected[0]);
      var rest := selected[1..];
      RedeemStepKeeps(db, confirmationId, selected[0]);
      assert AllPresent(next.buyingRegos.rows, rest) by {
        assert forall i :: 0 <= i < |rest| ==> rest[i] == selected[i + 1];
      }
      RedeemStepsKeepLine(next, confirmationId, rest, k);
      assert RedeemSteps(db, confirmationId, selected) == RedeemSteps(next, confirmationId, rest);
    }
  }

  /** Every selection names a different holding. */
  predicate Distinct(selected: seq<Selection>) {
    forall i, j :: 0 <= i < j < |selected| ==> selected[i].buyingRegoId != selected[j].buyingRegoId
  }

  /** Validated selections of distinct holdings. */
  predicate Validated(db: Db, selected: seq<Selection>) {
    && (forall i :: 0 <= i < |selected| ==> Redeemable(db.buyingRegos.rows, selected[i]))
    && Distinct(selected)
  }

  /** What is still validated after the first selection was redeemed: the other
      holdings are as they were, and the first is named no more. */
  lemma ValidatedRest(db: Db, confirmationId: int, selected: seq<Selection>)
    requires db.Valid() && |selected| > 0 && Validated(db, selected)
    ensures Validated(RedeemStep(db, confirmationId, selected[0]), selected[1..])
    ensures selected[0].buyingRegoId !in SelectedIds(selected[1..])
  {
    var next := RedeemStep(db, confirmationId, selected[0]);
    RedeemStepKeeps(db, confirmationId, selected[0]);
    forall i | 0 <= i < |selected| - 1
      ensures selected[1..][i] == selected[i + 1]
      ensures selected[i + 1].buyingRegoId != selected[0].buyingRegoId
      ensures next.buyingRegos.rows[selected[i + 1].buyingRegoId] == db.buyingRegos.rows[selected[i + 1].buyingRegoId]
    {
    }
  }

  /** Every turn of the loop finds at least as much as it takes, so exactly one
      branch runs in each. */
  ghost predicate NoSkips(db: Db, confirmationId: int, selected: seq<Selection>)
    decreases |selected|
  {
    |selected| == 0 ||
    (&& selected[0].buyingRegoId in db.buyingRegos.rows
     && Left(db, selected[0]) >= 0
     && NoSkips(RedeemStep(db, confirmationId, selected[0]), confirmationId, selected[1..]))
  }

  /** Validated selections of distinct holdings are never skipped. */
  lemma {:induction false} ValidatedNoSkips(db: Db, confirmationId: int, selected: seq<Selection>)
    requires db.Valid() && Validated(db, selected)
    ensures NoSkips(db, confirmationId, selected)
    decreases |selected|
  {
    if |selected| > 0 {
      ValidatedRest(db, confirmationId, selected);
      ValidatedNoSkips(RedeemStep(db, confirmationId, selected[0]), confirmationId, selected[1..]);
    }
  }

  /** The lines from key `from` on, one per selection, exist, belong to
      confirmation `confirmationId` and carry the usage of `selected`, in order. */
  ghost predicate LinesCarry(lines: map<int, CertificationIssueRego>, from: int, confirmationId: int,
                             selected: seq<Selection>)
    decreases |selected|
  {
    |selected| == 0 ||
    (&& from in lines
     && lines[from].regoCertificationId == confirmationId
     && lines[from].usageApplicationAmount == selected[0].regoUsageAmount
     && LinesCarry(lines, from + 1, confirmationId, selected[1..]))
  }

  /** The first turn of the loop adds exactly one line, for the first selection,
      and leaves a database on which the rest of the loop runs without a skip. */
  lemma FirstRedemptionLine(db: Db, confirmationId: int, selected: seq<Selection>)
    requires db.Valid() && AllPresent(db.buyingRegos.rows, selected) && NoSkips(db, confirmationId, selected)
    requires |selected| > 0
    ensures RedeemStep(db, confirmationId, selected[0]).Valid()
    ensures AllPresent(RedeemStep(db, confirmationId, selected[0]).buyingRegos.rows, selected[1..])
    ensures NoSkips(RedeemStep(db, confirmationId, selected[0]), confirmationId, selected[1..])
    ensures RedeemStep(db, confirmationId, selected[0]).issueLines.nextId == db.issueLines.nextId + 1
    ensures db.issueLines.nextId in RedeemStep(db, confirmationId, selected[0]).issueLines.rows
    ensures RedeemStep(db, confirmationId, selected[0]).issueLines.rows[db.issueLines.nextId].regoCertificationId
            == confirmationId
    ensures RedeemStep(db, confirmationId, selected[0]).issueLines.rows[db.issueLines.nextId].usageApplicationAmount
            == selected[0].regoUsageAmount
  {
    var rest := selected[1..];
    var next := RedeemStep(db, confirmationId, selected[0]);
    RedeemStepCases(db, confirmationId, selected[0]);
    assert AllPresent(next.buyingRegos.rows, rest) by {
      assert forall i :: 0 <= i < |rest| ==> rest[i] == selected[i + 1];
    }
  }

  /** When no turn is skipped, selection `i` gets the `i`-th new redemption line,
      carrying its amount and the confirmation id. */
  lemma {:induction false} RedeemStepsLines(db: Db, confirmationId: int, selected: seq<Selection>)
    requires db.Valid() && AllPresent(db.buyingRegos.rows, selected) && NoSkips(db, confirmationId, selected)
    ensures RedeemSteps(db, confirmationId, selected).issueLines.nextId == db.issueLines.nextId + |selected|
    ensures LinesCarry(RedeemSteps(db, confirmationId, selected).issueLines.rows, db.issueLines.nextId,
                       confirmationId, selected)
    decreases |selected|
  {
    if |selected| > 0 {
      var next := RedeemStep(db, confirmationId, selected[0]);
      FirstRedemptionLine(db, confirmationId, selected);
      RedeemStepsLines(next, confirmationId, selected[1..]);
      RedeemStepsKeepLine(next, confirmationId, selected[1..], db.issueLines.nextId);
      assert RedeemSteps(db, confirmationId, selected) == RedeemSteps(next, confirmationId, selected[1..]);
    }
  }

  /** A holding after `usage` of it was redeemed, when it held at least that much:
      the rest, still `active`, or `used` at 0. */
  function Redeemed(held: BuyingRego, usage: int): (h: BuyingRego)
    ensures h.buyingAmount == held.buyingAmount - usage
    ensures h.regoStatus == (if held.buyingAmount == usage then Used else held.regoStatus)
    ensures h == held.(buyingAmount := h.buyingAmount, regoStatus := h.regoStatus)
  {
    if held.buyingAmount == usage then held.(buyingAmount := 0, regoStatus := Used)
    else held.(buyingAmount := held.buyingAmount - usage)
  }

  /** With validated selections of distinct holdings, each selected holding loses
      exactly its selection's amount, and is `used` exactly when nothing is left. */
  lemma {:induction false} RedeemStepsHoldings(db: Db, confirmationId: int, selected: seq<Selection>)
    requires db.Valid() && Validated(db, selected)
    ensures AllPresent(db.buyingRegos.rows, selected)
    ensures forall i :: 0 <= i < |selected| ==>
              RedeemSteps(db, confirmationId, selected).buyingRegos.rows[selected[i].buyingRegoId]
              == Redeemed(db.buyingRegos.rows[selected[i].buyingRegoId], selected[i].regoUsageAmount)
    decreases |selected|
  {
    if |selected| > 0 {
      var s := selected[0];
      var rest := selected[1..];
      var next := RedeemStep(db, confirmationId, s);
      ValidatedRest(db, confirmationId, selected);
      RedeemStepCases(db, confirmationId, s);
      RedeemStepsHoldings(next, confirmationId, rest);
      RedeemStepsKeeps(next, confirmationId, rest);
      var after := RedeemSteps(next, confirmationId, rest);
      assert RedeemSteps(db, confirmationId, selected) == after;
      assert after.buyingRegos.rows[s.buyingRegoId] == next.buyingRegos.rows[s.buyingRegoId]
             == Redeemed(db.buyingRegos.rows[s.buyingRegoId], s.regoUsageAmount);
      forall i | 0 < i < |selected|
        ensures after.buyingRegos.rows[selected[i].buyingRegoId]
                == Redeemed(db.buyingRegos.rows[selected[i].buyingRegoId], selected[i].regoUsageAmount)
      {
        assert selected[i] == rest[i - 1];
      }
    }
  }

  /** A successful request whose selections name distinct holdings leaves one
      line per selection under the new confirmation, and together they redeem the
      confirmation's total. */
  lemma ConfirmationLinesAddUp(db: Db, consumerId: int, selected: seq<Selection>, usageRecognitionPeriod: string)
    requires db.Valid()
    requires Distinct(selected)
    requires ConfirmationIssue(db, consumerId, selected, usageRecognitionPeriod).response.Succeeded()
    ensures ConfirmationIssue(db, consumerId, selected, usageRecognitionPeriod).db.issueLines.nextId
            == db.issueLines.nextId + |selected|
    ensures LineTotal(ConfirmationIssue(db, consumerId, selected, usageRecognitionPeriod).db.issueLines.rows,
                      db.issueLines.nextId, |selected|)
            == TotalUsage(selected)
    ensures LinesCarry(ConfirmationIssue(db, consumerId, selected, usageRecognitionPeriod).db.issueLines.rows,
                       db.issueLines.nextId, db.confirmations.nextId, selected)
  {
    var total := TotalUsage(selected);
    var confirmed := db.(confirmations := db.confirmations.Insert(
                           RegoConfirmation(consumerId, total, total, usageRecognitionPeriod)));
    assert FirstInvalid(db.buyingRegos.rows, selected).None?;
    assert ConfirmationIssue(db, consumerId, selected, usageRecognitionPeriod).db
           == RedeemSteps(confirmed, db.confirmations.nextId, selected);
    ValidatedNoSkips(confirmed, db.confirmations.nextId, selected);
    RedeemStepsLines(confirmed, db.confirmations.nextId, selected);
    var after := RedeemSteps(confirmed, db.confirmations.nextId, selected);
    LineTotalIsUsage(after.issueLines.rows, db.issueLines.nextId, db.confirmations.nextId, selected);
  }

  /** The usage of the `count` lines from key `from` on. */
  function LineTotal(lines: map<int, CertificationIssueRego>, from: int, count: nat): int
    decreases count
  {
    if count == 0 then 0
    else (if from in lines then lines[from].usageApplicationAmount else 0) + LineTotal(lines, from + 1, count - 1)
  }

  /** Lines that carry the usage of each selection, in order, add up to the
      selections' total. */
  lemma {:induction false} LineTotalIsUsage(lines: map<int, CertificationIssueRego>, from: int, confirmationId: int,
                                            selected: seq<Selection>)
    requires LinesCarry(lines, from, confirmationId, selected)
    ensures LineTotal(lines, from, |selected|) == TotalUsage(selected)
    decreases |selected|
  {
    if |selected| > 0 {
      LineTotalIsUsage(lines, from + 1, confirmationId, selected[1..]);
    }
  }

  /** The same holding selected twice, each time within its amount but together
      beyond it, passes validation; the second redemption then finds less than
      nothing left and writes nothing, yet the confirmation counts both. */
  lemma DuplicateSelectionOverstatesTotal()
    ensures var holding := BuyingRego(1, 7, 5, "AB12CD34 1 - 6", Active, None, None);
            var db := Db(Table(map[], 1), Table(map[], 1), Table(map[], 1), Table(map[1 := holding], 2),
                         Table(map[], 1), Table(map[], 1), map[], map[]);
            var selected := [Selection(1, 1, 3), Selection(1, 1, 3)];
            var r := ConfirmationIssue(db, 7, selected, "2024-01");
            && r.response == Confirmed(6)
            && r.db.issueLines.nextId == 2
            && r.db.buyingRegos.rows[1].buyingAmount + r.db.buyingRegos.rows[2].buyingAmount == 5
  {
    var holding := BuyingRego(1, 7, 5, "AB12CD34 1 - 6", Active, None, None);
    var db := Db(Table(map[], 1), Table(map[], 1), Table(map[], 1), Table(map[1 := holding], 2),
                 Table(map[], 1), Table(map[], 1), map[], map[]);
    var selected := [Selection(1, 1, 3), Selection(1, 1, 3)];
    assert FirstInvalid(db.buyingRegos.rows, selected) == None by {
      assert Redeemable(db.buyingRegos.rows, selected[0]) && Redeemable(db.buyingRegos.rows, selected[1]);
    }
    var confirmed := db.(confirmations := db.confirmations.Insert(RegoConfirmation(7, 6, 6, "2024-01")));
    var once := RedeemStep(confirmed, 1, selected[0]);
    assert once.buyingRegos.rows[1].buyingAmount == 2;
    assert RedeemStep(once, 1, selected[1]) == once;
    assert selected[1..][1..] == [];
  }

  // ---------------------------------------------------------------- the handler

  /** The validation loop over the store. */
  method Validate(store: Store, selected: seq<Selection>) returns (rejection: Option<Reason>)
    ensures rejection == FirstInvalid(store.buyingRegos, selected)
  {
    for i := 0 to |selected|
      invariant FirstInvalid(store.buyingRegos, selected) == FirstInvalid(store.buyingRegos, selected[i..])
    {
      assert selected[i..][1..] == selected[i + 1..];
      var buyingRegoId := selected[i].buyingRegoId;
      if buyingRegoId !in store.buyingRegos {
        return Some(RowNotFound);
      }
      var buyingRego := store.buyingRegos[buyingRegoId];
      if buyingRego.regoStatus != Active {
        return Some(NotRedeemable);
      }
      if buyingRego.buyingAmount < selected[i].regoUsageAmount {
        return Some(ExceedsHolding);
      }
    }
    assert selected[|selected|..] == [];
    return None;
  }

  /** One turn of the redemption loop over the store. */
  method RedeemOne(store: Store, confirmationId: int, s: Selection)
    requires store.Valid()
    requires s.buyingRegoId in store.buyingRegos
    modifies store
    ensures store.Valid()
    ensures store.Snapshot() == RedeemStep(old(store.Snapshot()), confirmationId, s)
  {
    ghost var before := store.Snapshot();
    var buyingRegoId := s.buyingRegoId;
    var buyingRego := store.buyingRegos[buyingRegoId];
    var holdings := Table(store.buyingRegos, store.nextBuyingRegoId);
    var lines := Table(store.issueLines, store.nextIssueLineId);
    if buyingRego.buyingAmount - s.regoUsageAmount > 0 {
      holdings := holdings.Update(buyingRegoId, buyingRego.(buyingAmount := buyingRego.buyingAmount - s.regoUsageAmount));
      var targetId := holdings.nextId;
      holdings := holdings.Insert(BuyingRego(
        buyingRego.regoGroupId, buyingRego.consumerId, s.regoUsageAmount, buyingRego.identificationNumber,
        Active, buyingRego.identificationStartNumber, buyingRego.identificationEndNumber));
      lines := lines.Insert(CertificationIssueRego(targetId, confirmationId, s.regoUsageAmount));
    }
    if buyingRego.buyingAmount - s.regoUsageAmount == 0 {
      holdings := holdings.Update(buyingRegoId, buyingRego.(buyingAmount := 0, regoStatus := Used));
      lines := lines.Insert(CertificationIssueRego(buyingRegoId, confirmationId, s.regoUsageAmount));
    }
    assert before.(buyingRegos := holdings, issueLines := lines) == RedeemStep(before, confirmationId, s);
    store.buyingRegos, store.nextBuyingRegoId := holdings.rows, holdings.nextId;
    store.issueLines, store.nextIssueLineId := lines.rows, lines.nextId;
    assert store.Snapshot() == before.(buyingRegos := holdings, issueLines := lines);
  }

  /** The redemption loop over the store. */
  method RedeemAll(store: Store, confirmationId: int, selected: seq<Selection>)
    requires store.Valid()
    requires AllPresent(store.buyingRegos, selected)
    modifies store
    ensures store.Valid()
    ensures store.Snapshot() == RedeemSteps(old(store.Snapshot()), confirmationId, selected)
  {
    for i := 0 to |selected|
      invariant store.Valid()
      invariant AllPresent(store.buyingRegos, selected[i..])
      invariant RedeemSteps(store.Snapshot(), confirmationId, selected[i..])
                == RedeemSteps(old(store.Snapshot()), confirmationId, selected)
    {
      assert selected[i..][1..] == selected[i + 1..];
      RedeemOne(store, confirmationId, selected[i]);
    }
    assert selected[|selected|..] == [];
  }

  /** `POST /rego-confirmation/issue` over the store. */
  method PostIssue(store: Store, consumerId: int, selected: seq<Selection>, usageRecognitionPeriod: string)
    returns (response: Response)
    requires store.Valid()
    modifies store
    ensures store.Valid()
    ensures Outcome(store.Snapshot(), response) == ConfirmationIssue(old(store.Snapshot()), consumerId, selected, usageRecognitionPeriod)
  {
    ghost var before := store.Snapshot();
    var rejection := Validate(store, selected);
    if rejection.Some? {
      assert ConfirmationIssue(before, consumerId, selected, usageRecognitionPeriod)
             == Outcome(before, Failure(rejection.value));
      return Failure(rejection.value);
    }
    assert AllPresent(store.buyingRegos, selected);
    var regoUsageAmount := TotalUsage(selected);
    var powerUsageAmount := regoUsageAmount;
    var confirmationId := store.nextConfirmationId;
    ghost var confirmed := before.(confirmations := before.confirmations.Insert(
      RegoConfirmation(consumerId, regoUsageAmount, powerUsageAmount, usageRecognitionPeriod)));
    store.confirmations := store.confirmations[confirmationId :=
      RegoConfirmation(consumerId, regoUsageAmount, powerUsageAmount, usageRecognitionPeriod)];
    store.nextConfirmationId := confirmationId + 1;
    assert store.Snapshot() == confirmed;
    RedeemAll(store, confirmationId, selected);
    assert ConfirmationIssue(before, consumerId, selected, usageRecognitionPeriod)
           == Outcome(RedeemSteps(confirmed, confirmationId, selected), Confirmed(regoUsageAmount));
    response := Confirmed(regoUsageAmount);
  }
}
