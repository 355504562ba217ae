/** The relational schema the route handlers work on, as Dafny values.
    One record type per table row, the status enumerations, the whole
    database as one value (`Db`), and the response every handler returns. */
module Tables {

  /** A timestamp, as `new Date()` and `dayjs()` yield it. */
  type Time = int

  datatype Option<T> = None | Some(value: T)

  datatype Result<T> = Ok(value: T) | Err(reason: Reason)

  datatype RegoStatus = Active | Used | Expired

  datatype RegoTradingStatus = Before | Trading | End

  datatype TradingApplicationStatus = Pending | Approve | Rejected | Canceled

  datatype Yn = Y | N

  /** A row of REGO_GROUP: one issued certificate batch. */
  datatype RegoGroup = RegoGroup(
    providerId: int,
    plantId: int,
    identificationNumber: string,
    status: RegoStatus,
    tradingStatus: RegoTradingStatus,
    electricityProductionPeriod: string,
    issuedGenerationAmount: int,
    remainingGenerationAmount: int,
    issuedDate: Time,
    expiredDate: Time,
    transactionRegistrationDate: Option<Time>)
  {
    /** What `/rego/sell` demands of every listed batch. */
    predicate Sellable() {
      status == Active && tradingStatus == Before
    }

    /** What `/rego-trade-info/buying` demands of the batch bought from. */
    predicate Buyable() {
      status == Active && tradingStatus == Trading
    }
  }

  /** A row of REGO: one certificate unit. `consumerId` is NULL until a trade
      is accepted. The row's key in the REGO table stands for the column
      REGO_IDENTIFICATION_NUMBER, taken to be the generated key of the table,
      counted across all batches. */
  datatype Rego = Rego(regoGroupId: int, identificationNumber: string, consumerId: Option<int>)

  /** A row of REGO_TRADE_INFO: one buy application. */
  datatype RegoTradeInfo = RegoTradeInfo(
    providerId: int,
    consumerId: int,
    plantId: int,
    regoGroupId: int,
    identificationNumber: string,
    tradingApplicationStatus: TradingApplicationStatus,
    buyingAmount: int,
    buyingPrice: real,
    buyingApplicationDate: Time,
    tradeCompletedDate: Option<Time>,
    rejectedReason: Option<string>)

  /** A row of BUYING_REGO: a consumer's holding. */
  datatype BuyingRego = BuyingRego(
    regoGroupId: int,
    consumerId: int,
    buyingAmount: int,
    identificationNumber: string,
    regoStatus: RegoStatus,
    identificationStartNumber: Option<int>,
    identificationEndNumber: Option<int>)

  /** A row of REGO_CONFIRMATION: one redemption document. */
  datatype RegoConfirmation = RegoConfirmation(
    consumerId: int,
    regoUsageAmount: int,
    powerUsageAmount: int,
    usageRecognitionPeriod: string)

  /** A row of CERTIFICATION_ISSUE_REGO: one redemption line. */
  datatype CertificationIssueRego = CertificationIssueRego(
    buyingRegoId: int,
    regoCertificationId: int,
    usageApplicationAmount: int)

  /** The login columns of a PROVIDER or CONSUMER row. */
  datatype Account = Account(password: string, salt: string, loginFailCount: int)

  /** A table with a generated key: its rows by key, and the key the database
      will hand out next. */
  datatype Table<T> = Table(rows: map<int, T>, nextId: int)
  {
    /** Generated keys grow: every key in use is below the next key. */
    ghost predicate Valid() {
      forall k :: k in rows ==> k < nextId
    }

    /** The table after an INSERT of `row`. */
    function Insert(row: T): (t: Table<T>)
      ensures t.rows == rows[nextId := row] && t.nextId == nextId + 1
      ensures Valid() ==> t.Valid() && nextId !in rows
    {
      Table(rows[nextId := row], nextId + 1)
    }

    /** The table after a bulk INSERT of `batch`, in order. */
    function InsertAll(batch: seq<T>): (t: Table<T>)
      ensures t.rows == InsertAt(rows, nextId, batch) && t.nextId == nextId + |batch|
      ensures Valid() ==> t.Valid()
    {
      InsertAtContents(rows, nextId, batch);
      Table(InsertAt(rows, nextId, batch), nextId + |batch|)
    }

    /** The table after the row under `key` was replaced by `row`. */
    function Update(key: int, row: T): (t: Table<T>)
      requires key in rows
      ensures t.rows == rows[key := row] && t.nextId == nextId
      ensures t.rows.Keys == rows.Keys
      ensures Valid() ==> t.Valid()
    {
      Table(rows[key := row], nextId)
    }
  }

  /** The whole database. */
  datatype Db = Db(
    groups: Table<RegoGroup>,                     // REGO_GROUP
    regos: Table<Rego>,                           // REGO
    trades: Table<RegoTradeInfo>,                 // REGO_TRADE_INFO
    buyingRegos: Table<BuyingRego>,               // BUYING_REGO
    confirmations: Table<RegoConfirmation>,       // REGO_CONFIRMATION
    issueLines: Table<CertificationIssueRego>,    // CERTIFICATION_ISSUE_REGO
    providers: map<string, Account>,              // PROVIDER, by login id
    consumers: map<string, Account>)              // CONSUMER, by login id
  {
    ghost predicate Valid() {
      && groups.Valid() && regos.Valid() && trades.Valid()
      && buyingRegos.Valid() && confirmations.Valid() && issueLines.Valid()
    }
  }

  /** Why a handler answered `success: false`. */
  datatype Reason =
    | AlreadyProcessed      // refuse of a trade that is no longer pending
    | NotCancelable         // cancel of a trade that is no longer pending
    | NotBuyable            // buy application against a batch that is not on sale
    | NotSellable           // sell listing of a batch that is not active and unlisted
    | AlreadyIssued         // issuance of a generation record marked `y`
    | NotRedeemable         // redemption of a holding that is not active
    | ExceedsHolding        // redemption of more than a holding holds
    | RowNotFound           // the handler read a row that does not exist, threw, and its catch answered

  datatype Response =
    | Success
    | Confirmed(amount: int)   // `/rego-confirmation/issue` also returns the redeemed total
    | Failure(reason: Reason)
    | Unanswered               // the handler threw outside any catch: no answer is sent
  {
    predicate Succeeded() {
      Success? || Confirmed?
    }
  }

  /** The database after a handler ran, and what it answered. */
  datatype Outcome = Outcome(db: Db, response: Response)

  /** `m` with the rows `rows` inserted, in order, under consecutive generated
      keys from `next` on. */
  function InsertAt<T>(m: map<int, T>, next: int, rows: seq<T>): map<int, T>
    decreases |rows|
  {
    if |rows| == 0 then m
    else InsertAt(m, next, rows[..|rows| - 1])[next + |rows| - 1 := rows[|rows| - 1]]
  }

  /** What `InsertAt` leaves in the table: the rows under their keys, every other
      row where it was, and nothing else. */
  lemma {:induction false} InsertAtContents<T>(m: map<int, T>, next: int, rows: seq<T>)
    ensures forall k :: k in m && !(next <= k < next + |rows|) ==>
              k in InsertAt(m, next, rows) && InsertAt(m, next, rows)[k] == m[k]
    ensures forall k :: next <= k < next + |rows| ==>
              k in InsertAt(m, next, rows) && InsertAt(m, next, rows)[k] == rows[k - next]
    ensures forall k :: k in InsertAt(m, next, rows) ==> k in m || next <= k < next + |rows|
    decreases |rows|
  {
    if |rows| > 0 {
      var front := rows[..|rows| - 1];
      InsertAtContents(m, next, front);
    }
  }

  /** `InsertAt` puts row `k - next` under key `k`. */
  lemma {:induction false} InsertAtNew<T>(m: map<int, T>, next: int, rows: seq<T>, k: int)
    requires next <= k < next + |rows|
    ensures k in InsertAt(m, next, rows) && InsertAt(m, next, rows)[k] == rows[k - next]
    decreases |rows|
  {
    if k < next + |rows| - 1 {
      InsertAtNew(m, next, rows[..|rows| - 1], k);
    }
  }

  /** `InsertAt` leaves a key outside its range where it was. */
  lemma {:induction false} InsertAtOld<T>(m: map<int, T>, next: int, rows: seq<T>, k: int)
    requires k in m && !(next <= k < next + |rows|)
    ensures k in InsertAt(m, next, rows) && InsertAt(m, next, rows)[k] == m[k]
    decreases |rows|
  {
    if |rows| > 0 {
      InsertAtOld(m, next, rows[..|rows| - 1], k);
    }
  }

  /** `InsertAt` adds no key outside its range. */
  lemma {:induction false} InsertAtKeys<T>(m: map<int, T>, next: int, rows: seq<T>, k: int)
    requires k in InsertAt(m, next, rows)
    ensures k in m || next <= k < next + |rows|
    decreases |rows|
  {
    if |rows| > 0 && k != next + |rows| - 1 {
      InsertAtKeys(m, next, rows[..|rows| - 1], k);
    }
  }

  /** One more batch inserted after the rows `inserted` went in. */
  lemma InsertAtStep<T>(m: map<int, T>, next: int, inserted: seq<T>, current: map<int, T>, currentNext: int,
                        batch: seq<T>)
    requires current == InsertAt(m, next, inserted) && currentNext == next + |inserted|
    ensures InsertAt(current, currentNext, batch) == InsertAt(m, next, inserted + batch)
  {
    InsertAtAppend(m, next, inserted, batch);
  }

  /** Inserting two batches one after the other is inserting them together. */
  lemma InsertAtAppend<T>(m: map<int, T>, next: int, a: seq<T>, b: seq<T>)
    ensures InsertAt(InsertAt(m, next, a), next + |a|, b) == InsertAt(m, next, a + b)
  {
    var l := InsertAt(InsertAt(m, next, a), next + |a|, b);
    var r := InsertAt(m, next, a + b);
    InsertAtContents(m, next, a);
    InsertAtContents(InsertAt(m, next, a), next + |a|, b);
    InsertAtContents(m, next, a + b);
    forall k
      ensures k in l <==> k in r
      ensures k in l ==> l[k] == r[k]
    {
      if next <= k < next + |a| {
        assert (a + b)[k - next] == a[k - next];
      } else if next + |a| <= k < next + |a| + |b| {
        assert (a + b)[k - next] == b[k - next - |a|];
      }
    }
  }
}
