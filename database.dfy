/** The database as the route handlers see it: one mutable table per field. */
module Database {
  import opened Tables

  class Store {
    var groups: map<int, RegoGroup>                       // REGO_GROUP
    var regos: map<int, Rego>                             // REGO
    var trades: map<int, RegoTradeInfo>                   // REGO_TRADE_INFO
    var buyingRegos: map<int, BuyingRego>                 // BUYING_REGO
    var confirmations: map<int, RegoConfirmation>         // REGO_CONFIRMATION
    var issueLines: map<int, CertificationIssueRego>      // CERTIFICATION_ISSUE_REGO
    var providers: map<string, Account>                   // PROVIDER
    var consumers: map<string, Account>                   // CONSUMER
    var nextGroupId: int
    var nextRegoId: int
    var nextTradeId: int
    var nextBuyingRegoId: int
    var nextConfirmationId: int
    var nextIssueLineId: int

    /** The current contents of every table. */
    function Snapshot(): Db
      reads this
    {
      Db(Table(groups, nextGroupId), Table(regos, nextRegoId), Table(trades, nextTradeId),
         Table(buyingRegos, nextBuyingRegoId), Table(confirmations, nextConfirmationId),
         Table(issueLines, nextIssueLineId), providers, consumers)
    }

    ghost predicate Valid()
      reads this
    {
      Snapshot().Valid()
    }

    /** An empty database whose generated keys start at 1. */
    constructor ()
      ensures Valid()
      ensures Snapshot() == Db(Table(map[], 1), Table(map[], 1), Table(map[], 1), Table(map[], 1),
                               Table(map[], 1), Table(map[], 1), map[], map[])
    {
      groups, regos, trades, buyingRegos := map[], map[], map[], map[];
      confirmations, issueLines, providers, consumers := map[], map[], map[], map[];
      nextGroupId, nextRegoId, nextTradeId := 1, 1, 1;
      nextBuyingRegoId, nextConfirmationId, nextIssueLineId := 1, 1, 1;
    }
  }
}
