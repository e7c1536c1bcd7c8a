/** What a registration, a trader's first start and the bot reset leave in the tables. */
module Enrolment {
  import opened FixedPoint
  import opened Domain
  import opened State
  import opened Members

  // A new account row.
  function Funded(amount: int): Account {
    Account(amount, 0, amount)
  }

  ghost predicate FundedAs(accounts: map<AccountKey, Account>, user: UserId, usd: int, btc: int, eth: int, sol: int) {
    && (user, "USD") in accounts && accounts[(user, "USD")] == Funded(usd)
    && (user, "BTC") in accounts && accounts[(user, "BTC")] == Funded(btc)
    && (user, "ETH") in accounts && accounts[(user, "ETH")] == Funded(eth)
    && (user, "SOL") in accounts && accounts[(user, "SOL")] == Funded(sol)
    && (forall key :: key in accounts && key.0 == user ==> key.1 in {"USD", "BTC", "ETH", "SOL"})
  }

  lemma RowsOf(news: set<UserId>, bot: bool, user: UserId)
    requires user in news
    ensures FundedAs(FundedRows(news, bot), user, 100_000 * ONE, if bot then ONE else 0, if bot then 10 * ONE else 0, if bot then 100 * ONE else 0)
  {
    var rows := FundedRows(news, bot);
    assert (user, "USD") in rows && (user, "BTC") in rows && (user, "ETH") in rows && (user, "SOL") in rows;
  }

  // The user's new rows, and everyone else's as they were.
  ghost predicate Opened(before: map<AccountKey, Account>, after: map<AccountKey, Account>, user: UserId, usd: int, btc: int, eth: int, sol: int) {
    && FundedAs(after, user, usd, btc, eth, sol)
    && (forall key: AccountKey :: key.0 != user ==> (key in after <==> key in before))
    && (forall key :: key in before ==> key in after && after[key] == before[key])
  }

  lemma RowsOpened(before: map<AccountKey, Account>, user: UserId, bot: bool)
    requires forall key :: key in before ==> key.0 != user
    ensures Opened(before, before + FundedRows({user}, bot), user, 100_000 * ONE,
                   if bot then ONE else 0, if bot then 10 * ONE else 0, if bot then 100 * ONE else 0)
  {
    RowsOf({user}, bot, user);
  }

  /** A registration opens four accounts, a hundred thousand dollars and no coins. */
  lemma RegisterOutcome(t: Tables, user: UserId)
    requires forall key :: key in t.accounts ==> key.0 != user
    ensures var r := Register(t, user);
            r == t.(accounts := r.accounts, users := t.users + {user}) && Opened(t.accounts, r.accounts, user, 100_000 * ONE, 0, 0, 0)
  {
    RowsOpened(t.accounts, user, false);
  }

  /** A trader's first start gives it an account with coins as well; later ones nothing. */
  lemma BootstrapOutcome(t: Tables, trader: string, user: UserId)
    requires forall key :: key in t.accounts ==> key.0 != user
    ensures trader in t.traders ==> Bootstrap(t, trader, user) == t
    ensures trader !in t.traders ==>
              var r := Bootstrap(t, trader, user);
              && r == t.(accounts := r.accounts, users := t.users + {user}, traders := t.traders[trader := user])
              && Opened(t.accounts, r.accounts, user, 100_000 * ONE, ONE, 10 * ONE, 100 * ONE)
  {
    RowsOpened(t.accounts, user, true);
  }

  // The trader's present user is the owner of the order.
  predicate BotOwned(t: Tables, id: OrderId) {
    id in t.orders && exists k :: k in t.traders && t.traders[k] == t.orders[id].user
  }

  predicate HumanOwned(t: Tables, id: OrderId) {
    id in t.orders && !t.orders[id].system && forall k :: k in t.traders ==> t.traders[k] != t.orders[id].user
  }

  // A bot traded with a human.
  predicate Entangled(t: Tables, f: Fill) {
    (BotOwned(t, f.maker) && HumanOwned(t, f.taker)) || (HumanOwned(t, f.maker) && BotOwned(t, f.taker))
  }

  lemma OwnershipIs(t: Tables, id: OrderId)
    ensures id in BotOrders(t) <==> BotOwned(t, id)
    ensures Human(t, id) <==> HumanOwned(t, id)
  {
  }

  lemma RefusedIff(t: Tables)
    ensures ResetRefused(t) <==> exists f :: f in t.fills && Entangled(t, f)
  {
    forall f ensures HumanCounterparty(t, f) <==> Entangled(t, f) {
      OwnershipIs(t, f.maker);
      OwnershipIs(t, f.taker);
    }
  }

  // The tables after a committed reset.
  ghost predicate BotsReplaced(t: Tables, r: Tables, drawn: map<string, UserId>) {
    && r.traders == drawn && r.markets == t.markets && r.nextSequence == t.nextSequence
    && (forall id :: id in r.orders <==> id in t.orders && !BotOwned(t, id))
    && (forall id :: id in r.orders ==> r.orders[id] == t.orders[id])
    && (forall f :: f in r.fills <==> f in t.fills && !BotOwned(t, f.maker) && !BotOwned(t, f.taker))
  }

  ghost predicate BotAccountsReplaced(t: Tables, r: Tables, drawn: map<string, UserId>) {
    && (forall k :: k in drawn ==> FundedAs(r.accounts, drawn[k], 100_000 * ONE, ONE, 10 * ONE, 100 * ONE))
    && (forall key :: key in r.accounts ==> (exists k :: k in drawn && drawn[k] == key.0) || key in t.accounts)
    && (forall key :: key in t.accounts ==>
          if exists k :: k in t.traders && t.traders[k] == key.0 then key !in r.accounts
          else key in r.accounts && r.accounts[key] == t.accounts[key])
  }

  lemma ResetRows(t: Tables, drawn: map<string, UserId>)
    requires drawn.Keys == t.traders.Keys && !ResetRefused(t)
    ensures BotsReplaced(t, ResetBots(t, drawn), drawn)
  {
    forall id ensures id in BotOrders(t) <==> BotOwned(t, id) { OwnershipIs(t, id); }
  }

  lemma ResetAccounts(t: Tables, drawn: map<string, UserId>)
    requires AccountsOk(t) && DrawnFresh(t, drawn) && !ResetRefused(t)
    ensures BotAccountsReplaced(t, ResetBots(t, drawn), drawn)
  {
    var r, news := ResetBots(t, drawn), FundedRows(NewIds(drawn), true);
    BotsAreDrawn(t);
    forall key | key in news ensures key.0 in NewIds(drawn) && key !in t.accounts && key.0 !in BotIds(t) {}
    forall k | k in drawn ensures FundedAs(r.accounts, drawn[k], 100_000 * ONE, ONE, 10 * ONE, 100 * ONE) {
      RowsOf(NewIds(drawn), true, drawn[k]);
      assert drawn[k] in NewIds(drawn) && drawn[k] !in BotIds(t);
    }
  }

  /** The reset is refused, and changes nothing, exactly when a bot traded with a human;
      otherwise the bots' orders, fills and accounts go and their successors are funded. */
  lemma ResetOutcome(t: Tables, drawn: map<string, UserId>)
    requires AccountsOk(t) && DrawnFresh(t, drawn)
    ensures var r := ResetBots(t, drawn);
            if exists f :: f in t.fills && Entangled(t, f) then r == t
            else BotsReplaced(t, r, drawn) && BotAccountsReplaced(t, r, drawn)
  {
    RefusedIff(t);
    if !ResetRefused(t) {
      ResetRows(t, drawn);
      ResetAccounts(t, drawn);
    }
  }
}
