/** Accounts coming into being, and the operator's bot reset
    (crates/api/src/main.rs register, crates/simulator/src/trader.rs bootstrap,
    scripts/reset-bots.sql). */
module Members {
  import opened FixedPoint
  import opened Sums
  import opened Domain
  import opened State
  import opened Settlement

  function InitialFunding(currency: Currency, bot: bool): int {
    if currency == "USD" then 100_000 * ONE
    else if !bot then 0
    else if currency == "BTC" then ONE
    else if currency == "ETH" then 10 * ONE
    else 100 * ONE
  }

  // The four account rows of each new user.
  function FundedRows(users: set<UserId>, bot: bool): map<AccountKey, Account> {
    map user, c | user in users && c in CURRENCIES :: (user, c) := Account(InitialFunding(c, bot), 0, InitialFunding(c, bot))
  }

  function Register(t: Tables, user: UserId): Tables {
    t.(accounts := t.accounts + FundedRows({user}, false), users := t.users + {user})
  }

  /** A trader's first start; later starts find the row and change nothing. */
  function Bootstrap(t: Tables, trader: string, user: UserId): Tables {
    if trader in t.traders then t else
      t.(accounts := t.accounts + FundedRows({user}, true), users := t.users + {user}, traders := t.traders[trader := user])
  }

  // --- New accounts start clean ------------------------------------------------------------------

  ghost predicate Enrols(t: Tables, r: Tables, news: set<UserId>, bot: bool) {
    && news !! t.users
    && r.accounts == t.accounts + FundedRows(news, bot) && r.users == t.users + news
    && r.orders == t.orders && r.fills == t.fills && r.markets == t.markets && r.nextSequence == t.nextSequence
  }

  // Nothing in the tables mentions a user id that was never drawn.
  lemma StrangerHasNothing(t: Tables, key: AccountKey)
    requires OrdersOk(t) && key.0 !in t.users
    ensures NetFills(t, key) == 0 && OpenReserves(t.orders, key) == 0
  {
    forall f | f in t.fills ensures NetOf(t.orders, key)(f) == 0 {}
    SumZero(t.fills, NetOf(t.orders, key));
    forall id | id in t.orders ensures ReserveOf(t.orders, key)(id) == 0 {}
    SumZero(t.orders.Keys, ReserveOf(t.orders, key));
  }

  lemma OldBalancesStay(t: Tables, r: Tables, news: set<UserId>, bot: bool, key: AccountKey)
    requires HoldingsOk(t) && AvailableOk(t) && Enrols(t, r, news, bot) && key in t.accounts && key.0 !in news
    ensures r.accounts[key].available + r.accounts[key].reserved == r.accounts[key].funded + NetFills(r, key)
    ensures r.accounts[key].available >= -RoundedBuys(r, key)
  {
    assert key !in FundedRows(news, bot);
  }

  lemma NewBalancesStart(t: Tables, r: Tables, news: set<UserId>, bot: bool, key: AccountKey)
    requires OrdersOk(t) && Enrols(t, r, news, bot) && key in FundedRows(news, bot)
    ensures r.accounts[key].available + r.accounts[key].reserved == r.accounts[key].funded + NetFills(r, key)
    ensures r.accounts[key].available >= -RoundedBuys(r, key)
  {
    StrangerHasNothing(t, key);
    RoundedBuysNonNegative(t, key);
  }

  lemma EnrolsBalances(t: Tables, r: Tables, news: set<UserId>, bot: bool)
    requires OrdersOk(t) && AccountsOk(t) && HoldingsOk(t) && AvailableOk(t) && Enrols(t, r, news, bot)
    ensures HoldingsOk(r) && AvailableOk(r)
  {
    forall key | key in r.accounts
      ensures r.accounts[key].available + r.accounts[key].reserved == r.accounts[key].funded + NetFills(r, key)
      ensures r.accounts[key].available >= -RoundedBuys(r, key)
    {
      if key in FundedRows(news, bot) {
        NewBalancesStart(t, r, news, bot, key);
      } else {
        assert key.0 in t.users;
        OldBalancesStay(t, r, news, bot, key);
      }
    }
  }

  lemma EnrolsResiduals(t: Tables, r: Tables, news: set<UserId>, bot: bool)
    requires OrdersOk(t) && AccountsOk(t) && Enrols(t, r, news, bot)
    ensures forall key :: key in t.accounts ==> key in r.accounts && Residual(r, key) == Residual(t, key)
    ensures forall key :: key in r.accounts && key !in t.accounts ==> Residual(r, key) == 0
  {
    forall key | key in t.accounts ensures key !in FundedRows(news, bot) {}
    forall key | key in r.accounts && key !in t.accounts ensures Residual(r, key) == 0 {
      StrangerHasNothing(t, key);
    }
  }

  lemma EnrolsRows(t: Tables, r: Tables, news: set<UserId>, bot: bool)
    requires OrdersOk(t) && FillsOk(t) && QuantitiesOk(t) && OpenLimitOk(t) && Enrols(t, r, news, bot)
    ensures OrdersOk(r) && FillsOk(r) && QuantitiesOk(r) && OpenLimitOk(r)
  {
  }

  lemma EnrolsAccounts(t: Tables, r: Tables, news: set<UserId>, bot: bool)
    requires AccountsOk(t) && Enrols(t, r, news, bot)
    requires forall k :: k in r.traders ==> r.traders[k] in r.users && r.traders[k] != MARKET_MAKER
    ensures AccountsOk(r)
  {
    forall key, c | key in r.accounts && c in CURRENCIES ensures (key.0, c) in r.accounts {
      if key in t.accounts { assert (key.0, c) in t.accounts; } else { assert (key.0, c) in FundedRows(news, bot); }
    }
  }

  /** New accounts keep the invariant; the new rows satisfy the reservation equation. */
  lemma EnrolKeepsInvariant(t: Tables, r: Tables, news: set<UserId>, bot: bool)
    requires Invariant(t) && Enrols(t, r, news, bot)
    requires forall k :: k in r.traders ==> r.traders[k] in r.users && r.traders[k] != MARKET_MAKER
    ensures Invariant(r)
    ensures forall key :: key in t.accounts ==> key in r.accounts && Residual(r, key) == Residual(t, key)
    ensures forall key :: key in r.accounts && key !in t.accounts ==> Residual(r, key) == 0
  {
    EnrolsRows(t, r, news, bot);
    EnrolsAccounts(t, r, news, bot);
    EnrolsBalances(t, r, news, bot);
    EnrolsResiduals(t, r, news, bot);
  }

  // --- Bot reset -----------------------------------------------------------------------------------

  function BotIds(t: Tables): set<UserId> {
    set k | k in t.traders :: t.traders[k]
  }

  function BotOrders(t: Tables): set<OrderId> {
    set id | id in t.orders && t.orders[id].user in BotIds(t)
  }

  predicate Human(t: Tables, id: OrderId) {
    id in t.orders && t.orders[id].user !in BotIds(t) && !t.orders[id].system
  }

  // A trade between a bot and a human, which the script refuses to remove.
  predicate HumanCounterparty(t: Tables, f: Fill) {
    (f.maker in BotOrders(t) || f.taker in BotOrders(t)) && (Human(t, f.maker) || Human(t, f.taker))
  }

  predicate ResetRefused(t: Tables) {
    exists f :: f in t.fills && HumanCounterparty(t, f)
  }

  function NewIds(drawn: map<string, UserId>): set<UserId> {
    set k | k in drawn :: drawn[k]
  }

  /** The whole script: every bot gets the id drawn for it, its orders and their fills
      are deleted, and its account rows are replaced by newly funded ones. */
  function ResetBots(t: Tables, drawn: map<string, UserId>): Tables
    requires drawn.Keys == t.traders.Keys
  {
    if ResetRefused(t) then t else
      var bots, gone := BotIds(t), BotOrders(t);
      var funded := t.accounts + FundedRows(NewIds(drawn), true);
      t.(fills := (set f | f in t.fills && f.maker !in gone && f.taker !in gone :: f),
         orders := map id | id in t.orders && id !in gone :: t.orders[id],
         accounts := map key | key in funded && key.0 !in bots :: funded[key],
         traders := drawn, users := t.users + NewIds(drawn))
  }

  // gen_random_uuid: ids nobody ever had, all different.
  predicate DrawnFresh(t: Tables, drawn: map<string, UserId>) {
    && drawn.Keys == t.traders.Keys && NewIds(drawn) !! t.users
    && forall k, l :: k in drawn && l in drawn && k != l ==> drawn[k] != drawn[l]
  }

  // The tables after the deletions, before new rows arrive.
  ghost predicate Purges(t: Tables, r: Tables) {
    && !ResetRefused(t)
    && r.fills == (set f | f in t.fills && f.maker !in BotOrders(t) && f.taker !in BotOrders(t) :: f)
    && r.orders == (map id | id in t.orders && id !in BotOrders(t) :: t.orders[id])
    && r.accounts == (map key | key in t.accounts && key.0 !in BotIds(t) :: t.accounts[key])
    && r.markets == t.markets && r.users == t.users && r.nextSequence == t.nextSequence && r.traders == map[]
  }

  // A fill that disappears moved nothing in the accounts that stay.
  lemma PurgedFillIsForeign(t: Tables, f: Fill, key: AccountKey)
    requires OrdersOk(t) && FillsOk(t) && !ResetRefused(t) && key.0 !in BotIds(t)
    requires f in t.fills && (f.maker in BotOrders(t) || f.taker in BotOrders(t))
    ensures NetOf(t.orders, key)(f) == 0 && RoundedOf(t.orders, key)(f) == 0
    ensures forall id :: Human(t, id) ==> QuantityOf(id)(f) == 0
  {
    assert !HumanCounterparty(t, f);
    assert FillOk(t.orders, f);
  }

  lemma PurgeKeepsSums(t: Tables, r: Tables, key: AccountKey)
    requires OrdersOk(t) && FillsOk(t) && Purges(t, r) && key.0 !in BotIds(t)
    ensures NetFills(r, key) == NetFills(t, key) && RoundedBuys(r, key) == RoundedBuys(t, key)
    ensures OpenReserves(r.orders, key) == OpenReserves(t.orders, key)
  {
    forall f | f in t.fills && f !in r.fills
      ensures NetOf(t.orders, key)(f) == 0 && RoundedOf(t.orders, key)(f) == 0
    {
      PurgedFillIsForeign(t, f, key);
    }
    SumSubset(t.fills, r.fills, NetOf(t.orders, key));
    SumSubset(t.fills, r.fills, RoundedOf(t.orders, key));
    forall f | f in r.fills
      ensures NetOf(r.orders, key)(f) == NetOf(t.orders, key)(f) && RoundedOf(r.orders, key)(f) == RoundedOf(t.orders, key)(f)
    {
      assert FillOk(t.orders, f);
    }
    SumEqual(r.fills, NetOf(r.orders, key), NetOf(t.orders, key));
    SumEqual(r.fills, RoundedOf(r.orders, key), RoundedOf(t.orders, key));
    SumSubset(t.orders.Keys, r.orders.Keys, ReserveOf(t.orders, key));
    SumEqual(r.orders.Keys, ReserveOf(r.orders, key), ReserveOf(t.orders, key));
  }

  lemma PurgeRows(t: Tables, r: Tables)
    requires OrdersOk(t) && SequencesDistinct(t.orders) && FillsOk(t) && PairsOnce(t.fills) && Purges(t, r)
    ensures OrdersOk(r) && SequencesDistinct(r.orders) && FillsOk(r) && PairsOnce(r.fills)
  {
    forall f | f in r.fills ensures FillOk(r.orders, f) { assert FillOk(t.orders, f); }
  }

  lemma PurgeQuantities(t: Tables, r: Tables)
    requires OrdersOk(t) && FillsOk(t) && QuantitiesOk(t) && Purges(t, r)
    ensures QuantitiesOk(r)
  {
    forall id | id in r.orders && !r.orders[id].system
      ensures r.orders[id].quantity - r.orders[id].remaining == FilledQuantity(r.fills, id)
    {
      forall f | f in t.fills && f !in r.fills ensures QuantityOf(id)(f) == 0 {
        PurgedFillIsForeign(t, f, (t.orders[id].user, "USD"));
        assert Human(t, id);
      }
      SumSubset(t.fills, r.fills, QuantityOf(id));
    }
  }

  lemma PurgeAccounts(t: Tables, r: Tables)
    requires Invariant(t) && Purges(t, r)
    ensures HoldingsOk(r) && AvailableOk(r) && AccountsOk(r) && OpenLimitOk(r)
    ensures forall key :: key in r.accounts ==> key in t.accounts && Residual(r, key) == Residual(t, key)
  {
    forall key | key in r.accounts
      ensures r.accounts[key].available + r.accounts[key].reserved == r.accounts[key].funded + NetFills(r, key)
      ensures r.accounts[key].available >= -RoundedBuys(r, key)
      ensures Residual(r, key) == Residual(t, key)
    {
      PurgeKeepsSums(t, r, key);
    }
    forall user | user != MARKET_MAKER ensures |OpenOrdersOf(r.orders, user)| <= MAX_OPEN {
      FewerOpen(t.orders, r.orders, user);
    }
  }

  /** Deleting the bots keeps the invariant for everyone who stays. */
  lemma PurgeKeepsInvariant(t: Tables, r: Tables)
    requires Invariant(t) && Purges(t, r)
    ensures Invariant(r)
    ensures forall key :: key in r.accounts ==> key in t.accounts && Residual(r, key) == Residual(t, key)
  {
    PurgeRows(t, r);
    PurgeQuantities(t, r);
    PurgeAccounts(t, r);
  }

  lemma BotsAreDrawn(t: Tables)
    requires AccountsOk(t)
    ensures BotIds(t) <= t.users && MARKET_MAKER !in BotIds(t)
  {
  }

  // Filtering out the bots after adding rows of others removes none of the added rows.
  lemma FilterThenAdd(accounts: map<AccountKey, Account>, news: map<AccountKey, Account>, bots: set<UserId>)
    requires forall key :: key in news ==> key.0 !in bots
    ensures (map key | key in accounts + news && key.0 !in bots :: (accounts + news)[key])
         == (map key | key in accounts && key.0 !in bots :: accounts[key]) + news
  {
  }

  lemma FundingSurvives(t: Tables, drawn: map<string, UserId>, kept: map<AccountKey, Account>)
    requires NewIds(drawn) !! t.users && BotIds(t) <= t.users
    requires kept == map key | key in t.accounts && key.0 !in BotIds(t) :: t.accounts[key]
    ensures var funded := t.accounts + FundedRows(NewIds(drawn), true);
            (map key | key in funded && key.0 !in BotIds(t) :: funded[key]) == kept + FundedRows(NewIds(drawn), true)
  {
    var news := FundedRows(NewIds(drawn), true);
    assert forall key :: key in news ==> key.0 in NewIds(drawn);
    FilterThenAdd(t.accounts, news, BotIds(t));
  }

  /** The script is the deletion of the bots followed by enrolling their successors. */
  lemma ResetIsPurgeThenEnrol(t: Tables, drawn: map<string, UserId>) returns (purged: Tables)
    requires AccountsOk(t) && DrawnFresh(t, drawn) && !ResetRefused(t)
    ensures Purges(t, purged) && Enrols(purged, ResetBots(t, drawn), NewIds(drawn), true)
  {
    var kept := map key | key in t.accounts && key.0 !in BotIds(t) :: t.accounts[key];
    purged := Tables(kept,
                     map id | id in t.orders && id !in BotOrders(t) :: t.orders[id],
                     (set f | f in t.fills && f.maker !in BotOrders(t) && f.taker !in BotOrders(t) :: f),
                     t.markets, map[], t.users, t.nextSequence);
    BotsAreDrawn(t);
    FundingSurvives(t, drawn, kept);
  }

  lemma NewTradersOk(t: Tables, drawn: map<string, UserId>)
    requires AccountsOk(t) && DrawnFresh(t, drawn)
    ensures forall k :: k in drawn ==> drawn[k] in t.users + NewIds(drawn) && drawn[k] != MARKET_MAKER
  {
    forall k | k in drawn ensures drawn[k] in NewIds(drawn) && drawn[k] != MARKET_MAKER {
      assert drawn[k] in NewIds(drawn);
    }
  }

  /** A reset keeps the invariant and the reservation equation; it is all or nothing. */
  lemma ResetKeepsInvariant(t: Tables, drawn: map<string, UserId>)
    requires Invariant(t) && DrawnFresh(t, drawn)
    ensures Invariant(ResetBots(t, drawn))
    ensures forall key :: key in ResetBots(t, drawn).accounts ==>
              Residual(ResetBots(t, drawn), key) == if key in t.accounts then Residual(t, key) else 0
    ensures ResetRefused(t) ==> ResetBots(t, drawn) == t
  {
    if !ResetRefused(t) {
      var purged := ResetIsPurgeThenEnrol(t, drawn);
      PurgeKeepsInvariant(t, purged);
      NewTradersOk(t, drawn);
      EnrolAfterPurge(t, purged, ResetBots(t, drawn), NewIds(drawn));
    }
  }

  lemma EnrolAfterPurge(t: Tables, purged: Tables, r: Tables, news: set<UserId>)
    requires Invariant(purged) && AccountsOk(t) && news !! t.users
    requires Enrols(purged, r, news, true) && forall k :: k in r.traders ==> r.traders[k] in r.users && r.traders[k] != MARKET_MAKER
    requires forall key :: key in purged.accounts ==> key in t.accounts && Residual(purged, key) == Residual(t, key)
    ensures Invariant(r)
    ensures forall key :: key in r.accounts ==> Residual(r, key) == if key in t.accounts then Residual(t, key) else 0
  {
    EnrolKeepsInvariant(purged, r, news, true);
    forall key | key in r.accounts ensures Residual(r, key) == if key in t.accounts then Residual(t, key) else 0 {
      if key !in purged.accounts {
        assert key in FundedRows(news, true);
        assert key !in t.accounts;
      }
    }
  }

  lemma ResetSparesAccounts(t: Tables, drawn: map<string, UserId>)
    requires AccountsOk(t) && DrawnFresh(t, drawn) && !ResetRefused(t)
    ensures var r := ResetBots(t, drawn);
            && (forall key :: key in t.accounts && key.0 !in BotIds(t) ==> key in r.accounts && r.accounts[key] == t.accounts[key])
            && (forall key :: key in r.accounts ==> key.0 !in BotIds(t))
  {
    assert BotIds(t) <= t.users;
    forall key | key in t.accounts && key.0 !in BotIds(t) ensures key !in FundedRows(NewIds(drawn), true) {
      assert key.0 in t.users;
    }
  }

  lemma ResetSparesOrders(t: Tables, drawn: map<string, UserId>)
    requires drawn.Keys == t.traders.Keys && !ResetRefused(t)
    ensures var r := ResetBots(t, drawn);
            && (forall id :: id in t.orders && t.orders[id].user !in BotIds(t) ==> id in r.orders && r.orders[id] == t.orders[id])
            && (forall id :: id in r.orders ==> r.orders[id].user !in BotIds(t))
  {
  }

  lemma ResetSparesFills(t: Tables, drawn: map<string, UserId>)
    requires FillsOk(t) && drawn.Keys == t.traders.Keys && !ResetRefused(t)
    ensures var r := ResetBots(t, drawn);
            && (forall f :: f in t.fills && (Human(t, f.maker) || Human(t, f.taker)) ==> f in r.fills)
            && (forall f :: f in r.fills ==> f in t.fills && f.maker in r.orders && f.taker in r.orders)
  {
    var r := ResetBots(t, drawn);
    forall f | f in t.fills && (Human(t, f.maker) || Human(t, f.taker)) ensures f in r.fills {
      assert !HumanCounterparty(t, f);
    }
    forall f | f in r.fills ensures f.maker in r.orders && f.taker in r.orders {
      assert FillOk(t.orders, f);
    }
  }

  /** A committed reset leaves every human account, order and fill as it was, leaves no
      order or account of a bot behind, and leaves no fill without its two orders. */
  lemma ResetSparesHumans(t: Tables, drawn: map<string, UserId>)
    requires AccountsOk(t) && FillsOk(t) && DrawnFresh(t, drawn) && !ResetRefused(t)
    ensures var r := ResetBots(t, drawn);
            && (forall key :: key in t.accounts && key.0 !in BotIds(t) ==> key in r.accounts && r.accounts[key] == t.accounts[key])
            && (forall id :: id in t.orders && t.orders[id].user !in BotIds(t) ==> id in r.orders && r.orders[id] == t.orders[id])
            && (forall f :: f in t.fills && (Human(t, f.maker) || Human(t, f.taker)) ==> f in r.fills)
            && (forall f :: f in r.fills ==> f in t.fills && f.maker in r.orders && f.taker in r.orders)
            && (forall id :: id in r.orders ==> r.orders[id].user !in BotIds(t))
            && (forall key :: key in r.accounts ==> key.0 !in BotIds(t))
  {
    ResetSparesAccounts(t, drawn);
    ResetSparesOrders(t, drawn);
    ResetSparesFills(t, drawn);
  }
}
