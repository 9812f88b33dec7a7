/** The per-user ledger behind the request handlers of finance/application.py: the
    users, holdings and transactions tables, and the POST branches of `buy`, `sell`,
    `money`, `register` and `login`, plus the portfolio computation of `index`.
    The logged-in user is passed in as `uid`; the quote service is the function
    `quote`; the password hasher and checker are a parameter each. */
module Finance {
  import opened Wrappers
  import opened Tables
  import opened Guards
  import opened Valuation

  /** A line of the portfolio page: a holding whose `price` column is replaced by the
      live quote, with price × shares beside it. */
  datatype Line = Line(symbol: Symbol, name: string, shares: real, price: real, total: real)

  /** The portfolio page, or the error page when a quote lookup fails. */
  datatype Page = Portfolio(lines: seq<Line>, cash: real, total: real) | Failed(response: Response)

  class Ledger {
    var users: map<UserId, User>
    /** The id the next registered user receives. */
    var nextId: UserId
    var holdings: seq<Holding>
    var log: seq<Txn>

    ghost predicate Valid()
      reads this
    {
      Consistent(users, nextId, holdings, log)
    }

    constructor ()
      ensures Valid()
      ensures users == map[] && nextId == 1 && holdings == [] && log == []
    {
      users := map[];
      nextId := 1;
      holdings := [];
      log := [];
    }

    /** The portfolio page: each of the user's holdings priced at its live quote, and
        the grand total of cash plus price × shares over the holdings. A holding whose
        symbol has no quote makes the page fail with the generic error. */
    method Index(uid: UserId, quote: Symbol -> Option<Quote>) returns (page: Page)
      requires uid in users
      ensures var mine := UserRows(holdings, uid);
        page.Failed? <==> exists k :: 0 <= k < |mine| && quote(mine[k].symbol).None?
      ensures page.Failed? ==> page.response == InternalError
      ensures page.Portfolio? ==>
        var mine := UserRows(holdings, uid);
        && page.cash == users[uid].cash
        && page.total == users[uid].cash + Value(mine, quote)
        && |page.lines| == |mine|
        && forall k :: 0 <= k < |mine| ==>
             quote(mine[k].symbol).Some? &&
             var price := quote(mine[k].symbol).value.price;
             page.lines[k] == Line(mine[k].symbol, mine[k].name, mine[k].shares, price, Amount(mine[k].shares, price))
    {
      var mine := UserRows(holdings, uid);
      var lines: seq<Line> := [];
      var sTotal := 0.0;
      var i := 0;
      while i < |mine|
        invariant 0 <= i <= |mine|
        invariant |lines| == i
        invariant forall k :: 0 <= k < i ==>
          quote(mine[k].symbol).Some? &&
          var price := quote(mine[k].symbol).value.price;
          lines[k] == Line(mine[k].symbol, mine[k].name, mine[k].shares, price, Amount(mine[k].shares, price))
        invariant sTotal == Value(mine[..i], quote)
      {
        var stock := quote(mine[i].symbol);
        if stock.None? {
          assert 0 <= i < |mine| && quote(mine[i].symbol).None?;
          assert exists k :: 0 <= k < |UserRows(holdings, uid)| && quote(UserRows(holdings, uid)[k].symbol).None?;
          return Failed(InternalError);
        }
        var price := stock.value.price;
        lines := lines + [Line(mine[i].symbol, mine[i].name, mine[i].shares, price, Amount(mine[i].shares, price))];
        sTotal := sTotal + Amount(mine[i].shares, price);
        assert mine[..i + 1][..i] == mine[..i];
        i := i + 1;
      }
      assert mine[..i] == mine;
      var cash := users[uid].cash;
      page := Portfolio(lines, cash, sTotal + cash);
    }

    /** The symbols the user holds, in table order: the list `sell` checks the
        submitted symbol against. */
    method HeldSymbols(uid: UserId) returns (symbols: seq<Symbol>)
      ensures var mine := UserRows(holdings, uid);
        |symbols| == |mine| && forall k :: 0 <= k < |mine| ==> symbols[k] == mine[k].symbol
      ensures forall s :: s in symbols <==> Holds(holdings, uid, s)
    {
      var mine := UserRows(holdings, uid);
      symbols := [];
      for i := 0 to |mine|
        invariant |symbols| == i
        invariant forall k :: 0 <= k < i ==> symbols[k] == mine[k].symbol
      {
        symbols := symbols + [mine[i].symbol];
      }
      forall s
        ensures s in symbols <==> Holds(holdings, uid, s)
      {
        if s in symbols {
          var k :| 0 <= k < |symbols| && symbols[k] == s;
          UserRowsMembers(holdings, uid, mine[k]);
          var j :| 0 <= j < |holdings| && holdings[j] == mine[k];
        }
        if Holds(holdings, uid, s) {
          var j :| 0 <= j < |holdings| && holdings[j].userid == uid && holdings[j].symbol == s;
          UserRowsMembers(holdings, uid, holdings[j]);
          var k :| 0 <= k < |mine| && mine[k] == holdings[j];
          assert symbols[k] == s;
        }
      }
    }

    /** Buying `shares` of `symbol` at its quote: after the checks of BuyRejection,
        the holding is created or topped up, the cost is taken from the user's cash and
        one transaction of +n shares is logged. */
    method Buy(uid: UserId, symbol: Symbol, shares: Option<real>, quote: Symbol -> Option<Quote>) returns (r: Response)
      requires Valid() && uid in users
      modifies this
      ensures Valid()
      ensures var rejection := BuyRejection(shares, quote(symbol), old(users[uid].cash));
        rejection.Some? ==> r == rejection.value && unchanged(this)
      ensures BuyRejection(shares, quote(symbol), old(users[uid].cash)).None? ==>
        var n, stock := shares.value, quote(symbol).value;
        && r == Redirect("/")
        && nextId == old(nextId)
        && users == Debit(old(users), uid, Amount(n, stock.price))
        && holdings == Bought(old(holdings), uid, symbol, n, stock.price, stock.name)
        && log == old(log) + [Txn(uid, n, symbol, Amount(n, stock.price))]
      ensures r.Redirect? ==> forall u :: u != uid ==> UserRows(holdings, u) == UserRows(old(holdings), u)
    {
      if shares.None? {
        return Apology("Enter correct no. of share", 400);
      }
      var n := shares.value;
      if n < 1.0 || !IsWhole(n) {
        return Apology("Enter a valid amount of shares", 400);
      }
      var stock := quote(symbol);
      if stock.None? {
        return Apology("Symbol doesn't exist", 400);
      }
      var cash := users[uid].cash;
      var price := stock.value.price;
      var cost := Amount(n, price);
      if cost < cash {
        BoughtOk(holdings, users, uid, symbol, n, price, stock.value.name);
        forall u | u != uid
          ensures UserRows(Bought(holdings, uid, symbol, n, price, stock.value.name), u) == UserRows(holdings, u)
        {
          BoughtOthers(holdings, uid, symbol, n, price, stock.value.name, u);
        }
        ghost var after := Bought(holdings, uid, symbol, n, price, stock.value.name);
        match Find(holdings, uid, symbol) {
          case None =>
            holdings := holdings + [Opened(uid, symbol, n, price, stock.value.name)];
          case Some(i) =>
            holdings := holdings[i := Grown(holdings[i], n, price)];
        }
        assert holdings == after;
        TradeConsistent(users, nextId, old(holdings), log, Debit(users, uid, cost), holdings, Txn(uid, n, symbol, cost));
        users := Debit(users, uid, cost);
        log := log + [Txn(uid, n, symbol, cost)];
        r := Redirect("/");
        assert quote(symbol) == stock;
      } else {
        r := Apology("Not enough cash", 400);
      }
    }

    /** Selling `shares` of `symbol` at its quote: after the checks of SellRejection,
        the holding is deleted (all shares sold) or reduced, the proceeds are credited
        and one transaction of -n shares is logged. A symbol the quote service does not
        know at this point raises, and the error handler answers with its generic page. */
    method Sell(uid: UserId, symbol: Symbol, shares: Option<real>, quote: Symbol -> Option<Quote>) returns (r: Response)
      requires Valid() && uid in users
      modifies this
      ensures Valid()
      ensures var rejection := SellRejection(shares, HeldShares(old(holdings), uid, symbol));
        rejection.Some? ==> r == rejection.value && unchanged(this)
      ensures SellRejection(shares, HeldShares(old(holdings), uid, symbol)).None? && quote(symbol).None? ==>
        r == InternalError && unchanged(this)
      ensures SellRejection(shares, HeldShares(old(holdings), uid, symbol)).None? && quote(symbol).Some? ==>
        var n, price := shares.value, quote(symbol).value.price;
        && r == Redirect("/")
        && nextId == old(nextId)
        && users == Credit(old(users), uid, Amount(n, price))
        && holdings == Sold(old(holdings), Find(old(holdings), uid, symbol).value, n, price)
        && log == old(log) + [Txn(uid, -n, symbol, Amount(n, price))]
      ensures r.Redirect? ==> forall u :: u != uid ==> UserRows(holdings, u) == UserRows(old(holdings), u)
    {
      var usymbol := HeldSymbols(uid);
      if shares.None? {
        return Apology("Enter correct no. of share", 400);
      }
      var n := shares.value;
      if symbol !in usymbol {
        return Apology("Enter correct symbol", 400);
      }
      if n == 0.0 {
        return Apology("Enter amount of shares", 400);
      }
      var i := Find(holdings, uid, symbol).value;
      var ushares := holdings[i].shares;
      if n > ushares {
        return Apology("Not enough shares", 400);
      }
      if n < 1.0 || !IsWhole(n) {
        return Apology("Enter a positive integer", 400);
      }
      var stock := quote(symbol);
      if stock.None? {
        return InternalError;
      }
      var price := stock.value.price;
      SaleConsistent(users, nextId, holdings, log, i, n, price);
      ghost var after := Sold(holdings, i, n, price);
      if ushares - n == 0.0 {
        holdings := RemoveAt(holdings, i);
      } else {
        holdings := holdings[..i] + [Shrunk(holdings[i], n, price)] + holdings[i + 1..];
      }
      assert holdings == after;
      users := Credit(users, uid, Amount(n, price));
      log := log + [Txn(uid, -n, symbol, Amount(n, price))];
      assert quote(symbol) == stock;
      r := Redirect("/");
    }

    /** Depositing or withdrawing cash. Withdrawal has no lower bound; an action other
        than "Add" or "Withdraw" changes nothing and still succeeds. */
    method Money(uid: UserId, action: string, amount: Option<int>) returns (r: Response)
      requires Valid() && uid in users
      modifies this
      ensures Valid()
      ensures MoneyRejection(amount).Some? ==> r == MoneyRejection(amount).value && unchanged(this)
      ensures MoneyRejection(amount).None? ==>
        var cash, a := old(users[uid].cash), amount.value as real;
        && r == Redirect("/")
        && nextId == old(nextId) && holdings == old(holdings) && log == old(log)
        && users == old(users)[uid := old(users[uid]).(cash := if action == "Add" then cash + a
                                                              else if action == "Withdraw" then cash - a
                                                              else cash)]
    {
      if amount.None? {
        return InternalError;
      }
      var a := amount.value;
      if !(a > 0) {
        return Apology("Enter a positive integer", 403);
      }
      if action == "Add" {
        users := users[uid := users[uid].(cash := users[uid].cash + a as real)];
      }
      if action == "Withdraw" {
        users := users[uid := users[uid].(cash := users[uid].cash - a as real)];
      }
      r := Redirect("/");
    }

    /** Registering a user: after the checks of RegisterRejection, one row is added
        under a fresh id, with the hash `salted` the password hasher produced and the
        starting cash; no existing row changes. */
    method Register(name: string, password: string, confirmation: string, salted: string) returns (r: Response)
      requires Valid()
      modifies this
      ensures Valid()
      ensures var rejection := RegisterRejection(name, password, confirmation, Named(old(users), name) != {});
        rejection.Some? ==> r == rejection.value && unchanged(this)
      ensures RegisterRejection(name, password, confirmation, Named(old(users), name) != {}).None? ==>
        && r == Redirect("/login")
        && old(nextId) !in old(users)
        && users == old(users)[old(nextId) := User(name, salted, InitialCash)]
        && nextId == old(nextId) + 1
        && holdings == old(holdings) && log == old(log)
    {
      if name == "" {
        return Apology("must provide username", 400);
      } else if password == "" {
        return Apology("must provide password", 400);
      } else if password != confirmation {
        return Apology("re-enter the same password", 400);
      }
      var userlist := Named(users, name);
      if userlist == {} {
        users := users[nextId := User(name, salted, InitialCash)];
        nextId := nextId + 1;
        r := Redirect("/login");
      } else {
        r := Apology("Username already exists", 400);
      }
    }

    /** Logging in: the user is found by name and the password checked against the
        stored hash with `check`. An unknown name and a wrong password get the same
        apology. On success the id to keep in the session is returned. */
    method Login(name: string, password: string, check: (string, string) -> bool) returns (r: Response, session: Option<UserId>)
      ensures name == "" ==> r == Apology("must provide username", 403)
      ensures name != "" && password == "" ==> r == Apology("must provide password", 400)
      ensures name != "" && password != "" && r.Apology? ==> r == Apology("invalid username and/or password", 400)
      ensures r.Redirect? <==> session.Some?
      ensures session.Some? <==>
        name != "" && password != "" && |Named(users, name)| == 1 &&
        forall id :: id in Named(users, name) ==> check(users[id].hash, password)
      ensures session.Some? ==>
        r == Redirect("/") && Named(users, name) == {session.value} && check(users[session.value].hash, password)
    {
      session := None;
      if name == "" {
        return Apology("must provide username", 403), None;
      } else if password == "" {
        return Apology("must provide password", 400), None;
      }
      var rows := Named(users, name);
      if |rows| != 1 {
        return Apology("invalid username and/or password", 400), None;
      }
      var id :| id in rows;
      OnlyMember(rows, id);
      if !check(users[id].hash, password) {
        return Apology("invalid username and/or password", 400), None;
      }
      r, session := Redirect("/"), Some(id);
    }
  }

  // ---------------------------------------------------------------------------
  // scenarios: short request sequences on a fresh store

  /** Quotes with one known symbol. */
  function OneQuote(symbol: Symbol, name: string, price: real): Symbol -> Option<Quote> {
    s => if s == symbol then Some(Quote(name, price, symbol)) else None
  }

  /** A new user buys 10 ACME at 50.00 and sells all 10 at 55.00: the holding is gone,
      the user is 50.00 up on the starting cash, and the log has both trades. */
  method BuyThenSell() returns (r1: Response, r2: Response, cash: real, rows: seq<Holding>, log: seq<Txn>)
    ensures r1 == Redirect("/") && r2 == Redirect("/")
    ensures cash == InitialCash + 50.0
    ensures rows == []
    ensures log == [Txn(1, 10.0, "ACME", 500.0), Txn(1, -10.0, "ACME", 550.0)]
  {
    var ledger := new Ledger();
    var _ := ledger.Register("ann", "pw", "pw", "salted");
    assert ledger.users == map[1 := User("ann", "salted", InitialCash)];
    r1 := ledger.Buy(1, "ACME", Some(10.0), OneQuote("ACME", "Acme Corp", 50.0));
    assert ledger.holdings == [Holding(1, "ACME", 10.0, 500.0, "Acme Corp")];
    r2 := ledger.Sell(1, "ACME", Some(10.0), OneQuote("ACME", "Acme Corp", 55.0));
    cash, rows, log := ledger.users[1].cash, ledger.holdings, ledger.log;
  }

  /** A purchase that would spend exactly the user's whole balance is refused. */
  method SpendAll() returns (r: Response, cash: real, rows: seq<Holding>)
    ensures r == Apology("Not enough cash", 400)
    ensures cash == InitialCash && rows == []
  {
    var ledger := new Ledger();
    var _ := ledger.Register("ann", "pw", "pw", "salted");
    r := ledger.Buy(1, "ACME", Some(10.0), OneQuote("ACME", "Acme Corp", 1000.0));
    cash, rows := ledger.users[1].cash, ledger.holdings;
  }

  /** Withdrawing more than the balance succeeds and leaves the balance negative. */
  method Overdraw() returns (r: Response, cash: real)
    ensures r == Redirect("/") && cash == -10000.0
  {
    var ledger := new Ledger();
    var _ := ledger.Register("ann", "pw", "pw", "salted");
    r := ledger.Money(1, "Withdraw", Some(20000));
    cash := ledger.users[1].cash;
  }

  /** A second registration under a taken name is refused, and the first user can
      log in, by a hash check that accepts the password given at registration. */
  method RegisterTwiceThenLogin() returns (r1: Response, r2: Response, r3: Response, session: Option<UserId>)
    ensures r1 == Redirect("/login")
    ensures r2 == Apology("Username already exists", 400)
    ensures r3 == Redirect("/") && session == Some(1)
  {
    var ledger := new Ledger();
    r1 := ledger.Register("ann", "pw", "pw", "salted:pw");
    assert 1 in Named(ledger.users, "ann");
    r2 := ledger.Register("ann", "other", "other", "salted:other");
    NamedSingleton(ledger.users, 1);
    r3, session := ledger.Login("ann", "pw", (hash, password) => hash == "salted:" + password);
  }
}
