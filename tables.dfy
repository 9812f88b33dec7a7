/** The three tables of finance.db (users, holdings, transactions) as values, with
    the queries the handlers run against them and the facts about those queries
    that the handlers' proofs need. */
module Tables {
  import opened Wrappers

  type UserId = nat
  type Symbol = string

  /** A row of `users`. `hash` is whatever the password hasher produced. */
  datatype User = User(username: string, hash: string, cash: real)

  /** A row of `holdings`. `cost` is the column the source calls `price`: the sum of
      n × price over the purchases, less price × n over the partial sales. */
  datatype Holding = Holding(userid: UserId, symbol: Symbol, shares: real, cost: real, name: string)

  /** A row of `transactions`: `shares` is signed (+n for a buy, -n for a sale) and
      `price` is the total paid or received. The timestamp column is not modelled. */
  datatype Txn = Txn(userid: UserId, shares: real, symbol: Symbol, price: real)

  /** What the quote service returns for a symbol it knows. */
  datatype Quote = Quote(name: string, price: real, symbol: Symbol)

  /** The cash a new user starts with: the default of the `cash` column of the
      users table (10000.00 in the finance.db schema, which is not part of this model). */
  const InitialCash: real := 10000.0

  /** What `shares` shares at `price` each come to: the cost of a purchase and the
      proceeds of a sale, as the ledger moves and records them. */
  function Amount(shares: real, price: real): real {
    shares * price
  }

  /** Amounts add up over share counts. */
  lemma AmountSum(a: real, b: real, price: real)
    ensures Amount(a + b, price) == Amount(a, price) + Amount(b, price)
  {
  }

  /** Amounts subtract over share counts. */
  lemma AmountDifference(a: real, b: real, price: real)
    ensures Amount(a - b, price) == Amount(a, price) - Amount(b, price)
  {
  }

  /** Python's `float.is_integer()` on a finite value. */
  predicate IsWhole(x: real) {
    x.Floor as real == x
  }

  /** A whole number of shares that is not below one is at least one more than any
      smaller whole number: what keeps a partial sale from leaving a fraction behind. */
  lemma WholeDifference(h: real, n: real)
    requires IsWhole(h) && IsWhole(n) && n < h
    ensures IsWhole(h - n) && h - n >= 1.0
  {
    assert h - n == (h.Floor - n.Floor) as real;
  }

  /** Topping up a whole number of shares with a whole number keeps it whole. */
  lemma WholeSum(h: real, n: real)
    requires IsWhole(h) && IsWhole(n)
    ensures IsWhole(h + n)
  {
    assert h + n == (h.Floor + n.Floor) as real;
  }

  /** A sale logs the negated count, which is as whole as the count. */
  lemma WholeNegation(n: real)
    requires IsWhole(n)
    ensures IsWhole(-n)
  {
    assert -n == (-n.Floor) as real;
  }

  // ---------------------------------------------------------------------------
  // users

  /** The ids of the users whose username is `name`: the lookup `register` and `login` run. */
  function Named(users: map<UserId, User>, name: string): (ids: set<UserId>)
    ensures forall id :: id in ids <==> id in users && users[id].username == name
  {
    set id | id in users && users[id].username == name
  }

  /** No two users share a username. */
  predicate UniqueNames(users: map<UserId, User>) {
    forall a, b :: a in users && b in users && users[a].username == users[b].username ==> a == b
  }

  /** The users table after `amount` is added to the user's cash. */
  function Credit(users: map<UserId, User>, uid: UserId, amount: real): (r: map<UserId, User>)
    requires uid in users
    ensures r.Keys == users.Keys && r[uid].cash == users[uid].cash + amount
    ensures r[uid].username == users[uid].username && r[uid].hash == users[uid].hash
    ensures forall id :: id in users && id != uid ==> r[id] == users[id]
  {
    users[uid := users[uid].(cash := users[uid].cash + amount)]
  }

  /** The users table after `amount` is taken from the user's cash. */
  function Debit(users: map<UserId, User>, uid: UserId, amount: real): (r: map<UserId, User>)
    requires uid in users
    ensures r.Keys == users.Keys && r[uid].cash == users[uid].cash - amount
    ensures r[uid].username == users[uid].username && r[uid].hash == users[uid].hash
    ensures forall id :: id in users && id != uid ==> r[id] == users[id]
  {
    users[uid := users[uid].(cash := users[uid].cash - amount)]
  }

  /** A selection of exactly one id is that id alone. */
  lemma OnlyMember(ids: set<UserId>, id: UserId)
    requires |ids| == 1 && id in ids
    ensures ids == {id}
  {
    var rest := ids - {id};
    assert ids == rest + {id};
    assert |rest| == 0;
  }

  /** With unique usernames, a name selects at most one user: a selection for login
      is either empty or a single row. */
  lemma NamedAtMostOne(users: map<UserId, User>, name: string)
    requires UniqueNames(users)
    ensures |Named(users, name)| <= 1
  {
    var ids := Named(users, name);
    if ids != {} {
      var id :| id in ids;
      NamedSingleton(users, id);
    }
  }

  /** With unique usernames, a registered name selects exactly one row. */
  lemma NamedSingleton(users: map<UserId, User>, id: UserId)
    requires UniqueNames(users) && id in users
    ensures Named(users, users[id].username) == {id}
  {
    var ids := Named(users, users[id].username);
    forall other | other in ids ensures other == id {
    }
  }

  // ---------------------------------------------------------------------------
  // holdings

  /** The user's rows of the holdings table, in table order: what `index` and `sell` select. */
  function UserRows(rows: seq<Holding>, uid: UserId): (mine: seq<Holding>)
    ensures |mine| <= |rows|
    ensures forall k :: 0 <= k < |mine| ==> mine[k].userid == uid
    decreases |rows|
  {
    if rows == [] then []
    else
      var last := rows[|rows| - 1];
      UserRows(rows[..|rows| - 1], uid) + (if last.userid == uid then [last] else [])
  }

  /** Filtering distributes over concatenation of tables. */
  lemma {:induction false} UserRowsAppend(a: seq<Holding>, b: seq<Holding>, uid: UserId)
    ensures UserRows(a + b, uid) == UserRows(a, uid) + UserRows(b, uid)
    decreases |b|
  {
    if b == [] {
      assert a + b == a;
    } else {
      var b' := b[..|b| - 1];
      assert (a + b)[..|a + b| - 1] == a + b';
      assert (a + b)[|a + b| - 1] == b[|b| - 1];
      UserRowsAppend(a, b', uid);
    }
  }

  /** A row belongs to the user's selection exactly when it is in the table and is theirs. */
  lemma {:induction false} UserRowsMembers(rows: seq<Holding>, uid: UserId, x: Holding)
    ensures x in UserRows(rows, uid) <==> x in rows && x.userid == uid
    decreases |rows|
  {
    if rows != [] {
      var init := rows[..|rows| - 1];
      assert rows == init + [rows[|rows| - 1]];
      UserRowsMembers(init, uid, x);
    }
  }

  /** The user holds a row for the symbol. */
  predicate Holds(rows: seq<Holding>, uid: UserId, symbol: Symbol) {
    exists i :: 0 <= i < |rows| && rows[i].userid == uid && rows[i].symbol == symbol
  }

  /** The position of the first row for (uid, symbol): the row `buy` tops up and
      `sell` reads and rewrites. */
  function Find(rows: seq<Holding>, uid: UserId, symbol: Symbol): (r: Option<nat>)
    ensures r.Some? ==> r.value < |rows| && rows[r.value].userid == uid && rows[r.value].symbol == symbol
    ensures r.Some? ==> forall j :: 0 <= j < r.value ==> !(rows[j].userid == uid && rows[j].symbol == symbol)
    ensures r.None? <==> !Holds(rows, uid, symbol)
  {
    if rows == [] then None
    else if rows[0].userid == uid && rows[0].symbol == symbol then Some(0)
    else
      match Find(rows[1..], uid, symbol)
      case None =>
        assert forall i :: 1 <= i < |rows| ==> rows[i] == rows[1..][i - 1];
        None
      case Some(i) => Some(i + 1)
  }

  /** The share count of the user's row for the symbol, if there is one. */
  function HeldShares(rows: seq<Holding>, uid: UserId, symbol: Symbol): (r: Option<real>)
    ensures r.Some? <==> Holds(rows, uid, symbol)
    ensures r.Some? ==> exists i :: 0 <= i < |rows| && rows[i].userid == uid && rows[i].symbol == symbol && rows[i].shares == r.value
  {
    match Find(rows, uid, symbol)
    case None => None
    case Some(i) => Some(rows[i].shares)
  }

  /** The table with its i-th row deleted: what a sale of the whole holding does. */
  function RemoveAt(rows: seq<Holding>, i: nat): (r: seq<Holding>)
    requires i < |rows|
    ensures |r| == |rows| - 1
  {
    rows[..i] + rows[i + 1..]
  }

  /** Deleting row i keeps every other row, in order: those after it move up by one. */
  lemma RemoveAtRows(rows: seq<Holding>, i: nat)
    requires i < |rows|
    ensures forall k :: 0 <= k < |rows| - 1 ==> RemoveAt(rows, i)[k] == rows[if k < i then k else k + 1]
  {
  }

  /** A table is the rows before position i, the row at i and the rows after it;
      deleting row i leaves the rows before and after. */
  lemma SplitAt(rows: seq<Holding>, i: nat)
    requires i < |rows|
    ensures rows == rows[..i] + [rows[i]] + rows[i + 1..]
    ensures RemoveAt(rows, i) == rows[..i] + rows[i + 1..]
  {
  }

  /** No two rows share a (userid, symbol) key. */
  predicate UniqueKeys(rows: seq<Holding>) {
    forall i, j :: 0 <= i < j < |rows| ==> rows[i].userid != rows[j].userid || rows[i].symbol != rows[j].symbol
  }

  /** The invariant of the holdings table: every row belongs to a registered user,
      holds a whole number of shares, at least one, and is the only row of its key. */
  predicate HoldingsOk(rows: seq<Holding>, users: map<UserId, User>) {
    && (forall i :: 0 <= i < |rows| ==> rows[i].userid in users && rows[i].shares >= 1.0 && IsWhole(rows[i].shares))
    && UniqueKeys(rows)
  }

  /** The invariant of the transactions log: every entry belongs to a registered user
      and moves a whole, non-zero number of shares. */
  predicate LogOk(log: seq<Txn>, users: map<UserId, User>) {
    forall k :: 0 <= k < |log| ==> log[k].userid in users && IsWhole(log[k].shares) && log[k].shares != 0.0
  }

  /** The invariant of the whole store. `nextId` is above every id handed out so far. */
  predicate Consistent(users: map<UserId, User>, nextId: UserId, holdings: seq<Holding>, log: seq<Txn>) {
    && (forall id :: id in users ==> id < nextId)
    && UniqueNames(users)
    && HoldingsOk(holdings, users)
    && LogOk(log, users)
  }

  /** A trade keeps the store consistent: it changes users' cash only, replaces the
      holdings table with one that keeps its invariant, and logs one entry of that user
      moving a whole, non-zero number of shares. */
  lemma TradeConsistent(users: map<UserId, User>, nextId: UserId, holdings: seq<Holding>, log: seq<Txn>,
                        users': map<UserId, User>, holdings': seq<Holding>, t: Txn)
    requires Consistent(users, nextId, holdings, log)
    requires users'.Keys == users.Keys && forall id :: id in users ==> users'[id].username == users[id].username
    requires HoldingsOk(holdings', users)
    requires t.userid in users && IsWhole(t.shares) && t.shares != 0.0
    ensures Consistent(users', nextId, holdings', log + [t])
  {
  }

  /** Deleting a row keeps the keys unique, and with unique keys the deleted key is gone. */
  lemma RemoveAtKeys(rows: seq<Holding>, i: nat)
    requires i < |rows| && UniqueKeys(rows)
    ensures UniqueKeys(RemoveAt(rows, i))
    ensures !Holds(RemoveAt(rows, i), rows[i].userid, rows[i].symbol)
  {
    var r := RemoveAt(rows, i);
    forall a, b | 0 <= a < b < |r|
      ensures r[a].userid != r[b].userid || r[a].symbol != r[b].symbol
    {
      var a' := if a < i then a else a + 1;
      var b' := if b < i then b else b + 1;
      assert r[a] == rows[a'] && r[b] == rows[b'] && a' < b';
    }
    forall k | 0 <= k < |r|
      ensures !(r[k].userid == rows[i].userid && r[k].symbol == rows[i].symbol)
    {
      var k' := if k < i then k else k + 1;
      assert r[k] == rows[k'] && k' != i;
    }
  }

  /** Rewriting row i with a row of the same user leaves every other user's selection as it was. */
  lemma UpdateOthers(rows: seq<Holding>, i: nat, x: Holding, u: UserId)
    requires i < |rows| && rows[i].userid == x.userid && u != x.userid
    ensures UserRows(rows[i := x], u) == UserRows(rows, u)
  {
    assert rows == rows[..i] + [rows[i]] + rows[i + 1..];
    assert rows[i := x] == rows[..i] + [x] + rows[i + 1..];
    UserRowsAppend(rows[..i] + [rows[i]], rows[i + 1..], u);
    UserRowsAppend(rows[..i], [rows[i]], u);
    UserRowsAppend(rows[..i] + [x], rows[i + 1..], u);
    UserRowsAppend(rows[..i], [x], u);
    assert UserRows([x], u) == UserRows([], u) + [];
    assert UserRows([rows[i]], u) == UserRows([], u) + [];
  }

  /** Deleting a row of another user leaves this user's selection as it was. */
  lemma RemoveOthers(rows: seq<Holding>, i: nat, u: UserId)
    requires i < |rows| && rows[i].userid != u
    ensures UserRows(RemoveAt(rows, i), u) == UserRows(rows, u)
  {
    assert rows == rows[..i] + [rows[i]] + rows[i + 1..];
    UserRowsAppend(rows[..i] + [rows[i]], rows[i + 1..], u);
    UserRowsAppend(rows[..i], [rows[i]], u);
    UserRowsAppend(rows[..i], rows[i + 1..], u);
    assert UserRows([rows[i]], u) == UserRows([], u) + [];
  }

  /** Appending a row of another user leaves this user's selection as it was. */
  lemma AppendOthers(rows: seq<Holding>, x: Holding, u: UserId)
    requires x.userid != u
    ensures UserRows(rows + [x], u) == UserRows(rows, u)
  {
    UserRowsAppend(rows, [x], u);
    assert UserRows([x], u) == UserRows([], u) + [];
  }

  // ---------------------------------------------------------------------------
  // the holdings table after a trade

  /** The table after the user buys n shares of the symbol at `price`: a new row when
      they hold none, otherwise their row with n more shares and n × price more cost. */
  function Bought(rows: seq<Holding>, uid: UserId, symbol: Symbol, n: real, price: real, name: string): (r: seq<Holding>)
    ensures Holds(r, uid, symbol)
    ensures |r| == if Holds(rows, uid, symbol) then |rows| else |rows| + 1
    ensures forall k :: 0 <= k < |rows| && !(rows[k].userid == uid && rows[k].symbol == symbol) ==> r[k] == rows[k]
  {
    match Find(rows, uid, symbol)
    case None =>
      var r := rows + [Opened(uid, symbol, n, price, name)];
      assert r[|rows|].userid == uid && r[|rows|].symbol == symbol;
      r
    case Some(i) =>
      var r := rows[i := Grown(rows[i], n, price)];
      assert r[i].userid == uid && r[i].symbol == symbol;
      r
  }

  /** The table after the user sells n shares of the row at position i at `price`: the
      row deleted when n is all of it, otherwise n fewer shares and price × n less cost. */
  function Sold(rows: seq<Holding>, i: nat, n: real, price: real): (r: seq<Holding>)
    requires i < |rows|
    ensures |r| == if rows[i].shares == n then |rows| - 1 else |rows|
  {
    if rows[i].shares == n then RemoveAt(rows, i)
    else rows[..i] + [Shrunk(rows[i], n, price)] + rows[i + 1..]
  }

  /** The row a first purchase of n shares at `price` opens. */
  function Opened(uid: UserId, symbol: Symbol, n: real, price: real, name: string): (r: Holding)
    ensures r.userid == uid && r.symbol == symbol && r.name == name && r.shares == n
    ensures r.cost == Amount(n, price)
  {
    Holding(uid, symbol, n, Amount(n, price), name)
  }

  /** A row after n more shares are bought at `price`. */
  function Grown(row: Holding, n: real, price: real): (r: Holding)
    ensures r.userid == row.userid && r.symbol == row.symbol && r.name == row.name
    ensures r.shares == row.shares + n
    ensures r.cost == row.cost + Amount(n, price)
  {
    row.(shares := row.shares + n, cost := row.cost + Amount(n, price))
  }

  /** A row after n of its shares are sold at `price`. */
  function Shrunk(row: Holding, n: real, price: real): (r: Holding)
    ensures r.userid == row.userid && r.symbol == row.symbol && r.name == row.name
    ensures r.shares == row.shares - n
    ensures r.cost == row.cost - Amount(n, price)
  {
    row.(shares := row.shares - n, cost := row.cost - Amount(n, price))
  }

  /** Rewriting row i in place is splicing the new row between the rows around it. */
  lemma UpdateIsSplice(rows: seq<Holding>, i: nat, x: Holding)
    requires i < |rows|
    ensures rows[..i] + [x] + rows[i + 1..] == rows[i := x]
  {
  }

  /** After a purchase the user holds the symbol, with exactly n more shares than before. */
  lemma BoughtShares(rows: seq<Holding>, uid: UserId, symbol: Symbol, n: real, price: real, name: string)
    requires UniqueKeys(rows)
    ensures var after := Bought(rows, uid, symbol, n, price, name);
      HeldShares(after, uid, symbol) == Some(match HeldShares(rows, uid, symbol) case None => n case Some(h) => h + n)
  {
    var after := Bought(rows, uid, symbol, n, price, name);
    match Find(rows, uid, symbol)
    case None =>
      assert after[|rows|].userid == uid && after[|rows|].symbol == symbol;
      assert Holds(after, uid, symbol);
      forall j | 0 <= j < |rows| ensures after[j] == rows[j] {
      }
    case Some(i) =>
      assert after[i].userid == uid && after[i].symbol == symbol;
      assert Holds(after, uid, symbol);
      forall j | 0 <= j < i ensures after[j] == rows[j] {
      }
  }

  /** A purchase keeps the table's invariant. */
  lemma BoughtOk(rows: seq<Holding>, users: map<UserId, User>, uid: UserId, symbol: Symbol, n: real, price: real, name: string)
    requires HoldingsOk(rows, users) && uid in users && n >= 1.0 && IsWhole(n)
    ensures HoldingsOk(Bought(rows, uid, symbol, n, price, name), users)
  {
    var after := Bought(rows, uid, symbol, n, price, name);
    match Find(rows, uid, symbol)
    case None =>
      forall i, j | 0 <= i < j < |after|
        ensures after[i].userid != after[j].userid || after[i].symbol != after[j].symbol
      {
        if j == |rows| {
          assert after[i] == rows[i];
        }
      }
    case Some(k) =>
      WholeSum(rows[k].shares, n);
  }

  /** A sale of a whole number of shares, at least one and at most the row's count,
      keeps the table's invariant; selling the whole row removes the user's holding
      of the symbol. */
  lemma SoldOk(rows: seq<Holding>, users: map<UserId, User>, i: nat, n: real, price: real)
    requires HoldingsOk(rows, users) && i < |rows| && 1.0 <= n <= rows[i].shares && IsWhole(n)
    ensures HoldingsOk(Sold(rows, i, n, price), users)
    ensures n == rows[i].shares ==> !Holds(Sold(rows, i, n, price), rows[i].userid, rows[i].symbol)
  {
    if rows[i].shares == n {
      RemoveAtKeys(rows, i);
      var r := RemoveAt(rows, i);
      forall k | 0 <= k < |r|
        ensures r[k].userid in users && r[k].shares >= 1.0 && IsWhole(r[k].shares)
      {
        assert r[k] == rows[if k < i then k else k + 1];
      }
    } else {
      WholeDifference(rows[i].shares, n);
      UpdateIsSplice(rows, i, Shrunk(rows[i], n, price));
    }
  }

  /** A sale keeps every other row, in order: the rows before position i stay where
      they are, and the rows after it move up by one when the row is deleted. */
  lemma SoldRows(rows: seq<Holding>, i: nat, n: real, price: real)
    requires i < |rows|
    ensures var r := Sold(rows, i, n, price);
      && (forall k :: 0 <= k < i ==> r[k] == rows[k])
      && (forall k :: i < k < |rows| ==> r[if rows[i].shares == n then k - 1 else k] == rows[k])
  {
    if rows[i].shares != n {
      UpdateIsSplice(rows, i, Shrunk(rows[i], n, price));
    }
  }

  /** After a partial sale the user still holds the symbol, with exactly n fewer shares. */
  lemma SoldShares(rows: seq<Holding>, i: nat, n: real, price: real)
    requires UniqueKeys(rows) && i < |rows| && n < rows[i].shares
    ensures HeldShares(Sold(rows, i, n, price), rows[i].userid, rows[i].symbol) == Some(rows[i].shares - n)
  {
    var after := Sold(rows, i, n, price);
    var uid, symbol := rows[i].userid, rows[i].symbol;
    assert after[i] == Shrunk(rows[i], n, price);
    assert Holds(after, uid, symbol);
    forall j | 0 <= j < |after| && j != i
      ensures !(after[j].userid == uid && after[j].symbol == symbol)
    {
      assert after[j] == rows[j];
    }
  }

  /** A sale of a whole number of shares, at least one and at most the held count,
      keeps the whole store consistent once the proceeds are credited and the -n entry
      is logged, and it leaves every other user's rows as they were. */
  lemma SaleConsistent(users: map<UserId, User>, nextId: UserId, holdings: seq<Holding>, log: seq<Txn>,
                       i: nat, n: real, price: real)
    requires Consistent(users, nextId, holdings, log)
    requires i < |holdings| && 1.0 <= n <= holdings[i].shares && IsWhole(n)
    ensures var uid, after := holdings[i].userid, Sold(holdings, i, n, price);
      && Consistent(Credit(users, uid, Amount(n, price)), nextId, after,
                    log + [Txn(uid, -n, holdings[i].symbol, Amount(n, price))])
      && forall u :: u != uid ==> UserRows(after, u) == UserRows(holdings, u)
  {
    var uid := holdings[i].userid;
    SoldOk(holdings, users, i, n, price);
    WholeNegation(n);
    TradeConsistent(users, nextId, holdings, log, Credit(users, uid, Amount(n, price)),
                    Sold(holdings, i, n, price), Txn(uid, -n, holdings[i].symbol, Amount(n, price)));
    forall u | u != uid
      ensures UserRows(Sold(holdings, i, n, price), u) == UserRows(holdings, u)
    {
      SoldOthers(holdings, i, n, price, u);
    }
  }

  /** A purchase touches no other user's rows. */
  lemma BoughtOthers(rows: seq<Holding>, uid: UserId, symbol: Symbol, n: real, price: real, name: string, u: UserId)
    requires u != uid
    ensures UserRows(Bought(rows, uid, symbol, n, price, name), u) == UserRows(rows, u)
  {
    match Find(rows, uid, symbol)
    case None =>
      AppendOthers(rows, Opened(uid, symbol, n, price, name), u);
    case Some(i) =>
      UpdateOthers(rows, i, Grown(rows[i], n, price), u);
  }

  /** A sale touches no other user's rows. */
  lemma SoldOthers(rows: seq<Holding>, i: nat, n: real, price: real, u: UserId)
    requires i < |rows| && u != rows[i].userid
    ensures UserRows(Sold(rows, i, n, price), u) == UserRows(rows, u)
  {
    if rows[i].shares == n {
      RemoveOthers(rows, i, u);
    } else {
      var x := Shrunk(rows[i], n, price);
      UpdateIsSplice(rows, i, x);
      UpdateOthers(rows, i, x, u);
    }
  }
}
