/** The value of a user's portfolio at given quotes, as the portfolio page adds it up,
    and how trades at the quoted price change it. */
module Valuation {
  import opened Wrappers
  import opened Tables

  /** price × shares for a row at the given quotes; a row whose symbol has no quote
      contributes nothing (the portfolio page fails before using such a value). */
  function Worth(row: Holding, quote: Symbol -> Option<Quote>): real {
    match quote(row.symbol)
    case Some(q) => Amount(row.shares, q.price)
    case None => 0.0
  }

  /** The sum of the rows' worth, accumulated front to back. It is never negative
      when no row is worth less than nothing. */
  function Value(rows: seq<Holding>, quote: Symbol -> Option<Quote>): (r: real)
    ensures (forall k :: 0 <= k < |rows| ==> Worth(rows[k], quote) >= 0.0) ==> r >= 0.0
    decreases |rows|
  {
    if rows == [] then 0.0 else Value(rows[..|rows| - 1], quote) + Worth(rows[|rows| - 1], quote)
  }

  /** Valuation is additive over concatenation. */
  lemma {:induction false} ValueAppend(a: seq<Holding>, b: seq<Holding>, quote: Symbol -> Option<Quote>)
    ensures Value(a + b, quote) == Value(a, quote) + Value(b, quote)
    decreases |b|
  {
    if b == [] {
      assert a + b == a;
    } else {
      var b' := b[..|b| - 1];
      assert (a + b)[..|a + b| - 1] == a + b';
      assert (a + b)[|a + b| - 1] == b[|b| - 1];
      ValueAppend(a, b', quote);
    }
  }

  /** The value of a user's portfolio changes by exactly the change in worth of a row
      of theirs that is rewritten. */
  lemma UpdateValue(rows: seq<Holding>, i: nat, x: Holding, quote: Symbol -> Option<Quote>)
    requires i < |rows| && rows[i].userid == x.userid
    ensures Value(UserRows(rows[i := x], x.userid), quote)
         == Value(UserRows(rows, x.userid), quote) - Worth(rows[i], quote) + Worth(x, quote)
  {
    var u := x.userid;
    var pre, post := rows[..i], rows[i + 1..];
    assert rows == pre + [rows[i]] + post;
    assert rows[i := x] == pre + [x] + post;
    UserRowsAppend(pre + [rows[i]], post, u);
    UserRowsAppend(pre, [rows[i]], u);
    UserRowsAppend(pre + [x], post, u);
    UserRowsAppend(pre, [x], u);
    assert UserRows([x], u) == UserRows([], u) + [x];
    assert UserRows([rows[i]], u) == UserRows([], u) + [rows[i]];
    ValueAppend(UserRows(pre, u) + [rows[i]], UserRows(post, u), quote);
    ValueAppend(UserRows(pre, u), [rows[i]], quote);
    ValueAppend(UserRows(pre, u) + [x], UserRows(post, u), quote);
    ValueAppend(UserRows(pre, u), [x], quote);
    assert [x][..0] == [] && [rows[i]][..0] == [];
  }

  /** Deleting a row of the user lowers the value of their portfolio by its worth
      (the table is given split around the deleted row). */
  lemma RemoveValue(pre: seq<Holding>, x: Holding, post: seq<Holding>, quote: Symbol -> Option<Quote>)
    ensures Value(UserRows(pre + post, x.userid), quote)
         == Value(UserRows(pre + [x] + post, x.userid), quote) - Worth(x, quote)
  {
    var u := x.userid;
    var a, b := UserRows(pre, u), UserRows(post, u);
    UserRowsAppend(pre + [x], post, u);
    UserRowsAppend(pre, post, u);
    AppendValue(pre, x, quote);
    ValueAppend(UserRows(pre + [x], u), b, quote);
    ValueAppend(a, b, quote);
  }

  /** Appending a row of the user raises the value of their portfolio by its worth. */
  lemma AppendValue(rows: seq<Holding>, x: Holding, quote: Symbol -> Option<Quote>)
    ensures Value(UserRows(rows + [x], x.userid), quote) == Value(UserRows(rows, x.userid), quote) + Worth(x, quote)
  {
    UserRowsAppend(rows, [x], x.userid);
    assert UserRows([x], x.userid) == UserRows([], x.userid) + [x];
    ValueAppend(UserRows(rows, x.userid), [x], quote);
    assert [x][..0] == [];
  }

  /** The two shapes a purchase gives the table. */
  lemma BoughtShape(rows: seq<Holding>, uid: UserId, symbol: Symbol, n: real, price: real, name: string)
    ensures Find(rows, uid, symbol).None? ==>
      Bought(rows, uid, symbol, n, price, name) == rows + [Opened(uid, symbol, n, price, name)]
    ensures Find(rows, uid, symbol).Some? ==>
      var i := Find(rows, uid, symbol).value;
      Bought(rows, uid, symbol, n, price, name) == rows[i := Grown(rows[i], n, price)]
  {
  }

  // Multiplication is kept out of the lemmas about whole tables: each fact about a
  // product is proved on its own, where the solver sees nothing else.

  /** A row of n shares at `price` is worth price × n. */
  lemma WorthOf(row: Holding, n: real, price: real, quote: Symbol -> Option<Quote>)
    requires quote(row.symbol).Some? && quote(row.symbol).value.price == price && row.shares == n
    ensures Worth(row, quote) == Amount(n, price)
  {
  }

  /** Adding n shares at `price` to a row adds n × price to its worth. */
  lemma WorthGrows(row: Holding, n: real, price: real, quote: Symbol -> Option<Quote>)
    requires quote(row.symbol).Some? && quote(row.symbol).value.price == price
    ensures Worth(Grown(row, n, price), quote) == Worth(row, quote) + Amount(n, price)
  {
    AmountSum(row.shares, n, price);
  }

  /** Taking n shares at `price` from a row takes price × n from its worth. */
  lemma WorthShrinks(row: Holding, n: real, price: real, quote: Symbol -> Option<Quote>)
    requires quote(row.symbol).Some? && quote(row.symbol).value.price == price
    ensures Worth(Shrunk(row, n, price), quote) == Worth(row, quote) - Amount(n, price)
  {
    AmountDifference(row.shares, n, price);
  }

  /** Deleting row i of the user lowers the value of their portfolio by its worth. */
  lemma RemoveValueAt(rows: seq<Holding>, i: nat, quote: Symbol -> Option<Quote>)
    requires i < |rows|
    ensures Value(UserRows(RemoveAt(rows, i), rows[i].userid), quote)
         == Value(UserRows(rows, rows[i].userid), quote) - Worth(rows[i], quote)
  {
    SplitAt(rows, i);
    RemoveValue(rows[..i], rows[i], rows[i + 1..], quote);
  }

  /** Buying n shares at the symbol's quoted price raises the value of the user's
      portfolio, at that quote, by exactly the n × price paid. */
  lemma BoughtValue(rows: seq<Holding>, uid: UserId, symbol: Symbol, n: real, price: real, name: string,
                    quote: Symbol -> Option<Quote>)
    requires quote(symbol).Some? && quote(symbol).value.price == price
    ensures Value(UserRows(Bought(rows, uid, symbol, n, price, name), uid), quote)
         == Value(UserRows(rows, uid), quote) + Amount(n, price)
  {
    BoughtShape(rows, uid, symbol, n, price, name);
    var f := Find(rows, uid, symbol);
    if f.None? {
      var row := Opened(uid, symbol, n, price, name);
      AppendValue(rows, row, quote);
      WorthOf(row, n, price, quote);
    } else {
      var i := f.value;
      WorthGrows(rows[i], n, price, quote);
      UpdateValue(rows, i, Grown(rows[i], n, price), quote);
    }
  }

  /** Taking n shares at `price` from row i of the user lowers the value of their
      portfolio by price × n (the table is given split around the row). */
  lemma ShrinkValue(pre: seq<Holding>, r: Holding, post: seq<Holding>, n: real, price: real, quote: Symbol -> Option<Quote>)
    requires quote(r.symbol).Some? && quote(r.symbol).value.price == price
    ensures Value(UserRows(pre + [Shrunk(r, n, price)] + post, r.userid), quote)
         == Value(UserRows(pre + [r] + post, r.userid), quote) - Amount(n, price)
  {
    var u := r.userid;
    var x := Shrunk(r, n, price);
    WorthShrinks(r, n, price, quote);
    UserRowsAppend(pre + [x], post, u);
    UserRowsAppend(pre + [r], post, u);
    AppendValue(pre, x, quote);
    AppendValue(pre, r, quote);
    ValueAppend(UserRows(pre + [x], u), UserRows(post, u), quote);
    ValueAppend(UserRows(pre + [r], u), UserRows(post, u), quote);
  }

  /** ShrinkValue for the pieces of a table around its row i. */
  lemma ShrinkValueAt(rows: seq<Holding>, i: nat, n: real, price: real, quote: Symbol -> Option<Quote>)
    requires i < |rows| && quote(rows[i].symbol).Some? && quote(rows[i].symbol).value.price == price
    ensures Value(UserRows(rows[..i] + [Shrunk(rows[i], n, price)] + rows[i + 1..], rows[i].userid), quote)
         == Value(UserRows(rows[..i] + [rows[i]] + rows[i + 1..], rows[i].userid), quote) - Amount(n, price)
  {
    ShrinkValue(rows[..i], rows[i], rows[i + 1..], n, price, quote);
  }

  /** The valuation of the table is that of its pieces around row i put back together. */
  lemma ValueSplit(rows: seq<Holding>, i: nat, u: UserId, quote: Symbol -> Option<Quote>)
    requires i < |rows|
    ensures Value(UserRows(rows[..i] + [rows[i]] + rows[i + 1..], u), quote) == Value(UserRows(rows, u), quote)
  {
    assert rows[..i] + [rows[i]] + rows[i + 1..] == rows;
  }

  /** Selling a whole row lowers the value of the user's portfolio by its worth. */
  lemma SoldAllValue(rows: seq<Holding>, i: nat, n: real, price: real, quote: Symbol -> Option<Quote>)
    requires i < |rows| && rows[i].shares == n
    requires quote(rows[i].symbol).Some? && quote(rows[i].symbol).value.price == price
    ensures Value(UserRows(Sold(rows, i, n, price), rows[i].userid), quote)
         == Value(UserRows(rows, rows[i].userid), quote) - Amount(n, price)
  {
    RemoveValueAt(rows, i, quote);
    WorthOf(rows[i], n, price, quote);
  }

  /** Selling part of a row lowers the value of the user's portfolio by what it fetched. */
  lemma SoldSomeValue(rows: seq<Holding>, i: nat, n: real, price: real, quote: Symbol -> Option<Quote>)
    requires i < |rows| && rows[i].shares != n
    requires quote(rows[i].symbol).Some? && quote(rows[i].symbol).value.price == price
    ensures Value(UserRows(Sold(rows, i, n, price), rows[i].userid), quote)
         == Value(UserRows(rows, rows[i].userid), quote) - Amount(n, price)
  {
    ShrinkValueAt(rows, i, n, price, quote);
    ValueSplit(rows, i, rows[i].userid, quote);
  }

  /** Selling n shares of a row at its symbol's quoted price lowers the value of the
      user's portfolio, at that quote, by exactly the price × n received. */
  lemma SoldValue(rows: seq<Holding>, i: nat, n: real, price: real, quote: Symbol -> Option<Quote>)
    requires i < |rows| && quote(rows[i].symbol).Some? && quote(rows[i].symbol).value.price == price
    ensures Value(UserRows(Sold(rows, i, n, price), rows[i].userid), quote)
         == Value(UserRows(rows, rows[i].userid), quote) - Amount(n, price)
  {
    if rows[i].shares == n {
      SoldAllValue(rows, i, n, price, quote);
    } else {
      SoldSomeValue(rows, i, n, price, quote);
    }
  }

  /** A purchase at the quoted price leaves the buyer's total (cash plus portfolio
      value at that quote) where it was: the cash paid reappears as holdings. */
  lemma BuyKeepsTotal(users: map<UserId, User>, rows: seq<Holding>, uid: UserId, symbol: Symbol, n: real,
                      price: real, name: string, quote: Symbol -> Option<Quote>)
    requires uid in users && quote(symbol).Some? && quote(symbol).value.price == price
    ensures Debit(users, uid, Amount(n, price))[uid].cash + Value(UserRows(Bought(rows, uid, symbol, n, price, name), uid), quote)
         == users[uid].cash + Value(UserRows(rows, uid), quote)
  {
    BoughtValue(rows, uid, symbol, n, price, name, quote);
  }

  /** A sale at the quoted price leaves the seller's total where it was: the holdings
      given up reappear as cash. */
  lemma SellKeepsTotal(users: map<UserId, User>, rows: seq<Holding>, i: nat, n: real, price: real,
                       quote: Symbol -> Option<Quote>)
    requires i < |rows| && rows[i].userid in users
    requires quote(rows[i].symbol).Some? && quote(rows[i].symbol).value.price == price
    ensures Credit(users, rows[i].userid, Amount(n, price))[rows[i].userid].cash + Value(UserRows(Sold(rows, i, n, price), rows[i].userid), quote)
         == users[rows[i].userid].cash + Value(UserRows(rows, rows[i].userid), quote)
  {
    SoldValue(rows, i, n, price, quote);
  }
}
