# CS50 Finance ledger, in Dafny

This project models the per-user ledger behind the POST handlers of
`finance/application.py`, a Flask stock-trading simulator. Users register, log in,
buy and sell shares at prices from an external quote service, and deposit or
withdraw virtual cash. The portfolio page adds up what they own.

The state is the application's three tables:

- `users`: a map from id to username, password hash and cash. It comes with the
  next id to hand out.
- `holdings`: a sequence of rows in table order, one per (user, symbol). Each row
  has a share count, the accumulated cost column (the source calls it `price`) and
  the company name.
- `transactions`: an append-only log of (user, signed share count, symbol, total
  price) entries.

`Finance.Ledger` is a class with these tables as fields. It has one method per
handler: `Buy`, `Sell`, `Money`, `Register`, `Login` and `Index`. Each method's
`ensures` gives the exact new state, or says that nothing changed and which apology
came back.

The rules live in three pure modules:

- `Guards` holds the validation checks of `buy`, `sell`, `money` and `register`, in
  the order each handler tries them. The checks of `login` are in `Ledger.Login`, and
  `index` has none.
- `Tables` holds the row-level effect of a trade (`Bought`, `Sold`), the store
  invariant, and lemmas about both.
- `Valuation` holds the portfolio value (`Value`, the sum of price × shares) and
  proves how a trade at the quoted price changes it. For example, a trade leaves a
  user's total (cash plus holdings) where it was.

Modelling choices:

- **Quotes, hashing and the session are parameters.** The quote service is a
  function `Symbol -> Option<Quote>`. The password hash comes in as a string, and
  the hash check as a function. The logged-in user is a `uid` argument.
- **Form input arrives parsed.** A share count is an `Option<real>`, where `None`
  means `float()` raised `ValueError`. An amount is an `Option<int>`. A missing text
  field is the empty string.
- **Numbers are Dafny `real`s.** Share counts and money are `real`, and every money
  amount a trade moves or records is `Amount(shares, price)`. The cash `money` adds or
  withdraws is the form's integer amount as a real. `is_integer()` is `IsWhole`.
- **Uncaught exceptions become the generic 500 page.** Two uncaught exceptions are
  modelled: `lookup` finding no quote in `sell` (`finance/application.py:283-284`) or
  in `index` (58-59), and `int()` failing in `money` (316). The error handler
  (`finance/application.py:331-340`) turns both into the generic "Internal Server
  Error" apology with status 500.
  Nothing is written before either failure, so the model returns `InternalError`
  and leaves the state unchanged.
- **`sell` runs its checks in the code's order.** `sell`
  parses the share count before it checks the symbol against the user's holdings.
  It answers "Enter amount of shares" for 0 before it compares the count with the
  holding. The model keeps that order.
- **New users start with 10000.0 in cash.** The `users` table's default gives this
  value (`InitialCash`). The schema itself is not part of this model.

## Model

| member | source | states |
|---|---|---|
| Guards.BuyRejection | finance/application.py:78-126 | buy passes its checks exactly when the count parsed, is whole and at least 1, the symbol has a quote, and n × price is strictly below cash; every rejection is a 400, and "Not enough cash" is answered exactly when the cost is at or above the balance |
| Guards.SellRejection | finance/application.py:254-278 | sell passes exactly when the count parsed, the symbol is held, and the count is whole with 1 ≤ n ≤ held; every rejection is a 400; an unheld symbol gets "Enter correct symbol"; a non-zero count above the holding gets "Not enough shares" (the other two messages are in `Guards.SellCountMessages`) |
| Guards.SellCountMessages | finance/application.py:266-278 | with a parsed count and a held symbol, a count of 0 gets "Enter amount of shares", and a non-zero count within the holding that is below 1 or not whole gets "Enter a positive integer" |
| Guards.MoneyRejection | finance/application.py:316-320 | money passes exactly for a parsed amount above 0; an unparsable amount is the generic 500 page and a non-positive one is "Enter a positive integer" with 403 |
| Guards.RegisterRejection | finance/application.py:222-235 | register passes exactly for a non-empty username and password, a matching confirmation and an unused name; every rejection is a 400, a taken name gets "Username already exists" |
| Tables.NamedAtMostOne | finance/application.py:165-169 | while usernames are unique, the selection login runs for a name has at most one row, so its single-row test fails only for an unknown name |
| Tables.NamedSingleton | finance/application.py:230-232 | while usernames are unique, a registered name selects exactly its own id, which is what lets login find one row |
| Tables.Credit | finance/application.py:289 | crediting changes only the user's cash, by exactly the amount, and keeps every id and every other user |
| Tables.Debit | finance/application.py:109 | debiting changes only the user's cash, by exactly the amount, and keeps every id and every other user |
| Tables.UserRows | finance/application.py:52 | the user's selection holds only their rows and is no longer than the table |
| Tables.UserRowsAppend | finance/application.py:52 | selecting a user's rows distributes over concatenation of tables |
| Tables.UserRowsMembers | finance/application.py:244-246 | a row is in the user's selection exactly when it is in the table and belongs to them |
| Tables.Find | finance/application.py:270-271 | the found position holds the (user, symbol) row and no earlier row does; nothing is found exactly when the user does not hold the symbol |
| Tables.HeldShares | finance/application.py:270-271 | a share count is returned exactly when the user holds the symbol, and it is that row's count |
| Tables.RemoveAt | finance/application.py:288 | deleting a row shortens the table by one |
| Tables.RemoveAtRows | finance/application.py:288 | deleting a row keeps every other row in table order: the rows before it stay put and the rows after it move up by one |
| Tables.RemoveAtKeys | finance/application.py:288 | deleting a row keeps (user, symbol) keys unique, and with unique keys the deleted key is no longer held |
| Tables.AppendOthers | finance/application.py:107 | inserting a row of one user leaves every other user's selection unchanged |
| Tables.UpdateOthers | finance/application.py:117 | rewriting a row of one user leaves every other user's selection unchanged |
| Tables.RemoveOthers | finance/application.py:288 | deleting a row of one user leaves every other user's selection unchanged |
| Tables.Opened | finance/application.py:107 | a first purchase opens a row of the user and symbol with exactly n shares and a cost column of n × price |
| Tables.Grown | finance/application.py:117 | a top-up keeps the row's key and name, adds exactly n shares and adds n × price to the cost column |
| Tables.Shrunk | finance/application.py:297 | a partial sale keeps the row's key and name, removes exactly n shares and takes price × n from the cost column |
| Tables.Bought | finance/application.py:104-117 | after a purchase the user holds the symbol; the table grows by one row exactly when they held none, and every row of another key is kept where it was (partners: `BoughtShares`, `BoughtOk`, `BoughtOthers`, `Valuation.BoughtValue`) |
| Tables.Sold | finance/application.py:287-297 | a sale deletes one row exactly when it sells the whole holding and otherwise keeps the table's length (partners: `SoldRows`, `SoldShares`, `SoldOk`, `SoldOthers`, `Valuation.SoldValue`) |
| Tables.BoughtShares | finance/application.py:104-117 | after a purchase the user holds the symbol with exactly n more shares than before, or n when they held none |
| Tables.BoughtOk | finance/application.py:104-117 | a purchase of a whole count of at least 1 keeps the holdings invariant (registered owners, whole counts of at least 1, unique keys) |
| Tables.SoldOk | finance/application.py:287-297 | a sale of a whole count between 1 and the holding keeps the holdings invariant, and a sale of the whole holding removes it |
| Tables.SoldRows | finance/application.py:287-297 | a sale keeps every other row in table order: rows before the sold one stay put, rows after it move up by one when it is deleted |
| Tables.SoldShares | finance/application.py:295-297 | after a partial sale the user still holds the symbol, with exactly n fewer shares |
| Tables.BoughtOthers | finance/application.py:104-117 | a purchase leaves every other user's holdings unchanged |
| Tables.SoldOthers | finance/application.py:287-297 | a sale leaves every other user's holdings unchanged |
| Tables.TradeConsistent | finance/application.py:104-121 | a trade that changes cash only, keeps the holdings invariant and logs one whole, non-zero move by a registered user keeps the whole store consistent |
| Tables.SaleConsistent | finance/application.py:283-298 | a whole sale between 1 and the holding, with the proceeds credited and the -n entry logged, keeps the whole store consistent and leaves every other user's rows as they were |
| Valuation.Value | finance/application.py:57-61 | the portfolio sum of price × shares over the rows, front to back; it is never negative when no row is worth less than nothing (partners: `ValueAppend`, and `Finance.Ledger.Index`, whose loop computes it) |
| Valuation.ValueAppend | finance/application.py:57-61 | the portfolio sum is additive over concatenation |
| Valuation.AppendValue | finance/application.py:57-61 | appending a row of the user raises their portfolio value by its worth |
| Valuation.UpdateValue | finance/application.py:57-61 | rewriting a row of the user changes their portfolio value by exactly the change in its worth |
| Valuation.RemoveValue | finance/application.py:57-61 | deleting a row of the user lowers their portfolio value by its worth |
| Valuation.RemoveValueAt | finance/application.py:288 | deleting the row at a position lowers its owner's portfolio value by its worth |
| Valuation.WorthGrows | finance/application.py:117 | topping up n shares at the quoted price adds exactly n × price to the row's worth |
| Valuation.WorthShrinks | finance/application.py:297 | selling n shares at the quoted price takes exactly n × price from the row's worth |
| Valuation.BoughtValue | finance/application.py:101-117 | buying n shares at the quoted price raises the user's portfolio value by exactly the cost |
| Valuation.ShrinkValue | finance/application.py:297 | reducing a row of the user by n shares at the quoted price lowers their portfolio value by exactly n × price |
| Valuation.ShrinkValueAt | finance/application.py:297 | the same as ShrinkValue, for the row at a given position |
| Valuation.SoldAllValue | finance/application.py:287-289 | selling a whole holding at the quoted price lowers the portfolio value by exactly the proceeds |
| Valuation.SoldSomeValue | finance/application.py:295-298 | selling part of a holding at the quoted price lowers the portfolio value by exactly the proceeds |
| Valuation.SoldValue | finance/application.py:287-298 | any sale at the quoted price lowers the seller's portfolio value by exactly n × price |
| Valuation.BuyKeepsTotal | finance/application.py:101-119 | after a purchase at the quoted price, cash plus portfolio value is what it was |
| Valuation.SellKeepsTotal | finance/application.py:283-298 | after a sale at the quoted price, cash plus portfolio value is what it was |
| Finance.Ledger.Index | finance/application.py:47-67 | the page fails with the generic 500 page exactly when one of the user's holdings has no quote; otherwise it lists every holding in table order with its live price and price × shares, and the total is cash plus the portfolio value |
| Finance.Ledger.HeldSymbols | finance/application.py:243-246 | the list has the symbols of the user's rows in table order, and a symbol is in it exactly when the user holds it |
| Finance.Ledger.Buy | finance/application.py:72-126 | a rejection returns its apology and changes nothing; otherwise the user is debited n × price, the holding is opened or topped up (`Bought`), one +n entry is logged, other users' holdings are untouched and the store stays consistent |
| Finance.Ledger.Sell | finance/application.py:239-301 | a rejection returns its apology and changes nothing; a symbol without a quote gives the 500 page and changes nothing; otherwise the user is credited n × price, the holding is deleted or reduced (`Sold`), one -n entry is logged, other users' holdings are untouched and the store stays consistent |
| Finance.Ledger.Money | finance/application.py:309-328 | a rejection returns its apology and changes nothing; otherwise "Add" raises and "Withdraw" lowers the user's cash by the amount with no lower bound, any other action changes nothing, and the answer is the redirect |
| Finance.Ledger.Register | finance/application.py:215-235 | a rejection returns its apology and changes nothing; otherwise exactly one user, with the starting cash, is added under an unused id, and nothing else changes |
| Finance.Ledger.Login | finance/application.py:157-175 | empty fields get their own apologies; an unknown name and a wrong password get the same "invalid username and/or password"; a session is returned exactly when the name selects one user whose hash accepts the password |
| Finance.BuyThenSell | finance/application.py:287-292 | buying 10 at 50.00 and selling all 10 at 55.00 leaves no holding, cash 50.00 above the start, and the two log entries (+10, 500.00) and (-10, 550.00) |
| Finance.SpendAll | finance/application.py:101 | a purchase costing exactly the whole balance is refused with "Not enough cash" and changes nothing |
| Finance.Overdraw | finance/application.py:325-326 | withdrawing more than the balance succeeds and leaves the cash negative |
| Finance.RegisterTwiceThenLogin | finance/application.py:230-235 | a second registration under a taken name is refused, and the first user can then log in |

Arithmetic and shape helpers (`Amount`, `AmountSum`, `AmountDifference`, `IsWhole`,
`WholeSum`, `WholeDifference`, `WholeNegation`, `Named`, `SplitAt`, `UpdateIsSplice`,
`Worth`, `WorthOf`, `BoughtShape`, `ValueSplit`, `OnlyMember`) carry contracts of their
own but model no line of the handlers by themselves, so they have no row.

## Left out

- The GET branches, routing, `login_required`, session storage, templates and the `usd` filter are web plumbing. The model returns a `Response` and takes the logged-in user as an argument.
- `quote`, `history`, `logout`, the `after_request` cache headers and the `API_KEY` start-up check are not part of this model. They read or pass data through and change no table.
- The quote service `lookup` and the werkzeug password hashing are foreign calls. They are parameters.
- The debugging `print` of the share count in `sell` (`finance/application.py:296`) writes to the console and changes no table; it is not modelled.
- Timestamps of transactions (`datetime('now')`) are wall-clock values and are not modelled.
- IEEE floating point is not modelled. Prices, cash and share counts are exact reals, so rounding in `float` arithmetic and the NaN and infinity inputs `float()` accepts are out of scope.
- A missing `shares` field makes `float(None)` raise `TypeError` rather than `ValueError`, which ends in the generic 500 page. The model has only parsed counts and `None`, which stands for the `ValueError` apology.
- Each handler is modelled as one atomic step. The program's several separate writes, and races between concurrent requests, are not modelled.
- The database schema (column defaults, types) is not part of this model; `InitialCash` stands for the default starting cash.
- Finance.Ledger.Buy and Finance.Ledger.Sell: the statement that the user's cash plus portfolio value is unchanged by a trade is proved on the tables (`Valuation.BuyKeepsTotal`, `Valuation.SellKeepsTotal`) rather than repeated in the methods' `ensures`.
