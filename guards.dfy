/** The validation guards at the head of each POST handler, as pure functions: each
    returns the apology the handler answers with, or None when every check passes.
    The checks are tried in the order the handlers try them. */
module Guards {
  import opened Wrappers
  import opened Tables

  /** What a handler answers: a redirect, or an apology page with a message and an
      HTTP status code. */
  datatype Response = Redirect(location: string) | Apology(message: string, code: nat)

  /** The page the error handler renders for an exception the handler did not catch. */
  const InternalError: Response := Apology("Internal Server Error", 500)

  /** The checks of `buy`: `shares` is the parsed form field (None when `float()` raised),
      `stock` the quote for the symbol, `cash` the user's balance. */
  function BuyRejection(shares: Option<real>, stock: Option<Quote>, cash: real): (r: Option<Response>)
    ensures r.None? <==> shares.Some? && shares.value >= 1.0 && IsWhole(shares.value)
                         && stock.Some? && Amount(shares.value, stock.value.price) < cash
    ensures r.Some? ==> r.value.Apology? && r.value.code == 400
    ensures r == Some(Apology("Not enough cash", 400)) <==>
              shares.Some? && shares.value >= 1.0 && IsWhole(shares.value)
              && stock.Some? && Amount(shares.value, stock.value.price) >= cash
  {
    if shares.None? then Some(Apology("Enter correct no. of share", 400))
    else if shares.value < 1.0 || !IsWhole(shares.value) then Some(Apology("Enter a valid amount of shares", 400))
    else if stock.None? then Some(Apology("Symbol doesn't exist", 400))
    else if Amount(shares.value, stock.value.price) < cash then None
    else Some(Apology("Not enough cash", 400))
  }

  /** The checks of `sell`: `shares` is the parsed form field, `held` the user's share
      count for the symbol (None when the symbol is not among the user's holdings). */
  function SellRejection(shares: Option<real>, held: Option<real>): (r: Option<Response>)
    ensures r.None? <==> shares.Some? && held.Some? && 1.0 <= shares.value <= held.value && IsWhole(shares.value)
    ensures r.Some? ==> r.value.Apology? && r.value.code == 400
    ensures shares.Some? && held.None? ==> r == Some(Apology("Enter correct symbol", 400))
    ensures shares.Some? && held.Some? && shares.value != 0.0 && shares.value > held.value
            ==> r == Some(Apology("Not enough shares", 400))
  {
    if shares.None? then Some(Apology("Enter correct no. of share", 400))
    else if held.None? then Some(Apology("Enter correct symbol", 400))
    else if shares.value == 0.0 then Some(Apology("Enter amount of shares", 400))
    else if shares.value > held.value then Some(Apology("Not enough shares", 400))
    else if shares.value < 1.0 || !IsWhole(shares.value) then Some(Apology("Enter a positive integer", 400))
    else None
  }

  /** The two messages of `sell` for a count that parsed and a symbol that is held but
      a count that is no sale: zero is asked for again, and a count within the holding
      that is below one or not whole is refused as not a positive integer. */
  lemma SellCountMessages(shares: Option<real>, held: Option<real>)
    requires shares.Some? && held.Some?
    ensures shares.value == 0.0 ==> SellRejection(shares, held) == Some(Apology("Enter amount of shares", 400))
    ensures shares.value != 0.0 && shares.value <= held.value && (shares.value < 1.0 || !IsWhole(shares.value))
            ==> SellRejection(shares, held) == Some(Apology("Enter a positive integer", 400))
  {
  }

  /** The checks of `money`: `amount` is the parsed form field (None when `int()` raised,
      which the error handler turns into its generic page). */
  function MoneyRejection(amount: Option<int>): (r: Option<Response>)
    ensures r.None? <==> amount.Some? && amount.value > 0
    ensures amount.None? ==> r == Some(InternalError)
    ensures amount.Some? && amount.value <= 0 ==> r == Some(Apology("Enter a positive integer", 403))
  {
    if amount.None? then Some(InternalError)
    else if !(amount.value > 0) then Some(Apology("Enter a positive integer", 403))
    else None
  }

  /** The checks of `register`: a missing form field arrives as the empty string;
      `taken` says whether a user with this username exists. */
  function RegisterRejection(name: string, password: string, confirmation: string, taken: bool): (r: Option<Response>)
    ensures r.None? <==> name != "" && password != "" && password == confirmation && !taken
    ensures r.Some? ==> r.value.Apology? && r.value.code == 400
    ensures name != "" && password != "" && password == confirmation && taken
            ==> r == Some(Apology("Username already exists", 400))
  {
    if name == "" then Some(Apology("must provide username", 400))
    else if password == "" then Some(Apology("must provide password", 400))
    else if password != confirmation then Some(Apology("re-enter the same password", 400))
    else if taken then Some(Apology("Username already exists", 400))
    else None
  }
}
