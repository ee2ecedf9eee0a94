/** The `match` chapter: coin values and adding one inside an `Option`. */
module MatchControlFlow {
  import opened Prelude

  /** The states the enum `UsState` lists before it elides the rest. */
  datatype UsState = Alabama | Alaska | Georgia | Florida | California

  datatype Coin = Penny | Nickel | Dime | Quarter(state: UsState)

  /** `value_in_cents` (the printing in two arms is not modelled). */
  function ValueInCents(coin: Coin): (cents: u8)
    ensures cents in {1, 5, 10, 25}
  {
    match coin
    case Penny => 1
    case Nickel => 5
    case Dime => 10
    case Quarter(state) => 25
  }

  /** The value table; a quarter is worth 25 from every state. */
  lemma CoinValues(state: UsState)
    ensures ValueInCents(Penny) == 1 && ValueInCents(Nickel) == 5 && ValueInCents(Dime) == 10
    ensures ValueInCents(Quarter(state)) == 25 == ValueInCents(Quarter(Alabama))
  {
  }

  /** Two coins are worth the same exactly when they are the same kind of coin. */
  lemma ValueIdentifiesKind(a: Coin, b: Coin)
    ensures ValueInCents(a) == ValueInCents(b) <==> a == b || (a.Quarter? && b.Quarter?)
  {
  }

  /** `plus_one`; `i + 1` beyond `i32` panics, so it is excluded. */
  function PlusOne(x: Option<i32>): (r: Option<i32>)
    requires x.Some? ==> x.value < I32_MAX
    ensures r.None? <==> x.None?
    ensures r.Some? ==> r.value - 1 == x.value
  {
    match x
    case None => None
    case Some(i) => Some(i + 1)
  }

  /** `main`: `plus_one(Some(5))` is `Some(6)` and `plus_one(None)` is `None`. */
  lemma MainPlusOne()
    ensures PlusOne(Some(5)) == Some(6) && PlusOne(None) == None
  {
  }
}
