/** The functions exercised by the unit tests of the testing chapter. Its
    `Rectangle` is the one of the structs chapter, so `can_hold` is
    `Rectangles.Rectangle.CanHold`. */
module Testing {
  import opened Prelude
  import opened Format
  import opened Rectangles

  /** `add_two`; an `i32` overflow panics, so it is excluded. */
  function AddTwo(a: i32): (r: i32)
    requires a + 2 <= I32_MAX
    ensures r - 2 == a
  {
    a + 2
  }

  /** `internal_adder`, the private function the `internal` test reaches. */
  function InternalAdder(a: i32, b: i32): (r: i32)
    requires InI32(a + b)
    ensures r - b == a && r - a == b
  {
    a + b
  }

  /** `add_two` adds through the same `+` as `internal_adder(a, 2)`. */
  lemma AddTwoIsInternalAdderOfTwo(a: i32)
    requires a + 2 <= I32_MAX
    ensures AddTwo(a) == InternalAdder(a, 2) == InternalAdder(2, a)
  {
  }

  /** The values the tests `it_adds_two`, `add_two_and_two`,
      `add_three_and_two`, `one_hundred` and `internal` expect. */
  lemma TestedSums()
    ensures AddTwo(2) == 4 && AddTwo(3) == 5 && AddTwo(100) == 102
    ensures InternalAdder(2, 2) == 4
  {
  }

  /** `greeting`: `format!("Hello {}!", name)`. */
  function Greeting(name: string): (g: string)
    ensures Contains(g, name)
    ensures "Hello " <= g && g[|g| - 1] == '!'
  {
    ContainsMiddle("Hello ", name, "!");
    "Hello " + name + "!"
  }

  /** `prints_and_returns_10`: prints its argument (not modelled) and returns 10. */
  function PrintsAndReturns10(a: i32): (r: i32)
    ensures r == 10
  {
    10
  }

  /** `Guess`: a value that `Guess::new` accepted. */
  datatype Guess = Guess(value: i32)

  /** The text of both `Guess::new` panics, for the broken bound and the
      printed value. */
  function PanicMessage(bound: string, shown: string): (m: string)
    ensures "Guess value must be " <= m
    ensures Contains(m, bound) && Contains(m, shown)
  {
    var lead := "Guess value must be ";
    ContainsMiddle(lead, bound, ", got " + shown + ".");
    ContainsMiddle(lead + bound + ", got ", shown, ".");
    assert lead + bound + (", got " + shown + ".") == lead + bound + ", got " + shown + ".";
    lead + bound + ", got " + shown + "."
  }

  /** The two panics of `Guess::new`. */
  datatype GuessError = BelowOne(value: i32) | AboveHundred(value: i32) {
    /** The panic message: it names the bound that was broken and the
        value that broke it. */
    function Message(): (m: string)
      ensures "Guess value must be " <= m
      ensures BelowOne? ==> Contains(m, "greater than or equal to 1")
      ensures AboveHundred? ==> Contains(m, "less than or equal to 100")
      ensures Contains(m, IntToString(value))
    {
      match this
      case BelowOne(v) => PanicMessage("greater than or equal to 1", IntToString(v))
      case AboveHundred(v) => PanicMessage("less than or equal to 100", IntToString(v))
    }
  }

  /** `Guess::new`: the value below 1 is checked first, then the value above 100. */
  function NewGuess(value: i32): (r: Result<Guess, GuessError>)
    ensures r.Ok? <==> 1 <= value <= 100
    ensures r.Ok? ==> r.value.value == value
    ensures value < 1 ==> r == Err(BelowOne(value))
    ensures value > 100 ==> r == Err(AboveHundred(value))
  {
    if value < 1 then Err(BelowOne(value))
    else if value > 100 then Err(AboveHundred(value))
    else Ok(Guess(value))
  }

  /** The `should_panic(expected = "less than or equal to 100")` test: every
      value above 100 panics with a message containing that text, 200 among them. */
  lemma GuessAbove100Message(value: i32)
    requires value > 100
    ensures NewGuess(value).Err?
    ensures Contains(NewGuess(value).error.Message(), "less than or equal to 100")
    ensures NewGuess(200).Err?
  {
  }

  /** The test `larger_can_hold_smaller`, and `smaller_cannot_hold_larger`,
      written like a test but without the `#[test]` attribute. */
  lemma LargerHoldsSmaller()
    ensures Rectangle(8, 7).CanHold(Rectangle(5, 1))
    ensures !Rectangle(5, 1).CanHold(Rectangle(8, 7))
  {
  }

  /** The `greeting_contains_name` test. */
  lemma GreetingContainsCarol()
    ensures Contains(Greeting("Carol"), "Carol")
  {
  }
}
