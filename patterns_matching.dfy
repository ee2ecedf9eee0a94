/** The patterns chapter. Each `match` whose arms only print is modelled by a
    function that returns which arm runs, with the values the arm binds. */
module PatternsMatching {
  import opened Prelude

  /** `match_use_case`. */
  function MatchUseCase(x: Option<i32>): (r: Option<i32>)
    requires x.Some? ==> x.value < I32_MAX
    ensures x.None? ==> r.None?
    ensures x.Some? ==> r == Some(x.value + 1)
  {
    match x
    case None => None
    case Some(i) => Some(i + 1)
  }

  /** `while_let_use_case`: what is printed while `stack.pop()` gives values. */
  method PopAll(stack: seq<i32>) returns (printed: seq<i32>)
    ensures printed == Reverse(stack)
  {
    var s := stack;
    printed := [];
    while s != []
      invariant Reverse(stack) == printed + Reverse(s)
      decreases |s|
    {
      var top := s[|s| - 1];
      s := s[..|s| - 1];
      printed := printed + [top];
    }
  }

  function Reverse<T>(s: seq<T>): seq<T>
  {
    if s == [] then [] else [s[|s| - 1]] + Reverse(s[..|s| - 1])
  }

  /** Popping prints the element that was pushed `k`-th last as the `k`-th value. */
  lemma {:induction false} ReverseIndex<T>(s: seq<T>, k: nat)
    requires k < |s|
    ensures |Reverse(s)| == |s| && Reverse(s)[k] == s[|s| - 1 - k]
  {
    ReverseLength(s);
    if k > 0 {
      ReverseIndex(s[..|s| - 1], k - 1);
    }
  }

  lemma {:induction false} ReverseLength<T>(s: seq<T>)
    ensures |Reverse(s)| == |s|
  {
    if s != [] {
      ReverseLength(s[..|s| - 1]);
    }
  }

  /** Pushing 1, 2 and 3 and popping them all prints 3, 2, 1. */
  method PushOneTwoThree() returns (printed: seq<i32>)
    ensures printed == [3, 2, 1]
  {
    var stack := [1, 2, 3];
    assert stack[..2] == [1, 2] && [1, 2][..1] == [1] && [1][..0] == [];
    assert Reverse(stack) == [3, 2, 1];
    printed := PopAll(stack);
  }

  datatype MultiplePatternsArm = OneOrTwo | Three | Anything

  /** `multiple_patterns`: `1 | 2` share an arm, `3` has its own. */
  function MultiplePatterns(x: i32): (arm: MultiplePatternsArm)
    ensures arm == OneOrTwo <==> x == 1 || x == 2
    ensures arm == Three <==> x == 3
  {
    match x
    case 1 => OneOrTwo
    case 2 => OneOrTwo
    case 3 => Three
    case _ => Anything
  }

  /** The `x` of `multiple_patterns`, 1, takes the shared arm. */
  lemma OneTakesSharedArm()
    ensures MultiplePatterns(1) == OneOrTwo && MultiplePatterns(4) == Anything
  {
  }

  datatype NumberRange = OneThroughFive | OtherNumber

  /** The first match of `matching_with_dot_dot_equal`. */
  function MatchNumberRange(x: i32): (arm: NumberRange)
    ensures arm == OneThroughFive <==> 1 <= x <= 5
  {
    if 1 <= x <= 5 then OneThroughFive else OtherNumber
  }

  datatype LetterRange = EarlyAsciiLetter | LateAsciiLetter | OtherChar

  /** The second match of `matching_with_dot_dot_equal`. */
  function MatchLetterRange(c: char): (arm: LetterRange)
    ensures arm == EarlyAsciiLetter <==> 'a' <= c <= 'j'
    ensures arm == LateAsciiLetter <==> 'k' <= c <= 'z'
  {
    if 'a' <= c <= 'j' then EarlyAsciiLetter
    else if 'k' <= c <= 'z' then LateAsciiLetter
    else OtherChar
  }

  /** Every lowercase ASCII letter falls in one of the two letter arms. */
  lemma LowercaseLettersAreClassified(c: char)
    requires 'a' <= c <= 'z'
    ensures MatchLetterRange(c) != OtherChar
    ensures MatchNumberRange(5) == OneThroughFive && MatchLetterRange('c') == EarlyAsciiLetter
  {
  }

  datatype Point = Point(x: i32, y: i32)

  datatype AxisArm = OnXAxis(x: i32) | OnYAxis(y: i32) | OnNeither(x: i32, y: i32)

  /** The `match p` of `destructuring_structs`: arms are tried in order. */
  function MatchAxis(p: Point): (arm: AxisArm)
    ensures arm.OnXAxis? <==> p.y == 0
    ensures arm.OnYAxis? <==> p.x == 0 && p.y != 0
    ensures arm.OnXAxis? ==> arm.x == p.x
    ensures arm.OnYAxis? ==> arm.y == p.y
    ensures arm.OnNeither? ==> arm == OnNeither(p.x, p.y)
  {
    match p
    case Point(x, 0) => OnXAxis(x)
    case Point(0, y) => OnYAxis(y)
    case Point(x, y) => OnNeither(x, y)
  }

  /** The origin lies on both axes and takes the first arm; the point of
      `destructuring_structs`, `(0, 7)`, is on the y axis at 7. */
  lemma AxisFirstArmWins()
    ensures MatchAxis(Point(0, 0)) == OnXAxis(0)
    ensures MatchAxis(Point(0, 7)) == OnYAxis(7)
  {
  }

  /** The first part of `ignore_parts_of_value_with_nested_underscore`: an
      existing value is kept when both are `Some`, otherwise the new one is
      stored in the mutable `setting_value`. */
  method UpdateSetting(settingValue: Option<i32>, newSettingValue: Option<i32>) returns (setting: Option<i32>)
    ensures settingValue.Some? && newSettingValue.Some? ==> setting == settingValue
    ensures !(settingValue.Some? && newSettingValue.Some?) ==> setting == newSettingValue
    ensures setting.None? <==> newSettingValue.None?
  {
    setting := settingValue;
    match (setting, newSettingValue)
    case (Some(_), Some(_)) =>
    case _ =>
      setting := newSettingValue;
  }

  /** `Some(5)` is kept against `Some(10)`. */
  method SettingFiveAgainstTen() returns (setting: Option<i32>)
    ensures setting == Some(5)
  {
    setting := UpdateSetting(Some(5), Some(10));
  }

  /** The second part: `(first, _, third, _, fifth)` binds three of five. */
  function FirstThirdFifth<T>(numbers: (T, T, T, T, T)): (r: (T, T, T))
    ensures r == (numbers.0, numbers.2, numbers.4)
  {
    match numbers
    case (first, _, third, _, fifth) => (first, third, fifth)
  }

  /** `(2, 4, 8, 18, 32)` gives 2, 8 and 32. */
  lemma SomeNumbers()
    ensures FirstThirdFifth((2, 4, 8, 18, 32)) == (2, 8, 32)
  {
  }

  /** Rust's `/` truncates toward zero, unlike Dafny's. */
  function TruncatingQuot(a: int, b: int): int
    requires b > 0
  {
    if a >= 0 then a / b else -((-a) / b)
  }

  /** Rust's `%` truncates toward zero as well: the remainder takes the sign
      of the dividend, its magnitude is the dividend's magnitude modulo `b`,
      and it completes the truncating quotient to the dividend. */
  function TruncatingRem(a: int, b: int): (r: int)
    requires b > 0
    ensures -b < r < b
    ensures a >= 0 ==> r == a % b
    ensures a < 0 ==> r <= 0 && -r == (-a) % b
    ensures a == b * TruncatingQuot(a, b) + r
  {
    if a >= 0 then a % b
    else
      var q := (-a) / b;
      assert -a == b * q + (-a) % b;
      assert b * -q == -(b * q);
      -((-a) % b)
  }

  datatype ParityArm = Even(x: i32) | Odd(x: i32)

  /** `match_guards`: `Some(x) if x % 2 == 0`, then `Some(x)`; `None` prints
      nothing, which is `None` here. */
  function MatchGuard(num: Option<i32>): (arm: Option<ParityArm>)
    ensures arm.None? <==> num.None?
    ensures arm.Some? ==> arm.value.x == num.value
    ensures arm.Some? ==> (arm.value.Even? <==> num.value % 2 == 0)
  {
    match num
    case Some(x) => if TruncatingRem(x, 2) == 0 then Some(Even(x)) else Some(Odd(x))
    case None => None
  }

  /** `Some(4)` is even. */
  lemma FourIsEven()
    ensures MatchGuard(Some(4)) == Some(Even(4))
    ensures MatchGuard(Some(-3)) == Some(Odd(-3)) && TruncatingRem(-3, 2) == -1
  {
  }

  datatype Greeting = Hello(id: i32)

  datatype GreetingArm = IdInRange(idVariable: i32) | IdInAnotherRange | OtherId(id: i32)

  /** `at_bindings`: `id_variable @ 3..=7`, then `10..=12`, then any id. */
  function MatchGreeting(msg: Greeting): (arm: GreetingArm)
    ensures arm.IdInRange? <==> 3 <= msg.id <= 7
    ensures arm.IdInAnotherRange? <==> 10 <= msg.id <= 12
    ensures arm.IdInRange? ==> arm.idVariable == msg.id
    ensures arm.OtherId? ==> arm.id == msg.id
  {
    match msg
    case Hello(id) =>
      if 3 <= id <= 7 then IdInRange(id)
      else if 10 <= id <= 12 then IdInAnotherRange
      else OtherId(id)
  }

  /** The message of `at_bindings`, `Hello { id: 5 }`, binds 5 in the first arm. */
  lemma GreetingFive()
    ensures MatchGreeting(Hello(5)) == IdInRange(5)
  {
  }
}
