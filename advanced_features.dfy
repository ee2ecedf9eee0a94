/** Advanced features: `split_at_mut` as a safe split of one buffer into two
    disjoint mutable views, operator overloading on points and lengths,
    function pointers, and the `Display` formats of `Point` and `Wrapper`. */
module AdvancedFeatures {
  import opened Prelude
  import opened Format

  /** A mutable slice into a buffer: the index range `start..end`. */
  datatype View = View(start: nat, end: nat) {
    function Len(): nat
    {
      if start <= end then end - start else 0
    }

    predicate Within(buffer: array<i32>)
    {
      start <= end <= buffer.Length
    }
  }

  /** `split_at_mut`: the first `mid` elements and the rest, as two views of
      the same buffer that do not overlap; `mid > len` fails the `assert!`. */
  method SplitAtMut(values: array<i32>, mid: nat) returns (left: View, right: View)
    requires mid <= values.Length
    ensures left.Within(values) && right.Within(values)
    ensures left.Len() == mid && right.Len() == values.Length - mid
    ensures values[left.start..left.end] == values[..mid]
    ensures values[right.start..right.end] == values[mid..]
    ensures values[left.start..left.end] + values[right.start..right.end] == values[..]
    ensures left.end <= right.start
  {
    var len := values.Length;
    left := View(0, mid);
    right := View(mid, len);
    assert values[..] == values[..mid] + values[mid..];
  }

  /** Writing element `i` of a view writes the buffer at `start + i`. */
  method WriteAt(values: array<i32>, view: View, i: nat, x: i32)
    requires view.Within(values) && i < view.Len()
    modifies values
    ensures values[..] == old(values[..])[view.start + i := x]
  {
    values[view.start + i] := x;
  }

  /** A write through the left part of a split leaves the right part as it
      was: the two mutable views never alias. */
  lemma WriteLeavesOtherViewAlone(buffer: seq<i32>, left: View, right: View, i: nat, x: i32)
    requires left.start <= left.end <= right.start <= right.end <= |buffer|
    requires i < left.Len()
    ensures buffer[left.start + i := x][right.start..right.end] == buffer[right.start..right.end]
    ensures buffer[left.start + i := x][left.start..left.end] == buffer[left.start..left.end][i := x]
  {
  }

  /** `safe_abstraction_over_unsafe_code`: `[1, 2, 3, 4, 5, 6]` split at 3.
      That function calls the standard slice method `split_at_mut`, which
      behaves as the local `split_at_mut` modelled by `SplitAtMut`. */
  method SplitSixAtThree() returns (a: seq<i32>, b: seq<i32>)
    ensures a == [1, 2, 3] && b == [4, 5, 6]
  {
    var v := new i32[6];
    v[0], v[1], v[2], v[3], v[4], v[5] := 1, 2, 3, 4, 5, 6;
    var left, right := SplitAtMut(v, 3);
    a := v[left.start..left.end];
    b := v[right.start..right.end];
  }

  datatype Point = Point(x: i32, y: i32) {
    /** `impl Add for Point`; an overflowing coordinate panics. */
    function Add(other: Point): (sum: Point)
      requires InI32(x + other.x) && InI32(y + other.y)
      ensures sum.x - other.x == x && sum.y - other.y == y
    {
      Point(x + other.x, y + other.y)
    }

    /** `impl Display for Point`: `(x, y)`; the text loses nothing, since
        parsing it gives the point back. */
    function Display(): (s: string)
      ensures |s| >= 2 && s[0] == '(' && s[|s| - 1] == ')'
      ensures ParsePoint(s) == Some(this)
    {
      var inner := IntToString(x) + ", " + IntToString(y);
      ParseCoordinatesOf(this);
      assert ("(" + inner + ")")[1..|inner| + 1] == inner;
      "(" + inner + ")"
    }
  }

  /** Point addition is componentwise, so it commutes and the origin is neutral;
      the `default_generic_type_operator_overloading` assertion is one instance. */
  lemma PointAddLaws(p: Point, q: Point)
    requires InI32(p.x + q.x) && InI32(p.y + q.y)
    ensures p.Add(q) == q.Add(p)
    ensures p.Add(Point(0, 0)) == p
    ensures Point(1, 0).Add(Point(2, 3)) == Point(3, 3)
  {
  }

  /** Reads back what `Display` prints for a point. */
  function ParsePoint(s: string): Option<Point>
  {
    if |s| < 2 || s[0] != '(' || s[|s| - 1] != ')' then None
    else ParseCoordinates(s[1..|s| - 1])
  }

  /** Reads `x, y` into a point. */
  function ParseCoordinates(inner: string): Option<Point>
  {
    var k := IndexOf(inner, ',');
    if k + 1 >= |inner| || inner[k + 1] != ' ' then None
    else
      match (ParseInt(inner[..k]), ParseInt(inner[k + 2..]))
      case (Some(a), Some(b)) =>
        if InI32(a) && InI32(b) then Some(Point(a, b)) else None
      case _ => None
  }

  lemma ParseCoordinatesOf(p: Point)
    ensures ParseCoordinates(IntToString(p.x) + ", " + IntToString(p.y)) == Some(p)
  {
    var a, b := IntToString(p.x), IntToString(p.y);
    var inner := a + ", " + b;
    assert inner == a + (", " + b);
    IndexOfAfterPrefix(a, ", " + b, ',');
    assert inner[..|a|] == a;
    assert inner[|a| + 2..] == b;
    IntToStringRoundTrip(p.x);
    IntToStringRoundTrip(p.y);
  }

  datatype Millimeters = Millimeters(value: u32)

  datatype Meters = Meters(value: u32)

  /** `impl Add<Meters> for Millimeters`: a metre is 1000 millimetres. */
  function AddMeters(mm: Millimeters, m: Meters): (sum: Millimeters)
    requires mm.value + m.value * 1000 <= U32_MAX
    ensures sum.value - mm.value == 1000 * m.value
  {
    Millimeters(mm.value + m.value * 1000)
  }

  /** Adding metres in two steps is adding their total at once. */
  lemma AddMetersInSteps(mm: Millimeters, a: Meters, b: Meters)
    requires mm.value + (a.value + b.value) * 1000 <= U32_MAX
    ensures AddMeters(AddMeters(mm, a), b) == AddMeters(mm, Meters(a.value + b.value))
  {
  }

  /** `add_one`. */
  function AddOne(x: i32): (r: i32)
    requires x < I32_MAX
    ensures r - 1 == x
  {
    x + 1
  }

  /** `do_twice`: calls the function pointer twice and adds the results. */
  function DoTwice(f: i32 --> i32, arg: i32): (r: i32)
    requires f.requires(arg) && InI32(f(arg) + f(arg))
    ensures r == 2 * f(arg)
  {
    f(arg) + f(arg)
  }

  /** `function_as_parameter`: `do_twice(add_one, 5)` is 12. */
  lemma DoTwiceAddOneFive()
    ensures DoTwice(AddOne, 5) == 12
  {
  }

  /** The newtype `Wrapper(Vec<String>)`. */
  datatype Wrapper = Wrapper(elements: seq<string>) {
    /** `impl Display for Wrapper`: `[a, b, c]`. As long as no element holds
        a comma, the text can be read back; the one exception is a single
        empty string (see `BlankLooksEmpty`). */
    function Display(): (s: string)
      ensures |s| >= 2 && s[0] == '[' && s[|s| - 1] == ']'
      ensures NoComma(elements) && elements != [""] ==> ParseWrapper(s) == Some(this)
    {
      if NoComma(elements) && elements != [""] then
        JoinedElementsParse(elements);
        "[" + Join(elements, ", ") + "]"
      else
        "[" + Join(elements, ", ") + "]"
    }
  }

  /** Splits text at each ", "; the inverse of `Join(_, ", ")`. */
  function SplitParts(s: string): Option<seq<string>>
    decreases |s|
  {
    var k := IndexOf(s, ',');
    if k == |s| then Some([s])
    else if k + 1 < |s| && s[k + 1] == ' ' then
      match SplitParts(s[k + 2..])
      case Some(rest) => Some([s[..k]] + rest)
      case None => None
    else None
  }

  /** Reads back what `Display` prints for a wrapper. */
  function ParseWrapper(s: string): Option<Wrapper>
  {
    if |s| < 2 || s[0] != '[' || s[|s| - 1] != ']' then None
    else if |s| == 2 then Some(Wrapper([]))
    else match SplitParts(s[1..|s| - 1])
      case Some(parts) => Some(Wrapper(parts))
      case None => None
  }

  predicate NoComma(parts: seq<string>)
  {
    forall i :: 0 <= i < |parts| ==> ',' !in parts[i]
  }

  lemma {:induction false} SplitJoin(parts: seq<string>)
    requires |parts| > 0 && NoComma(parts)
    ensures SplitParts(Join(parts, ", ")) == Some(parts)
    decreases |parts|
  {
    var head := parts[0];
    assert ',' !in head;
    if |parts| == 1 {
      assert Join(parts, ", ") == head;
      assert IndexOf(head, ',') == |head|;
      assert parts == [head];
    } else {
      var tail := Join(parts[1..], ", ");
      var s := Join(parts, ", ");
      assert s == head + (", " + tail);
      IndexOfAfterPrefix(head, ", " + tail, ',');
      assert IndexOf(s, ',') == |head|;
      assert s[|head| + 1] == ' ';
      assert s[..|head|] == head;
      assert s[|head| + 2..] == tail;
      SplitJoin(parts[1..]);
      assert parts == [head] + parts[1..];
    }
  }

  lemma JoinedElementsParse(elements: seq<string>)
    requires NoComma(elements) && elements != [""]
    ensures ParseWrapper("[" + Join(elements, ", ") + "]") == Some(Wrapper(elements))
  {
    var joined := Join(elements, ", ");
    var s := "[" + joined + "]";
    assert |s| == |joined| + 2 && s[0] == '[' && s[|s| - 1] == ']';
    assert s[1..|s| - 1] == joined;
    if elements == [] {
      assert joined == "";
    } else {
      JoinedNonEmpty(elements);
      SplitJoin(elements);
    }
  }

  lemma JoinedNonEmpty(elements: seq<string>)
    requires elements != [] && elements != [""]
    ensures |Join(elements, ", ")| > 0
  {
    if |elements| == 1 {
      assert elements == [elements[0]];
    }
  }

  /** The empty wrapper and the wrapper of one empty string both display as `[]`. */
  lemma BlankLooksEmpty()
    ensures Wrapper([]).Display() == Wrapper([""]).Display() == "[]"
  {
  }

  /** `newtype_pattern_external_traits_and_types`: `w: [hello, world]`. */
  lemma HelloWorldWrapper()
    ensures Wrapper(["hello", "world"]).Display() == "[hello, world]"
  {
    var parts := ["hello", "world"];
    assert parts[1..] == ["world"];
    assert Join(parts, ", ") == "hello" + ", " + "world";
  }
}
