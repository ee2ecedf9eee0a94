/** Closures and iterators: the shirt giveaway of a store's inventory and the
    shoe filter. */
module IteratorsClosures {
  import opened Prelude

  datatype ShirtColor = Red | Blue

  /** How many shirts of `color` there are in `shirts`. */
  function Count(shirts: seq<ShirtColor>, color: ShirtColor): (n: nat)
    ensures n <= |shirts|
  {
    if shirts == [] then 0
    else Count(shirts[..|shirts| - 1], color) + (if shirts[|shirts| - 1] == color then 1 else 0)
  }

  /** Every shirt is red or blue, so the two counts add up to the stock. */
  lemma {:induction false} CountsCoverStock(shirts: seq<ShirtColor>)
    ensures Count(shirts, Red) + Count(shirts, Blue) == |shirts|
  {
    if shirts != [] {
      CountsCoverStock(shirts[..|shirts| - 1]);
    }
  }

  datatype Inventory = Inventory(shirts: seq<ShirtColor>) {

    /** `most_stocked`: red only when strictly more red shirts are in stock
        than blue ones; a tie, the empty stock included, gives blue. */
    method MostStocked() returns (color: ShirtColor)
      ensures color == Red <==> Count(shirts, Red) > Count(shirts, Blue)
    {
      var numRed, numBlue := 0, 0;
      for i := 0 to |shirts|
        invariant numRed == Count(shirts[..i], Red)
        invariant numBlue == Count(shirts[..i], Blue)
        invariant numRed + numBlue == i
      {
        assert shirts[..i + 1][..i] == shirts[..i];
        match shirts[i]
        case Red => numRed := numRed + 1;
        case Blue => numBlue := numBlue + 1;
      }
      assert shirts[..|shirts|] == shirts;
      if numRed > numBlue {
        color := Red;
      } else {
        color := Blue;
      }
    }

    /** `giveaway`: the preferred color if there is one, otherwise the most
        stocked color (`unwrap_or_else`). */
    method Giveaway(userPreference: Option<ShirtColor>) returns (color: ShirtColor)
      ensures userPreference.Some? ==> color == userPreference.value
      ensures userPreference.None? ==> (color == Red <==> Count(shirts, Red) > Count(shirts, Blue))
    {
      match userPreference
      case Some(c) => color := c;
      case None => color := MostStocked();
    }
  }

  /** `main`: a store of blue, red, blue gives red to whoever asks for red and
      blue to whoever has no preference. */
  method MainGiveaways() returns (first: ShirtColor, second: ShirtColor)
    ensures first == Red && second == Blue
  {
    var store := Inventory([Blue, Red, Blue]);
    assert Count(store.shirts, Red) == 1 by {
      assert store.shirts[..2][..1] == [Blue];
      assert store.shirts[..2] == [Blue, Red];
    }
    CountsCoverStock(store.shirts);
    first := store.Giveaway(Some(Red));
    second := store.Giveaway(None);
  }

  datatype Shoe = Shoe(size: u32, style: string)

  /** `shoes_in_size`: `into_iter().filter(|s| s.size == shoe_size).collect()`. */
  function ShoesInSize(shoes: seq<Shoe>, shoeSize: u32): (r: seq<Shoe>)
    ensures forall i :: 0 <= i < |r| ==> r[i].size == shoeSize
  {
    if shoes == [] then []
    else if shoes[0].size == shoeSize then [shoes[0]] + ShoesInSize(shoes[1..], shoeSize)
    else ShoesInSize(shoes[1..], shoeSize)
  }

  /** `a` is `b` with some elements left out, in the same order. */
  predicate IsSubsequence<T(==)>(a: seq<T>, b: seq<T>)
    decreases |b|
  {
    if a == [] then true
    else if b == [] then false
    else if a[0] == b[0] then IsSubsequence(a[1..], b[1..])
    else IsSubsequence(a, b[1..])
  }

  /** The filter keeps exactly the shoes of the size asked for, as many times
      as each occurs, in their original order. */
  lemma {:induction false} ShoesInSizeKeepsExactlyMatches(shoes: seq<Shoe>, shoeSize: u32)
    ensures forall s ::
      multiset(ShoesInSize(shoes, shoeSize))[s] == (if s.size == shoeSize then multiset(shoes)[s] else 0)
    ensures IsSubsequence(ShoesInSize(shoes, shoeSize), shoes)
  {
    if shoes != [] {
      ShoesInSizeKeepsExactlyMatches(shoes[1..], shoeSize);
      assert shoes == [shoes[0]] + shoes[1..];
      var r := ShoesInSize(shoes, shoeSize);
      if shoes[0].size == shoeSize {
        assert r[0] == shoes[0] && r[1..] == ShoesInSize(shoes[1..], shoeSize);
      } else if r != [] {
        assert r[0].size == shoeSize != shoes[0].size;
      }
    }
  }

  /** The `filter_by_size` test: of a size-10 sneaker, a size-13 sandal and a
      size-10 boot, size 10 keeps the sneaker and the boot. */
  lemma FilterBySize()
    ensures ShoesInSize([Shoe(10, "sneaker"), Shoe(13, "sandal"), Shoe(10, "boot")], 10)
      == [Shoe(10, "sneaker"), Shoe(10, "boot")]
  {
    var shoes := [Shoe(10, "sneaker"), Shoe(13, "sandal"), Shoe(10, "boot")];
    assert shoes[1..] == [Shoe(13, "sandal"), Shoe(10, "boot")];
    assert shoes[1..][1..] == [Shoe(10, "boot")];
  }
}
