/** Generics, traits and lifetimes: the `largest` loops, the generic points,
    `Pair::new`, and the `Summary` trait on tweets and news articles. */
module Generics {
  import opened Prelude
  import opened Format

  /** The index the `for` loop of `largest` holds after visiting the first `n`
      items: it starts at `&list[0]` and moves to an item only when that item
      is strictly greater (`gt`, the `>` of `PartialOrd`). The result `&T` of
      `largest` is modelled by the index it points to. */
  function LargestAfter<T>(list: seq<T>, gt: (T, T) -> bool, n: nat): (k: nat)
    requires 0 < |list| && n <= |list|
    ensures k < |list|
    ensures n > 0 ==> k < n
    decreases n
  {
    if n == 0 then 0
    else
      var k := LargestAfter(list, gt, n - 1);
      if gt(list[n - 1], list[k]) then n - 1 else k
  }

  /** `largest<T: PartialOrd>`; an empty list panics on `list[0]`. */
  method Largest<T>(list: seq<T>, gt: (T, T) -> bool) returns (k: nat)
    requires |list| > 0
    ensures k == LargestAfter(list, gt, |list|)
  {
    k := 0;
    for i := 0 to |list|
      invariant k == LargestAfter(list, gt, i)
    {
      if gt(list[i], list[k]) {
        k := i;
      }
    }
  }

  ghost predicate IsStrictTotalOrder<T(!new)>(gt: (T, T) -> bool)
  {
    && (forall a :: !gt(a, a))
    && (forall a, b, c :: gt(a, b) && gt(b, c) ==> gt(a, c))
    && (forall a, b :: a == b || gt(a, b) || gt(b, a))
  }

  /** For a total order, `largest` points at an element no element exceeds,
      and because the comparison is strict it is the first such element. */
  lemma {:induction false} LargestIsFirstMaximum<T(!new)>(list: seq<T>, gt: (T, T) -> bool, n: nat)
    requires IsStrictTotalOrder(gt)
    requires 0 < n <= |list|
    ensures var k := LargestAfter(list, gt, n);
      && (forall j :: 0 <= j < n ==> !gt(list[j], list[k]))
      && (forall j :: 0 <= j < k ==> gt(list[k], list[j]))
    decreases n
  {
    if n > 1 {
      LargestIsFirstMaximum(list, gt, n - 1);
    }
  }

  function GreaterI32(a: i32, b: i32): bool { a > b }

  function GreaterChar(a: char, b: char): bool { a > b }

  /** `largest_i32`: the same loop at `i32`. It points at a maximum, at the
      first one, and agrees with the generic `largest`. */
  method LargestI32(list: seq<i32>) returns (k: nat)
    requires |list| > 0
    ensures k < |list|
    ensures forall j :: 0 <= j < |list| ==> list[j] <= list[k]
    ensures forall j :: 0 <= j < k ==> list[j] < list[k]
    ensures k == LargestAfter(list, GreaterI32, |list|)
  {
    k := 0;
    for i := 0 to |list|
      invariant k < |list| && (i > 0 ==> k < i)
      invariant forall j :: 0 <= j < i ==> list[j] <= list[k]
      invariant forall j :: 0 <= j < k ==> list[j] < list[k]
      invariant k == LargestAfter(list, GreaterI32, i)
    {
      if list[i] > list[k] {
        k := i;
      }
    }
  }

  /** `largest_char`: the same loop at `char`, ordered by code point. */
  method LargestChar(list: seq<char>) returns (k: nat)
    requires |list| > 0
    ensures k < |list|
    ensures forall j :: 0 <= j < |list| ==> list[j] <= list[k]
    ensures forall j :: 0 <= j < k ==> list[j] < list[k]
    ensures k == LargestAfter(list, GreaterChar, |list|)
  {
    k := 0;
    for i := 0 to |list|
      invariant k < |list| && (i > 0 ==> k < i)
      invariant forall j :: 0 <= j < i ==> list[j] <= list[k]
      invariant forall j :: 0 <= j < k ==> list[j] < list[k]
      invariant k == LargestAfter(list, GreaterChar, i)
    {
      if list[i] > list[k] {
        k := i;
      }
    }
  }

  /** `Point<T>`, both coordinates of one type. */
  datatype Point<T> = Point(x: T, y: T) {
    /** `Point::x`: the `x` field, whatever `y` holds. */
    function X(): (r: T)
      ensures r == x
    {
      x
    }
  }

  /** Changing `y` never changes what `Point::x` returns. */
  lemma PointXIgnoresY<T>(p: Point<T>, y: T)
    ensures p.(y := y).X() == p.X()
  {
  }

  /** `Point2<T, U>`, coordinates of two types. */
  datatype Point2<T, U> = Point2(x: T, y: U) {
    /** `mixup`: `x` from this point, `y` from the other one. */
    function Mixup<X2, Y2>(other: Point2<X2, Y2>): (r: Point2<T, Y2>)
      ensures r.x == x && r.y == other.y
    {
      Point2(x, other.y)
    }
  }

  /** Mixing a point with another and back again restores the first point. */
  lemma MixupBackRestores<T, U, X2, Y2>(p: Point2<T, U>, q: Point2<X2, Y2>)
    ensures p.Mixup(q).Mixup(p) == p
  {
  }

  /** `Pair<T>`. */
  datatype Pair<T> = Pair(x: T, y: T) {
    /** `Pair::new` stores both values unchanged. */
    static function New(x: T, y: T): (p: Pair<T>)
      ensures p.x == x && p.y == y
    {
      Pair(x, y)
    }
  }

  /** The default `summarize` of the `Summary` trait, written in terms of the
      implementor's `summarize_author`. */
  function DefaultSummary(author: string): (s: string)
    ensures Contains(s, author)
    ensures "(Read more from " <= s && s[|s| - 4..] == "...)"
  {
    ContainsMiddle("(Read more from ", author, "...)");
    "(Read more from " + author + "...)"
  }

  /** `NewsArticle` keeps the default `summarize`. */
  datatype NewsArticle = NewsArticle(headline: string, location: string, author: string, content: string) {
    function SummarizeAuthor(): (s: string)
      ensures s == author
    {
      author
    }

    /** The default summary, built from this article's author. */
    function Summarize(): (s: string)
      ensures Contains(s, author)
      ensures "(Read more from " <= s && s[|s| - 4..] == "...)"
    {
      DefaultSummary(SummarizeAuthor())
    }
  }

  /** `Tweet` overrides `summarize`. */
  datatype Tweet = Tweet(username: string, content: string, reply: bool, retweet: bool) {
    function SummarizeAuthor(): (s: string)
      ensures s == "@" + username
    {
      "@" + username
    }

    /** The overriding summary: the username, `": "`, then the content. */
    function Summarize(): (s: string)
      ensures username + ": " <= s
      ensures s[|username| + 2..] == content
    {
      assert (username + ": " + content)[..|username| + 2] == username + ": ";
      username + ": " + content
    }
  }

  /** An article's summary names its author, and two articles with the same
      summary have the same author. */
  lemma ArticleSummaryDeterminesAuthor(a: NewsArticle, b: NewsArticle)
    ensures Contains(a.Summarize(), a.author)
    ensures a.Summarize() == b.Summarize() ==> a.author == b.author
  {
    var prefix := "(Read more from ";
    if a.Summarize() == b.Summarize() {
      var s := a.Summarize();
      assert s == prefix + a.author + "...)";
      assert s[|prefix|..|s| - 4] == a.author;
      assert s == prefix + b.author + "...)";
      assert s[|prefix|..|s| - 4] == b.author;
    }
  }

  /** A tweet's summary starts with its username and ends with its content; of
      two tweets by one user, the summary determines the content. */
  lemma TweetSummaryDeterminesContent(t: Tweet, u: Tweet)
    ensures t.username + ": " <= t.Summarize()
    ensures t.Summarize()[|t.username| + 2..] == t.content
    ensures t.username == u.username && t.Summarize() == u.Summarize() ==> t.content == u.content
  {
    var s := t.Summarize();
    assert s[|t.username| + 2..] == t.content;
    assert s[..|t.username| + 2] == t.username + ": ";
    var v := u.Summarize();
    assert v[|u.username| + 2..] == u.content;
  }

  /** The article summary that `main` prints. */
  lemma MainArticleSummary()
    ensures NewsArticle("Penguins win the Stanley Cup CHampionship", "Pittsburgh, PA, USA", "Iceburgh",
      "The Pittsburgh Penguins once again are the best hockey team in the NHL.").Summarize()
      == "(Read more from Iceburgh...)"
  {
  }

  /** `main` mixes `Point2 { x: 5, y: 10.4 }` with `Point2 { x: "Hello", y: 'c' }`
      into `x = 5, y = 'c'`. */
  lemma MainMixup()
    ensures Point2(5, 10.4).Mixup(Point2("Hello", 'c')) == Point2(5, 'c')
  {
  }
}
