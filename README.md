# Rust tutorial pieces, modelled in Dafny

This project models the small sequential parts of a Rust tutorial repository that have behaviour worth stating.

- **Blog post.** The post moves Draft → PendingReview → Published through `request_review`, `approve` and `reject`. Its text is shown only once it is published. It exists in two versions: the state-object version and the typestate version.
- **`AveragedCollection`.** A push/pop list.
- **`largest` folds.** The generic, `i32` and `char` versions.
- **Rectangles.** The `Rectangle` methods and the functions exercised by the unit tests of the testing chapter, including the `Guess` range check.
- **Inventory.** The shirt giveaway rule and the shoe filter.
- **Advanced features.** `split_at_mut`, operator overloading, unit conversion, function pointers and the `Display` formats of `Point` and `Wrapper`.
- **Matching.** The coin value table and `plus_one`, plus the arm-selection rules of the pattern-matching chapter.
- **Lines and users.** `last_char_of_first_line`, and `build_user` with struct update.

Each Rust source file has its own module, except `object_oriented_rust/mod.rs`, which has three: the collection and the two blog module variants of that file. The files are:

| Module | File |
|---|---|
| `AveragedCollections`, `Blog`, `BlogTypestate` | `object_oriented.dfy` |
| `Generics` | `generics.dfy` |
| `Rectangles` | `rectangles.dfy` |
| `Testing` | `testing.dfy` |
| `IteratorsClosures` | `iterators_closures.dfy` |
| `AdvancedFeatures` | `advanced_features.dfy` |
| `MatchControlFlow` | `match_control_flow.dfy` |
| `PatternsMatching` | `patterns_matching.dfy` |
| `ErrorHandling` | `error_handling.dfy` |
| `Structs` | `structs.dfy` |

Two modules are shared:

- `Prelude` (`prelude.dfy`) has `Option`, `Result` and the Rust integer ranges `i32`, `u8`, `u32` and `u64`.
- `Format` (`format.dfy`) has decimal printing and parsing, `IndexOf`, `Join` and `Contains`. It is used to state the `format!`-built strings.

How Rust behaviour is mapped:

- **Panics.** In the operations modelled, a Rust panic the code can hit becomes a precondition: integer overflow in an addition, `list[0]` on an empty slice, the `assert!` in `split_at_mut`. The `i32` sum in `AveragedCollection::update_average` and the `i32` counters of `most_stocked` are exceptions; see "## Left out". `Guess::new` is handled differently: its panic messages are checked by a `should_panic` test, so it is modelled as a `Result` carrying the message.
- **Mutation.** Where the Rust code mutates in place (the blog `Post`, `AveragedCollection`, `DraftPost`), the model is a class with `modifies` clauses.
- **Loops.** The loops (`largest*`, `most_stocked`, the `while let` drain) are methods with loop invariants. Each one is proved against a specification function.
- **Printing arms.** A `match` whose arms only print is modelled as a function that returns a value naming the arm that runs, with the values that arm binds.

## Model

| member | source | states |
|---|---|---|
| AveragedCollections.AveragedCollection.Add | Rust/rust/src/object_oriented_rust/mod.rs:9-12 | the value is pushed at the end of the list |
| AveragedCollections.AveragedCollection.Remove | Rust/rust/src/object_oriented_rust/mod.rs:14-23 | a non-empty list loses its last element, which is returned; an empty list returns None and is unchanged |
| AveragedCollections.AddThenRemove | Rust/rust/src/object_oriented_rust/mod.rs:9-23 | `remove` after `add(v)` returns `Some(v)` and restores the list |
| AveragedCollections.RemoveFromEmpty | Rust/rust/src/object_oriented_rust/mod.rs:14-23 | removing from an empty collection gives None and leaves it empty |
| Blog.State.RequestReview | Rust/rust/src/object_oriented_rust/mod.rs:158-160 | Draft goes to PendingReview; PendingReview and Published stay as they are (lines 174-176, 190-192) |
| Blog.State.Approve | Rust/rust/src/object_oriented_rust/mod.rs:178-180 | PendingReview goes to Published; Draft and Published stay as they are (lines 162-164, 194-196) |
| Blog.State.Reject | Rust/rust/src/object_oriented_rust/mod.rs:182-184 | PendingReview goes back to Draft; Draft and Published stay as they are (lines 166-168, 202-204) |
| Blog.State.Content | Rust/rust/src/object_oriented_rust/mod.rs:149-151 | the empty string in every state but Published, which shows the post's text (lines 198-200) |
| Blog.PublishedIsFinal | Rust/rust/src/object_oriented_rust/mod.rs:189-204 | no sequence of transitions leaves Published |
| Blog.PublishingNeedsApproval | Rust/rust/src/object_oriented_rust/mod.rs:155-204 | an unpublished post can only become Published through an `approve` |
| Blog.PublishingNeedsReviewThenApproval | Rust/rust/src/object_oriented_rust/mod.rs:155-204 | a draft becomes Published only if a `request_review` comes before an `approve` |
| Blog.ContentHiddenUntilPublished | Rust/rust/src/object_oriented_rust/mod.rs:149-151 | a non-empty `content` is seen only in Published, and it is then the whole text |
| Blog.Post.constructor | Rust/rust/src/object_oriented_rust/mod.rs:118-123 | a new post is a Draft with empty content |
| Blog.Post.AddText | Rust/rust/src/object_oriented_rust/mod.rs:125-127 | the text is appended to the content; the state is unchanged |
| Blog.Post.Approve | Rust/rust/src/object_oriented_rust/mod.rs:129-133 | the state taken out is replaced by its `approve`; the content is unchanged and the state stays present |
| Blog.Post.RequestReview | Rust/rust/src/object_oriented_rust/mod.rs:139-143 | the state taken out is replaced by its `request_review`; the content is unchanged and the state stays present |
| Blog.Post.Content | Rust/rust/src/object_oriented_rust/mod.rs:135-137 | the content is shown only when the state is Published |
| Blog.PublishingTrace | Rust/rust/src/object_oriented_rust/mod.rs:210-222 | the test's trace: "" after `add_text`, "" after `request_review`, the text after `approve` |
| BlogTypestate.DraftPost.constructor | Rust/rust/src/object_oriented_rust/mod.rs:240-244 | a draft holds the content it is created with |
| BlogTypestate.DraftPost.AddText | Rust/rust/src/object_oriented_rust/mod.rs:252-254 | the text is appended to the draft's content |
| BlogTypestate.DraftPost.RequestReview | Rust/rust/src/object_oriented_rust/mod.rs:256-260 | the pending post carries the draft's content unchanged |
| BlogTypestate.PendingReviewPost.Approve | Rust/rust/src/object_oriented_rust/mod.rs:268-272 | the published post shows the pending content unchanged |
| BlogTypestate.Post.New | Rust/rust/src/object_oriented_rust/mod.rs:240-244 | `Post::new` gives a fresh draft with empty content |
| BlogTypestate.Post.Content | Rust/rust/src/object_oriented_rust/mod.rs:246-248 | a published post shows its content |
| BlogTypestate.TypestateTrace | Rust/rust/src/object_oriented_rust/mod.rs:278-289 | the test's trace ends by showing exactly the text that was added |
| Generics.LargestAfter | Rust/rust/src/generics_traits_lifetimes/mod.rs:35-45 | the index kept after the first n steps of the fold is an index of the list below n |
| Generics.Largest | Rust/rust/src/generics_traits_lifetimes/mod.rs:35-45 | for a non-empty list the loop returns the fold's index over the whole list |
| Generics.LargestIsFirstMaximum | Rust/rust/src/generics_traits_lifetimes/mod.rs:38-42 | under a strict total order nothing exceeds the result, and the result is strictly above every earlier element, so it is the first maximum |
| Generics.LargestI32 | Rust/rust/src/generics_traits_lifetimes/mod.rs:8-18 | an index of a maximum, its first occurrence, and the same index as the generic fold |
| Generics.LargestChar | Rust/rust/src/generics_traits_lifetimes/mod.rs:20-30 | an index of a maximum, its first occurrence, and the same index as the generic fold |
| Generics.Point.X | rust/src/generics_traits_lifetimes/mod.rs:53-55 | returns the x field; the same code is at Rust/rust/src/generics_traits_lifetimes/mod.rs:57-59 |
| Generics.PointXIgnoresY | Rust/rust/src/generics_traits_lifetimes/mod.rs:57-59 | changing y never changes what `x()` returns |
| Generics.Point2.Mixup | rust/src/generics_traits_lifetimes/mod.rs:74-79 | x comes from `self`, y from `other`; the same code is at Rust/rust/src/generics_traits_lifetimes/mod.rs:78-83 |
| Generics.MixupBackRestores | Rust/rust/src/generics_traits_lifetimes/mod.rs:78-83 | mixing back with the original point restores it |
| Generics.MainMixup | Rust/rust/src/generics_traits_lifetimes/mod.rs:238-243 | `Point2 {5, 10.4}.mixup(Point2 {"Hello", 'c'})` is `Point2 {5, 'c'}` |
| Generics.Pair.New | Rust/rust/src/generics_traits_lifetimes/mod.rs:199-201 | stores x and y unchanged |
| Generics.DefaultSummary | Rust/rust/src/generics_traits_lifetimes/mod.rs:102-104 | the default summary starts with "(Read more from ", ends with "...)" and contains the author text |
| Generics.NewsArticle.Summarize | Rust/rust/src/generics_traits_lifetimes/mod.rs:120-124 | an article keeps the default summary, so it has that shape and contains the article's author (lines 102-104) |
| Generics.NewsArticle.SummarizeAuthor | Rust/rust/src/generics_traits_lifetimes/mod.rs:121-123 | the author field |
| Generics.Tweet.SummarizeAuthor | Rust/rust/src/generics_traits_lifetimes/mod.rs:138-140 | "@" followed by the username |
| Generics.Tweet.Summarize | Rust/rust/src/generics_traits_lifetimes/mod.rs:134-136 | starts with the username and ": ", and the rest is exactly the content |
| Generics.ArticleSummaryDeterminesAuthor | Rust/rust/src/generics_traits_lifetimes/mod.rs:102-104 | an article's summary contains its author, and two equal summaries have the same author |
| Generics.TweetSummaryDeterminesContent | Rust/rust/src/generics_traits_lifetimes/mod.rs:134-136 | the summary is the username, ": ", then the content; for one user the summary determines the content |
| Generics.MainArticleSummary | Rust/rust/src/generics_traits_lifetimes/mod.rs:259-274 | the article of `main` summarizes as "(Read more from Iceburgh...)" |
| Rectangles.Rectangle.Area | rust/src/structs/rectangles/mod.rs:61-63 | width times height, when that fits in `u32` |
| Rectangles.Rectangle.Width | rust/src/structs/rectangles/mod.rs:65-67 | true exactly when the width is non-zero |
| Rectangles.Rectangle.CanHold | rust/src/structs/rectangles/mod.rs:73-75 | true exactly when strictly wider and strictly taller |
| Rectangles.Rectangle.Square | rust/src/structs/rectangles/mod.rs:81-86 | width and height both equal the size |
| Rectangles.AreaZeroIffDegenerate | rust/src/structs/rectangles/mod.rs:61-67 | the area is zero exactly when `width()` is false or the height is zero |
| Rectangles.SquareArea | rust/src/structs/rectangles/mod.rs:61-86 | a square of side s has area s·s and cannot hold itself |
| Rectangles.CanHoldIrreflexive | rust/src/structs/rectangles/mod.rs:73-75 | no rectangle holds itself |
| Rectangles.CanHoldIsStrictOrder | rust/src/structs/rectangles/mod.rs:73-75 | asymmetric and transitive, and a holder has the larger area |
| Rectangles.MainComparisons | rust/src/structs/rectangles/mod.rs:89-152 | 30×50 holds 10×40 but not 60×45, and the scaled 60×50 rectangle has area 3000 |
| Testing.AddTwo | Rust/rust/src/testing/mod.rs:144-146 | the argument plus two, when that fits in `i32` |
| Testing.InternalAdder | Rust/rust/src/testing/mod.rs:173-175 | the sum of both arguments, when it fits in `i32` |
| Testing.AddTwoIsInternalAdderOfTwo | Rust/rust/src/testing/mod.rs:144-146 | `add_two(a)` agrees with `internal_adder(a, 2)` and `internal_adder(2, a)` |
| Testing.TestedSums | Rust/rust/src/testing/mod.rs:47-52 | the expected values of the addition tests: 2→4, 3→5, 100→102, and `internal_adder(2, 2)` is 4 (lines 99-112, 124-127) |
| Testing.Greeting | Rust/rust/src/testing/mod.rs:148-150 | starts with "Hello ", ends with '!', and contains the name |
| Testing.GreetingContainsCarol | Rust/rust/src/testing/mod.rs:55-63 | the greeting for "Carol" contains "Carol" |
| Testing.PrintsAndReturns10 | Rust/rust/src/testing/mod.rs:168-171 | always 10 |
| Testing.PanicMessage | Rust/rust/src/testing/mod.rs:159-161 | both panic texts start with "Guess value must be " and contain the broken bound and the printed value |
| Testing.GuessError.Message | Rust/rust/src/testing/mod.rs:159-161 | the message names the bound that was broken ("greater than or equal to 1" or "less than or equal to 100") and contains the value |
| Testing.NewGuess | Rust/rust/src/testing/mod.rs:157-165 | accepts exactly 1..=100 and stores the value; below 1 it fails with the first message, above 100 with the second |
| Testing.GuessAbove100Message | Rust/rust/src/testing/mod.rs:68-72 | every value above 100, 200 included, fails with a message containing "less than or equal to 100" |
| Testing.LargerHoldsSmaller | Rust/rust/src/testing/mod.rs:18-44 | 8×7 holds 5×1 (the `larger_can_hold_smaller` test), and 5×1 does not hold 8×7 (`smaller_cannot_hold_larger`, which has no `#[test]` attribute) |
| IteratorsClosures.Count | Rust/rust/src/iterators_closures/mod.rs:32-37 | the number of shirts of a colour, at most the stock size |
| IteratorsClosures.CountsCoverStock | Rust/rust/src/iterators_closures/mod.rs:32-37 | red plus blue counts are the number of shirts |
| IteratorsClosures.Inventory.MostStocked | Rust/rust/src/iterators_closures/mod.rs:28-43 | Red exactly when strictly more red than blue shirts, so a tie or an empty stock gives Blue |
| IteratorsClosures.Inventory.Giveaway | Rust/rust/src/iterators_closures/mod.rs:17-26 | a preference is honoured whatever the stock; without one the most stocked colour is given |
| IteratorsClosures.MainGiveaways | Rust/rust/src/iterators_closures/mod.rs:291-308 | with Blue, Red, Blue in stock, preference Red gets Red and no preference gets Blue |
| IteratorsClosures.ShoesInSize | Rust/rust/src/iterators_closures/mod.rs:230-232 | every shoe kept has the requested size |
| IteratorsClosures.ShoesInSizeKeepsExactlyMatches | Rust/rust/src/iterators_closures/mod.rs:230-232 | each shoe is kept as often as it occurs if it has the size and never otherwise, and the result is a subsequence of the input |
| IteratorsClosures.FilterBySize | Rust/rust/src/iterators_closures/mod.rs:238-270 | size 10 keeps the sneaker and the boot, in that order |
| AdvancedFeatures.SplitAtMut | Rust/rust/src/advanced_features/mod.rs:56-68 | needs mid ≤ len; the two views have lengths mid and len − mid, are `values[..mid]` and `values[mid..]`, concatenate to the whole buffer and do not overlap |
| AdvancedFeatures.WriteAt | Rust/rust/src/advanced_features/mod.rs:56-68 | writing through a view changes exactly one element of the buffer |
| AdvancedFeatures.WriteLeavesOtherViewAlone | Rust/rust/src/advanced_features/mod.rs:56-68 | a write through the left view never changes the right view |
| AdvancedFeatures.SplitSixAtThree | Rust/rust/src/advanced_features/mod.rs:45-54 | [1, 2, 3, 4, 5, 6] split at 3 gives [1, 2, 3] and [4, 5, 6] |
| AdvancedFeatures.Point.Add | Rust/rust/src/advanced_features/mod.rs:164-173 | componentwise sum, when each fits in `i32` |
| AdvancedFeatures.PointAddLaws | Rust/rust/src/advanced_features/mod.rs:164-180 | addition is commutative with (0, 0) as identity, and (1, 0) + (2, 3) = (3, 3) |
| AdvancedFeatures.Point.Display | Rust/rust/src/advanced_features/mod.rs:279-283 | the text is bracketed by "(" and ")", and parsing it gives the same point back |
| AdvancedFeatures.ParseCoordinatesOf | Rust/rust/src/advanced_features/mod.rs:279-283 | the "x, y" middle of the display is read back to the point |
| AdvancedFeatures.AddMeters | Rust/rust/src/advanced_features/mod.rs:188-194 | adds 1000 millimetres per metre, when that fits in `u32` |
| AdvancedFeatures.AddMetersInSteps | Rust/rust/src/advanced_features/mod.rs:188-194 | adding two lengths in metres one after the other is adding their sum |
| AdvancedFeatures.AddOne | Rust/rust/src/advanced_features/mod.rs:397-399 | the argument plus one, when that fits in `i32` |
| AdvancedFeatures.DoTwice | Rust/rust/src/advanced_features/mod.rs:401-403 | twice the value of the function at the argument |
| AdvancedFeatures.DoTwiceAddOneFive | Rust/rust/src/advanced_features/mod.rs:405-409 | `do_twice(add_one, 5)` is 12 |
| AdvancedFeatures.SplitJoin | Rust/rust/src/advanced_features/mod.rs:298-302 | elements without commas joined by ", " can be split back into the same elements |
| AdvancedFeatures.Wrapper.Display | Rust/rust/src/advanced_features/mod.rs:298-302 | the text is bracketed by "[" and "]"; for elements without commas, other than a single empty one, parsing it gives the wrapper back |
| AdvancedFeatures.JoinedElementsParse | Rust/rust/src/advanced_features/mod.rs:298-302 | "[" + the elements joined by ", " + "]" parses back to those elements, under the same condition |
| AdvancedFeatures.BlankLooksEmpty | Rust/rust/src/advanced_features/mod.rs:298-302 | no elements and one empty element both display as "[]" |
| AdvancedFeatures.HelloWorldWrapper | Rust/rust/src/advanced_features/mod.rs:304-308 | the test's wrapper displays as "[hello, world]" |
| MatchControlFlow.ValueInCents | Rust/rust/src/8-match_control_flow/mod.rs:28-45 | every value is one of 1, 5, 10, 25 |
| MatchControlFlow.CoinValues | Rust/rust/src/8-match_control_flow/mod.rs:28-45 | penny 1, nickel 5, dime 10, and a quarter is 25 whatever its state |
| MatchControlFlow.ValueIdentifiesKind | Rust/rust/src/8-match_control_flow/mod.rs:28-45 | two coins have the same value exactly when they are the same coin or both quarters |
| MatchControlFlow.PlusOne | Rust/rust/src/8-match_control_flow/mod.rs:52-57 | None exactly for None; otherwise one more than the value, which must be below the `i32` maximum |
| MatchControlFlow.MainPlusOne | Rust/rust/src/8-match_control_flow/mod.rs:65-68 | `plus_one(Some(5))` is `Some(6)` and `plus_one(None)` is None |
| PatternsMatching.MatchUseCase | Rust/rust/src/patterns_matching/mod.rs:6-11 | None for None and `Some(i + 1)` for `Some(i)` |
| PatternsMatching.PopAll | Rust/rust/src/patterns_matching/mod.rs:44-46 | the popped values are the stack's contents in reverse |
| PatternsMatching.ReverseIndex | Rust/rust/src/patterns_matching/mod.rs:44-46 | the k-th popped value is the k-th from the top of the stack |
| PatternsMatching.PushOneTwoThree | Rust/rust/src/patterns_matching/mod.rs:37-47 | pushing 1, 2, 3 then popping until empty gives 3, 2, 1 |
| PatternsMatching.MultiplePatterns | Rust/rust/src/patterns_matching/mod.rs:114-118 | 1 and 2 share the first arm, 3 takes the second, everything else the last |
| PatternsMatching.OneTakesSharedArm | Rust/rust/src/patterns_matching/mod.rs:111-119 | the source's value 1 takes the shared arm |
| PatternsMatching.MatchNumberRange | Rust/rust/src/patterns_matching/mod.rs:127-130 | the first arm exactly for 1..=5 |
| PatternsMatching.MatchLetterRange | Rust/rust/src/patterns_matching/mod.rs:134-138 | early exactly for 'a'..='j', late exactly for 'k'..='z' |
| PatternsMatching.LowercaseLettersAreClassified | Rust/rust/src/patterns_matching/mod.rs:124-139 | every lowercase ASCII letter takes a letter arm; 5 and 'c' take the first arms |
| PatternsMatching.MatchAxis | Rust/rust/src/patterns_matching/mod.rs:160-164 | the x-axis arm exactly when y is 0; the y-axis arm exactly when x is 0 and y is not; each arm binds the matching coordinates |
| PatternsMatching.AxisFirstArmWins | Rust/rust/src/patterns_matching/mod.rs:149-165 | the origin takes the x-axis arm, and (0, 7) is on the y axis at 7 |
| PatternsMatching.UpdateSetting | Rust/rust/src/patterns_matching/mod.rs:242-249 | both Some keeps the current setting; otherwise the new value replaces it, so the result is None exactly when the new value is None |
| PatternsMatching.SettingFiveAgainstTen | Rust/rust/src/patterns_matching/mod.rs:239-251 | `Some(5)` is kept against `Some(10)` |
| PatternsMatching.FirstThirdFifth | Rust/rust/src/patterns_matching/mod.rs:255-259 | the pattern binds the first, third and fifth components |
| PatternsMatching.SomeNumbers | Rust/rust/src/patterns_matching/mod.rs:253-259 | (2, 4, 8, 18, 32) binds 2, 8 and 32 |
| PatternsMatching.TruncatingRem | Rust/rust/src/patterns_matching/mod.rs:309 | Rust's `%` by a positive divisor b: strictly inside (−b, b); the Euclidean remainder for a non-negative dividend; for a negative one it is non-positive and its magnitude is the dividend's magnitude modulo b; and it completes the truncating quotient to the dividend |
| PatternsMatching.MatchGuard | Rust/rust/src/patterns_matching/mod.rs:308-312 | None exactly for None; `Some(x)` takes the even arm exactly when x is even |
| PatternsMatching.FourIsEven | Rust/rust/src/patterns_matching/mod.rs:305-313 | `Some(4)` is even, `Some(-3)` is odd, and `-3 % 2` is −1 as in Rust |
| PatternsMatching.MatchGreeting | Rust/rust/src/patterns_matching/mod.rs:326-334 | 3..=7 takes the first arm and binds the id, 10..=12 the second, any other id the last with the id |
| PatternsMatching.GreetingFive | Rust/rust/src/patterns_matching/mod.rs:323-335 | `Hello { id: 5 }` binds 5 in the first arm |
| ErrorHandling.FirstLine | Rust/rust/src/error_handling/mod.rs:117 | no first line exactly for the empty text; a text without '\n' is its own first line; otherwise the first line is the '\n'-free prefix followed by "\n" (and not ending in '\r') or by "\r\n" |
| ErrorHandling.LastCharOfFirstLine | Rust/rust/src/error_handling/mod.rs:116-118 | None exactly when there is no first line or it is empty; otherwise the last character of the first line, a character of the text other than '\n' |
| ErrorHandling.LeadingNewlineHasNoLastChar | Rust/rust/src/error_handling/mod.rs:117 | a text starting with "\n" or "\r\n" gives None |
| ErrorHandling.OnlyFirstLineMatters | Rust/rust/src/error_handling/mod.rs:117 | for any '\n'-free first line, what follows the first '\n' never matters; without a trailing '\r' the result is the line's last character, and "\r\n" ends a line like "\n" |
| ErrorHandling.FirstLineBeforeNewline | Rust/rust/src/error_handling/mod.rs:117 | the first line of a line followed by "\n" is that line, less one trailing '\r' |
| ErrorHandling.CarriageReturnInsideLine | Rust/rust/src/error_handling/mod.rs:117 | a '\r' inside the first line is kept: "x\ry\nz" gives 'y' |
| ErrorHandling.SingleLine | Rust/rust/src/error_handling/mod.rs:117 | a non-empty text without '\n' gives its last character |
| Structs.BuildUser | Rust/rust/src/structs/mod.rs:70-77 | active, one sign-in, and the given username and email |
| Structs.WithEmail | Rust/rust/src/structs/mod.rs:49-52 | the new email, every other field from the base user |
| Structs.WithEmailLaws | Rust/rust/src/structs/mod.rs:49-52 | updating a built user's email is building with that email; a later update overrides an earlier one; the same email changes nothing |
| Structs.StructsDemo | Rust/rust/src/structs/mod.rs:22-52 | `user1` after its email is reassigned, and `user3` with only the email changed |

## Left out

- The thread pool of `Rust/tcp_listener` is not modelled, nor the threads and channels of the concurrency chapter. Their purpose is concurrency.
- File I/O is not modelled: `read_username_from_file`, its `?` variant and the error-handling `main`. Neither is reading `stdin`, the command-line arguments or `rand`.
- Floating point is not modelled: `AveragedCollection::average`/`update_average`, `distance_from_origin` and the float cells.
- `AveragedCollections.AveragedCollection.Add`: it does not model the panic of the `i32` sum in `update_average` (`Rust/rust/src/object_oriented_rust/mod.rs:30`). That sum runs after every `add` and `remove` and overflows in a debug build, for example list `[2147483647]` then `add(1)`. `Add` and `Remove` have no precondition and succeed there, because the average itself is left out.
- `IteratorsClosures.Inventory.MostStocked`: it counts with unbounded integers. The `i32` counters of `most_stocked` would overflow only after more than 2147483647 shirts of one colour, and that panic is not modelled.
- `AveragedCollections.AveragedCollection.constructor`: the Rust struct has no constructor. Its fields are set directly by the code that owns it. The constructor exists only to set the list.
- Printing is not modelled: the `println!` in `value_in_cents`, `prints_and_returns_10`, `notify`, `cmp_display`, `outline_print`, `Screen::run` and the drawing of the GUI components. Only the values computed are modelled.
- The `dice_roll` match, `if_let_use_case`, `matching_literals`, `matching_named_variables` and the other pattern demos only print or bind fixed values, so they are not modelled.
- Unsafe code, `extern "C"` calls, `static mut COUNTER`, the `vec!` macro, the procedural derive macro and the trait-syntax demos are not modelled.
- `returns_summarizable` is not modelled. The summary line printed for the tweet in the generics `main` is also left out; its general form is stated by `Generics.TweetSummaryDeterminesContent`.
- The older copy `rust/src/generics_traits_lifetimes/mod.rs` has the same `largest*`, `x` and `mixup` code as the newer copy. They are modelled once.
- `AdvancedFeatures.SplitAtMut`: returns two index views of one buffer instead of two mutable slices. It models that the views do not alias by proving the index ranges disjoint. The raw pointer arithmetic is not modelled.
- `Generics.Largest`: it takes the comparison as a function parameter in place of `PartialOrd`. The result is the index of the largest element rather than a reference to it.
- `MatchControlFlow.UsState`: it lists only the five states the source names before its elided rest.
