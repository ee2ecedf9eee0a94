/** `AveragedCollection`: a list of `i32` whose `add` pushes and whose
    `remove` pops. The cached floating-point average is not part of the model. */
module AveragedCollections {
  import opened Prelude

  class AveragedCollection {
    var list: seq<i32>

    /** The struct literal `AveragedCollection { list, .. }`. */
    constructor (list: seq<i32>)
      ensures this.list == list
    {
      this.list := list;
    }

    /** `add`: `Vec::push` onto the end of the list. */
    method Add(value: i32)
      modifies this
      ensures list == old(list) + [value]
    {
      list := list + [value];
    }

    /** `remove`: `Vec::pop`; an empty list gives `None` and stays empty. */
    method Remove() returns (result: Option<i32>)
      modifies this
      ensures old(list) == [] ==> result == None && list == []
      ensures old(list) != [] ==>
        result == Some(old(list)[|old(list)| - 1]) && list == old(list)[..|old(list)| - 1]
    {
      if list == [] {
        result := None;
      } else {
        result := Some(list[|list| - 1]);
        list := list[..|list| - 1];
      }
    }
  }

  /** Adding a value and removing one at once gives that value back and leaves
      the list as it was. */
  method AddThenRemove(initial: seq<i32>, value: i32) returns (removed: Option<i32>, after: seq<i32>)
    ensures removed == Some(value)
    ensures after == initial
  {
    var c := new AveragedCollection(initial);
    c.Add(value);
    removed := c.Remove();
    after := c.list;
  }

  /** Removing from an empty collection changes nothing. */
  method RemoveFromEmpty() returns (removed: Option<i32>, after: seq<i32>)
    ensures removed == None && after == []
  {
    var c := new AveragedCollection([]);
    removed := c.Remove();
    after := c.list;
  }
}

/** The blog post of the state pattern: `Post` keeps an optional boxed `State`
    and its text; `State` is one of `Draft`, `PendingReview` and `Published`. */
module Blog {
  import opened Prelude

  /** The three implementations of the `State` trait. A `Box<dyn State>` is a
      value of this type; each trait method that consumes the box returns the
      next state. */
  datatype State = Draft | PendingReview | Published {

    function RequestReview(): (next: State)
      ensures this == Draft ==> next == PendingReview
      ensures this != Draft ==> next == this
    {
      match this
      case Draft => PendingReview
      case PendingReview => this
      case Published => this
    }

    function Approve(): (next: State)
      ensures this == PendingReview ==> next == Published
      ensures this != PendingReview ==> next == this
    {
      match this
      case Draft => this
      case PendingReview => Published
      case Published => this
    }

    function Reject(): (next: State)
      ensures this == PendingReview ==> next == Draft
      ensures this != PendingReview ==> next == this
    {
      match this
      case Draft => this
      case PendingReview => Draft
      case Published => this
    }

    /** The trait's default `content` gives ""; `Published` overrides it with
        the post's text. */
    function Content(post: string): (shown: string)
      ensures this == Published ==> shown == post
      ensures this != Published ==> shown == ""
    {
      match this
      case Published => post
      case _ => ""
    }
  }

  /** A call of one of the consuming `State` methods. */
  datatype Op = RequestReviewOp | ApproveOp | RejectOp

  function Step(s: State, op: Op): State
  {
    match op
    case RequestReviewOp => s.RequestReview()
    case ApproveOp => s.Approve()
    case RejectOp => s.Reject()
  }

  /** The state after applying `ops` in order, starting from `s`. */
  function Run(s: State, ops: seq<Op>): State
    decreases |ops|
  {
    if ops == [] then s else Run(Step(s, ops[0]), ops[1..])
  }

  /** No sequence of calls takes a post out of `Published`. */
  lemma {:induction false} PublishedIsFinal(ops: seq<Op>)
    ensures Run(Published, ops) == Published
    decreases |ops|
  {
    if ops != [] {
      PublishedIsFinal(ops[1..]);
    }
  }

  /** From any unpublished state, publishing needs an `approve` call. */
  lemma {:induction false} PublishingNeedsApproval(s: State, ops: seq<Op>)
    requires s != Published && Run(s, ops) == Published
    ensures exists j :: 0 <= j < |ops| && ops[j] == ApproveOp
    decreases |ops|
  {
    if ops[0] == ApproveOp {
      assert ops[0] == ApproveOp;
    } else {
      PublishingNeedsApproval(Step(s, ops[0]), ops[1..]);
      var j :| 0 <= j < |ops[1..]| && ops[1..][j] == ApproveOp;
      assert ops[j + 1] == ApproveOp;
    }
  }

  /** A draft becomes published only through a `request_review` followed,
      later, by an `approve`: its text cannot be shown without review. */
  lemma {:induction false} PublishingNeedsReviewThenApproval(ops: seq<Op>)
    requires Run(Draft, ops) == Published
    ensures exists i, j :: 0 <= i < j < |ops| && ops[i] == RequestReviewOp && ops[j] == ApproveOp
    decreases |ops|
  {
    var rest := ops[1..];
    if ops[0] == RequestReviewOp {
      PublishingNeedsApproval(PendingReview, rest);
      var j :| 0 <= j < |rest| && rest[j] == ApproveOp;
      assert ops[0] == RequestReviewOp && ops[j + 1] == ApproveOp;
    } else {
      PublishingNeedsReviewThenApproval(rest);
      var i, j :| 0 <= i < j < |rest| && rest[i] == RequestReviewOp && rest[j] == ApproveOp;
      assert ops[i + 1] == RequestReviewOp && ops[j + 1] == ApproveOp;
    }
  }

  /** Only a published post shows a non-empty text. */
  lemma ContentHiddenUntilPublished(s: State, post: string)
    requires s.Content(post) != ""
    ensures s == Published && s.Content(post) == post
  {
  }

  /** `blog::Post`. The state is an `Option` because `approve` and
      `request_review` `take()` it out before putting the next one back. */
  class Post {
    var state: Option<State>
    var content: string

    /** The `unwrap` in `content` succeeds. */
    predicate Valid()
      reads this
    {
      state.Some?
    }

    /** `Post::new`: a draft with empty text. */
    constructor ()
      ensures state == Some(Draft) && content == ""
      ensures Valid()
    {
      state := Some(Draft);
      content := "";
    }

    /** `add_text`: `push_str` onto the text, in every state. */
    method AddText(text: string)
      modifies this
      ensures content == old(content) + text
      ensures state == old(state)
    {
      content := content + text;
    }

    method Approve()
      modifies this
      ensures state == if old(state).Some? then Some(old(state).value.Approve()) else None
      ensures content == old(content)
      ensures Valid() == old(Valid())
    {
      var taken := state;
      state := None;
      if taken.Some? {
        state := Some(taken.value.Approve());
      }
    }

    method RequestReview()
      modifies this
      ensures state == if old(state).Some? then Some(old(state).value.RequestReview()) else None
      ensures content == old(content)
      ensures Valid() == old(Valid())
    {
      var taken := state;
      state := None;
      if taken.Some? {
        state := Some(taken.value.RequestReview());
      }
    }

    /** `content`: the whole text once published, "" before. */
    function Content(): (shown: string)
      reads this
      requires Valid()
      ensures state.value == Published ==> shown == content
      ensures state.value != Published ==> shown == ""
    {
      state.value.Content(content)
    }
  }

  /** The test of the state-pattern post: after `add_text` and after
      `request_review` the post shows "", after `approve` it shows the text. */
  method PublishingTrace(text: string) returns (afterAdd: string, afterReview: string, afterApprove: string)
    ensures afterAdd == "" && afterReview == ""
    ensures afterApprove == text
  {
    var post := new Post();
    post.AddText(text);
    afterAdd := post.Content();
    post.RequestReview();
    afterReview := post.Content();
    post.Approve();
    afterApprove := post.Content();
  }
}

/** The typestate version of the blog: each stage of a post is its own type,
    so an unpublished text has no `content` method at all. */
module BlogTypestate {

  /** `DraftPost`, the only stage whose text grows in place. */
  class DraftPost {
    var content: string

    /** The struct literal `DraftPost { content }`. */
    constructor (content: string)
      ensures this.content == content
    {
      this.content := content;
    }

    /** `add_text`: `push_str` onto the draft's text. */
    method AddText(text: string)
      modifies this
      ensures content == old(content) + text
    {
      content := content + text;
    }

    /** `request_review` moves the text into a `PendingReviewPost`. */
    function RequestReview(): (pending: PendingReviewPost)
      reads this
      ensures pending.content == content
    {
      PendingReviewPost(content)
    }
  }

  datatype PendingReviewPost = PendingReviewPost(content: string) {
    /** `approve` moves the text into a published `Post`. */
    function Approve(): (published: Post)
      ensures published.Content() == content
    {
      Post(content)
    }
  }

  datatype Post = Post(content: string) {
    /** `Post::new` returns an empty draft, not a `Post`. */
    static method New() returns (draft: DraftPost)
      ensures fresh(draft) && draft.content == ""
    {
      draft := new DraftPost("");
    }

    function Content(): (shown: string)
      ensures shown == content
    {
      content
    }
  }

  /** The test of the typestate post: the text added to the draft is what the
      published post shows. */
  method TypestateTrace(text: string) returns (shown: string)
    ensures shown == text
  {
    var draft := Post.New();
    draft.AddText(text);
    var pending := draft.RequestReview();
    var published := pending.Approve();
    shown := published.Content();
  }
}
