/**
 * Posts and the cards `createPostElement` builds for them (docs/app.js).
 *
 * A card is described by the values it displays and the actions its buttons
 * carry; the HTML template, the escaping of text and the SVG icons are not
 * modelled.
 */
module Feed {
  import opened Wrappers
  import opened Timestamp
  import opened Rejection

  /**
   * One record of the decoded feed. `userName` is `None` when the decoded
   * record has no string there (the card cannot be built); `timestampMs` is
   * the instant the ISO string parses to, `None` when it does not parse.
   */
  datatype Post = Post(
    id: string,
    userId: string,
    userName: Option<string>,
    userColor: string,
    text: string,
    timestampMs: Option<int>,
    isReply: bool)

  /** One `<article>` of the timeline. `initials` is the name's first two characters before upper-casing. */
  datatype Article = Article(
    postId: string,
    initials: string,
    userName: string,
    userId: string,
    userColor: string,
    replyBadge: bool,
    time: Label,
    text: string,
    actions: seq<string>)

  /** The `data-action` values of the three buttons of every card, in order. */
  const ButtonActions: seq<string> := ["reply", "like", "share"]

  /** `createPostElement` completes for a record exactly when its name is a string (`substring` is called on it). */
  predicate Renderable(post: Post)
  {
    post.userName.Some?
  }

  predicate AllRenderable(p: seq<Post>)
  {
    forall k :: 0 <= k < |p| ==> Renderable(p[k])
  }

  function Min(a: int, b: int): int
  {
    if a < b then a else b
  }

  /** `createPostElement(post)` at the instant `nowMs`: `None` when it throws. */
  function Card(post: Post, nowMs: int): Option<Article>
  {
    match post.userName
    case None => None
    case Some(name) =>
      var initials := name[..Min(2, |name|)];
      Some(Article(post.id, initials, name, post.userId, post.userColor, post.isReply,
                   FormatInstant(post.timestampMs, nowMs), post.text, ButtonActions))
  }

  /**
   * The cards `renderPosts` appends for `p`, front to back, until a record
   * makes `createPostElement` throw: the k-th card is the card of `p[k]`.
   */
  function RenderedCards(p: seq<Post>, nowMs: int): (cs: seq<Article>)
    ensures |cs| <= |p|
    ensures forall k :: 0 <= k < |cs| ==> Card(p[k], nowMs) == Some(cs[k])
  {
    if p == [] then []
    else
      match Card(p[0], nowMs)
      case None => []
      case Some(a) => [a] + RenderedCards(p[1..], nowMs)
  }

  /**
   * The rendering stops exactly at the first record that cannot be rendered:
   * when `p[..k]` renders and `p[k]` does not (or `k` is the end), there are
   * `k` cards. With every record renderable, there is one card per post, in
   * the posts' order.
   */
  lemma {:induction false} RenderedCardsCount(p: seq<Post>, nowMs: int, k: nat)
    requires k <= |p|
    requires forall j :: 0 <= j < k ==> Renderable(p[j])
    requires k < |p| ==> !Renderable(p[k])
    ensures |RenderedCards(p, nowMs)| == k
  {
    if k > 0 {
      assert Renderable(p[0]);
      var rest := p[1..];
      forall j | 0 <= j < k - 1 ensures Renderable(rest[j]) {
        assert rest[j] == p[j + 1];
      }
      RenderedCardsCount(rest, nowMs, k - 1);
    }
  }

  /**
   * Every post rendered: exactly one card per post, in the same order. Each
   * card shows its own post's id, name, handle, colour, reply badge and text
   * unaltered, the relative time of the post's stamp at `nowMs`, initials
   * that are a prefix of the name of at most two characters, and the three
   * rejection buttons.
   */
  lemma {:induction false} RenderedCardsAll(p: seq<Post>, nowMs: int)
    requires AllRenderable(p)
    ensures |RenderedCards(p, nowMs)| == |p|
    ensures forall k :: 0 <= k < |p| ==>
      var c := RenderedCards(p, nowMs)[k];
      && c.postId == p[k].id
      && Some(c.userName) == p[k].userName
      && c.userId == p[k].userId
      && c.userColor == p[k].userColor
      && c.replyBadge == p[k].isReply
      && c.text == p[k].text
      && c.time == FormatInstant(p[k].timestampMs, nowMs)
      && c.actions == ButtonActions
      && |c.initials| == Min(2, |c.userName|)
      && c.initials <= c.userName
  {
    RenderedCardsCount(p, nowMs, |p|);
  }

  /**
   * Every button of every card carries an action the table names, so a click
   * on a rendered button never reaches the generic denial.
   */
  lemma ButtonActionsAreInTable()
    ensures forall k :: 0 <= k < |ButtonActions| ==>
      ButtonActions[k] in RejectionMessages &&
      RejectionMessage(ButtonActions[k]) == RejectionMessages[ButtonActions[k]] &&
      RejectionMessage(ButtonActions[k]) != DefaultRejection
  {
  }
}
