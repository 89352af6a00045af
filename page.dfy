/**
 * The page's state machine (docs/app.js): the module globals `posts` and
 * `autoRefreshInterval`, the timeline's articles, the `hidden` classes of the
 * two placeholders, and the rejection modal. Event handlers are methods; the
 * result of a fetch is an input.
 */
module Page {
  import opened Wrappers
  import opened Timestamp
  import opened Rejection
  import opened Feed

  /** What `response.json()` yields: a decoded array or `null`, or a body that is not JSON. */
  datatype Body = Json(data: Option<seq<Post>>) | Unparseable

  /** What `fetch` yields: a response with its status and body, or a transport failure. */
  datatype FetchResult = Response(status: int, body: Body) | NetworkFailure

  /** Where a click on the modal landed: its backdrop (the modal element itself) or its inner content. */
  datatype ClickTarget = Backdrop | Content

  /** Whether the response counts as successful: a status from 200 to 299. */
  predicate StatusOk(status: int)
  {
    200 <= status <= 299
  }

  /** The articles rendering the feed `p` leaves in the timeline: none for a null feed. */
  function Displayed(p: Option<seq<Post>>, nowMs: int): seq<Article>
  {
    match p
    case None => []
    case Some(s) => RenderedCards(s, nowMs)
  }

  /** The feed is null or has no records; this is when `renderPosts` shows the empty placeholder. */
  predicate IsEmptyFeed(p: Option<seq<Post>>)
  {
    p.None? || |p.value| == 0
  }

  class Page {
    var posts: Option<seq<Post>>
    var articles: seq<Article>
    var loadingHidden: bool
    var emptyHidden: bool
    var modalActive: bool
    var deniedMessage: string
    /** `autoRefreshInterval`: the last handle `setInterval` returned, `None` for `null`. */
    var autoRefresh: Option<nat>
    /** The intervals the host still runs, whether or not a global still holds their handle. */
    ghost var running: set<nat>
    /** The handle the host gives to the next `setInterval`; handles are positive and never reused. */
    var nextHandle: nat
    /** How many times `loadPosts` has been started. */
    ghost var loads: nat

    ghost predicate Valid()
      reads this
    {
      && nextHandle >= 1
      && (forall h :: h in running ==> 1 <= h < nextHandle)
      && (autoRefresh.Some? ==> autoRefresh.value in running)
      && (forall k :: 0 <= k < |articles| ==> articles[k].actions == ButtonActions)
    }

    /**
     * What one `loadPosts` with the fetch outcome `r` leaves, relative to the
     * state before it. A transport failure, a status outside 2xx and a body
     * that does not decode all end in the `catch` before `posts` is touched:
     * `posts` and the articles are as they were, the loading placeholder is
     * hidden and the empty one shown. Otherwise `posts` is the decoded data
     * and the timeline its rendering; the empty placeholder stays hidden only
     * for a non-empty feed that renders completely, since a record that
     * throws reaches the same `catch`.
     */
    twostate predicate LoadOutcome(r: FetchResult, nowMs: int)
      reads this
    {
      && loads == old(loads) + 1
      && loadingHidden
      && (r.NetworkFailure? || !StatusOk(r.status) || r.body.Unparseable? ==>
            posts == old(posts) && articles == old(articles) && !emptyHidden)
      && (r.Response? && StatusOk(r.status) && r.body.Json? ==>
            && posts == r.body.data
            && articles == Displayed(posts, nowMs)
            && (emptyHidden <==> !IsEmptyFeed(posts) && AllRenderable(posts.value)))
    }

    /** The page as the script finds it: `posts = []`, no interval, no article, the markup's initial flags and message. */
    constructor (loadingHidden0: bool, emptyHidden0: bool, deniedMessage0: string)
      ensures Valid()
      ensures posts == Some([]) && articles == [] && loads == 0
      ensures autoRefresh == None && running == {} && nextHandle == 1
      ensures loadingHidden == loadingHidden0 && emptyHidden == emptyHidden0
      ensures !modalActive && deniedMessage == deniedMessage0
    {
      posts := Some([]);
      articles := [];
      loadingHidden, emptyHidden := loadingHidden0, emptyHidden0;
      modalActive, deniedMessage := false, deniedMessage0;
      autoRefresh, running, nextHandle := None, {}, 1;
      loads := 0;
    }

    /** `showRejectionModal(action)`: whatever the modal showed before, it is now open with the action's message. */
    method ShowRejectionModal(action: string)
      modifies this`modalActive, this`deniedMessage
      ensures modalActive
      ensures deniedMessage == RejectionMessage(action)
    {
      deniedMessage := RejectionMessage(action);
      modalActive := true;
    }

    /** `closeModal()`: the modal is inactive; its message text stays as it was. */
    method CloseModal()
      modifies this`modalActive
      ensures !modalActive
    {
      modalActive := false;
    }

    /** The `keydown` handler: Escape closes an open modal; any other key, or a closed modal, changes nothing. */
    method OnKeyDown(key: string)
      modifies this`modalActive
      ensures modalActive == (old(modalActive) && key != "Escape")
    {
      if key == "Escape" && modalActive {
        CloseModal();
      }
    }

    /** The modal's `click` handler: a click on the backdrop closes it, one on its content changes nothing. */
    method OnModalClick(target: ClickTarget)
      modifies this`modalActive
      ensures target == Backdrop ==> !modalActive
      ensures target == Content ==> modalActive == old(modalActive)
    {
      if target == Backdrop {
        CloseModal();
      }
    }

    /**
     * A click on button `b` of the `k`-th displayed card: the modal opens with
     * the table's own message for that button, never the generic denial.
     */
    method OnActionClick(k: nat, b: nat)
      requires Valid()
      requires k < |articles| && b < |articles[k].actions|
      modifies this`modalActive, this`deniedMessage
      ensures modalActive
      ensures articles[k].actions[b] in RejectionMessages
      ensures deniedMessage == RejectionMessages[articles[k].actions[b]]
      ensures deniedMessage != DefaultRejection
    {
      ButtonActionsAreInTable();
      assert articles[k].actions[b] == ButtonActions[b];
      ShowRejectionModal(articles[k].actions[b]);
    }

    /**
     * `renderPosts(p)` at the instant `nowMs`. Every earlier article is
     * removed and the cards of `p` are appended in order; `ok` is false when a
     * record makes `createPostElement` throw, which stops the appending. The
     * loading placeholder is hidden in every case; the empty placeholder is
     * shown exactly for a null or empty feed.
     */
    method RenderPosts(p: Option<seq<Post>>, nowMs: int) returns (ok: bool)
      requires Valid()
      modifies this`articles, this`loadingHidden, this`emptyHidden
      ensures Valid()
      ensures articles == Displayed(p, nowMs)
      ensures ok <==> (p.None? || AllRenderable(p.value))
      ensures loadingHidden
      ensures emptyHidden <==> !IsEmptyFeed(p)
    {
      // every article already in the timeline is removed, one at a time
      while articles != []
        invariant Valid()
        decreases |articles|
      {
        articles := articles[1..];
      }
      if IsEmptyFeed(p) {
        loadingHidden := true;
        emptyHidden := false;
        return true;
      }
      loadingHidden := true;
      emptyHidden := true;
      var s := p.value;
      var i := 0;
      while i < |s|
        invariant 0 <= i <= |s|
        invariant forall j :: 0 <= j < i ==> Renderable(s[j])
        invariant |articles| == i
        invariant forall j :: 0 <= j < i ==> Card(s[j], nowMs) == Some(articles[j])
        invariant loadingHidden && emptyHidden
        invariant Valid()
      {
        var card := Card(s[i], nowMs);
        if card.None? {
          RenderedCardsCount(s, nowMs, i);
          SameCards(s, nowMs, articles);
          return false;
        }
        articles := articles + [card.value];
        i := i + 1;
      }
      RenderedCardsCount(s, nowMs, |s|);
      SameCards(s, nowMs, articles);
      return true;
    }

    /**
     * `loadPosts()` with the fetch's outcome `r`: exactly the `LoadOutcome`
     * of `r`, and nothing beyond `posts`, the articles and the two
     * placeholders changes.
     */
    method LoadPosts(r: FetchResult, nowMs: int)
      requires Valid()
      modifies this`posts, this`articles, this`loadingHidden, this`emptyHidden, this`loads
      ensures Valid()
      ensures LoadOutcome(r, nowMs)
    {
      loads := loads + 1;
      if r.NetworkFailure? || !StatusOk(r.status) || r.body.Unparseable? {
        loadingHidden := true;
        emptyHidden := false;
        return;
      }
      posts := r.body.data;
      var ok := RenderPosts(posts, nowMs);
      if !ok {
        loadingHidden := true;
        emptyHidden := false;
      }
    }

    /** `startAutoRefresh()`: a new interval runs and its handle replaces the old one, which is not cleared. */
    method StartAutoRefresh()
      requires Valid()
      modifies this`autoRefresh, this`running, this`nextHandle
      ensures Valid()
      ensures autoRefresh == Some(old(nextHandle))
      ensures old(nextHandle) !in old(running)
      ensures running == old(running) + {old(nextHandle)}
      ensures nextHandle == old(nextHandle) + 1
    {
      var h := nextHandle;
      nextHandle := nextHandle + 1;
      running := running + {h};
      autoRefresh := Some(h);
    }

    /** `stopAutoRefresh()`: the interval the handle names is cleared and the handle is null; without a handle, nothing changes. */
    method StopAutoRefresh()
      requires Valid()
      modifies this`autoRefresh, this`running
      ensures Valid()
      ensures autoRefresh == None
      ensures old(autoRefresh).None? ==> running == old(running)
      ensures old(autoRefresh).Some? ==> running == old(running) - {old(autoRefresh).value}
    {
      if autoRefresh.Some? {
        running := running - {autoRefresh.value};
        autoRefresh := None;
      }
    }

    /** A tick of a running interval starts one load. */
    method OnIntervalTick(h: nat, r: FetchResult, nowMs: int)
      requires Valid()
      requires h in running
      modifies this`posts, this`articles, this`loadingHidden, this`emptyHidden, this`loads
      ensures Valid()
      ensures LoadOutcome(r, nowMs)
    {
      LoadPosts(r, nowMs);
    }

    /** `init()`: one load (with outcome `r`) and the auto-refresh interval, whether or not the tab is hidden. */
    method Init(r: FetchResult, nowMs: int)
      requires Valid()
      modifies this
      ensures Valid()
      ensures LoadOutcome(r, nowMs)
      ensures autoRefresh == Some(old(nextHandle)) && old(nextHandle) !in old(running)
      ensures running == old(running) + {old(nextHandle)} && nextHandle == old(nextHandle) + 1
      ensures modalActive == old(modalActive) && deniedMessage == old(deniedMessage)
    {
      LoadPosts(r, nowMs);
      StartAutoRefresh();
    }

    /**
     * The `visibilitychange` handler. Hidden: the auto-refresh is stopped and
     * nothing is loaded. Visible: exactly one load (with outcome `r`), then a
     * fresh interval whose handle replaces the old one.
     */
    method OnVisibilityChange(hidden: bool, r: FetchResult, nowMs: int)
      requires Valid()
      modifies this
      ensures Valid()
      ensures modalActive == old(modalActive) && deniedMessage == old(deniedMessage)
      ensures hidden ==>
        && autoRefresh == None
        && running == old(running) - (if old(autoRefresh).Some? then {old(autoRefresh).value} else {})
        && nextHandle == old(nextHandle)
        && loads == old(loads) && posts == old(posts) && articles == old(articles)
        && loadingHidden == old(loadingHidden) && emptyHidden == old(emptyHidden)
      ensures !hidden ==>
        && LoadOutcome(r, nowMs)
        && autoRefresh == Some(old(nextHandle)) && old(nextHandle) !in old(running)
        && running == old(running) + {old(nextHandle)} && nextHandle == old(nextHandle) + 1
    {
      if hidden {
        StopAutoRefresh();
      } else {
        LoadPosts(r, nowMs);
        StartAutoRefresh();
      }
    }
  }

  /** The articles built one by one in `RenderPosts` are the specification's cards. */
  lemma SameCards(s: seq<Post>, nowMs: int, built: seq<Article>)
    requires |built| == |RenderedCards(s, nowMs)|
    requires forall j :: 0 <= j < |built| ==> Card(s[j], nowMs) == Some(built[j])
    ensures built == RenderedCards(s, nowMs)
  {
    var cs := RenderedCards(s, nowMs);
    forall j | 0 <= j < |built| ensures built[j] == cs[j] {
      assert Card(s[j], nowMs) == Some(cs[j]);
    }
  }

  /**
   * A page opened in a background tab: `init` starts an interval although the
   * tab is hidden; when the tab is shown, the handler starts a second one and
   * overwrites the first handle; when it is hidden again, only the second is
   * cleared. The handle is null, yet the first interval still runs.
   */
  method BackgroundTabScenario() returns (handle: Option<nat>, ghost stillRunning: set<nat>)
    ensures handle == None
    ensures stillRunning == {1}
  {
    var page := new Page(false, true, "");
    page.Init(NetworkFailure, 0);
    page.OnVisibilityChange(false, NetworkFailure, 0);
    page.OnVisibilityChange(true, NetworkFailure, 0);
    handle := page.autoRefresh;
    stillRunning := page.running;
  }

  /**
   * A page opened in a visible tab and then hidden and shown any number of
   * times keeps exactly one interval, the one its handle names.
   */
  method ForegroundTabScenario(toggles: nat) returns (handle: Option<nat>, ghost stillRunning: set<nat>)
    ensures handle.Some? && stillRunning == {handle.value}
  {
    var page := new Page(false, true, "");
    page.Init(NetworkFailure, 0);
    var i := 0;
    while i < toggles
      invariant page.Valid()
      invariant page.autoRefresh.Some? && page.running == {page.autoRefresh.value}
    {
      page.OnVisibilityChange(true, NetworkFailure, 0);
      page.OnVisibilityChange(false, NetworkFailure, 0);
      i := i + 1;
    }
    handle := page.autoRefresh;
    stillRunning := page.running;
  }
}
