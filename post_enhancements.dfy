/**
 * Post enhancements: the sticky-first reordering of the home query, the
 * recommended and sticky flags kept in post meta, the visitor's like
 * counter, the comment author check and the comment walker's class rules.
 */
module PostEnhancements {
  import opened Util

  // ---------------------------------------------------------------------
  // Sticky posts

  /** A post of a query result; only its ID matters to the reordering. */
  datatype Post = Post(id: int, title: string)

  /** The query and request state `reorder_posts_with_sticky` checks. */
  datatype QueryContext = QueryContext(isAdmin: bool, isMainQuery: bool, isHome: bool, paged: int)

  /** `get_query_var('paged') ?: 1`: an unset page (0) is page 1. */
  function CurrentPage(ctx: QueryContext): (r: int)
    ensures ctx.paged == 0 ==> r == 1
    ensures ctx.paged != 0 ==> r == ctx.paged
  {
    if ctx.paged == 0 then 1 else ctx.paged
  }

  /** The reordering applies only to the first page of the main home query outside the admin. */
  predicate Reorders(ctx: QueryContext) {
    !ctx.isAdmin && ctx.isMainQuery && ctx.isHome && CurrentPage(ctx) == 1
  }

  function Ids(posts: seq<Post>): (r: set<int>)
    ensures forall p :: p in posts ==> p.id in r
    ensures forall i :: i in r ==> exists p :: p in posts && p.id == i
  {
    set p | p in posts :: p.id
  }

  /** `array_values(array_filter(...))`: the posts whose ID is not in `ids`, in order. */
  function Without(posts: seq<Post>, ids: set<int>): (r: seq<Post>)
    ensures |r| <= |posts|
    ensures forall p :: p in r <==> p in posts && p.id !in ids
  {
    if posts == [] then []
    else Without(posts[..|posts| - 1], ids) + (if posts[|posts| - 1].id in ids then [] else [posts[|posts| - 1]])
  }

  /**
   * `reorder_posts_with_sticky`: on the first page of the main home query,
   * with both lists non-empty, the sticky posts come first and the other
   * posts follow without the sticky ones; otherwise the posts are returned
   * unchanged.
   */
  function ReorderPostsWithSticky(posts: seq<Post>, ctx: QueryContext, sticky: seq<Post>): (r: seq<Post>)
    ensures !Reorders(ctx) || sticky == [] || posts == [] ==> r == posts
    ensures Reorders(ctx) && sticky != [] && posts != [] ==>
      |sticky| <= |r| && r[..|sticky|] == sticky && r[|sticky|..] == Without(posts, Ids(sticky))
  {
    if !Reorders(ctx) || sticky == [] || posts == [] then posts
    else
      var r := sticky + Without(posts, Ids(sticky));
      assert r[..|sticky|] == sticky && r[|sticky|..] == Without(posts, Ids(sticky));
      r
  }

  /** The IDs of a list are pairwise distinct. */
  predicate DistinctIds(posts: seq<Post>) {
    forall i, j :: 0 <= i < j < |posts| ==> posts[i].id != posts[j].id
  }

  /** Filtering keeps the order of the kept posts, so distinct IDs stay distinct. */
  lemma {:induction false} WithoutDistinct(posts: seq<Post>, ids: set<int>)
    requires DistinctIds(posts)
    ensures DistinctIds(Without(posts, ids))
    decreases |posts|
  {
    if posts != [] {
      var init := posts[..|posts| - 1];
      var last := posts[|posts| - 1];
      assert DistinctIds(init) by {
        assert forall i :: 0 <= i < |init| ==> init[i] == posts[i];
      }
      WithoutDistinct(init, ids);
      var w := Without(init, ids);
      forall p | p in w
        ensures p.id != last.id
      {
        var k :| 0 <= k < |init| && init[k] == p;
        assert posts[k] == p;
      }
    }
  }

  /** No post appears twice after reordering when neither input list repeats an ID. */
  lemma ReorderNoDuplicates(posts: seq<Post>, ctx: QueryContext, sticky: seq<Post>)
    requires DistinctIds(posts) && DistinctIds(sticky)
    ensures DistinctIds(ReorderPostsWithSticky(posts, ctx, sticky))
  {
    if Reorders(ctx) && sticky != [] && posts != [] {
      var w := Without(posts, Ids(sticky));
      WithoutDistinct(posts, Ids(sticky));
      var r := sticky + w;
      forall i, j | 0 <= i < j < |r|
        ensures r[i].id != r[j].id
      {
        if j >= |sticky| && i < |sticky| {
          assert r[j] == w[j - |sticky|];
          assert r[j] in w;
          assert r[i] == sticky[i];
        } else if i >= |sticky| {
          assert r[i] == w[i - |sticky|] && r[j] == w[j - |sticky|];
        }
      }
    }
  }

  /** Every post survives the reordering except a non-sticky copy of a sticky ID, and nothing is invented. */
  lemma ReorderMembers(posts: seq<Post>, ctx: QueryContext, sticky: seq<Post>)
    requires Reorders(ctx) && sticky != [] && posts != []
    ensures forall p :: p in ReorderPostsWithSticky(posts, ctx, sticky) <==>
      p in sticky || (p in posts && p.id !in Ids(sticky))
  {
    var w := Without(posts, Ids(sticky));
    var r := sticky + w;
    assert ReorderPostsWithSticky(posts, ctx, sticky) == r;
    forall p
      ensures p in r <==> p in sticky || p in w
    {
    }
  }

  // ---------------------------------------------------------------------
  // Post meta: recommended, sticky and likes

  const RecommendedKey := "_paper_wp_recommended"
  const StickyKey := "_paper_wp_sticky"
  const LikeCountKey := "_post_recommend_count"

  /** `ajax_toggle_recommended_post`: a stored '1' becomes '0'; anything else, a missing value included, becomes '1'. */
  function ToggledStatus(stored: string): (r: string)
    ensures r == "0" || r == "1"
    ensures r == "0" <==> stored == "1"
  {
    if stored == "1" then "0" else "1"
  }

  /** On the two stored flag values the toggle is its own inverse. */
  lemma ToggleTwice(stored: string)
    requires stored == "0" || stored == "1"
    ensures ToggledStatus(ToggledStatus(stored)) == stored
  {
  }

  /** The outcome of an AJAX request: a JSON success with a value, or a JSON error with a message. */
  datatype Reply<T> = Success(value: T) | Failure(message: string)

  /** The checkbox value a save stores: '1' when the field was posted, else '0'. */
  function CheckboxMeta(posted: bool): (r: string)
    ensures r == "1" <==> posted
    ensures r == "0" <==> !posted
  {
    if posted then "1" else "0"
  }

  /**
   * The post meta of the site (`get_post_meta($id, $key, true)` reads '' for
   * a missing key), the recommended-posts cache, and the like cookies one
   * visitor holds.
   */
  class PostMeta {
    var meta: map<(int, string), string>
    var recommendedCached: bool
    var likedCookies: set<int>

    constructor(meta: map<(int, string), string>, likedCookies: set<int>)
      ensures this.meta == meta && this.likedCookies == likedCookies && recommendedCached
    {
      this.meta := meta;
      this.likedCookies := likedCookies;
      recommendedCached := true;
    }

    function Get(post: int, key: string): (r: string)
      reads this
      ensures (post, key) !in meta ==> r == ""
      ensures (post, key) in meta ==> r == meta[(post, key)]
    {
      if (post, key) in meta then meta[(post, key)] else ""
    }

    /**
     * `save_recommended_post_meta`: when the nonce, autosave and capability
     * checks pass (`allowed`), store the checkbox and drop the cached
     * recommendations; otherwise change nothing.
     */
    method SaveRecommended(post: int, posted: bool, allowed: bool)
      modifies this
      ensures allowed ==> meta == old(meta)[(post, RecommendedKey) := CheckboxMeta(posted)] && !recommendedCached
      ensures !allowed ==> meta == old(meta) && recommendedCached == old(recommendedCached)
      ensures likedCookies == old(likedCookies)
    {
      if !allowed {
        return;
      }
      meta := meta[(post, RecommendedKey) := CheckboxMeta(posted)];
      recommendedCached := false;
    }

    /** `save_sticky_post_meta`: the same guard, storing the sticky checkbox. */
    method SaveSticky(post: int, posted: bool, allowed: bool)
      modifies this
      ensures allowed ==> meta == old(meta)[(post, StickyKey) := CheckboxMeta(posted)]
      ensures !allowed ==> meta == old(meta)
      ensures recommendedCached == old(recommendedCached) && likedCookies == old(likedCookies)
    {
      if allowed {
        meta := meta[(post, StickyKey) := CheckboxMeta(posted)];
      }
    }

    /**
     * `ajax_toggle_recommended_post`: a user who cannot edit posts is
     * refused with nothing changed; otherwise the flag is toggled, the cache
     * dropped and the new status returned.
     */
    method ToggleRecommended(postField: string, canEdit: bool) returns (r: Reply<string>)
      modifies this
      ensures !canEdit ==> r.Failure? && meta == old(meta) && recommendedCached == old(recommendedCached)
      ensures canEdit ==>
        var post := IntVal(postField);
        r == Success(ToggledStatus(old(Get(post, RecommendedKey)))) &&
        meta == old(meta)[(post, RecommendedKey) := r.value] && !recommendedCached
      ensures likedCookies == old(likedCookies)
    {
      if !canEdit {
        return Failure("权限不足");
      }
      var post := IntVal(postField);
      var status := ToggledStatus(Get(post, RecommendedKey));
      meta := meta[(post, RecommendedKey) := status];
      recommendedCached := false;
      r := Success(status);
    }

    /**
     * `ajax_like_post`: a positive post ID without a like cookie adds exactly
     * one to the stored count (read with `(int)`) and sets the cookie; a
     * repeated like or a missing or non-positive ID is an error that changes
     * nothing.
     */
    method Like(postField: Option<string>) returns (r: Reply<int>)
      modifies this
      ensures var post := if postField.Some? then IntVal(postField.value) else 0;
        (post <= 0 || post in old(likedCookies)) <==> r.Failure?
      ensures r.Failure? ==> meta == old(meta) && likedCookies == old(likedCookies)
      ensures r.Success? ==>
        var post := IntVal(postField.value);
        r.value == IntVal(old(Get(post, LikeCountKey))) + 1 &&
        meta == old(meta)[(post, LikeCountKey) := IntToString(r.value)] &&
        likedCookies == old(likedCookies) + {post}
      ensures recommendedCached == old(recommendedCached)
    {
      var post := if postField.Some? then IntVal(postField.value) else 0;
      if post > 0 {
        if post in likedCookies {
          return Failure("您已经推荐过这篇文章了");
        }
        var count := IntVal(Get(post, LikeCountKey));
        count := count + 1;
        meta := meta[(post, LikeCountKey) := IntToString(count)];
        likedCookies := likedCookies + {post};
        return Success(count);
      }
      r := Failure("无效的文章ID");
    }
  }

  /** A second like of the same post by the same visitor is refused and leaves the count as the first left it. */
  method LikeTwice(state: PostMeta, post: nat) returns (first: Reply<int>, second: Reply<int>)
    requires post > 0
    modifies state
    ensures second.Failure?
    ensures first.Success? ==> state.Get(post, LikeCountKey) == IntToString(first.value)
  {
    IntValOfNat(post);
    first := state.Like(Some(NatToString(post)));
    second := state.Like(Some(NatToString(post)));
  }

  // ---------------------------------------------------------------------
  // Comments

  /** The `preprocess_comment` filter: a comment whose author is missing or PHP-empty is rejected; any other passes unchanged. */
  function PreprocessComment(data: map<string, string>): (r: Reply<map<string, string>>)
    ensures r.Failure? <==> "comment_author" !in data || EmptyStr(data["comment_author"])
    ensures r.Success? ==> r.value == data
  {
    if "comment_author" !in data || EmptyStr(data["comment_author"]) then Failure("错误：请填写您的称呼。")
    else Success(data)
  }

  /** The classes a comment's list item can carry. */
  datatype CommentClass = Comment | Parent | Child | Odd | Even | ByAuthor

  function ClassName(c: CommentClass): string {
    match c
    case Comment => "comment"
    case Parent => "comment-parent"
    case Child => "comment-child"
    case Odd => "comment-odd"
    case Even => "comment-even"
    case ByAuthor => "comment-by-author"
  }

  /** Distinct classes have distinct names. */
  lemma ClassNameInjective(a: CommentClass, b: CommentClass)
    requires a != b
    ensures ClassName(a) != ClassName(b)
  {
  }

  /** `if (cond) $classes[] = c;` */
  function When(cond: bool, c: CommentClass): (r: seq<CommentClass>)
    ensures forall x :: x in r <==> cond && x == c
    ensures |r| == if cond then 1 else 0
  {
    if cond then [c] else []
  }

  /** The classes of a comment's list item, in the walker's order. */
  function CommentClasses(hasChildren: bool, parent: int, commentId: int, userId: int, postAuthor: int): (r: seq<CommentClass>)
    ensures 2 <= |r| && r[0] == Comment
    ensures Parent in r <==> hasChildren
    ensures Child in r <==> parent > 0
    ensures Odd in r <==> commentId % 2 != 0
    ensures Even in r <==> commentId % 2 == 0
    ensures ByAuthor in r <==> userId > 0 && userId == postAuthor
  {
    [Comment] + When(hasChildren, Parent) + When(parent > 0, Child) +
    [if commentId % 2 != 0 then Odd else Even] + When(userId > 0 && userId == postAuthor, ByAuthor)
  }

  predicate Unique(xs: seq<CommentClass>) {
    forall i, j :: 0 <= i < j < |xs| ==> xs[i] != xs[j]
  }

  /** The position of a class in the walker's order; odd and even share one. */
  function Rank(c: CommentClass): nat {
    match c
    case Comment => 0
    case Parent => 1
    case Child => 2
    case Odd => 3
    case Even => 3
    case ByAuthor => 4
  }

  predicate Ascending(xs: seq<CommentClass>) {
    forall i :: 0 < i < |xs| ==> Rank(xs[i - 1]) < Rank(xs[i])
  }

  lemma {:induction false} AscendingFrom(xs: seq<CommentClass>, i: nat, j: nat)
    requires Ascending(xs) && i < j < |xs|
    ensures Rank(xs[i]) < Rank(xs[j])
    decreases j - i
  {
    if i + 1 < j {
      AscendingFrom(xs, i, j - 1);
    }
  }

  /** No class is added twice. */
  lemma CommentClassesUnique(hasChildren: bool, parent: int, commentId: int, userId: int, postAuthor: int)
    ensures Unique(CommentClasses(hasChildren, parent, commentId, userId, postAuthor))
  {
    var r := CommentClasses(hasChildren, parent, commentId, userId, postAuthor);
    assert Ascending(r);
    forall i, j | 0 <= i < j < |r|
      ensures r[i] != r[j]
    {
      AscendingFrom(r, i, j);
    }
  }

  function Names(classes: seq<CommentClass>): (r: seq<string>)
    ensures |r| == |classes| && forall i :: 0 <= i < |r| ==> r[i] == ClassName(classes[i])
  {
    seq(|classes|, i requires 0 <= i < |classes| => ClassName(classes[i]))
  }

  const LevelOpen := "<div class=\"comment-children\"><ol class=\"comment-list\">"
  const LevelClose := "</ol></div>"

  /** The comment walker's output buffer and the global comment depth it sets. */
  class CommentWalker {
    var output: string
    var commentDepth: int

    constructor()
      ensures output == "" && commentDepth == 0
    {
      output := "";
      commentDepth := 0;
    }

    /** `start_lvl`: opens a nested list of child comments. */
    method StartLevel(depth: int)
      modifies this
      ensures output == old(output) + LevelOpen && commentDepth == depth + 1
    {
      commentDepth := depth + 1;
      output := output + LevelOpen;
    }

    /** `end_lvl`: closes it. */
    method EndLevel(depth: int)
      modifies this
      ensures output == old(output) + LevelClose && commentDepth == depth + 1
    {
      commentDepth := depth + 1;
      output := output + LevelClose;
    }

    /**
     * `start_el` up to the comment's opening tag: the depth it is given goes
     * up by one and becomes the global depth, and the tag carries the
     * comment's anchor and its classes.
     */
    method StartElement(commentId: int, depth: int, hasChildren: bool, parent: int, userId: int, postAuthor: int)
      modifies this
      ensures commentDepth == depth + 1
      ensures output == old(output) + CommentOpenTag(commentId, CommentClasses(hasChildren, parent, commentId, userId, postAuthor))
    {
      var level := depth + 1;
      commentDepth := level;
      output := output + CommentOpenTag(commentId, CommentClasses(hasChildren, parent, commentId, userId, postAuthor));
    }
  }

  /** The comment's opening `li`: its `comment-<id>` anchor, then its class names joined by spaces. */
  function CommentOpenTag(commentId: int, classes: seq<CommentClass>): (r: string)
    ensures StartsWith(r, "<li id=\"comment-" + IntToString(commentId) + "\" class=\"")
    ensures EndsWith(r, "\">")
  {
    var head := "<li id=\"comment-" + IntToString(commentId) + "\" class=\"";
    Framed(head, Join(Names(classes), " "), "\">");
    head + Join(Names(classes), " ") + "\">"
  }

  /** The class attribute of every comment starts with `comment`, its first class. */
  lemma OpenTagClassesStart(hasChildren: bool, parent: int, commentId: int, userId: int, postAuthor: int)
    ensures var head := "<li id=\"comment-" + IntToString(commentId) + "\" class=\"";
      StartsWith(CommentOpenTag(commentId, CommentClasses(hasChildren, parent, commentId, userId, postAuthor)), head + "comment")
  {
    var classes := CommentClasses(hasChildren, parent, commentId, userId, postAuthor);
    var head := "<li id=\"comment-" + IntToString(commentId) + "\" class=\"";
    var names := Join(Names(classes), " ");
    assert StartsWith(names, "comment") by {
      JoinStartsWithFirst(Names(classes), " ");
    }
    PrefixAfter(head, names, "\">", "comment");
  }

  /** A level opened and closed at the same depth appends the two wrappers around what was written inside. */
  method NestedLevel(w: CommentWalker, depth: int, inner: string)
    modifies w
    ensures w.output == old(w.output) + LevelOpen + inner + LevelClose
    ensures w.commentDepth == depth + 1
  {
    w.StartLevel(depth);
    w.output := w.output + inner;
    w.EndLevel(depth);
  }
}
