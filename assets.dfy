/**
 * The asset filters and counters of the theme: `defer` for the theme's own
 * scripts, the `data-*` attributes handed to the interactions script, and
 * the view and recommend AJAX handlers with the recommend cooldown.
 */
module Assets {
  import opened Util
  import Performance
  import opened PostEnhancements

  // ---------------------------------------------------------------------
  // Script tags

  /** The jQuery handles that are never deferred. */
  const CriticalScripts: seq<string> := ["jquery", "jquery-core", "jquery-migrate"]

  /** The theme's own scripts, loaded with `defer`. */
  const DeferScripts: seq<string> := ["scroll-to-top", "recommendation", "paper-interactions", "effects", "aplayer-js", "meting-js"]

  /** `paper_wp_improve_script_loading`: `defer ` goes after every `<script ` of the six listed handles. */
  function ImproveScriptLoading(tag: string, handle: string): (r: string)
    ensures handle in CriticalScripts || handle !in DeferScripts ==> r == tag
    ensures handle in DeferScripts && !Contains(tag, "<script ") ==> r == tag
    ensures handle in DeferScripts && Contains(tag, "<script ") ==> Contains(r, "<script defer ")
  {
    if handle in CriticalScripts then tag
    else if handle in DeferScripts then
      if Contains(tag, "<script ") then ReplaceAllIntroduces(tag, "<script ", "<script defer "); ReplaceAll(tag, "<script ", "<script defer ")
      else ReplaceAllAbsent(tag, "<script ", "<script defer "); ReplaceAll(tag, "<script ", "<script defer ")
    else tag
  }

  /** No handle is both critical and deferred. */
  lemma CriticalNeverDeferred(handle: string)
    requires handle in CriticalScripts
    ensures handle !in DeferScripts
  {
  }

  /**
   * Once this filter has deferred a listed script, the performance module's
   * `defer` filter, running after it, finds ` defer ` and changes nothing.
   */
  lemma NoSecondDefer(tag: string, handle: string, isAdmin: bool)
    requires handle in DeferScripts && Contains(tag, "<script ")
    ensures Performance.AddDeferToScripts(ImproveScriptLoading(tag, handle), handle, isAdmin) == ImproveScriptLoading(tag, handle)
  {
    var r := ImproveScriptLoading(tag, handle);
    assert "<script defer " == "<script" + " defer ";
    ContainsSuffixOf(r, "<script", " defer ");
  }

  /** The escaped values the interactions script reads from its tag. */
  datatype PageData = PageData(ajaxUrl: string, viewNonce: string, onlineNonce: string, interactionsNonce: string,
                               postId: Option<int>, imageModuleLoaded: bool)

  /** `data-<name>="value"`. */
  function DataAttribute(name: string, value: string): (r: string)
    ensures StartsWith(r, "data-")
  {
    "data-" + name + "=\"" + value + "\""
  }

  /** The eight `data-*` attributes, in order; `esc` is `esc_attr`. */
  function DataAttributes(d: PageData, esc: string -> string): (r: seq<string>)
    ensures |r| == 8 && r[0] == DataAttribute("ajax-url", d.ajaxUrl)
    ensures forall i :: 0 <= i < |r| ==> StartsWith(r[i], "data-")
  {
    var postId := if d.postId.Some? then d.postId.value else 0;
    var lightboxRel := if d.imageModuleLoaded then esc("lightbox") else "lightbox";
    var thumbnailAttr := if d.imageModuleLoaded then esc("data-thumbnail-src") else "data-thumbnail-src";
    var fullSrcAttr := if d.imageModuleLoaded then esc("data-full-src") else "data-full-src";
    [DataAttribute("ajax-url", d.ajaxUrl), DataAttribute("nonce", esc(d.viewNonce)),
     DataAttribute("post-id", esc(IntToString(postId))), DataAttribute("online-nonce", esc(d.onlineNonce)),
     DataAttribute("interactions-nonce", esc(d.interactionsNonce)), DataAttribute("lightbox-rel", lightboxRel),
     DataAttribute("thumbnail-data-attr", thumbnailAttr), DataAttribute("full-src-data-attr", fullSrcAttr)]
  }

  /**
   * `paper_wp_add_script_data_attributes`: only the interactions script gets
   * attributes, inserted after each `<script `; every other tag is returned
   * as it came.
   */
  function AddScriptDataAttributes(tag: string, handle: string, d: PageData, esc: string -> string): (r: string)
    ensures handle != "paper-interactions" ==> r == tag
    ensures handle == "paper-interactions" && !Contains(tag, "<script ") ==> r == tag
    ensures handle == "paper-interactions" && Contains(tag, "<script ") ==> Contains(r, "<script " + DataAttribute("ajax-url", d.ajaxUrl))
  {
    if handle == "paper-interactions" then
      var attributes := DataAttributes(d, esc);
      var inserted := "<script " + Join(attributes, " ") + " ";
      if Contains(tag, "<script ") then
        ReplaceAllIntroduces(tag, "<script ", inserted);
        InsertedStart(attributes, d.ajaxUrl);
        ContainsStart(ReplaceAll(tag, "<script ", inserted), inserted, "<script " + attributes[0]);
        ReplaceAll(tag, "<script ", inserted)
      else ReplaceAllAbsent(tag, "<script ", inserted); ReplaceAll(tag, "<script ", inserted)
    else tag
  }

  /** The inserted text starts with the AJAX URL attribute. */
  lemma InsertedStart(attributes: seq<string>, ajaxUrl: string)
    requires |attributes| >= 1 && attributes[0] == DataAttribute("ajax-url", ajaxUrl)
    ensures StartsWith("<script " + Join(attributes, " ") + " ", "<script " + DataAttribute("ajax-url", ajaxUrl))
  {
    JoinStartsWithFirst(attributes, " ");
    StartsWithWithin("<script ", Join(attributes, " "), " ", attributes[0], attributes[0]);
  }

  // ---------------------------------------------------------------------
  // Counters

  /** The meta key of the view counter. */
  const ViewsKey := "post_views_count"

  /** Seconds a visitor must wait between two recommends of one post. */
  const RecommendCooldown := 3600

  /** The transient naming the cooldown of one post for one address. */
  function CooldownKey(post: int, ip: string): string {
    "recommend_" + IntToString(post) + "_" + ip
  }

  /** Different posts or addresses have different cooldowns. */
  lemma CooldownKeyInjective(p1: nat, ip1: string, p2: nat, ip2: string)
    requires CooldownKey(p1, ip1) == CooldownKey(p2, ip2)
    ensures p1 == p2 && ip1 == ip2
  {
    var d1, d2 := NatToString(p1), NatToString(p2);
    CooldownKeyRest(p1, ip1);
    CooldownKeyRest(p2, ip2);
    NoSeparatorInDigits(d1);
    NoSeparatorInDigits(d2);
    SplitAtSeparator(d1, ip1, d2, ip2, '_');
    NatToStringInjective(p1, p2);
  }

  /** After the fixed `recommend_` head come the post's digits, `_` and the address. */
  lemma CooldownKeyRest(post: nat, ip: string)
    ensures CooldownKey(post, ip)[10..] == NatToString(post) + ("_" + ip)
  {
    var rest := NatToString(post) + ("_" + ip);
    assert CooldownKey(post, ip) == "recommend_" + rest;
    assert ("recommend_" + rest)[10..] == rest;
  }

  lemma NoSeparatorInDigits(d: string)
    requires AllDigits(d)
    ensures '_' !in d
  {
  }

  /** The cooldown transients, each with the time it expires. */
  class Cooldowns {
    var expiry: map<string, int>

    constructor(expiry: map<string, int>)
      ensures this.expiry == expiry
    {
      this.expiry := expiry;
    }

    /** `get_transient` is truthy until the expiry time has passed. */
    predicate Active(key: string, now: int)
      reads this
    {
      key in expiry && now <= expiry[key]
    }
  }

  /**
   * `paper_wp_handle_track_post_views`: a zero ID or a post that is not
   * published is an error with no write; otherwise the stored count (empty
   * reading as zero) goes up by one.
   */
  method TrackPostViews(state: PostMeta, postField: Option<string>, statusOf: map<int, string>) returns (r: Reply<int>)
    modifies state
    ensures var post := if postField.Some? then IntVal(postField.value) else 0;
      r.Failure? <==> post == 0 || post !in statusOf || statusOf[post] != "publish"
    ensures r.Failure? ==> state.meta == old(state.meta)
    ensures r.Success? ==>
      var post := IntVal(postField.value);
      r.value == IntVal(old(state.Get(post, ViewsKey))) + 1
      && state.meta == old(state.meta)[(post, ViewsKey) := IntToString(r.value)]
    ensures state.likedCookies == old(state.likedCookies) && state.recommendedCached == old(state.recommendedCached)
  {
    var post := if postField.Some? then IntVal(postField.value) else 0;
    if post == 0 || post !in statusOf || statusOf[post] != "publish" {
      return Failure("无效的文章ID");
    }
    var current := IntVal(state.Get(post, ViewsKey));
    var views := current + 1;
    state.meta := state.meta[(post, ViewsKey) := IntToString(views)];
    r := Success(views);
  }

  /**
   * `paper_wp_handle_post_recommend`: a zero or unknown ID, or a recommend
   * inside the post's cooldown for this address, is an error with no write;
   * otherwise the recommend count goes up by one and the cooldown starts.
   */
  method Recommend(state: PostMeta, cooldowns: Cooldowns, postField: Option<string>, statusOf: map<int, string>,
                   ip: string, now: int) returns (r: Reply<int>)
    modifies state, cooldowns
    ensures var post := if postField.Some? then IntVal(postField.value) else 0;
      r.Failure? <==> post == 0 || post !in statusOf || old(cooldowns.Active(CooldownKey(post, ip), now))
    ensures r.Failure? ==> state.meta == old(state.meta) && cooldowns.expiry == old(cooldowns.expiry)
    ensures r.Success? ==>
      var post := IntVal(postField.value);
      r.value == IntVal(old(state.Get(post, LikeCountKey))) + 1
      && state.meta == old(state.meta)[(post, LikeCountKey) := IntToString(r.value)]
      && cooldowns.expiry == old(cooldowns.expiry)[CooldownKey(post, ip) := now + RecommendCooldown]
    ensures state.likedCookies == old(state.likedCookies) && state.recommendedCached == old(state.recommendedCached)
  {
    var post := if postField.Some? then IntVal(postField.value) else 0;
    if post == 0 || post !in statusOf {
      return Failure("无效的文章ID");
    }
    var key := CooldownKey(post, ip);
    if key in cooldowns.expiry && now <= cooldowns.expiry[key] {
      return Failure("您已经点赞过了，请稍后再试");
    }
    var count := IntVal(state.Get(post, LikeCountKey));
    count := count + 1;
    state.meta := state.meta[(post, LikeCountKey) := IntToString(count)];
    cooldowns.expiry := cooldowns.expiry[key := now + RecommendCooldown];
    r := Success(count);
  }

  /** A second recommend from the same address within the hour is refused; one after it counts again. */
  method RecommendAgain(state: PostMeta, cooldowns: Cooldowns, post: nat, statusOf: map<int, string>,
                        ip: string, now: int, later: int) returns (first: Reply<int>, second: Reply<int>)
    requires post > 0 && post in statusOf && now <= later
    modifies state, cooldowns
    ensures first.Success? ==> (later <= now + RecommendCooldown <==> second.Failure?)
    ensures first.Success? && second.Success? ==> second.value == first.value + 1
  {
    var field := NatToString(post);
    assert IntVal(field) == post by { IntValOfNat(post); }
    first := Recommend(state, cooldowns, Some(field), statusOf, ip, now);
    ghost var active := cooldowns.Active(CooldownKey(post, ip), later);
    ghost var count := IntVal(state.Get(post, LikeCountKey));
    if first.Success? {
      assert active <==> later <= now + RecommendCooldown;
      assert count == first.value by { IntValOfInt(first.value); }
    }
    second := Recommend(state, cooldowns, Some(field), statusOf, ip, later);
    assert second.Failure? <==> active;
  }
}
