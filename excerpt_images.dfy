/**
 * The image handling of the HTML excerpt in features/excerpt.php: the
 * size test of a preview image, the choice of images by mode, and the final
 * rewriting of every `<img>` of the excerpt into a link to the post.
 *
 * The regular expressions involved are fixed and simple enough to be
 * written out as scanners: `Rewrite` is `preg_replace` of one of them over
 * a whole string, left to right, without overlaps.
 */
module ExcerptImages {
  import opened Util
  import Excerpt

  // ---------------------------------------------------------------------
  // Matching helpers

  /** PCRE's `\s`: space, tab, line feed, vertical tab, form feed, carriage return. */
  predicate IsRegexSpace(c: char) {
    c == ' ' || c == '\t' || c == '\n' || c as int == 11 || c as int == 12 || c == '\r'
  }

  predicate IsQuote(c: char) { c == '"' || c == '\'' }

  /** The lower-case literal `p` occurs at `i`, ignoring ASCII case (a `/i` literal). */
  predicate AtCI(s: string, i: nat, p: string) {
    i + |p| <= |s| && forall k :: 0 <= k < |p| ==> Lower(s[i + k]) == p[k]
  }

  /** The end of the run of `\s` characters starting at `i`. */
  function SpaceEnd(s: string, i: nat): (e: nat)
    requires i <= |s|
    ensures i <= e <= |s|
    decreases |s| - i
  {
    if i < |s| && IsRegexSpace(s[i]) then SpaceEnd(s, i + 1) else i
  }

  /**
   * Where the digits of `["']?(\d+)` start at `j`: right there, or after
   * one quote; none when no digit follows.
   */
  function DigitsStart(s: string, j: nat): (d: Option<nat>)
    ensures d.Some? ==> j <= d.value < |s| && IsDigit(s[d.value])
  {
    if j < |s| && IsDigit(s[j]) then Some(j)
    else if j + 1 < |s| && IsQuote(s[j]) && IsDigit(s[j + 1]) then Some(j + 1)
    else None
  }

  /** The first index from `k` holding a quote, when there is one. */
  function FindQuote(s: string, k: nat): (r: Option<nat>)
    ensures r.Some? ==> k <= r.value < |s| && IsQuote(s[r.value])
    decreases |s| - k
  {
    if k >= |s| then None
    else if IsQuote(s[k]) then Some(k)
    else FindQuote(s, k + 1)
  }

  /** The first index from `k` holding `c` with no line feed before it (a lazy `.*?c`). */
  function FindOnLine(s: string, c: char, k: nat): (r: Option<nat>)
    ensures r.Some? ==> k <= r.value < |s| && s[r.value] == c
    decreases |s| - k
  {
    if k >= |s| then None
    else if s[k] == c then Some(k)
    else if s[k] == '\n' then None
    else FindOnLine(s, c, k + 1)
  }

  // ---------------------------------------------------------------------
  // The size test

  /** The number of a `name["']?(\d+)` match at `i` (`name` ends in `=`). */
  function AttrAt(s: string, i: nat, name: string): Option<nat> {
    if !AtCI(s, i, name) then None
    else match DigitsStart(s, i + |name|)
      case None => None
      case Some(d) => Some(DigitsValue(IntegerPart(s[d..])))
  }

  /** The first `Some` of `ms` from index `i`. */
  function FirstSome(ms: seq<Option<nat>>, i: nat): Option<nat>
    decreases |ms| - i
  {
    if i >= |ms| then None
    else if ms[i].Some? then ms[i]
    else FirstSome(ms, i + 1)
  }

  lemma {:induction false} FirstSomeLeftmost(ms: seq<Option<nat>>, i: nat)
    requires FirstSome(ms, i).Some?
    ensures exists j :: (i <= j < |ms| && ms[j] == FirstSome(ms, i) &&
                         forall k :: i <= k < j ==> ms[k].None?)
    decreases |ms| - i
  {
    if ms[i].Some? {
      assert ms[i] == FirstSome(ms, i);
    } else {
      FirstSomeLeftmost(ms, i + 1);
      var j :| i + 1 <= j < |ms| && ms[j] == FirstSome(ms, i + 1) &&
        forall k :: i + 1 <= k < j ==> ms[k].None?;
      assert forall k :: i <= k < j ==> ms[k].None?;
    }
  }

  lemma {:induction false} FirstSomeNone(ms: seq<Option<nat>>, i: nat)
    ensures FirstSome(ms, i).None? <==> forall k :: i <= k < |ms| ==> ms[k].None?
    decreases |ms| - i
  {
    if i < |ms| && ms[i].None? {
      FirstSomeNone(ms, i + 1);
    }
  }

  /** The matches of `name["']?(\d+)` at every index of `s`. */
  function AttrMatches(s: string, name: string): (ms: seq<Option<nat>>)
    ensures |ms| == |s|
    ensures forall k :: 0 <= k < |s| ==> ms[k] == AttrAt(s, k, name)
  {
    seq(|s|, k requires 0 <= k < |s| => AttrAt(s, k, name))
  }

  /** The number of the leftmost `name["']?(\d+)` match (`preg_match`). */
  function FirstAttr(s: string, name: string): Option<nat> {
    FirstSome(AttrMatches(s, name), 0)
  }

  /** The first match is a match, and there is none before it. */
  lemma FirstAttrIsLeftmost(s: string, name: string)
    requires FirstAttr(s, name).Some?
    ensures exists j :: (0 <= j < |s| && AttrAt(s, j, name) == FirstAttr(s, name) &&
                         forall k :: 0 <= k < j ==> AttrAt(s, k, name).None?)
  {
    var ms := AttrMatches(s, name);
    FirstSomeLeftmost(ms, 0);
    var j :| 0 <= j < |ms| && ms[j] == FirstSome(ms, 0) && forall k :: 0 <= k < j ==> ms[k].None?;
    assert AttrAt(s, j, name) == FirstAttr(s, name);
  }

  /** No result means no match at all. */
  lemma FirstAttrNone(s: string, name: string)
    ensures FirstAttr(s, name).None? <==> forall k :: 0 <= k < |s| ==> AttrAt(s, k, name).None?
  {
    FirstSomeNone(AttrMatches(s, name), 0);
  }

  /**
   * `paper_wp_is_image_large_enough`: a width attribute below 500 or a
   * height attribute below 200 rejects the image; anything else is accepted.
   */
  predicate LargeEnough(tag: string) {
    (FirstAttr(tag, "width=").None? || FirstAttr(tag, "width=").value >= 500) &&
    (FirstAttr(tag, "height=").None? || FirstAttr(tag, "height=").value >= 200)
  }

  /** An image without size attributes is accepted. */
  lemma NoSizeAccepted(tag: string)
    requires forall k :: 0 <= k < |tag| ==> AttrAt(tag, k, "width=").None? && AttrAt(tag, k, "height=").None?
    ensures LargeEnough(tag)
  {
    FirstAttrNone(tag, "width=");
    FirstAttrNone(tag, "height=");
  }

  /** An image is rejected exactly when its first width is below 500 or its first height below 200. */
  lemma RejectedBySize(tag: string)
    ensures !LargeEnough(tag) <==>
      (exists j :: 0 <= j < |tag| && AttrAt(tag, j, "width=").Some? && AttrAt(tag, j, "width=").value < 500 &&
         forall k :: 0 <= k < j ==> AttrAt(tag, k, "width=").None?) ||
      (exists j :: 0 <= j < |tag| && AttrAt(tag, j, "height=").Some? && AttrAt(tag, j, "height=").value < 200 &&
         forall k :: 0 <= k < j ==> AttrAt(tag, k, "height=").None?)
  {
    FirstAttrUnique(tag, "width=");
    FirstAttrUnique(tag, "height=");
  }

  /** A leftmost match found by index is the one `FirstAttr` returns. */
  lemma FirstAttrUnique(s: string, name: string)
    ensures forall j :: 0 <= j < |s| && AttrAt(s, j, name).Some? && (forall k :: 0 <= k < j ==> AttrAt(s, k, name).None?) ==>
      FirstAttr(s, name) == AttrAt(s, j, name)
    ensures FirstAttr(s, name).Some? ==>
      exists j :: (0 <= j < |s| && AttrAt(s, j, name) == FirstAttr(s, name) &&
                   forall k :: 0 <= k < j ==> AttrAt(s, k, name).None?)
  {
    FirstAttrNone(s, name);
    if FirstAttr(s, name).Some? {
      FirstAttrIsLeftmost(s, name);
    }
    forall j | 0 <= j < |s| && AttrAt(s, j, name).Some? && (forall k :: 0 <= k < j ==> AttrAt(s, k, name).None?)
      ensures FirstAttr(s, name) == AttrAt(s, j, name)
    {
      var j' :| 0 <= j' < |s| && AttrAt(s, j', name) == FirstAttr(s, name) &&
        forall k :: 0 <= k < j' ==> AttrAt(s, k, name).None?;
      assert j' == j;
    }
  }

  // ---------------------------------------------------------------------
  // The images of the full content

  /**
   * The end of an `<img[^>]+>` match at `i` (or `<img[^>]*>` when `plus` is
   * false), case-insensitively: after the first `>` that follows `<img`.
   */
  function ImgEnd(s: string, i: nat, plus: bool): (e: Option<nat>)
    ensures e.Some? ==> i + 5 <= e.value <= |s|
  {
    if !AtCI(s, i, "<img") then None
    else match Excerpt.FindFrom(s, '>', i + 4)
      case None => None
      case Some(k) => if plus && k == i + 4 then None else Some(k + 1)
  }

  /** The `<img[^>]+>` matches of `s` from `i`, left to right (`preg_match_all`). */
  function ImgTags(s: string, i: nat): seq<string>
    decreases |s| - i
  {
    if i >= |s| then []
    else match ImgEnd(s, i, true)
      case Some(e) => [s[i..e]] + ImgTags(s, e)
      case None => ImgTags(s, i + 1)
  }

  /** An image tag: `<img`, at least one character other than `>`, then the one `>`. */
  predicate IsImgTag(t: string) {
    |t| >= 6 && AtCI(t, 0, "<img") && t[|t| - 1] == '>' && Excerpt.FindFrom(t, '>', 4) == Some(|t| - 1)
  }

  lemma ImgEndTag(s: string, i: nat)
    requires ImgEnd(s, i, true).Some?
    ensures IsImgTag(s[i..ImgEnd(s, i, true).value])
  {
    var e := ImgEnd(s, i, true).value;
    var t := s[i..e];
    FindFromShift(s, i, 4);
    Excerpt.FindFromPrefix(s[i..], '>', 4, e - i);
    assert s[i..][..e - i] == t;
  }

  /** Searching a suffix is searching the whole from the shifted index. */
  lemma {:induction false} FindFromShift(s: string, i: nat, k: nat)
    requires i + k <= |s|
    ensures Excerpt.FindFrom(s[i..], '>', k) ==
      match Excerpt.FindFrom(s, '>', i + k) case None => None case Some(v) => Some(v - i)
    decreases |s| - i - k
  {
    if i + k < |s| {
      assert s[i..][k] == s[i + k];
      if s[i + k] != '>' {
        FindFromShift(s, i, k + 1);
      }
    }
  }

  /** Every match is an image tag. */
  lemma {:induction false} ImgTagsAreTags(s: string, i: nat)
    ensures forall t :: t in ImgTags(s, i) ==> IsImgTag(t)
    decreases |s| - i
  {
    if i < |s| {
      match ImgEnd(s, i, true)
      case Some(e) =>
        ImgEndTag(s, i);
        ImgTagsAreTags(s, e);
      case None =>
        ImgTagsAreTags(s, i + 1);
    }
  }

  /** Content without `<img` has no images. */
  lemma {:induction false} NoImgNoTags(s: string, i: nat)
    requires forall k :: i <= k < |s| ==> !AtCI(s, k, "<img")
    ensures ImgTags(s, i) == []
    decreases |s| - i
  {
    if i < |s| {
      NoImgNoTags(s, i + 1);
    }
  }

  // ---------------------------------------------------------------------
  // The large-enough images

  /** The large-enough images, in order. */
  function LargeImages(tags: seq<string>): (r: seq<string>)
    ensures |r| <= |tags|
  {
    if tags == [] then []
    else if LargeEnough(tags[0]) then [tags[0]] + LargeImages(tags[1..])
    else LargeImages(tags[1..])
  }

  /** An image is kept exactly when it is large enough. */
  lemma {:induction false} LargeImagesMembers(tags: seq<string>)
    ensures forall t :: t in LargeImages(tags) <==> t in tags && LargeEnough(t)
  {
    if tags != [] {
      LargeImagesMembers(tags[1..]);
      assert tags == [tags[0]] + tags[1..];
    }
  }

  lemma {:induction false} LargeImagesNone(tags: seq<string>)
    requires forall t :: t in tags ==> !LargeEnough(t)
    ensures LargeImages(tags) == []
  {
    if tags != [] {
      assert tags[0] in tags;
      assert forall t :: t in tags[1..] ==> t in tags;
      LargeImagesNone(tags[1..]);
    }
  }

  /** The first kept image is the first large-enough image of the list. */
  lemma {:induction false} LargeImagesFirst(tags: seq<string>)
    requires LargeImages(tags) != []
    ensures exists j :: (0 <= j < |tags| && tags[j] == LargeImages(tags)[0] && LargeEnough(tags[j]) &&
                         forall k :: 0 <= k < j ==> !LargeEnough(tags[k]))
  {
    if !LargeEnough(tags[0]) {
      LargeImagesFirst(tags[1..]);
      var j :| 0 <= j < |tags[1..]| && tags[1..][j] == LargeImages(tags[1..])[0] && LargeEnough(tags[1..][j]) &&
        forall k :: 0 <= k < j ==> !LargeEnough(tags[1..][k]);
      assert tags[j + 1] == tags[1..][j];
      assert forall k :: 1 <= k < j + 1 ==> tags[k] == tags[1..][k - 1];
    } else {
      assert tags[0] == LargeImages(tags)[0];
    }
  }

  /** The filtering loop of `paper_wp_process_excerpt_images`. */
  method FilterLarge(tags: seq<string>) returns (valid: seq<string>)
    ensures valid == LargeImages(tags)
  {
    valid := [];
    var i := 0;
    while i < |tags|
      invariant 0 <= i <= |tags|
      invariant valid + LargeImages(tags[i..]) == LargeImages(tags)
    {
      assert tags[i..][0] == tags[i] && tags[i..][1..] == tags[i + 1..];
      if LargeEnough(tags[i]) {
        ConcatAssoc(valid, [tags[i]], LargeImages(tags[i + 1..]));
        valid := valid + [tags[i]];
      }
      i := i + 1;
    }
    assert tags[i..] == [];
  }

  // ---------------------------------------------------------------------
  // Image modes

  /**
   * The excerpt with images removed: every `<figure…</figure>` and `<img…>`
   * match taken out in one pass, then the clean-up `tidy` (empty links,
   * empty `p` and `div` wrappers, repeated and outer `<br>`).
   */
  function Stripped(cleaned: string, tidy: string -> string): string {
    tidy(Rewrite(cleaned, Media, 0))
  }

  /**
   * `paper_wp_process_excerpt_images`: the excerpt after `clean` (removing
   * code-block containers without `<pre` and markdown rules) in mode `all`;
   * otherwise the stripped excerpt, preceded in mode `first` by the first
   * and in mode `random` by the `pick`-th large-enough image of the full
   * content. `pick` stands for `array_rand`.
   */
  function SelectImages(truncated: string, full: string, mode: string, pick: nat,
                        clean: string -> string, tidy: string -> string): string
  {
    var cleaned := clean(truncated);
    if mode == "all" then cleaned
    else
      var stripped := Stripped(cleaned, tidy);
      var valid := LargeImages(ImgTags(full, 0));
      if mode == "none" || valid == [] then stripped
      else if mode == "first" then valid[0] + stripped
      else if mode == "random" then valid[pick % |valid|] + stripped
      else stripped
  }

  method ProcessExcerptImages(truncated: string, full: string, mode: string, pick: nat,
                              clean: string -> string, tidy: string -> string) returns (r: string)
    ensures r == SelectImages(truncated, full, mode, pick, clean, tidy)
    ensures mode == "all" ==> r == clean(truncated)
    ensures mode == "none" ==> r == tidy(Rewrite(clean(truncated), Media, 0))
  {
    var content := clean(truncated);
    if mode == "all" {
      return content;
    }
    var stripped := tidy(Rewrite(content, Media, 0));
    if mode == "none" {
      return stripped;
    }
    var all := ImgTags(full, 0);
    if all == [] {
      return stripped;
    }
    var valid := FilterLarge(all);
    if valid == [] {
      return stripped;
    }
    var image := "";
    if mode == "first" {
      image := valid[0];
    } else if mode == "random" {
      image := valid[pick % |valid|];
    }
    r := image + stripped;
  }

  /** Mode `first` shows the first large-enough image of the full content, before the stripped excerpt. */
  lemma ModeFirst(truncated: string, full: string, pick: nat, clean: string -> string, tidy: string -> string)
    requires LargeImages(ImgTags(full, 0)) != []
    ensures exists img :: (SelectImages(truncated, full, "first", pick, clean, tidy) == img + Stripped(clean(truncated), tidy) &&
      exists j :: 0 <= j < |ImgTags(full, 0)| && ImgTags(full, 0)[j] == img && LargeEnough(img) &&
        (forall k :: 0 <= k < j ==> !LargeEnough(ImgTags(full, 0)[k])))
  {
    LargeImagesFirst(ImgTags(full, 0));
  }

  /** Mode `random` shows one large-enough image tag of the full content, before the stripped excerpt. */
  lemma ModeRandom(truncated: string, full: string, pick: nat, clean: string -> string, tidy: string -> string)
    requires LargeImages(ImgTags(full, 0)) != []
    ensures exists img :: (SelectImages(truncated, full, "random", pick, clean, tidy) == img + Stripped(clean(truncated), tidy) &&
      img in ImgTags(full, 0) && LargeEnough(img) && IsImgTag(img))
  {
    var valid := LargeImages(ImgTags(full, 0));
    LargeImagesMembers(ImgTags(full, 0));
    ImgTagsAreTags(full, 0);
    assert valid[pick % |valid|] in valid;
  }

  /** Without a large-enough image every mode but `all` gives the stripped excerpt. */
  lemma ModeNoImage(truncated: string, full: string, mode: string, pick: nat, clean: string -> string, tidy: string -> string)
    requires mode != "all" && forall t :: t in ImgTags(full, 0) ==> !LargeEnough(t)
    ensures SelectImages(truncated, full, mode, pick, clean, tidy) == Stripped(clean(truncated), tidy)
  {
    LargeImagesNone(ImgTags(full, 0));
  }

  /** An unknown mode shows no image at all. */
  lemma ModeUnknown(truncated: string, full: string, mode: string, pick: nat, clean: string -> string, tidy: string -> string)
    requires mode != "all" && mode != "first" && mode != "random"
    ensures SelectImages(truncated, full, mode, pick, clean, tidy) == Stripped(clean(truncated), tidy)
  {
  }

  /**
   * The stripped excerpt (what mode `none` returns) loses the cleaned text's
   * first image: the text before it is kept and the removal goes on after
   * its `>`.
   */
  lemma StrippedDropsFirstImage(c: string, tidy: string -> string, j: nat)
    requires j <= |c| && forall k :: 0 <= k < j ==> c[k] != '<'
    requires AtCI(c, j, "<img") && Excerpt.FindFrom(c, '>', j + 4).Some?
    ensures Stripped(c, tidy) == tidy(c[..j] + Rewrite(c, Media, Excerpt.FindFrom(c, '>', j + 4).value + 1))
  {
    assert Rewrite(c, Media, 0) == c[..j] + Rewrite(c, Media, Excerpt.FindFrom(c, '>', j + 4).value + 1) by {
      MediaDropsFirstImage(c, j);
    }
  }

  // ---------------------------------------------------------------------
  // Removing images and figures

  /** The first index from `k` where the lower-case literal `p` occurs, ignoring case. */
  function FindCI(s: string, p: string, k: nat): (r: Option<nat>)
    ensures r.Some? ==> k <= r.value && AtCI(s, r.value, p)
    decreases |s| + 1 - k
  {
    if k + |p| > |s| then None
    else if AtCI(s, k, p) then Some(k)
    else FindCI(s, p, k + 1)
  }

  /**
   * Where a match of `<figure[^>]*>.*?<\/figure>|<img[^>]*>` at `i` ends: a
   * figure runs from its opening tag's `>` to the first `</figure>`; when
   * `<figure` is there but the rest fails, `<img` cannot match either.
   */
  function MediaEnd(s: string, i: nat): (e: Option<nat>)
    ensures e.Some? ==> i < e.value <= |s|
  {
    if AtCI(s, i, "<figure") then
      match Excerpt.FindFrom(s, '>', i + 7)
      case None => None
      case Some(k) =>
        match FindCI(s, "</figure>", k + 1) case None => None case Some(c) => Some(c + 9)
    else ImgEnd(s, i, false)
  }

  lemma AtCIChar(s: string, i: nat, p: string, k: nat)
    requires AtCI(s, i, p) && k < |p|
    ensures Lower(s[i + k]) == p[k]
  {
  }

  /** Only a `<` starts a match. */
  lemma MediaEndNeedsOpen(s: string, i: nat)
    requires i < |s| && s[i] != '<'
    ensures MediaEnd(s, i).None?
  {
    if AtCI(s, i, "<figure") {
      AtCIChar(s, i, "<figure", 0);
    }
    if AtCI(s, i, "<img") {
      AtCIChar(s, i, "<img", 0);
    }
  }

  /** At `<img`, the match ends after the first `>`. */
  lemma MediaEndImage(s: string, j: nat)
    requires AtCI(s, j, "<img") && Excerpt.FindFrom(s, '>', j + 4).Some?
    ensures MediaEnd(s, j) == Some(Excerpt.FindFrom(s, '>', j + 4).value + 1)
  {
    AtCIChar(s, j, "<img", 1);
    if AtCI(s, j, "<figure") {
      AtCIChar(s, j, "<figure", 1);
    }
  }

  /** A match replaced by nothing is dropped. */
  lemma RewriteDrops(s: string, r: Rule, i: nat)
    requires i < |s| && MatchEnd(s, i, r).Some? && Replacement(r, s[i..MatchEnd(s, i, r).value]) == []
    ensures Rewrite(s, r, i) == Rewrite(s, r, MatchEnd(s, i, r).value)
  {
  }

  /** A stretch where no match starts is copied. */
  lemma {:induction false} RewriteSkips(s: string, r: Rule, i: nat, j: nat)
    requires i <= j <= |s| && forall k :: i <= k < j ==> MatchEnd(s, k, r).None?
    ensures Rewrite(s, r, i) == s[i..j] + Rewrite(s, r, j)
    decreases j - i
  {
    if i == j {
      assert s[i..j] == [];
    } else {
      RewriteSkips(s, r, i + 1, j);
      RewriteCopy(s, r, i);
      PrependSlice(s, i, j, Rewrite(s, r, j));
    }
  }

  lemma PrependSlice(s: string, i: nat, j: nat, rest: string)
    requires i < j <= |s|
    ensures [s[i]] + (s[i + 1..j] + rest) == s[i..j] + rest
  {
    assert s[i..j] == [s[i]] + s[i + 1..j];
  }

  /** Text without `<` is copied by the removal. */
  lemma MediaSkipsText(s: string, i: nat, j: nat)
    requires i <= j <= |s| && forall k :: i <= k < j ==> s[k] != '<'
    ensures Rewrite(s, Media, i) == s[i..j] + Rewrite(s, Media, j)
  {
    forall k | i <= k < j
      ensures MatchEnd(s, k, Media).None?
    {
      MediaEndNeedsOpen(s, k);
    }
    RewriteSkips(s, Media, i, j);
  }

  /** Text without `<` passes the removal unchanged. */
  lemma MediaNoTag(s: string)
    requires '<' !in s
    ensures Rewrite(s, Media, 0) == s
  {
    MediaSkipsText(s, 0, |s|);
  }

  /** An image tag `<img…>` is removed up to its first `>`. */
  lemma MediaRemovesImage(s: string, j: nat)
    requires AtCI(s, j, "<img") && Excerpt.FindFrom(s, '>', j + 4).Some?
    ensures Rewrite(s, Media, j) == Rewrite(s, Media, Excerpt.FindFrom(s, '>', j + 4).value + 1)
  {
    MediaEndImage(s, j);
    RewriteDrops(s, Media, j);
  }

  /** The first image of a text is dropped and the text before it kept. */
  lemma MediaDropsFirstImage(s: string, j: nat)
    requires j <= |s| && forall k :: 0 <= k < j ==> s[k] != '<'
    requires AtCI(s, j, "<img") && Excerpt.FindFrom(s, '>', j + 4).Some?
    ensures Rewrite(s, Media, 0) == s[..j] + Rewrite(s, Media, Excerpt.FindFrom(s, '>', j + 4).value + 1)
  {
    MediaSkipsText(s, 0, j);
    MediaRemovesImage(s, j);
  }

  /** A figure is removed from `<figure` to the first `</figure>` after the opening tag's `>`, in any case. */
  lemma MediaRemovesFigure(s: string, j: nat, k: nat)
    requires AtCI(s, j, "<figure") && Excerpt.FindFrom(s, '>', j + 7) == Some(k)
    requires FindCI(s, "</figure>", k + 1).Some?
    ensures Rewrite(s, Media, j) == Rewrite(s, Media, FindCI(s, "</figure>", k + 1).value + 9)
  {
    MediaEndFigure(s, j, k);
    RewriteDrops(s, Media, j);
  }

  lemma MediaEndFigure(s: string, j: nat, k: nat)
    requires AtCI(s, j, "<figure") && Excerpt.FindFrom(s, '>', j + 7) == Some(k)
    requires FindCI(s, "</figure>", k + 1).Some?
    ensures j < |s| && MatchEnd(s, j, Media) == Some(FindCI(s, "</figure>", k + 1).value + 9)
  {
  }

  /** No match starts at a `<` that another `<` follows. */
  lemma MediaEndDoubleOpen(s: string)
    requires |s| >= 2 && s[1] == '<'
    ensures MediaEnd(s, 0).None?
  {
    if AtCI(s, 0, "<figure") {
      AtCIChar(s, 0, "<figure", 1);
    }
    if AtCI(s, 0, "<img") {
      AtCIChar(s, 0, "<img", 1);
    }
  }

  /** After one more `<`, the image tag still matches, one place later, and nothing matches at that `<`. */
  lemma ImageAfterOpen(tag: string, y: string)
    requires |tag| >= 5 && AtCI(tag, 0, "<img") && Excerpt.FindFrom(tag, '>', 4) == Some(|tag| - 1)
    ensures var s := "<" + tag + y;
      MediaEnd(s, 0).None? && AtCI(s, 1, "<img") && Excerpt.FindFrom(s, '>', 5) == Some(|tag|)
  {
    var s := "<" + tag + y;
    AtCIChar(tag, 0, "<img", 0);
    assert s[1] == tag[0];
    MediaEndDoubleOpen(s);
    forall k | 0 <= k < 4 ensures Lower(s[1 + k]) == "<img"[k] {
      AtCIChar(tag, 0, "<img", k);
      assert s[1 + k] == tag[k];
    }
    FindFromPad(tag, y, 4);
  }

  /** A tail without `<` is copied by the removal. */
  lemma MediaTail(s: string, i: nat)
    requires i <= |s| && '<' !in s[i..]
    ensures Rewrite(s, Media, i) == s[i..]
  {
    forall k | i <= k < |s| ensures s[k] != '<' {
      assert s[k] == s[i..][k - i];
    }
    MediaSkipsText(s, i, |s|);
  }

  /** A `<` right before an image tag is kept, and the tag after it removed. */
  lemma OpenBeforeImage(tag: string, y: string)
    requires |tag| >= 5 && AtCI(tag, 0, "<img") && Excerpt.FindFrom(tag, '>', 4) == Some(|tag| - 1)
    requires '<' !in y
    ensures Rewrite("<" + tag + y, Media, 0) == "<" + y
  {
    var s := "<" + tag + y;
    ImageAfterOpen(tag, y);
    assert s[0] == '<';
    assert s[1 + |tag|..] == y;
    calc {
      Rewrite(s, Media, 0);
      { RewriteCopy(s, Media, 0); }
      [s[0]] + Rewrite(s, Media, 1);
      { MediaRemovesImage(s, 1); }
      [s[0]] + Rewrite(s, Media, |tag| + 1);
      { MediaTail(s, 1 + |tag|); }
      [s[0]] + y;
    }
  }

  /** Searching `"<" + t + y` from `k + 1` finds what searching `t` from `k` finds, shifted. */
  lemma {:induction false} FindFromPad(t: string, y: string, k: nat)
    requires k <= |t| && Excerpt.FindFrom(t, '>', k).Some?
    ensures Excerpt.FindFrom("<" + t + y, '>', k + 1) == Some(Excerpt.FindFrom(t, '>', k).value + 1)
    decreases |t| - k
  {
    var s := "<" + t + y;
    assert s[k + 1] == t[k];
    if t[k] != '>' {
      FindFromPad(t, y, k + 1);
    }
  }

  /**
   * The removal runs once, so an image tag cut in two by another one comes
   * together: `<<img>img y>` leaves the complete image tag `<img y>`.
   */
  lemma RemovalMayJoinTag(y: string)
    requires '<' !in y && '>' !in y
    ensures var out := Rewrite("<" + "<img>" + ("img" + y + ">"), Media, 0);
      out == "<" + ("img" + y + ">") && ImgEnd(out, 0, false) == Some(|out|)
  {
    BareImgTag("<img>");
    ImgWordTail(y);
    OpenBeforeImage("<img>", "img" + y + ">");
    ClosedImgTag("<" + ("img" + y + ">"));
  }

  lemma ImgWordTail(y: string)
    requires '<' !in y && '>' !in y
    ensures var rest := "img" + y + ">"; var out := "<" + rest;
      '<' !in rest && |out| >= 5 && out[0] == '<' && out[1] == 'i' && out[2] == 'm' && out[3] == 'g' &&
      out[|out| - 1] == '>' && '>' !in out[4..|out| - 1]
  {
    var out := "<" + ("img" + y + ">");
    assert out[4..|out| - 1] == y;
  }

  lemma BareImgTag(t: string)
    requires t == "<img>"
    ensures AtCI(t, 0, "<img") && Excerpt.FindFrom(t, '>', 4) == Some(4)
  {
    forall k | 0 <= k < 4 ensures Lower(t[k]) == "<img"[k] {
    }
  }

  /** `<img`, then no `>` until the last character, which is `>`: a whole `<img[^>]*>` match. */
  lemma ClosedImgTag(t: string)
    requires |t| >= 5 && t[0] == '<' && t[1] == 'i' && t[2] == 'm' && t[3] == 'g'
    requires t[|t| - 1] == '>' && '>' !in t[4..|t| - 1]
    ensures ImgEnd(t, 0, false) == Some(|t|)
  {
    assert AtCI(t, 0, "<img");
    NoCloseUntil(t, 4);
  }

  lemma {:induction false} NoCloseUntil(t: string, k: nat)
    requires 4 <= k < |t| && t[|t| - 1] == '>' && '>' !in t[4..|t| - 1]
    ensures Excerpt.FindFrom(t, '>', k) == Some(|t| - 1)
    decreases |t| - k
  {
    if k < |t| - 1 {
      assert t[k] == t[4..|t| - 1][k - 4];
      NoCloseUntil(t, k + 1);
    }
  }

  // ---------------------------------------------------------------------
  // Rewriting with a fixed regular expression

  /** The regular expressions `paper_wp_finalize_excerpt_links` replaces with. */
  datatype Rule =
    | SizeAttr(name: string)        // `\s+name["']?\d+["']?`, case-insensitive, removed
    | StyleAttr                     // `\s+style=["'][^"']*["']`, case-insensitive, removed
    | ClassValue                    // `class=(["'])(.*?)\1`, gets ` excerpt-image` appended
    | ImgWordCI(with: string)       // `str_ireplace('<img', with)`
    | Media                         // `<figure[^>]*>.*?<\/figure>|<img[^>]*>`, case-insensitive, `.` taking line feeds, removed

  /** Where a match of `r` at `i` ends, when there is one; matches are never empty. */
  function MatchEnd(s: string, i: nat, r: Rule): (e: Option<nat>)
    ensures e.Some? ==> i < e.value <= |s|
  {
    match r
    case SizeAttr(name) =>
      if i < |s| && IsRegexSpace(s[i]) && AtCI(s, SpaceEnd(s, i), name) then
        match DigitsStart(s, SpaceEnd(s, i) + |name|)
        case None => None
        case Some(d) =>
          var de := d + |IntegerPart(s[d..])|;
          Some(if de < |s| && IsQuote(s[de]) then de + 1 else de)
      else None
    case StyleAttr =>
      if i < |s| && IsRegexSpace(s[i]) && AtCI(s, SpaceEnd(s, i), "style=") then
        var q := SpaceEnd(s, i) + 6;
        if q < |s| && IsQuote(s[q]) then
          match FindQuote(s, q + 1) case None => None case Some(c) => Some(c + 1)
        else None
      else None
    case ClassValue =>
      if OccursAt(s, "class=", i) && i + 6 < |s| && IsQuote(s[i + 6]) then
        match FindOnLine(s, s[i + 6], i + 7) case None => None case Some(c) => Some(c + 1)
      else None
    case ImgWordCI(_) =>
      if AtCI(s, i, "<img") then Some(i + 4) else None
    case Media => MediaEnd(s, i)
  }

  /** What a match `m` of `r` is replaced with. */
  function Replacement(r: Rule, m: string): string {
    match r
    case SizeAttr(_) => ""
    case StyleAttr => ""
    case ClassValue =>
      if |m| >= 8 then "class=" + [m[6]] + m[7..|m| - 1] + " excerpt-image" + [m[6]] else m
    case ImgWordCI(with) => with
    case Media => ""
  }

  /** `preg_replace` of `r` over `s[i..]`: leftmost matches, no overlaps, the rest copied. */
  function Rewrite(s: string, r: Rule, i: nat): string
    decreases |s| - i
  {
    if i >= |s| then []
    else match MatchEnd(s, i, r)
      case Some(e) => Replacement(r, s[i..e]) + Rewrite(s, r, e)
      case None => [s[i]] + Rewrite(s, r, i + 1)
  }

  /** Where nothing matches, rewriting changes nothing. */
  lemma {:induction false} RewriteNoMatch(s: string, r: Rule, i: nat)
    requires i <= |s|
    requires forall k :: i <= k < |s| ==> MatchEnd(s, k, r).None?
    ensures Rewrite(s, r, i) == s[i..]
    decreases |s| - i
  {
    if i < |s| {
      RewriteNoMatch(s, r, i + 1);
      assert [s[i]] + s[i + 1..] == s[i..];
    }
  }

  /** A character where no match starts is copied. */
  lemma RewriteCopy(s: string, r: Rule, i: nat)
    requires i < |s| && MatchEnd(s, i, r).None?
    ensures Rewrite(s, r, i) == [s[i]] + Rewrite(s, r, i + 1)
  {
  }

  /** The attribute rules only match from a `\s` character. */
  lemma NoSpaceNoMatch(s: string, i: nat, r: Rule)
    requires r.SizeAttr? || r.StyleAttr?
    requires i < |s| && !IsRegexSpace(s[i])
    ensures MatchEnd(s, i, r).None?
  {
  }

  /** Rewriting with a rule whose matches start with `\s` keeps a leading `<img`. */
  lemma RewriteKeepsImg(s: string, r: Rule)
    requires r.SizeAttr? || r.StyleAttr?
    requires StartsWith(s, "<img")
    ensures StartsWith(Rewrite(s, r, 0), "<img")
  {
    assert s[0] == '<' && s[1] == 'i' && s[2] == 'm' && s[3] == 'g' by {
      assert s[..4] == "<img";
    }
    NoSpaceNoMatch(s, 0, r);
    NoSpaceNoMatch(s, 1, r);
    NoSpaceNoMatch(s, 2, r);
    NoSpaceNoMatch(s, 3, r);
    var rest := Rewrite(s, r, 4);
    assert Rewrite(s, r, 3) == [s[3]] + rest;
    assert Rewrite(s, r, 2) == [s[2]] + ([s[3]] + rest);
    assert Rewrite(s, r, 1) == [s[1]] + ([s[2]] + ([s[3]] + rest));
    assert Rewrite(s, r, 0) == [s[0]] + ([s[1]] + ([s[2]] + ([s[3]] + rest)));
    assert Rewrite(s, r, 0)[..4] == "<img";
  }

  // ---------------------------------------------------------------------
  // Finalizing the links

  /** The size and style attributes removed, as the first three replacements do. */
  function StripSizes(tag: string): string {
    Rewrite(Rewrite(Rewrite(tag, SizeAttr("width="), 0), SizeAttr("height="), 0), StyleAttr, 0)
  }

  /** The class added: inserted after `<img` when there is no `class=`, appended to every class value otherwise. */
  function AddClass(tag: string): string {
    if !Contains(tag, "class=") then Rewrite(tag, ImgWordCI("<img class=\"excerpt-image\""), 0)
    else Rewrite(tag, ClassValue, 0)
  }

  const LinkOpen := "<a href=\""

  /**
   * The replacement of one `<img>` of the excerpt: sizes and style removed,
   * the `excerpt-image` class added, `fetchpriority="high"` for the first
   * post, and the whole wrapped in a link to the post (`href` and `title`
   * are the escaped permalink and title).
   */
  function LinkImage(tag: string, href: string, title: string, isFirst: bool): string {
    var classed := AddClass(StripSizes(tag));
    var prioritized := if isFirst then ReplaceAll(classed, "<img", "<img fetchpriority=\"high\"") else classed;
    LinkOpen + href + "\" title=\"" + title + "\" class=\"excerpt-image-link\">" + prioritized + "</a>"
  }

  /**
   * `paper_wp_finalize_excerpt_links` from `i`: every `<img[^>]*>` match,
   * case-insensitive and left to right, replaced by its link.
   */
  function FinalizeFrom(html: string, i: nat, href: string, title: string, isFirst: bool): string
    decreases |html| - i
  {
    if i >= |html| then []
    else match ImgEnd(html, i, false)
      case Some(e) => LinkImage(html[i..e], href, title, isFirst) + FinalizeFrom(html, e, href, title, isFirst)
      case None => [html[i]] + FinalizeFrom(html, i + 1, href, title, isFirst)
  }

  function FinalizeLinks(html: string, href: string, title: string, isFirst: bool): string {
    FinalizeFrom(html, 0, href, title, isFirst)
  }

  lemma {:induction false} FinalizeFromNoImage(html: string, i: nat, href: string, title: string, isFirst: bool)
    requires i <= |html|
    requires forall k :: i <= k < |html| ==> !AtCI(html, k, "<img")
    ensures FinalizeFrom(html, i, href, title, isFirst) == html[i..]
    decreases |html| - i
  {
    if i < |html| {
      FinalizeFromNoImage(html, i + 1, href, title, isFirst);
      assert [html[i]] + html[i + 1..] == html[i..];
    }
  }

  /** An excerpt without `<img` is returned unchanged. */
  lemma FinalizeNoImage(html: string, href: string, title: string, isFirst: bool)
    requires forall k :: 0 <= k < |html| ==> !AtCI(html, k, "<img")
    ensures FinalizeLinks(html, href, title, isFirst) == html
  {
    FinalizeFromNoImage(html, 0, href, title, isFirst);
  }

  /**
   * A lower-case `<img` tag without a class comes out as a link to the post
   * whose image starts with `<img class="excerpt-image"`, or, for the first
   * post, with `<img fetchpriority="high"`.
   */
  /** Removing the sizes and the style keeps a leading `<img`. */
  lemma StripSizesKeepsImg(tag: string)
    requires StartsWith(tag, "<img")
    ensures StartsWith(StripSizes(tag), "<img")
  {
    var t1 := Rewrite(tag, SizeAttr("width="), 0);
    RewriteKeepsImg(tag, SizeAttr("width="));
    var t2 := Rewrite(t1, SizeAttr("height="), 0);
    RewriteKeepsImg(t1, SizeAttr("height="));
    RewriteKeepsImg(t2, StyleAttr);
  }

  /** Without a `class=`, the class is inserted right after the leading `<img`. */
  lemma AddClassPrefix(t: string)
    requires StartsWith(t, "<img") && !Contains(t, "class=")
    ensures StartsWith(AddClass(t), "<img class=\"excerpt-image\"")
  {
    var w := "<img class=\"excerpt-image\"";
    assert AtCI(t, 0, "<img") by {
      assert t[..4] == "<img";
      assert t[0] == '<' && t[1] == 'i' && t[2] == 'm' && t[3] == 'g';
    }
    var rest := Rewrite(t, ImgWordCI(w), 4);
    assert AddClass(t) == w + rest;
    assert (w + rest)[..|w|] == w;
  }

  /**
   * The link wraps the image, which starts with the added class, or with
   * `fetchpriority="high"` on the first post.
   */
  lemma LinkImageShape(tag: string, href: string, title: string, isFirst: bool)
    requires StartsWith(tag, "<img") && !Contains(StripSizes(tag), "class=")
    ensures var inner := if isFirst then "<img fetchpriority=\"high\"" else "<img class=\"excerpt-image\"";
      exists body :: LinkImage(tag, href, title, isFirst) ==
        LinkOpen + href + "\" title=\"" + title + "\" class=\"excerpt-image-link\">" + inner + body + "</a>"
  {
    StripSizesKeepsImg(tag);
    AddClassPrefix(StripSizes(tag));
    var w := "<img class=\"excerpt-image\"";
    var classed := AddClass(StripSizes(tag));
    var rest := classed[|w|..];
    assert classed == w + rest;
    if isFirst {
      var f := "<img fetchpriority=\"high\"";
      assert StartsWith(classed, "<img") by { assert classed[..4] == w[..4]; }
      ReplaceAllPrefix(classed, "<img", f);
      ExistsBody(href, title, f, ReplaceAll(classed[4..], "<img", f));
    } else {
      ExistsBody(href, title, w, rest);
    }
  }


  lemma ExistsBody(href: string, title: string, inner: string, body: string)
    ensures exists b :: (LinkOpen + href + "\" title=\"" + title + "\" class=\"excerpt-image-link\">" + (inner + body) + "</a>" ==
      LinkOpen + href + "\" title=\"" + title + "\" class=\"excerpt-image-link\">" + inner + b + "</a>")
  {
    var head := LinkOpen + href + "\" title=\"" + title + "\" class=\"excerpt-image-link\">";
    assert head + (inner + body) + "</a>" == head + inner + body + "</a>";
  }
}
