/**
 * The shortcode renderers: attribute defaulting, clamping and validation,
 * the gallery's arity rules, the full-width image's `src|alt` content, and
 * the once-per-request playlist group.
 *
 * WordPress's escaping functions and `do_shortcode` are inputs: nothing is
 * assumed about what they return.
 */
module Shortcodes {
  import opened Util

  /** Named shortcode attributes as WordPress parses them. */
  type Atts = map<string, string>

  /** `esc_url`, `esc_attr`, `esc_html` and `do_shortcode`. */
  datatype Escapers = Escapers(url: string -> string, attr: string -> string, html: string -> string,
                               doShortcode: string -> string)

  /** One attribute after `shortcode_atts`: the given value when present, else the default. */
  function Attr(atts: Atts, key: string, default: string): (r: string)
    ensures key in atts ==> r == atts[key]
    ensures key !in atts ==> r == default
  {
    if key in atts then atts[key] else default
  }

  /** The error paragraph a renderer returns instead of its markup. */
  function ErrorParagraph(message: string): (r: string)
    ensures StartsWith(r, "<p ") && EndsWith(r, message + "</p>")
  {
    Framed("<p ", "class=\"shortcode-error\">", message + "</p>");
    "<p " + "class=\"shortcode-error\">" + (message + "</p>")
  }

  // ---------------------------------------------------------------------
  // video, alert, button, quote

  const VideoError := ErrorParagraph("视频地址不能为空")

  /** `render_video`: the error paragraph when `src` is PHP-empty, else the player; a poster attribute only when one is given. */
  function RenderVideo(atts: Atts, esc: Escapers): (r: string)
    ensures EmptyStr(Attr(atts, "src", "")) <==> r == VideoError
    ensures !EmptyStr(Attr(atts, "src", "")) ==>
      Contains(r, "<source src=\"" + esc.url(Attr(atts, "src", "")) + "\" type=\"video/mp4\">")
  {
    var src := Attr(atts, "src", "");
    if EmptyStr(src) then VideoError
    else
      var poster := Attr(atts, "poster", "");
      var posterAttr := if !EmptyStr(poster) then "poster=\"" + esc.url(poster) + "\"" else "";
      var source := "<source src=\"" + esc.url(src) + "\" type=\"video/mp4\">";
      var head := "<div class=\"shortcode-video-wrapper\" style=\"width: " + esc.attr(Attr(atts, "width", "100%")) +
        "; height: " + esc.attr(Attr(atts, "height", "auto")) + ";\">" +
        "<video controls class=\"shortcode-video\" " + posterAttr + ">";
      ContainsInfix(head, source, "您的浏览器不支持 video 标签。</video></div>");
      head + source + "您的浏览器不支持 video 标签。</video></div>"
  }

  /** The alert `type` map; an unknown type is `info`. */
  function AlertClass(kind: string): (r: string)
    ensures r in {"info", "alert", "success", "error"}
    ensures kind !in {"info", "warning", "success", "error"} ==> r == "info"
    ensures kind == "warning" <==> r == "alert"
  {
    if kind == "warning" then "alert"
    else if kind == "success" then "success"
    else if kind == "error" then "error"
    else "info"
  }

  /** The alert body class: centred exactly when there is no title. */
  function AlertContentClass(title: string): (r: string)
    ensures r == "content center" <==> EmptyStr(title)
    ensures r == "content" <==> !EmptyStr(title)
  {
    if EmptyStr(title) then "content center" else "content"
  }

  /** `render_alert`: '' for a self-closing shortcode, else the container of the mapped type. */
  function RenderAlert(atts: Atts, content: Option<string>, esc: Escapers): (r: string)
    ensures content.None? <==> r == ""
    ensures content.Some? ==>
      StartsWith(r, "<div class=\"custom-container " + AlertClass(Attr(atts, "type", "info")) + "\">") &&
      Contains(r, "<div class=\"" + AlertContentClass(Attr(atts, "title", "")) + "\">" + esc.doShortcode(content.value) + "</div>")
  {
    if content.None? then ""
    else
      var title := Attr(atts, "title", "");
      var titleHtml := if !EmptyStr(title) then "<div class=\"title\">" + esc.html(title) + "</div>" else "";
      var open := "<div class=\"custom-container " + AlertClass(Attr(atts, "type", "info")) + "\">";
      var body := "<div class=\"" + AlertContentClass(title) + "\">" + esc.doShortcode(content.value) + "</div>";
      ContainsInfix(open + titleHtml, body, "</div>");
      open + titleHtml + body + "</div>"
  }

  const ButtonColors: seq<string> := ["primary", "secondary", "success", "warning", "danger"]

  /** The escaped colour if it is one of the five button colours, else `primary`. */
  function ButtonColor(escaped: string): (r: string)
    ensures r in ButtonColors
    ensures escaped in ButtonColors ==> r == escaped
    ensures escaped !in ButtonColors ==> r == "primary"
  {
    if escaped in ButtonColors then escaped else "primary"
  }

  /** `render_button`: '' for a self-closing shortcode, else a link with a valid colour class and the raw content. */
  function RenderButton(atts: Atts, content: Option<string>, esc: Escapers): (r: string)
    ensures content.None? <==> r == ""
    ensures content.Some? ==>
      Contains(r, "class=\"paper-btn btn-" + ButtonColor(esc.attr(Attr(atts, "color", "primary"))) + "\"") &&
      EndsWith(r, content.value + "</a></span>")
  {
    if content.None? then ""
    else
      var head := "<span class=\"paper-btn-wrapper\"><a href=\"" + esc.url(Attr(atts, "url", "#")) + "\" ";
      var cls := "class=\"paper-btn btn-" + ButtonColor(esc.attr(Attr(atts, "color", "primary"))) + "\"";
      var tail := " target=\"_blank\" rel=\"noopener noreferrer\">" + content.value + "</a></span>";
      ContainsInfix(head, cls, tail);
      head + cls + tail
  }

  /** `render_quote`: '' for a self-closing shortcode; the author line only when an author is given. */
  function RenderQuote(atts: Atts, content: Option<string>, esc: Escapers): (r: string)
    ensures content.None? <==> r == ""
    ensures content.Some? ==> StartsWith(r, "<blockquote class=\"paper-quote\">" + esc.doShortcode(content.value))
    ensures content.Some? && EmptyStr(Attr(atts, "author", "")) ==>
      r == "<blockquote class=\"paper-quote\">" + esc.doShortcode(content.value) + "</blockquote>"
  {
    if content.None? then ""
    else
      var author := Attr(atts, "author", "");
      var authorHtml := if !EmptyStr(author) then "<cite>—— " + esc.html(author) + "</cite>" else "";
      "<blockquote class=\"paper-quote\">" + esc.doShortcode(content.value) + authorHtml + "</blockquote>"
  }

  // ---------------------------------------------------------------------
  // heading

  /** `max(1, min(6, intval(level)))`. */
  function HeadingLevel(level: string): (r: int)
    ensures 1 <= r <= 6
    ensures 1 <= IntVal(level) <= 6 ==> r == IntVal(level)
    ensures IntVal(level) < 1 ==> r == 1
    ensures IntVal(level) > 6 ==> r == 6
  {
    Max(1, Min(6, IntVal(level)))
  }

  /** An exponent counts: `level="1e1"` is 10, clamped to `h6`. */
  lemma HeadingLevelExponent(d: nat, e: nat)
    requires Scale(d, e) > 6
    ensures HeadingLevel(NatToString(d) + "e" + NatToString(e)) == 6
  {
    Scientific(d, e);
  }

  function LevelDigit(level: int): (r: char)
    requires 1 <= level <= 6
    ensures '1' <= r <= '6'
  {
    (('0' as int) + level) as char
  }

  /** `render_heading`: '' for a self-closing shortcode, else an `h` element whose opening and closing tags carry the same clamped level. */
  function RenderHeading(atts: Atts, content: Option<string>, esc: Escapers): (r: string)
    ensures content.None? <==> r == ""
    ensures content.Some? ==>
      var d := LevelDigit(HeadingLevel(Attr(atts, "level", "3")));
      StartsWith(r, "<h" + [d] + " ") && EndsWith(r, "</h" + [d] + ">")
  {
    if content.None? then ""
    else
      var d := LevelDigit(HeadingLevel(Attr(atts, "level", "3")));
      var open := "<h" + [d] + " ";
      var mid := "class=\"shortcode-heading shortcode-heading-" + [d] + "\">" + esc.html(content.value);
      var close := "</h" + [d] + ">";
      Framed(open, mid, close);
      open + mid + close
  }

  // ---------------------------------------------------------------------
  // book

  const EmptyBook := "<li class=\"empty\"></li>"

  /** The link opening a book item: present exactly when the escaped URL is not PHP-empty. */
  function BookLinkOpen(url: string, title: string): (r: string)
    ensures r == [] <==> EmptyStr(url)
    ensures r != [] ==> StartsWith(r, "<a ")
  {
    if EmptyStr(url) then ""
    else
      Framed("<a ", "href=\"" + url + "\" title=\"" + title + "\" target=\"_blank\">", "");
      "<a " + ("href=\"" + url + "\" title=\"" + title + "\" target=\"_blank\">") + ""
  }

  /** The `</a>` closing the link, present exactly when the link was opened. */
  function BookLinkClose(url: string): (r: string)
    ensures r == [] <==> EmptyStr(url)
  {
    if EmptyStr(url) then "" else "</a>"
  }

  /** The cover, loaded through the image proxy: present exactly when an image is given. */
  function BookCover(image: string, title: string, esc: Escapers): (r: string)
    ensures r == [] <==> EmptyStr(image)
    ensures r != [] ==> StartsWith(r, "<img ")
  {
    if EmptyStr(image) then ""
    else
      var attrs := "loading=\"lazy\" src=\"https://images.weserv.nl/?url=" + esc.url(image) + "\" alt=\"" + title + "\">";
      Framed("<img ", attrs, "");
      "<img " + attrs + ""
  }

  /** The book's link, cover, title and rating, in that order, each piece once. */
  function BookItem(title: string, url: string, image: string, stars: string, esc: Escapers): (r: string)
    ensures !EmptyStr(url) <==> StartsWith(r, "<a ")
    ensures EmptyStr(url) ==> StartsWith(r, "<img ") || StartsWith(r, "<span>")
    ensures Contains(r, "<span>" + title + "</span>")
  {
    var open := BookLinkOpen(url, title);
    var cover := BookCover(image, title, esc);
    var span := "<span>" + title + "</span>";
    var tail := stars + BookLinkClose(url);
    BookItemShape(open, cover, span, tail, url);
    ContainsInfix(open + cover, span, tail);
    open + cover + span + tail
  }

  lemma BookItemShape(open: string, cover: string, span: string, tail: string, url: string)
    requires open == [] <==> EmptyStr(url)
    requires open != [] ==> StartsWith(open, "<a ")
    requires cover == [] || StartsWith(cover, "<img ")
    requires StartsWith(span, "<span>")
    ensures !EmptyStr(url) <==> StartsWith(open + cover + span + tail, "<a ")
    ensures EmptyStr(url) ==> StartsWith(open + cover + span + tail, "<img ") || StartsWith(open + cover + span + tail, "<span>")
  {
    var rest := cover + span + tail;
    assert open + cover + span + tail == open + rest;
    if open != [] {
      Leads(open, rest, "<a ");
    } else {
      assert open + rest == rest;
      if cover != [] {
        assert rest == cover + (span + tail);
        LeadsNoLink(cover, span + tail, "<img ");
      } else {
        assert rest == span + tail;
        LeadsNoLink(span, tail, "<span>");
      }
    }
  }

  /** The piece that comes first decides how the item starts. */
  lemma Leads(x: string, rest: string, p: string)
    requires StartsWith(x, p)
    ensures StartsWith(x + rest, p)
  {
    assert (x + rest)[..|p|] == x[..|p|];
  }

  /** A first piece that is not a link keeps the item from starting with one. */
  lemma LeadsNoLink(x: string, rest: string, p: string)
    requires StartsWith(x, p) && |p| >= 2 && p[1] != 'a'
    ensures StartsWith(x + rest, p) && !StartsWith(x + rest, "<a ")
  {
    Leads(x, rest, p);
    DistinctPrefixes(x + rest, p, "<a ", 1);
  }

  lemma BookListItem(open: string, cover: string, t: string, stars: string, close: string)
    ensures "<li>" + (open + cover + ("<span>" + t + "</span>") + (stars + close)) + "</li>"
         == "<li>" + open + cover + "<span>" + t + "</span>" + stars + close + "</li>"
  {
  }

  /**
   * `render_book`: the empty list item when the title is PHP-empty; else an
   * item, wrapped in a link exactly when the escaped URL is not empty, with
   * the cover only when an image is given. The star rating is computed in
   * floating point and is an input here.
   */
  function RenderBook(atts: Atts, esc: Escapers, ratingHtml: string -> string): (r: string)
    ensures EmptyStr(Attr(atts, "title", "")) <==> r == EmptyBook
    ensures !EmptyStr(Attr(atts, "title", "")) ==>
      StartsWith(r, "<li>") && EndsWith(r, "</li>") &&
      (!EmptyStr(esc.url(Attr(atts, "url", ""))) <==> StartsWith(r, "<li><a "))
    ensures !EmptyStr(Attr(atts, "title", "")) ==>
      var t := esc.html(Attr(atts, "title", ""));
      var url := esc.url(Attr(atts, "url", ""));
      var rating := Attr(atts, "rating", "");
      r == "<li>" + BookLinkOpen(url, t) + BookCover(Attr(atts, "image", ""), t, esc)
        + "<span>" + t + "</span>" + (if EmptyStr(rating) then "" else ratingHtml(rating))
        + BookLinkClose(url) + "</li>"
  {
    var title := Attr(atts, "title", "");
    if EmptyStr(title) then EmptyBook
    else
      var url := esc.url(Attr(atts, "url", ""));
      var rating := Attr(atts, "rating", "");
      var stars := if !EmptyStr(rating) then ratingHtml(rating) else "";
      var t := esc.html(title);
      var item := BookItem(t, url, Attr(atts, "image", ""), stars, esc);
      ListItem(item);
      BookListItem(BookLinkOpen(url, t), BookCover(Attr(atts, "image", ""), t, esc), t, stars, BookLinkClose(url));
      "<li>" + item + "</li>"
  }

  /** An item opening with a tag is not the empty item, and opens with a link exactly when the item does. */
  lemma ListItem(item: string)
    requires StartsWith(item, "<a ") || StartsWith(item, "<img ") || StartsWith(item, "<span>")
    ensures "<li>" + item + "</li>" != EmptyBook
    ensures StartsWith("<li>" + item + "</li>", "<li>") && EndsWith("<li>" + item + "</li>", "</li>")
    ensures StartsWith(item, "<a ") <==> StartsWith("<li>" + item + "</li>", "<li><a ")
  {
    var r := "<li>" + item + "</li>";
    Framed("<li>", item, "</li>");
    assert r[4] == item[0] == '<';
    if StartsWith(item, "<a ") {
      PrefixAfter("<li>", item, "</li>", "<a ");
    } else {
      assert r[5] == item[1] != 'a';
      assert r[..7][5] == r[5];
    }
  }

  // ---------------------------------------------------------------------
  // fullimage

  /** The position of the first occurrence of `c`. */
  function IndexOf(s: string, c: char): (r: Option<nat>)
    ensures r.None? <==> c !in s
    ensures r.Some? ==> r.value < |s| && s[r.value] == c && c !in s[..r.value]
  {
    if s == [] then None
    else if s[0] == c then Some(0)
    else
      var k := IndexOf(s[1..], c);
      if k.None? then None
      else
        assert s[..k.value + 1] == [s[0]] + s[1..][..k.value];
        Some(k.value + 1)
  }

  /** `explode('|', $content, 2)` with each part trimmed; a missing second part is ''. */
  function SrcAlt(content: string): (r: (string, string))
    ensures '|' !in content ==> r == (Trim(content), "")
    ensures '|' in content ==>
      var k := IndexOf(content, '|').value;
      r == (Trim(content[..k]), Trim(content[k + 1..]))
  {
    var k := IndexOf(content, '|');
    if k.None? then (Trim(content), "") else (Trim(content[..k.value]), Trim(content[k.value + 1..]))
  }

  /** A trimmed source without a bar and a trimmed alt text are read back from `src|alt`. */
  lemma SrcAltRoundTrip(src: string, alt: string)
    requires '|' !in src && Trim(src) == src && Trim(alt) == alt
    ensures SrcAlt(src + "|" + alt) == (src, alt)
  {
    var s := src + "|" + alt;
    assert s[|src|] == '|';
    assert s[..|src|] == src;
    assert s[|src| + 1..] == alt;
  }

  const ImageError := ErrorParagraph("图片地址不能为空")

  /** A CSS width: a numeric value is in pixels, anything else is used as given. */
  function CssLength(width: string): (r: string)
    ensures IsNumeric(width) ==> r == width + "px"
    ensures !IsNumeric(width) ==> r == width
  {
    if IsNumeric(width) then width + "px" else width
  }

  /** A width written with an exponent is numeric and gains `px`. */
  lemma CssLengthExponent(d: nat, e: nat)
    ensures CssLength(NatToString(d) + "e" + NatToString(e)) == NatToString(d) + "e" + NatToString(e) + "px"
  {
    Scientific(d, e);
  }

  /** The CSS declarations of the image: the given style, the two responsive rules, and the width. */
  function ImageStyles(style: string, width: string): (r: seq<string>)
    ensures "max-width: 100% !important" in r && "height: auto !important" in r
    ensures !EmptyStr(width) ==> r[|r| - 1] == "width: " + CssLength(width) + " !important"
    ensures !EmptyStr(style) ==> r[0] == Trim(style)
    ensures |r| == 2 + (if EmptyStr(style) then 0 else 1) + (if EmptyStr(width) then 0 else 1)
  {
    var given := if !EmptyStr(style) then [Trim(style)] else [];
    var base := ["max-width: 100% !important", "height: auto !important"];
    var sized := if !EmptyStr(width) then ["width: " + CssLength(width) + " !important"] else [];
    assert base[0] in given + base + sized && base[1] in given + base + sized;
    given + base + sized
  }

  /** The effective `src` and `alt`: non-empty content overrides both attributes. */
  function ImageSource(atts: Atts, content: Option<string>): (r: (string, string))
    ensures content.None? || EmptyStr(content.value) ==> r == (Attr(atts, "src", ""), Attr(atts, "alt", ""))
    ensures content.Some? && !EmptyStr(content.value) ==> r == SrcAlt(content.value)
  {
    if content.Some? && !EmptyStr(content.value) then SrcAlt(content.value)
    else (Attr(atts, "src", ""), Attr(atts, "alt", ""))
  }

  /** The `img` element: the escaped source first and the joined style declarations last. */
  function ImageTag(src: string, alt: string, atts: Atts, esc: Escapers): (r: string)
    ensures StartsWith(r, "<img src=\"" + esc.url(src) + "\" ")
    ensures EndsWith(r, " style=\"" + esc.attr(Join(ImageStyles(Attr(atts, "style", ""), Attr(atts, "width", "")), "; ")) + "\" />")
  {
    var width := Attr(atts, "width", "");
    var height := Attr(atts, "height", "");
    var classes := Trim("fullimage-display " + esc.attr(Attr(atts, "class", "")));
    var open := "<img src=\"" + esc.url(src) + "\" ";
    var mid := "alt=\"" + esc.attr(alt) + "\" class=\"" + classes + "\"" +
      (if !EmptyStr(width) then " width=\"" + esc.attr(width) + "\"" else "") +
      (if !EmptyStr(height) then " height=\"" + esc.attr(height) + "\"" else "");
    var close := " style=\"" + esc.attr(Join(ImageStyles(Attr(atts, "style", ""), width), "; ")) + "\" />";
    Framed(open, mid, close);
    open + mid + close
  }

  const ImageContainer := "<div class=\"fullimage-container\" style=\"margin: 15px 0; clear: both; text-align: left;\">"

  /** `render_fullimage`: the error paragraph exactly when the effective `src` is PHP-empty, else the image in its container. */
  function RenderFullImage(atts: Atts, content: Option<string>, esc: Escapers): (r: string)
    ensures EmptyStr(ImageSource(atts, content).0) <==> r == ImageError
    ensures !EmptyStr(ImageSource(atts, content).0) ==>
      var (src, alt) := ImageSource(atts, content);
      StartsWith(r, ImageContainer) && EndsWith(r, "</div>") && Contains(r, ImageTag(src, alt, atts, esc))
  {
    var (src, alt) := ImageSource(atts, content);
    if EmptyStr(src) then ImageError
    else
      var tag := ImageTag(src, alt, atts, esc);
      Framed(ImageContainer, tag, "</div>");
      ContainsInfix(ImageContainer, tag, "</div>");
      ContainerIsNotError(ImageContainer + tag + "</div>");
      ImageContainer + tag + "</div>"
  }

  lemma ContainerIsNotError(s: string)
    requires StartsWith(s, ImageContainer)
    ensures s != ImageError
  {
    assert |ImageError| < |ImageContainer| <= |s|;
  }

  // ---------------------------------------------------------------------
  // gallery

  /** The entries that are not PHP-empty, in order. */
  function NonEmpty(xs: seq<string>): (r: seq<string>)
    ensures |r| <= |xs|
    ensures forall u :: u in r <==> u in xs && !EmptyStr(u)
  {
    if xs == [] then []
    else NonEmpty(xs[..|xs| - 1]) + (if EmptyStr(xs[|xs| - 1]) then [] else [xs[|xs| - 1]])
  }

  lemma NonEmptyStep(xs: seq<string>, i: nat)
    requires i < |xs|
    ensures NonEmpty(xs[..i + 1]) == NonEmpty(xs[..i]) + (if EmptyStr(xs[i]) then [] else [xs[i]])
  {
    assert xs[..i + 1][..i] == xs[..i];
  }

  /** The key `img<i>`. */
  function ImgKey(i: nat): string {
    "img" + NatToString(i)
  }

  /** The named URLs `img1` .. `img<n>` that are set and not PHP-empty, in key order. */
  function NamedUrls(named: Atts, n: nat): (r: seq<string>)
    ensures |r| <= n
    ensures forall u :: u in r ==> !EmptyStr(u)
  {
    if n == 0 then []
    else
      var key := ImgKey(n);
      NamedUrls(named, n - 1) + (if key in named && !EmptyStr(named[key]) then [named[key]] else [])
  }

  /** The URLs `render_gallery` collects: the first ten positional arguments that are not empty, or else `img1` .. `img10`. */
  function GalleryUrls(positional: seq<string>, named: Atts): (r: seq<string>)
    ensures |r| <= 10
    ensures forall u :: u in r ==> !EmptyStr(u)
  {
    var p := NonEmpty(positional[..Min(10, |positional|)]);
    if p != [] then p else NamedUrls(named, 10)
  }

  const GalleryError := ErrorParagraph("gallery shortcode 只支持1-3张图片")

  function ImageLink(esc: Escapers, url: string): string {
    "<a href=\"" + esc.url(url) + "\" rel=\"lightbox\"><img src=\"" + esc.url(url) + "\" alt=\"\" loading=\"lazy\" /></a>"
  }

  /** One grid link; a URL that trims to a PHP-empty value is skipped. */
  function GridLinkOf(esc: Escapers, url: string): string {
    var u := Trim(url); if EmptyStr(u) then "" else ImageLink(esc, u)
  }

  function GridLink(esc: Escapers): string -> string {
    url => GridLinkOf(esc, url)
  }

  /** The layout class: single for one image, `gallery-grid-N` for N. */
  function GalleryClass(count: nat): (r: string)
    ensures count == 1 ==> r == "gallery-single"
    ensures count != 1 ==> r == "gallery-grid-" + NatToString(count)
  {
    if count == 1 then "gallery-single" else "gallery-grid-" + NatToString(count)
  }

  /** The links inside the layout: the one trimmed URL, or every grid link in order. */
  function GalleryBody(urls: seq<string>, esc: Escapers): string {
    if |urls| == 1 then ImageLink(esc, Trim(urls[0])) else ConcatMap(urls, GridLink(esc))
  }

  /** The gallery markup for the collected URLs. */
  function GalleryHtml(urls: seq<string>, esc: Escapers): string {
    if |urls| < 1 || |urls| > 3 then GalleryError
    else "<div class=\"" + GalleryClass(|urls|) + "\">" + GalleryBody(urls, esc) + "</div>"
  }

  /** `render_gallery`. */
  method RenderGallery(positional: seq<string>, named: Atts, esc: Escapers) returns (html: string)
    ensures html == GalleryHtml(GalleryUrls(positional, named), esc)
  {
    var urls := CollectUrls(positional, named);
    var count := |urls|;
    if count < 1 || count > 3 {
      return GalleryError;
    }
    if count == 1 {
      return "<div class=\"" + GalleryClass(1) + "\">" + ImageLink(esc, Trim(urls[0])) + "</div>";
    }
    var links := RenderLinks(urls, esc);
    html := "<div class=\"" + GalleryClass(count) + "\">" + links + "</div>";
  }

  /** The two collecting loops: positional arguments first, then `img1` .. `img10` when none was kept. */
  method CollectUrls(positional: seq<string>, named: Atts) returns (urls: seq<string>)
    ensures urls == GalleryUrls(positional, named)
  {
    urls := [];
    var n := Min(10, |positional|);
    var i := 0;
    while i < n
      invariant 0 <= i <= n
      invariant urls == NonEmpty(positional[..n][..i])
    {
      NonEmptyStep(positional[..n], i);
      if !EmptyStr(positional[i]) {
        urls := urls + [positional[i]];
      }
      i := i + 1;
    }
    assert positional[..n][..n] == positional[..n];
    if urls == [] {
      var k := 1;
      while k <= 10
        invariant 1 <= k <= 11
        invariant urls == NamedUrls(named, k - 1)
      {
        var key := ImgKey(k);
        if key in named && !EmptyStr(named[key]) {
          urls := urls + [named[key]];
        }
        k := k + 1;
      }
    }
  }

  /** The grid loop: each URL trimmed, the empty ones skipped. */
  method RenderLinks(urls: seq<string>, esc: Escapers) returns (links: string)
    ensures links == ConcatMap(urls, GridLink(esc))
  {
    links := "";
    var j := 0;
    while j < |urls|
      invariant 0 <= j <= |urls|
      invariant links == ConcatMap(urls[..j], GridLink(esc))
    {
      assert urls[..j + 1] == urls[..j] + [urls[j]];
      ConcatMapSnoc(urls[..j], urls[j], GridLink(esc));
      var url := Trim(urls[j]);
      if !EmptyStr(url) {
        links := links + ImageLink(esc, url);
      }
      assert GridLink(esc)(urls[j]) == GridLinkOf(esc, urls[j]);
      j := j + 1;
    }
    assert urls[..|urls|] == urls;
  }

  /** The error paragraph is rendered exactly when fewer than one or more than three URLs were collected. */
  lemma GalleryArity(urls: seq<string>, esc: Escapers)
    ensures GalleryHtml(urls, esc) == GalleryError <==> (|urls| < 1 || |urls| > 3)
  {
    if 1 <= |urls| <= 3 {
      var open := "<div class=\"" + GalleryClass(|urls|) + "\">";
      assert GalleryHtml(urls, esc) == open + GalleryBody(urls, esc) + "</div>";
      assert GalleryHtml(urls, esc)[1] == open[1] == 'd';
      NotGalleryError(GalleryHtml(urls, esc));
    }
  }

  lemma NotGalleryError(s: string)
    requires |s| > 1 && s[1] == 'd'
    ensures s != GalleryError
  {
    assert GalleryError[..3] == "<p ";
  }

  /** One URL gives the single layout; two or three give `gallery-grid-N`, and the links inside are the grid links in order. */
  lemma GalleryLayout(urls: seq<string>, esc: Escapers)
    requires 1 <= |urls| <= 3
    ensures StartsWith(GalleryHtml(urls, esc), "<div class=\"" + GalleryClass(|urls|) + "\">")
    ensures |urls| > 1 ==> GalleryHtml(urls, esc) == "<div class=\"" + GalleryClass(|urls|) + "\">" + ConcatMap(urls, GridLink(esc)) + "</div>"
  {
    var open := "<div class=\"" + GalleryClass(|urls|) + "\">";
    assert GalleryHtml(urls, esc) == open + GalleryBody(urls, esc) + "</div>";
    Framed(open, GalleryBody(urls, esc), "</div>");
  }

  /** Positional URLs win: the named ones are read only when no positional one among the first ten is non-empty. */
  lemma GalleryPositionalFirst(positional: seq<string>, named: Atts)
    ensures (exists u :: u in positional[..Min(10, |positional|)] && !EmptyStr(u)) ==>
      GalleryUrls(positional, named) == NonEmpty(positional[..Min(10, |positional|)])
    ensures (forall u :: u in positional[..Min(10, |positional|)] ==> EmptyStr(u)) ==>
      GalleryUrls(positional, named) == NamedUrls(named, 10)
  {
    var p := NonEmpty(positional[..Min(10, |positional|)]);
    if p != [] {
      assert p[0] in p;
    }
  }

  // ---------------------------------------------------------------------
  // playlist groups

  /** A music shortcode of the post that belongs to the playlist `name`. */
  predicate InPlaylist(song: Atts, name: string) {
    "playlist" in song && !EmptyStr(song["playlist"]) && song["playlist"] == name &&
    "type" in song && song["type"] == "playlist"
  }

  /** The songs of the playlist `name`, in the order they appear in the post. */
  function PlaylistSongs(songs: seq<Atts>, name: string): (r: seq<Atts>)
    ensures |r| <= |songs|
    ensures forall s :: s in r <==> s in songs && InPlaylist(s, name)
  {
    if songs == [] then []
    else PlaylistSongs(songs[..|songs| - 1], name) + (if InPlaylist(songs[|songs| - 1], name) then [songs[|songs| - 1]] else [])
  }

  /**
   * What a first request for a playlist renders: the single player when
   * there is no current post or at most one song of the playlist, else the
   * playlist player. The players are inputs.
   */
  function GroupHtml(atts: Atts, post: Option<seq<Atts>>, single: Atts -> string, list: seq<Atts> -> string): string {
    if post.None? then single(atts)
    else
      var songs := PlaylistSongs(post.value, Attr(atts, "playlist", ""));
      if |songs| <= 1 then single(atts) else list(songs)
  }

  /** The playlists already rendered in this request (`static $rendered_playlists`). */
  class PlaylistGroups {
    var rendered: set<string>

    constructor()
      ensures rendered == {}
    {
      rendered := {};
    }

    /** `render_playlist_group`: a playlist is rendered at most once; a repeated name renders ''. */
    method RenderGroup(atts: Atts, post: Option<seq<Atts>>, single: Atts -> string, list: seq<Atts> -> string)
      returns (r: string)
      modifies this
      ensures Attr(atts, "playlist", "") in old(rendered) ==> r == "" && rendered == old(rendered)
      ensures Attr(atts, "playlist", "") !in old(rendered) ==>
        r == GroupHtml(atts, post, single, list) && rendered == old(rendered) + {Attr(atts, "playlist", "")}
      ensures Attr(atts, "playlist", "") in rendered
    {
      var name := Attr(atts, "playlist", "");
      if name in rendered {
        return "";
      }
      rendered := rendered + {name};
      if post.None? {
        return single(atts);
      }
      var songs := CollectSongs(post.value, name);
      if |songs| <= 1 {
        r := single(atts);
      } else {
        r := list(songs);
      }
    }
  }

  /** The collecting loop over the post's music shortcodes. */
  method CollectSongs(songs: seq<Atts>, name: string) returns (found: seq<Atts>)
    ensures found == PlaylistSongs(songs, name)
  {
    found := [];
    var i := 0;
    while i < |songs|
      invariant 0 <= i <= |songs|
      invariant found == PlaylistSongs(songs[..i], name)
    {
      assert songs[..i + 1][..i] == songs[..i];
      if InPlaylist(songs[i], name) {
        found := found + [songs[i]];
      }
      i := i + 1;
    }
    assert songs[..i] == songs;
  }

  /** Two requests for one playlist: the second renders nothing and leaves the set as the first left it. */
  method RenderTwice(g: PlaylistGroups, atts: Atts, post: Option<seq<Atts>>, single: Atts -> string, list: seq<Atts> -> string)
    returns (first: string, second: string)
    modifies g
    ensures second == ""
    ensures g.rendered == old(g.rendered) + {Attr(atts, "playlist", "")}
  {
    first := g.RenderGroup(atts, post, single, list);
    second := g.RenderGroup(atts, post, single, list);
  }
}
