/**
 * The image helpers: the upload rename, the attachment attribute defaults,
 * the special-image test, the medium-size URL choice and the guards around
 * the content image rewrite.
 */
module Image {
  import opened Util

  // ---------------------------------------------------------------------
  // Upload rename

  /** The position of the last `c` in `s`, if any. */
  function LastIndex(s: string, c: char): (r: Option<nat>)
    ensures r.None? <==> c !in s
    ensures r.Some? ==> r.value < |s| && s[r.value] == c && c !in s[r.value + 1..]
    decreases |s|
  {
    if s == [] then None
    else if s[|s| - 1] == c then Some(|s| - 1)
    else
      var r := LastIndex(s[..|s| - 1], c);
      assert s == s[..|s| - 1] + [s[|s| - 1]];
      if r.Some? then
        assert s[r.value + 1..] == s[..|s| - 1][r.value + 1..] + [s[|s| - 1]];
        r
      else r
  }

  /** The last `c` of `a + [c] + b` is the one between them when `b` has none. */
  lemma LastIndexAt(a: string, c: char, b: string)
    requires c !in b
    ensures LastIndex(a + [c] + b, c) == Some(|a|)
  {
    var s := a + [c] + b;
    var r := LastIndex(s, c);
    assert s[|a|] == c;
  }

  /** `pathinfo()['basename']`: what follows the last slash. */
  function Basename(path: string): (r: string)
    ensures '/' !in r
  {
    match LastIndex(path, '/')
    case Some(i) => path[i + 1..]
    case None => path
  }

  /** `pathinfo()['extension']`: what follows the last dot of the base name, when it has one. */
  function Extension(path: string): (r: Option<string>)
    ensures r.Some? ==> '.' !in r.value && '/' !in r.value
  {
    var base := Basename(path);
    match LastIndex(base, '.')
    case Some(i) =>
      Some(base[i + 1..])
    case None => None
  }

  /** The suffix kept by the rename: `.` and the extension, or nothing when that is empty. */
  function ExtensionSuffix(path: string): (r: string)
    ensures r == "" || (r[0] == '.' && Extension(path) == Some(r[1..]) && !EmptyStr(r[1..]))
  {
    match Extension(path)
    case Some(e) => if EmptyStr(e) then "" else "." + e
    case None => ""
  }

  /** The new upload name: the time stamp, `_`, the random number and the old extension. */
  function RenamedName(name: string, stamp: string, random: nat): string {
    stamp + "_" + NatToString(random) + ExtensionSuffix(name)
  }

  /** `rename_uploaded_image`: only the `name` entry of the upload changes. */
  function RenameUploadedImage(file: map<string, string>, stamp: string, random: nat): (r: map<string, string>)
    requires "name" in file
    ensures r.Keys == file.Keys
    ensures forall k :: k in file && k != "name" ==> r[k] == file[k]
    ensures r["name"] == RenamedName(file["name"], stamp, random)
  {
    file["name" := RenamedName(file["name"], stamp, random)]
  }

  /**
   * With a time stamp free of dots and slashes, the renamed file has the
   * extension the original had, and none when the original's was missing,
   * empty or "0".
   */
  lemma RenameKeepsExtension(name: string, stamp: string, random: nat)
    requires '.' !in stamp && '/' !in stamp
    ensures ExtensionSuffix(name) != "" ==> Extension(RenamedName(name, stamp, random)) == Extension(name)
    ensures ExtensionSuffix(name) == "" ==> Extension(RenamedName(name, stamp, random)).None?
  {
    var digits := NatToString(random);
    var head := stamp + "_" + digits;
    assert forall k :: 0 <= k < |digits| ==> IsDigit(digits[k]);
    assert '.' !in head && '/' !in head;
    var suffix := ExtensionSuffix(name);
    var renamed := RenamedName(name, stamp, random);
    if suffix == "" {
      assert renamed == head;
      assert Basename(renamed) == head;
    } else {
      var e := suffix[1..];
      assert renamed == head + ['.'] + e;
      assert '/' !in renamed;
      assert Basename(renamed) == renamed;
      LastIndexAt(head, '.', e);
    }
  }

  // ---------------------------------------------------------------------
  // Attachment attributes

  /** The test alt texts that are replaced as if missing. */
  const PlaceholderAlts: seq<string> := ["图片测试1", "图片测试2", "测试图片"]

  /** The alt text is missing, empty, "0" or one of the placeholders. */
  predicate NeedsAlt(attr: map<string, string>) {
    "alt" !in attr || EmptyStr(attr["alt"]) || attr["alt"] in PlaceholderAlts
  }

  /**
   * The replacement alt text: the attachment's stored alt, else its title,
   * else its description, else "网站图片".
   */
  function AltText(storedAlt: string, title: string, description: string): (r: string)
    ensures !EmptyStr(r)
    ensures !EmptyStr(storedAlt) ==> r == storedAlt
    ensures EmptyStr(storedAlt) && !EmptyStr(title) ==> r == title
    ensures EmptyStr(storedAlt) && EmptyStr(title) && !EmptyStr(description) ==> r == description
  {
    if !EmptyStr(storedAlt) then storedAlt
    else
      var fallback := if !EmptyStr(title) then title else description;
      if EmptyStr(fallback) then "网站图片" else fallback
  }

  /**
   * `optimize_image_attributes`: fills in a missing or placeholder alt and
   * the `loading` and `decoding` hints the caller has not set.
   */
  method OptimizeImageAttributes(attr: map<string, string>, storedAlt: string, title: string,
                                 description: string, escAttr: string -> string)
    returns (r: map<string, string>)
    ensures r.Keys == attr.Keys + {"alt", "loading", "decoding"}
    ensures NeedsAlt(attr) ==> r["alt"] == escAttr(AltText(storedAlt, title, description))
    ensures !NeedsAlt(attr) ==> r["alt"] == attr["alt"]
    ensures r["loading"] == if "loading" in attr then attr["loading"] else "lazy"
    ensures r["decoding"] == if "decoding" in attr then attr["decoding"] else "async"
    ensures forall k :: k in attr && k != "alt" && k != "loading" && k != "decoding" ==> r[k] == attr[k]
  {
    r := attr;
    if NeedsAlt(r) {
      var altText := AltText(storedAlt, title, description);
      r := r["alt" := escAttr(altText)];
    }
    if "loading" !in r {
      r := r["loading" := "lazy"];
    }
    if "decoding" !in r {
      r := r["decoding" := "async"];
    }
  }

  /** A second pass changes nothing once the escaped alt text is a usable one. */
  method OptimizeTwice(attr: map<string, string>, storedAlt: string, title: string,
                       description: string, escAttr: string -> string)
    returns (once: map<string, string>, twice: map<string, string>)
    requires NeedsAlt(attr) ==>
      !EmptyStr(escAttr(AltText(storedAlt, title, description)))
      && escAttr(AltText(storedAlt, title, description)) !in PlaceholderAlts
    ensures twice == once
  {
    once := OptimizeImageAttributes(attr, storedAlt, title, description, escAttr);
    twice := OptimizeImageAttributes(once, storedAlt, title, description, escAttr);
  }

  // ---------------------------------------------------------------------
  // Special images

  /** Source fragments that mark icons and other images left alone. */
  const SpecialKeywords: seq<string> := ["svg", "icon", "alipay.svg", "wechat.svg", "moon.svg", "sun.svg", "top.svg"]

  /** Class fragments that mark images left alone. */
  const SpecialClasses: seq<string> := ["booklist", "movielist", "qr-popup", "menu-icon", "theme-icon"]

  /** Some keyword occurs in the source or some special class in the class attribute. */
  predicate IsSpecial(src: string, imgClass: string) {
    (exists i :: 0 <= i < |SpecialKeywords| && Contains(src, SpecialKeywords[i]))
    || (exists i :: 0 <= i < |SpecialClasses| && Contains(imgClass, SpecialClasses[i]))
  }

  /** `is_special_image_quick`: scans the keywords, then the classes, stopping at the first hit. */
  method IsSpecialImageQuick(src: string, imgClass: string) returns (special: bool)
    ensures special <==> IsSpecial(src, imgClass)
  {
    var i := 0;
    while i < |SpecialKeywords|
      invariant 0 <= i <= |SpecialKeywords|
      invariant forall j :: 0 <= j < i ==> !Contains(src, SpecialKeywords[j])
    {
      if Contains(src, SpecialKeywords[i]) {
        return true;
      }
      i := i + 1;
    }
    var k := 0;
    while k < |SpecialClasses|
      invariant 0 <= k <= |SpecialClasses|
      invariant forall j :: 0 <= j < k ==> !Contains(imgClass, SpecialClasses[j])
    {
      if Contains(imgClass, SpecialClasses[k]) {
        return true;
      }
      k := k + 1;
    }
    return false;
  }

  /** The five `.svg` keywords add nothing: "svg" and "icon" already cover every source. */
  lemma SpecialSourceKeywords(src: string)
    ensures (exists i :: 0 <= i < |SpecialKeywords| && Contains(src, SpecialKeywords[i]))
        <==> Contains(src, "svg") || Contains(src, "icon")
  {
    if exists i :: 0 <= i < |SpecialKeywords| && Contains(src, SpecialKeywords[i]) {
      var i :| 0 <= i < |SpecialKeywords| && Contains(src, SpecialKeywords[i]);
      if i >= 2 {
        var name := SpecialKeywords[i][..|SpecialKeywords[i]| - 3];
        assert SpecialKeywords[i] == name + "svg";
        ContainsSuffixOf(src, name, "svg");
      }
    }
    if Contains(src, "svg") {
      assert Contains(src, SpecialKeywords[0]);
    }
    if Contains(src, "icon") {
      assert Contains(src, SpecialKeywords[1]);
    }
  }

  // ---------------------------------------------------------------------
  // Medium-size URLs

  /**
   * `generate_small_image_url`: an image from the uploads directory with an
   * attachment whose medium size has a different URL is replaced by that
   * URL; every other image keeps its own.
   */
  function SmallImageUrl(original: string, uploadsBase: string, attachmentOf: string -> int,
                         mediumOf: int -> Option<string>): (r: string)
    ensures r != original <==>
      (StartsWith(original, uploadsBase) && attachmentOf(original) != 0
       && mediumOf(attachmentOf(original)).Some? && mediumOf(attachmentOf(original)).value != original)
    ensures r != original ==> mediumOf(attachmentOf(original)) == Some(r)
  {
    if !StartsWith(original, uploadsBase) then original
    else
      var id := attachmentOf(original);
      if id == 0 then original
      else
        match mediumOf(id)
        case Some(medium) => if medium != original then medium else original
        case None => original
  }

  // ---------------------------------------------------------------------
  // Content image rewrite

  /** The document wrappers the DOM round trip adds, removed in this order. */
  function StripDocumentWrappers(html: string): string {
    var s1 := ReplaceAll(html, "<?xml encoding=\"utf-8\" ?>", "");
    var s2 := ReplaceAll(s1, "<html>", "");
    var s3 := ReplaceAll(s2, "<body>", "");
    var s4 := ReplaceAll(s3, "</html>", "");
    ReplaceAll(s4, "</body>", "")
  }

  /** The content passes the cheap guards: non-empty, outside the admin, holding an image. */
  predicate ImagesToProcess(content: string, isAdmin: bool) {
    !EmptyStr(content) && !isAdmin && Contains(content, "<img")
  }

  /**
   * `process_content_images`: guarded content goes to the lightbox pass when
   * neither responsive nor small images are on, otherwise through the DOM
   * rewrite (`None` when the HTML does not load), whose output is dropped
   * when it is empty or under half the original's byte length.
   */
  function ProcessContentImages(content: string, isAdmin: bool, responsive: bool, small: bool,
                                lightboxOnly: string -> string, domRewrite: string -> Option<string>,
                                strlen: string -> nat): (r: string)
    ensures !ImagesToProcess(content, isAdmin) ==> r == content
    ensures ImagesToProcess(content, isAdmin) && !responsive && !small ==> r == lightboxOnly(content)
    ensures ImagesToProcess(content, isAdmin) && (responsive || small) ==>
      (match domRewrite(content)
       case None => r == content
       case Some(out) =>
         if EmptyStr(out) || 2 * strlen(out) < strlen(content) then r == content
         else r == Trim(StripDocumentWrappers(out)))
  {
    if !ImagesToProcess(content, isAdmin) then content
    else if !responsive && !small then lightboxOnly(content)
    else
      match domRewrite(content)
      case None => content
      case Some(out) =>
        if EmptyStr(out) || 2 * strlen(out) < strlen(content) then content
        else Trim(StripDocumentWrappers(out))
  }

  /** Whatever the rewrite does, the result is the content, its lightbox pass, or a rewrite at least half as long. */
  lemma RewriteNeverShrinksBelowHalf(content: string, isAdmin: bool, responsive: bool, small: bool,
                                     lightboxOnly: string -> string, domRewrite: string -> Option<string>,
                                     strlen: string -> nat)
    ensures var r := ProcessContentImages(content, isAdmin, responsive, small, lightboxOnly, domRewrite, strlen);
      r == content || r == lightboxOnly(content)
      || (domRewrite(content).Some? && 2 * strlen(domRewrite(content).value) >= strlen(content)
          && r == Trim(StripDocumentWrappers(domRewrite(content).value)))
  {
  }
}
