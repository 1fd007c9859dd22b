/**
 * The User-Agent classifier behind the comment "system / browser" label:
 * two ordered decision lists over the User-Agent string, each giving a
 * `{code, title}` pair with a fallback when nothing matches.
 *
 * Every test of the source is a case-insensitive regular expression. The
 * ones used here are literal words (a `.` in them matches any character
 * but a newline), a word followed by a run of a character class, and the
 * few shapes with a separator or backtracking that the version captures
 * use; each is written out below with PCRE's leftmost, greedy result.
 */
module UserAgent {
  import opened Util
  import Setup

  // ---------------------------------------------------------------------
  // Matching

  /** A regex character under `/i`: `.` matches anything but a newline. */
  predicate CharMatches(c: char, p: char) {
    if p == '.' then c != '\n' else Lower(c) == Lower(p)
  }

  /** The literal regex `w` matches `s` at `i`. */
  predicate MatchesAt(s: string, w: string, i: nat) {
    i + |w| <= |s| && forall k :: 0 <= k < |w| ==> CharMatches(s[i + k], w[k])
  }

  datatype CharClass = Digit | DigitPlus | DigitDot | AlnumDot

  predicate InClass(c: char, cls: CharClass) {
    match cls
    case Digit => IsDigit(c)
    case DigitPlus => IsDigit(c) || c == '+'
    case DigitDot => IsDigit(c) || c == '.'
    case AlnumDot => IsDigit(c) || c == '.' || 'a' <= c <= 'z' || 'A' <= c <= 'Z'
  }

  /** The length of the run of `cls` characters starting at `i`. */
  function RunLen(s: string, i: nat, cls: CharClass): (n: nat)
    ensures i + n <= |s| || n == 0
    ensures forall k :: i <= k < i + n ==> InClass(s[k], cls)
    ensures i + n < |s| ==> !InClass(s[i + n], cls)
    decreases |s| - i
  {
    if i < |s| && InClass(s[i], cls) then 1 + RunLen(s, i + 1, cls) else 0
  }

  /** What a pattern requires after its leading word, and which part of it the group captures. */
  datatype Tail =
    | Nothing                 // no group: the word alone
    | Run(cls: CharClass)     // `([cls]+)`
    | SepRun                  // `[\ |\/]?([.0-9a-zA-Z]+)`
    | UbuntuTail              // `[\/|\ ]([.0-9]+[.0-9a-zA-Z]+)`
    | CentosTail              // `([.0-9a-zA-Z]+).centos`
    | Triple                  // `(\d+.\d+.\d+)`

  predicate IsSep(c: char) { c == ' ' || c == '|' || c == '/' }

  /** The captured span `(start, end)` when the tail matches at `q`. */
  function TailSpan(s: string, q: nat, t: Tail): (r: Option<(nat, nat)>)
    ensures r.Some? ==> q <= r.value.0 <= r.value.1 <= |s|
  {
    match t
    case Nothing => if q <= |s| then Some((q, q)) else None
    case Run(cls) =>
      var n := RunLen(s, q, cls);
      if n > 0 then Some((q, q + n)) else None
    case SepRun =>
      if q < |s| && IsSep(s[q]) && RunLen(s, q + 1, AlnumDot) > 0 then Some((q + 1, q + 1 + RunLen(s, q + 1, AlnumDot)))
      else if RunLen(s, q, AlnumDot) > 0 then Some((q, q + RunLen(s, q, AlnumDot)))
      else None
    case UbuntuTail =>
      if q + 1 < |s| && IsSep(s[q]) && InClass(s[q + 1], DigitDot) && RunLen(s, q + 1, AlnumDot) >= 2
      then Some((q + 1, q + 1 + RunLen(s, q + 1, AlnumDot)))
      else None
    case CentosTail =>
      var e := CentosEnd(s, q, RunLen(s, q, AlnumDot));
      if e.Some? then Some((q, e.value)) else None
    case Triple =>
      var e := TripleA(s, q, RunLen(s, q, Digit));
      if e.Some? then Some((q, e.value)) else None
  }

  /** The longest run prefix of length at most `n` that `.centos` follows. */
  function CentosEnd(s: string, q: nat, n: nat): (r: Option<nat>)
    ensures r.Some? ==> q < r.value <= |s|
  {
    if n == 0 then None
    else if q + n <= |s| && MatchesAt(s, ".centos", q + n) then Some(q + n)
    else CentosEnd(s, q, n - 1)
  }

  /** `\d+.\d+.\d+` from `q`, trying the first group from length `a` down, as PCRE backtracks. */
  function TripleA(s: string, q: nat, a: nat): (r: Option<nat>)
    ensures r.Some? ==> q < r.value <= |s|
  {
    if a == 0 then None
    else
      var rest := if q + a < |s| && s[q + a] != '\n' then TripleB(s, q + a + 1, RunLen(s, q + a + 1, Digit)) else None;
      if rest.Some? then rest else TripleA(s, q, a - 1)
  }

  function TripleB(s: string, r: nat, b: nat): (e: Option<nat>)
    ensures e.Some? ==> r < e.value <= |s|
  {
    if b == 0 then None
    else if r + b < |s| && s[r + b] != '\n' && RunLen(s, r + b + 1, Digit) > 0 then Some(r + b + 1 + RunLen(s, r + b + 1, Digit))
    else TripleB(s, r, b - 1)
  }

  /** `preg_match('/w<tail>/i', s, $m)` from position `i` on: the leftmost match's group. */
  function CaptureFrom(s: string, w: string, t: Tail, i: nat): (r: Option<string>)
    decreases |s| - i
  {
    if i + |w| > |s| then None
    else if MatchesAt(s, w, i) && TailSpan(s, i + |w|, t).Some? then
      var span := TailSpan(s, i + |w|, t).value;
      Some(s[span.0..span.1])
    else CaptureFrom(s, w, t, i + 1)
  }

  function Capture(s: string, w: string, t: Tail): Option<string> {
    CaptureFrom(s, w, t, 0)
  }

  /** `preg_match('/w/i', s)`. */
  predicate Found(s: string, w: string) {
    Capture(s, w, Nothing).Some?
  }

  /** A capture exists exactly when the word matches somewhere with its tail after it. */
  lemma {:induction false} CaptureFromIff(s: string, w: string, t: Tail, i: nat)
    ensures CaptureFrom(s, w, t, i).Some? <==> exists j :: i <= j && MatchesAt(s, w, j) && TailSpan(s, j + |w|, t).Some?
    decreases |s| - i
  {
    if i + |w| <= |s| && !(MatchesAt(s, w, i) && TailSpan(s, i + |w|, t).Some?) {
      CaptureFromIff(s, w, t, i + 1);
      assert forall j :: i <= j && MatchesAt(s, w, j) ==> j == i || i + 1 <= j;
    }
  }

  /** `preg_match('/w/i', s)` holds exactly when the word occurs. */
  lemma FoundIff(s: string, w: string)
    ensures Found(s, w) <==> exists j: nat :: MatchesAt(s, w, j)
  {
    CaptureFromIff(s, w, Nothing, 0);
    assert forall j: nat :: MatchesAt(s, w, j) ==> TailSpan(s, j + |w|, Nothing).Some?;
  }

  /** `strpos($s, $p)` (case-sensitive), leftmost from `i`. */
  function PosFrom(s: string, p: string, i: nat): (r: Option<nat>)
    ensures r.Some? ==> i <= r.value && OccursAt(s, p, r.value)
    decreases |s| - i
  {
    if i + |p| > |s| then None
    else if s[i..i + |p|] == p then Some(i)
    else PosFrom(s, p, i + 1)
  }

  /** PHP arithmetic on a `strpos` result: `false` counts as 0. */
  function PosValue(r: Option<nat>): nat {
    if r.Some? then r.value else 0
  }

  /** `substr($s, $start)` for a start that is not negative. */
  function SubstrFrom(s: string, start: nat): (r: string)
    ensures |r| <= |s|
  {
    if start >= |s| then "" else s[start..]
  }

  /** `substr($s, 0, $len)`: a negative length drops that many characters from the end. */
  function SubstrTo(s: string, len: int): (r: string)
    ensures |r| <= |s| && r == s[..|r|]
  {
    if len >= 0 then s[..Min(len, |s|)]
    else if |s| + len > 0 then s[..|s| + len]
    else ""
  }

  /** `str_replace('_', '.', $s)`. */
  function UnderscoresToDots(s: string): (r: string)
    ensures |r| == |s|
    ensures forall k :: 0 <= k < |s| ==> r[k] == (if s[k] == '_' then '.' else s[k])
  {
    if s == [] then "" else [if s[0] == '_' then '.' else s[0]] + UnderscoresToDots(s[1..])
  }

  // ---------------------------------------------------------------------
  // Results

  /** `['code' => ..., 'title' => ...]`. */
  datatype Agent = Agent(code: string, title: string)

  /**
   * Where a branch takes its version from: nowhere, a fixed text, the group
   * of a pattern, `get_browser_version` after `title/`, or the Apple
   * `substr` arithmetic after a marker.
   */
  datatype VersionSource =
    | NoVersion
    | Fixed(text: string)
    | Group(word: string, tail: Tail)
    | After(title: string)
    | Apple(marker: string, skip: nat, cutAtL: bool)

  /** The branch a decision list takes: its code, its title before the version, and where the version comes from. */
  datatype Choice = Choice(code: string, base: string, source: VersionSource)

  /** The title with a non-empty version appended after one space. */
  function WithVersion(base: string, version: string): (r: string)
    ensures StartsWith(r, base)
    ensures version == "" <==> r == base
    ensures version != "" ==> r[|base|] == ' ' && r[|base| + 1..] == version
  {
    if version != "" then base + " " + version else base
  }

  /**
   * The version text after a marker found with `strpos` on the lower-cased
   * string (`false + n` is `n`): the rest from `skip` characters past it,
   * cut one character before the first `l` (iOS) or at the first `)`
   * (OS X), then at a `;`, with `_` read as `.`.
   */
  function AppleVersion(ua: string, marker: string, skip: nat, cutAtL: bool): string {
    var v := SubstrFrom(ua, PosValue(PosFrom(LowerStr(ua), marker, 0)) + skip);
    var cut := if cutAtL then SubstrTo(v, PosValue(PosFrom(v, "l", 0)) - 1) else SubstrTo(v, PosValue(PosFrom(v, ")", 0)));
    var semi := PosFrom(cut, ";", 0);
    UnderscoresToDots(if semi.Some? then SubstrTo(cut, semi.value) else cut)
  }

  /** The capture pattern `get_browser_version` uses after `title/`. */
  function VersionTail(title: string): Tail {
    if title == "QQ" || title == "AlipayClient" then Triple
    else if title == "MobileLenovoBrowser" || title == "SamsungBrowser" then Run(DigitDot)
    else Run(DigitPlus)
  }

  /** `get_browser_version`: the group after `title/`, or '' when there is no match or the group is PHP-empty. */
  function BrowserVersion(ua: string, title: string): (r: string)
    ensures Capture(ua, title + "/", VersionTail(title)).None? ==> r == ""
    ensures r != "" ==> Capture(ua, title + "/", VersionTail(title)) == Some(r) && !EmptyStr(r)
  {
    var c := Capture(ua, title + "/", VersionTail(title));
    if c.None? || EmptyStr(c.value) then "" else c.value
  }

  function VersionOf(ua: string, source: VersionSource): string {
    match source
    case NoVersion => ""
    case Fixed(text) => text
    case Group(word, tail) => var c := Capture(ua, word, tail); if c.Some? then c.value else ""
    case After(title) => BrowserVersion(ua, title)
    case Apple(marker, skip, cutAtL) => AppleVersion(ua, marker, skip, cutAtL)
  }

  /** The pair a branch produces for a given User-Agent. */
  function Finish(ua: string, c: Choice): (a: Agent)
    ensures a.code == c.code
    ensures a.title == WithVersion(c.base, VersionOf(ua, c.source))
  {
    Agent(c.code, WithVersion(c.base, VersionOf(ua, c.source)))
  }

  /** What the decision lists test: `has(w)` is `preg_match('/w/i', $ua)`. */
  datatype Tests = Tests(has: string -> bool, arch: bool, qq: bool, ieRv: bool)

  /** `[^A-Za-z]Arch`: the word after a character that is not a letter. */
  predicate ArchMarker(ua: string) {
    exists i :: 0 < i < |ua| && MatchesAt(ua, "Arch", i) && !('a' <= ua[i - 1] <= 'z' || 'A' <= ua[i - 1] <= 'Z')
  }

  /** The tests evaluated on a User-Agent string. */
  function TestsOf(ua: string): Tests {
    Tests(w => Found(ua, w), ArchMarker(ua), Capture(ua, "QQ/", Run(AlnumDot)).Some?, Capture(ua, " rv:", Run(AlnumDot)).Some?)
  }

  // ---------------------------------------------------------------------
  // Operating system

  predicate WindowsMarker(t: Tests) {
    t.has("Windows") || t.has("WinNT") || t.has("Win32")
  }

  /** The Windows release chain; a release with no icon of its own keeps the `Windows` code. */
  function WindowsChoice(t: Tests): (c: Choice)
    ensures c.base == "Windows"
    ensures c.code == "Windows-10" || c.code == "Windows-8" || c.code == "Windows-7" || c.code == "Windows"
    ensures c.source.NoVersion? || c.source.Fixed?
  {
    var has := t.has;
    if has("Windows NT 11.0") || has("Windows NT 6.4") then Choice("Windows-10", "Windows", Fixed("11"))
    else if has("Windows NT 10.0") || has("Windows NT 6.4") then Choice("Windows-10", "Windows", Fixed("10"))
    else if has("Windows NT 6.3") then Choice("Windows-8", "Windows", Fixed("8.1"))
    else if has("Windows NT 6.2") then Choice("Windows-8", "Windows", Fixed("8"))
    else if has("Windows NT 6.1") then Choice("Windows-7", "Windows", Fixed("7"))
    else if has("Windows NT 6.0") then Choice("Windows", "Windows", Fixed("Vista"))
    else if has("Windows NT 5.2 x64") then Choice("Windows", "Windows", Fixed("XP"))
    else if has("Windows NT 5.2") then Choice("Windows", "Windows", Fixed("Server 2003"))
    else if has("Windows NT 5.1") || has("Windows XP") then Choice("Windows", "Windows", Fixed("XP"))
    else if has("Windows NT 5.01") then Choice("Windows", "Windows", Fixed("2000 (SP1)"))
    else if has("Windows NT 5.0") || has("Windows NT5") || has("Windows 2000") then Choice("Windows", "Windows", Fixed("2000"))
    else Choice("Windows", "Windows", NoVersion)
  }

  function MacChoice(t: Tests): (c: Choice)
    ensures c.code == "Apple"
  {
    var has := t.has;
    if has("Mac OS X") || has("Mac OSX") then
      if has("iPhone") then Choice("Apple", "iOS", Apple("iphone os", 10, true))
      else if has("iPad") then Choice("Apple", "iOS", Apple("cpu os", 7, true))
      else if has("Mac OS X") then Choice("Apple", "Mac OS X", Apple("os x", 5, false))
      else Choice("Apple", "Mac OS X", Apple("osx", 4, false))
    else if has("Darwin") then Choice("Apple", "Mac OS Darwin", NoVersion)
    else Choice("Apple", "Macintosh", NoVersion)
  }

  /** The ordered operating-system tests of `get_os`; `stripos` and the literal regexes test the same words. */
  function OsChoice(t: Tests): (c: Choice)
    ensures c.code != ""
  {
    var has := t.has;
    if WindowsMarker(t) then WindowsChoice(t)
    else if has("Android") && has("HarmonyOS") then Choice("HarmonyOS", "HarmonyOS", NoVersion)
    else if has("Android") then Choice("Android", "Android", Group("Android", SepRun))
    else if has("Mac") || has("Darwin") then MacChoice(t)
    else if t.arch then Choice("Arch-Linux", "Arch Linux", NoVersion)
    else if has("BlackBerry") then Choice("BlackBerry", "BlackBerryOS", NoVersion)
    else if has("CentOS") then Choice("CentOS", "CentOS", Group(".el", CentosTail))
    else if has("CrOS") then Choice("Chrome-OS", "Google Chrome OS", NoVersion)
    else if has("Debian") then Choice("Debian", "Debian GNU/Linux", NoVersion)
    else if has("Fedora") then Choice("Fedora", "Fedora", Group(".fc", Run(AlnumDot)))
    else if has("UOS") then Choice("Uos", "统信UOS", NoVersion)
    else if has("FreeBSD") then Choice("FreeBSD", "FreeBSD", NoVersion)
    else if has("OpenBSD") then Choice("OpenBSD", "OpenBSD", NoVersion)
    else if has("Oracle") then Choice("Oracle-Linux", "Oracle", NoVersion)
    else if has("Red Hat") || has("RedHat") then Choice("Red-Hat", "Red Hat", NoVersion)
    else if has("Solaris") || has("SunOS") then Choice("Solaris", "Solaris", NoVersion)
    else if has("Ubuntu") then Choice("Ubuntu", "Ubuntu", Group("Ubuntu", UbuntuTail))
    else if has("Linux") then Choice("Linux", "GNU/Linux", NoVersion)
    else Choice("Others", "Other System", NoVersion)
  }

  /** `get_os`. */
  function Os(ua: string): (a: Agent)
    ensures a.code != ""
  {
    Finish(ua, OsChoice(TestsOf(ua)))
  }

  /** Any Windows marker wins over every other test: the title starts with `Windows` and the code is a Windows one. */
  lemma OsWindowsFirst(t: Tests)
    requires WindowsMarker(t)
    ensures OsChoice(t).base == "Windows"
    ensures OsChoice(t).code in {"Windows-10", "Windows-8", "Windows-7", "Windows"}
  {
  }

  /** An Android string that also names HarmonyOS is HarmonyOS, without a version. */
  lemma OsHarmonyBeforeAndroid(t: Tests)
    requires !WindowsMarker(t) && t.has("Android") && t.has("HarmonyOS")
    ensures OsChoice(t) == Choice("HarmonyOS", "HarmonyOS", NoVersion)
  {
  }

  /** No operating-system test matches. */
  predicate NoOsMarker(t: Tests) {
    var has := t.has;
    !WindowsMarker(t) && !has("Android") && !has("Mac") && !has("Darwin") && !t.arch &&
    !has("BlackBerry") && !has("CentOS") && !has("CrOS") && !has("Debian") &&
    !has("Fedora") && !has("UOS") && !has("FreeBSD") && !has("OpenBSD") &&
    !has("Oracle") && !has("Red Hat") && !has("RedHat") && !has("Solaris") &&
    !has("SunOS") && !has("Ubuntu") && !has("Linux")
  }

  /** The fallback `{Others, Other System}` is taken exactly when no test matches. */
  lemma OsFallback(t: Tests)
    ensures NoOsMarker(t) <==> OsChoice(t).code == "Others"
    ensures NoOsMarker(t) ==> OsChoice(t) == Choice("Others", "Other System", NoVersion)
  {
  }

  /** On a concrete string: a Windows marker gives a Windows title, and no marker gives the fallback pair. */
  lemma OsOfString(ua: string)
    ensures WindowsMarker(TestsOf(ua)) ==> StartsWith(Os(ua).title, "Windows")
    ensures NoOsMarker(TestsOf(ua)) ==> Os(ua) == Agent("Others", "Other System")
  {
    var t := TestsOf(ua);
    OsFallback(t);
    if WindowsMarker(t) {
      OsWindowsFirst(t);
    }
  }

  // ---------------------------------------------------------------------
  // Browser

  predicate EdgeMarker(t: Tests) {
    t.has("EdgA") || t.has("Edg") || t.has("Edge")
  }

  /** The ordered browser tests of `get_browser_name`. */
  function BrowserChoice(t: Tests): (c: Choice)
    ensures c.code != ""
  {
    var has := t.has;
    if has("360se") then Choice("360", "360 安全浏览器", NoVersion)
    else if has("baidubrowser") || has(" Spark") then Choice("BaiduBrowser", "百度浏览器", After("Browser"))
    else if has("SE ") && has("MetaSr") then Choice("Sogou-Explorer", "搜狗高速浏览器", NoVersion)
    else if t.qq then Choice("qq", "手机QQ", After("QQ"))
    else if has("baiduboxapp") then Choice("baidu", "百度APP", After("baiduboxapp"))
    else if has("QQBrowser") || has("MQQBrowser") then Choice("QQBrowser", "QQ 浏览器", After("QQBrowser"))
    else if has("chromeframe") then Choice("Chrome", "Google Chrome Frame", After("chromeframe"))
    else if has("Chromium") then Choice("Chrome", "Chromium", After("Chromium"))
    else if has("CrMo") then Choice("Chrome", "Google Chrome Mobile", After("CrMo"))
    else if has("CriOS") then Choice("Chrome", "Google Chrome for iOS", After("CriOS"))
    else if has("Quark") || has(" QuarkPC") then Choice("browser", "Quark浏览器", After("Quark"))
    else if has("Maxthon") then Choice("Maxthon", "傲游浏览器", After("Maxthon"))
    else if has("HeyTapBrowser") then Choice("OPPO-Browser", "欢太浏览器", After("HeyTapBrowser"))
    else if has("ViVOBrowser") then Choice("vivo", "ViVO浏览器", After("ViVOBrowser"))
    else if has("HuaweiBrowser") then Choice("huawei", "华为浏览器", After("HuaweiBrowser"))
    else if has("MiuiBrowser") then Choice("MIUI-Browser", "小米浏览器", After("MiuiBrowser"))
    else if has("MobileLenovoBrowser") then Choice("Lenovobrowser", "Lenovo Browser", After("MobileLenovoBrowser"))
    else if has("SamsungBrowser") then Choice("samsung", "Samsung Browser", After("SamsungBrowser"))
    else if has("TheWorld") then Choice("TheWorld", "世界之窗浏览器", NoVersion)
    else if has("UBrowser") then Choice("UC", "UC 浏览器", After("UBrowser"))
    else if has("UCBrowser") then Choice("UC", "UC 浏览器", After("UCBrowser"))
    else if has("UC Browser") then Choice("UC", "UC 浏览器", After("UC Browser"))
    else if has("UCWEB") then Choice("UC", "UC 浏览器", After("UCWEB"))
    else LaterBrowserChoice(t)
  }

  /** The second half of `get_browser_name`'s tests, from BlackBerry to the fallback. */
  function LaterBrowserChoice(t: Tests): (c: Choice)
    ensures c.code != ""
    ensures c.code == "Others" <==> c == Choice("Others", "Other Browser", NoVersion)
    ensures c.source.NoVersion? || c.source.After?
  {
    var has := t.has;
    if has("BlackBerry") then Choice("BlackBerry", "BlackBerry", NoVersion)
    else if has("Coast") then Choice("Opera", "Coast", After("Coast"))
    else if has("IEMobile") then Choice("IE", "IE Mobile", NoVersion)
    else if has("LG Browser") then Choice("LG", "LG Web Browser", After("Browser"))
    else if has("Navigator") then Choice("Netscape", "Netscape Navigator", NoVersion)
    else if has("Netscape") then Choice("Netscape", "Netscape", NoVersion)
    else if has("Nintendo 3DS") then Choice("Nintendo", "Nintendo 3DS", NoVersion)
    else if has("NintendoBrowser") then Choice("Nintendo", "Nintendo Browser", After("Browser"))
    else if has("NokiaBrowser") then Choice("Nokia", "Nokia Browser", After("Browser"))
    else if has("MicroMessenger") then Choice("WeChat", "手机微信", After("MicroMessenger"))
    else if has("AlipayClient") then Choice("Alipay", "支付宝", After("AlipayClient"))
    else if has("Opera Mini") then Choice("Opera", "Opera Mini", NoVersion)
    else if has("Opera Mobi") then Choice("Opera", "Opera Mobile", NoVersion)
    else if has("Opera") || has("OPR") then
      Choice("Opera", "Opera", if has("Version") then After("Version") else if has("OPR") then After("OPR") else After("Opera"))
    else if has("PlayStation 4") then Choice("PS4", "PS4 Web Browser", NoVersion)
    else if has("SEMC-Browser") then Choice("Sony", "SEMC Browser", After("SEMC-Browser"))
    else if has("Series60") && !has("Symbian") then Choice("Nokia", "Nokia S60", After("Series60"))
    else if has("TencentTraveler") then Choice("QQBrowser", "TT 浏览器", After("TencentTraveler"))
    else if EdgeMarker(t) then Choice("Edge", "Microsoft Edge", After("Edge"))
    else if has("Chrome") then Choice("Chrome", "Google Chrome", After("Chrome"))
    else if has("Safari") && !has("Nokia") then Choice("Safari", "Safari", if has("Version") then After("Version") else NoVersion)
    else if has("Firefox") then Choice("Firefox", "Firefox", After("Firefox"))
    else if has("MSIE") || has("Trident") then Choice("IE", "Internet Explorer", if t.ieRv then After(" rv") else After("MSIE"))
    else if has("Mozilla") then Choice("Mozilla", "Mozilla", NoVersion)
    else Choice("Others", "Other Browser", NoVersion)
  }

  /** `get_browser_name`. */
  function Browser(ua: string): (a: Agent)
    ensures a.code != ""
  {
    Finish(ua, BrowserChoice(TestsOf(ua)))
  }

  /** An Edge marker is tested before Chrome, so such a string is never labelled Google Chrome. */
  lemma EdgeBeforeChrome(t: Tests)
    requires EdgeMarker(t)
    ensures BrowserChoice(t).base != "Google Chrome"
  {
  }

  /** Every browser version is read by `get_browser_version`, or there is none. */
  lemma BrowserVersionSource(t: Tests)
    ensures BrowserChoice(t).source.NoVersion? || BrowserChoice(t).source.After?
  {
  }

  /** The browser fallback is the only branch with code `Others`, and it has no version. */
  lemma BrowserFallback(t: Tests)
    ensures BrowserChoice(t).code == "Others" <==> BrowserChoice(t) == Choice("Others", "Other Browser", NoVersion)
  {
  }

  /** A version after `title/` that is missing or PHP-empty leaves the title bare. */
  lemma BrowserTitleBare(ua: string)
    requires BrowserChoice(TestsOf(ua)).source.After?
    requires BrowserVersion(ua, BrowserChoice(TestsOf(ua)).source.title) == ""
    ensures Browser(ua).title == BrowserChoice(TestsOf(ua)).base
  {
  }

  // ---------------------------------------------------------------------
  // The label

  /**
   * `get_ua_html`: '' when the theme setting `enable_user_agent` is off,
   * else the two escaped titles separated by ` / `.
   */
  function UaHtml(ua: string, theme: Setup.Settings, escHtml: string -> string): (r: string)
    ensures !Setup.Enabled(theme, "enable_user_agent") <==> r == ""
  {
    if !Setup.Enabled(theme, "enable_user_agent") then ""
    else
      "<span class=\"ua-info\"><span class=\"ua-text\">" + escHtml(Os(ua).title) +
      "</span><span class=\"ua-divider\"> / </span><span class=\"ua-text\">" + escHtml(Browser(ua).title) +
      "</span></span>"
  }
}
