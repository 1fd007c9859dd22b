/**
 * The settings cache, the feature loader, the posts pagination and the two
 * small formatters of the theme's core setup.
 */
module Setup {
  import opened Util

  // ---------------------------------------------------------------------
  // The settings manager

  /** One stored option: an array of fields. */
  type Settings = map<string, Value>

  /** `$settings[$key] ?? $default`: a field that is missing or null gives the default. */
  function FieldOr(settings: Settings, key: string, default: Value): (r: Value)
    ensures key !in settings ==> r == default
    ensures key in settings && settings[key] != Null ==> r == settings[key]
    ensures r == Null ==> default == Null
    ensures r != default ==> key in settings && r == settings[key]
  {
    if key in settings && settings[key] != Null then settings[key] else default
  }

  /** `is_enabled`: the field read with a null default is not PHP-empty. */
  predicate Enabled(settings: Settings, key: string) {
    !EmptyValue(FieldOr(settings, key, Null))
  }

  /** A field is enabled exactly when it is present and not PHP-empty. */
  lemma EnabledIff(settings: Settings, key: string)
    ensures Enabled(settings, key) <==> key in settings && !EmptyValue(settings[key])
  {
  }

  /** What `get` answers: the cached value, else the stored option, else the default. */
  function CachedRead(cache: map<string, Settings>, options: map<string, Settings>, name: string, default: Settings): (r: Settings)
    ensures name in cache ==> r == cache[name]
    ensures name !in cache && name in options ==> r == options[name]
    ensures name !in cache && name !in options ==> r == default
  {
    if name in cache then cache[name] else if name in options then options[name] else default
  }

  /** The cache agrees with the options table wherever the table holds the option. */
  predicate CoherentWith(cache: map<string, Settings>, options: map<string, Settings>) {
    forall n :: n in cache && n in options ==> cache[n] == options[n]
  }

  /**
   * While the cache is coherent, reading a stored option through the
   * cache gives the stored value, whatever default the caller passes.
   */
  lemma CoherentReadIsStored(cache: map<string, Settings>, options: map<string, Settings>, name: string, d1: Settings, d2: Settings)
    requires CoherentWith(cache, options)
    requires name in options
    ensures CachedRead(cache, options, name, d1) == options[name]
    ensures CachedRead(cache, options, name, d1) == CachedRead(cache, options, name, d2)
  {
  }

  /** Once an option is cached, the default passed to later reads is ignored. */
  lemma CachedIgnoresDefault(cache: map<string, Settings>, options: map<string, Settings>, name: string, d1: Settings, d2: Settings)
    requires name in cache
    ensures CachedRead(cache, options, name, d1) == CachedRead(cache, options, name, d2)
  {
  }

  /**
   * `Paper_Settings_Manager`: a per-request cache of option arrays in
   * front of the WordPress options table.
   */
  class SettingsManager {
    /** `self::$cache`, from option name to the array last read or written. */
    var cache: map<string, Settings>
    /** The options table behind `get_option` and `update_option`. */
    var options: map<string, Settings>

    ghost predicate Coherent()
      reads this
    {
      CoherentWith(cache, options)
    }

    constructor (options: map<string, Settings>)
      ensures this.options == options && cache == map[]
      ensures Coherent()
    {
      this.options := options;
      cache := map[];
    }

    /** `get`: reads the option only when it is not cached yet, and caches what it read. */
    method Get(name: string, default: Settings) returns (r: Settings)
      modifies this
      ensures r == CachedRead(old(cache), old(options), name, default)
      ensures options == old(options)
      ensures cache == old(cache)[name := r]
      ensures old(Coherent()) ==> Coherent()
    {
      if name !in cache {
        var stored := if name in options then options[name] else default;
        cache := cache[name := stored];
      }
      r := cache[name];
    }

    /** `get_field`: one field of the cached option, or the default when it is missing or null. */
    method GetField(name: string, key: string, default: Value) returns (r: Value)
      modifies this
      ensures options == old(options)
      ensures cache == old(cache)[name := CachedRead(old(cache), old(options), name, map[])]
      ensures r == FieldOr(cache[name], key, default)
      ensures old(Coherent()) ==> Coherent()
    {
      var settings := Get(name, map[]);
      r := FieldOr(settings, key, default);
    }

    /** `is_enabled`: the field is present and not PHP-empty. */
    method IsEnabled(name: string, key: string) returns (r: bool)
      modifies this
      ensures options == old(options)
      ensures cache == old(cache)[name := CachedRead(old(cache), old(options), name, map[])]
      ensures r <==> key in cache[name] && !EmptyValue(cache[name][key])
      ensures old(Coherent()) ==> Coherent()
    {
      var v := GetField(name, key, Null);
      r := !EmptyValue(v);
      EnabledIff(cache[name], key);
    }

    /**
     * `update`: `written` is what `update_option` reports. The table and the
     * cache both take the new value when it does, and neither changes when
     * it does not.
     */
    method Update(name: string, value: Settings, written: bool) returns (r: bool)
      modifies this
      ensures r == written
      ensures written ==> options == old(options)[name := value] && cache == old(cache)[name := value]
      ensures !written ==> options == old(options) && cache == old(cache)
      ensures old(Coherent()) ==> Coherent()
    {
      if written {
        options := options[name := value];
        cache := cache[name := value];
      }
      r := written;
    }

    /** `clear_cache`: no name empties the cache, a name drops only that entry. */
    method ClearCache(name: Option<string>)
      modifies this
      ensures options == old(options)
      ensures name.None? ==> cache == map[]
      ensures name.Some? ==> cache == old(cache) - {name.value}
      ensures old(Coherent()) ==> Coherent()
    {
      if name.None? {
        cache := map[];
      } else {
        cache := cache - {name.value};
      }
    }

    /** `get_multiple`: `get` with the empty default for each name in turn. */
    method GetMultiple(names: seq<string>) returns (results: map<string, Settings>)
      modifies this
      ensures options == old(options)
      ensures results.Keys == set n | n in names
      ensures forall n :: n in results ==> results[n] == CachedRead(old(cache), old(options), n, map[])
      ensures cache == old(cache) + results
      ensures old(Coherent()) ==> Coherent()
    {
      results := map[];
      var i := 0;
      while i < |names|
        invariant i <= |names|
        invariant options == old(options)
        invariant forall n :: n in results <==> n in names[..i]
        invariant forall n :: n in results ==> results[n] == CachedRead(old(cache), old(options), n, map[])
        invariant cache == old(cache) + results
        invariant old(Coherent()) ==> Coherent()
      {
        ghost var before := results;
        var r := Get(names[i], map[]);
        results := results[names[i] := r];
        UpdateUnion(old(cache), before, names[i], r);
        assert names[..i + 1] == names[..i] + [names[i]];
        i := i + 1;
      }
      assert names[..i] == names;
    }
  }

  lemma UpdateUnion<K, V>(a: map<K, V>, b: map<K, V>, k: K, v: V)
    ensures (a + b)[k := v] == a + b[k := v]
  {
  }

  // ---------------------------------------------------------------------
  // Feature loading

  /** A feature's `enabled` entry: a constant or a settings switch read through the manager. */
  datatype Switch = Always | Never | WhenSetting(option: string, key: string)

  /** One entry of the feature table; a missing `load_in_*` flag counts as true. */
  datatype Feature = Feature(name: string, enabled: Switch, file: string, inAdmin: Option<bool>, inFrontend: Option<bool>)

  /** The theme's feature table, in its order. */
  const Features: seq<Feature> := [
    Feature("rss", Always, "features/rss.php", Some(false), Some(true)),
    Feature("performance", Always, "features/performance.php", Some(true), Some(true)),
    Feature("stats", Always, "features/stats.php", Some(true), Some(true)),
    Feature("image", Always, "features/image.php", Some(false), Some(true)),
    Feature("post-enhancements", Always, "features/post-enhancements.php", Some(true), Some(true)),
    Feature("wddmd", WhenSetting("paper_wp_editor_settings", "enable_wddmds"), "features/wddmd.php", Some(true), Some(true)),
    Feature("shortcodes", Always, "features/shortcodes.php", Some(true), Some(true)),
    Feature("editor-functions", Always, "features/editor-functions.php", Some(true), Some(false)),
    Feature("excerpt", Always, "features/excerpt.php", Some(false), Some(true)),
    Feature("user-agent", WhenSetting("paper_wp_theme_settings", "enable_user_agent"), "features/user-agent.php", Some(true), Some(true))
  ]

  function Flag(f: Option<bool>): bool {
    if f.Some? then f.value else true
  }

  /** Whether the feature's switch is on; `enabled` answers a settings switch. */
  predicate SwitchOn(s: Switch, enabled: (string, string) -> bool) {
    match s
    case Always => true
    case Never => false
    case WhenSetting(option, key) => enabled(option, key)
  }

  /** An enabled feature loads in the admin, on the front end, or on any AJAX request, as its flags allow. */
  predicate ShouldLoad(f: Feature, isAdmin: bool, ajax: bool, enabled: (string, string) -> bool) {
    SwitchOn(f.enabled, enabled) &&
    ((isAdmin && Flag(f.inAdmin)) || (!isAdmin && Flag(f.inFrontend)) || ajax)
  }

  /** The files `paper_wp_autoload_features` requires, in table order. */
  function LoadedFiles(config: seq<Feature>, isAdmin: bool, ajax: bool, enabled: (string, string) -> bool, fileExists: string -> bool): (r: seq<string>)
    ensures |r| <= |config|
  {
    if config == [] then []
    else
      var f := config[|config| - 1];
      var rest := LoadedFiles(config[..|config| - 1], isAdmin, ajax, enabled, fileExists);
      if ShouldLoad(f, isAdmin, ajax, enabled) && fileExists(f.file) then rest + [f.file] else rest
  }

  /** A file is required exactly when some feature naming it should load and the file exists. */
  lemma {:induction false} LoadedFilesIff(config: seq<Feature>, isAdmin: bool, ajax: bool, enabled: (string, string) -> bool, fileExists: string -> bool, file: string)
    ensures file in LoadedFiles(config, isAdmin, ajax, enabled, fileExists) <==>
      exists i :: 0 <= i < |config| && config[i].file == file && ShouldLoad(config[i], isAdmin, ajax, enabled) && fileExists(file)
    decreases |config|
  {
    if config != [] {
      var init := config[..|config| - 1];
      LoadedFilesIff(init, isAdmin, ajax, enabled, fileExists, file);
      assert forall i :: 0 <= i < |init| ==> init[i] == config[i];
    }
  }

  /** On an AJAX request every enabled feature whose file exists is loaded, admin or not. */
  lemma AjaxLoadsEveryEnabled(config: seq<Feature>, isAdmin: bool, enabled: (string, string) -> bool, fileExists: string -> bool, i: int)
    requires 0 <= i < |config| && SwitchOn(config[i].enabled, enabled) && fileExists(config[i].file)
    ensures config[i].file in LoadedFiles(config, isAdmin, true, enabled, fileExists)
  {
    LoadedFilesIff(config, isAdmin, true, enabled, fileExists, config[i].file);
  }

  /** A disabled feature is never loaded through its own entry. */
  lemma DisabledNotLoaded(config: seq<Feature>, isAdmin: bool, ajax: bool, enabled: (string, string) -> bool, fileExists: string -> bool, file: string)
    requires forall i :: 0 <= i < |config| && config[i].file == file ==> !SwitchOn(config[i].enabled, enabled)
    ensures file !in LoadedFiles(config, isAdmin, ajax, enabled, fileExists)
  {
    LoadedFilesIff(config, isAdmin, ajax, enabled, fileExists, file);
  }

  /** Outside AJAX, the admin never loads a feature whose only entry says `load_in_admin => false`. */
  lemma AdminSkipsFrontendOnly(config: seq<Feature>, enabled: (string, string) -> bool, fileExists: string -> bool, i: int)
    requires 0 <= i < |config| && config[i].inAdmin == Some(false)
    requires forall j :: 0 <= j < |config| && config[j].file == config[i].file ==> j == i
    ensures config[i].file !in LoadedFiles(config, true, false, enabled, fileExists)
  {
    LoadedFilesIff(config, true, false, enabled, fileExists, config[i].file);
  }

  /** In the theme's table the excerpt feature is front-end only: the admin loads it only for AJAX. */
  lemma ExcerptNotInAdmin(enabled: (string, string) -> bool, fileExists: string -> bool)
    ensures "features/excerpt.php" !in LoadedFiles(Features, true, false, enabled, fileExists)
    ensures fileExists("features/excerpt.php") ==> "features/excerpt.php" in LoadedFiles(Features, true, true, enabled, fileExists)
  {
    assert Features[8].file == "features/excerpt.php";
    forall j | 0 <= j < |Features| && Features[j].file == Features[8].file
      ensures j == 8
    {
    }
    AdminSkipsFrontendOnly(Features, enabled, fileExists, 8);
    if fileExists("features/excerpt.php") {
      AjaxLoadsEveryEnabled(Features, true, enabled, fileExists, 8);
    }
  }

  /** `paper_wp_autoload_features`: walks the table and requires each file that should load and exists. */
  method AutoloadFeatures(config: seq<Feature>, isAdmin: bool, ajax: bool, enabled: (string, string) -> bool, fileExists: string -> bool)
    returns (loaded: seq<string>)
    ensures loaded == LoadedFiles(config, isAdmin, ajax, enabled, fileExists)
  {
    loaded := [];
    var i := 0;
    while i < |config|
      invariant i <= |config|
      invariant loaded == LoadedFiles(config[..i], isAdmin, ajax, enabled, fileExists)
    {
      var f := config[i];
      assert config[..i + 1][..i] == config[..i];
      if ShouldLoad(f, isAdmin, ajax, enabled) && fileExists(f.file) {
        loaded := loaded + [f.file];
      }
      i := i + 1;
    }
    assert config[..i] == config;
  }

  // ---------------------------------------------------------------------
  // Posts pagination

  /** One piece of the pagination bar. */
  datatype PageItem =
    | PrevLink(href: string)
    | PrevDisabled
    | PageLink(page: nat, href: string)
    | CurrentPage(page: nat)
    | NextLink(href: string)
    | NextDisabled

  /** `absint(get_query_var('paged'))`, or 1 when the query variable is 0. */
  function PagedOf(queryPaged: int): (r: nat)
    ensures queryPaged == 0 ==> r == 1
    ensures queryPaged != 0 ==> r == queryPaged || r == -queryPaged
  {
    if queryPaged == 0 then 1 else if queryPaged < 0 then -queryPaged else queryPaged
  }

  /** The escaped link to a page; page 1 links through `get_pagenum_link(0)`. */
  function PageHref(i: nat, pageLink: int -> string, escUrl: string -> string): string {
    if i == 1 then escUrl(pageLink(0)) else escUrl(pageLink(i))
  }

  function PrevItem(paged: nat, pageLink: int -> string, escUrl: string -> string): PageItem {
    if paged > 1 then PrevLink(PageHref(paged - 1, pageLink, escUrl)) else PrevDisabled
  }

  function NextItem(paged: nat, max: int, pageLink: int -> string, escUrl: string -> string): PageItem {
    if paged < max then NextLink(escUrl(pageLink(paged + 1))) else NextDisabled
  }

  function NumberItem(i: nat, paged: nat, pageLink: int -> string, escUrl: string -> string): PageItem {
    if i == paged then CurrentPage(i) else PageLink(i, PageHref(i, pageLink, escUrl))
  }

  /** The numbered pieces for pages `1..n`. */
  function NumberItems(n: nat, paged: nat, pageLink: int -> string, escUrl: string -> string): (r: seq<PageItem>)
    ensures |r| == n
  {
    if n == 0 then [] else NumberItems(n - 1, paged, pageLink, escUrl) + [NumberItem(n, paged, pageLink, escUrl)]
  }

  /** Entry `k` of the numbered pieces is page `k + 1`. */
  lemma {:induction false} NumberItemsAt(n: nat, paged: nat, pageLink: int -> string, escUrl: string -> string, k: nat)
    requires k < n
    ensures NumberItems(n, paged, pageLink, escUrl)[k] == NumberItem(k + 1, paged, pageLink, escUrl)
  {
    if k < n - 1 {
      NumberItemsAt(n - 1, paged, pageLink, escUrl, k);
    }
  }

  /** The whole bar: previous, pages `1..max`, next. */
  function Items(max: nat, paged: nat, pageLink: int -> string, escUrl: string -> string): (r: seq<PageItem>)
    ensures |r| == max + 2
  {
    [PrevItem(paged, pageLink, escUrl)] + NumberItems(max, paged, pageLink, escUrl) + [NextItem(paged, max, pageLink, escUrl)]
  }

  /**
   * Previous is disabled exactly on the first page and next exactly from
   * the last page on; between them every page `1..max` appears once, in
   * order, and it is the `current` span exactly when it is the page shown.
   */
  lemma ItemsShape(max: nat, paged: nat, pageLink: int -> string, escUrl: string -> string)
    ensures var r := Items(max, paged, pageLink, escUrl);
      (r[0] == PrevDisabled <==> paged <= 1) &&
      (r[max + 1] == NextDisabled <==> paged >= max) &&
      (forall k :: 1 <= k <= max ==> (r[k].PageLink? || r[k].CurrentPage?) && r[k].page == k && (r[k].CurrentPage? <==> k == paged))
  {
    var r := Items(max, paged, pageLink, escUrl);
    forall k | 1 <= k <= max
      ensures (r[k].PageLink? || r[k].CurrentPage?) && r[k].page == k && (r[k].CurrentPage? <==> k == paged)
    {
      NumberItemsAt(max, paged, pageLink, escUrl, k - 1);
    }
  }

  /** Exactly one page is marked current when the page shown is in range, and none otherwise. */
  lemma OneCurrentPage(max: nat, paged: nat, pageLink: int -> string, escUrl: string -> string)
    ensures var r := Items(max, paged, pageLink, escUrl);
      (forall j, k :: 0 <= j < |r| && 0 <= k < |r| && r[j].CurrentPage? && r[k].CurrentPage? ==> j == k) &&
      ((exists k :: 0 <= k < |r| && r[k].CurrentPage?) <==> 1 <= paged <= max)
  {
    var r := Items(max, paged, pageLink, escUrl);
    ItemsShape(max, paged, pageLink, escUrl);
    if 1 <= paged <= max {
      assert r[paged].CurrentPage?;
    }
  }

  function ItemHtml(item: PageItem, prevText: string, nextText: string): string {
    match item
    case PrevLink(href) => "<a class=\"prev page-numbers\" href=\"" + href + "\">" + prevText + "</a>"
    case PrevDisabled => "<span class=\"prev page-numbers disabled\" aria-disabled=\"true\">" + prevText + "</span>"
    case PageLink(i, href) => "<a class=\"page-numbers\" href=\"" + href + "\">" + NatToString(i) + "</a>"
    case CurrentPage(i) => "<span class=\"page-numbers current\" aria-current=\"page\">" + NatToString(i) + "</span>"
    case NextLink(href) => "<a class=\"next page-numbers\" href=\"" + href + "\">" + nextText + "</a>"
    case NextDisabled => "<span class=\"next page-numbers disabled\" aria-disabled=\"true\">" + nextText + "</span>"
  }

  /** The renderer of one piece, given the two link texts. */
  function ItemRenderer(prevText: string, nextText: string): PageItem -> string {
    item => ItemHtml(item, prevText, nextText)
  }

  const NavOpen := "<nav class=\"navigation pagination\" role=\"navigation\" aria-label=\"文章分页\"><div class=\"nav-links\">"
  const NavClose := "</div></nav>"

  /** A caller's argument when given, else the default link text. */
  function ArgOr(args: map<string, string>, key: string, default: string): string {
    if key in args then args[key] else default
  }

  /**
   * `paper_wp_custom_posts_pagination`: nothing for a single page;
   * otherwise the bar of `Items` between the navigation wrappers.
   */
  method CustomPostsPagination(maxPages: int, queryPaged: int, args: map<string, string>, pageLink: int -> string, escUrl: string -> string)
    returns (html: string)
    ensures maxPages <= 1 ==> html == ""
    ensures maxPages > 1 ==>
      (html == NavOpen + ConcatMap(Items(maxPages, PagedOf(queryPaged), pageLink, escUrl),
        ItemRenderer(ArgOr(args, "prev_text", "&laquo; 上一页"), ArgOr(args, "next_text", "下一页 &raquo;"))) + NavClose)
  {
    if maxPages <= 1 {
      return "";
    }
    var paged := PagedOf(queryPaged);
    var max: nat := maxPages;
    var render := ItemRenderer(ArgOr(args, "prev_text", "&laquo; 上一页"), ArgOr(args, "next_text", "下一页 &raquo;"));
    var prev := PrevItem(paged, pageLink, escUrl);
    var next := NextItem(paged, max, pageLink, escUrl);
    var pages := PagesHtml(max, paged, pageLink, escUrl, render);
    var bar := render(prev) + pages + render(next);
    ConcatMapWrap(prev, NumberItems(max, paged, pageLink, escUrl), next, render);
    html := NavOpen + bar + NavClose;
  }

  /** The `for` loop over pages `1..max`: one number piece per page, in order. */
  method PagesHtml(max: nat, paged: nat, pageLink: int -> string, escUrl: string -> string, render: PageItem -> string)
    returns (body: string)
    ensures body == ConcatMap(NumberItems(max, paged, pageLink, escUrl), render)
  {
    body := "";
    var i := 1;
    while i <= max
      invariant 1 <= i <= max + 1
      invariant body == ConcatMap(NumberItems(i - 1, paged, pageLink, escUrl), render)
    {
      var item := NumberItem(i, paged, pageLink, escUrl);
      ConcatMapSnoc(NumberItems(i - 1, paged, pageLink, escUrl), item, render);
      body := body + render(item);
      i := i + 1;
    }
  }

  // ---------------------------------------------------------------------
  // Formatters

  /**
   * `paper_wp_format_number`: a non-numeric value is returned unchanged; with
   * no decimals a numeric one becomes the string of its integer part; with
   * decimals it goes to `number_format`.
   */
  function FormatNumber(number: Value, decimals: int, numberFormat: (Value, int) -> string): (r: Value)
    ensures !NumericValue(number) ==> r == number
    ensures NumericValue(number) ==> r.Str?
  {
    if !NumericValue(number) then number
    else if decimals > 0 then Str(numberFormat(number, decimals))
    else Str(IntToString(IntValue(number)))
  }

  /** With no decimals the result is a numeric string whose integer value is the input's. */
  lemma FormatNumberIntegral(number: Value, numberFormat: (Value, int) -> string)
    requires NumericValue(number)
    ensures var r := FormatNumber(number, 0, numberFormat);
      r.Str? && IsNumeric(r.s) && IntVal(r.s) == IntValue(number)
  {
    IntValOfInt(IntValue(number));
  }

  /** The buckets of `paper_wp_get_relative_time`. */
  datatype Span = Minutes | Hours | Days | Months | Years

  datatype Ago = JustNow | Ago(count: nat, span: Span)

  function SpanSeconds(s: Span): nat {
    match s
    case Minutes => 60
    case Hours => 3600
    case Days => 86400
    case Months => 2592000
    case Years => 31536000
  }

  function SpanSuffix(s: Span): string {
    match s
    case Minutes => "分钟前"
    case Hours => "小时前"
    case Days => "天前"
    case Months => "个月前"
    case Years => "年前"
  }

  /** The bucket for a difference of `diff` seconds: under a minute is "just now". */
  function RelativeAgo(diff: int): (a: Ago)
    ensures a.JustNow? <==> diff < 60
    ensures a.Ago? ==> a.count >= 1 && a.count * SpanSeconds(a.span) <= diff < (a.count + 1) * SpanSeconds(a.span)
  {
    if diff < 60 then JustNow
    else if diff < 3600 then Ago(diff / 60, Minutes)
    else if diff < 86400 then Ago(diff / 3600, Hours)
    else if diff < 2592000 then Ago(diff / 86400, Days)
    else if diff < 31536000 then Ago(diff / 2592000, Months)
    else Ago(diff / 31536000, Years)
  }

  /** Each bucket covers the difference range up to the next threshold. */
  lemma RelativeAgoSpan(diff: int)
    ensures var a := RelativeAgo(diff);
      a.Ago? ==>
        SpanSeconds(a.span) <= diff &&
        (a.span == Minutes ==> diff < 3600) &&
        (a.span == Hours ==> diff < 86400) &&
        (a.span == Days ==> diff < 2592000) &&
        (a.span == Months ==> diff < 31536000 && a.count <= 12)
  {
  }

  function SpanRank(s: Span): nat {
    match s
    case Minutes => 1
    case Hours => 2
    case Days => 3
    case Months => 4
    case Years => 5
  }

  /** Buckets in order of age: "just now" first, then by span, then by count. */
  predicate NoLater(a: Ago, b: Ago) {
    a.JustNow? ||
    (b.Ago? && (SpanRank(a.span) < SpanRank(b.span) || (a.span == b.span && a.count <= b.count)))
  }

  lemma DivMonotone(x: int, y: int, d: int)
    requires 0 <= x <= y && d > 0
    ensures x / d <= y / d
  {
    var q, p := x / d, y / d;
    assert q * d <= x && y < (p + 1) * d;
    if q > p {
      MulMonotone(p + 1, q, d);
      assert false;
    }
  }

  lemma MulMonotone(a: int, b: int, d: int)
    requires a <= b && d > 0
    ensures a * d <= b * d
  {
  }

  /** An older timestamp never lands in a younger bucket. */
  lemma RelativeAgoMonotone(d1: int, d2: int)
    requires d1 <= d2
    ensures NoLater(RelativeAgo(d1), RelativeAgo(d2))
  {
    var a, b := RelativeAgo(d1), RelativeAgo(d2);
    if a.Ago? && a.span == b.span {
      DivMonotone(d1, d2, SpanSeconds(a.span));
    }
  }

  function AgoText(a: Ago): string {
    match a
    case JustNow => "刚刚"
    case Ago(count, span) => NatToString(count) + SpanSuffix(span)
  }

  /** `paper_wp_get_relative_time`; the current time is a parameter. */
  function RelativeTime(now: int, timestamp: int): (r: string)
    ensures now - timestamp < 60 <==> r == "刚刚"
  {
    var a := RelativeAgo(now - timestamp);
    if a.Ago? then
      assert AgoText(a)[0] == NatToString(a.count)[0];
      AgoText(a)
    else
      AgoText(a)
  }

  lemma SuffixesDistinct(s: Span, t: Span)
    requires SpanSuffix(s) == SpanSuffix(t)
    ensures s == t
  {
  }

  /** Different buckets read differently: the text determines the bucket. */
  lemma AgoTextInjective(a: Ago, b: Ago)
    requires AgoText(a) == AgoText(b)
    ensures a == b
  {
    if a.Ago? && b.Ago? {
      CountedTextInjective(a.count, a.span, b.count, b.span);
    } else if a.Ago? {
      CountedTextNotJustNow(a);
    } else if b.Ago? {
      CountedTextNotJustNow(b);
    }
  }

  /** A counted text starts with a digit, so it is never "just now". */
  lemma CountedTextNotJustNow(a: Ago)
    requires a.Ago?
    ensures AgoText(a) != "刚刚"
  {
    assert AgoText(a)[0] == NatToString(a.count)[0];
  }

  /** The count's digits end where the unit word begins, so both read back. */
  lemma CountedTextInjective(m: nat, s: Span, n: nat, t: Span)
    requires NatToString(m) + SpanSuffix(s) == NatToString(n) + SpanSuffix(t)
    ensures m == n && s == t
  {
    var dm, dn := NatToString(m), NatToString(n);
    IntegerPartOf(dm, SpanSuffix(s));
    IntegerPartOf(dn, SpanSuffix(t));
    NatToStringInjective(m, n);
    assert SpanSuffix(s) == (dm + SpanSuffix(s))[|dm|..];
    SuffixesDistinct(s, t);
  }
}
