/**
 * The settings validators of core/admin.php: the generic sanitizer that
 * rebuilds an option from the settings configuration, the module,
 * advertisement, friend-link and back-office sanitizers, the version
 * comparison of the update checker, and the choice of the active tab.
 *
 * `sanitize_text_field`, `wp_kses_post` and `esc_url_raw` are parameters
 * with no assumed behaviour; a submitted form is a map from field ids to
 * strings.
 */
module Admin {
  import opened Util
  import Excerpt

  // ---------------------------------------------------------------------
  // The settings configuration

  datatype Kind = Checkbox | Select(options: seq<string>) | Text | Textarea | Custom

  datatype Field = Field(id: string, kind: Kind)

  /** A tab of `paper_wp_get_settings_config`: its key, its option and its fields, in order. */
  datatype Tab = Tab(key: string, option: string, fields: seq<Field>)

  function Checkboxes(ids: seq<string>): (r: seq<Field>)
    ensures |r| == |ids| && forall i :: 0 <= i < |ids| ==> r[i] == Field(ids[i], Checkbox)
  {
    if ids == [] then [] else [Field(ids[0], Checkbox)] + Checkboxes(ids[1..])
  }

  /** The checkbox fields that `paper_wp_module_settings_sanitize` handles. */
  const ModuleCheckboxes: seq<string> := [
    "show_reading_ranking", "show_like_ranking", "show_comment_ranking",
    "show_random_posts", "show_recent_album", "show_recommended_posts",
    "show_tag_cloud", "show_search", "show_categories", "show_archives",
    "show_friend_links", "show_sidebar_links",
    "enable_user_agent", "enable_sticky_posts"]

  const ImageModes: seq<string> := ["all", "random", "first", "none"]

  const AdFlags: seq<string> := ["show_header_ad", "show_post_bottom_ad", "show_sidebar_ad"]
  const AdCodes: seq<string> := ["header_ad_code", "post_bottom_ad_code", "sidebar_ad_code"]

  const AdminFlags: seq<string> := [
    "disable_admin_bar_subscribers", "restrict_admin_access", "disable_dashboard_page",
    "clean_dashboard", "clean_admin_bar", "clean_footer",
    "remove_menu_comments", "remove_menu_tools",
    "optimize_heartbeat", "increase_autosave_interval", "hide_admin_notices", "disable_file_editor"]

  /** `paper_wp_get_settings_config`: the tabs and their fields, in order. */
  function SettingsConfig(): seq<Tab> {
    [Tab("modules", "paper_wp_theme_settings",
         Checkboxes(ModuleCheckboxes) +
         [Field("excerpt_word_limit", Text), Field("excerpt_image_mode", Select(ImageModes))]),
     Tab("effects", "paper_wp_effects_settings",
         [Field("theme_mode", Select(["auto", "light", "dark"])),
          Field("site_title", Text), Field("site_logo", Text), Field("site_subtitle", Text),
          Field("site_start_date", Text), Field("enable_sponsor", Checkbox),
          Field("sponsor_wechat_qr", Text), Field("sponsor_alipay_qr", Text),
          Field("stats_code", Textarea), Field("footer_html", Textarea)]),
     Tab("editor", "paper_wp_editor_settings",
         Checkboxes(["disable_default_editor", "enable_wddmds", "disable_emojis"])),
     Tab("ads", "paper_wp_ad_settings",
         [Field("show_header_ad", Checkbox), Field("header_ad_code", Textarea),
          Field("show_post_bottom_ad", Checkbox), Field("post_bottom_ad_code", Textarea),
          Field("show_sidebar_ad", Checkbox), Field("sidebar_ad_code", Textarea)]),
     Tab("friend-links", "paper_wp_friend_links", [Field("friend_links_list", Custom)]),
     Tab("cache", "paper_wp_cache_settings", []),
     Tab("admin", "paper_wp_admin_settings", Checkboxes(AdminFlags)),
     Tab("about", "paper_wp_about_settings", [])]
  }

  /** All fields of all tabs, tab by tab. */
  function Fields(config: seq<Tab>): seq<Field>
    decreases |config|
  {
    if config == [] then [] else Fields(config[..|config| - 1]) + config[|config| - 1].fields
  }

  // ---------------------------------------------------------------------
  // The generic sanitizer

  /** PHP `key($options)`: the first option, `null` for none. */
  function FirstKey(options: seq<string>): Value {
    if options == [] then Null else Str(options[0])
  }

  /**
   * What `paper_wp_checkbox_sanitize_callback` stores for one field, or
   * nothing for a custom field: a checkbox is 1 when submitted and 0
   * otherwise; a select keeps a submitted value that is one of its options
   * and falls back to the first option; text is cleaned, a textarea
   * filtered, and both are empty when not submitted.
   */
  function SanitizeField(f: Field, input: map<string, string>, clean: string -> string, kses: string -> string): (r: Option<Value>)
    ensures r.None? <==> f.kind.Custom?
    ensures f.kind.Checkbox? ==> r == Some(Num(if f.id in input then 1 else 0))
    ensures f.kind.Select? && f.kind.options != [] ==> r.Some? && r.value.Str? && r.value.s in f.kind.options
    ensures f.kind.Select? && f.id in input && clean(input[f.id]) in f.kind.options ==> r == Some(Str(clean(input[f.id])))
    ensures f.kind.Select? && (f.id !in input || clean(input[f.id]) !in f.kind.options) ==> r == Some(FirstKey(f.kind.options))
    ensures (f.kind.Text? || f.kind.Textarea?) && f.id !in input ==> r == Some(Str(""))
  {
    match f.kind
    case Checkbox => Some(Num(if f.id in input then 1 else 0))
    case Select(options) =>
      if f.id in input && clean(input[f.id]) in options then Some(Str(clean(input[f.id])))
      else Some(FirstKey(options))
    case Text => Some(Str(if f.id in input then clean(input[f.id]) else ""))
    case Textarea => Some(Str(if f.id in input then kses(input[f.id]) else ""))
    case Custom => None
  }

  /** The output after storing the fields in order (a later field of the same id wins). */
  function SanitizeAll(fields: seq<Field>, input: map<string, string>, clean: string -> string, kses: string -> string): map<string, Value>
    decreases |fields|
  {
    if fields == [] then map[]
    else
      var out := SanitizeAll(fields[..|fields| - 1], input, clean, kses);
      var f := fields[|fields| - 1];
      match SanitizeField(f, input, clean, kses)
      case None => out
      case Some(v) => out[f.id := v]
  }

  lemma SanitizeAllSnoc(fields: seq<Field>, f: Field, input: map<string, string>, clean: string -> string, kses: string -> string)
    ensures SanitizeAll(fields + [f], input, clean, kses) ==
      var out := SanitizeAll(fields, input, clean, kses);
      match SanitizeField(f, input, clean, kses)
      case None => out
      case Some(v) => out[f.id := v]
  {
    assert (fields + [f])[..|fields|] == fields;
  }

  /** The ids of the non-custom fields. */
  function StoredIds(fields: seq<Field>): set<string> {
    set i | 0 <= i < |fields| && !fields[i].kind.Custom? :: fields[i].id
  }

  /** The output keys are exactly the ids of the checkbox, select, text and textarea fields. */
  lemma {:induction false} SanitizeAllKeys(fields: seq<Field>, input: map<string, string>, clean: string -> string, kses: string -> string)
    ensures SanitizeAll(fields, input, clean, kses).Keys == StoredIds(fields)
    decreases |fields|
  {
    if fields != [] {
      var init := fields[..|fields| - 1];
      SanitizeAllKeys(init, input, clean, kses);
      var f := fields[|fields| - 1];
      forall id | id in StoredIds(fields)
        ensures id in StoredIds(init) || (id == f.id && !f.kind.Custom?)
      {
        var i :| 0 <= i < |fields| && !fields[i].kind.Custom? && fields[i].id == id;
        if i < |fields| - 1 {
          assert init[i] == fields[i];
        }
      }
      forall id | id in StoredIds(init)
        ensures id in StoredIds(fields)
      {
        var i :| 0 <= i < |init| && !init[i].kind.Custom? && init[i].id == id;
        assert fields[i] == init[i];
      }
      if !f.kind.Custom? {
        assert f.id in StoredIds(fields) by { assert fields[|fields| - 1] == f; }
      }
    }
  }

  /** Each stored value is the one sanitized from the last field of that id. */
  lemma {:induction false} SanitizeAllValue(fields: seq<Field>, i: nat, input: map<string, string>, clean: string -> string, kses: string -> string)
    requires i < |fields| && !fields[i].kind.Custom?
    requires forall j :: i < j < |fields| ==> fields[j].id != fields[i].id
    ensures fields[i].id in SanitizeAll(fields, input, clean, kses)
    ensures SanitizeAll(fields, input, clean, kses)[fields[i].id] == SanitizeField(fields[i], input, clean, kses).value
    decreases |fields|
  {
    var init := fields[..|fields| - 1];
    if i < |fields| - 1 {
      assert init[i] == fields[i];
      SanitizeAllValue(init, i, input, clean, kses);
    }
  }

  /**
   * `paper_wp_checkbox_sanitize_callback`: every field of every tab, in
   * order, stored in a fresh output.
   */
  method CheckboxSanitize(config: seq<Tab>, input: map<string, string>, clean: string -> string, kses: string -> string)
    returns (output: map<string, Value>)
    ensures output == SanitizeAll(Fields(config), input, clean, kses)
  {
    output := map[];
    var t := 0;
    while t < |config|
      invariant t <= |config|
      invariant output == SanitizeAll(Fields(config[..t]), input, clean, kses)
    {
      output := SanitizeTab(output, Fields(config[..t]), config[t].fields, input, clean, kses);
      FieldsSnoc(config, t);
      t := t + 1;
    }
    assert config[..t] == config;
  }

  /** The inner loop: the fields of one tab stored after those of the tabs before it. */
  method SanitizeTab(sofar: map<string, Value>, ghost done: seq<Field>, fields: seq<Field>,
                     input: map<string, string>, clean: string -> string, kses: string -> string)
    returns (output: map<string, Value>)
    requires sofar == SanitizeAll(done, input, clean, kses)
    ensures output == SanitizeAll(done + fields, input, clean, kses)
  {
    output := sofar;
    var k := 0;
    assert done + fields[..0] == done;
    while k < |fields|
      invariant k <= |fields|
      invariant output == SanitizeAll(done + fields[..k], input, clean, kses)
    {
      var f := fields[k];
      assert done + fields[..k + 1] == (done + fields[..k]) + [f];
      SanitizeAllSnoc(done + fields[..k], f, input, clean, kses);
      var v := SanitizeField(f, input, clean, kses);
      if v.Some? {
        output := output[f.id := v.value];
      }
      k := k + 1;
    }
    assert fields[..k] == fields;
  }

  lemma FieldsSnoc(config: seq<Tab>, t: nat)
    requires t < |config|
    ensures Fields(config[..t + 1]) == Fields(config[..t]) + config[t].fields
  {
    assert config[..t + 1][..t] == config[..t];
  }

  // ---------------------------------------------------------------------
  // The module settings

  /** A usable word limit: set, non-empty, numeric and positive. */
  predicate ValidLimit(v: Value) {
    !EmptyValue(v) && NumericValue(v) && IntValue(v) > 0
  }

  /**
   * `paper_wp_module_settings_sanitize`: starting from the stored settings,
   * each module checkbox is 1 when submitted and removed otherwise; a
   * submitted word limit is trimmed and becomes its positive integer value
   * or 500, and a stored one that is not usable becomes 500; a submitted
   * image mode is kept when it is one of the four modes and becomes `all`
   * otherwise; every other stored setting is kept.
   */
  method ModuleSettingsSanitize(existing: map<string, Value>, input: map<string, string>, clean: string -> string)
    returns (output: map<string, Value>)
    ensures forall id :: id in ModuleCheckboxes ==> (id in output <==> id in input)
    ensures forall id :: id in ModuleCheckboxes && id in output ==> output[id] == Num(1)
    ensures forall k :: k in existing && k !in ModuleCheckboxes && k != "excerpt_word_limit" && k != "excerpt_image_mode" ==>
      k in output && output[k] == existing[k]
    ensures forall k :: k in output ==> k in existing || k in ModuleCheckboxes || k == "excerpt_word_limit" || k == "excerpt_image_mode"
    ensures "excerpt_word_limit" in output && ValidLimit(output["excerpt_word_limit"])
    ensures "excerpt_word_limit" in input ==>
      output["excerpt_word_limit"] == Num(Excerpt.WordLimit(Trim(input["excerpt_word_limit"])))
    ensures "excerpt_word_limit" !in input ==>
      output["excerpt_word_limit"] ==
        if "excerpt_word_limit" in existing && ValidLimit(existing["excerpt_word_limit"]) then existing["excerpt_word_limit"] else Num(500)
    ensures "excerpt_image_mode" in input ==>
      var mode := clean(input["excerpt_image_mode"]);
      "excerpt_image_mode" in output && output["excerpt_image_mode"] == Str(if mode in ImageModes then mode else "all")
    ensures "excerpt_image_mode" !in input ==>
      ("excerpt_image_mode" in output <==> "excerpt_image_mode" in existing) &&
      ("excerpt_image_mode" in existing ==> output["excerpt_image_mode"] == existing["excerpt_image_mode"])
  {
    NotModuleCheckboxes();
    output := SanitizeModules(ModuleCheckboxes, existing, input, clean);
  }

  lemma NotModuleCheckboxes()
    ensures "excerpt_word_limit" !in ModuleCheckboxes && "excerpt_image_mode" !in ModuleCheckboxes
  {
  }

  /** The module sanitizer over any list of checkbox ids that leaves out the two other settings. */
  method SanitizeModules(ids: seq<string>, existing: map<string, Value>, input: map<string, string>, clean: string -> string)
    returns (output: map<string, Value>)
    requires "excerpt_word_limit" !in ids && "excerpt_image_mode" !in ids
    ensures forall id :: id in ids ==> (id in output <==> id in input)
    ensures forall id :: id in ids && id in output ==> output[id] == Num(1)
    ensures forall k :: k in existing && k !in ids && k != "excerpt_word_limit" && k != "excerpt_image_mode" ==>
      k in output && output[k] == existing[k]
    ensures forall k :: k in output ==> k in existing || k in ids || k == "excerpt_word_limit" || k == "excerpt_image_mode"
    ensures "excerpt_word_limit" in output && ValidLimit(output["excerpt_word_limit"])
    ensures "excerpt_word_limit" in input ==>
      output["excerpt_word_limit"] == Num(Excerpt.WordLimit(Trim(input["excerpt_word_limit"])))
    ensures "excerpt_word_limit" !in input ==>
      output["excerpt_word_limit"] ==
        if "excerpt_word_limit" in existing && ValidLimit(existing["excerpt_word_limit"]) then existing["excerpt_word_limit"] else Num(500)
    ensures "excerpt_image_mode" in input ==>
      var mode := clean(input["excerpt_image_mode"]);
      "excerpt_image_mode" in output && output["excerpt_image_mode"] == Str(if mode in ImageModes then mode else "all")
    ensures "excerpt_image_mode" !in input ==>
      ("excerpt_image_mode" in output <==> "excerpt_image_mode" in existing) &&
      ("excerpt_image_mode" in existing ==> output["excerpt_image_mode"] == existing["excerpt_image_mode"])
  {
    var checked := ApplyCheckboxes(ids, input, existing);
    var limited := ApplyWordLimit(input, checked);
    output := ApplyImageMode(input, limited, clean);
  }

  /** A submitted word limit becomes its trimmed positive integer value or 500; a missing or unusable one becomes 500. */
  method ApplyWordLimit(input: map<string, string>, output0: map<string, Value>) returns (output: map<string, Value>)
    ensures forall k :: k != "excerpt_word_limit" ==> (k in output <==> k in output0)
    ensures forall k :: k != "excerpt_word_limit" && k in output ==> output[k] == output0[k]
    ensures "excerpt_word_limit" in output && ValidLimit(output["excerpt_word_limit"])
    ensures "excerpt_word_limit" in input ==>
      output["excerpt_word_limit"] == Num(Excerpt.WordLimit(Trim(input["excerpt_word_limit"])))
    ensures "excerpt_word_limit" !in input ==>
      output["excerpt_word_limit"] ==
        if "excerpt_word_limit" in output0 && ValidLimit(output0["excerpt_word_limit"]) then output0["excerpt_word_limit"] else Num(500)
  {
    output := output0;
    if "excerpt_word_limit" in input {
      var limit := Excerpt.WordLimit(Trim(input["excerpt_word_limit"]));
      output := output["excerpt_word_limit" := Num(limit)];
    } else if "excerpt_word_limit" !in output || !ValidLimit(output["excerpt_word_limit"]) {
      output := output["excerpt_word_limit" := Num(500)];
    }
  }

  /** A submitted image mode is kept when it is one of the four modes and becomes `all` otherwise. */
  method ApplyImageMode(input: map<string, string>, output0: map<string, Value>, clean: string -> string)
    returns (output: map<string, Value>)
    ensures forall k :: k != "excerpt_image_mode" ==> (k in output <==> k in output0)
    ensures forall k :: k != "excerpt_image_mode" && k in output ==> output[k] == output0[k]
    ensures "excerpt_image_mode" in input ==>
      var mode := clean(input["excerpt_image_mode"]);
      "excerpt_image_mode" in output && output["excerpt_image_mode"] == Str(if mode in ImageModes then mode else "all")
    ensures "excerpt_image_mode" !in input ==> output == output0
  {
    output := output0;
    if "excerpt_image_mode" in input {
      var mode := clean(input["excerpt_image_mode"]);
      output := output["excerpt_image_mode" := Str(if mode in ImageModes then mode else "all")];
    }
  }

  /** Sets each listed checkbox to 1 when submitted and removes it otherwise. */
  method ApplyCheckboxes(ids: seq<string>, input: map<string, string>, output0: map<string, Value>)
    returns (output: map<string, Value>)
    ensures forall id :: id in ids ==> (id in output <==> id in input)
    ensures forall id :: id in ids && id in output ==> output[id] == Num(1)
    ensures forall k :: k !in ids ==> (k in output <==> k in output0)
    ensures forall k :: k !in ids && k in output ==> output[k] == output0[k]
  {
    output := output0;
    var i := 0;
    while i < |ids|
      invariant i <= |ids|
      invariant forall id :: id in ids[..i] ==> (id in output <==> id in input)
      invariant forall id :: id in ids[..i] && id in output ==> output[id] == Num(1)
      invariant forall k :: k !in ids[..i] ==> (k in output <==> k in output0)
      invariant forall k :: k !in ids[..i] && k in output ==> output[k] == output0[k]
    {
      var id := ids[i];
      assert ids[..i + 1] == ids[..i] + [id];
      if id in input {
        output := output[id := Num(1)];
      } else {
        output := output - {id};
      }
      i := i + 1;
    }
    assert ids[..i] == ids;
  }

  // ---------------------------------------------------------------------
  // Fixed-key sanitizers

  /** Sets each listed flag to 1 when submitted and 0 otherwise. */
  method SetFlags(keys: seq<string>, input: map<string, string>, output0: map<string, Value>)
    returns (output: map<string, Value>)
    ensures output.Keys == output0.Keys + set k | k in keys
    ensures forall k :: k in keys ==> output[k] == Num(if k in input then 1 else 0)
    ensures forall k :: k in output0 && k !in keys ==> output[k] == output0[k]
  {
    output := output0;
    var i := 0;
    while i < |keys|
      invariant i <= |keys|
      invariant output.Keys == output0.Keys + set k | k in keys[..i]
      invariant forall k :: k in keys[..i] ==> output[k] == Num(if k in input then 1 else 0)
      invariant forall k :: k in output0 && k !in keys[..i] ==> output[k] == output0[k]
    {
      assert keys[..i + 1] == keys[..i] + [keys[i]];
      output := output[keys[i] := Num(if keys[i] in input then 1 else 0)];
      i := i + 1;
    }
    assert keys[..i] == keys;
  }

  /** Sets each listed code to its filtered submission, or `''`. */
  method SetCodes(keys: seq<string>, input: map<string, string>, kses: string -> string, output0: map<string, Value>)
    returns (output: map<string, Value>)
    ensures output.Keys == output0.Keys + set k | k in keys
    ensures forall k :: k in keys ==> output[k] == Str(if k in input then kses(input[k]) else "")
    ensures forall k :: k in output0 && k !in keys ==> output[k] == output0[k]
  {
    output := output0;
    var i := 0;
    while i < |keys|
      invariant i <= |keys|
      invariant output.Keys == output0.Keys + set k | k in keys[..i]
      invariant forall k :: k in keys[..i] ==> output[k] == Str(if k in input then kses(input[k]) else "")
      invariant forall k :: k in output0 && k !in keys[..i] ==> output[k] == output0[k]
    {
      assert keys[..i + 1] == keys[..i] + [keys[i]];
      output := output[keys[i] := Str(if keys[i] in input then kses(input[keys[i]]) else "")];
      i := i + 1;
    }
    assert keys[..i] == keys;
  }

  /** `paper_wp_ad_settings_sanitize`: exactly the three flags, 0 or 1, and the three codes. */
  method AdSettingsSanitize(input: map<string, string>, kses: string -> string) returns (output: map<string, Value>)
    ensures output.Keys == (set k | k in AdFlags) + (set k | k in AdCodes)
    ensures forall k :: k in AdFlags ==> output[k] == Num(if k in input then 1 else 0)
    ensures forall k :: k in AdCodes ==> output[k] == Str(if k in input then kses(input[k]) else "")
  {
    output := SetFlags(AdFlags, input, map[]);
    output := SetCodes(AdCodes, input, kses, output);
  }

  /** `paper_wp_admin_settings_sanitize`: exactly the twelve flags, each 0 or 1. */
  method AdminSettingsSanitize(input: map<string, string>) returns (output: map<string, Value>)
    ensures output.Keys == set k | k in AdminFlags
    ensures forall k :: k in AdminFlags ==> output[k] == Num(if k in input then 1 else 0)
  {
    output := SetFlags(AdminFlags, input, map[]);
  }

  // ---------------------------------------------------------------------
  // Friend links

  datatype Link = Link(name: string, url: string, description: string)

  /** A submitted entry is kept when its name and url are set and not empty. */
  predicate Keeps(entry: map<string, string>) {
    "name" in entry && !EmptyStr(entry["name"]) && "url" in entry && !EmptyStr(entry["url"])
  }

  function CleanLink(entry: map<string, string>, clean: string -> string, escUrl: string -> string): Link
    requires Keeps(entry)
  {
    Link(clean(entry["name"]), escUrl(entry["url"]),
         clean(if "description" in entry then entry["description"] else ""))
  }

  /** The kept entries, cleaned, in their order. */
  function KeptLinks(entries: seq<map<string, string>>, clean: string -> string, escUrl: string -> string): (r: seq<Link>)
    ensures |r| <= |entries|
    decreases |entries|
  {
    if entries == [] then []
    else
      var init := KeptLinks(entries[..|entries| - 1], clean, escUrl);
      var e := entries[|entries| - 1];
      if Keeps(e) then init + [CleanLink(e, clean, escUrl)] else init
  }

  /** Keeping distributes over concatenation, so the order of the entries is kept. */
  lemma {:induction false} KeptLinksAppend(a: seq<map<string, string>>, b: seq<map<string, string>>, clean: string -> string, escUrl: string -> string)
    ensures KeptLinks(a + b, clean, escUrl) == KeptLinks(a, clean, escUrl) + KeptLinks(b, clean, escUrl)
    decreases |b|
  {
    if b == [] {
      assert a + b == a;
    } else {
      var b' := b[..|b| - 1];
      assert (a + b)[..|a + b| - 1] == a + b';
      KeptLinksAppend(a, b', clean, escUrl);
    }
  }

  /** When every entry has a name and a url, every entry is kept. */
  lemma {:induction false} KeptLinksAll(entries: seq<map<string, string>>, clean: string -> string, escUrl: string -> string)
    requires forall i :: 0 <= i < |entries| ==> Keeps(entries[i])
    ensures |KeptLinks(entries, clean, escUrl)| == |entries|
    ensures forall i :: 0 <= i < |entries| ==> KeptLinks(entries, clean, escUrl)[i] == CleanLink(entries[i], clean, escUrl)
    decreases |entries|
  {
    if entries != [] {
      var init := entries[..|entries| - 1];
      assert forall i :: 0 <= i < |init| ==> init[i] == entries[i];
      KeptLinksAll(init, clean, escUrl);
    }
  }

  /** When no entry has both a name and a url, nothing is kept. */
  lemma {:induction false} KeptLinksNone(entries: seq<map<string, string>>, clean: string -> string, escUrl: string -> string)
    requires forall i :: 0 <= i < |entries| ==> !Keeps(entries[i])
    ensures KeptLinks(entries, clean, escUrl) == []
    decreases |entries|
  {
    if entries != [] {
      var init := entries[..|entries| - 1];
      assert forall i :: 0 <= i < |init| ==> init[i] == entries[i];
      KeptLinksNone(init, clean, escUrl);
    }
  }

  /** `paper_wp_friend_links_settings_sanitize`; `None` is an input that is not an array. */
  method FriendLinksSanitize(input: Option<seq<map<string, string>>>, clean: string -> string, escUrl: string -> string)
    returns (output: seq<Link>)
    ensures input.None? ==> output == []
    ensures input.Some? ==> output == KeptLinks(input.value, clean, escUrl)
  {
    output := [];
    if input.Some? {
      var entries := input.value;
      var i := 0;
      while i < |entries|
        invariant i <= |entries|
        invariant output == KeptLinks(entries[..i], clean, escUrl)
      {
        assert entries[..i + 1][..i] == entries[..i];
        if Keeps(entries[i]) {
          output := output + [CleanLink(entries[i], clean, escUrl)];
        }
        i := i + 1;
      }
      assert entries[..i] == entries;
    }
  }

  // ---------------------------------------------------------------------
  // Version comparison (the update checker's script)

  /** The characters JavaScript trims: its white space and line terminators. */
  predicate JsSpace(c: char) {
    c == '\t' || c == '\n' || c == '\r' || c == ' ' || c as int == 0x0B || c as int == 0x0C ||
    c as int == 0xA0 || c as int == 0x1680 || 0x2000 <= c as int <= 0x200A || c as int == 0x2028 ||
    c as int == 0x2029 || c as int == 0x202F || c as int == 0x205F || c as int == 0x3000 || c as int == 0xFEFF
  }

  /** The string after its leading JavaScript white space. */
  function TrimJsStart(s: string): (r: string)
    ensures |r| <= |s|
    ensures r == [] || !JsSpace(r[0])
  {
    if s != [] && JsSpace(s[0]) then TrimJsStart(s[1..]) else s
  }

  predicate IsHexDigit(c: char) { '0' <= c <= '9' || 'a' <= c <= 'f' || 'A' <= c <= 'F' }

  function HexDigitValue(c: char): (r: nat)
    requires IsHexDigit(c)
    ensures r < 16
  {
    if '0' <= c <= '9' then c as int - '0' as int
    else if 'a' <= c <= 'f' then c as int - 'a' as int + 10
    else c as int - 'A' as int + 10
  }

  /** The hexadecimal digits at the head of `s`. */
  function HexPart(s: string): (r: string)
    ensures |r| <= |s| && r == s[..|r|]
    ensures forall i :: 0 <= i < |r| ==> IsHexDigit(r[i])
    ensures |r| < |s| ==> !IsHexDigit(s[|r|])
  {
    if s != [] && IsHexDigit(s[0]) then [s[0]] + HexPart(s[1..]) else []
  }

  /** The value of a string of hexadecimal digits. */
  function HexValue(s: string): nat
    requires forall i :: 0 <= i < |s| ==> IsHexDigit(s[i])
    decreases |s|
  {
    if s == [] then 0 else HexValue(s[..|s| - 1]) * 16 + HexDigitValue(s[|s| - 1])
  }

  /** The digits after the sign: hexadecimal after `0x` or `0X`, decimal otherwise; `None` when there are none. */
  function JsMagnitude(body: string): Option<nat> {
    if |body| >= 2 && body[0] == '0' && (body[1] == 'x' || body[1] == 'X') then
      var h := HexPart(body[2..]);
      if h == [] then None else Some(HexValue(h))
    else
      var d := IntegerPart(body);
      if d == [] then None else Some(DigitsValue(d))
  }

  /**
   * JavaScript `parseInt(s)` with no radix: leading white space, a sign,
   * then hexadecimal digits after `0x`/`0X` or decimal digits; `None` is NaN.
   */
  function ParseInt(s: string): (r: Option<int>)
    ensures var t := TrimJsStart(s);
      r.Some? && t != [] && t[0] == '-' ==> r.value <= 0
  {
    var t := TrimJsStart(s);
    var body := if t != [] && (t[0] == '-' || t[0] == '+') then t[1..] else t;
    var m := JsMagnitude(body);
    if m.None? then None
    else if t != [] && t[0] == '-' then Some(-(m.value as int))
    else Some(m.value)
  }

  /** Leading JavaScript white space, a no-break space included, changes nothing. */
  lemma ParseIntTrims(c: char, s: string)
    requires JsSpace(c)
    ensures ParseInt([c] + s) == ParseInt(s)
  {
    assert ([c] + s)[1..] == s;
  }

  /** `0x` followed by hexadecimal digits reads in base 16. */
  lemma ParseIntHex(h: string)
    requires h != [] && forall i :: 0 <= i < |h| ==> IsHexDigit(h[i])
    ensures ParseInt("0x" + h) == Some(HexValue(h))
  {
    var s := "0x" + h;
    assert TrimJsStart(s) == s by { assert s[0] == '0'; }
    JsMagnitudeHex(h);
  }

  lemma JsMagnitudeHex(h: string)
    requires h != [] && forall i :: 0 <= i < |h| ==> IsHexDigit(h[i])
    ensures JsMagnitude("0x" + h) == Some(HexValue(h))
  {
    assert ("0x" + h)[2..] == h;
    HexPartAll(h);
  }

  lemma {:induction false} HexPartAll(h: string)
    requires forall i :: 0 <= i < |h| ==> IsHexDigit(h[i])
    ensures HexPart(h) == h
  {
    if h != [] {
      HexPartAll(h[1..]);
    }
  }

  /** `parseInt(parts[i] || 0)`: a missing or empty part counts as 0. */
  function Component(parts: seq<string>, i: nat): Option<int> {
    if i >= |parts| || parts[i] == "" then Some(0) else ParseInt(parts[i])
  }

  /** The comparison from part `i` on: the first part where both numbers differ decides. */
  function CompareFrom(p1: seq<string>, p2: seq<string>, i: nat): (r: int)
    ensures r == -1 || r == 0 || r == 1
    decreases Max(|p1|, |p2|) - i
  {
    if i >= Max(|p1|, |p2|) then 0
    else
      var a := Component(p1, i);
      var b := Component(p2, i);
      if a.Some? && b.Some? && a.value > b.value then 1
      else if a.Some? && b.Some? && a.value < b.value then -1
      else CompareFrom(p1, p2, i + 1)
  }

  function CompareVersions(v1: string, v2: string): int {
    CompareFrom(Split(v1, '.'), Split(v2, '.'), 0)
  }

  /** `versionCompare(v1, v2)`. */
  method VersionCompare(v1: string, v2: string) returns (r: int)
    ensures r == CompareVersions(v1, v2)
  {
    var p1 := Split(v1, '.');
    var p2 := Split(v2, '.');
    var i := 0;
    while i < Max(|p1|, |p2|)
      invariant i <= Max(|p1|, |p2|)
      invariant CompareFrom(p1, p2, i) == CompareFrom(p1, p2, 0)
    {
      var a := Component(p1, i);
      var b := Component(p2, i);
      if a.Some? && b.Some? && a.value > b.value {
        return 1;
      }
      if a.Some? && b.Some? && a.value < b.value {
        return -1;
      }
      i := i + 1;
    }
    r := 0;
  }

  /** A hexadecimal part compares by its value: `0x10` is newer than `9`. */
  lemma HexPartCompares()
    ensures CompareVersions("0x10", "9") == 1
  {
    var p1, p2 := ["0x10"], ["9"];
    assert Split("0x10", '.') == p1 by { SplitNone("0x10", '.'); }
    assert Split("9", '.') == p2 by { SplitNone("9", '.'); }
    assert Component(p1, 0) == Some(16) by { HexSixteen(); }
    assert Component(p2, 0) == Some(9) by { NineReads(); }
    assert CompareFrom(p1, p2, 0) == 1;
  }

  lemma HexSixteen()
    ensures ParseInt("0x10") == Some(16)
  {
    ParseIntHex("10");
    assert "0x" + "10" == "0x10";
    assert "10"[..1] == "1" && "1"[..0] == "";
  }

  lemma NineReads()
    ensures ParseInt("9") == Some(9)
  {
    assert TrimJsStart("9") == "9";
    assert IntegerPart("9") == "9" by { IntegerPartOf("9", []); assert "9" + [] == "9"; }
    assert "9"[..0] == "";
  }

  /** Swapping the versions negates the result. */
  lemma {:induction false} CompareFromAntisymmetric(p1: seq<string>, p2: seq<string>, i: nat)
    ensures CompareFrom(p2, p1, i) == -CompareFrom(p1, p2, i)
    decreases Max(|p1|, |p2|) - i
  {
    if i < Max(|p1|, |p2|) {
      CompareFromAntisymmetric(p1, p2, i + 1);
    }
  }

  /** A version equals itself. */
  lemma {:induction false} CompareFromReflexive(p: seq<string>, i: nat)
    ensures CompareFrom(p, p, i) == 0
    decreases |p| - i
  {
    if i < |p| {
      CompareFromReflexive(p, i + 1);
    }
  }

  /** A trailing `0` part changes nothing. */
  lemma {:induction false} CompareFromPadZero(p1: seq<string>, p2: seq<string>, i: nat)
    ensures CompareFrom(p1 + ["0"], p2, i) == CompareFrom(p1, p2, i)
    decreases Max(|p1| + 1, |p2|) - i
  {
    if i < Max(|p1| + 1, |p2|) {
      ComponentPadZero(p1, i);
      CompareFromPadZero(p1, p2, i + 1);
    }
  }

  /** A trailing `0` part reads as the missing part it replaces. */
  lemma ComponentPadZero(p: seq<string>, i: nat)
    ensures Component(p + ["0"], i) == Component(p, i)
  {
    var q := p + ["0"];
    if i < |p| {
      assert q[i] == p[i];
    } else if i == |p| {
      assert q[i] == "0";
      assert IntegerPart("0") == "0";
    }
  }

  /** Splitting at a separator splits the two sides. */
  lemma {:induction false} SplitAppend(s: string, t: string, c: char)
    ensures Split(s + [c] + t, c) == Split(s, c) + Split(t, c)
    decreases |s|
  {
    if s == [] {
      assert s + [c] + t == [c] + t;
      assert ([c] + t)[1..] == t;
    } else {
      var u := s + [c] + t;
      assert u[0] == s[0] && u[1..] == s[1..] + [c] + t;
      SplitAppend(s[1..], t, c);
      var p := Split(s[1..], c);
      if s[0] != c {
        assert (p + Split(t, c))[0] == p[0];
        assert (p + Split(t, c))[1..] == p[1..] + Split(t, c);
      }
    }
  }

  /** `versionCompare` ignores a trailing `.0`: "1.0" equals "1.0.0". */
  lemma PadZeroEquals(v: string)
    ensures CompareVersions(v + ".0", v) == 0
    ensures CompareVersions(v, v + ".0") == 0
  {
    SplitAppend(v, "0", '.');
    var p := Split(v, '.');
    assert v + ".0" == v + ['.'] + "0";
    assert Split("0", '.') == ["0"] by {
      assert "0"[0] != '.' && "0"[1..] == [];
      assert Split([], '.') == [""];
      assert ['0'] + "" == "0" && [""][1..] == [];
    }
    assert p[..|p| - 1] + [p[|p| - 1]] == p;
    CompareFromPadZero(p, p, 0);
    CompareFromReflexive(p, 0);
    CompareFromAntisymmetric(p + ["0"], p, 0);
  }

  // ---------------------------------------------------------------------
  // The settings page

  function TabKeys(config: seq<Tab>): set<string> {
    set i | 0 <= i < |config| :: config[i].key
  }

  /** The active tab: the requested one when it is a tab of the configuration, else `modules`. */
  function ActiveTab(requested: Option<string>, config: seq<Tab>): (t: string)
    ensures t in TabKeys(config) || t == "modules"
    ensures requested.Some? && requested.value in TabKeys(config) ==> t == requested.value
    ensures (requested.None? || requested.value !in TabKeys(config)) ==> t == "modules"
  {
    if requested.Some? && requested.value in TabKeys(config) then requested.value else "modules"
  }
}
