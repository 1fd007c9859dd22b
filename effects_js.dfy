/**
 * The front-end effects script: the site runtime counter (`formatRuntime`,
 * `updateRuntime`) and the light/dark `ThemeManager` with its memoized
 * current theme.
 */
module Effects {
  import opened Util

  // ---------------------------------------------------------------------
  // Runtime counter

  /** One unit of the runtime display: a count and its unit name. */
  datatype Part = Part(value: nat, unit: string)

  /** The four units, largest first. */
  const Units: seq<string> := ["天", "小时", "分", "秒"]

  /** Seconds per unit. */
  function Weight(unit: string): nat {
    if unit == "天" then 86400
    else if unit == "小时" then 3600
    else if unit == "分" then 60
    else 1
  }

  /** `seconds` split into days, hours (< 24), minutes (< 60) and seconds (< 60). */
  function Breakdown(seconds: nat): (r: seq<Part>)
    ensures |r| == 4
    ensures forall i :: 0 <= i < 4 ==> r[i].unit == Units[i]
    ensures r[1].value < 24 && r[2].value < 60 && r[3].value < 60
    ensures Total(r) == seconds
  {
    var d, h, m, s := seconds / 86400, seconds % 86400 / 3600, seconds % 3600 / 60, seconds % 60;
    var r := [Part(d, "天"), Part(h, "小时"), Part(m, "分"), Part(s, "秒")];
    BreakdownSum(seconds);
    TotalUnfold(r);
    r
  }

  /** The seconds a list of parts stands for. */
  function Total(parts: seq<Part>): nat {
    if parts == [] then 0 else parts[0].value * Weight(parts[0].unit) + Total(parts[1..])
  }

  lemma BreakdownSum(seconds: nat)
    ensures (seconds / 86400) * 86400 + (seconds % 86400 / 3600) * 3600 + (seconds % 3600 / 60) * 60 + seconds % 60 == seconds
  {
    var d, r1 := seconds / 86400, seconds % 86400;
    var h, r2 := r1 / 3600, r1 % 3600;
    RemainderOf(seconds, 3600, 24 * d + h, r2);
    var m, s := r2 / 60, r2 % 60;
    RemainderOf(seconds, 60, 60 * (24 * d + h) + m, s);
  }

  /** `x % c` is the remainder of any division of `x` by `c`. */
  lemma RemainderOf(x: int, c: int, q: int, m: int)
    requires c == 3600 || c == 60
    requires x == q * c + m && 0 <= m < c
    ensures x % c == m
  {
  }

  lemma TotalUnfold(r: seq<Part>)
    requires |r| == 4
    ensures Total(r) == r[0].value * Weight(r[0].unit) + r[1].value * Weight(r[1].unit)
                        + r[2].value * Weight(r[2].unit) + r[3].value * Weight(r[3].unit)
  {
    assert r[3..][1..] == [];
    assert Total(r[3..]) == r[3].value * Weight(r[3].unit);
    assert r[2..][1..] == r[3..];
    assert Total(r[2..]) == r[2].value * Weight(r[2].unit) + Total(r[3..]);
    assert r[1..][1..] == r[2..];
    assert Total(r[1..]) == r[1].value * Weight(r[1].unit) + Total(r[2..]);
  }

  /** How many leading units are dropped: those before the first positive one, seconds always kept. */
  function Lead(seconds: nat): (k: nat)
    ensures k <= 3
    ensures k == 0 <==> Breakdown(seconds)[0].value > 0
    ensures k <= 1 <==> Breakdown(seconds)[0].value > 0 || Breakdown(seconds)[1].value > 0
    ensures k <= 2 <==> Breakdown(seconds)[0].value > 0 || Breakdown(seconds)[1].value > 0 || Breakdown(seconds)[2].value > 0
  {
    var b := Breakdown(seconds);
    if b[0].value > 0 then 0 else if b[1].value > 0 then 1 else if b[2].value > 0 then 2 else 3
  }

  /** The parts the counter displays. */
  function Shown(seconds: nat): seq<Part> {
    Breakdown(seconds)[Lead(seconds)..]
  }

  /** A part as text: the decimal count followed by the unit. */
  function RenderPart(p: Part): string {
    NatToString(p.value) + p.unit
  }

  /** `formatRuntime`: days only when positive, then hours, minutes and always seconds. */
  function FormatRuntime(seconds: nat): (r: string)
    ensures EndsWith(r, NatToString(seconds % 60) + "秒")
  {
    var days, hours, minutes, secs := seconds / 86400, seconds % 86400 / 3600, seconds % 3600 / 60, seconds % 60;
    (if days > 0 then NatToString(days) + "天" else "")
    + (if hours > 0 || days > 0 then NatToString(hours) + "小时" else "")
    + (if minutes > 0 || hours > 0 || days > 0 then NatToString(minutes) + "分" else "")
    + (NatToString(secs) + "秒")
  }

  /**
   * The displayed text is the shown parts in order; they start at the first
   * positive unit (or are the seconds alone) and add up to `seconds`.
   */
  lemma FormatRuntimeShown(seconds: nat)
    ensures FormatRuntime(seconds) == ConcatMap(Shown(seconds), RenderPart)
    ensures Shown(seconds) != [] && Shown(seconds)[|Shown(seconds)| - 1].unit == "秒"
    ensures Shown(seconds)[0].value > 0 || |Shown(seconds)| == 1
    ensures Total(Shown(seconds)) == seconds
  {
    TotalDrop(Breakdown(seconds), Lead(seconds));
    FormatRuntimeText(seconds);
  }

  /** The text of `formatRuntime` renders the parts from the first shown one on. */
  lemma FormatRuntimeText(seconds: nat)
    ensures FormatRuntime(seconds) == ConcatMap(Shown(seconds), RenderPart)
  {
    FourParts(Breakdown(seconds), Lead(seconds));
  }

  /** Rendering the last `4 - k` of four parts. */
  lemma FourParts(b: seq<Part>, k: nat)
    requires |b| == 4 && k <= 3
    ensures ConcatMap(b[k..], RenderPart)
            == (if k == 0 then RenderPart(b[0]) else "") + (if k <= 1 then RenderPart(b[1]) else "")
               + (if k <= 2 then RenderPart(b[2]) else "") + RenderPart(b[3])
  {
    assert b[4..] == [];
    ConcatMapFrom(b, 3);
    ConcatMapFrom(b, 2);
    ConcatMapFrom(b, 1);
    ConcatMapFrom(b, 0);
  }

  /** Dropping zero-valued leading parts keeps the total. */
  lemma {:induction false} TotalDrop(parts: seq<Part>, k: nat)
    requires k <= |parts|
    requires forall i :: 0 <= i < k ==> parts[i].value == 0
    ensures Total(parts[k..]) == Total(parts)
  {
    if k > 0 {
      assert parts[1..][k - 1..] == parts[k..];
      TotalDrop(parts[1..], k - 1);
    }
  }

  /** Rendering from part `i` on is part `i` followed by the rest. */
  lemma ConcatMapFrom(ps: seq<Part>, i: nat)
    requires i < |ps|
    ensures ConcatMap(ps[i..], RenderPart) == RenderPart(ps[i]) + ConcatMap(ps[i + 1..], RenderPart)
  {
    assert ps[i..] == [ps[i]] + ps[i + 1..];
    ConcatMapCons(ps[i], ps[i + 1..], RenderPart);
  }

  // ---------------------------------------------------------------------
  // Reading the display back

  /** Every part carries one of the four unit names. */
  predicate KnownUnits(ps: seq<Part>) {
    forall i :: 0 <= i < |ps| ==> ps[i].unit in Units
  }

  /** Distinct runtimes are displayed differently. */
  lemma FormatRuntimeInjective(a: nat, b: nat)
    requires FormatRuntime(a) == FormatRuntime(b)
    ensures a == b
  {
    FormatRuntimeShown(a);
    FormatRuntimeShown(b);
    ShownKnownUnits(a);
    ShownKnownUnits(b);
    RenderInjective(Shown(a), Shown(b));
  }

  /** The rendered parts determine the parts: counts end where the unit's first letter starts. */
  lemma {:induction false} RenderInjective(ps: seq<Part>, qs: seq<Part>)
    requires KnownUnits(ps) && KnownUnits(qs)
    requires ConcatMap(ps, RenderPart) == ConcatMap(qs, RenderPart)
    ensures ps == qs
    decreases |ps|
  {
    RenderEmpty(ps);
    RenderEmpty(qs);
    if ps != [] && qs != [] {
      var p, q := ps[0], qs[0];
      RenderHead(ps);
      RenderHead(qs);
      var x, y := ConcatMap(ps[1..], RenderPart), ConcatMap(qs[1..], RenderPart);
      KnownUnit(p.unit);
      KnownUnit(q.unit);
      var d1, d2 := NatToString(p.value), NatToString(q.value);
      assert (p.unit + x)[0] == p.unit[0] && (q.unit + y)[0] == q.unit[0];
      DigitsThenLetter(d1, p.unit + x, d2, q.unit + y);
      NatToStringInjective(p.value, q.value);
      assert x == y by {
        assert x == (p.unit + x)[|p.unit|..] && y == (q.unit + y)[|q.unit|..];
      }
      assert ps[1..] == qs[1..] by {
        RenderInjective(ps[1..], qs[1..]);
      }
      assert ps == [p] + ps[1..] && qs == [q] + qs[1..];
    }
  }

  /** The displayed parts carry unit names. */
  lemma ShownKnownUnits(seconds: nat)
    ensures KnownUnits(Shown(seconds))
  {
    var b, k := Breakdown(seconds), Lead(seconds);
    forall i | 0 <= i < |b[k..]|
      ensures b[k..][i].unit in Units
    {
      assert b[k..][i] == b[k + i];
    }
  }

  /** The unit named by a first letter. */
  function UnitOf(c: char): string {
    if c == '天' then "天" else if c == '小' then "小时" else if c == '分' then "分" else "秒"
  }

  /** Unit names start with distinct non-digits. */
  lemma KnownUnit(u: string)
    requires u in Units
    ensures u != [] && !IsDigit(u[0]) && UnitOf(u[0]) == u
  {
  }

  /** The first part's digits, then its unit, then the rest. */
  lemma RenderHead(ps: seq<Part>)
    requires ps != []
    ensures ConcatMap(ps, RenderPart) == NatToString(ps[0].value) + (ps[0].unit + ConcatMap(ps[1..], RenderPart))
  {
    ConcatMapFrom(ps, 0);
    assert ps[0..] == ps;
    ConcatAssoc(NatToString(ps[0].value), ps[0].unit, ConcatMap(ps[1..], RenderPart));
  }

  /** Only no parts render as nothing. */
  lemma RenderEmpty(ps: seq<Part>)
    requires KnownUnits(ps)
    ensures ConcatMap(ps, RenderPart) == "" <==> ps == []
  {
    if ps != [] {
      ConcatMapFrom(ps, 0);
    }
  }

  /** A digit run followed by a non-digit splits in one way only. */
  lemma DigitsThenLetter(d1: string, r1: string, d2: string, r2: string)
    requires AllDigits(d1) && AllDigits(d2)
    requires r1 != [] && !IsDigit(r1[0]) && r2 != [] && !IsDigit(r2[0])
    requires d1 + r1 == d2 + r2
    ensures d1 == d2 && r1 == r2
  {
    assert d1 == (d1 + r1)[..|d1|] && d2 == (d2 + r2)[..|d2|];
  }

  // ---------------------------------------------------------------------
  // updateRuntime

  /** The message for a missing or unparsable start time. */
  const DataError := "数据错误"

  /** The message for a start time in the future. */
  const ClockError := "时间异常"

  /**
   * `updateRuntime`: nothing without the counter element; `start` is the
   * parsed `data-start` (None when `parseInt` gives NaN), and zero counts as
   * missing; `nowMs` is the clock in milliseconds.
   */
  function UpdateRuntime(hasElement: bool, start: Option<int>, nowMs: int): (r: Option<string>)
    ensures r == None <==> !hasElement
    ensures r == Some(DataError) <==> hasElement && (start == None || start == Some(0))
    ensures r == Some(ClockError) <==> hasElement && start.Some? && start.value != 0 && nowMs / 1000 < start.value
    ensures r.Some? && r != Some(DataError) && r != Some(ClockError) ==>
      start.Some? && nowMs / 1000 >= start.value && r.value == FormatRuntime(nowMs / 1000 - start.value)
  {
    if !hasElement then None
    else if start == None || start.value == 0 then Some(DataError)
    else
      var runtime := nowMs / 1000 - start.value;
      if runtime < 0 then Some(ClockError)
      else
        RuntimeNotError(runtime);
        Some(FormatRuntime(runtime))
  }

  /** A formatted runtime ends in the seconds unit, so it is never one of the two error messages. */
  lemma RuntimeNotError(seconds: nat)
    ensures FormatRuntime(seconds) != DataError && FormatRuntime(seconds) != ClockError
  {
    var r := FormatRuntime(seconds);
    assert r[|r| - 1] == '秒';
  }

  // ---------------------------------------------------------------------
  // ThemeManager

  /** The localStorage key of the visitor's preference. */
  const StorageKey := "barepaper_theme_preference"

  /** A concrete light or dark theme. */
  predicate IsFixed(theme: string) {
    theme == "light" || theme == "dark"
  }

  /** `getThemeSettings().themeMode`: the configured mode, `'auto'` when unset or empty. */
  function ModeOf(setting: Option<string>): (r: string)
    ensures r != ""
    ensures setting.Some? && setting.value != "" ==> r == setting.value
    ensures setting == None || setting == Some("") ==> r == "auto"
  {
    if setting.Some? && setting.value != "" then setting.value else "auto"
  }

  /** The theme the page shows: a fixed mode, else a saved choice, else the root attribute, else light. */
  function ResolveTheme(mode: string, saved: Option<string>, dataTheme: Option<string>): (r: string)
    ensures IsFixed(r)
  {
    if IsFixed(mode) then mode
    else if saved.Some? && IsFixed(saved.value) then saved.value
    else if dataTheme.Some? && IsFixed(dataTheme.value) then dataTheme.value
    else "light"
  }

  /** The toggle's target: light becomes dark, anything else light. */
  function Flipped(theme: string): (r: string)
    ensures IsFixed(r) && r != theme
  {
    if theme == "light" then "dark" else "light"
  }

  /** Between light and dark the toggle is its own inverse. */
  lemma FlippedTwice(theme: string)
    requires IsFixed(theme)
    ensures Flipped(Flipped(theme)) == theme
  {
  }

  /** The toggle button's emoji and tooltip. */
  datatype Face = Face(text: string, title: string)

  /** The tooltip of the switch's fallback face, for a theme that is neither light nor dark. */
  const FallbackTitle := "当前：浅色主题（点击切换）"

  /** `updateButtonEmoji`'s switch: a moon in light, a sun in dark, the moon with a plain tooltip otherwise. */
  function ButtonFace(theme: string): (f: Face)
    ensures f.title == FallbackTitle <==> !IsFixed(theme)
  {
    if theme == "light" then Face("\U{1F319}", "当前：浅色主题（点击切换到深色）")
    else if theme == "dark" then Face("\U{2600}\U{FE0F}", "当前：深色主题（点击切换到浅色）")
    else Face("\U{1F319}", FallbackTitle)
  }

  /** The manager's view of the page: storage, the root's `data-theme`, the cache and the events sent. */
  class ThemeManager {
    const mode: string
    const storageAvailable: bool
    var storage: map<string, string>
    var dataTheme: Option<string>
    var cached: Option<string>
    var events: seq<string>

    /** The preference as `localStorage.getItem` returns it; unreadable storage reads as nothing. */
    function Saved(): Option<string>
      reads this
    {
      if storageAvailable && StorageKey in storage then Some(storage[StorageKey]) else None
    }

    /** The memoized theme, when present, is the one the page state resolves to. */
    predicate Valid()
      reads this
    {
      cached.Some? ==> cached.value == ResolveTheme(mode, Saved(), dataTheme)
    }

    constructor(setting: Option<string>, available: bool, initialStorage: map<string, string>, initialTheme: Option<string>)
      ensures mode == ModeOf(setting) && storageAvailable == available
      ensures storage == initialStorage && dataTheme == initialTheme
      ensures cached == None && events == []
      ensures Valid()
    {
      mode := ModeOf(setting);
      storageAvailable := available;
      storage := initialStorage;
      dataTheme := initialTheme;
      cached := None;
      events := [];
    }

    /** `setTheme`: 'auto' drops the root attribute, any other theme sets it; saves only when asked. */
    method SetTheme(theme: string, save: bool)
      modifies this
      ensures dataTheme == (if theme == "auto" then None else Some(theme))
      ensures storage == (if save && storageAvailable then old(storage)[StorageKey := theme] else old(storage))
      ensures cached == None && events == old(events) + [theme]
      ensures Valid()
    {
      if theme == "auto" {
        dataTheme := None;
      } else {
        dataTheme := Some(theme);
      }
      if save && storageAvailable {
        storage := storage[StorageKey := theme];
      }
      cached := None;
      events := events + [theme];
    }

    /** `getCurrentTheme`: the memoized value, else the resolved theme, which is then memoized. */
    method GetCurrentTheme() returns (theme: string)
      requires Valid()
      modifies this
      ensures theme == ResolveTheme(mode, Saved(), dataTheme) && cached == Some(theme)
      ensures storage == old(storage) && dataTheme == old(dataTheme) && events == old(events)
      ensures Valid()
    {
      if cached.Some? {
        return cached.value;
      }
      if mode == "light" || mode == "dark" {
        theme := mode;
      } else {
        var saved := if storageAvailable && StorageKey in storage then Some(storage[StorageKey]) else None;
        if saved.Some? && (saved.value == "light" || saved.value == "dark") {
          theme := saved.value;
        } else if dataTheme.Some? && (dataTheme.value == "light" || dataTheme.value == "dark") {
          theme := dataTheme.value;
        } else {
          theme := "light";
        }
      }
      cached := Some(theme);
    }

    /** `toggleTheme`: a fixed mode is returned untouched; otherwise the flipped theme is applied and saved. */
    method ToggleTheme() returns (next: string)
      requires Valid()
      modifies this
      ensures IsFixed(mode) ==> next == mode && storage == old(storage) && dataTheme == old(dataTheme)
                                && cached == old(cached) && events == old(events)
      ensures !IsFixed(mode) ==> next == Flipped(old(ResolveTheme(mode, Saved(), dataTheme)))
      ensures !IsFixed(mode) ==> dataTheme == Some(next) && events == old(events) + [next]
      ensures !IsFixed(mode) ==> storage == (if storageAvailable then old(storage)[StorageKey := next] else old(storage))
      ensures Valid()
    {
      if mode == "light" || mode == "dark" {
        return mode;
      }
      var current := GetCurrentTheme();
      next := if current == "light" then "dark" else "light";
      SetTheme(next, true);
    }

    /** `updateButtonEmoji`: the face of the current theme, never the fallback one. */
    method UpdateButtonEmoji() returns (face: Face)
      requires Valid()
      modifies this
      ensures face == ButtonFace(ResolveTheme(mode, Saved(), dataTheme)) && face.title != FallbackTitle
      ensures storage == old(storage) && dataTheme == old(dataTheme) && events == old(events)
      ensures Valid()
    {
      var theme := GetCurrentTheme();
      face := ButtonFace(theme);
    }

    /**
     * `init`: in auto mode a saved light/dark choice is applied, else the
     * system preference when media queries exist (`prefersDark`, None
     * without them); in any other mode the saved choice is removed first and
     * the mode applied.
     */
    method Init(prefersDark: Option<bool>)
      requires Valid()
      modifies this
      ensures mode != "auto" ==> storage == (if storageAvailable then old(storage) - {StorageKey} else old(storage))
                                 && dataTheme == Some(mode) && events == old(events) + [mode]
      ensures mode == "auto" ==> storage == old(storage)
      ensures mode == "auto" && old(Saved()).Some? && IsFixed(old(Saved()).value) ==>
        dataTheme == old(Saved()) && events == old(events) + [old(Saved()).value]
      ensures mode == "auto" && !(old(Saved()).Some? && IsFixed(old(Saved()).value)) && prefersDark.Some? ==>
        dataTheme == Some(if prefersDark.value then "dark" else "light") && events == old(events) + [dataTheme.value]
      ensures mode == "auto" && !(old(Saved()).Some? && IsFixed(old(Saved()).value)) && prefersDark == None ==>
        dataTheme == old(dataTheme) && events == old(events) && cached == old(cached)
      ensures Valid()
    {
      if mode == "auto" {
        var preference := if storageAvailable && StorageKey in storage then Some(storage[StorageKey]) else None;
        if preference.Some? && (preference.value == "light" || preference.value == "dark") {
          SetTheme(preference.value, false);
        } else if prefersDark.Some? {
          SetTheme(if prefersDark.value then "dark" else "light", false);
        }
      } else {
        if storageAvailable {
          storage := storage - {StorageKey};
        }
        SetTheme(mode, false);
      }
    }
  }

  /** Saving a light or dark choice in auto mode makes it the resolved theme. */
  lemma SavedChoiceWins(mode: string, theme: string, dataTheme: Option<string>)
    requires !IsFixed(mode) && IsFixed(theme)
    ensures ResolveTheme(mode, Some(theme), dataTheme) == theme
  {
  }

  /** A fixed mode overrides whatever is saved or set on the root. */
  lemma FixedModeWins(mode: string, saved: Option<string>, dataTheme: Option<string>)
    requires IsFixed(mode)
    ensures ResolveTheme(mode, saved, dataTheme) == mode
  {
  }

  /** Toggling twice in auto mode with working storage comes back to the theme shown before. */
  method ToggleTwice(m: ThemeManager) returns (first: string, second: string)
    requires m.Valid() && !IsFixed(m.mode) && m.storageAvailable
    modifies m
    ensures second == old(ResolveTheme(m.mode, m.Saved(), m.dataTheme)) && first != second
  {
    first := m.ToggleTheme();
    var now := m.GetCurrentTheme();
    assert now == first;
    second := m.ToggleTheme();
  }

  /** After `init` in a fixed mode the current theme is that mode and nothing is saved. */
  method InitFixed(m: ThemeManager, prefersDark: Option<bool>) returns (theme: string)
    requires m.Valid() && IsFixed(m.mode)
    modifies m
    ensures theme == m.mode && (m.storageAvailable ==> m.Saved() == None)
  {
    m.Init(prefersDark);
    theme := m.GetCurrentTheme();
  }
}
