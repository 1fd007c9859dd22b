/**
 * The sidebar album carousel: each album's closure keeps the active index
 * and the autoplay timer, `setActive` wraps the index and restyles every
 * item and indicator, and the buttons, indicators, hover/focus events and
 * the reduced-motion query drive it.
 */
module SidebarAlbum {
  import opened Util

  /** An album item's id, classes, `aria-hidden` and visibility styles. */
  datatype Item = Item(id: string, active: bool, ariaHidden: string, opacity: string, visibility: string, zIndex: string)

  /** An indicator button's label, `aria-selected` and `tabindex`. */
  datatype Indicator = Indicator(ariaLabel: string, ariaSelected: string, tabindex: string)

  /** The carousel is set up only for an album with a viewport and at least one item. */
  predicate StartsCarousel(hasViewport: bool, count: nat) {
    hasViewport && count > 0
  }

  // ---------------------------------------------------------------------
  // Index arithmetic

  /** `setActive`'s index: any negative index is the last item, any past the end the first. */
  function Wrap(index: int, total: nat): (r: nat)
    requires total >= 1
    ensures r < total
    ensures 0 <= index < total ==> r == index
    ensures index < 0 ==> r == total - 1
    ensures index >= total ==> r == 0
  {
    if index < 0 then total - 1 else if index >= total then 0 else index
  }

  /** `goToNext`'s target. */
  function Next(i: nat, total: nat): nat
    requires total >= 1
  {
    Wrap(i + 1, total)
  }

  /** `goToPrev`'s target. */
  function Prev(i: nat, total: nat): nat
    requires total >= 1
  {
    Wrap(i - 1, total)
  }

  /** Stepping back undoes stepping forward, and the other way round. */
  lemma PrevNextInverse(i: nat, total: nat)
    requires i < total
    ensures Prev(Next(i, total), total) == i
    ensures Next(Prev(i, total), total) == i
  {
  }

  /** `n` steps forward from `i`. */
  function NextTimes(i: nat, n: nat, total: nat): (r: nat)
    requires total >= 1
    ensures r < total
  {
    if n == 0 then Wrap(i, total) else Next(NextTimes(i, n - 1, total), total)
  }

  /** Up to `total` steps forward from `i` count on past `i`, wrapping once past the last item. */
  lemma {:induction false} NextTimesWraps(i: nat, n: nat, total: nat)
    requires i < total && n <= total
    ensures NextTimes(i, n, total) == if i + n < total then i + n else i + n - total
  {
    if n > 0 {
      NextTimesWraps(i, n - 1, total);
    }
  }

  /** Going forward once per item comes back to the start. */
  lemma NextCycle(i: nat, total: nat)
    requires i < total
    ensures NextTimes(i, total, total) == i
  {
    NextTimesWraps(i, total, total);
  }

  // ---------------------------------------------------------------------
  // Attributes

  /** The item as `setActive` leaves it: shown on top when active, hidden below otherwise; the id is kept. */
  function Styled(item: Item, isActive: bool): (r: Item)
    ensures r.id == item.id && r.active == isActive
    ensures r.ariaHidden == "false" <==> isActive
    ensures r.opacity == "1" <==> isActive
  {
    if isActive then item.(active := true, ariaHidden := "false", opacity := "1", visibility := "visible", zIndex := "2")
    else item.(active := false, ariaHidden := "true", opacity := "0", visibility := "hidden", zIndex := "1")
  }

  /** The indicator as `setActive` leaves it: selected and focusable only when active. */
  function Marked(indicator: Indicator, isActive: bool): (r: Indicator)
    ensures r.ariaLabel == indicator.ariaLabel
    ensures r.ariaSelected == "true" <==> isActive
    ensures r.tabindex == "0" <==> isActive
  {
    if isActive then indicator.(ariaSelected := "true", tabindex := "0")
    else indicator.(ariaSelected := "false", tabindex := "-1")
  }

  /** Restyling is settled: doing it again changes nothing. */
  lemma StyledIdempotent(item: Item, isActive: bool)
    ensures Styled(Styled(item, isActive), isActive) == Styled(item, isActive)
    ensures Marked(Marked(Indicator(item.id, "", ""), isActive), isActive) == Marked(Indicator(item.id, "", ""), isActive)
  {
  }

  /** An item without an id gets `sidebar-album-<album>-<index>`. */
  function ItemId(albumIndex: nat, index: nat, id: string): (r: string)
    ensures id != "" ==> r == id
    ensures id == "" ==> StartsWith(r, "sidebar-album-")
  {
    if id == "" then "sidebar-album-" + NatToString(albumIndex) + "-" + NatToString(index) else id
  }

  /** Generated ids of one album are distinct. */
  lemma GeneratedIdsDistinct(albumIndex: nat, i: nat, j: nat)
    requires i != j
    ensures ItemId(albumIndex, i, "") != ItemId(albumIndex, j, "")
  {
    var p := "sidebar-album-" + NatToString(albumIndex) + "-";
    var a, b := ItemId(albumIndex, i, ""), ItemId(albumIndex, j, "");
    assert a == p + NatToString(i) && b == p + NatToString(j);
    if a == b {
      assert NatToString(i) == a[|p|..] == b[|p|..] == NatToString(j);
      NatToStringInjective(i, j);
    }
  }

  /** An indicator's label: `切换至第 n 张`, counting from one. */
  function IndicatorLabel(i: nat): string {
    "切换至第 " + NatToString(i + 1) + " 张"
  }

  /** Autoplay is wanted when motion is not reduced and `data-autoplay` is `'true'`. */
  predicate AutoPlayWanted(reducedMotion: bool, dataAutoplay: Option<string>) {
    !reducedMotion && dataAutoplay == Some("true")
  }

  /** `parseInt(data-interval) || 4000`: NaN and zero fall back to 4000 ms. */
  function IntervalOf(parsed: Option<int>): (r: int)
    ensures r != 0
    ensures parsed.Some? && parsed.value != 0 ==> r == parsed.value
  {
    if parsed.Some? && parsed.value != 0 then parsed.value else 4000
  }

  /** The keys an indicator answers: back for left/up, forward for right/down, none otherwise. */
  function KeyStep(key: string): (r: int)
    ensures -1 <= r <= 1
    ensures r == -1 <==> key == "ArrowLeft" || key == "ArrowUp"
    ensures r == 1 <==> key == "ArrowRight" || key == "ArrowDown"
  {
    if key == "ArrowLeft" || key == "ArrowUp" then -1
    else if key == "ArrowRight" || key == "ArrowDown" then 1
    else 0
  }

  /** The item loop of `setActive`: every item restyled, active only at `active`. */
  method Restyle(items: array<Item>, active: nat)
    modifies items
    ensures forall k :: 0 <= k < items.Length ==> items[k] == Styled(old(items[k]), k == active)
  {
    var i := 0;
    while i < items.Length
      invariant 0 <= i <= items.Length
      invariant forall k :: 0 <= k < i ==> items[k] == Styled(old(items[k]), k == active)
      invariant forall k :: i <= k < items.Length ==> items[k] == old(items[k])
    {
      items[i] := Styled(items[i], i == active);
      i := i + 1;
    }
  }

  /** The indicator loop of `setActive`: every indicator marked, selected only at `active`. */
  method Remark(indicators: array<Indicator>, active: nat)
    modifies indicators
    ensures forall k :: 0 <= k < indicators.Length ==> indicators[k] == Marked(old(indicators[k]), k == active)
  {
    var j := 0;
    while j < indicators.Length
      invariant 0 <= j <= indicators.Length
      invariant forall k :: 0 <= k < j ==> indicators[k] == Marked(old(indicators[k]), k == active)
      invariant forall k :: j <= k < indicators.Length ==> indicators[k] == old(indicators[k])
    {
      indicators[j] := Marked(indicators[j], j == active);
      j := j + 1;
    }
  }

  // ---------------------------------------------------------------------
  // The album closure

  class Album {
    const total: nat
    const interval: int
    const dataAutoplay: Option<string>
    const hasLink: seq<bool>
    /** The album's `sidebar-album--single` class, and both nav buttons disabled. */
    const single: bool
    const items: array<Item>
    /** Empty when the album has no indicator container. */
    const indicators: array<Indicator>
    var reducedMotion: bool
    var autoPlayEnabled: bool
    var activeIndex: nat
    var timerRunning: bool
    var hover: bool
    var fade: bool
    var focused: Option<nat>

    /** The shapes the closure relies on. */
    predicate Shaped()
      reads this
    {
      total >= 1 && items.Length == total && |hasLink| == total
      && (indicators.Length == 0 || indicators.Length == total)
    }

    /**
     * Exactly the active item is shown and exactly its indicator selected,
     * and a running timer implies autoplay is on and there is more than one item.
     */
    predicate Valid()
      reads this, items, indicators
    {
      Shaped() && activeIndex < total
      && (forall k :: 0 <= k < total ==> items[k] == Styled(items[k], k == activeIndex))
      && (forall k :: 0 <= k < indicators.Length ==> indicators[k] == Marked(indicators[k], k == activeIndex))
      && autoPlayEnabled == AutoPlayWanted(reducedMotion, dataAutoplay)
      && (timerRunning ==> autoPlayEnabled && total > 1)
    }

    /**
     * The album's set-up: ids and `aria-hidden` on the items, the indicator
     * buttons, then `setActive(0)` and `startAutoPlay()`.
     */
    constructor(count: nat, albumIndex: nat, ids: seq<string>, links: seq<bool>, hasIndicatorContainer: bool,
                autoplay: Option<string>, reduced: bool, parsedInterval: Option<int>)
      requires StartsCarousel(true, count) && |ids| == count && |links| == count
      ensures total == count && hasLink == links && single == (count <= 1)
      ensures interval == IntervalOf(parsedInterval) && dataAutoplay == autoplay && reducedMotion == reduced
      ensures fresh(items) && fresh(indicators) && items.Length == count
      ensures forall k :: 0 <= k < count ==> items[k].id == ItemId(albumIndex, k, ids[k])
      ensures indicators.Length == (if hasIndicatorContainer then count else 0)
      ensures forall k :: 0 <= k < indicators.Length ==> indicators[k].ariaLabel == IndicatorLabel(k)
      ensures activeIndex == 0 && timerRunning == (autoPlayEnabled && count > 1)
      ensures Valid()
    {
      total := count;
      interval := IntervalOf(parsedInterval);
      dataAutoplay := autoplay;
      hasLink := links;
      single := count <= 1;
      var its := NamedItems(count, albumIndex, ids);
      items := its;
      var inds := new Indicator[if hasIndicatorContainer then count else 0];
      if hasIndicatorContainer {
        CreateIndicators(inds);
      }
      indicators := inds;
      reducedMotion := reduced;
      autoPlayEnabled := AutoPlayWanted(reduced, autoplay);
      activeIndex := 0;
      timerRunning := false;
      hover := false;
      fade := false;
      focused := None;
      new;
      SetActive(0, false, None);
      StartAutoPlay();
    }

    /** `setActive`: wrap the index, restyle every item and indicator, then apply the hover and focus options. */
    method SetActive(index: int, focusItem: bool, forceHover: Option<bool>)
      requires Shaped()
      modifies this, items, indicators
      ensures activeIndex == Wrap(index, total)
      ensures forall k :: 0 <= k < total ==> items[k] == Styled(old(items[k]), k == activeIndex)
      ensures forall k :: 0 <= k < indicators.Length ==> indicators[k] == Marked(old(indicators[k]), k == activeIndex)
      ensures hover == (if forceHover.Some? then forceHover.value else old(hover))
      ensures focused == (if focusItem && hasLink[activeIndex] then Some(activeIndex) else old(focused))
      ensures fade && timerRunning == old(timerRunning)
      ensures reducedMotion == old(reducedMotion) && autoPlayEnabled == old(autoPlayEnabled)
    {
      activeIndex := Wrap(index, total);
      fade := true;
      Restyle(items, activeIndex);
      Remark(indicators, activeIndex);
      if forceHover.Some? {
        hover := forceHover.value;
      }
      if focusItem && hasLink[activeIndex] {
        focused := Some(activeIndex);
      }
    }

    /** `pauseAutoPlay`. */
    method PauseAutoPlay()
      modifies this
      ensures !timerRunning
      ensures activeIndex == old(activeIndex) && hover == old(hover) && focused == old(focused) && fade == old(fade)
      ensures reducedMotion == old(reducedMotion) && autoPlayEnabled == old(autoPlayEnabled)
    {
      timerRunning := false;
    }

    /** `startAutoPlay`: (re)starts the timer only when autoplay is on and there is more than one item. */
    method StartAutoPlay()
      modifies this
      ensures timerRunning == (if autoPlayEnabled && total > 1 then true else old(timerRunning))
      ensures activeIndex == old(activeIndex) && hover == old(hover) && focused == old(focused) && fade == old(fade)
      ensures reducedMotion == old(reducedMotion) && autoPlayEnabled == old(autoPlayEnabled)
    {
      if !autoPlayEnabled || total <= 1 {
        return;
      }
      PauseAutoPlay();
      timerRunning := true;
    }

    /** `resetAutoPlay`. */
    method ResetAutoPlay()
      modifies this
      ensures timerRunning == (autoPlayEnabled && total > 1)
      ensures activeIndex == old(activeIndex) && hover == old(hover) && focused == old(focused) && fade == old(fade)
      ensures reducedMotion == old(reducedMotion) && autoPlayEnabled == old(autoPlayEnabled)
    {
      PauseAutoPlay();
      StartAutoPlay();
    }

    /** A nav button click: step back or forward with focus and hover, then restart autoplay. */
    method NavClick(forward: bool)
      requires Valid()
      modifies this, items, indicators
      ensures activeIndex == (if forward then Next(old(activeIndex), total) else Prev(old(activeIndex), total))
      ensures hover && focused == (if hasLink[activeIndex] then Some(activeIndex) else old(focused))
      ensures timerRunning == (autoPlayEnabled && total > 1)
      ensures Valid()
    {
      SetActive(if forward then activeIndex + 1 else activeIndex - 1, true, Some(true));
      ResetAutoPlay();
    }

    /** An indicator click: show that item with focus, then restart autoplay. */
    method IndicatorClick(index: nat)
      requires Valid() && index < indicators.Length
      modifies this, items, indicators
      ensures activeIndex == index && hover == old(hover)
      ensures timerRunning == (autoPlayEnabled && total > 1)
      ensures Valid()
    {
      SetActive(index, true, None);
      ResetAutoPlay();
    }

    /** An indicator key: arrows step with focus and restart autoplay; other keys do nothing. */
    method IndicatorKey(key: string)
      requires Valid()
      modifies this, items, indicators
      ensures KeyStep(key) == 0 ==> activeIndex == old(activeIndex) && timerRunning == old(timerRunning)
      ensures KeyStep(key) == 1 ==> activeIndex == Next(old(activeIndex), total)
      ensures KeyStep(key) == -1 ==> activeIndex == Prev(old(activeIndex), total)
      ensures hover == old(hover) && Valid()
    {
      if key == "ArrowLeft" || key == "ArrowUp" {
        SetActive(activeIndex - 1, true, None);
        ResetAutoPlay();
      } else if key == "ArrowRight" || key == "ArrowDown" {
        SetActive(activeIndex + 1, true, None);
        ResetAutoPlay();
      }
    }

    /** The autoplay timer firing: `goToNext()` without options. */
    method Tick()
      requires Valid() && timerRunning
      modifies this, items, indicators
      ensures activeIndex == Next(old(activeIndex), total) && hover == old(hover) && focused == old(focused)
      ensures timerRunning && Valid()
    {
      SetActive(activeIndex + 1, false, None);
    }

    /** The mouse or focus entering the album: hover on, autoplay paused when enabled. */
    method Enter()
      requires Valid()
      modifies this
      ensures hover && (autoPlayEnabled ==> !timerRunning) && (!autoPlayEnabled ==> timerRunning == old(timerRunning))
      ensures activeIndex == old(activeIndex) && Valid()
    {
      hover := true;
      if autoPlayEnabled {
        PauseAutoPlay();
      }
    }

    /** The mouse leaving, or focus leaving to outside the album: hover off, autoplay resumed when enabled. */
    method Leave(focusStaysInside: bool)
      requires Valid()
      modifies this
      ensures focusStaysInside ==> hover == old(hover) && timerRunning == old(timerRunning)
      ensures !focusStaysInside ==> !hover && timerRunning == (if autoPlayEnabled && total > 1 then true else old(timerRunning))
      ensures activeIndex == old(activeIndex) && Valid()
    {
      if !focusStaysInside {
        hover := false;
        if autoPlayEnabled {
          StartAutoPlay();
        }
      }
    }

    /** The reduced-motion query changing: autoplay follows it. */
    method ReducedMotionChanged(matches: bool)
      requires Valid()
      modifies this
      ensures reducedMotion == matches && autoPlayEnabled == AutoPlayWanted(matches, dataAutoplay)
      ensures timerRunning == (autoPlayEnabled && total > 1)
      ensures activeIndex == old(activeIndex) && Valid()
    {
      reducedMotion := matches;
      autoPlayEnabled := !reducedMotion && dataAutoplay == Some("true");
      if !autoPlayEnabled {
        PauseAutoPlay();
      } else {
        StartAutoPlay();
      }
    }
  }

  /** An item as the set-up leaves it: its id filled in, hidden unless it is the first. */
  function NamedItem(albumIndex: nat, index: nat, id: string): (r: Item)
    ensures r.id == ItemId(albumIndex, index, id)
    ensures r.ariaHidden == "false" <==> index == 0
  {
    Item(ItemId(albumIndex, index, id), false, if index == 0 then "false" else "true", "", "", "")
  }

  /** The items with their ids filled in and `aria-hidden` set for index 0 active. */
  method NamedItems(count: nat, albumIndex: nat, ids: seq<string>) returns (items: array<Item>)
    requires |ids| == count
    ensures fresh(items) && items.Length == count
    ensures forall k :: 0 <= k < count ==> items[k] == NamedItem(albumIndex, k, ids[k])
  {
    items := new Item[count](k => Item("", false, "", "", "", ""));
    var i := 0;
    while i < count
      invariant 0 <= i <= count
      invariant forall k :: 0 <= k < i ==> items[k] == NamedItem(albumIndex, k, ids[k])
    {
      items[i] := NamedItem(albumIndex, i, ids[i]);
      i := i + 1;
    }
  }

  /** The indicator buttons, one per item, the first selected. */
  method CreateIndicators(indicators: array<Indicator>)
    modifies indicators
    ensures forall k :: 0 <= k < indicators.Length ==> indicators[k] == Marked(Indicator(IndicatorLabel(k), "", ""), k == 0)
  {
    var i := 0;
    while i < indicators.Length
      invariant 0 <= i <= indicators.Length
      invariant forall k :: 0 <= k < i ==> indicators[k] == Marked(Indicator(IndicatorLabel(k), "", ""), k == 0)
    {
      indicators[i] := Indicator(IndicatorLabel(i), if i == 0 then "true" else "false", if i == 0 then "0" else "-1");
      i := i + 1;
    }
  }

  /** Clicking next once per item brings the album back to the item it showed. */
  method ForwardAround(a: Album) returns (steps: nat)
    requires a.Valid()
    modifies a, a.items, a.indicators
    ensures steps == a.total && a.activeIndex == old(a.activeIndex) && a.Valid()
  {
    ghost var start := a.activeIndex;
    steps := 0;
    while steps < a.total
      invariant steps <= a.total && a.Valid()
      invariant a.activeIndex == NextTimes(start, steps, a.total)
    {
      a.NavClick(true);
      steps := steps + 1;
    }
    NextCycle(start, a.total);
  }
}
