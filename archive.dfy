/**
 * The archive page: the one-year posting heatmap, the running-days figure
 * and the year/month grouping of published posts.
 */
module Archive {
  import opened Util

  // ---------------------------------------------------------------------
  // Heatmap

  /** One day of the heatmap period, as the loop formats it. */
  datatype Day = Day(dayOfWeek: nat, dayOfMonth: nat, month: nat, monthName: string, date: string)

  /** A day's square: its week column, weekday row, post count and date. */
  datatype Cell = Cell(weekX: nat, dayOfWeek: nat, count: int, date: string)

  /** A month name placed above a week column. */
  datatype MonthHeading = MonthHeading(weekX: nat, month: nat, name: string)

  /** What the heatmap loop has emitted so far and the state it carries. */
  datatype Sweep = Sweep(cells: seq<Cell>, headings: seq<MonthHeading>, lastMonth: int, weekX: nat)

  /** The colour level of a day with `count` posts. */
  function Level(count: int): (r: nat)
    ensures r <= 4
    ensures r == 0 <==> count <= 0
    ensures r == 4 <==> count > 6
  {
    if count > 6 then 4
    else if count > 4 then 3
    else if count > 2 then 2
    else if count > 0 then 1
    else 0
  }

  /** More posts never give a lighter cell. */
  lemma LevelMonotone(a: int, b: int)
    requires a <= b
    ensures Level(a) <= Level(b)
  {
  }

  /** The posts on a date, 0 when the date has none. */
  function CountOn(data: map<string, int>, date: string): int {
    if date in data then data[date] else 0
  }

  /** The left edge of the cells of week column `weekX`. */
  function CellX(weekX: nat): nat { weekX * 13 + 60 }

  /** The top edge of the cells of weekday `dayOfWeek` (0 is Sunday). */
  function CellY(dayOfWeek: nat): nat { dayOfWeek * 13 + 20 }

  /** A day's square with its level class and hover title. */
  function CellHtml(c: Cell): string {
    "<rect x=\"" + NatToString(CellX(c.weekX)) + "\" y=\"" + NatToString(CellY(c.dayOfWeek))
    + "\" width=\"11\" height=\"11\" class=\"day-cell post-heatmap-level-" + NatToString(Level(c.count))
    + "\" rx=\"2\" ry=\"2\" fill=\"#ebedf0\"><title>" + c.date + " - " + IntToString(c.count)
    + " 篇文章</title></rect>"
  }

  /** A month name above its week column. */
  function HeadingHtml(h: MonthHeading): string {
    "<text x=\"" + NatToString(CellX(h.weekX)) + "\" y=\"15\" class=\"month-label\">" + h.name + "</text>"
  }

  /** A month is labelled on a Monday of its first seven days, unless it was the last one labelled. */
  predicate LabelsMonth(day: Day, lastMonth: int) {
    day.dayOfWeek == 1 && day.dayOfMonth <= 7 && day.month != lastMonth
  }

  /** One pass of the heatmap loop. */
  function Step(s: Sweep, day: Day, data: map<string, int>): Sweep {
    var labelled := LabelsMonth(day, s.lastMonth);
    Sweep(s.cells + [Cell(s.weekX, day.dayOfWeek, CountOn(data, day.date), day.date)],
          if labelled then s.headings + [MonthHeading(s.weekX, day.month, day.monthName)] else s.headings,
          if labelled then day.month else s.lastMonth,
          if day.dayOfWeek == 6 then s.weekX + 1 else s.weekX)
  }

  /** The number of Saturdays among `days`. */
  function Saturdays(days: seq<Day>): (r: nat)
    ensures r <= |days|
  {
    if days == [] then 0
    else Saturdays(days[..|days| - 1]) + (if days[|days| - 1].dayOfWeek == 6 then 1 else 0)
  }

  /** The loop's state after all of `days`: one cell per day, the column counting Saturdays. */
  function SweepOf(days: seq<Day>, data: map<string, int>): (r: Sweep)
    ensures |r.cells| == |days|
    ensures r.weekX == Saturdays(days)
  {
    if days == [] then Sweep([], [], -1, 0)
    else Step(SweepOf(days[..|days| - 1], data), days[|days| - 1], data)
  }

  /**
   * The heatmap loop of `barepaper_generate_heatmap_svg` over the days of
   * the past year (the period is an input): the cells and month labels are
   * those of the specification sweep, rendered in order by `cellHtml` and
   * `headingHtml` (the page passes `CellHtml` and `HeadingHtml`).
   */
  method HeatmapLoop(data: map<string, int>, days: seq<Day>, cellHtml: Cell -> string,
                     headingHtml: MonthHeading -> string)
    returns (dayCells: string, monthLabels: string, lastMonth: int, weekX: nat)
    ensures dayCells == ConcatMap(SweepOf(days, data).cells, cellHtml)
    ensures monthLabels == ConcatMap(SweepOf(days, data).headings, headingHtml)
    ensures lastMonth == SweepOf(days, data).lastMonth && weekX == SweepOf(days, data).weekX
  {
    dayCells, monthLabels, lastMonth, weekX := "", "", -1, 0;
    ghost var cells: seq<Cell>, headings: seq<MonthHeading> := [], [];
    var i := 0;
    while i < |days|
      invariant 0 <= i <= |days|
      invariant Sweep(cells, headings, lastMonth, weekX) == SweepOf(days[..i], data)
      invariant dayCells == ConcatMap(cells, cellHtml)
      invariant monthLabels == ConcatMap(headings, headingHtml)
    {
      SweepSnoc(days, data, i);
      cells, headings, dayCells, monthLabels, lastMonth, weekX :=
        HeatmapDay(data, days[i], cells, headings, dayCells, monthLabels, lastMonth, weekX, cellHtml, headingHtml);
      i := i + 1;
    }
    assert days[..|days|] == days;
  }

  /** One day of the heatmap loop: a label when the month starts, then the cell, then the column. */
  method HeatmapDay(data: map<string, int>, day: Day, ghost cells: seq<Cell>, ghost headings: seq<MonthHeading>,
                    dayCells: string, monthLabels: string, lastMonth: int, weekX: nat,
                    cellHtml: Cell -> string, headingHtml: MonthHeading -> string)
    returns (ghost cells': seq<Cell>, ghost headings': seq<MonthHeading>,
             dayCells': string, monthLabels': string, lastMonth': int, weekX': nat)
    requires dayCells == ConcatMap(cells, cellHtml) && monthLabels == ConcatMap(headings, headingHtml)
    ensures Sweep(cells', headings', lastMonth', weekX') == Step(Sweep(cells, headings, lastMonth, weekX), day, data)
    ensures dayCells' == ConcatMap(cells', cellHtml) && monthLabels' == ConcatMap(headings', headingHtml)
  {
    headings', monthLabels', lastMonth' := headings, monthLabels, lastMonth;
    if day.dayOfWeek == 1 && day.dayOfMonth <= 7 {
      if day.month != lastMonth {
        var heading := MonthHeading(weekX, day.month, day.monthName);
        ConcatMapSnoc(headings, heading, headingHtml);
        monthLabels' := monthLabels + headingHtml(heading);
        headings' := headings + [heading];
        lastMonth' := day.month;
      }
    }
    var count := CountOn(data, day.date);
    var cell := Cell(weekX, day.dayOfWeek, count, day.date);
    ConcatMapSnoc(cells, cell, cellHtml);
    dayCells' := dayCells + cellHtml(cell);
    cells' := cells + [cell];
    weekX' := if day.dayOfWeek == 6 then weekX + 1 else weekX;
  }

  /** The sweep over one more day is one more step. */
  lemma SweepSnoc(days: seq<Day>, data: map<string, int>, i: nat)
    requires i < |days|
    ensures SweepOf(days[..i + 1], data) == Step(SweepOf(days[..i], data), days[i], data)
  {
    assert days[..i + 1][..i] == days[..i];
  }

  /** The opening of the heatmap block. */
  const HeatmapOpen := "<div class=\"post-heatmap\"><svg width=\"800\" height=\"141\">"

  /** The Mon/Wed/Fri row labels. */
  const WeekdayLabels :=
    "<text x=\"30\" y=\"39.5\" class=\"weekday-label\" text-anchor=\"end\">Mon</text>"
    + "<text x=\"30\" y=\"65.5\" class=\"weekday-label\" text-anchor=\"end\">Wed</text>"
    + "<text x=\"30\" y=\"91.5\" class=\"weekday-label\" text-anchor=\"end\">Fri</text>"

  /** The Less..More legend and the closing tags. */
  const LegendAndClose :=
    "<text x=\"60\" y=\"126\" class=\"legend-text\">Less</text>"
    + "<rect x=\"95\" y=\"116\" width=\"11\" height=\"11\" class=\"day-cell post-heatmap-level-0\" rx=\"2\" ry=\"2\" fill=\"#ebedf0\" />"
    + "<rect x=\"108\" y=\"116\" width=\"11\" height=\"11\" class=\"day-cell post-heatmap-level-1\" rx=\"2\" ry=\"2\" fill=\"#c6e48b\" />"
    + "<rect x=\"121\" y=\"116\" width=\"11\" height=\"11\" class=\"day-cell post-heatmap-level-2\" rx=\"2\" ry=\"2\" fill=\"#7bc96f\" />"
    + "<rect x=\"134\" y=\"116\" width=\"11\" height=\"11\" class=\"day-cell post-heatmap-level-3\" rx=\"2\" ry=\"2\" fill=\"#239a3b\" />"
    + "<rect x=\"147\" y=\"116\" width=\"11\" height=\"11\" class=\"day-cell post-heatmap-level-4\" rx=\"2\" ry=\"2\" fill=\"#196127\" />"
    + "<text x=\"160\" y=\"126\" class=\"legend-text\">More</text>"
    + "</svg></div>"

  /** `barepaper_generate_heatmap_svg`: the month labels first, then the weekday names, the cells and the legend. */
  method GenerateHeatmapSvg(data: map<string, int>, days: seq<Day>) returns (svg: string)
    ensures var s := SweepOf(days, data);
      svg == HeatmapOpen + ConcatMap(s.headings, HeadingHtml) + WeekdayLabels
             + ConcatMap(s.cells, CellHtml) + LegendAndClose
  {
    var dayCells, monthLabels, lastMonth, weekX := HeatmapLoop(data, days, CellHtml, HeadingHtml);
    svg := HeatmapOpen;
    svg := svg + monthLabels;
    svg := svg + WeekdayLabels;
    svg := svg + dayCells;
    svg := svg + LegendAndClose;
  }

  /** The week column of the `k`-th day. */
  function WeekAt(days: seq<Day>, k: nat): nat
    requires k <= |days|
  {
    Saturdays(days[..k])
  }

  /** Each day advances the column only when it is a Saturday. */
  lemma WeekStep(days: seq<Day>, k: nat)
    requires k < |days|
    ensures WeekAt(days, k + 1) == WeekAt(days, k) + (if days[k].dayOfWeek == 6 then 1 else 0)
  {
    assert days[..k + 1][..k] == days[..k];
  }

  /** Columns never move left. */
  lemma {:induction false} WeekMonotone(days: seq<Day>, i: nat, j: nat)
    requires i <= j <= |days|
    ensures WeekAt(days, i) <= WeekAt(days, j)
    decreases j - i
  {
    if i < j {
      WeekStep(days, i);
      WeekMonotone(days, i + 1, j);
    }
  }

  /** The `k`-th cell is the `k`-th day, in the column counted by the Saturdays before it. */
  lemma {:induction false} SweepCell(days: seq<Day>, data: map<string, int>, k: nat)
    requires k < |days|
    ensures SweepOf(days, data).cells[k] == Cell(WeekAt(days, k), days[k].dayOfWeek, CountOn(data, days[k].date), days[k].date)
    decreases |days|
  {
    var init := days[..|days| - 1];
    if k < |init| {
      SweepCell(init, data, k);
      assert init[..k] == days[..k];
    } else {
      assert init == days[..k];
    }
  }

  /** Consecutive calendar days: weekdays run 0..6 and each day is the next weekday. */
  predicate Consecutive(days: seq<Day>) {
    (forall k :: 0 <= k < |days| ==> days[k].dayOfWeek < 7)
    && (forall k :: 0 <= k < |days| - 1 ==> days[k + 1].dayOfWeek == (days[k].dayOfWeek + 1) % 7)
  }

  /** Within one column the weekday grows by one per day. */
  lemma {:induction false} SameWeekWeekdays(days: seq<Day>, i: nat, j: nat)
    requires Consecutive(days)
    requires i <= j < |days| && WeekAt(days, i) == WeekAt(days, j)
    ensures days[j].dayOfWeek == days[i].dayOfWeek + (j - i)
    decreases j - i
  {
    if i < j {
      WeekMonotone(days, i, j - 1);
      WeekStep(days, j - 1);
      WeekMonotone(days, j - 1, j);
      SameWeekWeekdays(days, i, j - 1);
    }
  }

  /** Over consecutive days no two cells land on the same spot of the grid. */
  lemma CellsDoNotOverlap(days: seq<Day>, data: map<string, int>, i: nat, j: nat)
    requires Consecutive(days)
    requires i < j < |days|
    ensures var cells := SweepOf(days, data).cells;
      CellX(cells[i].weekX) != CellX(cells[j].weekX) || CellY(cells[i].dayOfWeek) != CellY(cells[j].dayOfWeek)
  {
    SweepCell(days, data, i);
    SweepCell(days, data, j);
    if WeekAt(days, i) == WeekAt(days, j) {
      SameWeekWeekdays(days, i, j);
    }
  }

  /** `h` labels the `k`-th day for some Monday `k` in the first seven days of its month. */
  ghost predicate FromFirstMonday(days: seq<Day>, h: MonthHeading) {
    exists k :: 0 <= k < |days| && days[k].dayOfWeek == 1 && days[k].dayOfMonth <= 7
      && h == MonthHeading(WeekAt(days, k), days[k].month, days[k].monthName)
  }

  /** A label placed for a prefix of the days is placed for the whole period too. */
  lemma FromFirstMondayExtends(days: seq<Day>, n: nat, h: MonthHeading)
    requires n <= |days| && FromFirstMonday(days[..n], h)
    ensures FromFirstMonday(days, h)
  {
    var k :| 0 <= k < n && days[..n][k].dayOfWeek == 1 && days[..n][k].dayOfMonth <= 7
      && h == MonthHeading(WeekAt(days[..n], k), days[..n][k].month, days[..n][k].monthName);
    assert days[..n][..k] == days[..k];
  }

  /** Every month label comes from a Monday in the first seven days of its month. */
  lemma {:induction false} HeadingsOnFirstMondays(days: seq<Day>, data: map<string, int>)
    ensures forall n :: 0 <= n < |SweepOf(days, data).headings| ==> FromFirstMonday(days, SweepOf(days, data).headings[n])
  {
    if days != [] {
      var last := |days| - 1;
      var init := days[..last];
      HeadingsOnFirstMondays(init, data);
      var hs := SweepOf(init, data).headings;
      forall n | 0 <= n < |hs|
        ensures FromFirstMonday(days, hs[n])
      {
        FromFirstMondayExtends(days, last, hs[n]);
      }
      if LabelsMonth(days[last], SweepOf(init, data).lastMonth) {
        assert init == days[..last];
        assert FromFirstMonday(days, MonthHeading(WeekAt(days, last), days[last].month, days[last].monthName));
      }
    }
  }

  /**
   * Two labels in a row never name the same month, and the loop's last
   * month is the last one labelled (-1 before any).
   */
  lemma {:induction false} HeadingsChangeMonth(days: seq<Day>, data: map<string, int>)
    ensures var hs := SweepOf(days, data).headings;
      forall n :: 0 <= n < |hs| - 1 ==> hs[n].month != hs[n + 1].month
    ensures var s := SweepOf(days, data);
      s.lastMonth == if s.headings == [] then -1 else s.headings[|s.headings| - 1].month
  {
    if days != [] {
      HeadingsChangeMonth(days[..|days| - 1], data);
    }
  }

  // ---------------------------------------------------------------------
  // Running days

  /**
   * The running-days figure: whole days from the first post (or the start of
   * today, with no posts) to now, rounded down.
   */
  function RunningDays(now: int, firstPost: Option<int>, todayStart: int): (r: int)
    ensures var start := if firstPost.Some? then firstPost.value else todayStart;
      r * 86400 <= now - start < r * 86400 + 86400
  {
    var start := if firstPost.Some? then firstPost.value else todayStart;
    (now - start) / 86400
  }

  /** A blog without posts has run for zero days during today. */
  lemma RunningDaysWithoutPosts(now: int, todayStart: int)
    requires todayStart <= now < todayStart + 86400
    ensures RunningDays(now, None, todayStart) == 0
  {
  }

  // ---------------------------------------------------------------------
  // Year/month grouping

  /** A published post as the archive query returns it, newest first. */
  datatype ArchivePost = ArchivePost(year: nat, month: nat, permalink: string, title: string)

  /** The list item shown for a post. */
  function ArchiveItem(p: ArchivePost): string {
    "<li><a href=\"" + p.permalink + "\">" + p.title + "</a></li>"
  }

  /**
   * The nested `$archives[$year][$month][]` array: the years in insertion
   * order, each year's months in insertion order, and each month's items.
   */
  datatype Archives = Archives(years: seq<nat>, months: map<nat, seq<nat>>, items: map<(nat, nat), seq<string>>)

  /** No year is listed twice. */
  ghost predicate YearsDistinct(a: Archives) {
    forall i, j :: 0 <= i < j < |a.years| ==> a.years[i] != a.years[j]
  }

  /** The listed years are the keys of the month map. */
  ghost predicate YearsIndexed(a: Archives) {
    forall y :: y in a.months <==> y in a.years
  }

  /** No month is listed twice under its year. */
  ghost predicate MonthsDistinct(a: Archives) {
    forall y :: y in a.months ==> forall i, j :: 0 <= i < j < |a.months[y]| ==> a.months[y][i] != a.months[y][j]
  }

  /** The item keys are exactly the listed (year, month) pairs. */
  ghost predicate ItemsIndexed(a: Archives) {
    forall y, m :: (y, m) in a.items <==> y in a.months && m in a.months[y]
  }

  /** The keys agree with each other and each list of keys has no repeats. */
  ghost predicate WellFormed(a: Archives) {
    YearsDistinct(a) && YearsIndexed(a) && MonthsDistinct(a) && ItemsIndexed(a)
  }

  /** `$archives[$year][$month][] = item`. */
  function AddPost(a: Archives, p: ArchivePost): Archives {
    var years := if p.year in a.months then a.years else a.years + [p.year];
    var ms := if p.year in a.months then a.months[p.year] else [];
    var months := a.months[p.year := if p.month in ms then ms else ms + [p.month]];
    var items := if (p.year, p.month) in a.items then a.items[(p.year, p.month)] else [];
    Archives(years, months, a.items[(p.year, p.month) := items + [ArchiveItem(p)]])
  }

  /** Adding a post keeps the keys consistent and free of repeats. */
  lemma AddPostWellFormed(a: Archives, p: ArchivePost)
    requires WellFormed(a)
    ensures WellFormed(AddPost(a, p))
  {
    AddPostYears(a, p);
    AddPostMonths(a, p);
    AddPostItems(a, p);
  }

  /** A new year is appended only when it is not yet a key. */
  lemma AddPostYears(a: Archives, p: ArchivePost)
    requires YearsDistinct(a) && YearsIndexed(a)
    ensures YearsDistinct(AddPost(a, p)) && YearsIndexed(AddPost(a, p))
  {
  }

  /** A new month is appended only when it is not yet under its year. */
  lemma AddPostMonths(a: Archives, p: ArchivePost)
    requires MonthsDistinct(a)
    ensures MonthsDistinct(AddPost(a, p))
  {
  }

  /** The new item key is the pair just listed. */
  lemma AddPostItems(a: Archives, p: ArchivePost)
    requires ItemsIndexed(a)
    ensures ItemsIndexed(AddPost(a, p))
  {
  }

  /** The archive built from `posts` in order. */
  function Grouped(posts: seq<ArchivePost>): Archives {
    if posts == [] then Archives([], map[], map[])
    else AddPost(Grouped(posts[..|posts| - 1]), posts[|posts| - 1])
  }

  /** Whatever the posts, the grouped archive's keys are consistent and free of repeats. */
  lemma {:induction false} GroupedWellFormed(posts: seq<ArchivePost>)
    ensures WellFormed(Grouped(posts))
  {
    if posts != [] {
      GroupedWellFormed(posts[..|posts| - 1]);
      AddPostWellFormed(Grouped(posts[..|posts| - 1]), posts[|posts| - 1]);
    }
  }

  /** The grouping loop of the archive page. */
  method GroupArchives(posts: seq<ArchivePost>) returns (archives: Archives)
    ensures archives == Grouped(posts)
  {
    archives := Archives([], map[], map[]);
    var i := 0;
    while i < |posts|
      invariant 0 <= i <= |posts|
      invariant archives == Grouped(posts[..i])
    {
      assert posts[..i + 1][..i] == posts[..i];
      archives := AddPost(archives, posts[i]);
      i := i + 1;
    }
    assert posts[..|posts|] == posts;
  }

  /** The items of the posts from year `y`, month `m`, in query order. */
  function Matching(posts: seq<ArchivePost>, y: nat, m: nat): seq<string> {
    if posts == [] then []
    else
      var p := posts[|posts| - 1];
      Matching(posts[..|posts| - 1], y, m) + (if p.year == y && p.month == m then [ArchiveItem(p)] else [])
  }

  /** Some post is from year `y`, month `m`. */
  predicate HasPostIn(posts: seq<ArchivePost>, y: nat, m: nat) {
    exists i :: 0 <= i < |posts| && posts[i].year == y && posts[i].month == m
  }

  /** A month has items exactly when some post is from it. */
  lemma {:induction false} MatchingNonEmpty(posts: seq<ArchivePost>, y: nat, m: nat)
    ensures Matching(posts, y, m) != [] <==> HasPostIn(posts, y, m)
  {
    if posts != [] {
      var init := posts[..|posts| - 1];
      MatchingNonEmpty(init, y, m);
      if HasPostIn(init, y, m) {
        var i :| 0 <= i < |init| && init[i].year == y && init[i].month == m;
        assert posts[i] == init[i];
      }
      if HasPostIn(posts, y, m) {
        var i :| 0 <= i < |posts| && posts[i].year == y && posts[i].month == m;
        if i < |init| {
          assert init[i] == posts[i];
        }
      }
    }
  }

  /**
   * Every (year, month) key comes from some post and holds exactly that
   * month's posts, in query order.
   */
  lemma {:induction false} GroupedItems(posts: seq<ArchivePost>, y: nat, m: nat)
    ensures (y, m) in Grouped(posts).items <==> HasPostIn(posts, y, m)
    ensures (y, m) in Grouped(posts).items ==> Grouped(posts).items[(y, m)] == Matching(posts, y, m)
  {
    MatchingNonEmpty(posts, y, m);
    GroupedMatching(posts, y, m);
  }

  /** The key is present exactly when its item list is non-empty, and then holds that list. */
  lemma {:induction false} GroupedMatching(posts: seq<ArchivePost>, y: nat, m: nat)
    ensures (y, m) in Grouped(posts).items <==> Matching(posts, y, m) != []
    ensures (y, m) in Grouped(posts).items ==> Grouped(posts).items[(y, m)] == Matching(posts, y, m)
  {
    if posts != [] {
      GroupedMatching(posts[..|posts| - 1], y, m);
    }
  }

  /** `p` is not older than `q` by year and month. */
  predicate NotBefore(y1: nat, m1: nat, y2: nat, m2: nat) {
    y1 > y2 || (y1 == y2 && m1 >= m2)
  }

  /** Posts newest first, as the query orders them. */
  predicate NewestFirst(posts: seq<ArchivePost>) {
    forall k :: 0 <= k < |posts| - 1 ==> NotBefore(posts[k].year, posts[k].month, posts[k + 1].year, posts[k + 1].month)
  }

  /** Each list strictly decreasing. */
  predicate Descending(s: seq<nat>) {
    forall i :: 0 <= i < |s| - 1 ==> s[i] > s[i + 1]
  }

  /**
   * With posts newest first, every year's months are collected in strictly
   * descending order, and no collected month is older than the last post.
   */
  lemma {:induction false} MonthsCollectedDescending(posts: seq<ArchivePost>)
    requires NewestFirst(posts)
    ensures forall y :: y in Grouped(posts).months ==> Descending(Grouped(posts).months[y])
    ensures posts != [] ==> forall y, m :: (y, m) in Grouped(posts).items ==>
      NotBefore(y, m, posts[|posts| - 1].year, posts[|posts| - 1].month)
  {
    if posts != [] {
      var init := posts[..|posts| - 1];
      var p := posts[|posts| - 1];
      assert NewestFirst(init) by {
        forall k | 0 <= k < |init| - 1
          ensures NotBefore(init[k].year, init[k].month, init[k + 1].year, init[k + 1].month)
        {
          assert init[k] == posts[k] && init[k + 1] == posts[k + 1];
        }
      }
      MonthsCollectedDescending(init);
      GroupedWellFormed(init);
      if init != [] {
        var q := init[|init| - 1];
        assert q == posts[|posts| - 2];
        AddPostDescending(Grouped(init), p, q.year, q.month);
      }
    }
  }

  /**
   * Adding a post no older than every collected month, and not newer than
   * `(y0, m0)` which bounds them all, appends months in descending order.
   */
  lemma AddPostDescending(a: Archives, p: ArchivePost, y0: nat, m0: nat)
    requires ItemsIndexed(a)
    requires forall y :: y in a.months ==> Descending(a.months[y])
    requires forall y, m :: (y, m) in a.items ==> NotBefore(y, m, y0, m0)
    requires NotBefore(y0, m0, p.year, p.month)
    ensures forall y :: y in AddPost(a, p).months ==> Descending(AddPost(a, p).months[y])
    ensures forall y, m :: (y, m) in AddPost(a, p).items ==> NotBefore(y, m, p.year, p.month)
  {
    if p.year in a.months && p.month !in a.months[p.year] {
      var ms := a.months[p.year];
      if ms != [] {
        assert (p.year, ms[|ms| - 1]) in a.items;
      }
    }
  }

  /** `$a` placed in a non-increasing list. */
  function InsertDesc(x: nat, s: seq<nat>): (r: seq<nat>)
    ensures |r| == |s| + 1
    ensures multiset(r) == multiset(s) + multiset{x}
    ensures forall i :: 0 <= i < |r| ==> r[i] == x || r[i] in s
  {
    if s == [] || x >= s[0] then [x] + s
    else
      assert s == [s[0]] + s[1..];
      [s[0]] + InsertDesc(x, s[1..])
  }

  /** Non-increasing. */
  predicate NonIncreasing(s: seq<nat>) {
    forall i :: 0 <= i < |s| - 1 ==> s[i] >= s[i + 1]
  }

  /** Inserting into a non-increasing list keeps it so. */
  lemma {:induction false} InsertDescSorted(x: nat, s: seq<nat>)
    requires NonIncreasing(s)
    ensures NonIncreasing(InsertDesc(x, s))
    ensures InsertDesc(x, s) != [] && (InsertDesc(x, s)[0] == x || (s != [] && InsertDesc(x, s)[0] == s[0]))
  {
    if s != [] && x < s[0] {
      InsertDescSorted(x, s[1..]);
    }
  }

  /** `krsort` on a year's month keys: largest first. */
  function SortDesc(s: seq<nat>): (r: seq<nat>)
    ensures multiset(r) == multiset(s)
  {
    if s == [] then []
    else
      assert s == [s[0]] + s[1..];
      InsertDesc(s[0], SortDesc(s[1..]))
  }

  /** The sorted keys are in descending order. */
  lemma {:induction false} SortDescSorted(s: seq<nat>)
    ensures NonIncreasing(SortDesc(s))
  {
    if s != [] {
      SortDescSorted(s[1..]);
      InsertDescSorted(s[0], SortDesc(s[1..]));
    }
  }

  /** Sorting keys that are already in descending order leaves them as they are. */
  lemma {:induction false} SortDescKeepsSorted(s: seq<nat>)
    requires NonIncreasing(s)
    ensures SortDesc(s) == s
  {
    if s != [] {
      SortDescKeepsSorted(s[1..]);
      assert s == [s[0]] + s[1..];
    }
  }

  /** With posts newest first, `krsort` does not reorder any year's months. */
  lemma KrsortNoOp(posts: seq<ArchivePost>, y: nat)
    requires NewestFirst(posts)
    requires y in Grouped(posts).months
    ensures SortDesc(Grouped(posts).months[y]) == Grouped(posts).months[y]
  {
    MonthsCollectedDescending(posts);
    SortDescKeepsSorted(Grouped(posts).months[y]);
  }

  /** One month heading with its post list. */
  function MonthHtml(a: Archives, y: nat, m: nat): string
    requires (y, m) in a.items
  {
    "<li><h4 class=\"month\">" + NatToString(m) + "月</h4><ol class=\"post-list\" reversed>"
    + ConcatMap(a.items[(y, m)], (s: string) => s) + "</ol></li>"
  }

  /** The block of a listed month, and nothing for a month without posts. */
  function MonthBlock(a: Archives, y: nat): nat -> string {
    (m: nat) => if (y, m) in a.items then MonthHtml(a, y, m) else ""
  }

  /** A year's months in `krsort` order. */
  function MonthsHtml(a: Archives, y: nat, ms: seq<nat>): string
    requires forall i :: 0 <= i < |ms| ==> (y, ms[i]) in a.items
  {
    ConcatMap(ms, MonthBlock(a, y))
  }

  /** Several months' blocks are the blocks of each part in turn. */
  lemma MonthsHtmlAppend(a: Archives, y: nat, ms1: seq<nat>, ms2: seq<nat>)
    requires forall i :: 0 <= i < |ms1| ==> (y, ms1[i]) in a.items
    requires forall i :: 0 <= i < |ms2| ==> (y, ms2[i]) in a.items
    ensures forall i :: 0 <= i < |ms1 + ms2| ==> (y, (ms1 + ms2)[i]) in a.items
    ensures MonthsHtml(a, y, ms1 + ms2) == MonthsHtml(a, y, ms1) + MonthsHtml(a, y, ms2)
  {
    ConcatMapAppend(ms1, ms2, MonthBlock(a, y));
  }

  /** The first month listed comes first, with its heading and posts. */
  lemma MonthsHtmlFirst(a: Archives, y: nat, ms: seq<nat>)
    requires ms != [] && forall i :: 0 <= i < |ms| ==> (y, ms[i]) in a.items
    ensures MonthsHtml(a, y, ms) == MonthHtml(a, y, ms[0]) + MonthsHtml(a, y, ms[1..])
  {
    assert ms == [ms[0]] + ms[1..];
    ConcatMapCons(ms[0], ms[1..], MonthBlock(a, y));
  }

  /** The heading of a year and the opening of its month list. */
  function YearOpen(y: nat): string {
    "<h3 class=\"year custom-container alert\">" + NatToString(y) + "</h3><ol class=\"month-list\">"
  }

  /** One year's block. */
  function YearHtml(a: Archives, y: nat): string
    requires WellFormed(a) && y in a.months
  {
    SortedMonthsListed(a, y);
    YearOpen(y) + MonthsHtml(a, y, SortDesc(a.months[y])) + "</ol>"
  }

  /** Every month `krsort` returns is a listed month of the year. */
  lemma SortedMonthsListed(a: Archives, y: nat)
    requires WellFormed(a) && y in a.months
    ensures forall i :: 0 <= i < |SortDesc(a.months[y])| ==> SortDesc(a.months[y])[i] in a.months[y]
    ensures forall i :: 0 <= i < |SortDesc(a.months[y])| ==> (y, SortDesc(a.months[y])[i]) in a.items
  {
    var sorted := SortDesc(a.months[y]);
    forall i | 0 <= i < |sorted|
      ensures sorted[i] in a.months[y]
    {
      assert sorted[i] in multiset(sorted);
      assert sorted[i] in multiset(a.months[y]);
    }
  }

  /**
   * A year's block lists its months newest first: the months shown are a
   * reordering of the year's months, in non-increasing order.
   */
  lemma YearMonthOrder(a: Archives, y: nat)
    requires WellFormed(a) && y in a.months
    ensures var ms := SortDesc(a.months[y]);
      NonIncreasing(ms) && multiset(ms) == multiset(a.months[y]) &&
      (forall i :: 0 <= i < |ms| ==> ms[i] in a.months[y]) &&
      YearHtml(a, y) == YearOpen(y) + MonthsHtml(a, y, ms) + "</ol>"
  {
    SortDescSorted(a.months[y]);
    SortedMonthsListed(a, y);
  }

  /**
   * For posts queried newest first, each year's months are shown in the
   * order they were collected, which is strictly descending.
   */
  lemma YearHtmlNewestFirst(posts: seq<ArchivePost>, y: nat)
    requires NewestFirst(posts) && y in Grouped(posts).months
    ensures WellFormed(Grouped(posts))
    ensures Descending(Grouped(posts).months[y])
    ensures YearHtml(Grouped(posts), y) ==
      YearOpen(y) + MonthsHtml(Grouped(posts), y, Grouped(posts).months[y]) + "</ol>"
  {
    GroupedWellFormed(posts);
    MonthsCollectedDescending(posts);
    KrsortNoOp(posts, y);
  }

  /** The block of a listed year, and nothing for a year without months. */
  function YearBlock(a: Archives): nat -> string
    requires WellFormed(a)
  {
    (y: nat) => if y in a.months then YearHtml(a, y) else ""
  }

  /** The archive list, the years in the order they were first seen. */
  function ArchivesHtml(a: Archives, ys: seq<nat>): string
    requires WellFormed(a) && forall i :: 0 <= i < |ys| ==> ys[i] in a.months
  {
    ConcatMap(ys, YearBlock(a))
  }

  /** The years' blocks follow the order of the years. */
  lemma ArchivesHtmlAppend(a: Archives, ys1: seq<nat>, ys2: seq<nat>)
    requires WellFormed(a)
    requires forall i :: 0 <= i < |ys1| ==> ys1[i] in a.months
    requires forall i :: 0 <= i < |ys2| ==> ys2[i] in a.months
    ensures forall i :: 0 <= i < |ys1 + ys2| ==> (ys1 + ys2)[i] in a.months
    ensures ArchivesHtml(a, ys1 + ys2) == ArchivesHtml(a, ys1) + ArchivesHtml(a, ys2)
  {
    ConcatMapAppend(ys1, ys2, YearBlock(a));
  }
}
