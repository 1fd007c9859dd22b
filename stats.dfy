/**
 * The visitor and administrator accounting of features/stats.php: the
 * duration text, the visitor key, the per-visitor online row with its
 * 30-second throttle, the maximum-online record, the batched cleanup of
 * stale rows, and the administrator's session clock (update, logout, the
 * displayed total and the online flag).
 *
 * The clock (`time()`), the SHA-256 digest and the random cookie id are
 * parameters; the database and the options are fields of the classes.
 */
module Stats {
  import opened Util

  // ---------------------------------------------------------------------
  // Durations

  /** The units of `paper_wp_format_seconds`, largest first. */
  datatype Unit = Day | Hour | Minute | Second

  function Size(u: Unit): nat {
    match u
    case Day => 86400
    case Hour => 3600
    case Minute => 60
    case Second => 1
  }

  /** The unit shown after the main one (seconds have none). */
  function Sub(u: Unit): Unit {
    match u
    case Day => Hour
    case Hour => Minute
    case Minute => Second
    case Second => Second
  }

  function Name(u: Unit): string {
    match u
    case Day => "天"
    case Hour => "小时"
    case Minute => "分钟"
    case Second => "秒"
  }

  /** What the text shows: a count of the main unit and one of the unit below it. */
  datatype Shown = Shown(major: nat, unit: Unit, minor: nat)

  /** The band the amount falls in, and the whole units of it and of the unit below. */
  function Breakdown(s: nat): Shown {
    if s >= 86400 then Shown(s / 86400, Day, s % 86400 / 3600)
    else if s >= 3600 then Shown(s / 3600, Hour, s % 3600 / 60)
    else if s >= 60 then Shown(s / 60, Minute, s % 60)
    else Shown(s, Second, 0)
  }

  /** The seconds a display stands for. */
  function Value(d: Shown): nat {
    d.major * Size(d.unit) + (if d.unit == Second then 0 else d.minor * Size(Sub(d.unit)))
  }

  /** The lower count and unit, left out when the count is 0. */
  function MinorText(u: Unit, minor: nat): string {
    if minor > 0 && u != Second then NatToString(minor) + Name(Sub(u)) else ""
  }

  /** The text: the main count and unit, then the lower part. */
  function Render(d: Shown): string {
    NatToString(d.major) + Name(d.unit) + MinorText(d.unit, d.minor)
  }

  /** `paper_wp_format_seconds`: negative amounts count as 0. */
  function FormatSeconds(seconds: int): string {
    Render(Breakdown(Max(0, seconds)))
  }

  /**
   * The display truncates: it shows at least one main unit (below a minute,
   * the exact seconds) and falls short of the amount by less than one of
   * the lower unit.
   */
  lemma BreakdownTruncates(s: nat)
    ensures var d := Breakdown(s);
      Value(d) <= s < Value(d) + Size(Sub(d.unit)) &&
      (d.unit == Second <==> s < 60) && (d.unit != Second ==> d.major >= 1) &&
      (d.unit != Second ==> d.minor * Size(Sub(d.unit)) < Size(d.unit))
  {
    var d := Breakdown(s);
    if s >= 86400 {
      assert s == s / 86400 * 86400 + s % 86400;
      assert s % 86400 == s % 86400 / 3600 * 3600 + s % 86400 % 3600;
    } else if s >= 3600 {
      assert s == s / 3600 * 3600 + s % 3600;
      assert s % 3600 == s % 3600 / 60 * 60 + s % 3600 % 60;
    } else if s >= 60 {
      assert s == s / 60 * 60 + s % 60;
    }
  }

  /** The unit whose name starts `t`, if any. */
  function UnitAt(t: string): Option<Unit> {
    if StartsWith(t, Name(Day)) then Some(Day)
    else if StartsWith(t, Name(Hour)) then Some(Hour)
    else if StartsWith(t, Name(Minute)) then Some(Minute)
    else if StartsWith(t, Name(Second)) then Some(Second)
    else None
  }

  /** Reads a duration text back: digits, a unit, and the lower part. */
  function Parse(r: string): Option<Shown> {
    var a := IntegerPart(r);
    if a == [] then None
    else
      var rest := r[|a|..];
      match UnitAt(rest)
      case None => None
      case Some(u) =>
        match ParseMinor(u, rest[|Name(u)|..])
        case None => None
        case Some(m) => Some(Shown(DigitsValue(a), u, m))
  }

  /** Reads the lower part after unit `u` back: nothing, or digits and the lower unit. */
  function ParseMinor(u: Unit, after: string): Option<nat> {
    if after == [] then Some(0)
    else
      var b := IntegerPart(after);
      if b == [] || u == Second || after[|b|..] != Name(Sub(u)) then None
      else Some(DigitsValue(b))
  }

  lemma UnitAtName(u: Unit, t: string)
    ensures UnitAt(Name(u) + t) == Some(u)
  {
    var s := Name(u) + t;
    assert s[..|Name(u)|] == Name(u);
    assert s[0] == Name(u)[0];
  }

  lemma ParseMinorText(u: Unit, minor: nat)
    requires u == Second ==> minor == 0
    ensures ParseMinor(u, MinorText(u, minor)) == Some(minor)
  {
    var tail := MinorText(u, minor);
    if tail != [] {
      var b := NatToString(minor);
      IntegerPartOf(b, Name(Sub(u)));
      NatToStringValue(minor);
      assert tail[|b|..] == Name(Sub(u));
    }
  }

  /** Every display the text can show is read back from its text. */
  lemma ParseRender(d: Shown)
    requires d.unit == Second ==> d.minor == 0
    ensures Parse(Render(d)) == Some(d)
  {
    var a := NatToString(d.major);
    var tail := MinorText(d.unit, d.minor);
    var rest := Name(d.unit) + tail;
    assert Render(d) == a + rest;
    IntegerPartOf(a, rest);
    NatToStringValue(d.major);
    assert (a + rest)[|a|..] == rest;
    UnitAtName(d.unit, tail);
    assert rest[|Name(d.unit)|..] == tail;
    ParseMinorText(d.unit, d.minor);
  }

  /** The duration text reads back as the truncated breakdown of the clamped amount. */
  lemma FormatSecondsReadsBack(seconds: int)
    ensures Parse(FormatSeconds(seconds)) == Some(Breakdown(Max(0, seconds)))
    ensures seconds <= 0 ==> FormatSeconds(seconds) == "0秒"
  {
    var d := Breakdown(Max(0, seconds));
    ParseRender(d);
    if seconds <= 0 {
      assert NatToString(0) == "0";
    }
  }

  // ---------------------------------------------------------------------
  // Visitors

  /** PHP `substr($s, 0, $n)` for `n >= 0`. */
  function Prefix(s: string, n: nat): (r: string)
    ensures |r| == Min(n, |s|) && r == s[..|r|]
  {
    s[..Min(n, |s|)]
  }

  /**
   * `paper_wp_generate_visitor_hash`: `u` and the id for a logged-in user;
   * for a guest, `g` and 32 characters of the SHA-256 hex digest (`sha`) of
   * the visitor cookie, or of `ip|user-agent` when the cookie is empty.
   */
  function VisitorHash(userId: int, cookie: string, ip: string, ua: string, sha: string -> string): (h: string)
    ensures |h| >= 2 || (userId <= 0 && sha(if !EmptyStr(cookie) then cookie else ip + "|" + ua) == [])
    ensures |h| >= 1 && (h[0] == 'u' <==> userId > 0) && (h[0] == 'g' <==> userId <= 0)
    ensures userId <= 0 ==> |h| <= 33
  {
    if userId > 0 then "u" + IntToString(userId)
    else
      var key := if !EmptyStr(cookie) then cookie else ip + "|" + ua;
      "g" + Prefix(sha(key), 32)
  }

  /** Two logged-in users never share a key. */
  lemma UserKeysDistinct(a: int, b: int, cookie: string, ip: string, ua: string, sha: string -> string)
    requires a > 0 && b > 0 && a != b
    ensures VisitorHash(a, cookie, ip, ua, sha) != VisitorHash(b, cookie, ip, ua, sha)
  {
    if VisitorHash(a, cookie, ip, ua, sha) == VisitorHash(b, cookie, ip, ua, sha) {
      assert NatToString(a) == VisitorHash(a, cookie, ip, ua, sha)[1..];
      NatToStringInjective(a, b);
    }
  }

  /** A guest with a cookie keeps one key whatever address and browser it comes from. */
  lemma GuestKeyFollowsCookie(userId: int, cookie: string, ip: string, ua: string, ip': string, ua': string, sha: string -> string)
    requires userId <= 0 && !EmptyStr(cookie)
    ensures VisitorHash(userId, cookie, ip, ua, sha) == VisitorHash(userId, cookie, ip', ua', sha)
  {
  }

  /** A row of the online-users table. */
  datatype Row = Row(userId: int, lastActive: int, createdAt: int)

  /**
   * The throttle of `paper_wp_update_user_online_status`: unless forced, an
   * update is skipped while the cached time of the last one (a non-zero
   * value) is less than 30 seconds old.
   */
  predicate Throttled(force: bool, cache: map<string, int>, h: string, now: int) {
    !force && h in cache && cache[h] != 0 && now - cache[h] < 30
  }

  /** The keys of the rows whose last activity is before `cutoff`. */
  function StaleKeys(rows: map<string, Row>, cutoff: int): (r: set<string>)
    ensures r <= rows.Keys
    ensures forall h :: h in rows ==> (h in r <==> rows[h].lastActive < cutoff)
  {
    set h | h in rows && rows[h].lastActive < cutoff
  }

  /** The rows without the keys in `gone`. */
  function Without(rows: map<string, Row>, gone: set<string>): (r: map<string, Row>)
    ensures r.Keys == rows.Keys - gone
    ensures forall h :: h in r ==> r[h] == rows[h]
  {
    map h | h in rows && h !in gone :: rows[h]
  }

  /** A finite set has a subset of every smaller size. */
  lemma {:induction false} SubsetOfSize<T>(s: set<T>, n: nat)
    requires n <= |s|
    ensures exists b :: b <= s && |b| == n
  {
    if n == 0 {
      var e: set<T> := {};
      assert e <= s && |e| == 0;
    } else {
      var x :| x in s;
      SubsetOfSize(s - {x}, n - 1);
      var b :| b <= s - {x} && |b| == n - 1;
      assert b + {x} <= s && |b + {x}| == n;
    }
  }

  class OnlineStats {
    /** The `paper_online_users` table, keyed by visitor hash. */
    var rows: map<string, Row>
    /** The `online_update_<hash>` entries of the object cache. */
    var throttle: map<string, int>
    /** The `paper_wp_visitor_id` cookie of the request, `""` when absent. */
    var cookie: string
    /** The `paper_wp_max_online` option: the record count and its time. */
    var maxCount: int
    var maxTime: int

    constructor(cookie: string)
      ensures rows == map[] && throttle == map[] && this.cookie == cookie
      ensures maxCount == 0 && maxTime == 0
    {
      rows := map[];
      throttle := map[];
      this.cookie := cookie;
      maxCount := 0;
      maxTime := 0;
    }

    /**
     * `paper_wp_update_user_online_status` at time `now`: a guest without a
     * cookie is given `vid_` and `random` (unless the headers are already
     * sent); the visitor's row is inserted or its user and time updated, and
     * its throttle entry set, unless the throttle skips the update or the
     * query (`dbOk`) fails.
     */
    method UpdateUserOnline(force: bool, userId: int, ip: string, ua: string, now: int,
                            headersSent: bool, random: string, sha: string -> string, dbOk: bool)
      returns (ok: bool)
      modifies this
      ensures cookie == if userId == 0 && EmptyStr(old(cookie)) && !headersSent then "vid_" + random else old(cookie)
      ensures maxCount == old(maxCount) && maxTime == old(maxTime)
      ensures var h := VisitorHash(userId, cookie, ip, ua, sha);
        if Throttled(force, old(throttle), h, now) then
          ok && rows == old(rows) && throttle == old(throttle)
        else if dbOk then
          ok && throttle == old(throttle)[h := now] &&
          rows == old(rows)[h := Row(userId, now, if h in old(rows) then old(rows)[h].createdAt else now)]
        else
          !ok && rows == old(rows) && throttle == old(throttle)
    {
      if userId == 0 && EmptyStr(cookie) && !headersSent {
        cookie := "vid_" + random;
      }
      var h := VisitorHash(userId, cookie, ip, ua, sha);
      if !force {
        if h in throttle && throttle[h] != 0 && now - throttle[h] < 30 {
          return true;
        }
      }
      if !dbOk {
        return false;
      }
      var created := if h in rows then rows[h].createdAt else now;
      rows := rows[h := Row(userId, now, created)];
      throttle := throttle[h := now];
      ok := true;
    }

    /** The visitors active in the last five minutes. */
    function Online(now: int): set<string>
      reads this
    {
      set h | h in rows && rows[h].lastActive >= now - 300
    }

    /**
     * `paper_wp_update_max_online_if_needed`: the record moves to `current`
     * (at time `now`) only when `current` beats it, so it never decreases.
     */
    method UpdateMaxIfNeeded(current: int, now: int)
      modifies this
      ensures maxCount == Max(old(maxCount), current)
      ensures maxTime == if current > old(maxCount) then now else old(maxTime)
      ensures rows == old(rows) && throttle == old(throttle) && cookie == old(cookie)
    {
      if current > maxCount {
        maxCount := current;
        maxTime := now;
      }
    }

    /** `paper_wp_get_online_users_count`: the count, with the record raised to it. */
    method OnlineCount(now: int) returns (n: nat)
      modifies this
      ensures n == |old(Online(now))|
      ensures maxCount == if n > 0 then Max(old(maxCount), n) else old(maxCount)
      ensures rows == old(rows) && throttle == old(throttle) && cookie == old(cookie)
    {
      n := |Online(now)|;
      if n > 0 {
        UpdateMaxIfNeeded(n, now);
      }
    }

    /**
     * `paper_wp_cleanup_online_users_table` at time `now`: the rows inactive
     * for 15 minutes are deleted in batches (see `DeleteStale`).
     */
    method Cleanup(now: int, fails: nat -> bool) returns (deleted: nat)
      modifies this
      ensures Deleted(old(rows), rows, now - 900, deleted, fails)
      ensures throttle == old(throttle) && cookie == old(cookie) && maxCount == old(maxCount) && maxTime == old(maxTime)
    {
      rows, deleted := DeleteStale(rows, now - 900, fails);
    }
  }

  /**
   * What the cleanup leaves: at most 5000 rows gone, all of them stale, the
   * others as they were; and when no query fails, every stale row gone up
   * to 5000 of them.
   */
  predicate Deleted(rows0: map<string, Row>, rows: map<string, Row>, cutoff: int, deleted: nat, fails: nat -> bool) {
    deleted <= 5000 &&
    rows.Keys <= rows0.Keys && deleted == |rows0.Keys - rows.Keys| &&
    (forall h :: h in rows ==> rows[h] == rows0[h]) &&
    (forall h :: h in rows0 && h !in rows ==> rows0[h].lastActive < cutoff) &&
    ((forall k :: 0 <= k < 10 ==> !fails(k)) ==> deleted == Min(|StaleKeys(rows0, cutoff)|, 5000))
  }

  /**
   * The deletion loop of the cleanup: batches of at most 500 stale rows
   * until a batch deletes nothing or fails (`fails(k)` for the `k`-th), a
   * batch is short, or 5000 rows are gone. Which stale rows a batch takes
   * is left open.
   */
  method DeleteStale(rows0: map<string, Row>, cutoff: int, fails: nat -> bool) returns (rows: map<string, Row>, deleted: nat)
    ensures Deleted(rows0, rows, cutoff, deleted, fails)
  {
    rows := rows0;
    ghost var removed: set<string> := {};
    deleted := 0;
    var batch := 0;
    while true
      invariant removed <= StaleKeys(rows0, cutoff) && |removed| == deleted
      invariant rows == Without(rows0, removed)
      invariant deleted == 500 * batch && deleted < 5000
      decreases 5000 - deleted
    {
      StaleAfter(rows0, cutoff, removed);
      ghost var total := |StaleKeys(rows0, cutoff)|;
      var stale := StaleKeys(rows, cutoff);
      assert |stale| == total - deleted;
      var n := Min(500, |stale|);
      if fails(batch) || n == 0 {
        assert batch < 10;
        assert (forall k :: 0 <= k < 10 ==> !fails(k)) ==> deleted == Min(total, 5000);
        break;
      }
      SubsetOfSize(stale, n);
      var gone :| gone <= stale && |gone| == n;
      BatchStep(rows0, cutoff, removed, gone);
      rows := Without(rows, gone);
      removed := removed + gone;
      deleted := deleted + n;
      if deleted >= 5000 || n < 500 {
        assert deleted <= 5000;
        assert deleted == Min(total, 5000);
        break;
      }
      batch := batch + 1;
    }
    DeletedWithout(rows0, cutoff, removed, fails);
  }

  /** Deleting a set of stale rows, of the right count, is a cleanup result. */
  lemma DeletedWithout(rows0: map<string, Row>, cutoff: int, removed: set<string>, fails: nat -> bool)
    requires removed <= StaleKeys(rows0, cutoff) && |removed| <= 5000
    requires (forall k :: 0 <= k < 10 ==> !fails(k)) ==> |removed| == Min(|StaleKeys(rows0, cutoff)|, 5000)
    ensures Deleted(rows0, Without(rows0, removed), cutoff, |removed|, fails)
  {
    assert rows0.Keys - Without(rows0, removed).Keys == removed;
  }

  /** After deleting some stale rows, the stale rows left are the others. */
  lemma StaleAfter(rows0: map<string, Row>, cutoff: int, removed: set<string>)
    requires removed <= StaleKeys(rows0, cutoff)
    ensures StaleKeys(Without(rows0, removed), cutoff) == StaleKeys(rows0, cutoff) - removed
    ensures |StaleKeys(Without(rows0, removed), cutoff)| == |StaleKeys(rows0, cutoff)| - |removed|
  {
    var a := StaleKeys(rows0, cutoff);
    assert StaleKeys(Without(rows0, removed), cutoff) == a - removed;
    assert a == (a - removed) + removed;
  }

  /** One batch more: the deletions compose and their counts add up. */
  lemma BatchStep(rows0: map<string, Row>, cutoff: int, removed: set<string>, gone: set<string>)
    requires removed <= StaleKeys(rows0, cutoff)
    requires gone <= StaleKeys(Without(rows0, removed), cutoff)
    ensures Without(Without(rows0, removed), gone) == Without(rows0, removed + gone)
    ensures removed + gone <= StaleKeys(rows0, cutoff)
    ensures |removed + gone| == |removed| + |gone|
  {
    StaleAfter(rows0, cutoff, removed);
    assert removed * gone == {};
  }

  // ---------------------------------------------------------------------
  // The administrator's clock

  /** A row of the admin sessions table. */
  datatype Session = Session(start: int, lastUpdate: int, total: int)

  /** What the options and the sessions table hold for one administrator. */
  datatype AdminRecord = AdminRecord(saved: int, session: Option<Session>, lastActive: int)

  /**
   * The seconds `paper_wp_get_admin_total_online_time` counts for one
   * administrator at `now`: the saved total, plus the open session's total
   * and the time since its last update when that is at most 30 minutes, or
   * without a session the time since the last activity when that is at
   * most 5 minutes.
   */
  function OnlineSeconds(a: AdminRecord, now: int): (r: int)
    ensures a.session.Some? ==> a.saved + a.session.value.total <= r <= a.saved + a.session.value.total + 1800
    ensures a.session.None? ==> a.saved <= r <= a.saved + 300
  {
    a.saved +
    match a.session
    case Some(s) =>
      s.total + (if s.lastUpdate > 0 && s.lastUpdate <= now && 0 < now - s.lastUpdate <= 1800 then now - s.lastUpdate else 0)
    case None =>
      if a.lastActive > 0 && a.lastActive <= now && 0 < now - a.lastActive <= 300 then now - a.lastActive else 0
  }

  /** The seconds counted over a list of administrators. */
  function TotalSeconds(admins: seq<AdminRecord>, now: int): int
    decreases |admins|
  {
    if admins == [] then 0
    else TotalSeconds(admins[..|admins| - 1], now) + OnlineSeconds(admins[|admins| - 1], now)
  }

  /** The live part of the total is never more than 30 minutes per administrator. */
  lemma {:induction false} TotalSecondsBounds(admins: seq<AdminRecord>, now: int)
    requires forall i :: 0 <= i < |admins| ==> admins[i].session.Some?
    ensures StoredSeconds(admins) <= TotalSeconds(admins, now) <= StoredSeconds(admins) + 1800 * |admins|
    decreases |admins|
  {
    if admins != [] {
      TotalSecondsBounds(admins[..|admins| - 1], now);
    }
  }

  /** The saved totals and the open sessions' totals. */
  function StoredSeconds(admins: seq<AdminRecord>): int
    decreases |admins|
  {
    if admins == [] then 0
    else
      var a := admins[|admins| - 1];
      StoredSeconds(admins[..|admins| - 1]) + a.saved + (if a.session.Some? then a.session.value.total else 0)
  }

  /** The uncached work of `paper_wp_get_admin_total_online_time`: the clamped sum, as a duration text. */
  method SumOnlineTime(admins: seq<AdminRecord>, now: int) returns (text: string)
    ensures text == FormatSeconds(TotalSeconds(admins, now))
  {
    var total := 0;
    var i := 0;
    while i < |admins|
      invariant i <= |admins|
      invariant total == TotalSeconds(admins[..i], now)
    {
      assert admins[..i + 1][..i] == admins[..i];
      total := total + OnlineSeconds(admins[i], now);
      i := i + 1;
    }
    assert admins[..i] == admins;
    total := Max(0, total);
    text := FormatSeconds(total);
  }

  /**
   * The uncached work of `paper_wp_get_admin_online_status`: online when
   * some administrator was active in the last five minutes, and the latest
   * activity time (0 when there is none).
   */
  method ScanOnlineStatus(admins: seq<AdminRecord>, now: int) returns (isOnline: bool, latest: int)
    ensures isOnline <==> exists i :: 0 <= i < |admins| && admins[i].lastActive > 0 && now - admins[i].lastActive <= 300
    ensures latest >= 0
    ensures forall i :: 0 <= i < |admins| && admins[i].lastActive > 0 ==> admins[i].lastActive <= latest
    ensures latest == 0 || exists i :: 0 <= i < |admins| && admins[i].lastActive == latest
  {
    isOnline := false;
    latest := 0;
    var i := 0;
    while i < |admins|
      invariant i <= |admins| && latest >= 0
      invariant isOnline <==> exists j :: 0 <= j < i && admins[j].lastActive > 0 && now - admins[j].lastActive <= 300
      invariant forall j :: 0 <= j < i && admins[j].lastActive > 0 ==> admins[j].lastActive <= latest
      invariant latest == 0 || exists j :: 0 <= j < i && admins[j].lastActive == latest
    {
      var t := admins[i].lastActive;
      if t > 0 {
        if now - t <= 300 {
          isOnline := true;
        }
        if t > latest {
          latest := t;
        }
      }
      i := i + 1;
    }
  }

  /** A value in the object cache and the time from which it is no longer served. */
  datatype Cached<T> = Cached(value: T, expires: int)

  /** The `paper_stats` group of the object cache: the two memoized administrator summaries. */
  class StatsCache {
    /** `admin_total_time`, kept for 300 seconds. */
    var totalTime: Option<Cached<string>>
    /** `admin_online_status`, kept for 60 seconds. */
    var onlineStatus: Option<Cached<(bool, int)>>

    constructor()
      ensures totalTime == None && onlineStatus == None
    {
      totalTime := None;
      onlineStatus := None;
    }

    /** A live entry is served as it is; otherwise the total is computed and kept for 300 seconds. */
    method TotalOnlineTime(admins: seq<AdminRecord>, now: int) returns (text: string)
      modifies this
      ensures onlineStatus == old(onlineStatus)
      ensures old(Live(totalTime, now)) ==> text == old(totalTime).value.value && totalTime == old(totalTime)
      ensures !old(Live(totalTime, now)) ==>
        text == FormatSeconds(TotalSeconds(admins, now)) && totalTime == Some(Cached(text, now + 300))
    {
      if totalTime.Some? && now < totalTime.value.expires {
        return totalTime.value.value;
      }
      text := SumOnlineTime(admins, now);
      totalTime := Some(Cached(text, now + 300));
    }

    /** A live entry is served as it is; otherwise the status is computed and kept for 60 seconds. */
    method AdminOnlineStatus(admins: seq<AdminRecord>, now: int) returns (isOnline: bool, latest: int)
      modifies this
      ensures totalTime == old(totalTime)
      ensures old(Live(onlineStatus, now)) ==> (isOnline, latest) == old(onlineStatus).value.value && onlineStatus == old(onlineStatus)
      ensures !old(Live(onlineStatus, now)) ==>
        (isOnline <==> exists i :: 0 <= i < |admins| && admins[i].lastActive > 0 && now - admins[i].lastActive <= 300) &&
        latest >= 0 &&
        (forall i :: 0 <= i < |admins| && admins[i].lastActive > 0 ==> admins[i].lastActive <= latest) &&
        (latest == 0 || exists i :: 0 <= i < |admins| && admins[i].lastActive == latest) &&
        onlineStatus == Some(Cached((isOnline, latest), now + 60))
    {
      if onlineStatus.Some? && now < onlineStatus.value.expires {
        return onlineStatus.value.value.0, onlineStatus.value.value.1;
      }
      isOnline, latest := ScanOnlineStatus(admins, now);
      onlineStatus := Some(Cached((isOnline, latest), now + 60));
    }
  }

  /** An entry that is present and not yet expired at `now`. */
  predicate Live<T>(entry: Option<Cached<T>>, now: int) {
    entry.Some? && now < entry.value.expires
  }

  /** Within 300 seconds of a computed total, a second call serves the same text, whatever changed meanwhile. */
  method TotalOnlineTimeTwice(cache: StatsCache, admins: seq<AdminRecord>, later: seq<AdminRecord>, now: int, next: int)
      returns (first: string, second: string)
    requires !Live(cache.totalTime, now) && now <= next < now + 300
    modifies cache
    ensures first == FormatSeconds(TotalSeconds(admins, now))
    ensures second == first
  {
    first := cache.TotalOnlineTime(admins, now);
    second := cache.TotalOnlineTime(later, next);
  }

  class AdminClock {
    /** `paper_wp_admin_total_seconds_<id>`. */
    var saved: int
    /** This administrator's row of the sessions table. */
    var session: Option<Session>
    /** `paper_wp_admin_last_active_<id>`. */
    var lastActive: int

    constructor(saved: int, session: Option<Session>, lastActive: int)
      ensures this.saved == saved && this.session == session && this.lastActive == lastActive
    {
      this.saved := saved;
      this.session := session;
      this.lastActive := lastActive;
    }

    function Record(): AdminRecord
      reads this
    {
      AdminRecord(saved, session, lastActive)
    }

    /**
     * `paper_wp_update_admin_online_status` at `now` for an administrator
     * (`canManage`). A new session starts empty. After a gap of more than
     * 30 minutes, 30 minutes are saved and the session restarts; otherwise
     * the gap joins the session total, which is saved and reset once it
     * reaches 10 minutes. Either way the session total ends below 600.
     */
    method Update(canManage: bool, now: int)
      modifies this
      ensures !canManage ==> saved == old(saved) && session == old(session) && lastActive == old(lastActive)
      ensures canManage ==> lastActive == now && session.Some? && session.value.lastUpdate == now && session.value.total < 600
      ensures canManage && old(session).None? ==> session == Some(Session(now, now, 0)) && saved == old(saved)
      ensures canManage && old(session).Some? && now - old(session).value.lastUpdate > 1800 ==>
        saved == old(saved) + 1800 && session == Some(Session(now, now, 0))
      ensures canManage && old(session).Some? && now - old(session).value.lastUpdate <= 1800 ==>
        var grown := old(session).value.total + (now - old(session).value.lastUpdate);
        session.value.start == old(session).value.start &&
        (if grown >= 600 then saved == old(saved) + grown && session.value.total == 0
         else saved == old(saved) && session.value.total == grown)
      ensures (canManage && old(session).Some? && old(session).value.lastUpdate > 0 &&
               0 < now - old(session).value.lastUpdate <= 1800) ==>
        OnlineSeconds(Record(), now) == old(OnlineSeconds(Record(), now))
    {
      if !canManage {
        return;
      }
      match session {
        case None =>
          session := Some(Session(now, now, 0));
        case Some(s) =>
          var gap := now - s.lastUpdate;
          if gap > 1800 {
            saved := saved + Min(gap, 1800);
            session := Some(Session(now, now, 0));
          } else {
            var grown := s.total + Min(gap, 1800);
            if grown >= 600 {
              saved := saved + grown;
              grown := 0;
            }
            session := Some(Session(s.start, now, grown));
          }
      }
      lastActive := now;
    }

    /**
     * `paper_wp_handle_admin_logout` at `now`: a gap of at most 30 minutes
     * is saved with the session total, otherwise only a positive session
     * total is saved; the session row is deleted and the logout time kept.
     */
    method Logout(canManage: bool, now: int)
      modifies this
      ensures !canManage ==> saved == old(saved) && session == old(session) && lastActive == old(lastActive)
      ensures canManage ==> session.None? && lastActive == now
      ensures canManage && old(session).None? ==> saved == old(saved)
      ensures canManage && old(session).Some? ==>
        var s := old(session).value;
        saved == old(saved) + (if 0 < now - s.lastUpdate <= 1800 then s.total + (now - s.lastUpdate)
                               else Max(s.total, 0))
      ensures (canManage && old(session).Some? && old(session).value.lastUpdate > 0 &&
               0 < now - old(session).value.lastUpdate <= 1800) ==>
        OnlineSeconds(Record(), now) == old(OnlineSeconds(Record(), now))
    {
      if !canManage {
        return;
      }
      if session.Some? {
        var s := session.value;
        var gap := now - s.lastUpdate;
        if gap > 0 && gap <= 1800 {
          saved := saved + (s.total + Min(gap, 1800));
        } else if s.total > 0 {
          saved := saved + s.total;
        }
        session := None;
      }
      lastActive := now;
    }
  }
}
