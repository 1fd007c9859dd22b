/**
 * The performance helpers: `defer` insertion into script tags, the excerpt
 * length filter, the post word count, the transient-backed cache with its
 * `group_key` names, the bounded cache-operation log and the self-pingback
 * filter.
 */
module Performance {
  import opened Util
  import Setup
  import Excerpt

  // ---------------------------------------------------------------------
  // Deferred scripts

  /** The two jQuery handles that must keep loading synchronously. */
  predicate KeptSynchronous(handle: string) {
    handle == "jquery-core" || handle == "jquery-migrate"
  }

  /** The tag already carries a `defer` attribute, bare or with a value. */
  predicate HasDefer(tag: string) {
    Contains(tag, " defer ") || Contains(tag, " defer=")
  }

  /**
   * The `script_loader_tag` filter: outside the admin, for every handle but
   * the jQuery pair, a tag without `defer` has each ` src=` rewritten to
   * ` defer src=`.
   */
  function AddDeferToScripts(tag: string, handle: string, isAdmin: bool): (r: string)
    ensures isAdmin || KeptSynchronous(handle) || HasDefer(tag) || !Contains(tag, " src=") ==> r == tag
    ensures !isAdmin && !KeptSynchronous(handle) && Contains(tag, " src=") ==> HasDefer(r)
  {
    if isAdmin || KeptSynchronous(handle) || HasDefer(tag) then tag
    else
      var r := ReplaceAll(tag, " src=", " defer src=");
      if !Contains(tag, " src=") then
        ReplaceAllAbsent(tag, " src=", " defer src=");
        r
      else
        ReplaceAllIntroduces(tag, " src=", " defer src=");
        assert " defer " + "src=" == " defer src=";
        ContainsPrefixOf(r, " defer ", "src=");
        r
  }

  /** Filtering a tag twice is the same as filtering it once. */
  lemma DeferIdempotent(tag: string, handle: string, isAdmin: bool)
    ensures AddDeferToScripts(AddDeferToScripts(tag, handle, isAdmin), handle, isAdmin)
         == AddDeferToScripts(tag, handle, isAdmin)
  {
  }

  // ---------------------------------------------------------------------
  // Excerpt length

  /** The `excerpt_length` filter: the stored limit when it is a positive number, else 500. */
  function ExcerptLength(settings: Setup.Settings): (r: int)
    ensures r > 0
    ensures var v := Setup.FieldOr(settings, "excerpt_word_limit", Num(500));
      r != 500 ==> NumericValue(v) && r == IntValue(v)
    ensures var v := Setup.FieldOr(settings, "excerpt_word_limit", Num(500));
      !NumericValue(v) || IntValue(v) <= 0 ==> r == 500
  {
    var limit := Setup.FieldOr(settings, "excerpt_word_limit", Num(500));
    if !NumericValue(limit) || IntValue(limit) <= 0 then 500 else IntValue(limit)
  }

  /** A stored string setting gives the same length as the excerpt builder's own reading of it. */
  lemma ExcerptLengthIsWordLimit(settings: Setup.Settings)
    requires "excerpt_word_limit" in settings && settings["excerpt_word_limit"].Str?
    ensures ExcerptLength(settings) == Excerpt.WordLimit(settings["excerpt_word_limit"].s)
  {
  }

  /** With no usable setting the excerpt is 500 words long. */
  lemma ExcerptLengthDefault(settings: Setup.Settings)
    requires "excerpt_word_limit" !in settings || settings["excerpt_word_limit"] == Null
    ensures ExcerptLength(settings) == 500
  {
  }

  // ---------------------------------------------------------------------
  // Word count

  /** A character of the CJK Unified Ideographs block U+4E00..U+9FA5. */
  predicate IsCjk(c: char) { '\U{4E00}' <= c <= '\U{9FA5}' }

  /** A character of the class `[a-zA-Z0-9'-]`. */
  predicate IsWordChar(c: char) {
    'a' <= c <= 'z' || 'A' <= c <= 'Z' || '0' <= c <= '9' || c == '\'' || c == '-'
  }

  /** The number of CJK characters in `s`. */
  function CjkCount(s: string): (r: nat)
    ensures r <= |s|
    ensures r == 0 <==> forall i :: 0 <= i < |s| ==> !IsCjk(s[i])
  {
    if s == [] then 0
    else
      var rest := CjkCount(s[1..]);
      assert forall i :: 1 <= i < |s| ==> s[i] == s[1..][i - 1];
      (if IsCjk(s[0]) then 1 else 0) + rest
  }

  /**
   * The number of maximal runs of word characters in `s`, when the character
   * just before `s` was (`inWord`) or was not a word character.
   */
  function RunsFrom(s: string, inWord: bool): (r: nat)
    ensures r <= |s|
  {
    if s == [] then 0
    else (if IsWordChar(s[0]) && !inWord then 1 else 0) + RunsFrom(s[1..], IsWordChar(s[0]))
  }

  /** The number of matches of `/[a-zA-Z0-9'-]+/` in `s`. */
  function TokenCount(s: string): nat {
    RunsFrom(s, false)
  }

  /** No run can start in a string without word characters, and one always starts at its first. */
  lemma {:induction false} RunsFromNone(s: string, inWord: bool)
    ensures RunsFrom(s, false) == 0 <==> forall i :: 0 <= i < |s| ==> !IsWordChar(s[i])
    decreases |s|
  {
    if s != [] {
      RunsFromNone(s[1..], false);
      assert forall i :: 1 <= i < |s| ==> s[i] == s[1..][i - 1];
    }
  }

  /** There are no tokens exactly when there are no word characters. */
  lemma TokensNone(s: string)
    ensures TokenCount(s) == 0 <==> forall i :: 0 <= i < |s| ==> !IsWordChar(s[i])
  {
    RunsFromNone(s, false);
  }

  /** A separator that is not a word character ends every run before it. */
  lemma {:induction false} RunsSplit(a: string, sep: char, b: string, inWord: bool)
    requires !IsWordChar(sep)
    ensures RunsFrom(a + [sep] + b, inWord) == RunsFrom(a, inWord) + RunsFrom(b, false)
    decreases |a|
  {
    if a == [] {
      assert a + [sep] + b == [sep] + b;
      assert ([sep] + b)[1..] == b;
    } else {
      assert (a + [sep] + b)[1..] == a[1..] + [sep] + b;
      RunsSplit(a[1..], sep, b, IsWordChar(a[0]));
    }
  }

  /** Token counts add up across a separator. */
  lemma TokensAdd(a: string, sep: char, b: string)
    requires !IsWordChar(sep)
    ensures TokenCount(a + [sep] + b) == TokenCount(a) + TokenCount(b)
  {
    RunsSplit(a, sep, b, false);
  }

  /** CJK counts add up across any concatenation. */
  lemma {:induction false} CjkAdd(a: string, b: string)
    ensures CjkCount(a + b) == CjkCount(a) + CjkCount(b)
    decreases |a|
  {
    if a == [] {
      assert a + b == b;
    } else {
      assert (a + b)[1..] == a[1..] + b;
      CjkAdd(a[1..], b);
    }
  }

  /** A whole word is one token, whatever its length. */
  lemma {:induction false} RunOfWordChars(s: string, inWord: bool)
    requires forall i :: 0 <= i < |s| ==> IsWordChar(s[i])
    ensures RunsFrom(s, true) == 0
    ensures s != [] ==> RunsFrom(s, false) == 1
    decreases |s|
  {
    if s != [] {
      RunOfWordChars(s[1..], true);
    }
  }

  /** No character counts twice: the total never exceeds the length. */
  lemma {:induction false} CountsWithinLength(s: string, inWord: bool)
    ensures CjkCount(s) + RunsFrom(s, inWord) <= |s|
    decreases |s|
  {
    if s != [] {
      CountsWithinLength(s[1..], IsWordChar(s[0]));
    }
  }

  /** The total shown by the word count: CJK characters plus tokens. */
  function TotalWords(s: string): (r: nat)
    ensures r <= |s|
  {
    CountsWithinLength(s, false);
    CjkCount(s) + TokenCount(s)
  }

  /**
   * `get_post_word_count`: an empty post, or one that is empty once its
   * shortcodes and tags are stripped, shows "0字"; otherwise the formatted
   * total followed by "字".
   */
  function PostWordCount(content: string, stripShortcodes: string -> string, stripTags: string -> string,
                         numberFormat: nat -> string): (r: string)
    ensures EndsWith(r, "字")
    ensures EmptyStr(content) || EmptyStr(stripTags(stripShortcodes(content))) ==> r == "0字"
    ensures !EmptyStr(content) && !EmptyStr(stripTags(stripShortcodes(content))) ==>
      (r[..|r| - 1] == numberFormat(TotalWords(stripTags(stripShortcodes(content)))))
  {
    if EmptyStr(content) then "0字"
    else
      var stripped := stripTags(stripShortcodes(content));
      if EmptyStr(stripped) then "0字"
      else
        var r := numberFormat(TotalWords(stripped)) + "字";
        assert r[..|r| - 1] == numberFormat(TotalWords(stripped));
        r
  }

  // ---------------------------------------------------------------------
  // Cache

  /** The transient name used by get, set and delete: `group . '_' . key`. */
  function CacheKey(group: string, key: string): (r: string)
    ensures |r| == |group| + 1 + |key|
    ensures r[..|group|] == group && r[|group|] == '_' && r[|group| + 1..] == key
  {
    group + "_" + key
  }

  /** With groups free of underscores, distinct (group, key) pairs get distinct names. */
  lemma CacheKeyInjective(g1: string, k1: string, g2: string, k2: string)
    requires '_' !in g1 && '_' !in g2
    requires CacheKey(g1, k1) == CacheKey(g2, k2)
    ensures g1 == g2 && k1 == k2
  {
  }

  /** An underscore inside the group makes two different entries share one name. */
  lemma CacheKeyCollision()
    ensures CacheKey("a_b", "c") == CacheKey("a", "b_c")
  {
  }

  /** `$duration ?: HOUR_IN_SECONDS`. */
  function Duration(duration: Value): (r: int)
    ensures EmptyValue(duration) ==> r == 3600
    ensures !EmptyValue(duration) ==> r == IntValue(duration)
  {
    if EmptyValue(duration) then 3600 else IntValue(duration)
  }

  /** The transients the cache helpers read and write, with the lifetime each was stored for. */
  class TransientCache {
    var store: map<string, Value>
    var lifetimes: map<string, int>

    constructor()
      ensures store == map[] && lifetimes == map[]
    {
      store := map[];
      lifetimes := map[];
    }

    /**
     * `paper_wp_cache_get`: a stored value is returned as is; on a miss the
     * callback's value (None when there is no callback) is returned, and
     * stored for an hour when the callback exists.
     */
    method Get(key: string, group: string, callback: Option<Value>) returns (r: Option<Value>)
      modifies this
      ensures CacheKey(group, key) in old(store) ==>
        (r == Some(old(store)[CacheKey(group, key)]) && store == old(store) && lifetimes == old(lifetimes))
      ensures CacheKey(group, key) !in old(store) && callback.None? ==>
        (r == None && store == old(store) && lifetimes == old(lifetimes))
      ensures CacheKey(group, key) !in old(store) && callback.Some? ==>
        (r == callback && store == old(store)[CacheKey(group, key) := callback.value]
         && lifetimes == old(lifetimes)[CacheKey(group, key) := 3600])
    {
      var name := CacheKey(group, key);
      if name in store {
        r := Some(store[name]);
      } else if callback.Some? {
        r := callback;
        store := store[name := callback.value];
        lifetimes := lifetimes[name := 3600];
      } else {
        r := None;
      }
    }

    /** `paper_wp_cache_set`: stores under the group's name for `$duration ?: 3600` seconds. */
    method Set(key: string, data: Value, group: string, duration: Value)
      modifies this
      ensures store == old(store)[CacheKey(group, key) := data]
      ensures lifetimes == old(lifetimes)[CacheKey(group, key) := Duration(duration)]
    {
      var name := CacheKey(group, key);
      store := store[name := data];
      lifetimes := lifetimes[name := Duration(duration)];
    }

    /** `paper_wp_cache_delete`: forgets that one name and nothing else. */
    method Delete(key: string, group: string)
      modifies this
      ensures store == old(store) - {CacheKey(group, key)}
      ensures lifetimes == old(lifetimes) - {CacheKey(group, key)}
    {
      var name := CacheKey(group, key);
      store := store - {name};
      lifetimes := lifetimes - {name};
    }
  }

  /** A value set and then read back comes back unchanged, without the callback. */
  method SetThenGet(cache: TransientCache, key: string, group: string, data: Value, callback: Option<Value>)
    returns (r: Option<Value>)
    modifies cache
    ensures r == Some(data)
  {
    cache.Set(key, data, group, Num(0));
    r := cache.Get(key, group, callback);
  }

  /** After a miss filled by the callback, the next read is a hit that no other callback changes. */
  method GetMemoizes(cache: TransientCache, key: string, group: string, v: Value, other: Option<Value>)
    returns (first: Option<Value>, second: Option<Value>)
    modifies cache
    ensures first == second == (if CacheKey(group, key) in old(cache.store) then Some(old(cache.store)[CacheKey(group, key)]) else Some(v))
  {
    first := cache.Get(key, group, Some(v));
    second := cache.Get(key, group, other);
  }

  /** A delete in one group leaves an entry of another underscore-free group in place. */
  method DeleteIsolated(cache: TransientCache, key: string, group: string, otherKey: string, otherGroup: string)
    requires '_' !in group && '_' !in otherGroup && group != otherGroup
    requires CacheKey(otherGroup, otherKey) in cache.store
    modifies cache
    ensures CacheKey(otherGroup, otherKey) in cache.store
    ensures cache.store[CacheKey(otherGroup, otherKey)] == old(cache.store[CacheKey(otherGroup, otherKey)])
  {
    if CacheKey(group, key) == CacheKey(otherGroup, otherKey) {
      CacheKeyInjective(group, key, otherGroup, otherKey);
    }
    cache.Delete(key, group);
  }

  // ---------------------------------------------------------------------
  // Cache-operation log

  /** One entry of the operation log. */
  datatype LogEntry = LogEntry(time: int, group: string, message: string, user: string)

  /** The longest the log gets. */
  const MaxLogEntries := 50

  /** `display_name ?: '系统'`: an empty or "0" display name is logged as the system. */
  function LogUser(displayName: string): (r: string)
    ensures !EmptyStr(r)
    ensures EmptyStr(displayName) ==> r == "系统"
    ensures !EmptyStr(displayName) ==> r == displayName
  {
    if EmptyStr(displayName) then "系统" else displayName
  }

  /** The stored log after `entry` is put first and the list cut to 50. */
  function Prepended(logs: seq<LogEntry>, entry: LogEntry): (r: seq<LogEntry>)
    ensures |r| == Min(|logs| + 1, MaxLogEntries)
    ensures r[0] == entry
    ensures r[1..] == logs[..|r| - 1]
  {
    var r := SliceHead([entry] + logs, MaxLogEntries);
    assert r[1..] == logs[..|r| - 1];
    r
  }

  /** The log after each of `entries` is logged in turn, starting from `logs`. */
  function LogAll(logs: seq<LogEntry>, entries: seq<LogEntry>): (r: seq<LogEntry>)
    decreases |entries|
  {
    if entries == [] then logs else LogAll(Prepended(logs, entries[0]), entries[1..])
  }

  /** The entries of `s` in reverse order. */
  function Reversed(s: seq<LogEntry>): (r: seq<LogEntry>)
    ensures |r| == |s|
    ensures forall i :: 0 <= i < |s| ==> r[i] == s[|s| - 1 - i]
  {
    if s == [] then [] else Reversed(s[1..]) + [s[0]]
  }

  /**
   * Whatever was logged before, the log holds the most recent entries, newest
   * first, cut to 50.
   */
  lemma {:induction false} LogAllKeepsRecent(logs: seq<LogEntry>, entries: seq<LogEntry>)
    requires |logs| <= MaxLogEntries
    ensures LogAll(logs, entries) == (Reversed(entries) + logs)[..Min(|entries| + |logs|, MaxLogEntries)]
    decreases |entries|
  {
    if entries != [] {
      var e := entries[0];
      var rest := entries[1..];
      var p := Prepended(logs, e);
      assert p == ([e] + logs)[..Min(|logs| + 1, MaxLogEntries)];
      LogAllKeepsRecent(p, rest);
      var n := Min(|entries| + |logs|, MaxLogEntries);
      var lhs := (Reversed(rest) + p)[..Min(|rest| + |p|, MaxLogEntries)];
      var rhs := (Reversed(entries) + logs)[..n];
      assert Reversed(entries) == Reversed(rest) + [e];
      assert Min(|rest| + |p|, MaxLogEntries) == n;
      assert |lhs| == |rhs|;
      forall i | 0 <= i < n ensures lhs[i] == rhs[i] {
        if i > |rest| {
          assert lhs[i] == p[i - |rest|] == logs[i - |rest| - 1];
        }
      }
    }
  }

  /** The cache-operation log as stored in its option. */
  class OperationLog {
    var logs: seq<LogEntry>

    ghost predicate Valid()
      reads this
    {
      |logs| <= MaxLogEntries
    }

    constructor()
      ensures Valid() && logs == []
    {
      logs := [];
    }

    /** `paper_wp_log_cache_operation`: the new entry goes first and the list keeps at most 50. */
    method Log(time: int, group: string, message: string, displayName: string)
      modifies this
      ensures logs == Prepended(old(logs), LogEntry(time, group, message, LogUser(displayName)))
      ensures Valid()
    {
      var entry := LogEntry(time, group, message, LogUser(displayName));
      logs := SliceHead([entry] + logs, MaxLogEntries);
    }

    /** `paper_wp_get_cache_operation_log`: the first `limit` entries, or all but the last `-limit`. */
    function Recent(limit: int): (r: seq<LogEntry>)
      reads this
      ensures |r| <= |logs| && r == logs[..|r|]
      ensures limit >= 0 ==> |r| == Min(limit, |logs|)
      ensures limit < 0 ==> |r| == Max(|logs| + limit, 0)
    {
      SliceHead(logs, limit)
    }
  }

  // ---------------------------------------------------------------------
  // Self pingbacks

  /**
   * The `pre_ping` filter: every link that starts with the home URL is
   * unset; the other keys keep their links.
   */
  method RemoveSelfPings(links: map<int, string>, home: string) returns (kept: map<int, string>)
    ensures forall k :: k in kept <==> k in links && !StartsWith(links[k], home)
    ensures forall k :: k in kept ==> kept[k] == links[k]
  {
    kept := links;
    var todo := links.Keys;
    while todo != {}
      invariant todo <= links.Keys
      invariant forall k :: k in kept <==> k in links && (k in todo || !StartsWith(links[k], home))
      invariant forall k :: k in kept ==> kept[k] == links[k]
      decreases todo
    {
      assert exists x :: x in todo by {
        if forall x :: x !in todo { assert false; }
      }
      var key: int :| key in todo;
      if StartsWith(links[key], home) {
        kept := kept - {key};
      }
      todo := todo - {key};
    }
  }
}
