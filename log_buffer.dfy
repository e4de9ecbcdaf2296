/**
 * The GUI's log manager: a bounded in-memory buffer of log entries, the listeners notified of
 * each entry, the most-recent-first view of the buffer, and the error summary built from it.
 * The clock, the session id it is derived from and each listener's behaviour are parameters;
 * the file and console handlers are left out.
 */
module GuiLogging {
  import opened Wrappers

  datatype LogLevel = Debug | Info | Warning | Error | Critical

  /** `level.value`. */
  function LevelValue(l: LogLevel): string {
    match l
    case Debug => "DEBUG"
    case Info => "INFO"
    case Warning => "WARNING"
    case Error => "ERROR"
    case Critical => "CRITICAL"
  }

  datatype LogEntry = LogEntry(timestamp: string, level: string, component: string, message: string,
                               details: Option<string>, sessionId: Option<string>)

  /** A registered listener, known by its registration. */
  datatype Callback = Callback(id: nat)

  /** One listener's notification and whether it raised. */
  datatype Delivery = Delivery(callback: Callback, raised: bool)

  /** The buffer's capacity. */
  const MaxMemoryLogs: nat := 1000

  /** The last `n` items of `s` (all of them when there are fewer). */
  function Tail<T>(s: seq<T>, n: nat): (r: seq<T>)
    ensures |r| == if |s| <= n then |s| else n
    ensures r == s[|s| - |r|..]
    ensures |s| <= n ==> r == s
  {
    if |s| <= n then s else s[|s| - n..]
  }

  /** Keeping the last `n` of a longer sequence: append, then drop the oldest when over capacity. */
  lemma TailSnoc<T>(s: seq<T>, x: T, n: nat)
    requires n > 0
    ensures var t := Tail(s, n);
      Tail(s + [x], n) == if |t| + 1 > n then (t + [x])[1..] else t + [x]
  {
    var t := Tail(s, n);
    var u := s + [x];
    if |s| + 1 > n {
      assert |t| == n;
      assert u[|u| - n..] == (t + [x])[1..];
    }
  }

  /** Appending to a full buffer and dropping its oldest entry keeps the buffer the tail of the history. */
  lemma BufferAppend(history: seq<LogEntry>, buffer: seq<LogEntry>, entry: LogEntry, n: nat)
    requires n > 0 && buffer == Tail(history, n)
    ensures var a := buffer + [entry]; var b := if |a| > n then a[1..] else a;
      && b == Tail(history + [entry], n)
      && b == (if |buffer| == n then buffer[1..] + [entry] else buffer + [entry])
      && |b| <= n && b[|b| - 1] == entry
  {
    TailSnoc(history, entry, n);
    var a := buffer + [entry];
    if |a| > n {
      assert a[1..] == buffer[1..] + [entry];
    }
  }

  class LogManager {
    /** The buffer, oldest first. */
    var memoryLogs: seq<LogEntry>
    const maxMemoryLogs: nat
    const sessionId: string
    var callbacks: seq<Callback>
    /** Every entry ever logged, oldest first. */
    ghost var history: seq<LogEntry>

    /** The buffer holds the most recent entries, at most `maxMemoryLogs` of them. */
    ghost predicate Valid()
      reads this
    {
      maxMemoryLogs > 0 && memoryLogs == Tail(history, maxMemoryLogs)
    }

    /** A manager with an empty buffer and no listeners; `sessionId` is the formatted start time. */
    constructor(sessionId: string)
      ensures Valid()
      ensures memoryLogs == [] && callbacks == [] && history == []
      ensures this.sessionId == sessionId && maxMemoryLogs == MaxMemoryLogs
    {
      memoryLogs := [];
      maxMemoryLogs := MaxMemoryLogs;
      this.sessionId := sessionId;
      callbacks := [];
      history := [];
    }

    /** `add_callback`: the listener goes last. */
    method AddCallback(callback: Callback)
      modifies this
      ensures callbacks == old(callbacks) + [callback]
      ensures memoryLogs == old(memoryLogs) && history == old(history)
    {
      callbacks := callbacks + [callback];
    }

    /**
     * `log`: the new entry (stamped `now`, with the level's value and the session id) goes
     * last; over capacity exactly the oldest entry is dropped. Every listener is then notified
     * in registration order; one that raises does not stop the others. `raises` tells which
     * listener raises on which entry.
     */
    method Log(level: LogLevel, component: string, message: string, details: Option<string>, now: string,
               raises: (Callback, LogEntry) -> bool)
      returns (entry: LogEntry, delivered: seq<Delivery>)
      requires Valid()
      modifies this
      ensures Valid()
      ensures entry == LogEntry(now, LevelValue(level), component, message, details, Some(sessionId))
      ensures history == old(history) + [entry]
      ensures memoryLogs == if |old(memoryLogs)| == maxMemoryLogs then old(memoryLogs)[1..] + [entry]
                            else old(memoryLogs) + [entry]
      ensures |memoryLogs| <= maxMemoryLogs && memoryLogs[|memoryLogs| - 1] == entry
      ensures callbacks == old(callbacks)
      ensures |delivered| == |callbacks|
      ensures forall i :: 0 <= i < |delivered| ==> delivered[i] == Delivery(callbacks[i], raises(callbacks[i], entry))
    {
      entry := LogEntry(now, LevelValue(level), component, message, details, Some(sessionId));
      BufferAppend(history, memoryLogs, entry, maxMemoryLogs);
      history := history + [entry];
      memoryLogs := memoryLogs + [entry];
      if |memoryLogs| > maxMemoryLogs {
        memoryLogs := memoryLogs[1..];
      }
      delivered := Notify(callbacks, entry, raises);
    }

    /**
     * `get_recent_logs`: the window `memory_logs[-limit:]`, kept whole when the filter is
     * absent, empty or `ALL` and narrowed to that exact level otherwise, most recent first.
     */
    function RecentLogs(limit: int, levelFilter: Option<string>): (r: seq<LogEntry>)
      reads this
      ensures limit > 0 ==> |r| <= limit
      ensures forall e :: e in r ==> e in memoryLogs
      ensures Filters(levelFilter) ==> forall e :: e in r ==> e.level == levelFilter.value
      ensures var w := Window(memoryLogs, limit); var pos := ShownAt(w, levelFilter);
        |r| == |pos| && forall i :: 0 <= i < |r| ==> r[i] == w[pos[i]]
    {
      KeepLevelMembers(Window(memoryLogs, limit), levelFilter);
      ReversedMembers(KeepLevel(Window(memoryLogs, limit), levelFilter));
      ShownEntries(Window(memoryLogs, limit), levelFilter);
      Reversed(KeepLevel(Window(memoryLogs, limit), levelFilter))
    }
  }

  /** The notification loop of `log`: every listener in order, whether or not an earlier one raised. */
  method Notify(callbacks: seq<Callback>, entry: LogEntry, raises: (Callback, LogEntry) -> bool)
    returns (delivered: seq<Delivery>)
    ensures |delivered| == |callbacks|
    ensures forall i :: 0 <= i < |delivered| ==> delivered[i] == Delivery(callbacks[i], raises(callbacks[i], entry))
  {
    delivered := [];
    for i := 0 to |callbacks|
      invariant |delivered| == i
      invariant forall j :: 0 <= j < i ==> delivered[j] == Delivery(callbacks[j], raises(callbacks[j], entry))
    {
      var raised := raises(callbacks[i], entry);
      delivered := delivered + [Delivery(callbacks[i], raised)];
    }
  }

  /** Python's `s[-limit:]`: a positive limit keeps that many from the end, zero keeps all, a negative one drops from the front. */
  function Window<T>(s: seq<T>, limit: int): (r: seq<T>)
    ensures limit > 0 ==> r == Tail(s, limit)
    ensures limit == 0 ==> r == s
    ensures limit < 0 ==> r == s[if -limit < |s| then -limit else |s|..]
  {
    var start := if limit > 0 then (if |s| > limit then |s| - limit else 0)
                 else if -limit < |s| then -limit else |s|;
    s[start..]
  }

  /** `level_filter and level_filter != "ALL"`. */
  predicate Filters(levelFilter: Option<string>) {
    levelFilter.Some? && levelFilter.value != "" && levelFilter.value != "ALL"
  }

  /** `[log for log in logs if log.level == level_filter]` when the filter applies. */
  function KeepLevel(logs: seq<LogEntry>, levelFilter: Option<string>): (r: seq<LogEntry>)
    ensures |r| <= |logs|
    decreases |logs|
  {
    if logs == [] then []
    else
      var rest := KeepLevel(logs[1..], levelFilter);
      if !Filters(levelFilter) || logs[0].level == levelFilter.value then [logs[0]] + rest else rest
  }

  /** The entry passes the filter. */
  predicate Passes(e: LogEntry, levelFilter: Option<string>) {
    !Filters(levelFilter) || e.level == levelFilter.value
  }


  /** Every position moved one place on. */
  function Shift(idx: seq<nat>): (r: seq<nat>)
    ensures |r| == |idx| && forall k :: 0 <= k < |idx| ==> r[k] == idx[k] + 1
  {
    seq(|idx|, k requires 0 <= k < |idx| => idx[k] + 1)
  }

  /** Where the kept entries stand in `logs`, in order. */
  function KeptAt(logs: seq<LogEntry>, levelFilter: Option<string>): (idx: seq<nat>)
    ensures forall k :: 0 <= k < |idx| ==> idx[k] < |logs|
    decreases |logs|
  {
    if logs == [] then []
    else
      var rest := Shift(KeptAt(logs[1..], levelFilter));
      if Passes(logs[0], levelFilter) then [0] + rest else rest
  }

  /** The `k`-th kept entry stands at the `k`-th position. */
  lemma {:induction false} KeptAtEntries(logs: seq<LogEntry>, levelFilter: Option<string>)
    ensures |KeptAt(logs, levelFilter)| == |KeepLevel(logs, levelFilter)|
    ensures forall k :: 0 <= k < |KeptAt(logs, levelFilter)| ==> KeepLevel(logs, levelFilter)[k] == logs[KeptAt(logs, levelFilter)[k]]
    decreases |logs|
  {
    if logs != [] {
      var tail := logs[1..];
      KeptAtEntries(tail, levelFilter);
      var inner := KeptAt(tail, levelFilter);
      var rest := Shift(inner);
      var kept := KeepLevel(tail, levelFilter);
      forall k | 0 <= k < |rest| ensures kept[k] == logs[rest[k]] {
        assert logs[rest[k]] == tail[inner[k]];
      }
      if Passes(logs[0], levelFilter) {
        assert KeptAt(logs, levelFilter) == [0] + rest;
        assert KeepLevel(logs, levelFilter) == [logs[0]] + kept;
      } else {
        assert KeptAt(logs, levelFilter) == rest;
        assert KeepLevel(logs, levelFilter) == kept;
      }
    }
  }

  /** The positions increase and each holds an entry that passes the filter. */
  lemma {:induction false} KeptAtIncreasing(logs: seq<LogEntry>, levelFilter: Option<string>)
    ensures forall k, l :: 0 <= k < l < |KeptAt(logs, levelFilter)| ==> KeptAt(logs, levelFilter)[k] < KeptAt(logs, levelFilter)[l]
    ensures forall k :: 0 <= k < |KeptAt(logs, levelFilter)| ==> Passes(logs[KeptAt(logs, levelFilter)[k]], levelFilter)
    decreases |logs|
  {
    if logs != [] {
      var tail := logs[1..];
      KeptAtIncreasing(tail, levelFilter);
      var inner := KeptAt(tail, levelFilter);
      var rest := Shift(inner);
      assert forall k, l :: 0 <= k < l < |rest| ==> rest[k] < rest[l];
      forall k | 0 <= k < |rest| ensures Passes(logs[rest[k]], levelFilter) {
        assert logs[rest[k]] == tail[inner[k]];
      }
      var idx := KeptAt(logs, levelFilter);
      if Passes(logs[0], levelFilter) {
        assert idx == [0] + rest;
        forall k | 1 <= k < |idx| ensures idx[k] == rest[k - 1] && 0 < idx[k] { }
      } else {
        assert idx == rest;
      }
    }
  }

  /** Every entry that passes the filter has its position among them. */
  lemma {:induction false} KeptAtComplete(logs: seq<LogEntry>, levelFilter: Option<string>)
    ensures forall j :: 0 <= j < |logs| && Passes(logs[j], levelFilter) ==> j in KeptAt(logs, levelFilter)
    decreases |logs|
  {
    if logs != [] {
      var tail := logs[1..];
      KeptAtComplete(tail, levelFilter);
      var inner := KeptAt(tail, levelFilter);
      var rest := Shift(inner);
      forall j | 1 <= j < |logs| && Passes(logs[j], levelFilter) ensures j in rest {
        assert tail[j - 1] == logs[j];
        var k :| 0 <= k < |inner| && inner[k] == j - 1;
        assert rest[k] == j;
      }
    }
  }

  /** An entry is kept exactly when it is there and matches the filter. */
  lemma {:induction false} KeepLevelMembers(logs: seq<LogEntry>, levelFilter: Option<string>)
    ensures forall e :: e in KeepLevel(logs, levelFilter) <==> e in logs && (!Filters(levelFilter) || e.level == levelFilter.value)
    decreases |logs|
  {
    if logs != [] {
      KeepLevelMembers(logs[1..], levelFilter);
      assert forall e :: e in logs <==> e == logs[0] || e in logs[1..];
    }
  }

  /** `list(reversed(logs))`. */
  function Reversed(s: seq<LogEntry>): (r: seq<LogEntry>)
    ensures |r| == |s| && forall i :: 0 <= i < |s| ==> r[i] == s[|s| - 1 - i]
    decreases |s|
  {
    if s == [] then [] else Reversed(s[1..]) + [s[0]]
  }

  /** Reversing keeps the same entries. */
  lemma ReversedMembers(s: seq<LogEntry>)
    ensures forall x :: x in Reversed(s) <==> x in s
  {
    var r := Reversed(s);
    forall x | x in s ensures x in r {
      var i :| 0 <= i < |s| && s[i] == x;
      assert r[|s| - 1 - i] == x;
    }
  }

  /**
   * Without a filter the view `RecentLogs` builds from a buffer `s` is its last `limit`
   * entries, newest first: the first is the entry logged last.
   */
  lemma RecentNewestFirst(s: seq<LogEntry>, limit: int)
    requires limit > 0
    ensures var r := Reversed(KeepLevel(Window(s, limit), None));
      && |r| == (if |s| < limit then |s| else limit)
      && forall i :: 0 <= i < |r| ==> r[i] == s[|s| - 1 - i]
  {
    var n := if |s| < limit then |s| else limit;
    var w := Window(s, limit);
    assert w == s[|s| - n..];
    KeepAll(w);
    ReversedSuffix(s, n);
  }

  /** Reversing the last `n` entries puts them newest first. */
  lemma ReversedSuffix(s: seq<LogEntry>, n: nat)
    requires n <= |s|
    ensures var r := Reversed(s[|s| - n..]);
      |r| == n && forall i :: 0 <= i < n ==> r[i] == s[|s| - 1 - i]
  {
    var w := s[|s| - n..];
    forall i | 0 <= i < n ensures Reversed(w)[i] == s[|s| - 1 - i] {
      assert Reversed(w)[i] == w[n - 1 - i];
    }
  }

  /** A zero limit does not bound the view: it is the whole buffer. */
  lemma ZeroLimitKeepsAll(m: LogManager)
    ensures |m.RecentLogs(0, None)| == |m.memoryLogs|
  {
    KeepAll(m.memoryLogs);
  }

  /** Without an applicable filter every entry is kept. */
  lemma {:induction false} KeepAll(logs: seq<LogEntry>)
    ensures KeepLevel(logs, None) == logs
    decreases |logs|
  {
    if logs != [] {
      KeepAll(logs[1..]);
    }
  }

  /** A level filter keeps exactly the entries of the window with that level, as `log.level == level_filter` does. */
  lemma FilterComplete(m: LogManager, limit: int, level: string, e: LogEntry)
    requires level != "" && level != "ALL"
    ensures e in m.RecentLogs(limit, Some(level)) <==> e in Window(m.memoryLogs, limit) && e.level == level
  {
    KeepLevelMembers(Window(m.memoryLogs, limit), Some(level));
    ReversedMembers(KeepLevel(Window(m.memoryLogs, limit), Some(level)));
  }

  /** The positions in the window of the entries the view shows, in the order it shows them. */
  function ShownAt(w: seq<LogEntry>, levelFilter: Option<string>): (pos: seq<nat>)
    ensures forall i :: 0 <= i < |pos| ==> pos[i] < |w|
  {
    var idx := KeptAt(w, levelFilter);
    seq(|idx|, i requires 0 <= i < |idx| => idx[|idx| - 1 - i])
  }

  /** The view of a window shows, in turn, the entries at the positions `ShownAt` lists. */
  lemma ShownEntries(w: seq<LogEntry>, levelFilter: Option<string>)
    ensures |Reversed(KeepLevel(w, levelFilter))| == |ShownAt(w, levelFilter)|
    ensures forall i :: 0 <= i < |ShownAt(w, levelFilter)| ==> Reversed(KeepLevel(w, levelFilter))[i] == w[ShownAt(w, levelFilter)[i]]
  {
    KeptAtEntries(w, levelFilter);
    ReversedAt(KeepLevel(w, levelFilter), KeptAt(w, levelFilter), ShownAt(w, levelFilter), w);
  }

  /** Reversing entries that stand at positions `idx` of `w` gives those at the reversed positions. */
  lemma ReversedAt(kept: seq<LogEntry>, idx: seq<nat>, pos: seq<nat>, w: seq<LogEntry>)
    requires |idx| == |kept| && forall k :: 0 <= k < |idx| ==> idx[k] < |w| && kept[k] == w[idx[k]]
    requires |pos| == |idx| && forall i :: 0 <= i < |pos| ==> pos[i] == idx[|idx| - 1 - i]
    ensures |Reversed(kept)| == |pos| && forall i :: 0 <= i < |pos| ==> Reversed(kept)[i] == w[pos[i]]
  {
    var r := Reversed(kept);
    forall i | 0 <= i < |pos| ensures r[i] == w[pos[i]] {
      var k := |idx| - 1 - i;
      assert r[i] == kept[k];
    }
  }

  /** The positions shown decrease: the view runs from the newest entry to the oldest. */
  lemma ShownDecreasing(w: seq<LogEntry>, levelFilter: Option<string>)
    ensures forall i, j :: 0 <= i < j < |ShownAt(w, levelFilter)| ==> ShownAt(w, levelFilter)[j] < ShownAt(w, levelFilter)[i]
  {
    var idx := KeptAt(w, levelFilter);
    var pos := ShownAt(w, levelFilter);
    KeptAtIncreasing(w, levelFilter);
    forall i, j | 0 <= i < j < |pos| ensures pos[j] < pos[i] {
      assert pos[j] == idx[|idx| - 1 - j] && pos[i] == idx[|idx| - 1 - i];
    }
  }

  /** Every position shown holds an entry that passes the filter. */
  lemma ShownPass(w: seq<LogEntry>, levelFilter: Option<string>)
    ensures forall i :: 0 <= i < |ShownAt(w, levelFilter)| ==> Passes(w[ShownAt(w, levelFilter)[i]], levelFilter)
  {
    var idx := KeptAt(w, levelFilter);
    var pos := ShownAt(w, levelFilter);
    KeptAtIncreasing(w, levelFilter);
    forall i | 0 <= i < |pos| ensures Passes(w[pos[i]], levelFilter) {
      var k := |idx| - 1 - i;
      assert pos[i] == idx[k];
    }
  }

  /** The position of every entry that passes the filter is shown. */
  lemma ShownComplete(w: seq<LogEntry>, levelFilter: Option<string>)
    ensures forall j :: 0 <= j < |w| && Passes(w[j], levelFilter) ==> j in ShownAt(w, levelFilter)
  {
    var idx := KeptAt(w, levelFilter);
    var pos := ShownAt(w, levelFilter);
    KeptAtComplete(w, levelFilter);
    forall j | 0 <= j < |w| && Passes(w[j], levelFilter) ensures j in pos {
      var k :| 0 <= k < |idx| && idx[k] == j;
      var i := |idx| - 1 - k;
      assert pos[i] == idx[k];
    }
  }

  /**
   * The view, filtered or not, lists the window's passing entries newest first: each
   * entry shown stands later in the window than every entry shown after it, each passes
   * the filter, and every window entry that passes the filter is shown.
   */
  lemma RecentLogsNewestFirst(m: LogManager, limit: int, levelFilter: Option<string>)
    ensures var w := Window(m.memoryLogs, limit); var pos := ShownAt(w, levelFilter);
      var r := m.RecentLogs(limit, levelFilter);
      (forall i, j :: 0 <= i < j < |pos| ==> pos[j] < pos[i])
      && (forall i :: 0 <= i < |r| ==> Passes(r[i], levelFilter))
      && (forall j :: 0 <= j < |w| && Passes(w[j], levelFilter) ==> w[j] in r)
  {
    var w := Window(m.memoryLogs, limit);
    var pos := ShownAt(w, levelFilter);
    var r := m.RecentLogs(limit, levelFilter);
    ShownDecreasing(w, levelFilter);
    ShownPass(w, levelFilter);
    ShownComplete(w, levelFilter);
    forall j | 0 <= j < |w| && Passes(w[j], levelFilter) ensures w[j] in r {
      var i :| 0 <= i < |pos| && pos[i] == j;
      assert r[i] == w[j];
    }
  }

  // ------------------------------------------------------------ error summary

  /** `log.level in ['ERROR', 'CRITICAL']`. */
  predicate IsErrorEntry(e: LogEntry) {
    e.level == "ERROR" || e.level == "CRITICAL"
  }

  /** The error entries of `logs`, in order. */
  function ErrorLogs(logs: seq<LogEntry>): (r: seq<LogEntry>)
    ensures |r| <= |logs|
    ensures forall e :: e in r <==> e in logs && IsErrorEntry(e)
    decreases |logs|
  {
    if logs == [] then []
    else
      var rest := ErrorLogs(logs[1..]);
      assert forall e :: e in logs <==> e == logs[0] || e in logs[1..];
      if IsErrorEntry(logs[0]) then [logs[0]] + rest else rest
  }

  /** The entries of `logs` from component `c`, in order. */
  function FromComponent(logs: seq<LogEntry>, c: string): (r: seq<LogEntry>)
    ensures |r| <= |logs|
    ensures forall e :: e in r ==> e in logs && e.component == c
    decreases |logs|
  {
    if logs == [] then []
    else
      var n := |logs| - 1;
      var rest := FromComponent(logs[..n], c);
      if logs[n].component == c then rest + [logs[n]] else rest
  }

  /** The sum of the group sizes under `keys`. */
  function SumSizes(keys: seq<string>, groups: map<string, seq<LogEntry>>): nat
    requires forall k :: k in keys ==> k in groups
    decreases |keys|
  {
    if keys == [] then 0 else SumSizes(keys[..|keys| - 1], groups) + |groups[keys[|keys| - 1]]|
  }

  /** Groups outside the keys do not enter the sum. */
  lemma {:induction false} SumSizesOthers(keys: seq<string>, groups: map<string, seq<LogEntry>>, k: string,
                                         v: seq<LogEntry>)
    requires forall x :: x in keys ==> x in groups
    requires k !in keys
    ensures SumSizes(keys, groups[k := v]) == SumSizes(keys, groups)
    decreases |keys|
  {
    if keys != [] {
      SumSizesOthers(keys[..|keys| - 1], groups, k, v);
    }
  }

  /** Growing one group by one entry grows the sum by one. */
  lemma {:induction false} SumSizesGrow(keys: seq<string>, groups: map<string, seq<LogEntry>>, k: string, e: LogEntry)
    requires forall x :: x in keys ==> x in groups
    requires k in keys && forall i, j :: 0 <= i < j < |keys| ==> keys[i] != keys[j]
    ensures SumSizes(keys, groups[k := groups[k] + [e]]) == SumSizes(keys, groups) + 1
    decreases |keys|
  {
    var n := |keys| - 1;
    if keys[n] == k {
      assert k !in keys[..n];
      SumSizesOthers(keys[..n], groups, k, groups[k] + [e]);
    } else {
      assert k in keys[..n];
      SumSizesGrow(keys[..n], groups, k, e);
    }
  }

  /**
   * `groups` holds, per component of `logs`, its entries in order, and `order` lists those
   * components once each in order of first appearance.
   */
  ghost predicate Grouped(logs: seq<LogEntry>, groups: map<string, seq<LogEntry>>, order: seq<string>) {
    && KeysListed(groups, order)
    && GroupsOf(logs, groups)
    && SumSizes(order, groups) == |logs|
  }

  /** `order` lists the keys of `groups`, each once. */
  ghost predicate KeysListed(groups: map<string, seq<LogEntry>>, order: seq<string>) {
    && (forall c :: c in groups <==> c in order)
    && (forall a, b :: 0 <= a < b < |order| ==> order[a] != order[b])
  }

  /** Each component of `logs` has its entries, in order, as its group; no other component has one. */
  ghost predicate GroupsOf(logs: seq<LogEntry>, groups: map<string, seq<LogEntry>>) {
    && (forall c :: c in groups ==> groups[c] == FromComponent(logs, c) && groups[c] != [])
    && (forall c :: c !in groups ==> FromComponent(logs, c) == [])
  }

  /** Grouping one more entry extends only its own component's group. */
  lemma FromComponentSnoc(logs: seq<LogEntry>, e: LogEntry, x: string)
    ensures FromComponent(logs + [e], x) == FromComponent(logs, x) + (if e.component == x then [e] else [])
  {
    assert (logs + [e])[..|logs|] == logs;
  }

  /** An entry of a component already grouped joins the end of its group. */
  lemma GroupedExisting(logs: seq<LogEntry>, groups: map<string, seq<LogEntry>>, order: seq<string>, e: LogEntry)
    requires Grouped(logs, groups, order) && e.component in groups
    ensures Grouped(logs + [e], groups[e.component := groups[e.component] + [e]], order)
  {
    var c := e.component;
    var g := groups[c := groups[c] + [e]];
    ExistingGroup(logs, groups, e);
    SumSizesGrow(order, groups, c, e);
    assert forall x :: x in g <==> x in groups;
  }

  /** The groups of `logs` with `e` appended to its component's group are the groups of `logs + [e]`. */
  lemma ExistingGroup(logs: seq<LogEntry>, groups: map<string, seq<LogEntry>>, e: LogEntry)
    requires GroupsOf(logs, groups) && e.component in groups
    ensures GroupsOf(logs + [e], groups[e.component := groups[e.component] + [e]])
  {
    forall x ensures FromComponent(logs + [e], x) == FromComponent(logs, x) + (if e.component == x then [e] else []) {
      FromComponentSnoc(logs, e, x);
    }
  }

  /** An entry of a new component opens a group of its own, listed last. */
  lemma GroupedNew(logs: seq<LogEntry>, groups: map<string, seq<LogEntry>>, order: seq<string>, e: LogEntry)
    requires Grouped(logs, groups, order) && e.component !in groups
    ensures Grouped(logs + [e], groups[e.component := [e]], order + [e.component])
  {
    NewGroup(logs, groups, e);
    NewKey(order, groups, e.component, [e]);
    assert |logs + [e]| == |logs| + |[e]|;
  }

  /** The groups of `logs` with a group `[e]` opened for a component that had none are the groups of `logs + [e]`. */
  lemma NewGroup(logs: seq<LogEntry>, groups: map<string, seq<LogEntry>>, e: LogEntry)
    requires GroupsOf(logs, groups) && e.component !in groups
    ensures GroupsOf(logs + [e], groups[e.component := [e]])
  {
    forall x ensures FromComponent(logs + [e], x) == FromComponent(logs, x) + (if e.component == x then [e] else []) {
      FromComponentSnoc(logs, e, x);
    }
  }

  /** Listing a new key last with its group: keys, distinctness and the sum follow. */
  lemma NewKey(order: seq<string>, groups: map<string, seq<LogEntry>>, c: string, v: seq<LogEntry>)
    requires KeysListed(groups, order) && c !in groups
    ensures KeysListed(groups[c := v], order + [c])
    ensures SumSizes(order + [c], groups[c := v]) == SumSizes(order, groups) + |v|
  {
    var o := order + [c];
    assert o[..|order|] == order;
    SumSizesOthers(order, groups, c, v);
    assert forall x :: x in o <==> x in order || x == c;
  }

  /** A component has a non-empty group exactly when some entry comes from it. */
  lemma {:induction false} FromComponentNonEmpty(logs: seq<LogEntry>, c: string)
    ensures FromComponent(logs, c) != [] <==> exists e :: e in logs && e.component == c
    decreases |logs|
  {
    if logs != [] {
      var n := |logs| - 1;
      FromComponentNonEmpty(logs[..n], c);
      assert logs == logs[..n] + [logs[n]];
      assert forall e :: e in logs <==> e in logs[..n] || e == logs[n];
    }
  }

  datatype ErrorSummary = ErrorSummary(totalErrors: nat, components: seq<string>, byComponent: map<string, nat>,
                                       recentErrors: seq<LogEntry>)

  class ErrorTracker {
    const logManager: LogManager

    constructor(logManager: LogManager)
      ensures this.logManager == logManager
    {
      this.logManager := logManager;
    }

    /**
     * `get_error_summary`: the error entries among the 1000 most recent (newest first), their
     * count, their count per component (components in order of first appearance) and the ten
     * newest. `hoursBack` is accepted and not used.
     */
    method GetErrorSummary(hoursBack: int) returns (s: ErrorSummary)
      ensures var errorLogs := ErrorLogs(logManager.RecentLogs(1000, None));
        && s.totalErrors == |errorLogs|
        && s.recentErrors == errorLogs[..if |errorLogs| < 10 then |errorLogs| else 10]
        && (forall c :: c in s.byComponent <==> c in s.components)
        && (forall c :: c in s.byComponent <==> FromComponent(errorLogs, c) != [])
        && (forall c :: c in s.byComponent ==> s.byComponent[c] == |FromComponent(errorLogs, c)|)
        && (forall i, j :: 0 <= i < j < |s.components| ==> s.components[i] != s.components[j])
        && SumCounts(s.components, s.byComponent) == s.totalErrors
    {
      var recentLogs := logManager.RecentLogs(1000, None);
      var errorLogs := ErrorLogs(recentLogs);
      var groups, order := GroupByComponent(errorLogs);
      CountsOfGroups(errorLogs, groups, order);
      s := ErrorSummary(|errorLogs|, order, map c | c in groups :: |groups[c]|,
                        errorLogs[..if |errorLogs| < 10 then |errorLogs| else 10]);
    }
  }

  /** The loop of `get_error_summary` that appends each error entry to its component's group. */
  method GroupByComponent(errorLogs: seq<LogEntry>) returns (groups: map<string, seq<LogEntry>>, order: seq<string>)
    ensures Grouped(errorLogs, groups, order)
  {
    groups, order := map[], [];
    for i := 0 to |errorLogs|
      invariant Grouped(errorLogs[..i], groups, order)
    {
      var e := errorLogs[i];
      var c := e.component;
      var groups', order' := groups, order;
      if c !in groups {
        groups', order' := groups[c := [e]], order + [c];
      } else {
        groups' := groups[c := groups[c] + [e]];
      }
      GroupedNext(errorLogs, i, groups, order, groups', order');
      groups, order := groups', order';
    }
    assert errorLogs[..|errorLogs|] == errorLogs;
  }

  /** One turn of that loop: entry `i` joins its component's group, opening it when new. */
  lemma GroupedNext(logs: seq<LogEntry>, i: nat, groups: map<string, seq<LogEntry>>, order: seq<string>,
                    groups': map<string, seq<LogEntry>>, order': seq<string>)
    requires i < |logs| && Grouped(logs[..i], groups, order)
    requires var c := logs[i].component;
      if c in groups then groups' == groups[c := groups[c] + [logs[i]]] && order' == order
      else groups' == groups[c := [logs[i]]] && order' == order + [c]
    ensures Grouped(logs[..i + 1], groups', order')
  {
    assert logs[..i] + [logs[i]] == logs[..i + 1];
    if logs[i].component in groups {
      GroupedExisting(logs[..i], groups, order, logs[i]);
    } else {
      GroupedNew(logs[..i], groups, order, logs[i]);
    }
  }

  /** `{k: len(v) for k, v in by_component.items()}`: a count for each component that has entries, adding up to all entries. */
  lemma CountsOfGroups(logs: seq<LogEntry>, groups: map<string, seq<LogEntry>>, order: seq<string>)
    requires Grouped(logs, groups, order)
    ensures var counts := map c | c in groups :: |groups[c]|;
      && (forall c :: c in counts <==> c in order)
      && (forall c :: c in counts <==> FromComponent(logs, c) != [])
      && (forall c :: c in counts ==> counts[c] == |FromComponent(logs, c)|)
      && SumCounts(order, counts) == |logs|
  {
    SumCountsOfSizes(order, groups);
  }

  /** The sum of the counts under `keys`. */
  function SumCounts(keys: seq<string>, counts: map<string, nat>): nat
    requires forall k :: k in keys ==> k in counts
    decreases |keys|
  {
    if keys == [] then 0 else SumCounts(keys[..|keys| - 1], counts) + counts[keys[|keys| - 1]]
  }

  /** Counting each group by its size adds up to the sum of the group sizes. */
  lemma {:induction false} SumCountsOfSizes(keys: seq<string>, groups: map<string, seq<LogEntry>>)
    requires forall k :: k in keys ==> k in groups
    ensures SumCounts(keys, map c | c in groups :: |groups[c]|) == SumSizes(keys, groups)
    decreases |keys|
  {
    if keys != [] {
      SumCountsOfSizes(keys[..|keys| - 1], groups);
    }
  }
}
