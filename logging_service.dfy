/** The application log: entries are saved one at a time with a generated id, read back
    newest first and in pages of 50, marked as read by the administrator and purged by
    age. The log table is a class whose only state is its list of entries and the next
    generated id; the queries are functions of that list. Timestamps are whole seconds:
    a LocalDateTime has no time zone, so a day is always 86400 seconds. */
module LoggingService {
  import opened Common
  import opened LogLevels

  const MinuteSeconds: int := 60
  const DaySeconds: int := 86400
  /** DEFAULT_PAGE_SIZE. */
  const DefaultPageSize: nat := 50

  /** A stored log entry; a null source or stack trace is None. */
  datatype LogEntry = LogEntry(id: int, timestamp: int, level: LogLevel, message: string,
                               source: Option<string>, stackTrace: Option<string>, readByAdmin: bool)

  /** The entry `log` saves: stamped with the clock, unread, and with a stack trace only
      when a throwable was given (its printed trace). */
  function NewEntry(id: int, now: int, level: LogLevel, message: string, source: Option<string>,
                    trace: Option<string>): (e: LogEntry)
  {
    LogEntry(id, now, level, message, source, trace, false)
  }

  // ---------------------------------------------------------------- queries

  /** The conditions of the derived queries. */
  datatype Criterion = WithLevel(level: LogLevel) | WithSource(source: string) | Unread
                     | After(time: int) | Before(time: int) | NotBefore(time: int)

  predicate Matches(e: LogEntry, c: Criterion)
  {
    match c
    case WithLevel(l) => e.level == l
    case WithSource(s) => e.source == Some(s)
    case Unread => !e.readByAdmin
    case After(t) => e.timestamp > t
    case Before(t) => e.timestamp < t
    case NotBefore(t) => e.timestamp >= t
  }

  /** The entries meeting the condition, in table order. */
  function Select(es: seq<LogEntry>, c: Criterion): (r: seq<LogEntry>)
  {
    if es == [] then [] else (if Matches(es[0], c) then [es[0]] else []) + Select(es[1..], c)
  }

  /** Selection keeps exactly the matching entries, and no more of them than the table
      holds. */
  lemma {:induction false} SelectExact(es: seq<LogEntry>, c: Criterion)
    ensures |Select(es, c)| <= |es|
    ensures forall e :: e in Select(es, c) <==> e in es && Matches(e, c)
  {
    if es != [] {
      SelectExact(es[1..], c);
      assert es == [es[0]] + es[1..];
    }
  }

  /** Each matching entry is selected as often as the table holds it, and no other. */
  lemma {:induction false} SelectCounts(es: seq<LogEntry>, c: Criterion)
    ensures forall e :: Matches(e, c) ==> multiset(Select(es, c))[e] == multiset(es)[e]
    ensures forall e :: !Matches(e, c) ==> multiset(Select(es, c))[e] == 0
  {
    if es != [] {
      SelectCounts(es[1..], c);
      assert es == [es[0]] + es[1..];
      assert multiset(es) == multiset{es[0]} + multiset(es[1..]);
    }
  }

  /** The entries older than a cutoff and those that are not split the table. */
  lemma {:induction false} BeforeSplits(es: seq<LogEntry>, t: int)
    ensures |Select(es, Before(t))| + |Select(es, NotBefore(t))| == |es|
  {
    if es != [] {
      BeforeSplits(es[1..], t);
    }
  }

  /** Entries ordered newest first (ORDER BY timestamp DESC). */
  predicate NewestFirst(s: seq<LogEntry>)
  {
    forall i, j :: 0 <= i < j < |s| ==> s[i].timestamp >= s[j].timestamp
  }

  /** Puts e in front of the first entry that is not newer than it. */
  function Insert(e: LogEntry, s: seq<LogEntry>): (r: seq<LogEntry>)
    ensures multiset(r) == multiset(s) + multiset{e}
    ensures r != [] && (r[0] == e || (s != [] && r[0] == s[0]))
  {
    if s == [] || e.timestamp >= s[0].timestamp then [e] + s
    else
      assert s == [s[0]] + s[1..];
      [s[0]] + Insert(e, s[1..])
  }

  /** The database's ordering by descending timestamp; the order of entries with equal
      timestamps is the database's choice, and this model fixes one. */
  function Newest(s: seq<LogEntry>): (r: seq<LogEntry>)
    ensures multiset(r) == multiset(s)
  {
    if s == [] then []
    else
      assert s == [s[0]] + s[1..];
      Insert(s[0], Newest(s[1..]))
  }

  lemma {:induction false} InsertKeepsOrder(e: LogEntry, s: seq<LogEntry>)
    requires NewestFirst(s)
    ensures NewestFirst(Insert(e, s))
  {
    if s != [] && e.timestamp < s[0].timestamp {
      InsertKeepsOrder(e, s[1..]);
      var tail := Insert(e, s[1..]);
      forall j | 0 <= j < |tail| ensures s[0].timestamp >= tail[j].timestamp {
        assert tail[j] in multiset(s[1..]) + multiset{e};
        if tail[j] != e {
          assert tail[j] in s[1..];
        }
      }
    }
  }

  /** The ordered result is a permutation of its input, newest first. */
  lemma {:induction false} NewestSorted(s: seq<LogEntry>)
    ensures NewestFirst(Newest(s)) && multiset(Newest(s)) == multiset(s)
  {
    if s != [] {
      NewestSorted(s[1..]);
      InsertKeepsOrder(s[0], Newest(s[1..]));
    }
  }

  /** PageRequest: a 0-based page index and a page size. */
  datatype PageRequest = PageRequest(index: nat, size: nat)

  /** A page of a query's result and the size of the whole result. */
  datatype Page = Page(content: seq<LogEntry>, number: nat, size: nat, totalElements: nat)

  /** PageRequest.of(page - 1, DEFAULT_PAGE_SIZE): a 1-based page number becomes a
      0-based index; an index below zero is refused with IllegalArgumentException. */
  function RequestFor(page: int): (r: Result<PageRequest>)
  {
    if page - 1 < 0 then Throw(IllegalArgument("Page index must not be less than zero")) else Ok(PageRequest(page - 1, DefaultPageSize))
  }

  /** Page numbers from 1 up are accepted, as index page - 1 of size 50; others fail. */
  lemma RequestForPage(page: int)
    ensures RequestFor(page).Ok? <==> page >= 1
    ensures RequestFor(page).Ok? ==>
      RequestFor(page).value.index + 1 == page && RequestFor(page).value.size == 50
    ensures RequestFor(page).Throw? ==> RequestFor(page).exception.IllegalArgument?
  {
  }

  /** The slice of an ordered result that a request asks for. */
  function PageOf(ordered: seq<LogEntry>, req: PageRequest): (p: Page)
  {
    var lo := Min(req.index * req.size, |ordered|);
    var hi := Min(lo + req.size, |ordered|);
    Page(ordered[lo..hi], req.index, req.size, |ordered|)
  }

  /** Pages tile the ordered result: entry k is at position k % size of page k / size,
      a page holds at most size entries and the total is the whole result's size. */
  lemma PagesTile(ordered: seq<LogEntry>, size: nat, k: nat)
    requires size > 0 && k < |ordered|
    ensures var p := PageOf(ordered, PageRequest(k / size, size));
      k % size < |p.content| <= size && p.content[k % size] == ordered[k]
      && p.totalElements == |ordered| && p.number == k / size
  {
    var q := k / size;
    assert q * size + k % size == k;
    assert q * size <= k;
  }

  /** A query's result for a page number: the page of the ordered selection. */
  function Paged(selected: seq<LogEntry>, page: int): (r: Result<Page>)
  {
    match RequestFor(page)
    case Throw(x) => Throw(x)
    case Ok(req) => Ok(PageOf(Newest(selected), req))
  }

  /** getAllLogs. */
  function AllLogs(es: seq<LogEntry>, page: int): (r: Result<Page>)
  {
    Paged(es, page)
  }

  /** getLogsByLevel. */
  function LogsByLevel(es: seq<LogEntry>, level: LogLevel, page: int): (r: Result<Page>)
  {
    Paged(Select(es, WithLevel(level)), page)
  }

  /** getLogsBySource. */
  function LogsBySource(es: seq<LogEntry>, source: string, page: int): (r: Result<Page>)
  {
    Paged(Select(es, WithSource(source)), page)
  }

  /** A paged query answers page p with the newest-first selection's entries
      50 * (p - 1) .. 50 * p, and reports the whole selection's size. */
  lemma PagedContent(selected: seq<LogEntry>, page: int, k: nat)
    requires page >= 1
    ensures Paged(selected, page).Ok?
    ensures var p := Paged(selected, page).value;
      p.number == page - 1 && p.size == 50 && p.totalElements == |selected| && |p.content| <= 50
    ensures var p := Paged(selected, page).value;
      (50 * (page - 1) < |selected| ==> 50 * (page - 1) + |p.content| == Min(50 * page, |selected|))
      && (50 * (page - 1) >= |selected| ==> p.content == [])
    ensures var p := Paged(selected, page).value;
      NewestFirst(p.content) && forall e :: e in p.content ==> e in selected
    ensures var p := Paged(selected, page).value;
      50 * (page - 1) <= k < |selected| && k < 50 * page ==>
        p.content[k - 50 * (page - 1)] == Newest(selected)[k]
  {
    var ordered := Newest(selected);
    var lo := Min((page - 1) * 50, |ordered|);
    var hi := Min(lo + 50, |ordered|);
    assert Paged(selected, page).value.content == ordered[lo..hi];
    NewestMembers(selected);
    NewestSorted(selected);
    SliceKeepsOrder(ordered, lo, hi);
  }

  /** A slice of a newest-first list is newest first and holds only the list's entries. */
  lemma SliceKeepsOrder(s: seq<LogEntry>, lo: nat, hi: nat)
    requires lo <= hi <= |s| && NewestFirst(s)
    ensures NewestFirst(s[lo..hi]) && forall e :: e in s[lo..hi] ==> e in s
  {
    forall i, j | 0 <= i < j < hi - lo ensures s[lo..hi][i].timestamp >= s[lo..hi][j].timestamp {
      assert s[lo..hi][i] == s[lo + i] && s[lo..hi][j] == s[lo + j];
    }
  }

  /** A level query holds only entries of that level, a source query only entries of
      that source. */
  lemma QueriesMatch(es: seq<LogEntry>, level: LogLevel, source: string, page: int)
    ensures LogsByLevel(es, level, page).Ok? ==>
      forall e :: e in LogsByLevel(es, level, page).value.content ==> e in es && e.level == level
    ensures LogsBySource(es, source, page).Ok? ==>
      forall e :: e in LogsBySource(es, source, page).value.content ==> e in es && e.source == Some(source)
  {
    if page >= 1 {
      assert forall e :: e in LogsByLevel(es, level, page).value.content ==> e in es && e.level == level by {
        PagedContent(Select(es, WithLevel(level)), page, 0);
        SelectExact(es, WithLevel(level));
      }
      assert forall e :: e in LogsBySource(es, source, page).value.content ==> e in es && e.source == Some(source) by {
        PagedContent(Select(es, WithSource(source)), page, 0);
        SelectExact(es, WithSource(source));
      }
    }
  }

  /** getUnreadLogs. */
  function UnreadLogs(es: seq<LogEntry>): (r: seq<LogEntry>)
  {
    Newest(Select(es, Unread))
  }

  /** getUnreadLogsCount. */
  function UnreadLogsCount(es: seq<LogEntry>): (n: nat)
  {
    |Select(es, Unread)|
  }

  /** getRecentLogs: the entries strictly after the instant, newest first. */
  function RecentLogs(es: seq<LogEntry>, since: int): (r: seq<LogEntry>)
  {
    Newest(Select(es, After(since)))
  }

  /** The ordered result holds the same entries as its input. */
  lemma NewestMembers(s: seq<LogEntry>)
    ensures |Newest(s)| == |s|
    ensures forall e :: e in Newest(s) <==> e in s
  {
    assert |multiset(Newest(s))| == |multiset(s)|;
    forall e ensures e in Newest(s) <==> e in s {
      assert e in Newest(s) <==> e in multiset(Newest(s));
      assert e in s <==> e in multiset(s);
    }
  }

  /** The list queries return exactly their entries, newest first; the count agrees. */
  lemma ListQueriesExact(es: seq<LogEntry>, since: int)
    ensures NewestFirst(UnreadLogs(es)) && NewestFirst(RecentLogs(es, since))
    ensures forall e :: e in UnreadLogs(es) <==> e in es && !e.readByAdmin
    ensures forall e :: e in RecentLogs(es, since) <==> e in es && e.timestamp > since
    ensures UnreadLogsCount(es) == |UnreadLogs(es)|
  {
    assert NewestFirst(UnreadLogs(es)) by { NewestSorted(Select(es, Unread)); }
    assert NewestFirst(RecentLogs(es, since)) by { NewestSorted(Select(es, After(since))); }
    assert forall e :: e in UnreadLogs(es) <==> e in es && !e.readByAdmin by {
      NewestMembers(Select(es, Unread));
      SelectExact(es, Unread);
    }
    assert forall e :: e in RecentLogs(es, since) <==> e in es && e.timestamp > since by {
      NewestMembers(Select(es, After(since)));
      SelectExact(es, After(since));
    }
    NewestMembers(Select(es, Unread));
  }

  // ---------------------------------------------------------------- updates

  /** The table after marking the given ids read: an entry is read when it was or when
      its id is among them; nothing else changes. */
  function MarkRead(es: seq<LogEntry>, ids: seq<int>): (r: seq<LogEntry>)
  {
    seq(|es|, j requires 0 <= j < |es| => es[j].(readByAdmin := es[j].readByAdmin || es[j].id in ids))
  }

  /** Every entry read, nothing else changed. */
  function AllRead(es: seq<LogEntry>): (r: seq<LogEntry>)
  {
    seq(|es|, j requires 0 <= j < |es| => es[j].(readByAdmin := true))
  }

  /** Marking only sets flags: the ids listed become read, the others keep their flag,
      every other field is kept, and ids that no entry has are ignored. */
  lemma MarkReadExact(es: seq<LogEntry>, ids: seq<int>, missing: int)
    requires forall j :: 0 <= j < |es| ==> es[j].id != missing
    ensures |MarkRead(es, ids)| == |es|
    ensures forall j :: 0 <= j < |es| ==>
      MarkRead(es, ids)[j].(readByAdmin := es[j].readByAdmin) == es[j]
      && (MarkRead(es, ids)[j].readByAdmin <==> es[j].readByAdmin || es[j].id in ids)
    ensures MarkRead(es, ids + [missing]) == MarkRead(es, ids)
  {
  }

  /** Marking the unread entries' ids is marking everything, and leaves nothing unread. */
  lemma {:induction false} MarkUnreadIsAllRead(es: seq<LogEntry>)
    ensures MarkRead(es, IdsOf(UnreadLogs(es))) == AllRead(es)
    ensures UnreadLogsCount(AllRead(es)) == 0
  {
    var ids := IdsOf(UnreadLogs(es));
    forall j | 0 <= j < |es| ensures MarkRead(es, ids)[j] == AllRead(es)[j] {
      if !es[j].readByAdmin {
        assert es[j] in UnreadLogs(es) by { ListQueriesExact(es, 0); }
        IdsOfMembers(UnreadLogs(es), es[j]);
      }
    }
    NoneUnread(AllRead(es));
  }

  lemma {:induction false} NoneUnread(es: seq<LogEntry>)
    requires forall j :: 0 <= j < |es| ==> es[j].readByAdmin
    ensures UnreadLogsCount(es) == 0
  {
    if es != [] {
      NoneUnread(es[1..]);
    }
  }

  /** The ids of a list of entries. */
  function IdsOf(es: seq<LogEntry>): (ids: seq<int>)
    ensures |ids| == |es|
  {
    if es == [] then [] else [es[0].id] + IdsOf(es[1..])
  }

  lemma {:induction false} IdsOfSnoc(es: seq<LogEntry>, e: LogEntry)
    ensures IdsOf(es + [e]) == IdsOf(es) + [e.id]
  {
    if es != [] {
      IdsOfSnoc(es[1..], e);
      assert (es + [e])[1..] == es[1..] + [e];
    } else {
      assert [e][1..] == [];
    }
  }

  lemma {:induction false} IdsOfMembers(es: seq<LogEntry>, e: LogEntry)
    requires e in es
    ensures e.id in IdsOf(es)
  {
    if es[0] != e {
      IdsOfMembers(es[1..], e);
    }
  }

  /** findById: the position of the entry with that id, if any. */
  function FindById(es: seq<LogEntry>, id: int): (i: Option<nat>)
    ensures i.Some? ==> i.value < |es| && es[i.value].id == id
    ensures i.None? <==> forall j :: 0 <= j < |es| ==> es[j].id != id
  {
    if es == [] then None
    else if es[0].id == id then Some(0)
    else match FindById(es[1..], id)
      case None => None
      case Some(i) => Some(i + 1)
  }

  /** Ids are unique and all below the next generated id. */
  predicate IdsUnique(es: seq<LogEntry>, nextId: int)
  {
    (forall j :: 0 <= j < |es| ==> es[j].id < nextId)
    && (forall i, j :: 0 <= i < j < |es| ==> es[i].id != es[j].id)
  }

  /** With unique ids, marking the entry found for an id is marking that id. */
  lemma MarkOneStep(es: seq<LogEntry>, done: seq<int>, id: int, nextId: int)
    requires IdsUnique(es, nextId)
    ensures var m := MarkRead(es, done);
      var i := FindById(m, id);
      (if i.None? then m else m[i.value := m[i.value].(readByAdmin := true)]) == MarkRead(es, done + [id])
  {
    var m := MarkRead(es, done);
    var i := FindById(m, id);
    if i.Some? {
      forall j | 0 <= j < |es| && j != i.value ensures es[j].id != id {
        assert m[j].id == es[j].id;
      }
    }
  }

  class LogTable {
    var entries: seq<LogEntry>
    var nextId: int

    predicate Valid()
      reads this
    {
      IdsUnique(entries, nextId)
    }

    constructor ()
      ensures Valid() && entries == []
    {
      entries := [];
      nextId := 1;
    }

    /** log: saves exactly one new entry under a fresh id. */
    method Log(level: LogLevel, message: string, source: Option<string>, trace: Option<string>, now: int)
      requires Valid()
      modifies this
      ensures Valid()
      ensures entries == old(entries) + [NewEntry(old(nextId), now, level, message, source, trace)]
      ensures nextId == old(nextId) + 1
    {
      entries := entries + [NewEntry(nextId, now, level, message, source, trace)];
      nextId := nextId + 1;
    }

    method Debug(message: string, source: Option<string>, now: int)
      requires Valid()
      modifies this
      ensures Valid() && nextId == old(nextId) + 1
      ensures entries == old(entries) + [NewEntry(old(nextId), now, DEBUG, message, source, None)]
    {
      Log(DEBUG, message, source, None, now);
    }

    method Info(message: string, source: Option<string>, now: int)
      requires Valid()
      modifies this
      ensures Valid() && nextId == old(nextId) + 1
      ensures entries == old(entries) + [NewEntry(old(nextId), now, INFO, message, source, None)]
    {
      Log(INFO, message, source, None, now);
    }

    method Warning(message: string, source: Option<string>, now: int)
      requires Valid()
      modifies this
      ensures Valid() && nextId == old(nextId) + 1
      ensures entries == old(entries) + [NewEntry(old(nextId), now, WARNING, message, source, None)]
    {
      Log(WARNING, message, source, None, now);
    }

    /** error, with or without a throwable (its printed trace, None for no throwable). */
    method Error(message: string, source: Option<string>, trace: Option<string>, now: int)
      requires Valid()
      modifies this
      ensures Valid() && nextId == old(nextId) + 1
      ensures entries == old(entries) + [NewEntry(old(nextId), now, ERROR, message, source, trace)]
    {
      Log(ERROR, message, source, trace, now);
    }

    /** critical, with or without a throwable. */
    method Critical(message: string, source: Option<string>, trace: Option<string>, now: int)
      requires Valid()
      modifies this
      ensures Valid() && nextId == old(nextId) + 1
      ensures entries == old(entries) + [NewEntry(old(nextId), now, CRITICAL, message, source, trace)]
    {
      Log(CRITICAL, message, source, trace, now);
    }

    /** The body of markAsRead's loop: the entry with that id, if any, becomes read. */
    method MarkOne(id: int)
      requires Valid()
      modifies this
      ensures Valid() && nextId == old(nextId)
      ensures var i := FindById(old(entries), id);
        entries == if i.None? then old(entries) else old(entries)[i.value := old(entries)[i.value].(readByAdmin := true)]
    {
      var i := FindById(entries, id);
      if i.Some? {
        entries := entries[i.value := entries[i.value].(readByAdmin := true)];
      }
    }

    /** markAsRead: every listed id present in the table is marked read; missing ids are
        ignored. */
    method MarkAsRead(ids: seq<int>)
      requires Valid()
      modifies this
      ensures Valid() && nextId == old(nextId)
      ensures entries == MarkRead(old(entries), ids)
    {
      var k := 0;
      while k < |ids|
        invariant 0 <= k <= |ids|
        invariant Valid() && nextId == old(nextId)
        invariant entries == MarkRead(old(entries), ids[..k])
      {
        MarkOneStep(old(entries), ids[..k], ids[k], nextId);
        MarkOne(ids[k]);
        assert ids[..k + 1] == ids[..k] + [ids[k]];
        k := k + 1;
      }
      assert ids[..k] == ids;
    }

    /** markAllAsRead: each entry of the unread list is marked read, so none is left. */
    method MarkAllAsRead()
      requires Valid()
      modifies this
      ensures Valid() && nextId == old(nextId)
      ensures entries == AllRead(old(entries))
      ensures UnreadLogsCount(entries) == 0
    {
      var unreadLogs := UnreadLogs(entries);
      MarkEach(unreadLogs);
      MarkUnreadIsAllRead(old(entries));
    }

    /** The loop of markAllAsRead: each listed entry is a stored object, and setting its
        flag and saving it marks the stored entry with its id. */
    method MarkEach(logs: seq<LogEntry>)
      requires Valid()
      modifies this
      ensures Valid() && nextId == old(nextId)
      ensures entries == MarkRead(old(entries), IdsOf(logs))
    {
      var k := 0;
      while k < |logs|
        invariant 0 <= k <= |logs|
        invariant Valid() && nextId == old(nextId)
        invariant entries == MarkRead(old(entries), IdsOf(logs[..k]))
      {
        MarkOneStep(old(entries), IdsOf(logs[..k]), logs[k].id, nextId);
        MarkOne(logs[k].id);
        IdsOfSnoc(logs[..k], logs[k]);
        assert logs[..k + 1] == logs[..k] + [logs[k]];
        k := k + 1;
      }
      assert logs[..k] == logs;
    }

    /** clearOldLogs: deletes exactly the entries stamped before now minus the days and
        returns how many it deleted. */
    method ClearOldLogs(days: int, now: int) returns (count: int)
      requires Valid()
      modifies this
      ensures Valid() && nextId == old(nextId)
      ensures entries == Select(old(entries), NotBefore(now - days * DaySeconds))
      ensures count == |Select(old(entries), Before(now - days * DaySeconds))|
      ensures count == |old(entries)| - |entries|
    {
      var cutoff := now - days * DaySeconds;
      var oldLogs := Select(entries, Before(cutoff));
      count := |oldLogs|;
      BeforeSplits(entries, cutoff);
      KeptSubset(entries, cutoff, nextId);
      entries := Select(entries, NotBefore(cutoff));
    }
  }

  /** Deleting entries keeps the remaining ids unique. */
  lemma {:induction false} KeptSubset(es: seq<LogEntry>, t: int, nextId: int)
    requires IdsUnique(es, nextId)
    ensures IdsUnique(Select(es, NotBefore(t)), nextId)
  {
    if es != [] {
      var rest := Select(es[1..], NotBefore(t));
      assert IdsUnique(rest, nextId) by { KeptSubset(es[1..], t, nextId); }
      assert forall j :: 0 <= j < |rest| ==> rest[j] in es[1..] by { SelectExact(es[1..], NotBefore(t)); }
      assert forall j :: 0 <= j < |rest| ==> rest[j].id != es[0].id;
    }
  }

  /** After clearing, the table holds exactly the entries that were not older than the
      cutoff, each as often as before. */
  lemma ClearedExactly(es: seq<LogEntry>, days: int, now: int)
    ensures var kept := Select(es, NotBefore(now - days * DaySeconds));
      (forall e :: e in kept <==> e in es && e.timestamp >= now - days * DaySeconds)
      && (forall e :: e in es && e.timestamp >= now - days * DaySeconds ==> multiset(kept)[e] == multiset(es)[e])
  {
    SelectExact(es, NotBefore(now - days * DaySeconds));
    SelectCounts(es, NotBefore(now - days * DaySeconds));
  }
}
