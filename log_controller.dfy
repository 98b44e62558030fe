/** The administrator's log endpoints: pages and lists of log entries, optionally thinned
    by comma-separated lists of levels and sources to exclude, and the mark-read and purge
    actions with their replies. The authenticated administrator's name and the clock are
    parameters; the reply maps become datatypes without their timestamp. */
module LogController {
  import opened Common
  import opened JavaText
  import opened LogLevels
  import opened LoggingService

  /** LogEntryDTO: the entry's fields as sent to the browser. */
  datatype LogEntryDTO = LogEntryDTO(id: int, timestamp: int, level: LogLevel, message: string,
                                     source: Option<string>, stackTrace: Option<string>, readByAdmin: bool)

  /** convertToDTO on one entry. */
  function ToDTO(e: LogEntry): (d: LogEntryDTO)
  {
    LogEntryDTO(e.id, e.timestamp, e.level, e.message, e.source, e.stackTrace, e.readByAdmin)
  }

  /** convertToDTO: one DTO per entry, in order. */
  function ConvertToDTO(es: seq<LogEntry>): (ds: seq<LogEntryDTO>)
    ensures |ds| == |es| && forall k :: 0 <= k < |es| ==> ds[k] == ToDTO(es[k])
  {
    if es == [] then [] else [ToDTO(es[0])] + ConvertToDTO(es[1..])
  }

  /** Converting loses nothing: the entry is recovered from its DTO. */
  lemma DTORoundTrip(e: LogEntry)
    ensures var d := ToDTO(e);
      LogEntry(d.id, d.timestamp, d.level, d.message, d.source, d.stackTrace, d.readByAdmin) == e
  {
  }

  // ---------------------------------------------------------------- exclusions

  /** An optional request parameter that is neither null nor empty. */
  predicate Given(s: Option<string>)
  {
    s.Some? && s.value != ""
  }

  /** The early-exit loop over a split list: some entry, trimmed, equals the name up to
      case. */
  function AnyEntryMatches(name: string, entries: seq<string>): (b: bool)
    ensures b <==> exists k :: 0 <= k < |entries| && EqualsIgnoreCase(name, Trim(entries[k]))
  {
    if entries == [] then false
    else EqualsIgnoreCase(name, Trim(entries[0])) || AnyEntryMatches(name, entries[1..])
  }

  /** The name is excluded by a list parameter: the list is given and one of its
      comma-separated entries, trimmed, equals the name ignoring case. */
  predicate ExcludedBy(name: string, list: Option<string>)
  {
    Given(list) && exists k :: 0 <= k < |Split(list.value, ',')| && EqualsIgnoreCase(name, Trim(Split(list.value, ',')[k]))
  }

  /** shouldIncludeLog and shouldIncludeDTO, on the level and source they read: the level
      list is tried first, then the source list, which never excludes a null source. */
  function Included(level: LogLevel, source: Option<string>, excludeLevels: Option<string>,
                    excludeSources: Option<string>): (b: bool)
  {
    if Given(excludeLevels) && AnyEntryMatches(Name(level), Split(excludeLevels.value, ',')) then false
    else if Given(excludeSources) && source.Some? && AnyEntryMatches(source.value, Split(excludeSources.value, ',')) then false
    else true
  }

  /** An entry is kept exactly when neither its level nor its non-null source is listed;
      null or empty lists exclude nothing, and a null source is judged on its level only. */
  lemma IncludedIff(level: LogLevel, source: Option<string>, excludeLevels: Option<string>,
                    excludeSources: Option<string>)
    ensures Included(level, source, excludeLevels, excludeSources) <==>
      !ExcludedBy(Name(level), excludeLevels) && !(source.Some? && ExcludedBy(source.value, excludeSources))
    ensures !Given(excludeLevels) && !Given(excludeSources) ==> Included(level, source, excludeLevels, excludeSources)
    ensures Included(level, None, excludeLevels, excludeSources) <==> !ExcludedBy(Name(level), excludeLevels)
  {
  }

  /** A level's name is a non-empty run of capital letters. */
  lemma NameShape(level: LogLevel)
    ensures Name(level) != [] && forall i :: 0 <= i < |Name(level)| ==> 'A' <= Name(level)[i] <= 'Z'
  {
  }

  /** A list made of a level's own name, with blanks around it, excludes that level. */
  lemma {:induction false} OwnLevelExcluded(level: LogLevel, source: Option<string>, excludeSources: Option<string>,
                                            pad: string)
    requires forall i :: 0 <= i < |pad| ==> pad[i] == ' '
    ensures !Included(level, source, Some(pad + Name(level) + pad), excludeSources)
  {
    var name := Name(level);
    NameShape(level);
    var padded := pad + name + pad;
    assert ',' !in padded by {
      forall i | 0 <= i < |padded| ensures padded[i] != ',' {
        if i < |pad| { } else if i < |pad| + |name| { assert padded[i] == name[i - |pad|]; }
        else { assert padded[i] == pad[i - |pad| - |name|]; }
      }
    }
    assert Split(padded, ',') == [padded] by { SplitNoSeparator(padded, ','); }
    assert Trim(padded) == name by { TrimPadded(pad, name, pad); }
    assert EqualsIgnoreCase(name, name) by { EqualsIgnoreCaseEquivalence(name, name, name); }
  }

  /** The level list is compared ignoring case: a level's name in lower case excludes it. */
  lemma LowerCaseLevelExcluded(level: LogLevel, source: Option<string>, excludeSources: Option<string>)
    ensures !Included(level, source, Some(ToLower(Name(level))), excludeSources)
  {
    NameShape(level);
    LowerCaseListed(Name(level));
  }

  /** A capitalised name, lower-cased, splits into one entry that matches the name. */
  lemma LowerCaseListed(name: string)
    requires name != [] && forall i :: 0 <= i < |name| ==> 'A' <= name[i] <= 'Z'
    ensures ToLower(name) != [] && AnyEntryMatches(name, Split(ToLower(name), ','))
  {
    var lower := ToLower(name);
    LowerLetters(name);
    LowerWord(name);
    SingleEntryMatches(name, lower);
  }

  /** A list without a comma is one entry, which the name matches when the trimmed list does. */
  lemma SingleEntryMatches(name: string, list: string)
    requires ',' !in list && EqualsIgnoreCase(name, Trim(list))
    ensures AnyEntryMatches(name, Split(list, ','))
  {
    SplitNoSeparator(list, ',');
    assert Split(list, ',')[0] == list;
  }

  /** shouldIncludeLog. */
  function ShouldIncludeLog(e: LogEntry, excludeLevels: Option<string>, excludeSources: Option<string>): (b: bool)
  {
    Included(e.level, e.source, excludeLevels, excludeSources)
  }

  /** shouldIncludeDTO. */
  function ShouldIncludeDTO(d: LogEntryDTO, excludeLevels: Option<string>, excludeSources: Option<string>): (b: bool)
  {
    Included(d.level, d.source, excludeLevels, excludeSources)
  }

  /** The two decisions agree on an entry and its DTO. */
  lemma DecisionsAgree(e: LogEntry, excludeLevels: Option<string>, excludeSources: Option<string>)
    ensures ShouldIncludeDTO(ToDTO(e), excludeLevels, excludeSources) == ShouldIncludeLog(e, excludeLevels, excludeSources)
  {
  }

  /** The stream filter's predicate of filterExclusions. */
  function LogFilter(excludeLevels: Option<string>, excludeSources: Option<string>): (p: LogEntry -> bool)
  {
    e => ShouldIncludeLog(e, excludeLevels, excludeSources)
  }

  /** The stream filter's predicate of filterExclusionsFromDTOList. */
  function DTOFilter(excludeLevels: Option<string>, excludeSources: Option<string>): (p: LogEntryDTO -> bool)
  {
    d => ShouldIncludeDTO(d, excludeLevels, excludeSources)
  }

  /** The stream filter of filterExclusions. */
  function FilterLogs(es: seq<LogEntry>, excludeLevels: Option<string>, excludeSources: Option<string>): (r: seq<LogEntry>)
  {
    Keep(es, LogFilter(excludeLevels, excludeSources))
  }

  /** filterExclusionsFromDTOList. */
  function FilterDTOs(ds: seq<LogEntryDTO>, excludeLevels: Option<string>, excludeSources: Option<string>): (r: seq<LogEntryDTO>)
  {
    Keep(ds, DTOFilter(excludeLevels, excludeSources))
  }

  /** a is b with some elements left out, the rest in their order. */
  predicate Subsequence<T(==)>(a: seq<T>, b: seq<T>)
    decreases |b|
  {
    a == [] || (b != [] && if a[0] == b[0] then Subsequence(a[1..], b[1..]) else Subsequence(a, b[1..]))
  }

  /** A subsequence of the tail is a subsequence of the whole. */
  lemma {:induction false} SubsequenceOfTail<T>(a: seq<T>, b: seq<T>)
    requires b != [] && Subsequence(a, b[1..])
    ensures Subsequence(a, b)
    decreases |b|, 0
  {
    if a != [] && a[0] == b[0] {
      SubsequenceDrop(a, b[1..]);
    }
  }

  /** Dropping the first element keeps a subsequence. */
  lemma {:induction false} SubsequenceDrop<T>(a: seq<T>, b: seq<T>)
    requires a != [] && Subsequence(a, b)
    ensures Subsequence(a[1..], b)
    decreases |b|, 1
  {
    if a[0] == b[0] {
      if a[1..] != [] {
        SubsequenceOfTail(a[1..], b);
      }
    } else {
      SubsequenceDrop(a, b[1..]);
      if a[1..] != [] {
        SubsequenceOfTail(a[1..], b);
      }
    }
  }

  /** A stream filter keeps its survivors in their order. */
  lemma {:induction false} KeepSubsequence<T(!new)>(s: seq<T>, p: T -> bool)
    ensures Subsequence(Keep(s, p), s)
  {
    if s != [] {
      KeepSubsequence(s[1..], p);
      var rest := Keep(s[1..], p);
      if p(s[0]) {
        assert Keep(s, p) == [s[0]] + rest;
        assert ([s[0]] + rest)[1..] == rest;
      } else {
        assert Keep(s, p) == rest;
        if rest != [] {
          SubsequenceOfTail(rest, s);
        }
      }
    }
  }

  /** Filtering twice with the same predicate is filtering once. */
  lemma {:induction false} KeepIdempotent<T(!new)>(s: seq<T>, p: T -> bool)
    ensures Keep(Keep(s, p), p) == Keep(s, p)
  {
    if s != [] {
      var rest := Keep(s[1..], p);
      assert Keep(rest, p) == rest by { KeepIdempotent(s[1..], p); }
      if p(s[0]) {
        var r := [s[0]] + rest;
        assert Keep(s, p) == r;
        assert r[0] == s[0] && r[1..] == rest;
        assert Keep(r, p) == [s[0]] + Keep(rest, p);
      } else {
        assert Keep(s, p) == rest;
      }
    }
  }

  /** A predicate that holds everywhere keeps everything. */
  lemma {:induction false} KeepAll<T(!new)>(s: seq<T>, p: T -> bool)
    requires forall x :: p(x)
    ensures Keep(s, p) == s
  {
    if s != [] {
      KeepAll(s[1..], p);
      assert s == [s[0]] + s[1..];
    }
  }

  /** Converting then filtering the DTOs equals filtering then converting, when the two
      predicates agree on each entry and its DTO. */
  lemma {:induction false} KeepConvert(es: seq<LogEntry>, p: LogEntry -> bool, q: LogEntryDTO -> bool)
    requires forall e :: q(ToDTO(e)) == p(e)
    ensures ConvertToDTO(Keep(es, p)) == Keep(ConvertToDTO(es), q)
  {
    if es != [] {
      KeepConvert(es[1..], p, q);
      var ds := ConvertToDTO(es);
      assert ds[0] == ToDTO(es[0]) && ds[1..] == ConvertToDTO(es[1..]);
      var rest := Keep(es[1..], p);
      if p(es[0]) {
        assert Keep(es, p) == [es[0]] + rest;
        assert ConvertToDTO([es[0]] + rest)[1..] == ConvertToDTO(rest);
      } else {
        assert Keep(es, p) == rest;
      }
    }
  }

  /** Filtering only removes entries: the result keeps the others in their order, holds
      exactly the included ones, and an empty pair of lists keeps everything. */
  lemma FilterOnlyRemoves(es: seq<LogEntry>, excludeLevels: Option<string>, excludeSources: Option<string>)
    ensures var r := FilterLogs(es, excludeLevels, excludeSources);
      Subsequence(r, es)
      && (forall e :: e in r <==> e in es && ShouldIncludeLog(e, excludeLevels, excludeSources))
      && (!Given(excludeLevels) && !Given(excludeSources) ==> r == es)
  {
    var p := LogFilter(excludeLevels, excludeSources);
    KeepSubsequence(es, p);
    if !Given(excludeLevels) && !Given(excludeSources) {
      KeepAll(es, p);
    }
  }

  /** Filtering twice is filtering once. */
  lemma FilterIdempotent(es: seq<LogEntry>, excludeLevels: Option<string>, excludeSources: Option<string>)
    ensures var r := FilterLogs(es, excludeLevels, excludeSources);
      FilterLogs(r, excludeLevels, excludeSources) == r
  {
    KeepIdempotent(es, LogFilter(excludeLevels, excludeSources));
  }

  /** Filtering entries and converting them commutes with converting and filtering the
      DTOs, so the page and the list endpoints thin the same way. */
  lemma FilterCommutes(es: seq<LogEntry>, excludeLevels: Option<string>, excludeSources: Option<string>)
    ensures ConvertToDTO(FilterLogs(es, excludeLevels, excludeSources))
         == FilterDTOs(ConvertToDTO(es), excludeLevels, excludeSources)
  {
    KeepConvert(es, LogFilter(excludeLevels, excludeSources), DTOFilter(excludeLevels, excludeSources));
  }

  /** The total a PageImpl built from content, a page request and a total reports: a
      non-empty page whose request reaches past the given total is taken to be the last
      page, and its total becomes its offset plus its size. */
  function PageImplTotal(content: seq<LogEntry>, number: nat, size: nat, total: nat): (t: nat)
  {
    var offset := number * size;
    if content != [] && offset + size > total then offset + |content| else total
  }

  /** filterExclusions: the filtered content under the same page request, with the
      original total as PageImpl adjusts it. */
  function FilterExclusions(p: Page, excludeLevels: Option<string>, excludeSources: Option<string>): (q: Page)
  {
    var kept := FilterLogs(p.content, excludeLevels, excludeSources);
    Page(kept, p.number, p.size, PageImplTotal(kept, p.number, p.size, p.totalElements))
  }

  /** The endpoints filter only when at least one list is given. */
  function WithExclusions(p: Page, excludeLevels: Option<string>, excludeSources: Option<string>): (q: Page)
  {
    if Given(excludeLevels) || Given(excludeSources) then FilterExclusions(p, excludeLevels, excludeSources) else p
  }

  /** The page after exclusions keeps its request, and its content is the page's content
      with the excluded entries left out; without exclusions it is the page itself. */
  lemma ExclusionsKeepPage(p: Page, excludeLevels: Option<string>, excludeSources: Option<string>)
    ensures var q := WithExclusions(p, excludeLevels, excludeSources);
      q.number == p.number && q.size == p.size
      && q.content == FilterLogs(p.content, excludeLevels, excludeSources)
      && Subsequence(q.content, p.content)
      && (!Given(excludeLevels) && !Given(excludeSources) ==> q == p)
  {
    FilterOnlyRemoves(p.content, excludeLevels, excludeSources);
  }

  /** The total after exclusions, for a page whose entries lie within its query's total:
      it never grows, it still covers the entries kept, and on a short last page it drops
      by exactly the entries the exclusions left out of that page, as if they had never
      been in the query. */
  lemma FilteredTotal(p: Page, excludeLevels: Option<string>, excludeSources: Option<string>)
    requires p.content != [] ==> p.number * p.size + |p.content| <= p.totalElements
    ensures var q := WithExclusions(p, excludeLevels, excludeSources);
      q.totalElements <= p.totalElements
      && (q.content != [] ==> p.number * p.size + |q.content| <= q.totalElements)
      && (!Given(excludeLevels) && !Given(excludeSources) ==> q.totalElements == p.totalElements)
      && (p.number * p.size + |p.content| == p.totalElements && |p.content| < p.size && q.content != []
          ==> q.totalElements == p.totalElements - (|p.content| - |q.content|))
  {
    var kept := FilterLogs(p.content, excludeLevels, excludeSources);
    ExclusionsKeepPage(p, excludeLevels, excludeSources);
    SubsequenceLength(kept, p.content);
  }

  // ---------------------------------------------------------------- replies

  /** Page.getTotalPages. */
  function TotalPages(p: Page): (n: nat)
  {
    if p.size == 0 then 1 else (p.totalElements + p.size - 1) / p.size
  }

  lemma TotalPagesCover(p: Page)
    requires p.size > 0
    ensures TotalPages(p) * p.size >= p.totalElements
    ensures TotalPages(p) > 0 ==> (TotalPages(p) - 1) * p.size < p.totalElements
  {
    var n := TotalPages(p);
    var t := p.totalElements + p.size - 1;
    assert t == n * p.size + t % p.size;
  }

  /** The reply of the paged endpoints. */
  datatype PageReply = PageReply(admin: string, page: int, pageSize: int, totalPages: int,
                                 totalElements: int, logs: seq<LogEntryDTO>)

  /** buildResponse: the page number is reported 1-based. */
  function BuildResponse(p: Page, admin: string): (r: PageReply)
  {
    PageReply(admin, p.number + 1, p.size, TotalPages(p), p.totalElements, ConvertToDTO(p.content))
  }

  /** getAllLogs, getLogsByLevel and getLogsBySource after the service's query. */
  function PagedReply(query: Result<Page>, excludeLevels: Option<string>, excludeSources: Option<string>,
                      admin: string): (r: Result<PageReply>)
  {
    match query
    case Throw(x) => Throw(x)
    case Ok(p) => Ok(BuildResponse(WithExclusions(p, excludeLevels, excludeSources), admin))
  }

  function GetAllLogs(es: seq<LogEntry>, page: int, excludeLevels: Option<string>, excludeSources: Option<string>,
                      admin: string): (r: Result<PageReply>)
  {
    PagedReply(AllLogs(es, page), excludeLevels, excludeSources, admin)
  }

  function GetLogsByLevel(es: seq<LogEntry>, level: LogLevel, page: int, excludeLevels: Option<string>,
                          excludeSources: Option<string>, admin: string): (r: Result<PageReply>)
  {
    PagedReply(LogsByLevel(es, level, page), excludeLevels, excludeSources, admin)
  }

  function GetLogsBySource(es: seq<LogEntry>, source: string, page: int, excludeLevels: Option<string>,
                           excludeSources: Option<string>, admin: string): (r: Result<PageReply>)
  {
    PagedReply(LogsBySource(es, source, page), excludeLevels, excludeSources, admin)
  }

  /** The paged reply echoes the requested page number, reports the size of the query's
      pages, and lists the page's entries that survive the exclusions, in page order; its
      total is the query's, except that on a short last page the excluded entries of that
      page are counted out; a page number below 1 fails as the page request does. */
  lemma {:induction false} PagedReplyFacts(es: seq<LogEntry>, page: int, excludeLevels: Option<string>,
                                           excludeSources: Option<string>, admin: string)
    ensures GetAllLogs(es, page, excludeLevels, excludeSources, admin).Ok? <==> page >= 1
    ensures page >= 1 ==>
      var r := GetAllLogs(es, page, excludeLevels, excludeSources, admin).value;
      var p := AllLogs(es, page).value;
      r.page == page && r.pageSize == 50 && r.admin == admin
      && |r.logs| <= |p.content| <= 50
      && r.logs == ConvertToDTO(FilterLogs(p.content, excludeLevels, excludeSources))
      && (forall e :: ToDTO(e) in r.logs ==> e in es && ShouldIncludeLog(e, excludeLevels, excludeSources))
      && r.totalElements <= |es|
      && (r.logs != [] ==> 50 * (page - 1) + |r.logs| <= r.totalElements)
      && (!Given(excludeLevels) && !Given(excludeSources) ==> r.totalElements == |es|)
      && (50 * (page - 1) < |es| < 50 * page && r.logs != []
          ==> r.totalElements == |es| - (|p.content| - |r.logs|))
  {
    RequestForPage(page);
    if page >= 1 {
      var p := AllLogs(es, page).value;
      PagedContent(es, page, 0);
      ReplyOfPage(p, excludeLevels, excludeSources, admin);
    }
  }

  /** The reply built from one page: its numbers are the page's, with the total after
      exclusions, and its entries are the page's entries that survive the exclusions, in
      page order. */
  lemma ReplyOfPage(p: Page, excludeLevels: Option<string>, excludeSources: Option<string>, admin: string)
    requires p.content != [] ==> p.number * p.size + |p.content| <= p.totalElements
    ensures var r := BuildResponse(WithExclusions(p, excludeLevels, excludeSources), admin);
      r.page == p.number + 1 && r.pageSize == p.size
      && r.admin == admin && |r.logs| <= |p.content|
      && r.logs == ConvertToDTO(FilterLogs(p.content, excludeLevels, excludeSources))
      && (forall e :: ToDTO(e) in r.logs ==> e in p.content && ShouldIncludeLog(e, excludeLevels, excludeSources))
      && r.totalElements <= p.totalElements
      && (r.logs != [] ==> p.number * p.size + |r.logs| <= r.totalElements)
      && (!Given(excludeLevels) && !Given(excludeSources) ==> r.totalElements == p.totalElements)
      && (p.number * p.size + |p.content| == p.totalElements && |p.content| < p.size && r.logs != []
          ==> r.totalElements == p.totalElements - (|p.content| - |r.logs|))
  {
    var kept := FilterLogs(p.content, excludeLevels, excludeSources);
    ExclusionsKeepPage(p, excludeLevels, excludeSources);
    FilteredTotal(p, excludeLevels, excludeSources);
    FilterOnlyRemoves(p.content, excludeLevels, excludeSources);
    SubsequenceLength(kept, p.content);
    ConvertMembers(kept);
  }

  /** An entry's DTO is sent exactly when the entry is among those converted. */
  lemma ConvertMembers(es: seq<LogEntry>)
    ensures forall e :: ToDTO(e) in ConvertToDTO(es) <==> e in es
  {
    forall e | ToDTO(e) in ConvertToDTO(es) ensures e in es {
      var k :| 0 <= k < |es| && ConvertToDTO(es)[k] == ToDTO(e);
      DTORoundTrip(e);
      DTORoundTrip(es[k]);
    }
  }

  lemma {:induction false} SubsequenceLength<T>(a: seq<T>, b: seq<T>)
    requires Subsequence(a, b)
    ensures |a| <= |b|
    decreases |b|
  {
    if a != [] {
      if a[0] == b[0] {
        SubsequenceLength(a[1..], b[1..]);
      } else {
        SubsequenceLength(a, b[1..]);
      }
    }
  }

  /** The DTO list after the optional exclusions. */
  function WithExclusionsDTO(ds: seq<LogEntryDTO>, excludeLevels: Option<string>, excludeSources: Option<string>): (r: seq<LogEntryDTO>)
  {
    if Given(excludeLevels) || Given(excludeSources) then FilterDTOs(ds, excludeLevels, excludeSources) else ds
  }

  /** The reply of getUnreadLogs. */
  datatype UnreadReply = UnreadReply(admin: string, totalUnread: int, totalElements: int, logs: seq<LogEntryDTO>)

  function GetUnreadLogs(es: seq<LogEntry>, excludeLevels: Option<string>, excludeSources: Option<string>,
                         admin: string): (r: UnreadReply)
  {
    var dtos := WithExclusionsDTO(ConvertToDTO(UnreadLogs(es)), excludeLevels, excludeSources);
    UnreadReply(admin, |dtos|, |dtos|, dtos)
  }

  /** The reply of getRecentLogs; the key is spelled sinceMintuesAgo. */
  datatype RecentReply = RecentReply(admin: string, sinceMintuesAgo: int, totalElements: int, logs: seq<LogEntryDTO>)

  function GetRecentLogs(es: seq<LogEntry>, minutes: int, now: int, excludeLevels: Option<string>,
                         excludeSources: Option<string>, admin: string): (r: RecentReply)
  {
    var dtos := WithExclusionsDTO(ConvertToDTO(RecentLogs(es, now - minutes * MinuteSeconds)), excludeLevels, excludeSources);
    RecentReply(admin, minutes, |dtos|, dtos)
  }

  /** The unread list counts what it sends, after the exclusions, and sends exactly the
      unread entries that survive them, newest first. */
  lemma UnreadReplyFacts(es: seq<LogEntry>, excludeLevels: Option<string>, excludeSources: Option<string>,
                         admin: string)
    ensures var u := GetUnreadLogs(es, excludeLevels, excludeSources, admin);
      u.totalUnread == u.totalElements == |u.logs|
      && u.logs == ConvertToDTO(FilterLogs(UnreadLogs(es), excludeLevels, excludeSources))
      && forall e :: e in FilterLogs(UnreadLogs(es), excludeLevels, excludeSources) <==>
           e in es && !e.readByAdmin && ShouldIncludeLog(e, excludeLevels, excludeSources)
  {
    var unread := UnreadLogs(es);
    var u := GetUnreadLogs(es, excludeLevels, excludeSources, admin);
    assert u.logs == ConvertToDTO(FilterLogs(unread, excludeLevels, excludeSources)) by {
      FilterCommutes(unread, excludeLevels, excludeSources);
      FilterOnlyRemoves(unread, excludeLevels, excludeSources);
    }
    assert forall e :: e in unread <==> e in es && !e.readByAdmin by { ListQueriesExact(es, 0); }
    FilterOnlyRemoves(unread, excludeLevels, excludeSources);
  }

  /** The recent list counts what it sends and echoes the minutes asked for. */
  lemma RecentReplyFacts(es: seq<LogEntry>, minutes: int, now: int, excludeLevels: Option<string>,
                         excludeSources: Option<string>, admin: string)
    ensures var r := GetRecentLogs(es, minutes, now, excludeLevels, excludeSources, admin);
      r.totalElements == |r.logs| && r.sinceMintuesAgo == minutes
      && r.logs == ConvertToDTO(FilterLogs(RecentLogs(es, now - minutes * MinuteSeconds), excludeLevels, excludeSources))
  {
    var recent := RecentLogs(es, now - minutes * MinuteSeconds);
    FilterCommutes(recent, excludeLevels, excludeSources);
    FilterOnlyRemoves(recent, excludeLevels, excludeSources);
  }

  /** The reply of getUnreadLogsCount. */
  datatype CountReply = CountReply(admin: string, unreadCount: int)

  /** getUnreadLogsCount: the number of unread entries, with no exclusions applied. */
  function GetUnreadLogsCount(es: seq<LogEntry>, admin: string): (r: CountReply)
  {
    CountReply(admin, UnreadLogsCount(es))
  }

  /** The badge counts exactly the entries the unread list would send without exclusions,
      and drops to zero once everything is marked read. */
  lemma UnreadCountMatchesList(es: seq<LogEntry>, admin: string)
    ensures GetUnreadLogsCount(es, admin).unreadCount == GetUnreadLogs(es, None, None, admin).totalUnread
    ensures GetUnreadLogsCount(AllRead(es), admin).unreadCount == 0
  {
    ListQueriesExact(es, 0);
    NewestMembers(Select(es, Unread));
    MarkUnreadIsAllRead(es);
  }

  /** The reply of the health endpoint. */
  datatype HealthReply = HealthReply(status: string, admin: string, message: string)

  /** health: always up, whatever the table holds. */
  function Health(admin: string): (r: HealthReply)
  {
    HealthReply("UP", admin, "Logging service is operational")
  }

  /** The reply of the mark-read endpoints. */
  datatype MarkReply = MarkReply(admin: string, message: string, logsMarked: int)

  /** markLogsAsRead's reply: it counts the ids sent, found or not. */
  function MarkedReply(ids: seq<int>, admin: string): (r: MarkReply)
  {
    MarkReply(admin, "Marked " + IntToString(|ids|) + " logs as read", |ids|)
  }

  /** The number in the message is the number of ids sent, which is logsMarked. */
  lemma MarkedMessageCount(ids: seq<int>, admin: string)
    requires |ids| <= IntMax
    ensures var r := MarkedReply(ids, admin);
      r.logsMarked == |ids|
      && |r.message| > 20 && r.message[..7] == "Marked " && r.message[|r.message| - 13..] == " logs as read"
      && ParseInt(r.message[7..|r.message| - 13]) == Some(r.logsMarked)
  {
    var n := IntToString(|ids|);
    var m := "Marked " + n + " logs as read";
    assert m[7..|m| - 13] == n;
    ParseIntToString(|ids|);
  }

  /** markLogsAsRead: marks the ids present and answers with the number of ids sent. */
  method MarkLogsAsRead(table: LogTable, ids: seq<int>, admin: string) returns (r: MarkReply)
    requires table.Valid()
    modifies table
    ensures table.Valid()
    ensures table.entries == MarkRead(old(table.entries), ids)
    ensures r == MarkedReply(ids, admin)
  {
    table.MarkAsRead(ids);
    r := MarkedReply(ids, admin);
  }

  /** markAllAsRead: answers with the number of entries that were unread, none of which
      is unread afterwards. */
  method MarkAllAsRead(table: LogTable, admin: string) returns (r: MarkReply)
    requires table.Valid()
    modifies table
    ensures table.Valid()
    ensures table.entries == AllRead(old(table.entries)) && UnreadLogsCount(table.entries) == 0
    ensures r == MarkReply(admin, "Marked all logs as read", UnreadLogsCount(old(table.entries)))
  {
    var unreadCount := UnreadLogsCount(table.entries);
    table.MarkAllAsRead();
    r := MarkReply(admin, "Marked all logs as read", unreadCount);
  }

  /** The reply of clearOldLogs. */
  datatype ClearReply = ClearReply(admin: string, message: string, logsDeleted: int)

  /** clearOldLogs: deletes the entries older than the days and reports how many. */
  method ClearOldLogs(table: LogTable, days: int, now: int, admin: string) returns (r: ClearReply)
    requires table.Valid()
    modifies table
    ensures table.Valid()
    ensures table.entries == Select(old(table.entries), NotBefore(now - days * DaySeconds))
    ensures r == ClearReply(admin, "Cleared logs older than " + IntToString(days) + " days",
                            |old(table.entries)| - |table.entries|)
  {
    var deletedCount := table.ClearOldLogs(days, now);
    r := ClearReply(admin, "Cleared logs older than " + IntToString(days) + " days", deletedCount);
  }
}
