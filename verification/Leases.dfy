/** The lease list: filtering, a fixed order, and pages that continue after the last lease seen. */
module Leases {
  import opened Option
  import opened Text
  import opened Sorting
  import opened Decimal

  const DEFAULT_LIMIT: nat := 100

  // Times are nanoseconds since the Unix epoch.
  datatype Lease = Lease(
    id: string, secretId: string, consumerId: string, grantedAt: int, expiresAt: int, lastUsedAt: int,
    scope: string, status: string)

  datatype Options = Options(consumerId: string, status: string, expiringIn: int, limit: int, now: int)

  datatype Response = Response(leases: seq<Lease>, total: nat, hasMore: bool, nextCursor: string)

  // ----- The list behind the pages

  predicate Passes(lease: Lease, opts: Options)
  {
    && (TrimSpace(opts.consumerId) == "" || lease.consumerId == TrimSpace(opts.consumerId))
    && (TrimSpace(opts.status) == "" || lease.status == TrimSpace(opts.status))
    && (opts.expiringIn > 0 ==> lease.status == "active" && opts.now <= lease.expiresAt <= opts.now + opts.expiringIn)
  }

  function Filtered(input: seq<Lease>, opts: Options): seq<Lease>
  {
    if input == [] then []
    else
      var rest, last := Filtered(input[..|input| - 1], opts), input[|input| - 1];
      if Passes(last, opts) then rest + [last] else rest
  }

  /** Newest first; leases granted together, by id. */
  predicate Before(a: Lease, b: Lease)
  {
    if a.grantedAt == b.grantedAt then StringLess(a.id, b.id) else a.grantedAt > b.grantedAt
  }

  function Listing(input: seq<Lease>, opts: Options): seq<Lease>
  {
    StableSort(Filtered(input, opts), Before)
  }

  function Limit(opts: Options): (n: nat)
    ensures 1 <= n <= DEFAULT_LIMIT
  {
    if opts.limit <= 0 || opts.limit > DEFAULT_LIMIT then DEFAULT_LIMIT else opts.limit
  }

  lemma BeforeIsStrictWeak()
    ensures StrictWeak(Before)
  {
    StringOrderIsStrictWeak();
    forall x, y
      ensures Asymmetric(Before, x, y)
    {
      assert Asymmetric(StringLess, x.id, y.id);
    }
    forall x, y, z
      ensures Transits(Before, x, y, z)
    {
      assert Transits(StringLess, x.id, y.id, z.id);
    }
  }

  lemma ListingIsOrdered(input: seq<Lease>, opts: Options)
    ensures Ordered(Listing(input, opts), Before)
    ensures multiset(Listing(input, opts)) == multiset(Filtered(input, opts))
    ensures |Listing(input, opts)| == |Filtered(input, opts)|
  {
    BeforeIsStrictWeak();
    SortOrders(Filtered(input, opts), Before);
  }

  lemma {:induction false} FilteredCounts(input: seq<Lease>, opts: Options, lease: Lease)
    ensures multiset(Filtered(input, opts))[lease] == if Passes(lease, opts) then multiset(input)[lease] else 0
  {
    if input != [] {
      var init, last := input[..|input| - 1], input[|input| - 1];
      FilteredCounts(init, opts, lease);
      assert input == init + [last];
    }
  }

  /** What the caller asked for: a consumer and a status, unless blank, and an active lease that expires from now on
      and within the time given, if one is. */
  predicate AskedFor(lease: Lease, opts: Options)
  {
    && (lease.consumerId == TrimSpace(opts.consumerId) || Blank(opts.consumerId))
    && (lease.status == TrimSpace(opts.status) || Blank(opts.status))
    && (opts.expiringIn <= 0 || (lease.status == "active" && 0 <= lease.expiresAt - opts.now <= opts.expiringIn))
  }

  /** The newer comes first; of two that were granted together, the one with the lesser id. */
  predicate Precedes(a: Lease, b: Lease)
  {
    a.grantedAt > b.grantedAt || (a.grantedAt == b.grantedAt && (a.id == b.id || StringLess(a.id, b.id)))
  }

  /** Every lease that was asked for is listed, as often as it was given, and no other; each precedes those
      behind it, and leases with one key stay in their order. */
  lemma ListingMeans(input: seq<Lease>, opts: Options)
    ensures forall lease :: multiset(Listing(input, opts))[lease]
                         == if AskedFor(lease, opts) then multiset(input)[lease] else 0
    ensures var leases := Listing(input, opts);
      forall i, j :: 0 <= i < j < |leases| ==> Precedes(leases[i], leases[j])
    ensures forall lease :: Alike(Listing(input, opts), lease, Before) == Filtered(Alike(input, lease, Before), opts)
  {
    BeforeIsStrictWeak();
    ListingIsOrdered(input, opts);
    hide Blank, TrimSpace, StringLess, StableSort;
    forall lease
      ensures multiset(Listing(input, opts))[lease] == if AskedFor(lease, opts) then multiset(input)[lease] else 0
      ensures Alike(Listing(input, opts), lease, Before) == Filtered(Alike(input, lease, Before), opts)
    {
      FilteredCounts(input, opts, lease);
      SortIsStable(Filtered(input, opts), lease, Before);
      FilteredKeepsTies(input, opts, lease);
      PassesMeans(lease, opts);
    }
    var leases := Listing(input, opts);
    forall i, j | 0 <= i < j < |leases|
      ensures Precedes(leases[i], leases[j])
    {
      assert !Before(leases[j], leases[i]);
      StringOrderIsTotal(leases[i].id, leases[j].id);
    }
  }

  lemma PassesMeans(lease: Lease, opts: Options)
    ensures Passes(lease, opts) <==> AskedFor(lease, opts)
  {
    hide TrimSpace;
  }

  lemma {:induction false} FilteredKeepsTies(input: seq<Lease>, opts: Options, y: Lease)
    ensures Alike(Filtered(input, opts), y, Before) == Filtered(Alike(input, y, Before), opts)
  {
    hide Passes, Before;
    if input != [] {
      var init, last := input[..|input| - 1], input[|input| - 1];
      FilteredKeepsTies(init, opts, y);
      AlikeSnoc(Filtered(init, opts), last, y, Before);
      FilteredSnoc(Alike(init, y, Before), last, opts);
      assert Alike(init, y, Before) + [] == Alike(init, y, Before);
    }
  }

  lemma FilteredSnoc(input: seq<Lease>, last: Lease, opts: Options)
    ensures Filtered(input + [last], opts) == Filtered(input, opts) + (if Passes(last, opts) then [last] else [])
  {
    assert (input + [last])[..|input|] == input;
  }

  // ----- Cursors

  function StableCursor(lease: Lease): string
  {
    FormatInt(lease.grantedAt) + "|" + lease.id
  }

  predicate SameKey(a: Lease, id: string, grantedAt: int)
  {
    a.id == id && a.grantedAt == grantedAt
  }

  /** One past the first lease with the key, or 0 when there is none. */
  function AfterKey(leases: seq<Lease>, id: string, grantedAt: int): (n: nat)
    ensures n <= |leases|
    ensures n > 0 ==> SameKey(leases[n - 1], id, grantedAt)
    ensures forall j :: 0 <= j < (if n > 0 then n - 1 else |leases|) ==> !SameKey(leases[j], id, grantedAt)
  {
    if leases == [] then 0
    else
      var n := AfterKey(leases[..|leases| - 1], id, grantedAt);
      if n > 0 then n
      else if SameKey(leases[|leases| - 1], id, grantedAt) then |leases| else 0
  }

  function StartOf(leases: seq<Lease>, rawCursor: string): (n: nat)
    ensures n <= |leases|
  {
    var cursor := TrimSpace(rawCursor);
    if cursor == "" then 0
    else
      var offset := ParseInt(cursor);
      if offset.Some? then (if offset.value < 0 then 0 else if offset.value > |leases| then |leases| else offset.value)
      else
        var bar := IndexOf(cursor, '|');
        if bar == |cursor| || bar + 1 == |cursor| then 0
        else
          var nanos := ParseInt(cursor[..bar]);
          if nanos.None? then 0 else AfterKey(leases, cursor[bar + 1..], nanos.value)
  }

  method CursorStart(leases: seq<Lease>, rawCursor: string) returns (start: nat)
    ensures start == StartOf(leases, rawCursor)
  {
    hide TrimSpace, ParseInt, AfterKey, IndexOf;
    var cursor := TrimSpace(rawCursor);
    if cursor == "" {
      return 0;
    }
    var offset := ParseInt(cursor);
    if offset.Some? {
      if offset.value < 0 {
        return 0;
      }
      if offset.value > |leases| {
        return |leases|;
      }
      return offset.value;
    }
    var bar := IndexOf(cursor, '|');
    if bar == |cursor| || bar + 1 == |cursor| {
      return 0;
    }
    var id := cursor[bar + 1..];
    var nanos := ParseInt(cursor[..bar]);
    if nanos.None? {
      return 0;
    }
    assert StartOf(leases, rawCursor) == AfterKey(leases, id, nanos.value);
    for index := 0 to |leases|
      invariant forall j :: 0 <= j < index ==> !SameKey(leases[j], id, nanos.value)
    {
      if leases[index].id == id && leases[index].grantedAt == nanos.value {
        return index + 1;
      }
    }
    return 0;
  }

  /** r shows the leases from the start on, no more than the limit, and says how to go on. */
  predicate Pages(r: Response, leases: seq<Lease>, start: nat, limit: nat)
  {
    && start <= |leases| && r.leases <= leases[start..] && r.total == |leases|
    && |r.leases| == (if start + limit < |leases| then limit else |leases| - start)
    && (r.hasMore <==> start + limit < |leases|)
    && (r.hasMore && r.leases != [] ==>
          var last := r.leases[|r.leases| - 1];
          r.nextCursor == FormatInt(last.grantedAt) + "|" + last.id)
    && (!r.hasMore ==> r.nextCursor == "")
  }

  lemma PageMeans(leases: seq<Lease>, start: nat, limit: nat)
    requires limit > 0 && start <= |leases|
    ensures Pages(PageAt(leases, start, limit), leases, start, limit)
  {
    hide FormatInt;
  }

  /** A number says how many leases to skip; a text that is neither a number nor a time and an id, none. */
  lemma NumbersSkip(leases: seq<Lease>, n: int, cursor: string)
    requires InInt64(n) && TrimSpace(cursor) == FormatInt(n)
    ensures StartOf(leases, cursor) == if n < 0 then 0 else if n < |leases| then n else |leases|
  {
    IntRoundTrip(n);
    assert FormatInt(n) != "";
    hide FormatInt, ParseInt, TrimSpace;
  }

  lemma OthersSkipNone(leases: seq<Lease>, cursor: string)
    requires var text := TrimSpace(cursor); var bar := IndexOf(text, '|');
      text == "" || (ParseInt(text).None?
                     && (bar == |text| || text[bar + 1..] == "" || ParseInt(text[..bar]).None?))
    ensures StartOf(leases, cursor) == 0
  {
    hide ParseInt, TrimSpace;
  }

  method List(input: seq<Lease>, opts: Options, cursor: string) returns (r: Response)
    ensures r == Page(Listing(input, opts), cursor, Limit(opts))
    ensures Pages(r, Listing(input, opts), StartOf(Listing(input, opts), cursor),
                  if 1 <= opts.limit <= 100 then opts.limit else 100)
  {
    hide StableSort, StartOf, StableCursor, Before, TrimSpace;
    var limit := Limit(opts);
    var consumer, status := TrimSpace(opts.consumerId), TrimSpace(opts.status);
    var filtered := [];
    for i := 0 to |input|
      invariant filtered == Filtered(input[..i], opts)
    {
      var lease := input[i];
      assert input[..i + 1][..i] == input[..i];
      if consumer != "" && lease.consumerId != consumer {
        continue;
      }
      if status != "" && lease.status != status {
        continue;
      }
      if opts.expiringIn > 0 {
        if lease.status != "active" {
          continue;
        }
        if lease.expiresAt < opts.now || lease.expiresAt > opts.now + opts.expiringIn {
          continue;
        }
      }
      filtered := filtered + [lease];
    }
    assert input[..|input|] == input;
    var sorted := StableSort(filtered, Before);
    var start := CursorStart(sorted, cursor);
    var total := |sorted|;
    var end := start + limit;
    var hasMore := end < total;
    if end > total {
      end := total;
    }
    r := Response(sorted[start..end], total, hasMore, if hasMore then StableCursor(sorted[end - 1]) else "");
    PageMeans(sorted, start, limit);
  }

  function Page(leases: seq<Lease>, cursor: string, limit: nat): Response
    requires limit > 0
  {
    PageAt(leases, StartOf(leases, cursor), limit)
  }

  function PageAt(leases: seq<Lease>, start: nat, limit: nat): Response
    requires limit > 0 && start <= |leases|
  {
    var end := if start + limit > |leases| then |leases| else start + limit;
    var hasMore := start + limit < |leases|;
    Response(leases[start..end], |leases|, hasMore, if hasMore then StableCursor(leases[end - 1]) else "")
  }

  /** An id that survives the trimming of the cursor. */
  predicate IdSurvives(id: string)
  {
    id != "" && !IsSpace(id[|id| - 1])
  }

  lemma {:induction false} TrimRightOf(head: string, bar: char, id: string)
    requires !IsSpace(bar)
    ensures TrimRight(head + [bar] + id) == head + [bar] + TrimRight(id)
    decreases |id|
  {
    if id == "" {
      assert head + [bar] + id == head + [bar];
    } else {
      var s := head + [bar] + id;
      assert s[..|s| - 1] == head + [bar] + id[..|id| - 1];
      if IsSpace(id[|id| - 1]) {
        TrimRightOf(head, bar, id[..|id| - 1]);
      }
    }
  }

  lemma {:induction false} TrimRightShortens(s: string)
    ensures |TrimRight(s)| <= |s|
    ensures s != "" && IsSpace(s[|s| - 1]) ==> |TrimRight(s)| < |s|
  {
    if s != "" && IsSpace(s[|s| - 1]) {
      TrimRightShortens(s[..|s| - 1]);
    }
  }

  /** What a lease's own cursor is read as. */
  lemma CursorIsRead(leases: seq<Lease>, lease: Lease)
    requires InInt64(lease.grantedAt)
    ensures StartOf(leases, StableCursor(lease))
         == if TrimRight(lease.id) == "" then 0 else AfterKey(leases, TrimRight(lease.id), lease.grantedAt)
  {
    hide FormatInt, ParseInt, AfterKey;
    var time, id := FormatInt(lease.grantedAt), TrimRight(lease.id);
    var raw := StableCursor(lease);
    IntRoundTrip(lease.grantedAt);
    assert !IsSpace(raw[0]) by {
      assert raw[0] == time[0];
    }
    assert TrimLeft(raw) == raw;
    TrimRightOf(time, '|', lease.id);
    var cursor := TrimSpace(raw);
    assert cursor == time + "|" + id;
    BarIsNoDecimal(time, id);
    assert cursor == time + ("|" + id);
    IndexOfFirst(time, "|" + id, '|');
    assert cursor[..|time|] == time && cursor[|time| + 1..] == id;
  }

  /** A lease's cursor leads to the place right behind it, exactly when its id is not empty and does not end
      in white space, and no earlier lease has its key. */
  lemma CursorLeadsBehindItsLease(leases: seq<Lease>, k: nat)
    requires k < |leases| && InInt64(leases[k].grantedAt)
    ensures StartOf(leases, StableCursor(leases[k])) == k + 1
       <==> && IdSurvives(leases[k].id)
            && forall j :: 0 <= j < k ==> !SameKey(leases[j], leases[k].id, leases[k].grantedAt)
  {
    var lease := leases[k];
    CursorIsRead(leases, lease);
    TrimRightShortens(lease.id);
    assert IdSurvives(lease.id) ==> TrimRight(lease.id) == lease.id;
    assert !IdSurvives(lease.id) ==> TrimRight(lease.id) == "" || TrimRight(lease.id) != lease.id;
    hide StartOf, StableCursor, AfterKey, TrimRight, IdSurvives, SameKey;
    AfterKeyIs(leases, k, TrimRight(lease.id), lease.grantedAt);
  }

  /** The search ends at k exactly when the key there is the one looked for, and no earlier one is. */
  lemma AfterKeyIs(leases: seq<Lease>, k: nat, id: string, grantedAt: int)
    requires k < |leases|
    ensures AfterKey(leases, id, grantedAt) == k + 1
       <==> SameKey(leases[k], id, grantedAt) && forall j :: 0 <= j < k ==> !SameKey(leases[j], id, grantedAt)
    ensures SameKey(leases[k], id, grantedAt) ==> leases[k].id == id
    ensures SameKey(leases[k], leases[k].id, leases[k].grantedAt)
  {
    hide AfterKey;
  }

  // ----- Following the cursors

  predicate DistinctKeys(leases: seq<Lease>)
  {
    forall i, j :: 0 <= i < j < |leases| ==> !SameKey(leases[i], leases[j].id, leases[j].grantedAt)
  }

  /** Keys are distinct and every cursor can be read back. */
  predicate Pageable(leases: seq<Lease>)
  {
    && DistinctKeys(leases)
    && forall i :: 0 <= i < |leases| ==> IdSurvives(leases[i].id) && InInt64(leases[i].grantedAt)
  }

  lemma RepeatedMember(s: seq<Lease>, i: nat, j: nat)
    requires i < j < |s| && s[i] == s[j]
    ensures multiset(s)[s[i]] >= 2
  {
    assert s == s[..i] + [s[i]] + s[i + 1..j] + [s[j]] + s[j + 1..];
  }

  lemma {:induction false} UniqueMember(s: seq<Lease>, x: Lease)
    requires DistinctKeys(s)
    ensures multiset(s)[x] <= 1
  {
    if s != [] {
      var init, last := s[..|s| - 1], s[|s| - 1];
      assert s == init + [last];
      UniqueMember(init, x);
      if x == last && x in init {
        assert false;
      }
    }
  }

  /** The order of the input does not matter to its keys. */
  lemma PageableInAnyOrder(a: seq<Lease>, b: seq<Lease>)
    requires multiset(a) == multiset(b) && Pageable(a)
    ensures Pageable(b)
  {
    forall i | 0 <= i < |b|
      ensures b[i] in a
    {
      assert b[i] in multiset(b);
    }
    forall i, j | 0 <= i < j < |b|
      ensures !SameKey(b[i], b[j].id, b[j].grantedAt)
    {
      var m, n :| 0 <= m < |a| && 0 <= n < |a| && a[m] == b[i] && a[n] == b[j];
      if m == n {
        RepeatedMember(b, i, j);
        UniqueMember(a, b[i]);
      }
    }
  }

  /** What a client gets for a cursor, as long as the leases stay as they are. */
  function Pager(leases: seq<Lease>, limit: nat): string -> Response
    requires limit > 0
  {
    cursor => Page(leases, cursor, limit)
  }

  predicate FollowsAt(fetch: string -> Response, pages: seq<Response>, i: nat)
    requires i + 1 < |pages|
  {
    pages[i].hasMore && pages[i + 1] == fetch(pages[i].nextCursor)
  }

  /** Pages fetched one after another, starting with "" and following the cursors. */
  ghost predicate Linked(fetch: string -> Response, pages: seq<Response>)
  {
    && pages != []
    && pages[0] == fetch("")
    && forall i :: 0 <= i < |pages| - 1 ==> FollowsAt(fetch, pages, i)
  }

  /** A client follows the cursors until a page says there is no more. */
  ghost predicate IsSession(fetch: string -> Response, pages: seq<Response>)
  {
    Linked(fetch, pages) && !pages[|pages| - 1].hasMore
  }

  predicate CutsAt(fetch: string -> Response, leases: seq<Lease>, limit: nat, start: nat)
    requires limit > 0
  {
    start + limit < |leases| ==>
      fetch(PageAt(leases, start, limit).nextCursor) == PageAt(leases, start + limit, limit)
  }

  /** The fetched pages are those of a list that is cut by position. */
  ghost predicate CutsByPosition(fetch: string -> Response, leases: seq<Lease>, limit: nat)
    requires limit > 0
  {
    fetch("") == PageAt(leases, 0, limit) && forall start: nat :: CutsAt(fetch, leases, limit, start)
  }

  function Concat(pages: seq<Response>): seq<Lease>
  {
    if pages == [] then [] else Concat(pages[..|pages| - 1]) + pages[|pages| - 1].leases
  }

  /** Where page i starts. */
  function Start(i: nat, limit: nat): nat
  {
    if i == 0 then 0 else Start(i - 1, limit) + limit
  }

  lemma {:induction false} StartIsProduct(i: nat, limit: nat)
    ensures Start(i, limit) == i * limit
  {
    if i > 0 {
      StartIsProduct(i - 1, limit);
      assert i * limit == (i - 1) * limit + limit;
    }
  }

  lemma PageableCursor(leases: seq<Lease>, k: nat)
    requires Pageable(leases) && k < |leases|
    ensures StartOf(leases, StableCursor(leases[k])) == k + 1
  {
    hide StartOf, StableCursor;
    CursorLeadsBehindItsLease(leases, k);
  }

  lemma PageWithMore(leases: seq<Lease>, start: nat, limit: nat)
    requires limit > 0 && start <= |leases|
    requires start + limit < |leases| || PageAt(leases, start, limit).hasMore
    ensures start + limit < |leases| && PageAt(leases, start, limit).hasMore
    ensures PageAt(leases, start, limit).leases == leases[start..start + limit]
    ensures PageAt(leases, start, limit).nextCursor == StableCursor(leases[start + limit - 1])
  {
    hide StableCursor;
  }

  lemma LastPage(leases: seq<Lease>, start: nat, limit: nat)
    requires limit > 0 && start <= |leases| && !PageAt(leases, start, limit).hasMore
    ensures |leases| <= start + limit && PageAt(leases, start, limit).leases == leases[start..]
  {
    hide StableCursor;
  }

  /** Cursors are as good as positions. */
  lemma PagerCutsByPosition(leases: seq<Lease>, limit: nat)
    requires limit > 0 && Pageable(leases)
    ensures CutsByPosition(Pager(leases, limit), leases, limit)
  {
    var fetch := Pager(leases, limit);
    assert StartOf(leases, "") == 0 by {
      assert TrimSpace("") == "";
    }
    hide StartOf, StableCursor, Pageable, PageAt, CutsAt;
    forall start: nat
      ensures CutsAt(fetch, leases, limit, start)
    {
      PagerCutsAt(leases, limit, start);
    }
  }

  lemma PagerCutsAt(leases: seq<Lease>, limit: nat, start: nat)
    requires limit > 0 && Pageable(leases)
    ensures CutsAt(Pager(leases, limit), leases, limit, start)
  {
    hide StartOf, StableCursor, Pageable, PageAt;
    if start + limit < |leases| {
      PageWithMore(leases, start, limit);
      PageableCursor(leases, start + limit - 1);
    }
  }

  /** A page with more behind it is followed by the page that starts where it ends. */
  lemma CutStep(fetch: string -> Response, leases: seq<Lease>, limit: nat, start: nat)
    requires limit > 0 && CutsByPosition(fetch, leases, limit)
    requires start <= |leases| && PageAt(leases, start, limit).hasMore
    ensures start + limit < |leases|
    ensures fetch(PageAt(leases, start, limit).nextCursor) == PageAt(leases, start + limit, limit)
  {
    PageWithMore(leases, start, limit);
    assert CutsAt(fetch, leases, limit, start);
  }

  /** Page i is the i-th slice. */
  lemma {:induction false} PagesAreSlices(fetch: string -> Response, leases: seq<Lease>, limit: nat,
                                          pages: seq<Response>, i: nat)
    requires limit > 0 && CutsByPosition(fetch, leases, limit) && Linked(fetch, pages) && i < |pages|
    ensures Start(i, limit) <= |leases| && pages[i] == PageAt(leases, Start(i, limit), limit)
  {
    hide PageAt, CutsAt;
    if i > 0 {
      PagesAreSlices(fetch, leases, limit, pages, i - 1);
      assert FollowsAt(fetch, pages, i - 1);
      CutStep(fetch, leases, limit, Start(i - 1, limit));
    }
  }

  lemma EarlierHasMore(fetch: string -> Response, pages: seq<Response>, i: nat)
    requires Linked(fetch, pages) && i + 1 < |pages|
    ensures pages[i].hasMore
  {
    assert FollowsAt(fetch, pages, i);
  }

  lemma NextStart(i: nat, limit: nat)
    ensures Start(0, limit) == 0 && Start(i + 1, limit) == Start(i, limit) + limit
  {
  }

  lemma BeforeFirstPage(pages: seq<Response>, leases: seq<Lease>, limit: nat)
    ensures Start(0, limit) == 0 && Concat(pages[..0]) == leases[..0]
  {
  }

  lemma {:induction false} SlicesConcat(fetch: string -> Response, leases: seq<Lease>, limit: nat,
                                        pages: seq<Response>, n: nat)
    requires limit > 0 && CutsByPosition(fetch, leases, limit) && Linked(fetch, pages) && n < |pages|
    ensures Start(n, limit) <= |leases| && Concat(pages[..n]) == leases[..Start(n, limit)]
  {
    hide *;
    if n == 0 {
      BeforeFirstPage(pages, leases, limit);
    } else {
      var start := Start(n - 1, limit);
      SlicesConcat(fetch, leases, limit, pages, n - 1);
      PagesAreSlices(fetch, leases, limit, pages, n - 1);
      EarlierHasMore(fetch, pages, n - 1);
      PageWithMore(leases, start, limit);
      NextStart(n - 1, limit);
      ConcatStep(pages, n);
      TakeMore(leases, start, limit);
    }
  }

  lemma TakeMore(s: seq<Lease>, from: nat, n: nat)
    requires from + n <= |s|
    ensures s[..from] + s[from..from + n] == s[..from + n]
  {
  }

  lemma ConcatStep(pages: seq<Response>, n: nat)
    requires 0 < n <= |pages|
    ensures Concat(pages[..n]) == Concat(pages[..n - 1]) + pages[n - 1].leases
  {
    assert pages[..n][..n - 1] == pages[..n - 1];
  }

  /** n is the least number of pages of size `limit` that hold `total` leases; no leases take one page. */
  predicate IsPageCount(n: nat, total: nat, limit: nat)
  {
    if total == 0 then n == 1 else n > 0 && (n - 1) * limit < total <= n * limit
  }

  lemma SessionCovers(fetch: string -> Response, leases: seq<Lease>, limit: nat, pages: seq<Response>)
    requires limit > 0 && CutsByPosition(fetch, leases, limit) && IsSession(fetch, pages)
    ensures Concat(pages) == leases && IsPageCount(|pages|, |leases|, limit)
  {
    SessionConcat(fetch, leases, limit, pages);
    SessionCounts(fetch, leases, limit, pages);
  }

  lemma SessionConcat(fetch: string -> Response, leases: seq<Lease>, limit: nat, pages: seq<Response>)
    requires limit > 0 && CutsByPosition(fetch, leases, limit) && IsSession(fetch, pages)
    ensures Concat(pages) == leases
  {
    hide CutsByPosition, PageAt;
    var last := |pages| - 1;
    var start := Start(last, limit);
    PagesAreSlices(fetch, leases, limit, pages, last);
    SlicesConcat(fetch, leases, limit, pages, last);
    LastPage(leases, start, limit);
    ConcatStep(pages, |pages|);
    assert pages[..|pages|] == pages && leases[..start] + leases[start..] == leases;
  }

  lemma SessionCounts(fetch: string -> Response, leases: seq<Lease>, limit: nat, pages: seq<Response>)
    requires limit > 0 && CutsByPosition(fetch, leases, limit) && IsSession(fetch, pages)
    ensures IsPageCount(|pages|, |leases|, limit)
  {
    hide CutsByPosition, PageAt;
    var last := |pages| - 1;
    PagesAreSlices(fetch, leases, limit, pages, last);
    LastPage(leases, Start(last, limit), limit);
    if last > 0 {
      PagesAreSlices(fetch, leases, limit, pages, last - 1);
      assert FollowsAt(fetch, pages, last - 1);
      PageWithMore(leases, Start(last - 1, limit), limit);
    }
    StartIsProduct(last, limit);
    StartIsProduct(last + 1, limit);
  }

  lemma LinkedExtends(fetch: string -> Response, pages: seq<Response>)
    requires Linked(fetch, pages) && pages[|pages| - 1].hasMore
    ensures Linked(fetch, pages + [fetch(pages[|pages| - 1].nextCursor)])
  {
    var more := pages + [fetch(pages[|pages| - 1].nextCursor)];
    forall i | 0 <= i < |more| - 1
      ensures FollowsAt(fetch, more, i)
    {
      assert i < |pages| - 1 ==> FollowsAt(fetch, pages, i);
    }
  }

  lemma EndOfSession(fetch: string -> Response, pages: seq<Response>)
    requires Linked(fetch, pages) && !pages[|pages| - 1].hasMore
    ensures IsSession(fetch, pages)
  {
  }

  lemma {:induction false} FollowCursors(fetch: string -> Response, leases: seq<Lease>, limit: nat,
                                         sofar: seq<Response>)
    returns (pages: seq<Response>)
    requires limit > 0 && CutsByPosition(fetch, leases, limit) && Linked(fetch, sofar)
    ensures IsSession(fetch, pages)
    decreases |leases| - Start(|sofar| - 1, limit)
  {
    assert sofar != [];
    hide *;
    if sofar[|sofar| - 1].hasMore {
      var more := NextPage(fetch, leases, limit, sofar);
      pages := FollowCursors(fetch, leases, limit, more);
    } else {
      EndOfSession(fetch, sofar);
      pages := sofar;
    }
  }

  lemma NextPage(fetch: string -> Response, leases: seq<Lease>, limit: nat, sofar: seq<Response>)
    returns (more: seq<Response>)
    requires limit > 0 && CutsByPosition(fetch, leases, limit) && Linked(fetch, sofar)
    requires sofar[|sofar| - 1].hasMore
    ensures Linked(fetch, more) && Start(|sofar| - 1, limit) < Start(|more| - 1, limit) <= |leases|
  {
    hide *;
    more := Extended(fetch, sofar);
    RoomForMore(fetch, leases, limit, sofar);
    NextStart(|more| - 2, limit);
  }

  lemma Extended(fetch: string -> Response, sofar: seq<Response>) returns (more: seq<Response>)
    requires Linked(fetch, sofar) && sofar[|sofar| - 1].hasMore
    ensures Linked(fetch, more) && sofar != [] && |more| == |sofar| + 1
  {
    LinkedExtends(fetch, sofar);
    more := sofar + [fetch(sofar[|sofar| - 1].nextCursor)];
  }

  lemma RoomForMore(fetch: string -> Response, leases: seq<Lease>, limit: nat, sofar: seq<Response>)
    requires limit > 0 && CutsByPosition(fetch, leases, limit) && Linked(fetch, sofar)
    requires sofar[|sofar| - 1].hasMore
    ensures Start(|sofar| - 1, limit) + limit < |leases|
  {
    hide CutsByPosition, CutsAt, PageAt, Start;
    PagesAreSlices(fetch, leases, limit, sofar, |sofar| - 1);
    PageWithMore(leases, Start(|sofar| - 1, limit), limit);
  }

  /** Over leases that stay as they are, a client that follows the cursors comes to an end, and then has seen
      every lease of the listing once, in order, in ceil(total / limit) pages. */
  lemma SessionsAreComplete(input: seq<Lease>, opts: Options)
    requires Pageable(Filtered(input, opts))
    ensures var fetch := Pager(Listing(input, opts), Limit(opts));
      && (exists pages :: IsSession(fetch, pages))
      && (forall pages :: IsSession(fetch, pages) ==>
            && Concat(pages) == Listing(input, opts)
            && IsPageCount(|pages|, |Filtered(input, opts)|, Limit(opts)))
  {
    var leases, limit := Listing(input, opts), Limit(opts);
    var fetch := Pager(leases, limit);
    ListingIsOrdered(input, opts);
    PageableInAnyOrder(Filtered(input, opts), leases);
    PagerCutsByPosition(leases, limit);
    var _ := FollowCursors(fetch, leases, limit, [fetch("")]);
    forall pages | IsSession(fetch, pages)
      ensures Concat(pages) == leases && IsPageCount(|pages|, |leases|, limit)
    {
      SessionCovers(fetch, leases, limit, pages);
    }
  }

  // ----- When the leases change between pages

  /** The leases that come strictly after one, in order. */
  function After(leases: seq<Lease>, lease: Lease): seq<Lease>
  {
    if leases == [] then []
    else
      var rest, last := After(leases[..|leases| - 1], lease), leases[|leases| - 1];
      if Before(lease, last) then rest + [last] else rest
  }

  lemma {:induction false} AfterIsSuffix(leases: seq<Lease>, lease: Lease, k: nat)
    requires Ordered(leases, Before) && DistinctKeys(leases)
    requires k < |leases| && SameKey(leases[k], lease.id, lease.grantedAt)
    ensures After(leases, lease) == leases[k + 1..]
  {
    hide StringLess;
    var init, last := leases[..|leases| - 1], leases[|leases| - 1];
    if k < |leases| - 1 {
      AfterIsSuffix(init, lease, k);
      assert !Before(last, leases[k]);
      StringOrderIsTotal(lease.id, last.id);
      assert leases[k + 1..] == init[k + 1..] + [last];
    } else {
      NoneAfter(init, lease, leases[k]);
      StringOrderIsTotal(lease.id, last.id);
    }
  }

  lemma {:induction false} NoneAfter(leases: seq<Lease>, lease: Lease, last: Lease)
    requires SameKey(last, lease.id, lease.grantedAt)
    requires forall i :: 0 <= i < |leases| ==> !Before(last, leases[i])
    ensures After(leases, lease) == []
  {
    if leases != [] {
      NoneAfter(leases[..|leases| - 1], lease, last);
    }
  }

  predicate Listed(leases: seq<Lease>, lease: Lease)
  {
    exists i :: 0 <= i < |leases| && SameKey(leases[i], lease.id, lease.grantedAt)
  }

  function FirstOf(leases: seq<Lease>, limit: nat): seq<Lease>
  {
    if |leases| > limit then leases[..limit] else leases
  }

  lemma ListedInAnyOrder(a: seq<Lease>, b: seq<Lease>, lease: Lease)
    requires multiset(a) == multiset(b) && Listed(a, lease)
    ensures Listed(b, lease)
  {
    var i :| 0 <= i < |a| && SameKey(a[i], lease.id, lease.grantedAt);
    assert a[i] in multiset(b);
    var j :| 0 <= j < |b| && b[j] == a[i];
    assert SameKey(b[j], lease.id, lease.grantedAt);
  }

  /** Where the page after a lease's cursor starts. */
  lemma StartAfterChange(leases: seq<Lease>, lease: Lease, n: nat)
    requires IdSurvives(lease.id) && InInt64(lease.grantedAt)
    requires n == StartOf(leases, StableCursor(lease))
    ensures n <= |leases| && (n > 0 <==> Listed(leases, lease))
    ensures n > 0 ==> SameKey(leases[n - 1], lease.id, lease.grantedAt)
  {
    CursorIsRead(leases, lease);
    assert TrimRight(lease.id) == lease.id;
  }

  lemma PageAfterChange(leases: seq<Lease>, lease: Lease, limit: nat)
    requires limit > 0 && Ordered(leases, Before) && DistinctKeys(leases)
    requires IdSurvives(lease.id) && InInt64(lease.grantedAt)
    ensures Page(leases, StableCursor(lease), limit).leases
         == FirstOf(if Listed(leases, lease) then After(leases, lease) else leases, limit)
  {
    hide StartOf, StableCursor, Listed, Ordered, DistinctKeys, After;
    var n := StartOf(leases, StableCursor(lease));
    StartAfterChange(leases, lease, n);
    if n > 0 {
      AfterIsSuffix(leases, lease, n - 1);
    }
  }

  /** Whatever became of the other leases, the page after a lease's cursor starts right after that lease,
      as long as it is still listed; once it is gone, the client starts over. */
  lemma NextPageAfterChange(input: seq<Lease>, opts: Options, lease: Lease)
    requires Pageable(Filtered(input, opts))
    requires IdSurvives(lease.id) && InInt64(lease.grantedAt)
    ensures var leases := Listing(input, opts);
      Page(leases, StableCursor(lease), Limit(opts)).leases
      == FirstOf(if Listed(Filtered(input, opts), lease) then After(leases, lease) else leases, Limit(opts))
  {
    var leases, filtered := Listing(input, opts), Filtered(input, opts);
    ListingIsOrdered(input, opts);
    PageableInAnyOrder(filtered, leases);
    PageAfterChange(leases, lease, Limit(opts));
    if Listed(filtered, lease) {
      ListedInAnyOrder(filtered, leases, lease);
    } else if Listed(leases, lease) {
      ListedInAnyOrder(leases, filtered, lease);
    }
  }
}
