/**
  The Log object: its key, its cache of the last event, and the file it shares with others.

  The cache is keyed by a stat fingerprint. A fingerprint is the file's size together with
  everything else stat reports (times, device, inode), of which nothing is assumed.
 */
module AuditLog {
  import opened Option
  import opened AuditChain

  datatype FileState = FileState(size: nat, rest: int, cacheable: bool)

  datatype Cache = Empty | Cached(last: Event, state: FileState)

  datatype LogState = LogState(key: Key, cache: Cache)

  function Bytes(lines: seq<Line>): nat
  {
    if lines == [] then 0 else Bytes(lines[..|lines| - 1]) + lines[|lines| - 1].bytes + 1
  }

  lemma {:induction false} BytesGrows(lines: seq<Line>, n: nat)
    requires n <= |lines|
    ensures Bytes(lines[..n]) <= Bytes(lines)
    ensures Bytes(lines[..n]) == Bytes(lines) ==> n == |lines|
  {
    if n < |lines| {
      var shorter := lines[..|lines| - 1];
      assert shorter[..n] == lines[..n];
      BytesGrows(shorter, n);
    } else {
      assert lines[..n] == lines;
    }
  }

  // ----- The two halves of readLastLocked

  datatype Tail = Tail(last: Option<Event>, count: int)

  datatype StatResult = Absent | Hit(tail: Tail) | Miss(state: FileState)

  function StatOutcome(log: LogState, stat: Option<FileState>): StatResult
  {
    match stat
    case None => Absent
    case Some(st) =>
      if st.cacheable && log.cache.Cached? && log.cache.state == st
      then Hit(Tail(Some(log.cache.last), log.cache.last.body.sequence))
      else Miss(st)
  }

  function AfterStat(log: LogState, stat: Option<FileState>): LogState
  {
    if stat.None? then log.(cache := Empty) else log
  }

  predicate Readable(lines: seq<Line>)
  {
    forall i :: 0 <= i < |lines| ==> Fits(lines[i]) && lines[i].Record?
  }

  function TailOf(lines: seq<Line>): Tail
  {
    Tail(LastEvent(lines), |lines|)
  }

  /** What a scan that followed the stat `st` leaves in the cache; an unreadable file leaves it alone. */
  function AfterScan(log: LogState, st: FileState, lines: seq<Line>): LogState
  {
    if !Readable(lines) then log
    else if lines == [] || !st.cacheable then log.(cache := Empty)
    else log.(cache := Cached(lines[|lines| - 1].event, st))
  }

  function AfterAppend(log: LogState, stat: Option<FileState>, event: Event): LogState
  {
    if stat.Some? && stat.value.cacheable then log.(cache := Cached(event, stat.value))
    else log.(cache := Empty)
  }

  // ----- Coherence

  /** The cache remembers an event of this file, with a fingerprint no larger than the file was
      when that event was last. */
  ghost predicate Coherent(log: LogState, lines: seq<Line>)
  {
    log.cache.Cached? ==>
      var n := log.cache.last.body.sequence;
      && 1 <= n <= |lines|
      && lines[n - 1].Record? && lines[n - 1].event == log.cache.last
      && log.cache.state.size <= Bytes(lines[..n])
  }

  /** A fingerprint hit is as good as a scan. */
  lemma HitEqualsScan(log: LogState, st: FileState, lines: seq<Line>)
    requires Coherent(log, lines)
    requires st.size == Bytes(lines)
    requires StatOutcome(log, Some(st)).Hit?
    ensures lines != [] && StatOutcome(log, Some(st)).tail == TailOf(lines)
  {
    var n := log.cache.last.body.sequence;
    BytesGrows(lines, n);
  }

  lemma CoherentGrows(log: LogState, lines: seq<Line>, more: seq<Line>)
    requires Coherent(log, lines)
    ensures Coherent(log, lines + more)
  {
    if log.cache.Cached? {
      var n := log.cache.last.body.sequence;
      assert (lines + more)[..n] == lines[..n];
    }
  }

  /** After an append the cache has the file's last event, under a fingerprint taken when it was last. */
  lemma CachesWhatItWrote(log: LogState, lines: seq<Line>, line: Line, event: Event, stat: Option<FileState>)
    requires line.Record? && line.event == event && event.body.sequence == |lines| + 1
    requires stat.Some? ==> stat.value.size == Bytes(lines + [line])
    ensures Coherent(AfterAppend(log, stat, event), lines + [line])
  {
    var longer := lines + [line];
    assert longer[..|longer|] == longer;
    hide Bytes;
  }

  /** Scanning a file that has grown since the stat still leaves a coherent cache. */
  lemma ScanKeepsCoherence(w: World, key: Key, log: LogState, st: FileState, lines: seq<Line>)
    requires ChainOk(w, key, lines)
    requires Coherent(log, lines)
    requires st.size <= Bytes(lines)
    ensures Coherent(AfterScan(log, st, lines), lines)
  {
    if lines != [] {
      assert LinksAt(w, key, lines, |lines| - 1);
      assert lines[..|lines|] == lines;
    }
  }

  // ----- VerifyDetailed

  datatype Report = Report(
    ok: bool, totalEntries: int, firstCorruptionAt: Option<int>,
    unauthenticatedAfterKeyed: nat, firstUnauthenticatedAt: Option<int>)

  datatype Verdict = Scanned(report: Report) | ScanError

  predicate KeyedAt(lines: seq<Line>, i: int)
  {
    0 <= i < |lines| && lines[i].Record? && lines[i].event.scheme == SCHEME_HMAC
  }

  /** Line i carries no HMAC although an earlier line does. */
  predicate UnauthenticatedAt(lines: seq<Line>, i: int)
  {
    && 0 <= i < |lines|
    && !KeyedAt(lines, i)
    && exists j :: 0 <= j < i && KeyedAt(lines, j)
  }

  ghost function Unauthenticated(lines: seq<Line>, n: nat): set<int>
    requires n <= |lines|
  {
    set i | 0 <= i < n && UnauthenticatedAt(lines, i)
  }

  /** The scan reaches line i: every earlier line fits and links. */
  predicate Reached(w: World, key: Key, lines: seq<Line>, i: int)
  {
    forall j :: 0 <= j < i < |lines| ==> Fits(lines[j]) && LinksAt(w, key, lines, j)
  }

  /** Line i is the first that fits but does not link. */
  predicate CorruptAt(w: World, key: Key, lines: seq<Line>, i: int)
  {
    && 0 <= i < |lines|
    && Reached(w, key, lines, i)
    && Fits(lines[i]) && !LinksAt(w, key, lines, i)
  }

  /** The verifier's running tally over the first n lines. */
  ghost predicate Tallied(lines: seq<Line>, n: nat, seenKeyed: bool, count: nat, first: Option<int>)
    requires n <= |lines|
  {
    && (seenKeyed <==> exists j :: 0 <= j < n && KeyedAt(lines, j))
    && count == |Unauthenticated(lines, n)|
    && (first.None? ==> Unauthenticated(lines, n) == {})
    && (first.Some? ==> IsLeast(first.value - 1, Unauthenticated(lines, n)))
  }

  ghost predicate IsLeast(x: int, s: set<int>)
  {
    x in s && forall y :: y in s ==> x <= y
  }

  lemma TallyStep(lines: seq<Line>, n: nat, seenKeyed: bool, count: nat, first: Option<int>)
    requires n < |lines| && Tallied(lines, n, seenKeyed, count, first)
    ensures KeyedAt(lines, n) ==> Tallied(lines, n + 1, true, count, first)
    ensures !KeyedAt(lines, n) && seenKeyed ==>
      Tallied(lines, n + 1, true, count + 1, if first.None? then Some(n + 1) else first)
    ensures !KeyedAt(lines, n) && !seenKeyed ==> Tallied(lines, n + 1, false, count, first)
  {
    UnauthenticatedGrows(lines, n);
    assert UnauthenticatedAt(lines, n) <==> !KeyedAt(lines, n) && seenKeyed;
    hide Unauthenticated, UnauthenticatedAt;
  }

  lemma UnauthenticatedGrows(lines: seq<Line>, n: nat)
    requires n < |lines|
    ensures var before, after := Unauthenticated(lines, n), Unauthenticated(lines, n + 1);
      && after == (if UnauthenticatedAt(lines, n) then before + {n} else before)
      && n !in before && |after| == |before| + (if UnauthenticatedAt(lines, n) then 1 else 0)
      && forall i :: i in before ==> i < n
  {
    hide UnauthenticatedAt;
  }

  /** The event built from the true tail links to it. */
  lemma NextEventLinks(w: World, verifier: Key, mine: Key, lines: seq<Line>, req: Request)
    requires ChainOk(w, verifier, lines)
    requires mine == [] || mine == verifier
    requires w.recode(req.details) == Some(req.details)
    ensures var event := NextEvent(w, mine, LastEvent(lines), |lines|, req);
      && WrittenLine(w, event, req.bytes) == Record(req.bytes, event)
      && ChainOk(w, verifier, lines + [Record(req.bytes, event)])
  {
    var event := NextEvent(w, mine, LastEvent(lines), |lines|, req);
    if |lines| > 0 {
      assert LinksAt(w, verifier, lines, |lines| - 1);
    }
    ChainExtends(w, verifier, lines, Record(req.bytes, event));
    assert KeyForScheme(event.scheme, verifier) == Some(mine);
  }

  /** Line i is the first the scanner cannot hold. */
  predicate OverlongAt(w: World, key: Key, lines: seq<Line>, i: int)
  {
    && 0 <= i < |lines|
    && Reached(w, key, lines, i)
    && !Fits(lines[i])
  }

  /** The report of a clean chain. */
  ghost predicate CleanReport(lines: seq<Line>, r: Report)
  {
    && r.totalEntries == |lines|
    && r.firstCorruptionAt == None
    && exists seenKeyed :: Tallied(lines, |lines|, seenKeyed, r.unauthenticatedAfterKeyed, r.firstUnauthenticatedAt)
  }

  /** The report of a chain whose first bad line is number i, counting from 0. */
  predicate CorruptReport(lines: seq<Line>, i: int, r: Report)
  {
    && 0 <= i < |lines|
    && r == Report(false, if lines[i].Record? then i + 1 else i, Some(i + 1), 0, None)
  }

  ghost predicate Exact(w: World, key: Key, lines: seq<Line>, v: Verdict)
  {
    match v
    case ScanError => exists i :: OverlongAt(w, key, lines, i)
    case Scanned(r) =>
      if r.ok then AllFit(lines) && ChainOk(w, key, lines) && CleanReport(lines, r)
      else exists i :: CorruptAt(w, key, lines, i) && CorruptReport(lines, i, r)
  }

  /** Only one verdict is exact, up to the choice of a scan error. */
  lemma ExactDecides(w: World, key: Key, lines: seq<Line>, v: Verdict)
    requires Exact(w, key, lines, v)
    ensures v.ScanError? <==> exists i :: OverlongAt(w, key, lines, i)
    ensures v.Scanned? && v.report.ok <==> AllFit(lines) && ChainOk(w, key, lines)
  {
    if i :| OverlongAt(w, key, lines, i) {
      if j :| CorruptAt(w, key, lines, j) {
        assert false;
      }
    }
  }

  /** Append to a file that verifies: it still verifies exactly when the details survive and the line fits the
      scanner, neither of which Append looks at. */
  lemma AppendedFileVerifiesIff(w: World, key: Key, mine: Key, lines: seq<Line>, req: Request, v: Verdict)
    requires Injective(w.digest)
    requires mine == [] || mine == key
    requires AllFit(lines) && ChainOk(w, key, lines)
    requires Exact(w, key, lines + [WrittenLine(w, NextEvent(w, mine, LastEvent(lines), |lines|, req), req.bytes)], v)
    ensures v.Scanned? && v.report.ok
       <==> w.recode(req.details) == Some(req.details) && req.bytes + 1 <= 1048576
  {
    var line := WrittenLine(w, NextEvent(w, mine, LastEvent(lines), |lines|, req), req.bytes);
    var longer := lines + [line];
    AppendVerifiesIffDetailsSurvive(w, key, mine, lines, req);
    ExactDecides(w, key, longer, v);
    assert longer[|lines|] == line && line.bytes == req.bytes;
    assert AllFit(longer) <==> Fits(line) by {
      assert forall i :: 0 <= i < |lines| ==> longer[i] == lines[i];
    }
  }

  /** What an append by a keyed log does for a file: its line carries an HMAC, no line is newly unauthenticated, and
      without the key the file no longer verifies. */
  ghost predicate Authenticated(w: World, before: seq<Line>, after: seq<Line>)
  {
    && KeyedAt(after, |before|) && |after| == |before| + 1
    && Unauthenticated(after, |after|) == Unauthenticated(before, |before|)
    && !ChainOk(w, [], after)
  }

  lemma KeyedAppendAuthenticates(w: World, key: Key, lines: seq<Line>, req: Request)
    requires Injective(w.digest) && key != [] && w.recode(req.details) == Some(req.details)
    ensures var event := NextEvent(w, key, LastEvent(lines), |lines|, req);
      Authenticated(w, lines, lines + [WrittenLine(w, event, req.bytes)])
  {
    var event := NextEvent(w, key, LastEvent(lines), |lines|, req);
    var longer := lines + [WrittenLine(w, event, req.bytes)];
    NextEventIsSigned(w, key, LastEvent(lines), |lines|, req);
    assert longer[|lines|] == Record(req.bytes, event);
    LinkMeans(w, [], longer, |lines|);
    assert !LinksAt(w, [], longer, |lines|);
    forall i | 0 <= i < |lines|
      ensures UnauthenticatedAt(longer, i) <==> UnauthenticatedAt(lines, i)
    {
      assert forall j :: 0 <= j <= i ==> (KeyedAt(longer, j) <==> KeyedAt(lines, j));
    }
    assert !UnauthenticatedAt(longer, |lines|);
  }

  lemma LastHash(w: World, key: Key, lines: seq<Line>)
    requires ChainOk(w, key, lines)
    ensures HashBefore(lines, |lines|) == if LastEvent(lines).Some? then LastEvent(lines).value.hash else ""
  {
  }

  lemma VerifiesMeans(w: World, key: Key, lines: seq<Line>)
    ensures AllFit(lines) && ChainOk(w, key, lines)
       <==> forall i :: 0 <= i < |lines| ==> Follows(w, key, lines, i) && lines[i].bytes + 1 <= 1048576
  {
    forall i | 0 <= i < |lines|
      ensures LinksAt(w, key, lines, i) <==> Follows(w, key, lines, i)
    {
      LinkMeans(w, key, lines, i);
    }
    hide LinksAt, Follows;
    assert forall i :: 0 <= i < |lines| ==> (Fits(lines[i]) <==> lines[i].bytes + 1 <= 1048576);
  }

  /** A fingerprint taken after the append finds the event in the cache. */
  lemma CacheAnswersNext(log: LogState, st: FileState, event: Event)
    requires st.cacheable
    ensures StatOutcome(AfterAppend(log, Some(st), event), Some(st)) == Hit(Tail(Some(event), event.body.sequence))
  {
  }

  /** What precedes the first corruption verifies alone. */
  lemma CorruptionIsFirst(w: World, key: Key, lines: seq<Line>, i: int)
    requires CorruptAt(w, key, lines, i)
    ensures AllFit(lines[..i]) && ChainOk(w, key, lines[..i])
    ensures forall v :: Exact(w, key, lines[..i], v) ==> v.Scanned? && v.report.ok
  {
    LinksAtPrefix(w, key, lines, i);
    forall v | Exact(w, key, lines[..i], v)
      ensures v.Scanned? && v.report.ok
    {
      ExactDecides(w, key, lines[..i], v);
    }
  }

  lemma TallyStarts(lines: seq<Line>)
    ensures Tallied(lines, 0, false, 0, None)
  {
    assert Unauthenticated(lines, 0) == {};
  }

  /** The loop's test on a decoded line is the link. */
  lemma LinkTest(w: World, key: Key, lines: seq<Line>, i: nat)
    requires i < |lines|
    ensures LinksAt(w, key, lines, i) ==> lines[i].Record?
    ensures lines[i].Record? ==>
      var event := lines[i].event;
      var k := KeyForScheme(event.scheme, key);
      LinksAt(w, key, lines, i) <==>
      event.body.sequence == i + 1 && event.body.prevHash == HashBefore(lines, i) && k.Some?
      && event.hash == w.digest(event.body, k.value)
  {
  }

  method VerifyLines(w: World, key: Key, lines: seq<Line>) returns (v: Verdict)
    ensures Exact(w, key, lines, v)
  {
    hide KeyForScheme, Tallied, LinksAt, Fits;
    TallyStarts(lines);
    var previous, sequence, seenKeyed := "", 0, false;
    var unauthenticated: nat, firstUnauth: Option<int> := 0, None;
    while sequence < |lines|
      invariant 0 <= sequence <= |lines|
      invariant forall j :: 0 <= j < sequence ==> Fits(lines[j]) && LinksAt(w, key, lines, j)
      invariant previous == HashBefore(lines, sequence)
      invariant Tallied(lines, sequence, seenKeyed, unauthenticated, firstUnauth)
    {
      var line := lines[sequence];
      LinkTest(w, key, lines, sequence);
      if !Fits(line) {
        assert OverlongAt(w, key, lines, sequence);
        return ScanError;
      }
      if line.Garbage? {
        assert CorruptAt(w, key, lines, sequence);
        return Scanned(Report(false, sequence, Some(sequence + 1), 0, None));
      }
      var event := line.event;
      var k := KeyForScheme(event.scheme, key);
      if event.body.sequence != sequence + 1 || event.body.prevHash != previous || k.None?
         || event.hash != w.digest(event.body, k.value)
      {
        assert CorruptAt(w, key, lines, sequence);
        return Scanned(Report(false, sequence + 1, Some(sequence + 1), 0, None));
      }
      TallyStep(lines, sequence, seenKeyed, unauthenticated, firstUnauth);
      if event.scheme == SCHEME_HMAC {
        seenKeyed := true;
      } else if seenKeyed {
        unauthenticated := unauthenticated + 1;
        if firstUnauth.None? {
          firstUnauth := Some(sequence + 1);
        }
      }
      previous := event.hash;
      sequence := sequence + 1;
    }
    return Scanned(Report(true, sequence, None, unauthenticated, firstUnauth));
  }

  class AuditFile {
    var present: bool
    var lines: seq<Line>

    ghost predicate Valid()
      reads this
    {
      !present ==> lines == []
    }

    /** os.Stat: no answer for a missing file; else the size is the file's, and the rest of the fingerprint
        is whatever the system says. */
    method Stat(rest: int, cacheable: bool) returns (stat: Option<FileState>)
      ensures stat.None? <==> !present
      ensures stat.Some? ==> stat.value.size == Bytes(lines)
      ensures stat.Some? ==> stat.value.rest == rest && stat.value.cacheable == cacheable
    {
      stat := if present then Some(FileState(Bytes(lines), rest, cacheable)) else None;
    }

    method Create()
      requires Valid()
      modifies this
      ensures Valid() && present && lines == old(lines)
    {
      present := true;
    }

    method Write(line: Line)
      requires present
      modifies this
      ensures Valid() && present && lines == old(lines) + [line]
    {
      lines := lines + [line];
    }
  }

  class Log {
    var key: Key
    var cachedLast: Option<Event>
    var cachedState: FileState
    var cacheValid: bool

    function View(): LogState
      reads this
    {
      LogState(key, if cacheValid && cachedLast.Some? then Cached(cachedLast.value, cachedState) else Empty)
    }

    constructor ()
      ensures View() == LogState([], Empty)
    {
      key := [];
      cachedLast := None;
      cachedState := FileState(0, 0, false);
      cacheValid := false;
    }

    method WithKey(k: Key)
      modifies this
      ensures View() == old(View()).(key := k)
    {
      key := k;
    }

    method ClearCache()
      modifies this
      ensures View() == old(View()).(cache := Empty)
    {
      cachedLast := None;
      cachedState := FileState(0, 0, false);
      cacheValid := false;
    }

    method CacheEvent(stat: Option<FileState>, event: Event)
      modifies this
      ensures View() == AfterAppend(old(View()), stat, event)
    {
      if stat.None? {
        ClearCache();
        return;
      }
      if !stat.value.cacheable {
        ClearCache();
        return;
      }
      cachedLast := Some(event);
      cachedState := stat.value;
      cacheValid := true;
    }

    /** The part of readLastLocked before the file is opened. */
    method StatTail(stat: Option<FileState>) returns (r: StatResult)
      modifies this
      ensures r == StatOutcome(old(View()), stat) && View() == AfterStat(old(View()), stat)
    {
      if stat.None? {
        ClearCache();
        return Absent;
      }
      if stat.value.cacheable && cacheValid && cachedLast.Some? && cachedState == stat.value {
        return Hit(Tail(cachedLast, cachedLast.value.body.sequence));
      }
      return Miss(stat.value);
    }

    /** The scanning part. None is a scan or decode error. */
    method ScanTail(st: FileState, lines: seq<Line>) returns (r: Option<Tail>)
      modifies this
      ensures r == (if Readable(lines) then Some(TailOf(lines)) else None)
      ensures View() == AfterScan(old(View()), st, lines)
    {
      var last: Option<Event> := None;
      var count := 0;
      while count < |lines|
        invariant 0 <= count <= |lines|
        invariant Readable(lines[..count])
        invariant last == LastEvent(lines[..count])
        invariant View() == old(View())
      {
        var line := lines[count];
        if !Fits(line) || line.Garbage? {
          return None;
        }
        last := Some(line.event);
        count := count + 1;
      }
      assert lines[..count] == lines;
      if last.None? {
        ClearCache();
        return Some(Tail(None, 0));
      }
      if !st.cacheable {
        ClearCache();
        return Some(Tail(last, count));
      }
      cachedLast := last;
      cachedState := st;
      cacheValid := true;
      r := Some(Tail(last, count));
    }

    /** readLastLocked with no writer between the stat and the scan: the cache never changes the answer. */
    method ReadLast(file: AuditFile, rest: int, cacheable: bool, ghost w: World, ghost verifier: Key)
      returns (r: Option<Tail>)
      requires file.Valid()
      requires Coherent(View(), file.lines) && ChainOk(w, verifier, file.lines)
      modifies this
      ensures r.Some? ==> r.value == TailOf(file.lines)
      ensures r.None? ==> !Readable(file.lines)
      ensures View().key == old(View().key) && Coherent(View(), file.lines)
    {
      var stat := file.Stat(rest, cacheable);
      var found := StatTail(stat);
      match found {
        case Absent =>
          r := Some(Tail(None, 0));
        case Hit(tail) =>
          HitEqualsScan(old(View()), stat.value, file.lines);
          r := Some(tail);
        case Miss(st) =>
          ScanKeepsCoherence(w, verifier, View(), st, file.lines);
          r := ScanTail(st, file.lines);
      }
    }

    /** Append, whose flock keeps other writers out. The file grows by the event that a log without
        a cache would have built from the file's own last line. */
    method Append(w: World, file: AuditFile, req: Request, rest: int, restAfter: int, cacheable: bool,
                  writeFails: bool, ghost verifier: Key)
      returns (r: Option<Event>)
      requires file.Valid()
      requires Coherent(View(), file.lines) && ChainOk(w, verifier, file.lines)
      requires key == [] || key == verifier
      modifies this, file
      ensures file.Valid() && View().key == old(View().key)
      ensures r.None? ==> file.lines == old(file.lines) && Coherent(View(), file.lines)
      ensures r.None? ==> writeFails || !Readable(file.lines)
      ensures r.Some? ==>
        && r.value == NextEvent(w, old(key), LastEvent(old(file.lines)), |old(file.lines)|, req)
        && file.lines == old(file.lines) + [WrittenLine(w, r.value, req.bytes)]
      ensures r.Some? ==>
        && Signed(w, old(key), req, r.value)
        && r.value.body.sequence == |old(file.lines)| + 1
        && r.value.body.prevHash == HashBefore(old(file.lines), |old(file.lines)|)
      ensures r.Some? && w.recode(req.details) == Some(req.details) ==>
        && Coherent(View(), file.lines) && ChainOk(w, verifier, file.lines)
        && file.lines == old(file.lines) + [Record(req.bytes, r.value)]
      ensures r.Some? && w.recode(req.details) == Some(req.details) && Injective(w.digest) && old(key) != [] ==>
        Authenticated(w, old(file.lines), file.lines)
    {
      hide Bytes, Coherent, ChainOk, Readable, Links, LinksAt, StatOutcome, KeyForScheme, LastEvent;
      var tail := ReadLast(file, rest, cacheable, w, verifier);
      if tail.None? {
        return None;
      }
      var event := NextEvent(w, key, tail.value.last, tail.value.count, req);
      NextEventIsSigned(w, key, tail.value.last, tail.value.count, req);
      LastHash(w, verifier, file.lines);
      if !file.present {
        file.Create();
      }
      if writeFails {
        return None;
      }
      var line := WrittenLine(w, event, req.bytes);
      file.Write(line);
      var stat := file.Stat(restAfter, cacheable);
      CacheEvent(stat, event);
      r := Some(event);
      if w.recode(req.details) == Some(req.details) {
        NextEventLinks(w, verifier, key, old(file.lines), req);
        CachesWhatItWrote(old(View()), old(file.lines), line, event, stat);
        if Injective(w.digest) && key != [] {
          KeyedAppendAuthenticates(w, key, old(file.lines), req);
        }
      }
    }

    method Checkpoint(file: AuditFile, rest: int, cacheable: bool, ghost w: World, ghost verifier: Key)
      returns (r: Option<(int, string)>)
      requires file.Valid()
      requires Coherent(View(), file.lines) && ChainOk(w, verifier, file.lines)
      modifies this
      ensures r.Some? ==> r.value == (|file.lines|, HashBefore(file.lines, |file.lines|))
      ensures r.None? ==> !Readable(file.lines)
      ensures View().key == old(View().key) && Coherent(View(), file.lines)
    {
      var tail := ReadLast(file, rest, cacheable, w, verifier);
      if tail.None? {
        return None;
      }
      if |file.lines| > 0 {
        assert LinksAt(w, verifier, file.lines, |file.lines| - 1);
      }
      if tail.value.last.None? {
        return Some((0, ""));
      }
      r := Some((tail.value.count, tail.value.last.value.hash));
    }

    /** Exact on every file: a scan error, a first corruption, or a clean chain with its
        unauthenticated lines counted. */
    method VerifyDetailed(w: World, file: AuditFile) returns (v: Verdict)
      requires file.Valid()
      ensures Exact(w, key, file.lines, v)
      ensures v.ScanError? <==> exists i :: OverlongAt(w, key, file.lines, i)
      ensures v.Scanned? && v.report.ok <==> AllFit(file.lines) && ChainOk(w, key, file.lines)
      ensures v.Scanned? && v.report.ok <==>
        forall i :: 0 <= i < |file.lines| ==> Follows(w, key, file.lines, i) && file.lines[i].bytes + 1 <= 1048576
    {
      if file.present {
        v := VerifyLines(w, key, file.lines);
      } else {
        v := Scanned(Report(true, 0, None, 0, None));
        assert Tallied(file.lines, 0, false, 0, None);
      }
      ExactDecides(w, key, file.lines, v);
      VerifiesMeans(w, key, file.lines);
    }
  }
}
