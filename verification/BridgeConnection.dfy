/**
  One connection of the Pi extension's JSON-RPC bridge: line framing over arbitrary chunks,
  the map of pending calls, and failure.

  A connection also keeps two records that the program does not: the history of what it wrote,
  acted on and broke with, and the settlements of its promises, in order.
 */
module BridgeConnection {
  import opened Option
  import opened Text

  const MAX_MESSAGE_BYTES: nat := 8 * 1024 * 1024

  /** What a connection can fail with; each stands for one fixed message. */
  datatype Cause =
    | TooLong        // a line or an unterminated tail over the limit
    | BadJson
    | NotStarted     // the child's error event
    | Lost           // exit, end, or an error on a stream
    | TimedOut       // no answer to `initialize`
    | Cancelled      // an abort signal
    | ShutDown       // close()

  // ----- Foreign code: JSON.parse and String.prototype.trim

  // A JavaScript Map finds a number only under the same number.
  datatype JsonId = Num(n: int) | OtherId

  datatype Reply = ErrorReply(error: string) | ResultReply(result: string)

  datatype Parsed =
    | Invalid                            // JSON.parse throws
    | NullValue                          // null has no property `id`: reading it throws
    | Message(id: JsonId, reply: Reply)

  datatype Foreign = Foreign(parse: string -> Parsed, blank: string -> bool)

  // ----- Lengths in UTF-8 bytes

  function Width(c: char): nat
  {
    if c < '\U{80}' then 1 else if c < '\U{800}' then 2 else if c < '\U{10000}' then 3 else 4
  }

  function ByteLength(s: string): nat
  {
    if s == "" then 0 else Width(s[0]) + ByteLength(s[1..])
  }

  lemma {:induction false} ByteLengthAdds(a: string, b: string)
    ensures ByteLength(a + b) == ByteLength(a) + ByteLength(b)
  {
    if a == "" {
      assert a + b == b;
    } else {
      assert (a + b)[1..] == a[1..] + b;
      ByteLengthAdds(a[1..], b);
    }
  }

  // ----- The state of a connection

  datatype Event = Wrote(id: int) | Received(msgId: JsonId, reply: Reply) | Broke(cause: Cause)

  datatype Outcome = Replied(reply: Reply) | Rejected(cause: Cause)

  datatype Settlement = Settlement(id: int, outcome: Outcome)

  datatype Conn = Conn(
    pending: set<int>, listeners: set<int>, nextId: int, buffer: string, closed: bool, refd: bool,
    history: seq<Event>, settlements: seq<Settlement>)

  const FRESH := Conn({}, {}, 0, "", false, true, [], [])

  /** Rejections of the pending calls up to id n, in the order of the Map, which is the order of ids. */
  function Rejections(pending: set<int>, n: int, cause: Cause): seq<Settlement>
    decreases n
  {
    if n <= 0 then []
    else Rejections(pending, n - 1, cause) + (if n in pending then [Settlement(n, Rejected(cause))] else [])
  }

  function Fail(c: Conn, cause: Cause): Conn
  {
    if c.closed then c
    else c.(closed := true, pending := {}, listeners := c.listeners - c.pending,
            history := c.history + [Broke(cause)],
            settlements := c.settlements + Rejections(c.pending, c.nextId, cause))
  }

  function Request(c: Conn, aborted: bool, listens: bool): Conn
  {
    if aborted || c.closed then c
    else
      var id := c.nextId + 1;
      c.(nextId := id, refd := true, pending := c.pending + {id},
         listeners := if listens then c.listeners + {id} else c.listeners,
         history := c.history + [Wrote(id)])
  }

  /** A signal fires: only a listener that is still registered hears it. */
  function Abort(c: Conn, id: int, cause: Cause): Conn
  {
    if id in c.listeners then Fail(c.(listeners := c.listeners - {id}), cause) else c
  }

  function Dispatch(c: Conn, id: JsonId, reply: Reply): Conn
  {
    var heard := if c.closed then c else c.(history := c.history + [Received(id, reply)]);
    if id.Num? && id.n in c.pending then
      var rest := c.pending - {id.n};
      heard.(pending := rest, listeners := c.listeners - {id.n}, refd := c.refd && rest != {},
             settlements := c.settlements + [Settlement(id.n, Replied(reply))])
    else heard
  }

  datatype End = Drained | Stopped | Threw

  /** What the data handler does with one line: go on, stop, or throw. */
  function TakeLine(f: Foreign, c: Conn, line: string): (Conn, End)
  {
    if ByteLength(line) > MAX_MESSAGE_BYTES then (Fail(c, TooLong), Stopped)
    else if f.blank(line) then (c, Drained)
    else
      match f.parse(line)
      case Invalid => (Fail(c, BadJson), Stopped)
      case NullValue => (c, Threw)
      case Message(id, reply) => (Dispatch(c, id, reply), Drained)
  }

  /** The loop of the data handler. */
  function Pump(f: Foreign, c: Conn): (Conn, End)
    decreases |c.buffer|
  {
    var end := IndexOf(c.buffer, '\n');
    if end == |c.buffer| then (c, Drained)
    else
      var (d, e) := TakeLine(f, c.(buffer := c.buffer[end + 1..]), c.buffer[..end]);
      if e.Drained? then Pump(f, d) else (d, e)
  }

  /** A data event. The flag says that the handler threw. */
  function Data(f: Foreign, c: Conn, chunk: string): (Conn, bool)
  {
    var (d, end) := Pump(f, c.(buffer := c.buffer + chunk));
    if end.Drained? && ByteLength(d.buffer) > MAX_MESSAGE_BYTES then (Fail(d, TooLong), false)
    else (d, end.Threw?)
  }

  // ----- What every connection keeps

  predicate HasWritten(h: seq<Event>, id: int)
  {
    Wrote(id) in h
  }

  /** The reference: a written request is settled by the first later reply that names it, or by the break. */
  function Fate(h: seq<Event>, id: int): Option<Outcome>
  {
    if h == [] then None
    else
      var before, last := h[..|h| - 1], h[|h| - 1];
      if Fate(before, id).Some? then Fate(before, id)
      else if !HasWritten(before, id) then None
      else
        match last
        case Wrote(_) => None
        case Received(msgId, reply) => if msgId == Num(id) then Some(Replied(reply)) else None
        case Broke(cause) => Some(Rejected(cause))
  }

  /** The ids of the requests written, in order. */
  function WrittenIds(h: seq<Event>): seq<int>
  {
    if h == [] then []
    else WrittenIds(h[..|h| - 1]) + (if h[|h| - 1].Wrote? then [h[|h| - 1].id] else [])
  }

  ghost predicate HasBroken(h: seq<Event>)
  {
    exists m :: Broke(m) in h
  }

  predicate SettledIn(settlements: seq<Settlement>, id: int)
  {
    exists i :: 0 <= i < |settlements| && settlements[i].id == id
  }

  predicate OncePerId(settlements: seq<Settlement>)
  {
    forall i, j :: 0 <= i < j < |settlements| ==> settlements[i].id != settlements[j].id
  }

  ghost predicate ConnOk(c: Conn)
  {
    && IdsOk(c.nextId, c.history)
    && CallsOk(c.nextId, c.pending, c.settlements)
    && FatesOk(c.history, c.settlements)
    && c.listeners <= c.pending
    && (c.closed <==> HasBroken(c.history))
    && (c.closed ==> c.pending == {})
    && (!c.closed && c.nextId > 0 ==> (c.refd <==> c.pending != {}))
  }

  /** The requests written are 1, 2, and so on, each once. */
  ghost predicate IdsOk(nextId: int, h: seq<Event>)
  {
    && 0 <= nextId && WrittenIds(h) == seq(nextId, i => i + 1)
    && forall id :: HasWritten(h, id) <==> 1 <= id <= nextId
  }

  /** Every call is pending or settled, not both, and settled at most once. */
  ghost predicate CallsOk(nextId: int, pending: set<int>, settlements: seq<Settlement>)
  {
    && OncePerId(settlements)
    && (forall id :: id in pending ==> 1 <= id <= nextId)
    && (forall id :: 1 <= id <= nextId ==> (id in pending <==> !SettledIn(settlements, id)))
    && (forall id :: SettledIn(settlements, id) ==> 1 <= id <= nextId)
  }

  ghost predicate FatesOk(h: seq<Event>, settlements: seq<Settlement>)
  {
    forall id, o :: Settlement(id, o) in settlements <==> Fate(h, id) == Some(o)
  }

  lemma FreshOk()
    ensures ConnOk(FRESH)
  {
  }

  lemma RequestOk(c: Conn, aborted: bool, listens: bool)
    requires ConnOk(c)
    ensures ConnOk(Request(c, aborted, listens))
  {
    if !aborted && !c.closed {
      var t := Request(c, aborted, listens);
      WroteKeepsIds(c.nextId, c.history);
      CallingKeepsCalls(c.nextId, c.pending, c.settlements);
      WroteKeepsFates(c.nextId, c.history, c.settlements);
      hide IdsOk, CallsOk, FatesOk, HasBroken;
      StillOpen(c.history, Wrote(t.nextId));
    }
  }

  lemma WroteKeepsIds(n: int, h: seq<Event>)
    requires IdsOk(n, h)
    ensures IdsOk(n + 1, h + [Wrote(n + 1)])
  {
    var longer := h + [Wrote(n + 1)];
    assert longer[..|longer| - 1] == h;
    assert seq(n + 1, i => i + 1) == seq(n, i => i + 1) + [n + 1];
    assert forall id :: HasWritten(longer, id) <==> HasWritten(h, id) || id == n + 1;
  }

  lemma CallingKeepsCalls(n: int, pending: set<int>, settlements: seq<Settlement>)
    requires 0 <= n && CallsOk(n, pending, settlements)
    ensures CallsOk(n + 1, pending + {n + 1}, settlements)
  {
    assert !SettledIn(settlements, n + 1);
  }

  lemma WroteKeepsFates(n: int, h: seq<Event>, settlements: seq<Settlement>)
    requires FatesOk(h, settlements)
    ensures FatesOk(h + [Wrote(n + 1)], settlements)
  {
    var longer := h + [Wrote(n + 1)];
    assert longer[..|longer| - 1] == h;
    assert forall id :: Fate(longer, id) == Fate(h, id);
  }

  lemma StillOpen(h: seq<Event>, e: Event)
    requires !e.Broke?
    ensures HasBroken(h + [e]) <==> HasBroken(h)
  {
    forall m
      ensures Broke(m) in h + [e] <==> Broke(m) in h
    {
    }
  }

  /** An event that is no request leaves the ids alone. */
  lemma OthersKeepIds(n: int, h: seq<Event>, e: Event)
    requires IdsOk(n, h) && !e.Wrote?
    ensures IdsOk(n, h + [e])
  {
    var longer := h + [e];
    assert longer[..|longer| - 1] == h;
    assert forall id :: HasWritten(longer, id) <==> HasWritten(h, id);
  }

  lemma SettledAppend(a: seq<Settlement>, b: seq<Settlement>, id: int)
    ensures SettledIn(a + b, id) <==> SettledIn(a, id) || SettledIn(b, id)
  {
    if SettledIn(a, id) {
      var i :| 0 <= i < |a| && a[i].id == id;
      assert (a + b)[i].id == id;
    }
    if SettledIn(b, id) {
      var i :| 0 <= i < |b| && b[i].id == id;
      assert (a + b)[|a| + i].id == id;
    }
  }

  lemma {:induction false} RejectionsAre(pending: set<int>, n: int, cause: Cause)
    requires 0 <= n
    ensures var r := Rejections(pending, n, cause);
      && OncePerId(r)
      && (forall id :: SettledIn(r, id) <==> id in pending && 1 <= id <= n)
      && (forall id, o :: Settlement(id, o) in r <==> id in pending && 1 <= id <= n && o == Rejected(cause))
  {
    if n > 0 {
      RejectionsAre(pending, n - 1, cause);
      var before := Rejections(pending, n - 1, cause);
      var last := if n in pending then [Settlement(n, Rejected(cause))] else [];
      forall id
        ensures SettledIn(before + last, id) <==> SettledIn(before, id) || (id == n && n in pending)
      {
        SettledAppend(before, last, id);
        if n in pending {
          assert last[0].id == n;
        }
      }
      forall i | 0 <= i < |before|
        ensures before[i].id != n
      {
        assert SettledIn(before, before[i].id);
      }
    }
  }

  lemma FailOk(c: Conn, cause: Cause)
    requires ConnOk(c)
    ensures ConnOk(Fail(c, cause))
  {
    if !c.closed {
      var t := Fail(c, cause);
      OthersKeepIds(c.nextId, c.history, Broke(cause));
      RejectionsAre(c.pending, c.nextId, cause);
      RejectingKeepsCalls(c.nextId, c.pending, c.settlements, Rejections(c.pending, c.nextId, cause));
      assert FatesOk(t.history, t.settlements) by {
        BrokenFates(c, cause);
      }
      assert Broke(cause) in t.history;
    }
  }

  /** From an open connection to one that has failed with the cause: every call that was pending is rejected with
      it. A closed connection is left alone. */
  ghost predicate BreaksWith(a: Conn, b: Conn, cause: Cause)
  {
    if a.closed then b == a
    else
      && b.closed && b.pending == {} && b.nextId == a.nextId
      && b.history == a.history + [Broke(cause)] && a.settlements <= b.settlements
      && forall id :: id in a.pending ==> Settlement(id, Rejected(cause)) in b.settlements
  }

  lemma FailBreaks(c: Conn, cause: Cause)
    requires forall id :: id in c.pending ==> 1 <= id <= c.nextId
    ensures BreaksWith(c, Fail(c, cause), cause)
  {
    if !c.closed && 0 <= c.nextId {
      RejectionsAre(c.pending, c.nextId, cause);
    }
  }

  /** Settling just the pending calls leaves none pending. */
  lemma RejectingKeepsCalls(n: int, pending: set<int>, settlements: seq<Settlement>, more: seq<Settlement>)
    requires CallsOk(n, pending, settlements)
    requires OncePerId(more) && forall id :: SettledIn(more, id) <==> id in pending && 1 <= id <= n
    ensures CallsOk(n, {}, settlements + more)
  {
    var all := settlements + more;
    forall id
      ensures SettledIn(all, id) <==> SettledIn(settlements, id) || SettledIn(more, id)
    {
      SettledAppend(settlements, more, id);
    }
    forall i, j | 0 <= i < j < |all|
      ensures all[i].id != all[j].id
    {
      if i < |settlements| <= j {
        assert SettledIn(settlements, settlements[i].id);
        assert SettledIn(more, more[j - |settlements|].id);
      }
    }
  }

  lemma BrokenFates(c: Conn, cause: Cause)
    requires ConnOk(c) && !c.closed
    ensures FatesOk(c.history + [Broke(cause)], c.settlements + Rejections(c.pending, c.nextId, cause))
  {
    var h, more := c.history + [Broke(cause)], Rejections(c.pending, c.nextId, cause);
    RejectionsAre(c.pending, c.nextId, cause);
    assert h[..|h| - 1] == c.history;
    forall id, o
      ensures Settlement(id, o) in c.settlements + more <==> Fate(h, id) == Some(o)
    {
      assert Settlement(id, o) in c.settlements <==> Fate(c.history, id) == Some(o);
      FateIsSettled(c, id);
      assert Settlement(id, o) in more <==> id in c.pending && 1 <= id <= c.nextId && o == Rejected(cause);
    }
  }

  /** Having a fate is having settled. */
  lemma FateIsSettled(c: Conn, id: int)
    requires FatesOk(c.history, c.settlements)
    ensures Fate(c.history, id).Some? <==> SettledIn(c.settlements, id)
  {
    if Fate(c.history, id).Some? {
      var s := Settlement(id, Fate(c.history, id).value);
      assert s in c.settlements;
    }
    if SettledIn(c.settlements, id) {
      var i :| 0 <= i < |c.settlements| && c.settlements[i].id == id;
      assert Settlement(id, c.settlements[i].outcome) in c.settlements;
    }
  }

  lemma ReceivedFate(h: seq<Event>, msgId: JsonId, reply: Reply, n: int)
    ensures Fate(h + [Received(msgId, reply)], n)
         == if Fate(h, n).None? && HasWritten(h, n) && msgId == Num(n) then Some(Replied(reply)) else Fate(h, n)
    ensures HasWritten(h + [Received(msgId, reply)], n) <==> HasWritten(h, n)
  {
    var longer := h + [Received(msgId, reply)];
    assert longer[..|longer| - 1] == h;
  }

  /** A reply that finds its call pending. */
  lemma ReplyOk(c: Conn, n: int, reply: Reply)
    requires ConnOk(c) && n in c.pending
    ensures ConnOk(Dispatch(c, Num(n), reply))
  {
    var t := Dispatch(c, Num(n), reply);
    OthersKeepIds(c.nextId, c.history, Received(Num(n), reply));
    StillOpen(c.history, Received(Num(n), reply));
    SettlingKeepsCalls(c.nextId, c.pending, c.settlements, Settlement(n, Replied(reply)));
    assert FatesOk(t.history, t.settlements) by {
      forall m, o
        ensures Settlement(m, o) in t.settlements <==> Fate(t.history, m) == Some(o)
      {
        ReceivedFate(c.history, Num(n), reply, m);
        FateIsSettled(c, m);
      }
    }
  }

  lemma SettlingKeepsCalls(n: int, pending: set<int>, settlements: seq<Settlement>, one: Settlement)
    requires CallsOk(n, pending, settlements) && one.id in pending
    ensures CallsOk(n, pending - {one.id}, settlements + [one])
  {
    assert [one][0] == one;
    forall m
      ensures SettledIn(settlements + [one], m) <==> SettledIn(settlements, m) || m == one.id
    {
      SettledAppend(settlements, [one], m);
    }
    forall i | 0 <= i < |settlements|
      ensures settlements[i].id != one.id
    {
      assert SettledIn(settlements, settlements[i].id);
    }
  }

  /** A message that names no pending call. */
  lemma StrayOk(c: Conn, id: JsonId, reply: Reply)
    requires ConnOk(c) && !c.closed
    requires !(id.Num? && id.n in c.pending)
    ensures ConnOk(Dispatch(c, id, reply))
  {
    var t := Dispatch(c, id, reply);
    OthersKeepIds(c.nextId, c.history, Received(id, reply));
    StillOpen(c.history, Received(id, reply));
    assert FatesOk(t.history, t.settlements) by {
      forall m, o
        ensures Settlement(m, o) in t.settlements <==> Fate(t.history, m) == Some(o)
      {
        ReceivedFate(c.history, id, reply, m);
        FateIsSettled(c, m);
      }
    }
  }

  lemma DispatchOk(c: Conn, id: JsonId, reply: Reply)
    requires ConnOk(c)
    ensures ConnOk(Dispatch(c, id, reply))
  {
    if id.Num? && id.n in c.pending {
      ReplyOk(c, id.n, reply);
    } else if !c.closed {
      StrayOk(c, id, reply);
    }
  }

  lemma TakeLineOk(f: Foreign, c: Conn, line: string)
    requires ConnOk(c)
    ensures ConnOk(TakeLine(f, c, line).0)
  {
    var d := TakeLine(f, c, line).0;
    if ByteLength(line) > MAX_MESSAGE_BYTES {
      FailOk(c, TooLong);
    } else if f.blank(line) {
      assert d == c;
    } else {
      match f.parse(line)
      case Invalid => FailOk(c, BadJson);
      case NullValue => assert d == c;
      case Message(id, reply) => DispatchOk(c, id, reply);
    }
  }

  lemma {:induction false} PumpOk(f: Foreign, c: Conn)
    requires ConnOk(c)
    ensures ConnOk(Pump(f, c).0)
    decreases |c.buffer|
  {
    var end := IndexOf(c.buffer, '\n');
    if end < |c.buffer| {
      var next, line := c.(buffer := c.buffer[end + 1..]), c.buffer[..end];
      TakeLineOk(f, next, line);
      TakeLineIgnoresBuffer(f, next, line, "");
      PumpOk(f, TakeLine(f, next, line).0);
    }
  }

  lemma DataOk(f: Foreign, c: Conn, chunk: string)
    requires ConnOk(c)
    ensures ConnOk(Data(f, c, chunk).0)
  {
    PumpOk(f, c.(buffer := c.buffer + chunk));
    FailOk(Pump(f, c.(buffer := c.buffer + chunk)).0, TooLong);
  }

  lemma AbortOk(c: Conn, id: int, cause: Cause)
    requires ConnOk(c)
    ensures ConnOk(Abort(c, id, cause))
  {
    if id in c.listeners {
      FailOk(c.(listeners := c.listeners - {id}), cause);
    }
  }

  /** Aborting a call whose promise has settled changes nothing. */
  lemma AbortAfterSettlement(c: Conn, id: int, cause: Cause)
    requires ConnOk(c) && SettledIn(c.settlements, id)
    ensures Abort(c, id, cause) == c
  {
  }

  // ----- Framing does not depend on the chunks

  /** Equal but for the unread text. */
  predicate SameButBuffer(a: Conn, b: Conn)
  {
    a == b.(buffer := a.buffer)
  }

  /** Only a stop closes the connection. */
  lemma TakeLineCloses(f: Foreign, c: Conn, line: string)
    ensures var (d, end) := TakeLine(f, c, line);
      && d.buffer == c.buffer
      && ((c.closed ==> c.pending == {}) && d.closed ==> d.pending == {})
      && (end == Stopped ==> d.closed) && (end != Stopped ==> d.closed == c.closed)
  {
  }

  lemma TakeLineIgnoresBuffer(f: Foreign, c: Conn, line: string, b: string)
    ensures TakeLine(f, c, line).0.buffer == c.buffer
    ensures TakeLine(f, c.(buffer := b), line)
         == (TakeLine(f, c, line).0.(buffer := b), TakeLine(f, c, line).1)
  {
  }

  /** One turn of the loop. */
  lemma PumpLine(f: Foreign, c: Conn, line: string, rest: string)
    requires '\n' !in line && c.buffer == line + ("\n" + rest)
    ensures var (d, e) := TakeLine(f, c.(buffer := rest), line);
      Pump(f, c) == if e.Drained? then Pump(f, d) else (d, e)
  {
    hide TakeLine;
    IndexOfFirst(line, "\n" + rest, '\n');
    assert c.buffer[..|line|] == line && c.buffer[|line| + 1..] == rest;
  }

  lemma QuietStays(f: Foreign, c: Conn)
    requires '\n' !in c.buffer
    ensures Pump(f, c) == (c, Drained)
  {
    assert IndexOf(c.buffer, '\n') == |c.buffer|;
  }

  lemma FirstLine(s: string) returns (line: string, rest: string)
    requires '\n' in s
    ensures '\n' !in line && s == line + ("\n" + rest)
  {
    var end := IndexOf(s, '\n');
    assert s[..|s|] == s;
    line, rest := s[..end], s[end + 1..];
  }

  /** Text that arrives later does not change what is done with complete lines. */
  lemma {:induction false} PumpAppend(f: Foreign, c: Conn, more: string)
    ensures var (d, end) := Pump(f, c);
      var (e, end') := Pump(f, c.(buffer := c.buffer + more));
      if end.Drained?
      then (e, end') == Pump(f, d.(buffer := d.buffer + more)) && '\n' !in d.buffer
      else end' == end && e == d.(buffer := d.buffer + more)
    decreases |c.buffer|
  {
    hide TakeLine, Pump;
    if '\n' in c.buffer {
      var line, rest := FirstLine(c.buffer);
      var next := c.(buffer := rest);
      PumpLine(f, c, line, rest);
      assert c.buffer + more == line + ("\n" + (rest + more));
      PumpLine(f, c.(buffer := c.buffer + more), line, rest + more);
      TakeLineIgnoresBuffer(f, next, line, rest + more);
      PumpAppend(f, TakeLine(f, next, line).0, more);
    } else {
      QuietStays(f, c);
    }
  }

  /** An unterminated tail over the limit fails the connection now or when its line ends. */
  lemma LongTailFails(f: Foreign, c: Conn, more: string)
    requires '\n' !in c.buffer && ByteLength(c.buffer) > MAX_MESSAGE_BYTES && !c.closed
    ensures !Data(f, c, more).1
    ensures SameButBuffer(Data(f, c, more).0, Fail(c, TooLong))
  {
    var whole := c.buffer + more;
    var end := IndexOf(whole, '\n');
    if end < |c.buffer| {
      assert false;
    }
    assert whole[..end] == c.buffer + more[..end - |c.buffer|];
    ByteLengthAdds(c.buffer, more[..end - |c.buffer|]);
    assert whole[..|whole|] == whole;
  }

  /** Two data events do what one with both texts does. */
  lemma DataSplits(f: Foreign, c: Conn, a: string, b: string)
    requires !c.closed
    ensures var (d, threw) := Data(f, c, a);
      var (e, threw') := Data(f, c, a + b);
      if threw || d.closed then threw' == threw && SameButBuffer(e, d)
      else (e, threw') == Data(f, d, b)
  {
    var start := c.(buffer := c.buffer + a);
    assert c.buffer + (a + b) == start.buffer + b;
    PumpAppend(f, start, b);
    var (p, end) := Pump(f, start);
    if end.Drained? {
      PumpKeepsOpen(f, start);
      if ByteLength(p.buffer) > MAX_MESSAGE_BYTES {
        LongTailFails(f, p, b);
      }
    } else if end.Stopped? {
      PumpStopsClosed(f, start);
    }
  }

  lemma {:induction false} PumpKeepsOpen(f: Foreign, c: Conn)
    ensures Pump(f, c).1 != Stopped ==> Pump(f, c).0.closed == c.closed
    decreases |c.buffer|
  {
    hide TakeLine;
    var end := IndexOf(c.buffer, '\n');
    if end < |c.buffer| {
      TakeLineCloses(f, c.(buffer := c.buffer[end + 1..]), c.buffer[..end]);
      PumpKeepsOpen(f, TakeLine(f, c.(buffer := c.buffer[end + 1..]), c.buffer[..end]).0);
    }
  }

  lemma {:induction false} PumpStopsClosed(f: Foreign, c: Conn)
    ensures Pump(f, c).1 == Stopped ==> Pump(f, c).0.closed
    decreases |c.buffer|
  {
    hide TakeLine;
    var end := IndexOf(c.buffer, '\n');
    if end < |c.buffer| {
      TakeLineCloses(f, c.(buffer := c.buffer[end + 1..]), c.buffer[..end]);
      PumpStopsClosed(f, TakeLine(f, c.(buffer := c.buffer[end + 1..]), c.buffer[..end]).0);
    }
  }

  function Concat(chunks: seq<string>): string
  {
    if chunks == [] then "" else chunks[0] + Concat(chunks[1..])
  }

  /** Data events one after another. A handler that throws loses the rest of its own event, and the next event
      finds the unread text; one that fails the connection leaves it closed. */
  function FeedAll(f: Foreign, c: Conn, chunks: seq<string>): Conn
    decreases |chunks|
  {
    if chunks == [] then c else FeedAll(f, Data(f, c, chunks[0]).0, chunks[1..])
  }

  /** Nothing is left to do: no complete line, and no tail over the limit. */
  predicate Quiet(c: Conn)
  {
    '\n' !in c.buffer && ByteLength(c.buffer) <= MAX_MESSAGE_BYTES
  }

  lemma DataIsQuiet(f: Foreign, c: Conn, chunk: string)
    requires !c.closed
    requires !Data(f, c, chunk).1 && !Data(f, c, chunk).0.closed
    ensures Quiet(Data(f, c, chunk).0)
  {
    PumpAppend(f, c.(buffer := c.buffer + chunk), "");
    PumpStopsClosed(f, c.(buffer := c.buffer + chunk));
  }

  lemma TakeLineClosed(f: Foreign, c: Conn, line: string)
    requires c.closed && c.pending == {}
    ensures SameButBuffer(TakeLine(f, c, line).0, c)
  {
  }

  /** On a closed connection a data event can change nothing but the unread text. */
  lemma {:induction false} ClosedIsInert(f: Foreign, c: Conn)
    requires c.closed && c.pending == {}
    ensures SameButBuffer(Pump(f, c).0, c)
    decreases |c.buffer|
  {
    hide TakeLine;
    var end := IndexOf(c.buffer, '\n');
    if end < |c.buffer| {
      var next, line := c.(buffer := c.buffer[end + 1..]), c.buffer[..end];
      TakeLineClosed(f, next, line);
      TakeLineCloses(f, next, line);
      ClosedIsInert(f, TakeLine(f, next, line).0);
    }
  }

  /** The same to everyone: equal, but for the unread text of a closed connection. */
  predicate Alike(a: Conn, b: Conn)
  {
    if a.closed then SameButBuffer(a, b) else a == b
  }

  /** A line that makes the handler throw, if there is one, is followed by nothing that is left to do. */
  predicate Smooth(f: Foreign, c: Conn, text: string)
  {
    var (d, end) := Pump(f, c.(buffer := c.buffer + text));
    end.Threw? ==> Quiet(d)
  }

  lemma DataCloses(f: Foreign, c: Conn, chunk: string)
    requires !c.closed && Data(f, c, chunk).0.closed
    ensures Data(f, c, chunk).0.pending == {}
  {
    PumpCloses(f, c.(buffer := c.buffer + chunk));
  }

  lemma {:induction false} PumpCloses(f: Foreign, c: Conn)
    requires c.closed ==> c.pending == {}
    ensures Pump(f, c).0.closed ==> Pump(f, c).0.pending == {}
    decreases |c.buffer|
  {
    hide TakeLine;
    var end := IndexOf(c.buffer, '\n');
    if end < |c.buffer| {
      var next, line := c.(buffer := c.buffer[end + 1..]), c.buffer[..end];
      TakeLineCloses(f, next, line);
      PumpCloses(f, TakeLine(f, next, line).0);
    }
  }

  lemma {:induction false} FeedClosed(f: Foreign, c: Conn, chunks: seq<string>)
    requires c.closed && c.pending == {}
    ensures SameButBuffer(FeedAll(f, c, chunks), c)
    decreases |chunks|
  {
    if chunks != [] {
      ClosedIsInert(f, c.(buffer := c.buffer + chunks[0]));
      FeedClosed(f, Data(f, c, chunks[0]).0, chunks[1..]);
    }
  }

  /** Text without a newline, within the limit, just piles up. */
  lemma {:induction false} FeedPilesUp(f: Foreign, c: Conn, chunks: seq<string>)
    requires Quiet(c.(buffer := c.buffer + Concat(chunks)))
    ensures FeedAll(f, c, chunks) == c.(buffer := c.buffer + Concat(chunks))
    decreases |chunks|
  {
    if chunks == [] {
      assert c.buffer + "" == c.buffer;
    } else {
      var one, rest := c.buffer + chunks[0], Concat(chunks[1..]);
      assert c.buffer + Concat(chunks) == one + rest;
      ByteLengthAdds(one, rest);
      assert forall i :: 0 <= i < |one| ==> one[i] == (one + rest)[i];
      QuietStays(f, c.(buffer := one));
      FeedPilesUp(f, c.(buffer := one), chunks[1..]);
    }
  }

  /** A smooth stream cut anyhow does what it does in one piece. */
  lemma {:induction false} FeedIsOneChunk(f: Foreign, c: Conn, chunks: seq<string>)
    requires !c.closed && Quiet(c) && Smooth(f, c, Concat(chunks))
    ensures Alike(Data(f, c, Concat(chunks)).0, FeedAll(f, c, chunks))
    decreases |chunks|
  {
    if chunks == [] {
      assert c.buffer + "" == c.buffer;
      QuietStays(f, c);
    } else {
      var a, b := chunks[0], Concat(chunks[1..]);
      var (d, threw) := Data(f, c, a);
      DataSplits(f, c, a, b);
      if d.closed {
        DataCloses(f, c, a);
        FeedClosed(f, d, chunks[1..]);
      } else if threw {
        RestAfterThrow(f, c, a, b);
        FeedPilesUp(f, d, chunks[1..]);
      } else {
        DataIsQuiet(f, c, a);
        SmoothRest(f, c, a, b);
        FeedIsOneChunk(f, d, chunks[1..]);
      }
    }
  }

  /** Behind a throw in a smooth stream there is only quiet text. */
  lemma RestAfterThrow(f: Foreign, c: Conn, a: string, b: string)
    requires !c.closed && Smooth(f, c, a + b) && Data(f, c, a).1
    ensures var d := Data(f, c, a).0;
      Data(f, c, a + b).0 == d.(buffer := d.buffer + b) && Quiet(d.(buffer := d.buffer + b))
  {
    hide Pump, Quiet;
    assert c.buffer + (a + b) == c.buffer + a + b;
    PumpAppend(f, c.(buffer := c.buffer + a), b);
  }

  lemma SmoothRest(f: Foreign, c: Conn, a: string, b: string)
    requires !c.closed && Smooth(f, c, a + b)
    requires !Data(f, c, a).1 && !Data(f, c, a).0.closed
    ensures Smooth(f, Data(f, c, a).0, b)
  {
    hide Pump, Quiet;
    assert c.buffer + (a + b) == c.buffer + a + b;
    PumpAppend(f, c.(buffer := c.buffer + a), b);
    PumpStopsClosed(f, c.(buffer := c.buffer + a));
  }

  /** A handler that throws has read up to the end of a line, and would have thrown without the rest. */
  lemma {:induction false} ThrowsAtLineEnd(f: Foreign, c: Conn) returns (head: string)
    requires Pump(f, c).1 == Threw
    ensures head != "" && head[|head| - 1] == '\n' && c.buffer == head + Pump(f, c).0.buffer
    ensures Pump(f, c.(buffer := head)) == (Pump(f, c).0.(buffer := ""), Threw)
    decreases |c.buffer|
  {
    hide TakeLine, Pump;
    if '\n' !in c.buffer {
      QuietStays(f, c);
    }
    var line, rest := FirstLine(c.buffer);
    var next := c.(buffer := rest);
    var (d, e) := TakeLine(f, next, line);
    PumpLine(f, c, line, rest);
    TakeLineCloses(f, next, line);
    var behind := "";
    if e.Drained? {
      behind := ThrowsAtLineEnd(f, d);
    }
    head := line + ("\n" + behind);
    PumpLine(f, c.(buffer := head), line, behind);
    TakeLineIgnoresBuffer(f, next, line, behind);
  }

  /** The cut right behind a throwing line lets the next event go on with what one event would have left. */
  lemma CutBehindThrow(f: Foreign, c: Conn, text: string)
    requires !c.closed && Quiet(c) && !Smooth(f, c, text)
    ensures exists a, b :: a + b == text && !Alike(FeedAll(f, c, [text]), FeedAll(f, c, [a, b]))
  {
    var whole := c.(buffer := c.buffer + text);
    var head := ThrowsAtLineEnd(f, whole);
    var d := Pump(f, whole).0;
    var a, b := SplitBehind(c.buffer, text, head, d.buffer);
    PumpKeepsOpen(f, whole);
    hide Pump;
    FeedOne(f, c, text);
    FeedTwo(f, c, a, b);
    assert Data(f, c, a) == (d.(buffer := ""), true);
    GoesOn(f, d.(buffer := ""), b);
  }

  /** What ends in a newline and begins with text that has none ends in the rest. */
  lemma SplitBehind(before: string, text: string, head: string, rest: string) returns (a: string, b: string)
    requires '\n' !in before && before + text == head + rest
    requires head != "" && head[|head| - 1] == '\n'
    ensures a + b == text && before + a == head && b == rest
  {
    var k := |head|;
    assert (before + text)[k - 1] == '\n';
    assert k > |before|;
    a, b := text[..k - |before|], text[k - |before|..];
    assert before + a == (before + text)[..k] == head;
    assert b == (before + text)[k..] == rest;
  }

  lemma FeedOne(f: Foreign, c: Conn, text: string)
    ensures FeedAll(f, c, [text]) == Data(f, c, text).0
  {
    hide Data;
    assert [text][1..] == [];
  }

  lemma FeedTwo(f: Foreign, c: Conn, a: string, b: string)
    ensures FeedAll(f, c, [a, b]) == Data(f, Data(f, c, a).0, b).0
  {
    hide Data;
    assert [a, b][1..] == [b];
    FeedOne(f, Data(f, c, a).0, b);
  }

  /** An event whose text is not quiet does not leave it as it is on an open connection. */
  lemma GoesOn(f: Foreign, c: Conn, text: string)
    requires c.buffer == "" && !Quiet(c.(buffer := text))
    ensures var d := Data(f, c, text).0; d.closed || d.buffer != text
  {
    assert c.buffer + text == text;
    var whole := c.(buffer := text);
    if '\n' in text {
      PumpReads(f, whole);
    } else {
      QuietStays(f, whole);
    }
  }

  lemma {:induction false} PumpReads(f: Foreign, c: Conn)
    ensures |Pump(f, c).0.buffer| <= |c.buffer|
    ensures '\n' in c.buffer ==> |Pump(f, c).0.buffer| < |c.buffer|
    decreases |c.buffer|
  {
    hide TakeLine;
    var end := IndexOf(c.buffer, '\n');
    if end < |c.buffer| {
      var next, line := c.(buffer := c.buffer[end + 1..]), c.buffer[..end];
      TakeLineCloses(f, next, line);
      PumpReads(f, TakeLine(f, next, line).0);
    } else {
      assert c.buffer[..end] == c.buffer;
    }
  }

  /** Every way of cutting the stream into data events comes to the same. */
  ghost predicate CutsDoNotMatter(f: Foreign, c: Conn, text: string)
  {
    forall one, other :: Concat(one) == text && Concat(other) == text ==>
      Alike(FeedAll(f, c, one), FeedAll(f, c, other))
  }

  /** However a stream is cut, the same messages are acted on in the same order, the same promises settle in the
      same way, and the connection ends open or failed alike: exactly when nothing that is left to do follows a
      line at which the handler throws. */
  lemma ChunksDoNotMatter(f: Foreign, c: Conn, text: string)
    requires !c.closed && Quiet(c)
    ensures CutsDoNotMatter(f, c, text) <==> Smooth(f, c, text)
  {
    if Smooth(f, c, text) {
      forall one, other | Concat(one) == text && Concat(other) == text
        ensures Alike(FeedAll(f, c, one), FeedAll(f, c, other))
      {
        hide *;
        FeedIsOneChunk(f, c, one);
        FeedIsOneChunk(f, c, other);
        AlikeToOne(Data(f, c, text).0, FeedAll(f, c, one), FeedAll(f, c, other));
      }
    } else {
      hide *;
      CutBehindThrow(f, c, text);
      var a, b :| a + b == text && !Alike(FeedAll(f, c, [text]), FeedAll(f, c, [a, b]));
      TwoCuts(f, c, text, a, b);
    }
  }

  lemma AlikeToOne(one: Conn, a: Conn, b: Conn)
    requires Alike(one, a) && Alike(one, b)
    ensures Alike(a, b)
  {
  }

  lemma TwoCuts(f: Foreign, c: Conn, text: string, a: string, b: string)
    requires a + b == text && !Alike(FeedAll(f, c, [text]), FeedAll(f, c, [a, b]))
    ensures !CutsDoNotMatter(f, c, text)
  {
    hide FeedAll, Alike;
    assert [a, b][1..] == [b] && Concat([b]) == b;
    assert Concat([text]) == text && Concat([a, b]) == text;
  }

  /** In particular a stream in which no line is null does not depend on its cuts. */
  lemma NoThrowIsSmooth(f: Foreign, c: Conn, text: string)
    requires forall line :: !f.parse(line).NullValue?
    ensures Smooth(f, c, text)
  {
    NeverThrows(f, c.(buffer := c.buffer + text));
  }

  lemma {:induction false} NeverThrows(f: Foreign, c: Conn)
    requires forall line :: !f.parse(line).NullValue?
    ensures !Pump(f, c).1.Threw?
    decreases |c.buffer|
  {
    var end := IndexOf(c.buffer, '\n');
    if end < |c.buffer| {
      NeverThrows(f, TakeLine(f, c.(buffer := c.buffer[end + 1..]), c.buffer[..end]).0);
    }
  }

  // ----- What a stream says

  /** A line that ends the reading: it is too long, or it is not blank and no message. */
  predicate Bad(f: Foreign, line: string)
  {
    ByteLength(line) > 8388608 || (!f.blank(line) && !f.parse(line).Message?)
  }

  /** The first bad line, or |lines|. */
  function FirstBad(f: Foreign, lines: seq<string>): (n: nat)
    ensures n <= |lines| && (n < |lines| ==> Bad(f, lines[n]))
    ensures forall i :: 0 <= i < n ==> !Bad(f, lines[i])
  {
    if lines == [] || Bad(f, lines[0]) then 0 else 1 + FirstBad(f, lines[1..])
  }

  /** One message heard for each line that is not blank, in order. */
  function Heard(f: Foreign, lines: seq<string>): seq<Event>
    requires forall i :: 0 <= i < |lines| ==> !Bad(f, lines[i])
  {
    if lines == [] then []
    else
      assert !Bad(f, lines[0]);
      (if f.blank(lines[0]) then [] else [Received(f.parse(lines[0]).id, f.parse(lines[0]).reply)])
      + Heard(f, lines[1..])
  }

  /** How reading ends: at the first bad line, which fails the connection or, being null, makes the handler throw;
      or behind the last line. */
  function Ending(f: Foreign, lines: seq<string>): End
  {
    var n := FirstBad(f, lines);
    if n == |lines| then Drained
    else if ByteLength(lines[n]) <= 8388608 && f.parse(lines[n]).NullValue? then Threw
    else Stopped
  }

  /** What the break is put down to. */
  function Blame(f: Foreign, lines: seq<string>): Cause
  {
    var n := FirstBad(f, lines);
    if n < |lines| && ByteLength(lines[n]) <= 8388608 then BadJson else TooLong
  }

  lemma FirstBadStep(f: Foreign, line: string, rest: seq<string>)
    ensures FirstBad(f, [line] + rest) == if Bad(f, line) then 0 else 1 + FirstBad(f, rest)
  {
    assert ([line] + rest)[1..] == rest;
  }

  lemma HeardStep(f: Foreign, line: string, rest: seq<string>)
    requires !Bad(f, line) && forall i :: 0 <= i < |rest| ==> !Bad(f, rest[i])
    ensures forall i :: 0 <= i < |[line] + rest| ==> !Bad(f, ([line] + rest)[i])
    ensures Heard(f, [line] + rest)
         == (if f.blank(line) then [] else [Received(f.parse(line).id, f.parse(line).reply)]) + Heard(f, rest)
  {
    assert ([line] + rest)[1..] == rest;
  }

  lemma SplitLine(line: string, rest: string)
    requires '\n' !in line
    ensures Split(line + ("\n" + rest), '\n') == [line] + Split(rest, '\n')
  {
    var s := line + ("\n" + rest);
    IndexOfFirst(line, "\n" + rest, '\n');
    assert s[..|line|] == line && s[|line| + 1..] == rest;
  }

  /** The complete lines of a text, and what is left behind the last. */
  function CompleteLines(text: string): seq<string>
  {
    var parts := Split(text, '\n');
    parts[..|parts| - 1]
  }

  function Tail(text: string): string
  {
    var parts := Split(text, '\n');
    parts[|parts| - 1]
  }

  lemma LinesStep(line: string, rest: string)
    requires '\n' !in line
    ensures CompleteLines(line + ("\n" + rest)) == [line] + CompleteLines(rest)
    ensures Tail(line + ("\n" + rest)) == Tail(rest)
  {
    SplitLine(line, rest);
  }

  lemma NoLines(text: string)
    requires '\n' !in text
    ensures CompleteLines(text) == [] && Tail(text) == text
  {
    assert IndexOf(text, '\n') == |text|;
  }

  /** What reading a text does to an open connection, in terms of its lines. */
  ghost predicate Reads(f: Foreign, c: Conn, text: string, d: Conn, end: End)
  {
    var lines := CompleteLines(text);
    var n := FirstBad(f, lines);
    && end == Ending(f, lines)
    && d.history == c.history + Heard(f, lines[..n]) + (if end.Stopped? then [Broke(Blame(f, lines))] else [])
    && d.closed == end.Stopped?
    && (end.Drained? ==> d.buffer == Tail(text))
  }

  lemma {:induction false} PumpReadsLines(f: Foreign, c: Conn)
    requires !c.closed
    ensures Reads(f, c, c.buffer, Pump(f, c).0, Pump(f, c).1)
    decreases |c.buffer|
  {
    if '\n' in c.buffer {
      var line, rest := FirstLine(c.buffer);
      var next := c.(buffer := rest);
      var (d, e) := TakeLine(f, next, line);
      PumpLine(f, c, line, rest);
      LinesStep(line, rest);
      FirstBadStep(f, line, CompleteLines(rest));
      TakeLineReads(f, next, line);
      if e.Drained? {
        PumpReadsLines(f, d);
        ReadsOn(f, c, line, rest, d, Pump(f, d).0, Pump(f, d).1);
      }
    } else {
      QuietStays(f, c);
      NoLines(c.buffer);
    }
  }

  lemma TakeLineReads(f: Foreign, c: Conn, line: string)
    requires !c.closed
    ensures var (d, e) := TakeLine(f, c, line);
      && d.buffer == c.buffer && (e.Drained? <==> !Bad(f, line)) && d.closed == e.Stopped?
      && d.history == c.history
         + (if Bad(f, line) || f.blank(line) then [] else [Received(f.parse(line).id, f.parse(line).reply)])
         + (if e.Stopped? then [Broke(if ByteLength(line) > 8388608 then TooLong else BadJson)] else [])
      && (e.Threw? <==> ByteLength(line) <= 8388608 && !f.blank(line) && f.parse(line).NullValue?)
  {
    hide Rejections, ByteLength;
  }

  lemma ReadsOn(f: Foreign, c: Conn, line: string, rest: string, d: Conn, e: Conn, end: End)
    requires '\n' !in line && !Bad(f, line) && Reads(f, d, rest, e, end)
    requires d.history == c.history
      + (if f.blank(line) then [] else [Received(f.parse(line).id, f.parse(line).reply)])
    ensures Reads(f, c, line + ("\n" + rest), e, end)
  {
    var lines := CompleteLines(rest);
    var n := FirstBad(f, lines);
    hide FirstBad, Heard, CompleteLines, Tail, Bad, ByteLength;
    LinesStep(line, rest);
    FirstBadStep(f, line, lines);
    assert ([line] + lines)[..n + 1] == [line] + lines[..n];
    HeardStep(f, line, lines[..n]);
  }

  /** A data event on an open connection, in terms of the text alone: of the complete lines up to the first bad one,
      each that is not blank is heard, in order; then the connection breaks exactly when that line is too long or
      not JSON, or when there is none and the tail is too long. */
  lemma DataReadsLines(f: Foreign, c: Conn, chunk: string)
    requires !c.closed
    ensures var text := c.buffer + chunk;
      var lines := CompleteLines(text);
      var (d, threw) := Data(f, c, chunk);
      var end := Ending(f, lines);
      var breaks := end.Stopped? || (end.Drained? && ByteLength(Tail(text)) > 8388608);
      && d.history == c.history + Heard(f, lines[..FirstBad(f, lines)])
         + (if breaks then [Broke(Blame(f, lines))] else [])
      && d.closed == breaks && threw == end.Threw?
      && (end.Drained? ==> d.buffer == Tail(text))
  {
    hide Pump, TakeLine, Heard, FirstBad, ByteLength, CompleteLines, Tail, Rejections;
    PumpReadsLines(f, c.(buffer := c.buffer + chunk));
  }

  // ----- What a reply does for its call

  /** The first message that names the call. */
  function FirstReply(events: seq<Event>, id: int): Option<Reply>
  {
    if events == [] then None
    else if events[0].Received? && events[0].msgId == Num(id) then Some(events[0].reply)
    else FirstReply(events[1..], id)
  }

  /** A pending call that a data event names is settled with the first reply that names it, and pending no more; one
      that it does not name stays pending, or is rejected with the cause of the break. */
  lemma DataAnswersCalls(f: Foreign, c: Conn, chunk: string, id: int)
    requires ConnOk(c) && !c.closed && id in c.pending
    ensures var lines := CompleteLines(c.buffer + chunk);
      var d := Data(f, c, chunk).0;
      var reply := FirstReply(Heard(f, lines[..FirstBad(f, lines)]), id);
      && (reply.Some? ==> id !in d.pending && Settlement(id, Replied(reply.value)) in d.settlements)
      && (reply.None? && !d.closed ==> id in d.pending)
      && (reply.None? && d.closed ==>
            id !in d.pending && Settlement(id, Rejected(Blame(f, lines))) in d.settlements)
  {
    var lines := CompleteLines(c.buffer + chunk);
    var kept := lines[..FirstBad(f, lines)];
    var d := Data(f, c, chunk).0;
    DataOk(f, c, chunk);
    DataReadsLines(f, c, chunk);
    HeardAreReplies(f, kept);
    hide *;
    AnswersCall(c, d, Heard(f, kept), Blame(f, lines), id);
  }

  lemma AnswersCall(c: Conn, d: Conn, heard: seq<Event>, cause: Cause, id: int)
    requires ConnOk(c) && !c.closed && id in c.pending && ConnOk(d)
    requires forall e :: e in heard ==> e.Received?
    requires d.history == c.history + heard + (if d.closed then [Broke(cause)] else [])
    ensures var reply := FirstReply(heard, id);
      && (reply.Some? ==> id !in d.pending && Settlement(id, Replied(reply.value)) in d.settlements)
      && (reply.None? && !d.closed ==> id in d.pending)
      && (reply.None? && d.closed ==> id !in d.pending && Settlement(id, Rejected(cause)) in d.settlements)
  {
    hide *;
    var h := c.history + heard;
    PendingMeans(c, id);
    FateOfHeard(c.history, heard, id);
    if d.closed {
      FateOfBreak(h, cause, id);
    } else {
      assert h + [] == h;
    }
    FateAndPending(d, id);
  }

  lemma PendingMeans(c: Conn, id: int)
    requires ConnOk(c) && id in c.pending
    ensures HasWritten(c.history, id) && Fate(c.history, id).None?
  {
    FateIsSettled(c, id);
    hide Fate;
  }

  lemma {:induction false} HeardAreReplies(f: Foreign, lines: seq<string>)
    requires forall i :: 0 <= i < |lines| ==> !Bad(f, lines[i])
    ensures forall e :: e in Heard(f, lines) ==> e.Received?
  {
    if lines != [] {
      HeardAreReplies(f, lines[1..]);
    }
  }

  lemma {:induction false} FateOfHeard(h: seq<Event>, heard: seq<Event>, id: int)
    requires Fate(h, id).None? && HasWritten(h, id) && forall e :: e in heard ==> e.Received?
    ensures HasWritten(h + heard, id)
    ensures Fate(h + heard, id)
         == if FirstReply(heard, id).Some? then Some(Replied(FirstReply(heard, id).value)) else None
    decreases |heard|
  {
    if heard == [] {
      assert h + heard == h;
    } else {
      var n := |heard| - 1;
      var before, last := heard[..n], heard[n];
      FateOfHeard(h, before, id);
      FirstReplySnoc(before, last, id);
      assert heard == before + [last];
      assert h + heard == (h + before) + [last];
      assert (h + heard)[..|h + heard| - 1] == h + before;
    }
  }

  lemma {:induction false} FirstReplySnoc(events: seq<Event>, last: Event, id: int)
    ensures FirstReply(events + [last], id)
         == if FirstReply(events, id).Some? then FirstReply(events, id)
            else if last.Received? && last.msgId == Num(id) then Some(last.reply) else None
  {
    if events != [] {
      assert (events + [last])[1..] == events[1..] + [last];
      FirstReplySnoc(events[1..], last, id);
    }
  }

  lemma FateOfBreak(h: seq<Event>, cause: Cause, id: int)
    requires HasWritten(h, id)
    ensures HasWritten(h + [Broke(cause)], id)
    ensures Fate(h + [Broke(cause)], id) == if Fate(h, id).Some? then Fate(h, id) else Some(Rejected(cause))
  {
    assert (h + [Broke(cause)])[..|h|] == h;
  }

  lemma FateAndPending(c: Conn, id: int)
    requires ConnOk(c) && HasWritten(c.history, id)
    ensures id in c.pending <==> Fate(c.history, id).None?
    ensures Fate(c.history, id).Some? ==> Settlement(id, Fate(c.history, id).value) in c.settlements
  {
    FateIsSettled(c, id);
  }
}
