/**
  The bridge: at most one live connection, replaced after it fails, while handlers of older
  connections may still run. Event handlers run one at a time, each to its end.
 */
module Bridge {
  import opened Option
  import opened Text
  import opened BridgeConnection

  /** What the connection broke with, when that was the last thing it did. */
  function BreakCause(h: seq<Event>): Option<Cause>
  {
    if h != [] && h[|h| - 1].Broke? then Some(h[|h| - 1].cause) else None
  }

  class Connection {
    var pending: set<int>
    var listeners: set<int>
    var nextId: int
    var buffer: string
    var closed: bool
    var refd: bool
    ghost var history: seq<Event>
    ghost var settlements: seq<Settlement>

    constructor ()
      ensures View() == FRESH
    {
      pending, listeners, nextId, buffer := {}, {}, 0, "";
      closed, refd := false, true;
      history, settlements := [], [];
    }

    ghost function View(): Conn
      reads this
    {
      Conn(pending, listeners, nextId, buffer, closed, refd, history, settlements)
    }

    predicate InRange()
      reads this
    {
      forall id :: id in pending ==> 1 <= id <= nextId
    }

    /** Calls the promise's resolve or reject, which also drops the abort listener. */
    method Settle(id: int, outcome: Outcome)
      modifies `listeners, `settlements
      ensures listeners == old(listeners) - {id}
      ensures settlements == old(settlements) + [Settlement(id, outcome)]
    {
      listeners := listeners - {id};
      settlements := settlements + [Settlement(id, outcome)];
    }
  }

  class PiBridge {
    var connection: Connection?
    var lastError: Option<Cause>

    constructor ()
      ensures connection == null && lastError == None
    {
      connection, lastError := null, None;
    }

    /** What a handler of `conn` does to the bridge: nothing, unless it closed the connection. */
    twostate predicate TracksClosing(conn: Connection)
      reads this, conn
    {
      if old(conn.closed) == conn.closed
      then connection == old(connection) && lastError == old(lastError)
      else
        && connection == (if old(connection) == conn then null else old(connection))
        && BreakCause(conn.history).Some? && lastError == BreakCause(conn.history)
    }

    method Fail(conn: Connection, cause: Cause)
      requires conn.InRange()
      modifies this, conn
      ensures conn.View() == BridgeConnection.Fail(old(conn.View()), cause) && conn.InRange()
      ensures BreaksWith(old(conn.View()), conn.View(), cause)
      ensures TracksClosing(conn)
    {
      FailBreaks(conn.View(), cause);
      if conn.closed {
        return;
      }
      conn.closed := true;
      if connection == conn {
        connection := null;
      }
      lastError := Some(cause);
      conn.history := conn.history + [Broke(cause)];
      RejectAll(conn, cause);
      conn.pending := {};
    }

    /** Rejects the pending calls in the order of their ids. */
    method RejectAll(conn: Connection, cause: Cause)
      requires conn.InRange()
      modifies conn`listeners, conn`settlements
      ensures conn.listeners == old(conn.listeners) - conn.pending
      ensures conn.settlements == old(conn.settlements) + Rejections(conn.pending, conn.nextId, cause)
    {
      var id := 1;
      while id <= conn.nextId
        invariant 1 <= id
        invariant id == 1 || id <= conn.nextId + 1
        invariant conn.listeners == old(conn.listeners) - set n | n in conn.pending && n < id
        invariant conn.settlements == old(conn.settlements) + Rejections(conn.pending, id - 1, cause)
        decreases conn.nextId - id
      {
        if id in conn.pending {
          conn.Settle(id, Rejected(cause));
        }
        id := id + 1;
      }
      assert conn.pending == set n | n in conn.pending && n < id;
      assert Rejections(conn.pending, id - 1, cause) == Rejections(conn.pending, conn.nextId, cause);
    }

    method Request(conn: Connection, aborted: bool, listens: bool) returns (sent: Option<int>)
      requires conn.InRange() && conn.nextId >= 0
      modifies conn
      ensures conn.View() == BridgeConnection.Request(old(conn.View()), aborted, listens) && conn.InRange()
      ensures sent.Some? <==> !aborted && !old(conn.closed)
      ensures sent.None? ==> conn.View() == old(conn.View())
      ensures sent.Some? ==>
        && sent.value == conn.nextId == old(conn.nextId) + 1 && conn.refd
        && conn.history == old(conn.history) + [Wrote(sent.value)]
        && conn.pending == old(conn.pending) + {sent.value}
        && (listens ==> sent.value in conn.listeners)
    {
      if aborted || conn.closed {
        return None;
      }
      conn.nextId := conn.nextId + 1;
      var id := conn.nextId;
      conn.refd := true;
      conn.pending := conn.pending + {id};
      if listens {
        conn.listeners := conn.listeners + {id};
      }
      conn.history := conn.history + [Wrote(id)];
      sent := Some(id);
    }

    method OnMessage(conn: Connection, id: JsonId, reply: Reply)
      requires conn.InRange()
      modifies conn
      ensures conn.View() == Dispatch(old(conn.View()), id, reply) && conn.InRange()
    {
      if !conn.closed {
        conn.history := conn.history + [Received(id, reply)];
      }
      if id.OtherId? || id.n !in conn.pending {
        return;
      }
      conn.pending := conn.pending - {id.n};
      if conn.pending == {} {
        conn.refd := false;
      }
      conn.Settle(id.n, Replied(reply));
    }

    /** The body of the data handler's loop. */
    method OnLine(f: Foreign, conn: Connection, line: string) returns (end: End)
      requires conn.InRange()
      modifies this, conn
      ensures (conn.View(), end) == TakeLine(f, old(conn.View()), line) && conn.InRange()
      ensures TracksClosing(conn)
      ensures end != Stopped ==> conn.closed == old(conn.closed)
    {
      if ByteLength(line) > MAX_MESSAGE_BYTES {
        Fail(conn, TooLong);
        return Stopped;
      }
      if f.blank(line) {
        return Drained;
      }
      var response := f.parse(line);
      match response {
        case Invalid =>
          Fail(conn, BadJson);
          return Stopped;
        case NullValue =>
          return Threw;
        case Message(id, reply) =>
          OnMessage(conn, id, reply);
          return Drained;
      }
    }

    method OnData(f: Foreign, conn: Connection, chunk: string) returns (threw: bool)
      requires conn.InRange()
      modifies this, conn
      ensures (conn.View(), threw) == Data(f, old(conn.View()), chunk) && conn.InRange()
      ensures TracksClosing(conn)
    {
      hide TakeLine, ByteLength, Rejections;
      conn.buffer := conn.buffer + chunk;
      ghost var start := conn.View();
      while true
        invariant conn.InRange()
        invariant Pump(f, conn.View()) == Pump(f, start)
        invariant conn.closed == start.closed
        invariant connection == old(connection) && lastError == old(lastError)
        decreases |conn.buffer|
      {
        ghost var here := conn.View();
        var end := IndexOf(conn.buffer, '\n');
        if end == |conn.buffer| {
          assert Pump(f, here) == (here, Drained);
          break;
        }
        var line := conn.buffer[..end];
        conn.buffer := conn.buffer[end + 1..];
        TakeLineIgnoresBuffer(f, conn.View(), line, "");
        var fate := OnLine(f, conn, line);
        if fate == Stopped {
          return false;
        }
        if fate == Threw {
          return true;
        }
      }
      if ByteLength(conn.buffer) > MAX_MESSAGE_BYTES {
        Fail(conn, TooLong);
      }
      return false;
    }

    method OnAbort(conn: Connection, id: int)
      requires conn.InRange()
      modifies this, conn
      ensures conn.View() == Abort(old(conn.View()), id, Cancelled) && conn.InRange()
      ensures id in old(conn.listeners) && !old(conn.closed) ==> BreaksWith(old(conn.View()), conn.View(), Cancelled)
      ensures id !in old(conn.listeners) ==> conn.View() == old(conn.View())
      ensures TracksClosing(conn)
    {
      if id in conn.listeners {
        conn.listeners := conn.listeners - {id};
        Fail(conn, Cancelled);
      }
    }

    /** connect(): the live connection, or a new one whose first request is `initialize`. */
    method Connect() returns (conn: Connection)
      modifies this
      ensures connection == conn && lastError == old(lastError)
      ensures old(connection) != null ==> conn == old(connection)
      ensures old(connection) == null ==>
        && fresh(conn) && conn.View() == BridgeConnection.Request(FRESH, false, false)
        && conn.history == [Wrote(1)] && conn.pending == {1} && conn.nextId == 1 && !conn.closed && conn.refd
    {
      if connection != null {
        return connection;
      }
      conn := new Connection();
      connection := conn;
      var _ := Request(conn, false, false);
    }

    method Close()
      requires connection != null ==> connection.InRange()
      modifies this, connection
      ensures old(connection) == null ==> connection == null && lastError == old(lastError)
      ensures old(connection) != null ==>
        && old(connection).View() == BridgeConnection.Fail(old(connection.View()), ShutDown)
        && BreaksWith(old(connection.View()), old(connection).View(), ShutDown)
        && TracksClosing(old(connection))
    {
      if connection != null {
        Fail(connection, ShutDown);
      }
    }
  }

  // ----- Runs over all connections, old and new

  datatype Sys = Sys(conns: seq<Conn>, current: Option<nat>, lastError: Option<Cause>)

  datatype Step =
    | Open                                          // connect() with no live connection
    | Call(c: nat, aborted: bool, listens: bool)    // request() on a connection someone still holds
    | Arrive(c: nat, chunk: string)                 // stdout data
    | Break(c: nat, cause: Cause)                  // an event of the child or its streams, or the timeout
    | Cancel(c: nat, id: int)                       // an abort signal fires
    | Stop                                          // close()
    | Ready(c: nat)                                 // the continuation of a successful `initialize`

  predicate Initialized(c: Conn)
  {
    exists i :: 0 <= i < |c.settlements| && c.settlements[i].id == 1
      && c.settlements[i].outcome.Replied? && c.settlements[i].outcome.reply.ResultReply?
  }

  predicate Enabled(s: Sys, step: Step)
  {
    match step
    case Open => s.current.None?
    case Stop => s.current.Some? ==> s.current.value < |s.conns|
    case Ready(c) => c < |s.conns| && Initialized(s.conns[c])
    case _ => step.c < |s.conns|
  }

  function Update(s: Sys, c: nat, t: Conn): Sys
    requires c < |s.conns|
  {
    var u := s.(conns := s.conns[c := t]);
    if s.conns[c].closed == t.closed then u
    else u.(current := if s.current == Some(c) then None else s.current, lastError := BreakCause(t.history))
  }

  /** The connection a step works on, for the steps that work on one. */
  function Target(s: Sys, step: Step): Option<nat>
  {
    match step
    case Open => None
    case Ready(_) => None
    case Stop => s.current
    case _ => Some(step.c)
  }

  function Next(f: Foreign, c: Conn, step: Step): Conn
  {
    match step
    case Call(_, aborted, listens) => Request(c, aborted, listens)
    case Arrive(_, chunk) => Data(f, c, chunk).0
    case Break(_, cause) => Fail(c, cause)
    case Cancel(_, id) => Abort(c, id, Cancelled)
    case Stop => Fail(c, ShutDown)
    case _ => c
  }

  function Apply(f: Foreign, s: Sys, step: Step): Sys
    requires Enabled(s, step)
  {
    match step
    case Open => s.(conns := s.conns + [Request(FRESH, false, false)], current := Some(|s.conns|))
    case Ready(_) => s.(lastError := None)
    case _ =>
      var c := Target(s, step);
      if c.None? then s else Update(s, c.value, Next(f, s.conns[c.value], step))
  }

  /** Exactly the current connection is open, and every connection is in order. */
  ghost predicate Inv(s: Sys)
  {
    && (s.current.Some? ==> s.current.value < |s.conns|)
    && forall c :: 0 <= c < |s.conns| ==>
         && ConnOk(s.conns[c]) && s.conns[c].nextId >= 1
         && (!s.conns[c].closed <==> s.current == Some(c))
  }

  /** Settled promises stay settled as they are, and a closed connection is left alone but for its buffer. */
  ghost predicate Later(a: Conn, b: Conn)
  {
    && a.settlements <= b.settlements && a.history <= b.history
    && a.nextId <= b.nextId
    && (a.closed ==> SameButBuffer(a, b))
  }

  ghost predicate Follows(s: Sys, t: Sys)
  {
    && |s.conns| <= |t.conns|
    && forall i :: 0 <= i < |s.conns| ==> Later(s.conns[i], t.conns[i])
  }

  lemma FollowsIsTransitive(s: Sys, t: Sys, u: Sys)
    requires Follows(s, t) && Follows(t, u)
    ensures Follows(s, u)
  {
    forall i | 0 <= i < |s.conns|
      ensures Later(s.conns[i], u.conns[i])
    {
      assert Later(s.conns[i], t.conns[i]) && Later(t.conns[i], u.conns[i]);
    }
  }

  lemma TakeLineIsLater(f: Foreign, c: Conn, line: string)
    requires c.closed ==> c.pending == {}
    ensures var d := TakeLine(f, c, line).0;
      Later(c, d) && d.buffer == c.buffer && (d.closed ==> d.pending == {})
  {
  }

  lemma {:induction false} PumpIsLater(f: Foreign, c: Conn)
    requires c.closed ==> c.pending == {}
    ensures Later(c, Pump(f, c).0)
    decreases |c.buffer|
  {
    hide TakeLine;
    var end := IndexOf(c.buffer, '\n');
    if end < |c.buffer| {
      TakeLineIsLater(f, c.(buffer := c.buffer[end + 1..]), c.buffer[..end]);
      PumpIsLater(f, TakeLine(f, c.(buffer := c.buffer[end + 1..]), c.buffer[..end]).0);
    }
  }

  lemma NextOk(f: Foreign, c: Conn, step: Step)
    requires ConnOk(c)
    ensures ConnOk(Next(f, c, step)) && Later(c, Next(f, c, step))
  {
    hide IdsOk, CallsOk, FatesOk, HasBroken;
    match step
    case Call(_, aborted, listens) => RequestOk(c, aborted, listens);
    case Arrive(_, chunk) =>
      DataOk(f, c, chunk);
      PumpIsLater(f, c.(buffer := c.buffer + chunk));
    case Break(_, cause) => FailOk(c, cause);
    case Cancel(_, id) => AbortOk(c, id, Cancelled);
    case Stop => FailOk(c, ShutDown);
    case _ =>
  }

  lemma UpdateKeepsInv(s: Sys, c: nat, t: Conn)
    requires Inv(s) && c < |s.conns|
    requires ConnOk(t) && Later(s.conns[c], t)
    ensures Inv(Update(s, c, t)) && Follows(s, Update(s, c, t))
  {
  }

  lemma StepKeepsInv(f: Foreign, s: Sys, step: Step)
    requires Inv(s) && Enabled(s, step)
    ensures Inv(Apply(f, s, step)) && Follows(s, Apply(f, s, step))
  {
    var c := Target(s, step);
    if c.Some? {
      NextOk(f, s.conns[c.value], step);
      UpdateKeepsInv(s, c.value, Next(f, s.conns[c.value], step));
    } else if step.Open? {
      FreshOk();
      RequestOk(FRESH, false, false);
    }
  }

  ghost predicate IsRun(f: Foreign, states: seq<Sys>, steps: seq<Step>)
  {
    && |states| == |steps| + 1
    && states[0] == Sys([], None, None)
    && forall i :: 0 <= i < |steps| ==>
         Enabled(states[i], steps[i]) && states[i + 1] == Apply(f, states[i], steps[i])
  }

  lemma {:induction false} RunKeepsInv(f: Foreign, states: seq<Sys>, steps: seq<Step>, n: nat)
    requires IsRun(f, states, steps) && n <= |steps|
    ensures Inv(states[n])
  {
    if n > 0 {
      RunKeepsInv(f, states, steps, n - 1);
      StepKeepsInv(f, states[n - 1], steps[n - 1]);
    }
  }

  lemma {:induction false} RunOnlyAdds(f: Foreign, states: seq<Sys>, steps: seq<Step>, n: nat, m: nat)
    requires IsRun(f, states, steps) && n <= m <= |steps|
    ensures Follows(states[n], states[m])
    decreases m
  {
    if n < m {
      hide Inv, Follows, Apply;
      RunOnlyAdds(f, states, steps, n, m - 1);
      RunKeepsInv(f, states, steps, m - 1);
      StepKeepsInv(f, states[m - 1], steps[m - 1]);
      FollowsIsTransitive(states[n], states[m - 1], states[m]);
    }
  }

  /** In every state of every run, for every connection that ever was: request ids are written once each,
      in order; a promise settles at most once, by the first reply that names it or by the break; once the
      connection has failed every promise has settled; and an open connection holds the host open exactly
      while calls are pending. */
  lemma EveryCallSettlesOnce(f: Foreign, states: seq<Sys>, steps: seq<Step>, n: nat, c: nat)
    requires IsRun(f, states, steps) && n <= |steps| && c < |states[n].conns|
    ensures var conn := states[n].conns[c];
      && conn.nextId >= 0
      && WrittenIds(conn.history) == seq(conn.nextId, i => i + 1)
      && OncePerId(conn.settlements)
      && (forall id, o :: Settlement(id, o) in conn.settlements <==> Fate(conn.history, id) == Some(o))
      && (conn.closed ==> conn.pending == {} && forall id :: 1 <= id <= conn.nextId ==> SettledIn(conn.settlements, id))
      && (!conn.closed ==> states[n].current == Some(c) && (conn.refd <==> conn.pending != {}))
  {
    RunKeepsInv(f, states, steps, n);
  }

  /** What happens on one connection settles nothing on another; what has settled stays as it is for the
      rest of the run; and a failed connection is left alone but for its unread text. */
  lemma ConnectionsAreApart(f: Foreign, states: seq<Sys>, steps: seq<Step>, n: nat, m: nat, i: nat)
    requires IsRun(f, states, steps) && n <= m <= |steps| && i < |states[n].conns|
    ensures i < |states[m].conns| && states[n].conns[i].settlements <= states[m].conns[i].settlements
    ensures states[n].conns[i].closed ==> SameButBuffer(states[n].conns[i], states[m].conns[i])
    ensures n < |steps| && Target(states[n], steps[n]) != Some(i) ==>
      i < |states[n + 1].conns| && states[n + 1].conns[i] == states[n].conns[i]
  {
    RunOnlyAdds(f, states, steps, n, m);
    if n < |steps| {
      assert states[n + 1] == Apply(f, states[n], steps[n]);
    }
  }
}
