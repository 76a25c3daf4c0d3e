/**
  The hash chain of the audit log: what a line is, when it extends the chain, and what
  follows for two files that the verifier accepts.

  A file is a sequence of lines. A line is described by what the reader can learn from it:
  its length, and the event that JSON decoding yields (or that decoding fails).
 */
module AuditChain {
  import opened Option

  newtype Byte = x: int | 0 <= x < 256
  type Key = seq<Byte>

  // The fields that hashEvent marshals. `details` is the JSON text of the details map.
  datatype Payload = Payload(
    sequence: int, timestamp: int, kind: string, actor: string, details: string, prevHash: string)

  datatype Event = Event(body: Payload, hash: string, scheme: string)

  datatype Line =
    | Record(bytes: nat, event: Event)  // decodes to event
    | Garbage(bytes: nat)               // json.Unmarshal fails

  const SCHEME_SHA256 := "sha256"
  const SCHEME_HMAC := "hmac-sha256-v1"
  const MAX_LINE_BYTES: nat := 0x10_0000

  /** The foreign code: digests (keyed when the key is non-empty), and what decoding a details
      text and encoding it again yields, if it decodes. */
  datatype World = World(digest: (Payload, Key) -> string, recode: string -> Option<string>)

  /** Digests tell payloads apart, and keyed digests from unkeyed ones. */
  ghost predicate Injective(digest: (Payload, Key) -> string)
  {
    forall p, k: Key, q, m: Key ::
      digest(p, k) == digest(q, m) ==> p == q && (k == [] <==> m == [])
  }

  /** The scanner needs the line and its newline to fit its buffer. */
  predicate Fits(line: Line)
  {
    line.bytes + 1 <= MAX_LINE_BYTES
  }

  predicate AllFit(lines: seq<Line>)
  {
    forall i :: 0 <= i < |lines| ==> Fits(lines[i])
  }

  function KeyForScheme(scheme: string, key: Key): Option<Key>
  {
    if scheme == "" || scheme == SCHEME_SHA256 then Some([])
    else if scheme == SCHEME_HMAC then (if key == [] then None else Some(key))
    else None
  }

  /** One line is the next link after `sequence` good lines, the last of which hashed to `previous`. */
  predicate Links(w: World, key: Key, sequence: int, previous: string, line: Line)
  {
    && line.Record?
    && line.event.body.sequence == sequence + 1
    && line.event.body.prevHash == previous
    && var k := KeyForScheme(line.event.scheme, key);
    && k.Some?
    && line.event.hash == w.digest(line.event.body, k.value)
  }

  /** The hash that line number `i` (from 0) must name as its predecessor. */
  function HashBefore(lines: seq<Line>, i: nat): string
    requires i <= |lines|
  {
    if i > 0 && lines[i - 1].Record? then lines[i - 1].event.hash else ""
  }

  predicate LinksAt(w: World, key: Key, lines: seq<Line>, i: nat)
    requires i < |lines|
  {
    Links(w, key, i, HashBefore(lines, i), lines[i])
  }

  /** The link in the file's own terms. A line without a label, or labelled "sha256", has an unkeyed digest; one
      labelled "hmac-sha256-v1" has a digest under a key, which must be there; no other label passes. */
  ghost predicate Follows(w: World, key: Key, lines: seq<Line>, i: nat)
    requires i < |lines|
  {
    && lines[i].Record?
    && var Event(body, hash, scheme) := lines[i].event;
    && body.sequence == i + 1
    && body.prevHash == (if i > 0 && lines[i - 1].Record? then lines[i - 1].event.hash else "")
    && (((scheme == "" || scheme == "sha256") && hash == w.digest(body, []))
        || (scheme == "hmac-sha256-v1" && key != [] && hash == w.digest(body, key)))
  }

  lemma LinkMeans(w: World, key: Key, lines: seq<Line>, i: nat)
    requires i < |lines|
    ensures LinksAt(w, key, lines, i) <==> Follows(w, key, lines, i)
  {
    assert SCHEME_SHA256[0] == 's' && SCHEME_HMAC[0] == 'h';
  }

  predicate ChainOk(w: World, key: Key, lines: seq<Line>)
  {
    forall i :: 0 <= i < |lines| ==> LinksAt(w, key, lines, i)
  }

  /** A line is judged by itself and its predecessor, so a prefix of a file stands alone. */
  lemma LinksAtPrefix(w: World, key: Key, lines: seq<Line>, n: nat)
    requires n <= |lines|
    ensures forall i :: 0 <= i < n ==> (LinksAt(w, key, lines[..n], i) <==> LinksAt(w, key, lines, i))
  {
    forall i | 0 <= i < n
      ensures LinksAt(w, key, lines[..n], i) <==> LinksAt(w, key, lines, i)
    {
      assert HashBefore(lines[..n], i) == HashBefore(lines, i);
    }
  }

  lemma ChainExtends(w: World, key: Key, lines: seq<Line>, line: Line)
    requires ChainOk(w, key, lines)
    ensures ChainOk(w, key, lines + [line])
       <==> Links(w, key, |lines|, HashBefore(lines, |lines|), line)
  {
    var longer := lines + [line];
    LinksAtPrefix(w, key, longer, |lines|);
    assert longer[..|lines|] == lines;
    assert HashBefore(longer, |lines|) == HashBefore(lines, |lines|);
    assert LinksAt(w, key, longer, |lines|) <==> Links(w, key, |lines|, HashBefore(lines, |lines|), line);
  }

  // ----- Appending

  datatype Request = Request(timestamp: int, kind: string, actor: string, details: string, bytes: nat)

  /** The event Append builds from the tail it believes in. */
  function NextEvent(w: World, key: Key, last: Option<Event>, count: int, req: Request): Event
  {
    var body := Payload(count + 1, req.timestamp, req.kind, req.actor, req.details,
                        if last.Some? then last.value.hash else "");
    Event(body, w.digest(body, key), if key == [] then SCHEME_SHA256 else SCHEME_HMAC)
  }

  /** What the event says, and how it is signed: with the log's key if there is one. */
  ghost predicate Signed(w: World, key: Key, req: Request, event: Event)
  {
    && event.body.timestamp == req.timestamp && event.body.kind == req.kind
    && event.body.actor == req.actor && event.body.details == req.details
    && (key != [] ==> event.scheme == "hmac-sha256-v1" && event.hash == w.digest(event.body, key))
    && (key == [] ==> event.scheme == "sha256" && event.hash == w.digest(event.body, []))
  }

  lemma NextEventIsSigned(w: World, key: Key, last: Option<Event>, count: int, req: Request)
    ensures var event := NextEvent(w, key, last, count, req);
      && Signed(w, key, req, event)
      && event.body.sequence == count + 1
      && event.body.prevHash == if last.Some? then last.value.hash else ""
  {
  }

  /** The line as a later reader sees it: details have been through JSON once. */
  function WrittenLine(w: World, event: Event, bytes: nat): Line
  {
    var details := w.recode(event.body.details);
    if details.None? then Garbage(bytes)
    else Record(bytes, event.(body := event.body.(details := details.value)))
  }

  function LastEvent(lines: seq<Line>): Option<Event>
  {
    if |lines| > 0 && lines[|lines| - 1].Record? then Some(lines[|lines| - 1].event) else None
  }

  /** An appended line extends the chain exactly when its details survive decoding and re-encoding,
      whether this log is keyed like the verifier or not keyed at all. */
  lemma AppendVerifiesIffDetailsSurvive(w: World, key: Key, mine: Key, lines: seq<Line>, req: Request)
    requires Injective(w.digest)
    requires mine == [] || mine == key
    requires ChainOk(w, key, lines)
    ensures ChainOk(w, key, lines + [WrittenLine(w, NextEvent(w, mine, LastEvent(lines), |lines|, req), req.bytes)])
       <==> w.recode(req.details) == Some(req.details)
  {
    var event := NextEvent(w, mine, LastEvent(lines), |lines|, req);
    var line := WrittenLine(w, event, req.bytes);
    if |lines| > 0 {
      assert LinksAt(w, key, lines, |lines| - 1);
    }
    ChainExtends(w, key, lines, line);
    assert KeyForScheme(event.scheme, key) == Some(mine);
    if line.Record? && w.digest(event.body, mine) == w.digest(line.event.body, mine) {
      assert event.body == line.event.body;
    }
  }

  // ----- Checkpoint binding

  /** Equal up to the scheme label, which is not hashed: "" and "sha256" name the same scheme. */
  predicate SameRecord(a: Line, b: Line)
  {
    && a.Record? && b.Record?
    && a.event.body == b.event.body
    && a.event.hash == b.event.hash
    && (a.event.scheme == SCHEME_HMAC <==> b.event.scheme == SCHEME_HMAC)
  }

  /** A hash found in two verified files, at whatever positions, is at one position and fixes
      every record up to it. */
  lemma {:induction false} HashFixesPrefix(w: World, key: Key, a: seq<Line>, b: seq<Line>, i: nat, j: nat)
    requires Injective(w.digest)
    requires ChainOk(w, key, a) && ChainOk(w, key, b)
    requires i < |a| && j < |b|
    requires a[i].Record? && b[j].Record? && a[i].event.hash == b[j].event.hash
    ensures i == j
    ensures forall k :: 0 <= k <= i ==> SameRecord(a[k], b[k])
    decreases i
  {
    assert LinksAt(w, key, a, i) && LinksAt(w, key, b, j);
    assert a[i].event.body == b[j].event.body;
    assert SameRecord(a[i], b[j]);
    if i > 0 {
      assert LinksAt(w, key, a, i - 1) && LinksAt(w, key, b, j - 1);
      HashFixesPrefix(w, key, a, b, i - 1, j - 1);
    }
  }
}
