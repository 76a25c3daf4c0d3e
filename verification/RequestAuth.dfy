/**
  The HTTP request validator. One call reads the clock twice: once for the date skew, and once,
  after the body has been read and the signature checked, inside the nonce cache. Between the
  two readings other calls run.
 */
module RequestAuth {
  import opened Option
  import opened NonceCache
  import opened Text

  const SECOND: Time := 1_000_000_000
  const DEFAULT_SKEW: Time := 60 * SECOND
  const DEFAULT_TTL: Time := 300 * SECOND
  const DEFAULT_MAX_BODY: int := 0x10_0000
  const SIGNATURE_PREFIX := "HASP-HMAC-SHA256 sig="

  datatype Url = Url(escapedPath: string, rawQuery: string)

  datatype Body = NoBody | Body(contentLength: int, data: string, readFails: bool)

  // Header values as received; an absent header reads as "".
  datatype Request = Request(
    date: string, nonce: string, authorization: string, verb: string, url: Option<Url>, body: Body)

  datatype Error =
    | MissingDate | MalformedDate | DateSkewExceeded
    | MissingNonce | MalformedNonce
    | MissingAuthorization | MalformedAuthorization
    | BodyTooLarge | BodyUnreadable
    | InvalidSignature | NonceReplay

  datatype Outcome = Accepted | Rejected(error: Error)

  /** Time parsing, base64 and the digests, which this model does not open up. */
  datatype Foreign = Foreign(
    parseTime: string -> Option<Time>, decodeBase64: string -> Option<string>,
    digest: string -> string, mac: (string, string) -> string)

  function RequestTarget(url: Option<Url>): string
  {
    match url
    case None => ""
    case Some(u) =>
      var path := if u.escapedPath == "" then "/" else u.escapedPath;
      if u.rawQuery == "" then path else path + "?" + u.rawQuery
  }

  predicate HexDigit(c: char)
  {
    '0' <= c <= '9' || 'a' <= c <= 'f' || 'A' <= c <= 'F'
  }

  predicate NonceShape(nonce: string)
  {
    |nonce| == 32 && forall i :: 0 <= i < |nonce| ==> HexDigit(nonce[i])
  }

  function ParseAuthorization(f: Foreign, value: string): Option<string>
  {
    if !(SIGNATURE_PREFIX <= value) then None
    else
      var signature := TrimSpace(value[|SIGNATURE_PREFIX|..]);
      if signature == "" then None
      else
        var decoded := f.decodeBase64(signature);
        if decoded.Some? && |decoded.value| == 32 then decoded else None
  }

  datatype Hashed = Hash(hash: string) | HashError(error: Error)

  function BodyHash(f: Foreign, body: Body, maxBytes: int): Hashed
  {
    match body
    case NoBody => Hash(f.digest(""))
    case Body(contentLength, data, readFails) =>
      if contentLength > maxBytes || |data| > maxBytes then HashError(BodyTooLarge)
      else if readFails then HashError(BodyUnreadable)
      else Hash(f.digest(data))
  }

  /** What computeSignature signs. */
  function SignedText(date: string, nonce: string, verb: string, target: string, bodyHash: string): string
  {
    Join([date, nonce, verb, target, bodyHash], '\n')
  }

  /** The five fields can be read back from the signed text when none holds a newline, so a
      signature that fits two requests signs the same five fields. */
  lemma SignedTextBinds(a: seq<string>, b: seq<string>)
    requires |a| == |b| == 5
    requires forall i :: 0 <= i < 5 ==> Without(a[i], '\n') && Without(b[i], '\n')
    requires SignedText(a[0], a[1], a[2], a[3], a[4]) == SignedText(b[0], b[1], b[2], b[3], b[4])
    ensures a == b
  {
    assert a == [a[0], a[1], a[2], a[3], a[4]] && b == [b[0], b[1], b[2], b[3], b[4]];
    SplitJoin(a, '\n');
    SplitJoin(b, '\n');
  }

  predicate WithinSkew(date: Time, now: Time, skew: Time)
  {
    -skew <= date - now <= skew
  }

  /** Everything but the nonce's freshness. */
  predicate Authentic(f: Foreign, key: string, skew: Time, maxBody: int, req: Request, now: Time)
  {
    var date, nonce := TrimSpace(req.date), TrimSpace(req.nonce);
    var time := f.parseTime(date);
    var signature := ParseAuthorization(f, TrimSpace(req.authorization));
    var bodyHash := BodyHash(f, req.body, maxBody);
    && date != "" && time.Some? && WithinSkew(time.value, now, skew)
    && NonceShape(nonce)
    && bodyHash.Hash?
    && signature == Some(f.mac(key, SignedText(date, nonce, req.verb, RequestTarget(req.url), bodyHash.hash)))
  }

  // ----- What a signature covers

  /** The text of a body; no body reads as an empty one. */
  function BodyText(req: Request): string
  {
    if req.body.NoBody? then "" else req.body.data
  }

  /** The signature that the request carries. */
  function SignatureOf(f: Foreign, req: Request): Option<string>
  {
    ParseAuthorization(f, TrimSpace(req.authorization))
  }

  ghost predicate InjectiveDigests(f: Foreign, key: string)
  {
    && (forall a, b :: f.digest(a) == f.digest(b) ==> a == b)
    && (forall a, b :: f.mac(key, a) == f.mac(key, b) ==> a == b)
    && (forall a :: Without(f.digest(a), '\n'))
  }

  /** What HTTP lets into the fields: no newlines, and in an escaped path no question mark. */
  predicate OneLineFields(req: Request)
  {
    && Without(TrimSpace(req.date), '\n') && Without(req.verb, '\n')
    && (req.url.Some? ==>
          && Without(req.url.value.escapedPath, '\n') && Without(req.url.value.rawQuery, '\n')
          && Without(req.url.value.escapedPath, '?'))
  }

  /** Two requests that pass with one signature under one key are one request: the same date, nonce, verb, body,
      path (an empty one is "/") and query. */
  lemma SignatureCoversRequest(f: Foreign, key: string, skew: Time, maxBody: int, a: Request, b: Request,
                               at: Time, bt: Time)
    requires InjectiveDigests(f, key) && OneLineFields(a) && OneLineFields(b)
    requires Authentic(f, key, skew, maxBody, a, at) && Authentic(f, key, skew, maxBody, b, bt)
    requires SignatureOf(f, a) == SignatureOf(f, b)
    ensures TrimSpace(a.date) == TrimSpace(b.date) && TrimSpace(a.nonce) == TrimSpace(b.nonce)
    ensures a.verb == b.verb && BodyText(a) == BodyText(b)
    ensures a.url.Some? <==> b.url.Some?
    ensures a.url.Some? ==>
      && (if a.url.value.escapedPath == "" then "/" else a.url.value.escapedPath)
         == (if b.url.value.escapedPath == "" then "/" else b.url.value.escapedPath)
      && a.url.value.rawQuery == b.url.value.rawQuery
  {
    var one, two := SignedFields(f, a), SignedFields(f, b);
    AuthenticSigns(f, key, skew, maxBody, a, at);
    AuthenticSigns(f, key, skew, maxBody, b, bt);
    FieldsHoldNoNewline(f, a);
    FieldsHoldNoNewline(f, b);
    SignedTextBinds(one, two);
    assert one[4] == f.digest(BodyText(a)) && two[4] == f.digest(BodyText(b));
    assert one[0] == two[0] && one[1] == two[1] && one[2] == two[2] && one[3] == two[3];
    TargetBinds(a.url, b.url);
  }

  function SignedFields(f: Foreign, req: Request): (fields: seq<string>)
    ensures |fields| == 5
  {
    [TrimSpace(req.date), TrimSpace(req.nonce), req.verb, RequestTarget(req.url), f.digest(BodyText(req))]
  }

  lemma AuthenticSigns(f: Foreign, key: string, skew: Time, maxBody: int, req: Request, now: Time)
    requires Authentic(f, key, skew, maxBody, req, now)
    ensures var s := SignedFields(f, req);
      SignatureOf(f, req) == Some(f.mac(key, SignedText(s[0], s[1], s[2], s[3], s[4])))
    ensures NonceShape(TrimSpace(req.nonce))
  {
  }

  lemma FieldsHoldNoNewline(f: Foreign, req: Request)
    requires OneLineFields(req) && NonceShape(TrimSpace(req.nonce))
    requires forall a :: Without(f.digest(a), '\n')
    ensures forall i :: 0 <= i < 5 ==> Without(SignedFields(f, req)[i], '\n')
  {
    var s := SignedFields(f, req);
    assert Without(s[0], '\n') && Without(s[1], '\n') && Without(s[2], '\n') && Without(s[3], '\n');
    assert Without(s[4], '\n');
  }

  /** Path and query can be read back from the target. */
  lemma TargetBinds(a: Option<Url>, b: Option<Url>)
    requires a.Some? ==> Without(a.value.escapedPath, '?')
    requires b.Some? ==> Without(b.value.escapedPath, '?')
    requires RequestTarget(a) == RequestTarget(b)
    ensures a.Some? <==> b.Some?
    ensures a.Some? ==>
      && (if a.value.escapedPath == "" then "/" else a.value.escapedPath)
         == (if b.value.escapedPath == "" then "/" else b.value.escapedPath)
      && a.value.rawQuery == b.value.rawQuery
  {
    if a.Some? && b.Some? {
      TargetParts(a.value);
      TargetParts(b.value);
    }
  }

  lemma TargetParts(u: Url)
    requires Without(u.escapedPath, '?')
    ensures var path := if u.escapedPath == "" then "/" else u.escapedPath;
      var target := RequestTarget(Some(u));
      var i := IndexOf(target, '?');
      && target != "" && target[..i] == path
      && u.rawQuery == if i == |target| then "" else target[i + 1..]
  {
    var path := if u.escapedPath == "" then "/" else u.escapedPath;
    var target := RequestTarget(Some(u));
    if u.rawQuery == "" {
      assert IndexOf(target, '?') == |target|;
      assert target[..|target|] == target;
    } else {
      assert target == path + ("?" + u.rawQuery);
      IndexOfFirst(path, "?" + u.rawQuery, '?');
      assert target[..|path|] == path && target[|path| + 1..] == u.rawQuery;
    }
  }

  /** What a request must have to be authentic: a date within the skew, a nonce of 32 hexadecimal digits, a body that
      can be read and is not too large, and the signature, 32 bytes in base64, of what it sends. */
  lemma AuthenticDemands(f: Foreign, key: string, skew: Time, maxBody: int, req: Request, now: Time)
    requires Authentic(f, key, skew, maxBody, req, now)
    ensures TrimSpace(req.date) != "" && f.parseTime(TrimSpace(req.date)).Some?
    ensures var time := f.parseTime(TrimSpace(req.date)).value; time - skew <= now <= time + skew
    ensures var nonce := TrimSpace(req.nonce);
      |nonce| == 32 && forall i :: 0 <= i < 32 ==>
        '0' <= nonce[i] <= '9' || 'a' <= nonce[i] <= 'f' || 'A' <= nonce[i] <= 'F'
    ensures req.body.Body? ==>
      req.body.contentLength <= maxBody && |req.body.data| <= maxBody && !req.body.readFails
    ensures "HASP-HMAC-SHA256 sig=" <= TrimSpace(req.authorization)
    ensures var encoded := TrimSpace(TrimSpace(req.authorization)[21..]);
      var signed := TrimSpace(req.date) + "\n" + TrimSpace(req.nonce) + "\n" + req.verb + "\n"
                    + RequestTarget(req.url) + "\n" + f.digest(BodyText(req));
      && encoded != "" && f.decodeBase64(encoded) == Some(f.mac(key, signed)) && |f.mac(key, signed)| == 32
  {
    var date, nonce, target, hash :=
      TrimSpace(req.date), TrimSpace(req.nonce), RequestTarget(req.url), f.digest(BodyText(req));
    SignedTextIs(date, nonce, req.verb, target, hash);
    AuthenticSigns(f, key, skew, maxBody, req, now);
    PrefixIs();
    HeaderHolds(f, TrimSpace(req.authorization));
    hide TrimSpace, RequestTarget, SignedText, ParseAuthorization, SIGNATURE_PREFIX;
  }

  lemma PrefixIs()
    ensures SIGNATURE_PREFIX == "HASP-HMAC-SHA256 sig=" && |SIGNATURE_PREFIX| == 21
  {
  }

  lemma HeaderHolds(f: Foreign, value: string)
    ensures ParseAuthorization(f, value).Some? ==>
      && SIGNATURE_PREFIX <= value
      && var encoded := TrimSpace(value[|SIGNATURE_PREFIX|..]);
         && encoded != "" && f.decodeBase64(encoded) == ParseAuthorization(f, value)
         && |ParseAuthorization(f, value).value| == 32
  {
    hide TrimSpace;
  }

  /** A client that signs what it sends, as it sends it, in time, is authentic. */
  lemma HonestRequestIsAuthentic(f: Foreign, key: string, skew: Time, maxBody: int, req: Request, now: Time,
                                 time: Time, encoded: string)
    requires f.parseTime(TrimSpace(req.date)) == Some(time) && TrimSpace(req.date) != ""
    requires time - skew <= now <= time + skew
    requires |TrimSpace(req.nonce)| == 32 && forall i :: 0 <= i < 32 ==> HexDigit(TrimSpace(req.nonce)[i])
    requires req.body.Body? ==>
      req.body.contentLength <= maxBody && |req.body.data| <= maxBody && !req.body.readFails
    requires TrimSpace(req.authorization) == "HASP-HMAC-SHA256 sig=" + encoded && TrimSpace(encoded) != ""
    requires var signed := TrimSpace(req.date) + "\n" + TrimSpace(req.nonce) + "\n" + req.verb + "\n"
                           + RequestTarget(req.url) + "\n" + f.digest(BodyText(req));
      && f.decodeBase64(TrimSpace(encoded)) == Some(f.mac(key, signed)) && |f.mac(key, signed)| == 32
    ensures Authentic(f, key, skew, maxBody, req, now)
  {
    var date, nonce, target, hash :=
      TrimSpace(req.date), TrimSpace(req.nonce), RequestTarget(req.url), f.digest(BodyText(req));
    SignedTextIs(date, nonce, req.verb, target, hash);
    HeaderParts(f, encoded);
    hide TrimSpace, RequestTarget, SignedText, ParseAuthorization;
  }

  lemma SignedTextIs(date: string, nonce: string, verb: string, target: string, hash: string)
    ensures SignedText(date, nonce, verb, target, hash)
         == date + "\n" + nonce + "\n" + verb + "\n" + target + "\n" + hash
  {
    var all := [date, nonce, verb, target, hash];
    assert all[1..] == [nonce, verb, target, hash] && all[1..][1..] == [verb, target, hash];
    assert all[1..][1..][1..] == [target, hash] && all[1..][1..][1..][1..] == [hash];
    assert Join([target, hash], '\n') == target + "\n" + hash;
    assert Join([verb, target, hash], '\n') == verb + "\n" + (target + "\n" + hash);
    assert Join([nonce, verb, target, hash], '\n') == nonce + "\n" + (verb + "\n" + (target + "\n" + hash));
  }

  lemma HeaderParts(f: Foreign, encoded: string)
    requires TrimSpace(encoded) != ""
    requires f.decodeBase64(TrimSpace(encoded)).Some? && |f.decodeBase64(TrimSpace(encoded)).value| == 32
    ensures ParseAuthorization(f, "HASP-HMAC-SHA256 sig=" + encoded) == f.decodeBase64(TrimSpace(encoded))
  {
    hide TrimSpace;
    var value := SIGNATURE_PREFIX + encoded;
    assert SIGNATURE_PREFIX <= value && value[|SIGNATURE_PREFIX|..] == encoded;
  }

  /** The fault that a rejection names is the first there is. */
  predicate Explains(f: Foreign, key: string, skew: Time, maxBody: int, req: Request, now: Time, error: Error)
  {
    var date, nonce, auth := TrimSpace(req.date), TrimSpace(req.nonce), TrimSpace(req.authorization);
    var time := f.parseTime(date);
    var dated := date != "" && time.Some? && WithinSkew(time.value, now, skew);
    var counted := dated && NonceShape(nonce);
    var signed := counted && auth != "" && ParseAuthorization(f, auth).Some?;
    var tooLarge := req.body.Body? && (req.body.contentLength > maxBody || |req.body.data| > maxBody);
    var unreadable := req.body.Body? && req.body.readFails;
    match error
    case MissingDate => date == ""
    case MalformedDate => date != "" && time.None?
    case DateSkewExceeded => date != "" && time.Some? && !WithinSkew(time.value, now, skew)
    case MissingNonce => dated && nonce == ""
    case MalformedNonce => dated && nonce != "" && !NonceShape(nonce)
    case MissingAuthorization => counted && auth == ""
    case MalformedAuthorization => counted && auth != "" && ParseAuthorization(f, auth).None?
    case BodyTooLarge => signed && tooLarge
    case BodyUnreadable => signed && !tooLarge && unreadable
    case InvalidSignature => signed && !tooLarge && !unreadable && !Authentic(f, key, skew, maxBody, req, now)
    case NonceReplay => Authentic(f, key, skew, maxBody, req, now)
  }

  class Validator {
    const key: string
    const skew: Time
    const maxBody: int
    const nonces: Cache

    /** Unset or non-positive options take their defaults. */
    constructor (key: string, skew: Time, ttl: Time, maxBody: int)
      requires key != ""
      ensures this.key == key
      ensures this.skew > 0 && (skew > 0 ==> this.skew == skew) && (skew <= 0 ==> this.skew == DEFAULT_SKEW)
      ensures fresh(nonces) && nonces.entries == map[]
      ensures nonces.ttl > 0 && (ttl > 0 ==> nonces.ttl == ttl) && (ttl <= 0 ==> nonces.ttl == DEFAULT_TTL)
      ensures this.maxBody > 0 && (maxBody > 0 ==> this.maxBody == maxBody)
      ensures maxBody <= 0 ==> this.maxBody == DEFAULT_MAX_BODY
    {
      this.key := key;
      this.skew := if skew <= 0 then DEFAULT_SKEW else skew;
      this.maxBody := if maxBody <= 0 then DEFAULT_MAX_BODY else maxBody;
      this.nonces := new Cache(if ttl <= 0 then DEFAULT_TTL else ttl);
    }

    /** Accepts exactly the authentic requests with a fresh nonce. A request that is not authentic
        leaves the nonce cache as it was, so it cannot use up anybody's nonce. */
    method Validate(f: Foreign, req: Request, checkedAt: Time, rememberedAt: Time) returns (r: Outcome)
      requires maxBody > 0
      modifies nonces
      ensures !Authentic(f, key, skew, maxBody, req, checkedAt) ==>
        r.Rejected? && r.error != NonceReplay && nonces.entries == old(nonces.entries)
      ensures Authentic(f, key, skew, maxBody, req, checkedAt) ==>
        var o := Remembered(old(nonces.entries), nonces.ttl, TrimSpace(req.nonce), rememberedAt);
        nonces.entries == o.entries && r == if o.accepted then Accepted else Rejected(NonceReplay)
      ensures r.Rejected? ==> Explains(f, key, skew, maxBody, req, checkedAt, r.error)
    {
      var date := TrimSpace(req.date);
      if date == "" {
        return Rejected(MissingDate);
      }
      var time := f.parseTime(date);
      if time.None? {
        return Rejected(MalformedDate);
      }
      var drift := time.value - checkedAt;
      if drift > skew || drift < -skew {
        return Rejected(DateSkewExceeded);
      }
      var nonce := TrimSpace(req.nonce);
      if nonce == "" {
        return Rejected(MissingNonce);
      }
      if !NonceShape(nonce) {
        return Rejected(MalformedNonce);
      }
      var authorization := TrimSpace(req.authorization);
      if authorization == "" {
        return Rejected(MissingAuthorization);
      }
      var signature := ParseAuthorization(f, authorization);
      if signature.None? {
        return Rejected(MalformedAuthorization);
      }
      var bodyHash := BodyHash(f, req.body, maxBody);
      if bodyHash.HashError? {
        return Rejected(bodyHash.error);
      }
      var expected := f.mac(key, SignedText(date, nonce, req.verb, RequestTarget(req.url), bodyHash.hash));
      if signature.value != expected {
        return Rejected(InvalidSignature);
      }
      var accepted := nonces.Remember(nonce, rememberedAt);
      return if accepted then Accepted else Rejected(NonceReplay);
    }
  }

  /** There is no validator without a key. */
  method NewValidator(key: string, skew: Time, ttl: Time, maxBody: int) returns (v: Validator?)
    ensures v == null <==> key == ""
    ensures v != null ==> fresh(v) && fresh(v.nonces) && v.key == key && v.skew > 0 && v.nonces.entries == map[]
    ensures v != null && skew <= 0 && ttl <= 0 ==> v.skew == 60_000_000_000 && v.nonces.ttl == 300_000_000_000
    ensures v != null && maxBody <= 0 ==> v.maxBody == 1048576
  {
    if key == "" {
      return null;
    }
    v := new Validator(key, skew, ttl, maxBody);
  }

  // ----- Interleaved calls

  datatype Pending = Pending(date: Time, nonce: string, checkedAt: Time)

  datatype Accept = Accept(date: Time, nonce: string, checkedAt: Time, rememberedAt: Time)

  datatype Sys = Sys(clock: Time, entries: Entries, pending: map<nat, Pending>, accepts: seq<Accept>)

  datatype Step =
    | Check(id: nat, date: Time, nonce: string, at: Time)  // the skew and nonce checks pass
    | Drop(id: nat)                                        // a later check fails
    | Finish(id: nat, at: Time)                            // the nonce cache is asked

  /** The clock does not step back, and a call takes at most `delay` between its two readings. */
  predicate Enabled(skew: Time, delay: Time, s: Sys, step: Step)
  {
    match step
    case Check(id, date, nonce, at) =>
      s.clock <= at && id !in s.pending && WithinSkew(date, at, skew) && NonceShape(nonce)
    case Drop(id) => id in s.pending
    case Finish(id, at) => s.clock <= at && id in s.pending && at - s.pending[id].checkedAt <= delay
  }

  function Apply(ttl: Time, s: Sys, step: Step): Sys
    requires step.Drop? || step.Finish? ==> step.id in s.pending
  {
    match step
    case Check(id, date, nonce, at) => s.(clock := at, pending := s.pending[id := Pending(date, nonce, at)])
    case Drop(id) => s.(pending := s.pending - {id})
    case Finish(id, at) =>
      var p := s.pending[id];
      var o := Remembered(s.entries, ttl, p.nonce, at);
      Sys(at, o.entries, s.pending - {id},
          if o.accepted then s.accepts + [Accept(p.date, p.nonce, p.checkedAt, at)] else s.accepts)
  }

  ghost predicate IsRun(skew: Time, ttl: Time, delay: Time, states: seq<Sys>, steps: seq<Step>)
  {
    && |states| == |steps| + 1
    && states[0].entries == map[] && states[0].pending == map[] && states[0].accepts == []
    && forall i :: 0 <= i < |steps| ==>
         Enabled(skew, delay, states[i], steps[i]) && states[i + 1] == Apply(ttl, states[i], steps[i])
  }

  predicate NoReplay(s: Sys)
  {
    forall i, j :: 0 <= i < j < |s.accepts| ==>
      !(s.accepts[i].date == s.accepts[j].date && s.accepts[i].nonce == s.accepts[j].nonce)
  }

  /** What every state keeps. `asked` is the last time the cache was asked. */
  ghost predicate Inv(skew: Time, ttl: Time, delay: Time, s: Sys, asked: Time)
  {
    && asked <= s.clock
    && (forall id :: id in s.pending ==>
          s.pending[id].checkedAt <= s.clock && WithinSkew(s.pending[id].date, s.pending[id].checkedAt, skew))
    && (forall a :: a in s.accepts ==>
          && WithinSkew(a.date, a.checkedAt, skew)
          && a.checkedAt <= a.rememberedAt <= asked
          && a.rememberedAt - a.checkedAt <= delay
          && (a.rememberedAt >= asked - ttl ==> a.nonce in s.entries && s.entries[a.nonce] >= a.rememberedAt))
  }

  lemma StepIsSafe(skew: Time, ttl: Time, delay: Time, s: Sys, step: Step, asked: Time) returns (asked': Time)
    requires ttl > 0 && ttl >= 2 * skew + delay
    requires Enabled(skew, delay, s, step)
    requires Inv(skew, ttl, delay, s, asked) && NoReplay(s)
    ensures Inv(skew, ttl, delay, Apply(ttl, s, step), asked') && NoReplay(Apply(ttl, s, step))
  {
    asked' := asked;
    if step.Finish? {
      var t := Apply(ttl, s, step);
      asked' := step.at;
      var p := s.pending[step.id];
      forall a | a in s.accepts && a.date == p.date && a.nonce == p.nonce
        ensures t.accepts == s.accepts
      {
        assert a.rememberedAt >= step.at - ttl;
      }
    }
  }

  lemma {:induction false} RunIsSafe(
    skew: Time, ttl: Time, delay: Time, states: seq<Sys>, steps: seq<Step>, n: nat) returns (asked: Time)
    requires ttl > 0 && ttl >= 2 * skew + delay
    requires IsRun(skew, ttl, delay, states, steps) && n <= |steps|
    ensures Inv(skew, ttl, delay, states[n], asked) && NoReplay(states[n])
  {
    if n == 0 {
      asked := states[0].clock;
    } else {
      asked := RunIsSafe(skew, ttl, delay, states, steps, n - 1);
      asked := StepIsSafe(skew, ttl, delay, states[n - 1], steps[n - 1], asked);
    }
  }

  /** An authentic request can take the two steps, whatever other calls do between them, and Validate answers
      what the second does. */
  lemma ValidateTakesTwoSteps(f: Foreign, key: string, skew: Time, ttl: Time, delay: Time, maxBody: int, req: Request,
                              s: Sys, id: nat, checkedAt: Time, t: Sys, rememberedAt: Time)
    requires Authentic(f, key, skew, maxBody, req, checkedAt)
    requires s.clock <= checkedAt && id !in s.pending
    requires t.clock <= rememberedAt && rememberedAt - checkedAt <= delay
    requires id in t.pending && t.pending[id] == Apply(ttl, s, CheckOf(f, req, id, checkedAt)).pending[id]
    ensures Enabled(skew, delay, s, CheckOf(f, req, id, checkedAt))
    ensures Enabled(skew, delay, t, Finish(id, rememberedAt))
    ensures var o := Remembered(t.entries, ttl, TrimSpace(req.nonce), rememberedAt);
      var u := Apply(ttl, t, Finish(id, rememberedAt));
      && u.entries == o.entries
      && u.accepts == t.accepts
         + (if o.accepted then [Accept(DateOf(f, req), TrimSpace(req.nonce), checkedAt, rememberedAt)] else [])
  {
  }

  function DateOf(f: Foreign, req: Request): Time
    requires f.parseTime(TrimSpace(req.date)).Some?
  {
    f.parseTime(TrimSpace(req.date)).value
  }

  function CheckOf(f: Foreign, req: Request, id: nat, at: Time): Step
    requires f.parseTime(TrimSpace(req.date)).Some?
  {
    Check(id, DateOf(f, req), TrimSpace(req.nonce), at)
  }

  const SOME_NONCE := "00000000000000000000000000000000"

  lemma SomeNonceIsWellFormed()
    ensures NonceShape(SOME_NONCE)
  {
  }

  /** A request dated `skew` ahead, sent at once and again when its date is `skew` behind. */
  lemma SlowReplay(skew: Time, ttl: Time, delay: Time) returns (states: seq<Sys>, steps: seq<Step>)
    requires skew >= 0 && ttl > 0 && delay >= 0
    requires ttl < 2 * skew + delay
    ensures IsRun(skew, ttl, delay, states, steps)
    ensures !NoReplay(states[|steps|])
  {
    SomeNonceIsWellFormed();
    states, steps := SlowReplayOf(skew, ttl, delay, SOME_NONCE);
  }

  lemma FirstUse(ttl: Time, nonce: string, now: Time)
    ensures Remembered(map[], ttl, nonce, now) == NonceCache.Outcome(map[nonce := now], true)
  {
    assert Evict(map[], now - ttl) == map[];
  }

  lemma UseAgain(ttl: Time, nonce: string, was: Time, now: Time)
    requires was < now - ttl
    ensures Remembered(map[nonce := was], ttl, nonce, now) == NonceCache.Outcome(map[nonce := now], true)
  {
    assert Evict(map[nonce := was], now - ttl) == map[];
  }

  lemma SlowReplayOf(skew: Time, ttl: Time, delay: Time, nonce: string) returns (states: seq<Sys>, steps: seq<Step>)
    requires skew >= 0 && ttl > 0 && delay >= 0 && NonceShape(nonce)
    requires ttl < 2 * skew + delay
    ensures IsRun(skew, ttl, delay, states, steps)
    ensures !NoReplay(states[|steps|])
  {
    var late := 2 * skew;
    FirstUse(ttl, nonce, 0);
    UseAgain(ttl, nonce, 0, late + delay);
    hide NonceShape, Remembered, Evict;
    steps := [Check(0, skew, nonce, 0), Finish(0, 0), Check(1, skew, nonce, late), Finish(1, late + delay)];
    var s0 := Sys(0, map[], map[], []);
    var s1 := Apply(ttl, s0, steps[0]);
    var s2 := Apply(ttl, s1, steps[1]);
    assert s2.accepts == [Accept(skew, nonce, 0, 0)];
    var s3 := Apply(ttl, s2, steps[2]);
    var s4 := Apply(ttl, s3, steps[3]);
    assert s4.accepts == [Accept(skew, nonce, 0, 0), Accept(skew, nonce, late, late + delay)];
    assert s4.accepts[0].date == s4.accepts[1].date;
    states := [s0, s1, s2, s3, s4];
  }

  /** No date and nonce is accepted twice in any run, exactly when the nonces outlive the widest gap
      between two acceptable uses of one date. */
  lemma ReplayBoundIsTight(skew: Time, ttl: Time, delay: Time)
    requires skew >= 0 && ttl > 0 && delay >= 0
    ensures (forall states, steps :: IsRun(skew, ttl, delay, states, steps) ==> NoReplay(states[|steps|]))
       <==> ttl >= 2 * skew + delay
  {
    if ttl >= 2 * skew + delay {
      forall states, steps | IsRun(skew, ttl, delay, states, steps)
        ensures NoReplay(states[|steps|])
      {
        var _ := RunIsSafe(skew, ttl, delay, states, steps, |steps|);
      }
    } else {
      var states, steps := SlowReplay(skew, ttl, delay);
    }
  }

  /** The defaults tolerate three minutes between the two clock readings, and not a nanosecond more. */
  lemma DefaultsAllowThreeMinutes(delay: Time)
    requires delay >= 0
    ensures (forall states, steps ::
               IsRun(DEFAULT_SKEW, DEFAULT_TTL, delay, states, steps) ==> NoReplay(states[|steps|]))
       <==> delay <= 180 * SECOND
  {
    ReplayBoundIsTight(DEFAULT_SKEW, DEFAULT_TTL, delay);
  }
}
