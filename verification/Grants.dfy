/**
  The authorization loops of the broker. The store behind them is arbitrary: what its k-th
  answer is may depend on anything, so it is given as a function of k.
 */
module Grants {
  import opened Option

  // Scopes and requirements are strings in the source; "" is no scope.
  type Scope = string
  type Requirement = string

  const WINDOW: Scope := "window"
  const PROJECT_LEASE: Requirement := "project_lease"
  const PROJECT_AND_CONVENIENCE: Requirement := "project_and_convenience"
  const CONVENIENCE: Requirement := "convenience"
  const SECRET_GRANT: Requirement := "secret_grant"
  const POLICY_ACCESS := "access"

  datatype Operation = List | Run | Inject | WriteEnv | Capture

  datatype Item = Item(name: string, isFile: bool, policy: string, value: string)

  datatype Access = Access(reference: string, operation: Operation)

  datatype Request = Request(
    operation: Operation, itemName: string, policy: string, aliases: seq<string>, destination: string)

  // `requirement` is what RequiredAction returns.
  datatype Decision = Decision(allowed: bool, requiresPrompt: bool, requirement: Requirement)

  datatype BatchReply = BatchError | Decisions(ds: seq<Decision>)

  datatype Store = Store(
    resolve: (nat, string) -> Option<string>,   // the i-th reference to an item name
    getItem: (nat, string) -> Option<Item>,
    batch: (nat, seq<Request>) -> BatchReply,         // the k-th AuthorizeBatchAndConsume
    authorize: (nat, Request) -> Decision,            // the k-th Authorize
    consume: (nat, Request) -> Option<Decision>,      // the k-th AuthorizeAndConsume
    mints: (nat, Mint) -> bool)                       // whether the k-th grant call succeeds

  datatype Mint =
    | ProjectLease(scope: Scope)
    | SecretUse(item: string, scope: Scope, relaxed: bool)
    | Convenience(destination: string, aliases: seq<string>, scope: Scope)

  // Crashed: a batch reply with more decisions than requests, the first denied one beyond them, is indexed out
  // of range.
  datatype Result<T> = Ok(value: T) | Denied | Crashed

  // ----- Resolution

  /** Item i is what the store holds under the name that reference i resolved to. */
  predicate Resolves(store: Store, i: nat, access: Access, item: Item)
  {
    var name := store.resolve(i, access.reference);
    name.Some? && store.getItem(i, name.value) == Some(item) && !(access.operation.Run? && item.isFile)
  }

  predicate AllResolve(store: Store, refs: seq<Access>, items: seq<Item>)
  {
    |items| == |refs| && forall i :: 0 <= i < |refs| ==> Resolves(store, i, refs[i], items[i])
  }

  function RequestFor(access: Access, item: Item): Request
  {
    Request(access.operation, item.name, item.policy, [access.reference], "")
  }

  /** One request per reference, or a single list request when there are none. */
  function Requests(refs: seq<Access>, items: seq<Item>): (rs: seq<Request>)
    requires |refs| == |items|
    ensures rs != [] && (refs != [] ==> |rs| == |refs|) && (refs == [] ==> |rs| == 1)
  {
    if refs == [] then [Request(List, "", "", [], "")]
    else seq(|refs|, i requires 0 <= i < |refs| => RequestFor(refs[i], items[i]))
  }

  function ItemNames(requests: seq<Request>): set<string>
  {
    set r | r in requests :: r.itemName
  }

  // ----- What a batch reply asks for

  predicate AllAllowed(reply: BatchReply)
  {
    reply.Decisions? && forall i :: 0 <= i < |reply.ds| ==> reply.ds[i].allowed
  }

  predicate FirstDenied(ds: seq<Decision>, i: nat)
  {
    i < |ds| && !ds[i].allowed && forall j :: 0 <= j < i ==> ds[j].allowed
  }

  /** The grant that a denied request calls for, when the caller gave a scope for it. */
  function Demand(d: Decision, r: Request, projectGrant: Scope, secretGrant: Scope): Option<Mint>
  {
    if d.allowed || !d.requiresPrompt then None
    else if d.requirement == PROJECT_LEASE && projectGrant != "" then Some(ProjectLease(projectGrant))
    else if d.requirement == SECRET_GRANT && secretGrant != "" then
      Some(SecretUse(r.itemName, secretGrant, r.policy == POLICY_ACCESS && secretGrant == WINDOW))
    else None
  }

  ghost predicate Demanded(reply: BatchReply, requests: seq<Request>, projectGrant: Scope, secretGrant: Scope,
                           mint: Mint)
  {
    && reply.Decisions?
    && exists i :: 0 <= i < |requests| && i < |reply.ds| && FirstDenied(reply.ds, i)
         && Demand(reply.ds[i], requests[i], projectGrant, secretGrant) == Some(mint)
  }

  // ----- The keys of the loop's `granted` map

  function GrantKey(d: Decision, r: Request): string
  {
    if d.requirement == SECRET_GRANT then d.requirement + ":" + r.itemName else d.requirement
  }

  function MintKey(mint: Mint): string
  {
    match mint
    case ProjectLease(_) => PROJECT_LEASE
    case SecretUse(item, _, _) => SECRET_GRANT + ":" + item
    case Convenience(_, _, _) => CONVENIENCE
  }

  function SecretKeys(names: set<string>): set<string>
  {
    set n | n in names :: SECRET_GRANT + ":" + n
  }

  /** The keys keep apart what the source keeps apart: one lease, and one secret grant for each item. */
  lemma KeysMean(a: Mint, b: Mint)
    ensures MintKey(a) == MintKey(b) <==>
      || (a.ProjectLease? && b.ProjectLease?)
      || (a.SecretUse? && b.SecretUse? && a.item == b.item)
      || (a.Convenience? && b.Convenience?)
  {
    RequirementsDiffer();
    forall m: Mint | m == a || m == b
      ensures m.SecretUse? ==> MintKey(m)[0] == 's' && MintKey(m)[13..] == m.item
      ensures !m.SecretUse? ==> MintKey(m)[0] != 's'
    {
    }
  }

  predicate DistinctKeys(mints: seq<Mint>)
  {
    forall i, j :: 0 <= i < j < |mints| ==> MintKey(mints[i]) != MintKey(mints[j])
  }

  lemma {:induction false} ImageIsNoLarger(names: set<string>)
    ensures |SecretKeys(names)| <= |names|
    decreases names
  {
    if names != {} {
      var n :| n in names;
      ImageIsNoLarger(names - {n});
      assert SecretKeys(names) == SecretKeys(names - {n}) + {SECRET_GRANT + ":" + n};
    }
  }

  lemma {:induction false} DistinctKeysFit(mints: seq<Mint>, keys: set<string>)
    requires DistinctKeys(mints)
    requires forall i :: 0 <= i < |mints| ==> MintKey(mints[i]) in keys
    ensures |mints| <= |keys|
  {
    if mints != [] {
      var last := MintKey(mints[|mints| - 1]);
      DistinctKeysFit(mints[..|mints| - 1], keys - {last});
    }
  }

  /** A lease and one secret grant per item name are all that can be minted. */
  lemma MintsAreBounded(mints: seq<Mint>, names: set<string>)
    requires DistinctKeys(mints)
    requires forall i :: 0 <= i < |mints| ==>
      MintKey(mints[i]) == PROJECT_LEASE || MintKey(mints[i]) in SecretKeys(names)
    ensures |mints| <= 1 + |names|
  {
    DistinctKeysFit(mints, {PROJECT_LEASE} + SecretKeys(names));
    ImageIsNoLarger(names);
  }

  // ----- AuthorizeReferences

  method ResolveAll(store: Store, refs: seq<Access>) returns (r: Result<seq<Item>>)
    ensures r.Ok? ==> AllResolve(store, refs, r.value)
    ensures !r.Ok? ==> r.Denied? && !exists items :: AllResolve(store, refs, items)
  {
    var items := [];
    while |items| < |refs|
      invariant |items| <= |refs|
      invariant forall i :: 0 <= i < |items| ==> Resolves(store, i, refs[i], items[i])
    {
      var i := |items|;
      var name := store.resolve(i, refs[i].reference);
      if name.None? {
        return Denied;
      }
      var item := store.getItem(i, name.value);
      if item.None? || (refs[i].operation.Run? && item.value.isFile) {
        return Denied;
      }
      items := items + [item.value];
    }
    return Ok(items);
  }

  /** The first denied decision answers no request. */
  ghost predicate Overruns(reply: BatchReply, n: nat)
  {
    reply.Decisions? && exists i :: n <= i < |reply.ds| && FirstDenied(reply.ds, i)
  }

  /** Why batch reply k ends the loop without success, given what had been minted before: the call failed, or the
      first denied request asks for nothing that can be minted, or for what was minted already. */
  ghost predicate Stops(reply: BatchReply, requests: seq<Request>, projectGrant: Scope, secretGrant: Scope,
                        mints: seq<Mint>)
  {
    || reply.BatchError?
    || exists i :: 0 <= i < |requests| && i < |reply.ds| && FirstDenied(reply.ds, i)
         && var demand := Demand(reply.ds[i], requests[i], projectGrant, secretGrant);
            demand.None? || KeyMinted(mints, MintKey(demand.value))
  }

  /** A refused loop: its last grant call failed, or its last batch reply could not be met. */
  ghost predicate LoopRefused(store: Store, requests: seq<Request>, projectGrant: Scope, secretGrant: Scope,
                              calls: nat, mints: seq<Mint>)
  {
    && 0 < calls && |mints| <= calls <= |mints| + 1
    && if |mints| == calls then !store.mints(calls - 1, mints[calls - 1])
       else Stops(store.batch(calls - 1, requests), requests, projectGrant, secretGrant, mints)
  }

  /** Of the first n batch replies none allows everything, but the last one does if `ok`. */
  predicate OnlyLastAllows(store: Store, requests: seq<Request>, n: nat, ok: bool)
  {
    forall k :: 0 <= k < n ==> (AllAllowed(store.batch(k, requests)) <==> ok && k == n - 1)
  }

  /** Every grant call but possibly the last, of a loop that was refused for it, succeeded. */
  predicate MintsSucceed(store: Store, mints: seq<Mint>, calls: nat)
  {
    forall k :: 0 <= k < |mints| && k < calls - 1 ==> store.mints(k, mints[k])
  }

  /** The requests are those of the references, one each: the operation, the item resolved from the reference, its
      policy, and the reference as alias. Without references there is one list request. */
  predicate Asks(refs: seq<Access>, items: seq<Item>, requests: seq<Request>)
    requires |items| == |refs|
  {
    if refs == [] then requests == [Request(List, "", "", [], "")]
    else
      && |requests| == |refs|
      && forall i :: 0 <= i < |refs| ==>
           && requests[i].operation == refs[i].operation && requests[i].aliases == [refs[i].reference]
           && requests[i].itemName == items[i].name && requests[i].policy == items[i].policy
           && requests[i].destination == ""
  }

  /** A grant is what the first denied decision calls for, in a scope that the caller gave for it. */
  ghost predicate CalledFor(reply: BatchReply, requests: seq<Request>, projectGrant: Scope, secretGrant: Scope,
                            mint: Mint)
  {
    && reply.Decisions?
    && exists i :: 0 <= i < |requests| && i < |reply.ds| && FirstDenied(reply.ds, i)
         && reply.ds[i].requiresPrompt
         && match mint
            case ProjectLease(scope) =>
              reply.ds[i].requirement == "project_lease" && scope == projectGrant && scope != ""
            case SecretUse(item, scope, relaxed) =>
              && reply.ds[i].requirement == "secret_grant" && scope == secretGrant && scope != ""
              && item == requests[i].itemName
              && (relaxed <==> requests[i].policy == "access" && scope == "window")
            case Convenience(_, _, _) => false
  }

  ghost predicate EachCalledFor(store: Store, requests: seq<Request>, projectGrant: Scope, secretGrant: Scope,
                                mints: seq<Mint>)
  {
    forall k :: 0 <= k < |mints| ==>
      CalledFor(store.batch(k, requests), requests, projectGrant, secretGrant, mints[k])
  }

  /** When a denied request can be helped, and how. */
  lemma DemandMeans(d: Decision, r: Request, projectGrant: Scope, secretGrant: Scope)
    ensures var demand := Demand(d, r, projectGrant, secretGrant);
      && (demand.Some? <==>
            && !d.allowed && d.requiresPrompt
            && ((d.requirement == "project_lease" && projectGrant != "")
                || (d.requirement == "secret_grant" && secretGrant != "")))
      && (demand.Some? && d.requirement == "project_lease" ==> demand.value == ProjectLease(projectGrant))
      && (demand.Some? && d.requirement == "secret_grant" ==>
            demand.value == SecretUse(r.itemName, secretGrant, r.policy == "access" && secretGrant == "window"))
  {
    assert PROJECT_LEASE[0] == 'p' && SECRET_GRANT[0] == 's';
  }

  lemma DemandedIsCalledFor(reply: BatchReply, requests: seq<Request>, projectGrant: Scope, secretGrant: Scope,
                            mint: Mint)
    requires Demanded(reply, requests, projectGrant, secretGrant, mint)
    ensures CalledFor(reply, requests, projectGrant, secretGrant, mint)
  {
    var i :| 0 <= i < |requests| && i < |reply.ds| && FirstDenied(reply.ds, i)
      && Demand(reply.ds[i], requests[i], projectGrant, secretGrant) == Some(mint);
    DemandMeans(reply.ds[i], requests[i], projectGrant, secretGrant);
    hide Demand;
  }

  lemma EachIsCalledFor(store: Store, requests: seq<Request>, projectGrant: Scope, secretGrant: Scope, mints: seq<Mint>)
    requires EachDemanded(store, requests, projectGrant, secretGrant, mints)
    ensures EachCalledFor(store, requests, projectGrant, secretGrant, mints)
  {
    hide Demanded, CalledFor;
    forall k | 0 <= k < |mints|
      ensures CalledFor(store.batch(k, requests), requests, projectGrant, secretGrant, mints[k])
    {
      DemandedIsCalledFor(store.batch(k, requests), requests, projectGrant, secretGrant, mints[k]);
    }
  }

  /** What the calls that were made with these requests account for, whatever the store. There is a batch reply that
      allows everything exactly on success, and it is the last; the last reply overruns the requests exactly on a
      crash; and a refusal has a reason. Each grant was called for by its own batch reply, no key was granted
      twice, and the calls are bounded. */
  ghost predicate Accounts(store: Store, requests: seq<Request>, projectGrant: Scope, secretGrant: Scope,
                           ok: bool, crashed: bool, calls: nat, mints: seq<Mint>)
  {
    && (ok ==> calls > 0 && AllAllowed(store.batch(calls - 1, requests)))
    && (crashed <==> calls > 0 && Overruns(store.batch(calls - 1, requests), |requests|))
    && (!ok && !crashed && calls > 0 ==> LoopRefused(store, requests, projectGrant, secretGrant, calls, mints))
    && OnlyLastAllows(store, requests, calls, ok)
    && |mints| <= calls <= |mints| + 1 && DistinctKeys(mints) && MintsSucceed(store, mints, calls)
    && calls <= 2 + |ItemNames(requests)|
    && EachCalledFor(store, requests, projectGrant, secretGrant, mints)
  }

  /** Calls are made exactly when every reference resolves, and with the requests of the references. */
  ghost predicate MadeFor(store: Store, refs: seq<Access>, requests: seq<Request>, calls: nat)
  {
    && (calls > 0 <==> exists items :: AllResolve(store, refs, items))
    && forall items :: AllResolve(store, refs, items) ==> Asks(refs, items, requests)
  }

  /** A batch call that allows everything also spends the one-shot grants. */
  method AuthorizeReferences(store: Store, refs: seq<Access>, projectGrant: Scope, secretGrant: Scope)
    returns (r: Result<seq<Item>>, requests: seq<Request>, calls: nat, mints: seq<Mint>)
    ensures r.Ok? ==> AllResolve(store, refs, r.value)
    ensures MadeFor(store, refs, requests, calls)
    ensures Accounts(store, requests, projectGrant, secretGrant, r.Ok?, r.Crashed?, calls, mints)
  {
    var resolved := ResolveAll(store, refs);
    if resolved.Denied? {
      return Denied, [], 0, [];
    }
    var items := resolved.value;
    ResolutionIsUnique(store, refs, items);
    RequestsAsk(refs, items);
    hide AllResolve, Overruns, AllAllowed, LoopRefused, OnlyLastAllows, DistinctKeys, MintsSucceed,
      EachDemanded, EachCalledFor, ItemNames, Asks;
    requests := Requests(refs, items);
    r, calls, mints := GrantLoop(store, requests, items, projectGrant, secretGrant);
    EachIsCalledFor(store, requests, projectGrant, secretGrant, mints);
  }

  lemma RequestsAsk(refs: seq<Access>, items: seq<Item>)
    requires |items| == |refs|
    ensures Asks(refs, items, Requests(refs, items))
  {
  }

  lemma ResolutionIsUnique(store: Store, refs: seq<Access>, items: seq<Item>)
    requires AllResolve(store, refs, items)
    ensures forall other :: AllResolve(store, refs, other) ==> other == items
  {
    forall other | AllResolve(store, refs, other)
      ensures other == items
    {
      forall i | 0 <= i < |refs|
        ensures other[i] == items[i]
      {
        assert Resolves(store, i, refs[i], items[i]) && Resolves(store, i, refs[i], other[i]);
      }
    }
  }

  method FindDenied(ds: seq<Decision>) returns (pending: Option<nat>)
    ensures pending.Some? ==> FirstDenied(ds, pending.value)
    ensures pending.None? ==> AllAllowed(Decisions(ds))
  {
    for i := 0 to |ds|
      invariant forall j :: 0 <= j < i ==> ds[j].allowed
    {
      if !ds[i].allowed {
        return Some(i);
      }
    }
    return None;
  }

  /** The switch on the required action: at most one grant call, the k-th. */
  method Grant(store: Store, decision: Decision, request: Request, projectGrant: Scope, secretGrant: Scope, k: nat)
    returns (mint: Option<Mint>, done: bool)
    requires !decision.allowed && decision.requiresPrompt
    ensures mint == Demand(decision, request, projectGrant, secretGrant)
    ensures done <==> mint.Some? && store.mints(k, mint.value)
  {
    if decision.requirement == PROJECT_LEASE {
      if projectGrant == "" {
        return None, false;
      }
      var lease := ProjectLease(projectGrant);
      return Some(lease), store.mints(k, lease);
    }
    if decision.requirement == SECRET_GRANT {
      if secretGrant == "" {
        return None, false;
      }
      var relaxed := request.policy == POLICY_ACCESS && secretGrant == WINDOW;
      var use := SecretUse(request.itemName, secretGrant, relaxed);
      return Some(use), store.mints(k, use);
    }
    return None, false;
  }

  lemma KeyIsKnown(d: Decision, requests: seq<Request>, i: nat, projectGrant: Scope, secretGrant: Scope)
    requires i < |requests|
    ensures var mint := Demand(d, requests[i], projectGrant, secretGrant);
      mint.Some? ==>
        && MintKey(mint.value) == GrantKey(d, requests[i])
        && (MintKey(mint.value) == PROJECT_LEASE || MintKey(mint.value) in SecretKeys(ItemNames(requests)))
  {
    assert requests[i].itemName in ItemNames(requests);
  }

  /** Some demand was made by the k-th batch call. */
  ghost predicate EachDemanded(store: Store, requests: seq<Request>, projectGrant: Scope, secretGrant: Scope,
                               mints: seq<Mint>)
  {
    forall k :: 0 <= k < |mints| ==> Demanded(store.batch(k, requests), requests, projectGrant, secretGrant, mints[k])
  }

  predicate KeyMinted(mints: seq<Mint>, key: string)
  {
    exists k :: 0 <= k < |mints| && MintKey(mints[k]) == key
  }

  ghost predicate KeysAre(mints: seq<Mint>, granted: set<string>)
  {
    forall key :: key in granted <==> KeyMinted(mints, key)
  }

  lemma MintedGrows(mints: seq<Mint>, mint: Mint, granted: set<string>)
    requires KeysAre(mints, granted) && DistinctKeys(mints) && MintKey(mint) !in granted
    ensures KeysAre(mints + [mint], granted + {MintKey(mint)}) && DistinctKeys(mints + [mint])
  {
    var longer := mints + [mint];
    forall i | 0 <= i < |mints|
      ensures MintKey(mints[i]) != MintKey(mint)
    {
      assert KeyMinted(mints, MintKey(mints[i]));
    }
    forall key
      ensures key in granted + {MintKey(mint)} <==> KeyMinted(longer, key)
    {
      if KeyMinted(mints, key) {
        var k :| 0 <= k < |mints| && MintKey(mints[k]) == key;
        assert longer[k] == mints[k];
      }
      if key == MintKey(mint) {
        assert longer[|mints|] == mint;
      }
      if KeyMinted(longer, key) {
        var k :| 0 <= k < |longer| && MintKey(longer[k]) == key;
        assert k < |mints| ==> KeyMinted(mints, key);
      }
    }
  }

  datatype Round = AllGranted | Refused | Overrun | Minted(mint: Mint, done: bool)

  lemma OneFirstDenied(ds: seq<Decision>, i: nat, n: nat)
    requires FirstDenied(ds, i)
    ensures Overruns(Decisions(ds), n) <==> n <= i
    ensures !AllAllowed(Decisions(ds))
  {
    assert !ds[i].allowed;
    assert forall j: nat :: FirstDenied(ds, j) ==> j == i;
  }

  /** One turn of the loop: the k-th batch call and, if it asks for a new grant, the k-th grant call. */
  method TakeRound(store: Store, requests: seq<Request>, granted: set<string>, projectGrant: Scope,
                   secretGrant: Scope, k: nat,
                   ghost mints: seq<Mint>)
    returns (round: Round)
    requires KeysAre(mints, granted)
    ensures round.AllGranted? <==> AllAllowed(store.batch(k, requests))
    ensures round.Overrun? <==> Overruns(store.batch(k, requests), |requests|)
    ensures round.Refused? ==> Stops(store.batch(k, requests), requests, projectGrant, secretGrant, mints)
    ensures round.Minted? ==> round.done == store.mints(k, round.mint)
    ensures round.Minted? ==>
      && Demanded(store.batch(k, requests), requests, projectGrant, secretGrant, round.mint)
      && MintKey(round.mint) !in granted
      && MintKey(round.mint) in LoopKeys(requests)
  {
    var reply := store.batch(k, requests);
    if reply.BatchError? {
      return Refused;
    }
    var pending := FindDenied(reply.ds);
    if pending.None? {
      return AllGranted;
    }
    OneFirstDenied(reply.ds, pending.value, |requests|);
    if pending.value >= |requests| {
      return Overrun;
    }
    var decision, request := reply.ds[pending.value], requests[pending.value];
    if !decision.requiresPrompt || GrantKey(decision, request) in granted {
      return Refused;
    }
    var mint, done := Grant(store, decision, request, projectGrant, secretGrant, k);
    KeyIsKnown(decision, requests, pending.value, projectGrant, secretGrant);
    return if mint.None? then Refused else Minted(mint.value, done);
  }

  /** The keys that the loop can grant. */
  function LoopKeys(requests: seq<Request>): set<string>
  {
    {PROJECT_LEASE} + SecretKeys(ItemNames(requests))
  }

  /** What the loop keeps: what it minted was demanded, each key once, and `granted` remembers the keys. */
  ghost predicate SoFar(store: Store, requests: seq<Request>, projectGrant: Scope, secretGrant: Scope,
                        mints: seq<Mint>, granted: set<string>)
  {
    && EachDemanded(store, requests, projectGrant, secretGrant, mints)
    && KeysAre(mints, granted) && DistinctKeys(mints) && granted <= LoopKeys(requests)
  }

  lemma SoFarGrows(store: Store, requests: seq<Request>, projectGrant: Scope, secretGrant: Scope,
                   mints: seq<Mint>, granted: set<string>, mint: Mint)
    requires SoFar(store, requests, projectGrant, secretGrant, mints, granted)
    requires Demanded(store.batch(|mints|, requests), requests, projectGrant, secretGrant, mint)
    requires MintKey(mint) !in granted && MintKey(mint) in LoopKeys(requests)
    ensures SoFar(store, requests, projectGrant, secretGrant, mints + [mint], granted + {MintKey(mint)})
  {
    hide Demanded, LoopKeys;
    MintedGrows(mints, mint, granted);
    hide KeysAre, DistinctKeys;
  }

  lemma SoFarBounds(store: Store, requests: seq<Request>, projectGrant: Scope, secretGrant: Scope,
                    mints: seq<Mint>, granted: set<string>)
    requires SoFar(store, requests, projectGrant, secretGrant, mints, granted)
    ensures EachDemanded(store, requests, projectGrant, secretGrant, mints)
    ensures KeysAre(mints, granted) && DistinctKeys(mints) && granted <= LoopKeys(requests)
    ensures |mints| <= 1 + |ItemNames(requests)|
  {
    KeysBoundMints(mints, granted, ItemNames(requests));
  }

  method GrantLoop(store: Store, requests: seq<Request>, items: seq<Item>, projectGrant: Scope, secretGrant: Scope)
    returns (r: Result<seq<Item>>, calls: nat, mints: seq<Mint>)
    requires requests != []
    ensures r.Crashed? <==> calls > 0 && Overruns(store.batch(calls - 1, requests), |requests|)
    ensures r.Ok? ==> r.value == items
    ensures r.Ok? ==> calls > 0 && AllAllowed(store.batch(calls - 1, requests))
    ensures OnlyLastAllows(store, requests, calls, r.Ok?)
    ensures calls > 0
    ensures r.Denied? ==> LoopRefused(store, requests, projectGrant, secretGrant, calls, mints)
    ensures |mints| <= calls <= |mints| + 1 && DistinctKeys(mints) && MintsSucceed(store, mints, calls)
    ensures calls <= 2 + |ItemNames(requests)|
    ensures EachDemanded(store, requests, projectGrant, secretGrant, mints)
  {
    assert SoFar(store, requests, projectGrant, secretGrant, [], {}) && MintsSucceed(store, [], 1);
    assert OnlyLastAllows(store, requests, 0, false);
    hide *;
    var granted: set<string> := {};
    calls, mints := 0, [];
    while true
      invariant calls == |mints| <= 1 + |ItemNames(requests)|
      invariant OnlyLastAllows(store, requests, calls, false)
      invariant SoFar(store, requests, projectGrant, secretGrant, mints, granted)
      invariant MintsSucceed(store, mints, |mints| + 1)
      decreases 2 + |ItemNames(requests)| - calls
    {
      SoFarBounds(store, requests, projectGrant, secretGrant, mints, granted);
      var round;
      round, granted, mints := TakeTurn(store, requests, granted, projectGrant, secretGrant, mints);
      OneMoreCall(store, requests, calls, round.AllGranted?);
      calls := calls + 1;
      match round {
        case AllGranted =>
          return Ok(items), calls, mints;
        case Overrun =>
          return Crashed, calls, mints;
        case Refused =>
          return Denied, calls, mints;
        case Minted(_, done) =>
          SoFarBounds(store, requests, projectGrant, secretGrant, mints, granted);
          if !done {
            return Denied, calls, mints;
          }
      }
    }
  }

  /** A round, and what it leaves in the loop's variables. */
  method TakeTurn(store: Store, requests: seq<Request>, granted: set<string>, projectGrant: Scope, secretGrant: Scope,
                  mints: seq<Mint>)
    returns (round: Round, granted': set<string>, mints': seq<Mint>)
    requires SoFar(store, requests, projectGrant, secretGrant, mints, granted)
    requires MintsSucceed(store, mints, |mints| + 1)
    ensures SoFar(store, requests, projectGrant, secretGrant, mints', granted')
    ensures MintsSucceed(store, mints', |mints| + 1)
    ensures round.AllGranted? <==> AllAllowed(store.batch(|mints|, requests))
    ensures round.Overrun? <==> Overruns(store.batch(|mints|, requests), |requests|)
    ensures !round.Minted? ==> mints' == mints
    ensures round.Minted? ==> |mints'| == |mints| + 1
    ensures round.Refused? || (round.Minted? && !round.done) ==>
      LoopRefused(store, requests, projectGrant, secretGrant, |mints| + 1, mints')
    ensures round.Minted? && round.done ==> MintsSucceed(store, mints', |mints'| + 1)
  {
    hide *;
    granted', mints' := granted, mints;
    SoFarBounds(store, requests, projectGrant, secretGrant, mints, granted);
    round := TakeRound(store, requests, granted, projectGrant, secretGrant, |mints|, mints);
    if round.Refused? {
      RefusedByReply(store, requests, projectGrant, secretGrant, mints);
    }
    if round.Minted? {
      OneMoreMint(store, mints, round.mint);
      SoFarGrows(store, requests, projectGrant, secretGrant, mints, granted, round.mint);
      granted', mints' := granted + {MintKey(round.mint)}, mints + [round.mint];
      if !round.done {
        RefusedByGrant(store, requests, projectGrant, secretGrant, mints');
      }
    }
  }

  lemma OneMoreCall(store: Store, requests: seq<Request>, n: nat, ok: bool)
    requires OnlyLastAllows(store, requests, n, false) && (ok <==> AllAllowed(store.batch(n, requests)))
    ensures OnlyLastAllows(store, requests, n + 1, ok)
  {
    hide AllAllowed;
  }

  lemma OneMoreMint(store: Store, mints: seq<Mint>, mint: Mint)
    requires MintsSucceed(store, mints, |mints| + 1)
    ensures MintsSucceed(store, mints + [mint], |mints| + 1)
    ensures store.mints(|mints|, mint) ==> MintsSucceed(store, mints + [mint], |mints| + 2)
  {
  }

  lemma RefusedByReply(store: Store, requests: seq<Request>, projectGrant: Scope, secretGrant: Scope, mints: seq<Mint>)
    requires Stops(store.batch(|mints|, requests), requests, projectGrant, secretGrant, mints)
    ensures LoopRefused(store, requests, projectGrant, secretGrant, |mints| + 1, mints)
  {
    hide Stops;
  }

  lemma RefusedByGrant(store: Store, requests: seq<Request>, projectGrant: Scope, secretGrant: Scope, mints: seq<Mint>)
    requires mints != [] && !store.mints(|mints| - 1, mints[|mints| - 1])
    ensures LoopRefused(store, requests, projectGrant, secretGrant, |mints|, mints)
  {
    hide Stops;
  }

  lemma KeysBoundMints(mints: seq<Mint>, granted: set<string>, names: set<string>)
    requires KeysAre(mints, granted) && DistinctKeys(mints)
    requires granted <= {PROJECT_LEASE} + SecretKeys(names)
    ensures |mints| <= 1 + |names|
  {
    forall i | 0 <= i < |mints|
      ensures MintKey(mints[i]) in granted
    {
      assert KeyMinted(mints, MintKey(mints[i]));
    }
    MintsAreBounded(mints, names);
  }

  // ----- AuthorizeReference and AuthorizeItem

  /** The requirement kinds for which the loop can mint: AuthorizeReference knows four, AuthorizeItem two. */
  function Kinds(delivery: bool): (kinds: set<Requirement>)
    ensures |kinds| <= if delivery then 4 else 2
  {
    if delivery then {PROJECT_LEASE, SECRET_GRANT, PROJECT_AND_CONVENIENCE, CONVENIENCE}
    else {PROJECT_LEASE, SECRET_GRANT}
  }

  datatype Scopes = Scopes(project: Scope, secret: Scope, convenience: Scope)

  function SingleDemand(d: Decision, request: Request, delivery: bool, scopes: Scopes): Option<Mint>
  {
    if !d.requiresPrompt || d.requirement !in Kinds(delivery) then None
    else if d.requirement == SECRET_GRANT then
      if scopes.secret == "" then None
      else Some(SecretUse(request.itemName, scopes.secret, request.policy == POLICY_ACCESS && scopes.secret == WINDOW))
    else if d.requirement == CONVENIENCE then
      if scopes.convenience == "" then None
      else Some(Convenience(request.destination, request.aliases, scopes.convenience))
    else if scopes.project == "" then None
    else Some(ProjectLease(scopes.project))
  }

  /** A grant is what the decision calls for, in a scope that the caller gave for it. */
  predicate MetBy(d: Decision, request: Request, delivery: bool, scopes: Scopes, mint: Mint)
  {
    && d.requiresPrompt
    && match mint
       case ProjectLease(scope) =>
         && (d.requirement == "project_lease" || (delivery && d.requirement == "project_and_convenience"))
         && scope == scopes.project && scope != ""
       case SecretUse(item, scope, relaxed) =>
         && d.requirement == "secret_grant" && scope == scopes.secret && scope != ""
         && item == request.itemName && (relaxed <==> request.policy == "access" && scope == "window")
       case Convenience(destination, aliases, scope) =>
         && delivery && d.requirement == "convenience" && scope == scopes.convenience && scope != ""
         && destination == request.destination && aliases == request.aliases
  }

  /** Nothing can be granted for the decision: it asks for no grant, for one that this loop does not know, or for one
      that the caller gave no scope for. */
  predicate Helpless(d: Decision, delivery: bool, scopes: Scopes)
  {
    || !d.requiresPrompt
    || match d.requirement
       case "project_lease" => scopes.project == ""
       case "project_and_convenience" => !delivery || scopes.project == ""
       case "secret_grant" => scopes.secret == ""
       case "convenience" => !delivery || scopes.convenience == ""
       case _ => true
  }

  lemma SingleDemandMeans(d: Decision, request: Request, delivery: bool, scopes: Scopes)
    ensures var demand := SingleDemand(d, request, delivery, scopes);
      && (demand.None? <==> Helpless(d, delivery, scopes))
      && forall mint :: demand == Some(mint) <==> MetBy(d, request, delivery, scopes, mint)
  {
    RequirementsDiffer();
  }

  lemma RequirementsDiffer()
    ensures |PROJECT_LEASE| == 13 && |SECRET_GRANT| == 12 && |PROJECT_AND_CONVENIENCE| == 23 && |CONVENIENCE| == 11
  {
  }

  /** Round k authorized the request and spent its one-shot grants. */
  predicate Spent(store: Store, request: Request, k: nat)
  {
    && store.authorize(k, request).allowed
    && store.consume(k, request).Some? && store.consume(k, request).value.allowed
  }

  /** The decision that round k acts on when it is not over. */
  function Acted(store: Store, request: Request, k: nat): Option<Decision>
  {
    if store.authorize(k, request).allowed then store.consume(k, request) else Some(store.authorize(k, request))
  }

  /** Why round k ends the loop without success: spending the grants failed, or what was raised cannot be met, or
      was met before. */
  predicate StopsOne(store: Store, request: Request, delivery: bool, scopes: Scopes, attempted: set<Requirement>,
                     k: nat)
  {
    || Acted(store, request, k).None?
    || Acted(store, request, k).value.requirement in attempted
    || Helpless(Acted(store, request, k).value, delivery, scopes)
  }

  function KindSet(kinds: seq<Requirement>): set<Requirement>
  {
    set k | k in kinds
  }

  predicate DistinctKinds(kinds: seq<Requirement>)
  {
    forall i, j :: 0 <= i < j < |kinds| ==> kinds[i] != kinds[j]
  }

  ghost predicate EachAnswered(store: Store, request: Request, delivery: bool, scopes: Scopes,
                               kinds: seq<Requirement>, mints: seq<Mint>)
  {
    && |kinds| == |mints|
    && forall k :: 0 <= k < |mints| ==>
         && Acted(store, request, k).Some? && Acted(store, request, k).value.requirement == kinds[k]
         && MetBy(Acted(store, request, k).value, request, delivery, scopes, mints[k])
  }

  lemma {:induction false} DistinctKindsFit(kinds: seq<Requirement>, known: set<Requirement>)
    requires DistinctKinds(kinds)
    requires forall i :: 0 <= i < |kinds| ==> kinds[i] in known
    ensures |kinds| <= |known|
  {
    if kinds != [] {
      var last := kinds[|kinds| - 1];
      DistinctKindsFit(kinds[..|kinds| - 1], known - {last});
    }
  }

  /** The switch on the required action; what it refuses, it refuses for want of a scope or of a case. */
  method Meet(requirement: Requirement, request: Request, delivery: bool, scopes: Scopes) returns (mint: Option<Mint>)
    ensures forall d: Decision :: d.requiresPrompt && d.requirement == requirement ==>
      mint == SingleDemand(d, request, delivery, scopes)
  {
    if requirement == PROJECT_LEASE || (delivery && requirement == PROJECT_AND_CONVENIENCE) {
      if scopes.project == "" {
        return None;
      }
      return Some(ProjectLease(scopes.project));
    }
    if requirement == SECRET_GRANT {
      if scopes.secret == "" {
        return None;
      }
      var relaxed := request.policy == POLICY_ACCESS && scopes.secret == WINDOW;
      return Some(SecretUse(request.itemName, scopes.secret, relaxed));
    }
    if delivery && requirement == CONVENIENCE {
      if scopes.convenience == "" {
        return None;
      }
      return Some(Convenience(request.destination, request.aliases, scopes.convenience));
    }
    return None;
  }

  datatype SingleRound = Delivered | Over | Raised(kind: Requirement, mint: Mint, done: bool)

  method TakeSingleRound(store: Store, request: Request, delivery: bool, scopes: Scopes, attempted: set<Requirement>,
                         k: nat)
    returns (round: SingleRound)
    ensures round.Delivered? <==> Spent(store, request, k)
    ensures round.Over? ==> StopsOne(store, request, delivery, scopes, attempted, k)
    ensures round.Raised? ==> round.done == store.mints(k, round.mint)
    ensures round.Raised? ==>
      && Acted(store, request, k).Some? && Acted(store, request, k).value.requirement == round.kind
      && MetBy(Acted(store, request, k).value, request, delivery, scopes, round.mint)
      && round.kind !in attempted && round.kind in Kinds(delivery)
  {
    hide MetBy, Helpless;
    var decision := store.authorize(k, request);
    if decision.allowed {
      var spent := store.consume(k, request);
      if spent.None? {
        return Over;
      }
      decision := spent.value;
      if decision.allowed {
        return Delivered;
      }
    }
    SingleDemandMeans(decision, request, delivery, scopes);
    if !decision.requiresPrompt || decision.requirement in attempted {
      return Over;
    }
    var mint := Meet(decision.requirement, request, delivery, scopes);
    assert mint == SingleDemand(decision, request, delivery, scopes);
    return if mint.None? then Over else Raised(decision.requirement, mint.value, store.mints(k, mint.value));
  }

  /** The retry loop of AuthorizeReference (delivery) and of AuthorizeItem, which gives no alias and no destination.
      Each requirement kind is met by at most one grant, in the round that raised it, so the loop is over after one
      round more than there are kinds; it succeeds in the one round that spends the grants. */
  method AuthorizeOne(store: Store, item: Item, operation: Operation, aliases: seq<string>, destination: string,
                      delivery: bool, scopes: Scopes)
    returns (r: Result<Item>, request: Request, rounds: nat, kinds: seq<Requirement>, mints: seq<Mint>)
    ensures request.operation == operation && request.itemName == item.name && request.policy == item.policy
    ensures request.aliases == aliases && request.destination == destination
    ensures r.Ok? ==> r.value == item && rounds > 0 && Spent(store, request, rounds - 1)
    ensures forall k :: 0 <= k < rounds ==> (Spent(store, request, k) <==> r.Ok? && k == rounds - 1)
    ensures |mints| <= rounds <= |mints| + 1 && rounds <= (if delivery then 5 else 3)
    ensures EachAnswered(store, request, delivery, scopes, kinds, mints) && DistinctKinds(kinds)
    ensures !r.Crashed?
    ensures MintsSucceed(store, mints, rounds)
    ensures r.Denied? ==>
      && rounds > 0
      && if |mints| == rounds then !store.mints(rounds - 1, mints[rounds - 1])
         else StopsOne(store, request, delivery, scopes, KindSet(kinds), rounds - 1)
  {
    hide StopsOne, MetBy, Acted, Spent, Kinds;
    request := Request(operation, item.name, item.policy, aliases, destination);
    var attempted: set<Requirement> := {};
    rounds, kinds, mints := 0, [], [];
    while true
      invariant rounds == |mints|
      invariant forall k :: 0 <= k < rounds ==> !Spent(store, request, k)
      invariant EachAnswered(store, request, delivery, scopes, kinds, mints) && DistinctKinds(kinds)
      invariant attempted == KindSet(kinds) <= Kinds(delivery)
      invariant forall k :: 0 <= k < |mints| ==> store.mints(k, mints[k])
      decreases Kinds(delivery) - attempted
    {
      DistinctKindsFit(kinds, Kinds(delivery));
      var round := TakeSingleRound(store, request, delivery, scopes, attempted, rounds);
      rounds := rounds + 1;
      match round {
        case Delivered =>
          return Ok(item), request, rounds, kinds, mints;
        case Over =>
          return Denied, request, rounds, kinds, mints;
        case Raised(kind, mint, done) =>
          attempted := attempted + {kind};
          assert kind !in kinds;
          kinds, mints := kinds + [kind], mints + [mint];
          DistinctKindsFit(kinds, Kinds(delivery));
          if !done {
            return Denied, request, rounds, kinds, mints;
          }
      }
    }
  }
}
