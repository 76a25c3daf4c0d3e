/** Validation of environment destinations, and the delivery of authorized values to the runner. */
module Delivery {
  import opened Option
  import opened Text
  import opened Sorting
  import opened Grants

  // ----- envmap

  type Mapping = map<string, string>

  datatype Channel = Env | Files | LiteralEnv

  predicate NameShape(name: string)
  {
    && name != ""
    && !('0' <= name[0] <= '9')
    && forall i :: 0 <= i < |name| ==>
         'A' <= name[i] <= 'Z' || 'a' <= name[i] <= 'z' || '0' <= name[i] <= '9' || name[i] == '_'
  }

  function Upper(c: char): char
  {
    if 'a' <= c <= 'z' then c - 'a' + 'A' else c
  }

  /** The name, in any case, begins with HASP_. */
  predicate Reserved(name: string)
  {
    |name| >= 5 && Upper(name[0]) == 'H' && Upper(name[1]) == 'A' && Upper(name[2]) == 'S'
    && Upper(name[3]) == 'P' && name[4] == '_'
  }

  predicate EntryOk(channel: Channel, name: string, value: string)
  {
    && NameShape(name)
    && '\0' !in value
    && (if channel.LiteralEnv? then !Reserved(name) else !Blank(value))
  }

  /** What a valid entry is good for: in the child's environment, a sequence of name=value strings that end in a NUL,
      it reads back as the name and the value. */
  lemma EntryReadsBack(channel: Channel, name: string, value: string)
    requires EntryOk(channel, name, value)
    ensures var entry := name + "=" + value;
      '\0' !in entry && IndexOf(entry, '=') == |name| && entry[..|name|] == name && entry[|name| + 1..] == value
  {
    assert name + "=" + value == name + ("=" + value);
    IndexOfFirst(name, "=" + value, '=');
  }

  /** A literal never takes one of the program's own variables, in whatever case its name is written, and any
      other well-formed name is free; a reference is never blank. */
  lemma EntryMeans(channel: Channel, name: string, value: string)
    ensures channel.LiteralEnv? && (exists rest :: |name| == 5 + |rest| && SameInAnyCase(name, "HASP_" + rest))
      ==> !EntryOk(channel, name, value)
    ensures channel.LiteralEnv? && NameShape(name) && '\0' !in value && !EntryOk(channel, name, value)
      ==> |name| >= 5 && SameInAnyCase(name, "HASP_" + name[5..])
    ensures !channel.LiteralEnv? ==>
      (EntryOk(channel, name, value) <==> NameShape(name) && '\0' !in value && TrimSpace(value) != "")
  {
    hide TrimSpace;
    if rest :| |name| == 5 + |rest| && SameInAnyCase(name, "HASP_" + rest) {
      SameInFront(name, rest);
    }
    if Reserved(name) {
      ReservedIsSame(name);
    }
  }

  predicate SameInAnyCase(a: string, b: string)
  {
    |a| == |b| && forall i :: 0 <= i < |a| ==> Upper(a[i]) == Upper(b[i])
  }

  lemma SameInFront(name: string, rest: string)
    requires SameInAnyCase(name, "HASP_" + rest)
    ensures Reserved(name)
  {
    var other := "HASP_" + rest;
    assert other[0] == 'H' && other[1] == 'A' && other[2] == 'S' && other[3] == 'P' && other[4] == '_';
  }

  lemma ReservedIsSame(name: string)
    requires Reserved(name)
    ensures SameInAnyCase(name, "HASP_" + name[5..])
  {
    var other := "HASP_" + name[5..];
    assert forall i :: 5 <= i < |name| ==> other[i] == name[i];
  }

  predicate ChannelOk(channel: Channel, values: Mapping)
  {
    forall name :: name in values ==> EntryOk(channel, name, values[name])
  }

  /** Every entry is in order, and no destination is used twice. */
  predicate ValidMappings(env: Mapping, files: Mapping, literals: Mapping)
  {
    && ChannelOk(Env, env) && ChannelOk(Files, files) && ChannelOk(LiteralEnv, literals)
    && env.Keys !! files.Keys && env.Keys !! literals.Keys && files.Keys !! literals.Keys
  }

  lemma {:induction false} NamesCount(names: seq<string>, values: Mapping)
    requires forall name :: name in names <==> name in values
    requires forall i, j :: 0 <= i < j < |names| ==> names[i] != names[j]
    ensures |names| == |values|
    decreases |names|
  {
    if names == [] {
      assert values == map[];
    } else {
      var init, last := names[..|names| - 1], names[|names| - 1];
      assert names == init + [last];
      var rest := values - {last};
      assert values.Keys == rest.Keys + {last};
      NamesCount(init, rest);
      assert |values.Keys| == |rest.Keys| + 1;
    }
  }

  lemma SortedIsDistinct(names: seq<string>)
    requires forall i, j :: 0 <= i < j < |names| ==> StringLess(names[i], names[j])
    ensures forall i, j :: 0 <= i < j < |names| ==> names[i] != names[j]
  {
    forall i, j | 0 <= i < j < |names|
      ensures names[i] != names[j]
    {
      StringOrderIsTotal(names[i], names[j]);
    }
  }

  ghost predicate NamesOf(names: seq<string>, mapping: Mapping)
  {
    && (forall i, j :: 0 <= i < j < |names| ==> names[i] != names[j])
    && (forall name :: name in names <==> name in mapping)
  }

  lemma DistinctMembers(names: seq<string>, keys: set<string>, i: nat, j: nat)
    requires i < j < |names| && multiset(names) == multiset(keys)
    ensures names[i] != names[j]
  {
    assert names == names[..i] + [names[i]] + names[i + 1..j] + [names[j]] + names[j + 1..];
    assert multiset(keys)[names[i]] <= 1;
  }

  lemma SortGivesNames(unsorted: seq<string>, values: Mapping)
    requires multiset(unsorted) == multiset(values.Keys)
    ensures var names := StableSort(unsorted, StringLess);
      && (forall i, j :: 0 <= i < j < |names| ==> StringLess(names[i], names[j]))
      && NamesOf(names, values) && |names| == |values|
  {
    StringOrderIsStrictWeak();
    SortOrders(unsorted, StringLess);
    var names := StableSort(unsorted, StringLess);
    assert forall name :: name in names <==> name in multiset(names);
    forall i, j | 0 <= i < j < |names|
      ensures StringLess(names[i], names[j])
    {
      assert !StringLess(names[j], names[i]);
      StringOrderIsTotal(names[i], names[j]);
      DistinctMembers(names, values.Keys, i, j);
    }
    SortedIsDistinct(names);
    NamesCount(names, values);
  }

  /** The keys of a map, sorted; each once. */
  method Names(values: Mapping) returns (names: seq<string>)
    ensures forall i, j :: 0 <= i < j < |names| ==> StringLess(names[i], names[j])
    ensures NamesOf(names, values) && |names| == |values|
  {
    names := [];
    var todo := values.Keys;
    while todo != {}
      invariant todo <= values.Keys
      invariant multiset(names) == multiset(values.Keys - todo)
      decreases todo
    {
      var name :| name in todo;
      todo := todo - {name};
      names := names + [name];
    }
    SortGivesNames(names, values);
    names := StableSort(names, StringLess);
  }

  method ValidateChannel(channel: Channel, values: Mapping, seen: set<string>) returns (ok: bool, seen': set<string>)
    ensures ok <==> ChannelOk(channel, values) && values.Keys !! seen
    ensures ok ==> seen' == seen + values.Keys
  {
    hide EntryOk, ChannelOk, Taken;
    var names := Names(values);
    seen' := seen;
    NothingTaken(names);
    for i := 0 to |names|
      invariant forall j :: 0 <= j < i ==> EntryOk(channel, names[j], values[names[j]]) && names[j] !in seen
      invariant seen' == seen + Taken(names, i)
    {
      var name := names[i];
      NextTaken(names, i);
      if name in seen' || !EntryOk(channel, name, values[name]) {
        BadEntry(channel, values, name, seen);
        return false, seen';
      }
      seen' := seen' + {name};
    }
    AllTaken(names, values);
    EveryNameChecked(channel, values, names, seen);
    return true, seen';
  }

  /** The first n names, as a set. */
  function Taken(names: seq<string>, n: nat): set<string>
    requires n <= |names|
  {
    if n == 0 then {} else Taken(names, n - 1) + {names[n - 1]}
  }

  lemma NothingTaken(names: seq<string>)
    ensures Taken(names, 0) == {}
  {
  }

  lemma {:induction false} TakenAre(names: seq<string>, n: nat)
    requires n <= |names|
    ensures forall name :: name in Taken(names, n) <==> exists j :: 0 <= j < n && names[j] == name
  {
    if n > 0 {
      TakenAre(names, n - 1);
    }
  }

  lemma NextTaken(names: seq<string>, i: nat)
    requires i < |names| && forall j, k :: 0 <= j < k < |names| ==> names[j] != names[k]
    ensures names[i] !in Taken(names, i) && Taken(names, i + 1) == Taken(names, i) + {names[i]}
  {
    TakenAre(names, i);
  }

  lemma AllTaken(names: seq<string>, values: Mapping)
    requires NamesOf(names, values)
    ensures Taken(names, |names|) == values.Keys
  {
    TakenAre(names, |names|);
  }

  lemma BadEntry(channel: Channel, values: Mapping, name: string, seen: set<string>)
    requires name in values && (name in seen || !EntryOk(channel, name, values[name]))
    ensures !(ChannelOk(channel, values) && values.Keys !! seen)
  {
    hide EntryOk;
  }

  lemma EveryNameChecked(channel: Channel, values: Mapping, names: seq<string>, seen: set<string>)
    requires NamesOf(names, values)
    requires forall j :: 0 <= j < |names| ==> EntryOk(channel, names[j], values[names[j]]) && names[j] !in seen
    ensures ChannelOk(channel, values) && values.Keys !! seen
  {
    hide EntryOk;
    forall name | name in values
      ensures EntryOk(channel, name, values[name]) && name !in seen
    {
      var j :| 0 <= j < |names| && names[j] == name;
    }
  }

  /** envmap.Validate accepts exactly the mappings in which every destination is used once. */
  method Validate(env: Mapping, files: Mapping, literals: Mapping) returns (ok: bool)
    ensures ok <==> ValidMappings(env, files, literals)
  {
    hide EntryOk;
    var first, afterEnv := ValidateChannel(Env, env, {});
    if !first {
      return false;
    }
    var second, afterFiles := ValidateChannel(Files, files, afterEnv);
    if !second {
      return false;
    }
    var third, _ := ValidateChannel(LiteralEnv, literals, afterFiles);
    return third;
  }

  // ----- Execute

  datatype ExecRequest = ExecRequest(
    env: Mapping, files: Mapping, literals: Mapping, projectGrant: Scope, secretGrant: Scope, reviewed: bool)

  datatype RunnerInput = RunnerInput(env: Mapping, files: Mapping)

  /** `value` is what the authorized batch holds for reference i, which is `access`. */
  predicate Authorized(store: Store, refs: seq<Access>, items: seq<Item>, i: nat, access: Access, value: string)
  {
    AllResolve(store, refs, items) && i < |refs| && refs[i] == access && items[i].value == value
  }

  /** From `from` on, each name has the value authorized for its own reference, at its own place. */
  ghost predicate DeliveredFrom(store: Store, refs: seq<Access>, items: seq<Item>, from: nat, names: seq<string>,
                                mapping: Mapping, operation: Operation, filled: Mapping)
  {
    forall i :: 0 <= i < |names| ==>
      && names[i] in mapping && names[i] in filled
      && Authorized(store, refs, items, from + i, Access(mapping[names[i]], operation), filled[names[i]])
  }

  ghost predicate InOrder(names: seq<string>, mapping: Mapping)
  {
    NamesOf(names, mapping) && forall i, j :: 0 <= i < j < |names| ==> StringLess(names[i], names[j])
  }

  /** Everything the child gets, and from where. */
  ghost predicate Delivers(store: Store, request: ExecRequest, envNames: seq<string>, fileNames: seq<string>,
                           refs: seq<Access>, items: seq<Item>, input: RunnerInput)
  {
    && input.env.Keys == request.literals.Keys + request.env.Keys
    && request.literals.Keys !! request.env.Keys
    && (forall name :: name in request.literals ==> input.env[name] == request.literals[name])
    && DeliveredFrom(store, refs, items, 0, envNames, request.env, Run, input.env)
    && input.files.Keys == request.files.Keys
    && DeliveredFrom(store, refs, items, |envNames|, fileNames, request.files, Inject, input.files)
  }

  function Accesses(names: seq<string>, values: Mapping, operation: Operation): (refs: seq<Access>)
    requires forall name :: name in names ==> name in values
    ensures |refs| == |names|
    ensures forall i :: 0 <= i < |names| ==> refs[i] == Access(values[names[i]], operation)
  {
    if names == [] then []
    else Accesses(names[..|names| - 1], values, operation)
         + [Access(values[names[|names| - 1]], operation)]
  }

  /** names[i] := items[from + i].Value, on top of `base`. */
  method Fill(names: seq<string>, items: seq<Item>, from: nat, base: Mapping) returns (filled: Mapping)
    requires from + |names| <= |items|
    requires forall i, j :: 0 <= i < j < |names| ==> names[i] != names[j]
    ensures forall name :: name in filled <==> name in base || name in names
    ensures forall name :: name in base && name !in names ==> filled[name] == base[name]
    ensures forall i :: 0 <= i < |names| ==> filled[names[i]] == items[from + i].value
  {
    filled := base;
    for i := 0 to |names|
      invariant forall name :: name in filled <==> name in base || name in names[..i]
      invariant forall name :: name in base && name !in names ==> filled[name] == base[name]
      invariant forall j :: 0 <= j < i ==> filled[names[j]] == items[from + j].value
    {
      filled := filled[names[i] := items[from + i].value];
      assert names[..i + 1] == names[..i] + [names[i]];
    }
    assert names[..|names|] == names;
  }

  /** From `from` on, the references are those of the names, in order. */
  ghost predicate RefsAt(refs: seq<Access>, from: nat, names: seq<string>, mapping: Mapping, operation: Operation)
    requires forall name :: name in names <==> name in mapping
  {
    && from + |names| <= |refs|
    && forall i :: from <= i < from + |names| ==> refs[i] == Access(mapping[names[i - from]], operation)
  }

  /** Walking names and items in step gives each name the item of its own reference. */
  lemma AlignmentDelivers(store: Store, mapping: Mapping, names: seq<string>, operation: Operation,
                          refs: seq<Access>, items: seq<Item>, from: nat, filled: Mapping)
    requires AllResolve(store, refs, items) && from + |names| <= |refs|
    requires NamesOf(names, mapping)
    requires RefsAt(refs, from, names, mapping, operation)
    requires forall i :: 0 <= i < |names| ==> names[i] in filled && filled[names[i]] == items[from + i].value
    ensures DeliveredFrom(store, refs, items, from, names, mapping, operation, filled)
  {
    hide AllResolve;
    forall i | 0 <= i < |names|
      ensures Authorized(store, refs, items, from + i, Access(mapping[names[i]], operation), filled[names[i]])
    {
      assert refs[from + i] == Access(mapping[names[from + i - from]], operation);
    }
  }

  /** One channel: the base entries, and every mapping entry with its own reference's value. */
  method FillChannel(store: Store, mapping: Mapping, names: seq<string>, operation: Operation,
                     ghost refs: seq<Access>, items: seq<Item>, from: nat, base: Mapping)
    returns (filled: Mapping)
    requires AllResolve(store, refs, items) && from + |names| <= |refs|
    requires NamesOf(names, mapping)
    requires RefsAt(refs, from, names, mapping, operation)
    ensures filled.Keys == base.Keys + mapping.Keys
    ensures forall name :: name in base && name !in mapping ==> filled[name] == base[name]
    ensures DeliveredFrom(store, refs, items, from, names, mapping, operation, filled)
  {
    filled := Fill(names, items, from, base);
    AlignmentDelivers(store, mapping, names, operation, refs, items, from, filled);
  }

  lemma RefsOfParts(envNames: seq<string>, env: Mapping, fileNames: seq<string>, files: Mapping)
    requires NamesOf(envNames, env) && NamesOf(fileNames, files)
    ensures var refs := Accesses(envNames, env, Run) + Accesses(fileNames, files, Inject);
      && |refs| == |envNames| + |fileNames|
      && RefsAt(refs, 0, envNames, env, Run) && RefsAt(refs, |envNames|, fileNames, files, Inject)
  {
    PlacedAt([], envNames, env, Run, Accesses(fileNames, files, Inject));
    PlacedAt(Accesses(envNames, env, Run), fileNames, files, Inject, []);
    assert [] + Accesses(envNames, env, Run) == Accesses(envNames, env, Run);
    var refs := Accesses(envNames, env, Run) + Accesses(fileNames, files, Inject);
    assert refs + [] == refs;
  }

  lemma PlacedAt(before: seq<Access>, names: seq<string>, values: Mapping, operation: Operation, behind: seq<Access>)
    requires NamesOf(names, values)
    ensures RefsAt(before + Accesses(names, values, operation) + behind, |before|, names, values, operation)
  {
    hide Accesses;
  }

  method BuildInput(store: Store, request: ExecRequest, envNames: seq<string>, fileNames: seq<string>,
                    ghost refs: seq<Access>, items: seq<Item>)
    returns (input: RunnerInput)
    requires request.literals.Keys !! request.env.Keys
    requires NamesOf(envNames, request.env) && NamesOf(fileNames, request.files)
    requires |refs| == |envNames| + |fileNames|
    requires RefsAt(refs, 0, envNames, request.env, Run)
    requires RefsAt(refs, |envNames|, fileNames, request.files, Inject)
    requires AllResolve(store, refs, items)
    ensures Delivers(store, request, envNames, fileNames, refs, items, input)
  {
    hide RefsAt, AllResolve, DeliveredFrom;
    var env := FillChannel(store, request.env, envNames, Run, refs, items, 0, request.literals);
    var files := FillChannel(store, request.files, fileNames, Inject, refs, items, |envNames|, map[]);
    input := RunnerInput(env, files);
  }

  predicate Cleared(request: ExecRequest)
  {
    ValidMappings(request.env, request.files, request.literals) && request.reviewed
  }

  /** One reference per destination: the env names in order, then the file names in order. */
  ghost predicate RefsOf(request: ExecRequest, envNames: seq<string>, fileNames: seq<string>, refs: seq<Access>)
  {
    && InOrder(envNames, request.env) && InOrder(fileNames, request.files)
    && refs == Accesses(envNames, request.env, Run) + Accesses(fileNames, request.files, Inject)
  }

  lemma RefsInOrder(request: ExecRequest, envNames: seq<string>, fileNames: seq<string>)
    requires InOrder(envNames, request.env) && InOrder(fileNames, request.files)
    ensures RefsOf(request, envNames, fileNames,
                   Accesses(envNames, request.env, Run) + Accesses(fileNames, request.files, Inject))
  {
  }

  /** The runner is reached only after validation, review and authorization of every reference, and then
      each destination carries the value authorized for its own reference, no literal is shadowed, and
      there is nothing else. The results beside r tell what was done on the way. */
  method Execute(store: Store, request: ExecRequest)
    returns (r: Result<RunnerInput>, envNames: seq<string>, fileNames: seq<string>, refs: seq<Access>,
             items: seq<Item>, requests: seq<Grants.Request>, calls: nat, mints: seq<Mint>)
    ensures !Cleared(request) ==> r.Denied? && calls == 0 && mints == []
    ensures Cleared(request) ==>
      && RefsOf(request, envNames, fileNames, refs)
      && MadeFor(store, refs, requests, calls)
      && Accounts(store, requests, request.projectGrant, request.secretGrant, r.Ok?, r.Crashed?, calls, mints)
    ensures r.Ok? ==> Delivers(store, request, envNames, fileNames, refs, items, r.value)
  {
    hide AllResolve, Accounts, MadeFor, Delivers, RefsAt, RefsOf, Requests, ChannelOk, StringLess;
    envNames, fileNames, refs, items, requests, calls, mints := [], [], [], [], [], 0, [];
    var valid := Validate(request.env, request.files, request.literals);
    if !valid || !request.reviewed {
      r := Denied;
      return;
    }
    var envs := Names(request.env);
    var files := Names(request.files);
    var accesses := Accesses(envs, request.env, Run) + Accesses(files, request.files, Inject);
    envNames, fileNames, refs := envs, files, accesses;
    RefsOfParts(envs, request.env, files, request.files);
    RefsInOrder(request, envs, files);
    var authorized, asked, batches, minted :=
      AuthorizeReferences(store, accesses, request.projectGrant, request.secretGrant);
    requests, calls, mints := asked, batches, minted;
    match authorized {
      case Denied =>
        r := Denied;
      case Crashed =>
        r := Crashed;
      case Ok(got) =>
        items := got;
        var input := BuildInput(store, request, envs, files, refs, got);
        r := Ok(input);
    }
  }
}
