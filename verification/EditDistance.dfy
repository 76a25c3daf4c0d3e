/** Typo suggestions: the two-row edit distance, and the closest candidate under it. */
module EditDistance {
  import opened Option

  // ----- The reference: scripts of edits, each anywhere in the current text

  datatype Edit = Insert(at: nat, c: char) | Delete(at: nat) | Substitute(at: nat, c: char)

  function Apply(s: string, e: Edit): Option<string>
  {
    match e
    case Insert(at, c) => if at <= |s| then Some(s[..at] + [c] + s[at..]) else None
    case Delete(at) => if at < |s| then Some(s[..at] + s[at + 1..]) else None
    case Substitute(at, c) => if at < |s| then Some(s[..at] + [c] + s[at + 1..]) else None
  }

  function Run(s: string, script: seq<Edit>): Option<string>
    decreases |script|
  {
    if script == [] then Some(s)
    else
      var next := Apply(s, script[0]);
      if next.None? then None else Run(next.value, script[1..])
  }

  // ----- The recurrence

  function Min(x: nat, y: nat): nat
  {
    if y < x then y else x
  }

  function Cost(c: char, d: char): nat
  {
    if c == d then 0 else 1
  }

  function Init(s: string): string
    requires s != ""
  {
    s[..|s| - 1]
  }

  function Last(s: string): char
    requires s != ""
  {
    s[|s| - 1]
  }

  /** The cheapest of a deletion, an insertion and a substitution. */
  function Best(del: nat, ins: nat, sub: nat, cost: nat): nat
  {
    Min(Min(del + 1, ins + 1), sub + cost)
  }

  function Dist(a: string, b: string): nat
    decreases |a| + |b|
  {
    if |a| == 0 then |b|
    else if |b| == 0 then |a|
    else Best(Dist(Init(a), b), Dist(a, Init(b)), Dist(Init(a), Init(b)), Cost(Last(a), Last(b)))
  }

  lemma DistStep(a: string, b: string)
    requires a != "" && b != ""
    ensures Dist(a, b) == Best(Dist(Init(a), b), Dist(a, Init(b)), Dist(Init(a), Init(b)), Cost(Last(a), Last(b)))
  {
    hide Best, Cost, Init, Last;
  }

  lemma Cell(ra: string, rb: string, i: nat, j: nat)
    requires 1 <= i <= |ra| && 1 <= j <= |rb|
    ensures Dist(ra[..i], rb[..j])
         == Min(Min(Dist(ra[..i - 1], rb[..j]) + 1, Dist(ra[..i], rb[..j - 1]) + 1),
                Dist(ra[..i - 1], rb[..j - 1]) + Cost(ra[i - 1], rb[j - 1]))
  {
    hide Dist;
    DistStep(ra[..i], rb[..j]);
    assert Init(ra[..i]) == ra[..i - 1] && Init(rb[..j]) == rb[..j - 1];
  }

  lemma Edges(a: string, b: string)
    ensures Dist(a, b[..0]) == |a| && Dist(b[..0], a) == |a|
  {
  }

  // ----- The two rows

  /** The first n cells of the row of `a` against the prefixes of b. */
  predicate IsRow(row: seq<nat>, a: string, b: string, n: nat)
  {
    n <= |row| == |b| + 1 && forall k :: 0 <= k < n ==> row[k] == Dist(a, b[..k])
  }

  /** The inner loop: the row of i characters of ra from the row of i - 1. */
  method FillRow(ra: string, rb: string, i: nat, prev: array<nat>, curr: array<nat>)
    requires 1 <= i <= |ra| && prev != curr
    requires IsRow(prev[..], ra[..i - 1], rb, |rb| + 1) && curr.Length == |rb| + 1
    modifies curr
    ensures IsRow(curr[..], ra[..i], rb, |rb| + 1)
  {
    hide Dist;
    curr[0] := i;
    Edges(ra[..i], rb);
    for j := 1 to |rb| + 1
      invariant IsRow(curr[..], ra[..i], rb, j)
    {
      var cost := 1;
      if ra[i - 1] == rb[j - 1] {
        cost := 0;
      }
      var del := prev[j] + 1;
      var ins := curr[j - 1] + 1;
      var sub := prev[j - 1] + cost;
      assert prev[..][j] == prev[j] && prev[..][j - 1] == prev[j - 1] && curr[..][j - 1] == curr[j - 1];
      var m := del;
      if ins < m {
        m := ins;
      }
      if sub < m {
        m := sub;
      }
      Cell(ra, rb, i, j);
      curr[j] := m;
    }
  }

  lemma FirstRow(row: seq<nat>, ra: string, rb: string)
    requires |row| == |rb| + 1 && forall k :: 0 <= k <= |rb| ==> row[k] == k
    ensures IsRow(row, ra[..0], rb, |rb| + 1)
  {
  }

  method Levenshtein(ra: string, rb: string) returns (d: nat)
    ensures d == Dist(ra, rb)
  {
    var la, lb := |ra|, |rb|;
    if la == 0 {
      return lb;
    }
    if lb == 0 {
      return la;
    }
    var prev := new nat[lb + 1];
    var curr := new nat[lb + 1];
    for j := 0 to lb + 1
      invariant forall k :: 0 <= k < j ==> prev[k] == k
    {
      prev[j] := j;
    }
    FirstRow(prev[..], ra, rb);
    for i := 1 to la + 1
      invariant prev != curr && curr.Length == lb + 1
      invariant fresh(prev) && fresh(curr)
      invariant IsRow(prev[..], ra[..i - 1], rb, lb + 1)
    {
      FillRow(ra, rb, i, prev, curr);
      prev, curr := curr, prev;
    }
    assert ra[..la] == ra && rb[..lb] == rb;
    return prev[lb];
  }

  // ----- The distance is a metric

  lemma {:induction false} DistIsSymmetric(a: string, b: string)
    ensures Dist(a, b) == Dist(b, a)
    decreases |a| + |b|
  {
    if a != "" && b != "" {
      DistIsSymmetric(Init(a), b);
      DistIsSymmetric(a, Init(b));
      DistIsSymmetric(Init(a), Init(b));
    }
  }

  lemma {:induction false} DistIsZeroOnEquals(a: string, b: string)
    ensures Dist(a, b) == 0 <==> a == b
    decreases |a| + |b|
  {
    if a != "" && b != "" {
      DistIsZeroOnEquals(Init(a), Init(b));
      assert a == Init(a) + [Last(a)] && b == Init(b) + [Last(b)];
    }
  }

  lemma {:induction false} LengthsBoundDist(a: string, b: string)
    ensures Dist(a, b) <= |a| + |b|
    ensures |a| <= |b| + Dist(a, b) && |b| <= |a| + Dist(a, b)
    decreases |a| + |b|
  {
    if a != "" && b != "" {
      LengthsBoundDist(Init(a), b);
      LengthsBoundDist(a, Init(b));
      LengthsBoundDist(Init(a), Init(b));
    }
  }

  lemma {:induction false} DistObeysTriangle(a: string, b: string, c: string)
    ensures Dist(a, c) <= Dist(a, b) + Dist(b, c)
    decreases |a| + |b| + |c|
  {
    LengthsBoundDist(a, c);
    LengthsBoundDist(a, b);
    LengthsBoundDist(b, c);
    if a != "" && b != "" && c != "" {
      DistObeysTriangle(Init(a), b, c);
      DistObeysTriangle(a, b, Init(c));
      DistObeysTriangle(a, Init(b), c);
      DistObeysTriangle(a, Init(b), Init(c));
      DistObeysTriangle(Init(a), Init(b), c);
      DistObeysTriangle(Init(a), Init(b), Init(c));
    }
  }

  // ----- It is the length of a shortest script

  lemma {:induction false} CommonSuffix(a: string, b: string, x: string)
    ensures Dist(a + x, b + x) <= Dist(a, b)
    decreases |x|
  {
    if x == "" {
      assert a + x == a && b + x == b;
    } else {
      assert Init(a + x) == a + Init(x) && Init(b + x) == b + Init(x);
      CommonSuffix(a, b, Init(x));
    }
  }

  lemma OneMore(p: string, c: char)
    ensures Dist(p, p + [c]) <= 1 && Dist(p + [c], p) <= 1
  {
    DistIsZeroOnEquals(p, p);
    DistIsSymmetric(p, p + [c]);
    assert Init(p + [c]) == p;
    if p != "" {
      DistStep(p, p + [c]);
    }
  }

  lemma OneChanged(p: string, c: char, d: char)
    ensures Dist(p + [c], p + [d]) <= 1
  {
    DistIsZeroOnEquals(p, p);
    assert Init(p + [c]) == p && Init(p + [d]) == p;
    DistStep(p + [c], p + [d]);
  }

  lemma OneEditIsNear(s: string, e: Edit)
    requires Apply(s, e).Some?
    ensures Dist(s, Apply(s, e).value) <= 1
  {
    hide Dist;
    var p := s[..e.at];
    match e {
      case Insert(at, c) =>
        assert s == p + s[at..];
        OneMore(p, c);
        CommonSuffix(p, p + [c], s[at..]);
      case Delete(at) =>
        assert s == (p + [s[at]]) + s[at + 1..];
        OneMore(p, s[at]);
        CommonSuffix(p + [s[at]], p, s[at + 1..]);
      case Substitute(at, c) =>
        assert s == (p + [s[at]]) + s[at + 1..];
        OneChanged(p, s[at], c);
        CommonSuffix(p + [s[at]], p + [c], s[at + 1..]);
    }
  }

  /** No script is shorter than the distance. */
  lemma {:induction false} NoScriptIsShorter(a: string, b: string, script: seq<Edit>)
    requires Run(a, script) == Some(b)
    ensures Dist(a, b) <= |script|
    decreases |script|
  {
    if script == [] {
      DistIsZeroOnEquals(a, b);
    } else {
      var next := Apply(a, script[0]).value;
      OneEditIsNear(a, script[0]);
      NoScriptIsShorter(next, b, script[1..]);
      DistObeysTriangle(a, next, b);
    }
  }

  lemma {:induction false} RunAppends(s: string, one: seq<Edit>, two: seq<Edit>)
    requires Run(s, one).Some?
    ensures Run(s, one + two) == Run(Run(s, one).value, two)
    decreases |one|
  {
    if one == [] {
      assert one + two == two;
    } else {
      assert (one + two)[1..] == one[1..] + two;
      RunAppends(Apply(s, one[0]).value, one[1..], two);
    }
  }

  /** A script leaves alone what stands behind the text it works on. */
  lemma {:induction false} RunBefore(s: string, x: string, script: seq<Edit>)
    requires Run(s, script).Some?
    ensures Run(s + x, script) == Some(Run(s, script).value + x)
    decreases |script|
  {
    if script != [] {
      var e := script[0];
      var next := Apply(s, e).value;
      assert (s + x)[..e.at] == s[..e.at] && (s + x)[e.at..] == s[e.at..] + x;
      assert Apply(s + x, e) == Some(next + x) by {
        if !e.Insert? {
          assert (s + x)[e.at + 1..] == s[e.at + 1..] + x;
        }
        match e {
          case Insert(at, c) => assert s[..at] + [c] + (s[at..] + x) == next + x;
          case Delete(at) => assert s[..at] + (s[at + 1..] + x) == next + x;
          case Substitute(at, c) => assert s[..at] + [c] + (s[at + 1..] + x) == next + x;
        }
      }
      RunBefore(next, x, script[1..]);
    }
  }

  lemma OneEdit(s: string, e: Edit)
    requires Apply(s, e).Some?
    ensures Run(s, [e]) == Apply(s, e)
  {
    assert [e][1..] == [];
  }

  lemma DeleteLast(a: string, b: string, rest: seq<Edit>) returns (script: seq<Edit>)
    requires a != "" && Run(Init(a), rest) == Some(b)
    ensures Run(a, script) == Some(b) && |script| == |rest| + 1
  {
    var e := Delete(|a| - 1);
    assert Apply(a, e) == Some(Init(a)) by {
      assert a[..|a| - 1] + a[|a| - 1 + 1..] == Init(a);
    }
    OneEdit(a, e);
    RunAppends(a, [e], rest);
    script := [e] + rest;
  }

  lemma InsertLast(a: string, b: string, rest: seq<Edit>) returns (script: seq<Edit>)
    requires b != "" && Run(a, rest) == Some(Init(b))
    ensures Run(a, script) == Some(b) && |script| == |rest| + 1
  {
    var e := Insert(|b| - 1, Last(b));
    assert Apply(Init(b), e) == Some(b) by {
      assert Init(b)[..|b| - 1] + [Last(b)] + Init(b)[|b| - 1..] == b;
    }
    OneEdit(Init(b), e);
    RunAppends(a, rest, [e]);
    script := rest + [e];
  }

  lemma MatchLast(a: string, b: string, rest: seq<Edit>) returns (script: seq<Edit>)
    requires a != "" && b != "" && Run(Init(a), rest) == Some(Init(b))
    ensures Run(a, script) == Some(b) && |script| == |rest| + Cost(Last(a), Last(b))
  {
    RunBefore(Init(a), [Last(b)], rest);
    assert Init(b) + [Last(b)] == b;
    if Last(a) == Last(b) {
      assert Init(a) + [Last(b)] == a;
      script := rest;
    } else {
      var e := Substitute(|a| - 1, Last(b));
      assert Apply(a, e) == Some(Init(a) + [Last(b)]) by {
        assert a[..|a| - 1] + [Last(b)] + a[|a| - 1 + 1..] == Init(a) + [Last(b)];
      }
      OneEdit(a, e);
      RunAppends(a, [e], rest);
      script := [e] + rest;
    }
  }

  /** A script as short as the distance. */
  lemma {:induction false} ShortestScript(a: string, b: string) returns (script: seq<Edit>)
    ensures Run(a, script) == Some(b) && |script| == Dist(a, b)
    decreases |a| + |b|
  {
    if a == "" && b == "" {
      script := [];
    } else if b == "" || (a != "" && Dist(a, b) == Dist(Init(a), b) + 1) {
      var rest := ShortestScript(Init(a), b);
      script := DeleteLast(a, b, rest);
    } else if a == "" || Dist(a, b) == Dist(a, Init(b)) + 1 {
      var rest := ShortestScript(a, Init(b));
      script := InsertLast(a, b, rest);
    } else {
      var rest := ShortestScript(Init(a), Init(b));
      script := MatchLast(a, b, rest);
    }
  }

  /** The recurrence is the least length of a script that turns a into b. */
  lemma DistIsShortest(a: string, b: string)
    ensures exists script :: Run(a, script) == Some(b) && |script| == Dist(a, b)
    ensures forall script :: Run(a, script) == Some(b) ==> Dist(a, b) <= |script|
  {
    var script := ShortestScript(a, b);
    forall other | Run(a, other) == Some(b)
      ensures Dist(a, b) <= |other|
    {
      NoScriptIsShorter(a, b, other);
    }
  }

  // ----- The closest candidate

  function TypoThreshold(n: nat): nat
  {
    if n <= 3 then 1 else 2
  }

  function Far(lower: string -> string, input: string, candidate: string): nat
  {
    Dist(lower(input), lower(candidate))
  }

  /** Index k is the earliest of the candidates nearest to the input. */
  predicate Nearest(lower: string -> string, input: string, candidates: seq<string>, k: nat)
  {
    && k < |candidates|
    && (forall i :: 0 <= i < |candidates| ==> Far(lower, input, candidates[k]) <= Far(lower, input, candidates[i]))
    && (forall i :: 0 <= i < k ==> Far(lower, input, candidates[k]) < Far(lower, input, candidates[i]))
  }

  /** A suggestion exactly when some candidate is within the threshold, and then the earliest nearest one. */
  method ClosestMatch(lower: string -> string, input: string, candidates: seq<string>) returns (r: Option<string>)
    ensures r.Some? <==> exists i :: (0 <= i < |candidates|
                                      && Far(lower, input, candidates[i]) <= if |lower(input)| <= 3 then 1 else 2)
    ensures r.Some? ==> exists k: nat :: Nearest(lower, input, candidates, k) && r.value == candidates[k]
  {
    var lowered := lower(input);
    var threshold := TypoThreshold(|lowered|);
    var best := threshold + 1;
    var bestCandidate := "";
    ghost var at: nat := 0;
    for i := 0 to |candidates|
      invariant best <= threshold + 1
      invariant forall j :: 0 <= j < i ==> best <= Far(lower, input, candidates[j])
      invariant best <= threshold ==>
        && at < i && bestCandidate == candidates[at] && best == Far(lower, input, candidates[at])
        && forall j :: 0 <= j < at ==> best < Far(lower, input, candidates[j])
    {
      var d := Levenshtein(lowered, lower(candidates[i]));
      if d < best {
        best := d;
        bestCandidate := candidates[i];
        at := i;
      }
    }
    if best > threshold {
      return None;
    }
    assert Nearest(lower, input, candidates, at);
    return Some(bestCandidate);
  }
}
