/**
  Which lines of a TOML file stand under the server's own tables, and what rewriting those tables does to the
  lines. The lines are told apart by a classifier that the proofs leave open.
 */
module TomlSections {
  /** A header of the server's table, of its env table, of any other table, or no header. */
  datatype Kind = Server | Env | Other | Plain {
    predicate Ours()
    {
      Server? || Env?
    }
  }

  type Classifier = string -> Kind

  /** The header the line k stands under (its own, if it is one); Plain before the first header. */
  function Under(kind: Classifier, lines: seq<string>, k: nat): Kind
    requires k < |lines|
  {
    if kind(lines[k]) != Plain || k == 0 then kind(lines[k]) else Under(kind, lines, k - 1)
  }

  /** A line stands under the last header at or before it. */
  lemma {:induction false} UnderMeans(kind: Classifier, lines: seq<string>, k: nat, header: Kind)
    requires k < |lines| && header != Plain
    ensures Under(kind, lines, k) == header
       <==> exists j: nat | j <= k :: kind(lines[j]) == header && forall i :: j < i <= k ==> kind(lines[i]) == Plain
  {
    if kind(lines[k]) == Plain && k > 0 {
      UnderMeans(kind, lines, k - 1, header);
    }
  }

  /** The lines between from and to that stand under no header of ours. */
  function Outside(kind: Classifier, lines: seq<string>, from: nat, until: nat): seq<string>
    requires from <= until <= |lines|
    decreases until - from
  {
    if from == until then []
    else
      Outside(kind, lines, from, until - 1)
      + (if Under(kind, lines, until - 1).Ours() then [] else [lines[until - 1]])
  }

  /** A line of the file, taken or left by where it stands. */
  lemma OutsideOne(kind: Classifier, lines: seq<string>, k: nat)
    requires k < |lines|
    ensures Outside(kind, lines, k, k + 1) == if Under(kind, lines, k).Ours() then [] else [lines[k]]
  {
    assert Outside(kind, lines, k, k) == [];
  }

  predicate NoneOurs(kind: Classifier, lines: seq<string>)
  {
    forall k :: 0 <= k < |lines| ==> !kind(lines[k]).Ours()
  }

  /** The first header of ours, or |lines|. */
  function First(kind: Classifier, lines: seq<string>): (f: nat)
    ensures f <= |lines| && NoneOurs(kind, lines[..f]) && (f < |lines| ==> kind(lines[f]).Ours())
  {
    if lines == [] || kind(lines[0]).Ours() then 0
    else
      var f := 1 + First(kind, lines[1..]);
      assert forall k :: 1 <= k < f ==> lines[..f][k] == lines[1..][..f - 1][k - 1];
      f
  }

  /** The lines with the block in place of the first table of ours, and without the others; at the end, behind
      an empty line, when there is none. */
  function Rewritten(kind: Classifier, lines: seq<string>, block: seq<string>): seq<string>
  {
    var f := First(kind, lines);
    if f == |lines| then lines + [""] + block
    else Outside(kind, lines, 0, f) + block + Outside(kind, lines, f, |lines|)
  }

  // ----- What Outside keeps

  lemma {:induction false} OutsideAll(kind: Classifier, lines: seq<string>, from: nat, until: nat)
    requires from <= until <= |lines|
    requires forall k :: from <= k < until ==> !Under(kind, lines, k).Ours()
    ensures Outside(kind, lines, from, until) == lines[from..until]
    decreases until - from
  {
    if from < until {
      OutsideAll(kind, lines, from, until - 1);
      assert !Under(kind, lines, until - 1).Ours();
      assert lines[from..until] == lines[from..until - 1] + [lines[until - 1]];
    }
  }

  lemma {:induction false} OutsideParts(kind: Classifier, lines: seq<string>, from: nat, mid: nat, until: nat)
    requires from <= mid <= until <= |lines|
    ensures Outside(kind, lines, from, until) == Outside(kind, lines, from, mid) + Outside(kind, lines, mid, until)
    decreases until - mid
  {
    if mid < until {
      OutsideParts(kind, lines, from, mid, until - 1);
      var last := if Under(kind, lines, until - 1).Ours() then [] else [lines[until - 1]];
      calc {
        Outside(kind, lines, from, until);
        Outside(kind, lines, from, mid) + Outside(kind, lines, mid, until - 1) + last;
        Outside(kind, lines, from, mid) + (Outside(kind, lines, mid, until - 1) + last);
      }
    }
  }

  lemma {:induction false} UnderIsOwnOrNotOurs(kind: Classifier, lines: seq<string>, k: nat)
    requires k < |lines| && NoneOurs(kind, lines[..k + 1])
    ensures !Under(kind, lines, k).Ours()
  {
    assert lines[..k + 1][k] == lines[k];
    if kind(lines[k]) == Plain && k > 0 {
      assert forall j :: 0 <= j < k ==> lines[..k][j] == lines[..k + 1][j];
      UnderIsOwnOrNotOurs(kind, lines, k - 1);
    }
  }

  /** Before the first header of ours every line is outside. */
  lemma OutsideBefore(kind: Classifier, lines: seq<string>, f: nat)
    requires f <= |lines| && NoneOurs(kind, lines[..f])
    ensures Outside(kind, lines, 0, f) == lines[..f]
    ensures forall k :: 0 <= k < f ==> !Under(kind, lines, k).Ours()
  {
    forall k | 0 <= k < f
      ensures !Under(kind, lines, k).Ours()
    {
      assert forall j :: 0 <= j < k + 1 ==> lines[..k + 1][j] == lines[..f][j];
      UnderIsOwnOrNotOurs(kind, lines, k);
    }
    OutsideAll(kind, lines, 0, f);
  }

  /** Lines that hold no header of ours and, if there are any, begin with a header. */
  predicate Rest(kind: Classifier, lines: seq<string>)
  {
    NoneOurs(kind, lines) && (lines != [] ==> kind(lines[0]) == Other)
  }

  lemma {:induction false} OutsideBehindIsRest(kind: Classifier, lines: seq<string>, f: nat, until: nat)
    requires f < until <= |lines| && Under(kind, lines, f).Ours()
    ensures Rest(kind, Outside(kind, lines, f, until))
    ensures Outside(kind, lines, f, until) == [] ==> Under(kind, lines, until - 1).Ours()
    decreases until
  {
    if f + 1 < until {
      OutsideBehindIsRest(kind, lines, f, until - 1);
    } else {
      assert Outside(kind, lines, f, f) == [];
    }
  }

  // ----- A rewritten file is a fixed point

  predicate Block(kind: Classifier, block: seq<string>)
  {
    && |block| == 2 && block[0] != "" && block[1] != ""
    && kind(block[0]) == Server && kind(block[1]) == Plain && kind("") == Plain
  }

  lemma {:induction false} UnderRest(kind: Classifier, lines: seq<string>, from: nat, k: nat)
    requires from <= k < |lines| && Rest(kind, lines[from..])
    ensures !Under(kind, lines, k).Ours()
  {
    assert lines[k] == lines[from..][k - from];
    if from < k {
      UnderRest(kind, lines, from, k - 1);
    } else {
      assert lines[from] == lines[from..][0];
    }
  }

  lemma FirstIs(kind: Classifier, lines: seq<string>, f: nat)
    requires f < |lines| && NoneOurs(kind, lines[..f]) && kind(lines[f]).Ours()
    ensures First(kind, lines) == f
  {
    var g := First(kind, lines);
    assert forall k :: 0 <= k < f ==> lines[..f][k] == lines[k];
    assert forall k :: 0 <= k < g ==> lines[..g][k] == lines[k];
  }

  /** In a file made of lines without our headers, the block, and a rest, exactly the block is ours. */
  lemma OnlyTheBlockIsOurs(kind: Classifier, before: seq<string>, block: seq<string>, rest: seq<string>)
    requires Block(kind, block) && NoneOurs(kind, before) && Rest(kind, rest)
    ensures var lines := before + block + rest;
      && First(kind, lines) == |before|
      && Outside(kind, lines, 0, |before|) == before
      && Outside(kind, lines, |before|, |lines|) == rest
  {
    var lines, f := before + block + rest, |before|;
    assert lines[..f] == before && lines[f] == block[0] && lines[f + 1] == block[1] && lines[f + 2..] == rest;
    FirstIs(kind, lines, f);
    OutsideBefore(kind, lines, f);
    forall k | f + 2 <= k < |lines|
      ensures !Under(kind, lines, k).Ours()
    {
      UnderRest(kind, lines, f + 2, k);
    }
    OutsideAll(kind, lines, f + 2, |lines|);
    OutsideParts(kind, lines, f, f + 2, |lines|);
    BlockIsOurs(kind, lines, f);
  }

  lemma BlockIsOurs(kind: Classifier, lines: seq<string>, f: nat)
    requires f + 2 <= |lines| && kind(lines[f]).Ours() && kind(lines[f + 1]) == Plain
    ensures Outside(kind, lines, f, f + 2) == []
  {
    assert Under(kind, lines, f).Ours() && Under(kind, lines, f + 1).Ours();
    assert Outside(kind, lines, f, f + 1) == [];
  }

  /** What a rewritten file keeps: the lines before the block and the lines behind it. */
  datatype Sides = Sides(before: seq<string>, behind: seq<string>)

  function Kept(kind: Classifier, lines: seq<string>): Sides
  {
    var f := First(kind, lines);
    if f == |lines| then Sides(lines + [""], []) else Sides(lines[..f], Outside(kind, lines, f, |lines|))
  }

  /** Every line that is not ours is on one side or the other, in its old order. */
  lemma KeptIsOutside(kind: Classifier, lines: seq<string>)
    ensures var Sides(before, behind) := Kept(kind, lines);
      var outside := Outside(kind, lines, 0, |lines|);
      before + behind == if NoneOurs(kind, lines) then outside + [""] else outside
  {
    var f := First(kind, lines);
    OutsideBefore(kind, lines, f);
    assert lines[..|lines|] == lines;
    if f < |lines| {
      OutsideParts(kind, lines, 0, f, |lines|);
      assert !NoneOurs(kind, lines);
    } else {
      assert lines + [""] + [] == lines + [""];
    }
  }

  lemma SidesAreFree(kind: Classifier, lines: seq<string>)
    requires kind("") == Plain
    ensures NoneOurs(kind, Kept(kind, lines).before) && Rest(kind, Kept(kind, lines).behind)
  {
    var f := First(kind, lines);
    assert lines[..|lines|] == lines;
    if f < |lines| {
      assert Under(kind, lines, f).Ours();
      OutsideBehindIsRest(kind, lines, f, |lines|);
    }
  }

  lemma RewrittenShape(kind: Classifier, lines: seq<string>, block: seq<string>)
    ensures Rewritten(kind, lines, block) == Kept(kind, lines).before + block + Kept(kind, lines).behind
  {
    OutsideBefore(kind, lines, First(kind, lines));
    assert lines + [""] + block + [] == lines + [""] + block;
  }

  // ----- Empty lines at the edges

  function DropFront(lines: seq<string>): seq<string>
  {
    if lines != [] && lines[0] == "" then DropFront(lines[1..]) else lines
  }

  function DropBack(lines: seq<string>): seq<string>
  {
    if lines != [] && lines[|lines| - 1] == "" then DropBack(lines[..|lines| - 1]) else lines
  }

  lemma {:induction false} DropFrontStops(before: seq<string>, behind: seq<string>)
    requires behind != [] && behind[0] != ""
    ensures DropFront(before + behind) == DropFront(before) + behind
  {
    if before != [] && before[0] == "" {
      assert (before + behind)[1..] == before[1..] + behind;
      DropFrontStops(before[1..], behind);
    } else {
      assert (before + behind)[0] != "";
    }
  }

  lemma {:induction false} DropBackStops(before: seq<string>, behind: seq<string>)
    requires before != [] && before[|before| - 1] != ""
    ensures DropBack(before + behind) == before + DropBack(behind)
  {
    var n := |behind| - 1;
    if behind != [] && behind[n] == "" {
      assert (before + behind)[..|before| + n] == before + behind[..n];
      DropBackStops(before, behind[..n]);
    }
  }

  /** Dropping empty lines at the front leaves lines without our headers, and at the back leaves a rest. */
  lemma {:induction false} DropFrontKeeps(kind: Classifier, lines: seq<string>)
    requires NoneOurs(kind, lines)
    ensures NoneOurs(kind, DropFront(lines))
  {
    if lines != [] && lines[0] == "" {
      assert forall k :: 0 <= k < |lines[1..]| ==> lines[1..][k] == lines[k + 1];
      DropFrontKeeps(kind, lines[1..]);
    }
  }

  lemma {:induction false} DropBackKeeps(kind: Classifier, lines: seq<string>)
    requires Rest(kind, lines)
    ensures Rest(kind, DropBack(lines))
  {
    if lines != [] && lines[|lines| - 1] == "" {
      DropBackKeeps(kind, lines[..|lines| - 1]);
    }
  }

  // ----- The loops

  /** The rewriting loop; the entry goes in as one element. */
  method RewriteLines(kind: Classifier, lines: seq<string>, entry: string) returns (out: seq<string>)
    ensures out == RewrittenElements(kind, lines, entry)
  {
    ghost var f := First(kind, lines);
    OutsideBefore(kind, lines, f);
    out := [];
    var skipping, inserted := false, false;
    for i := 0 to |lines|
      invariant inserted <==> f < i
      invariant skipping <==> i > 0 && Under(kind, lines, i - 1).Ours()
      invariant !inserted ==> out == lines[..i]
      invariant inserted ==> out == lines[..f] + [entry] + Outside(kind, lines, f, i)
    {
      var line := lines[i];
      assert i < f ==> lines[..f][i] == line;
      if kind(line).Ours() {
        if !inserted {
          out := out + [entry];
          inserted := true;
        }
        skipping := true;
        continue;
      }
      if skipping && kind(line) != Plain {
        skipping := false;
      }
      if skipping {
        continue;
      }
      out := out + [line];
    }
    if !inserted {
      out := out + ["", entry];
    }
  }

  function RewrittenElements(kind: Classifier, lines: seq<string>, entry: string): seq<string>
  {
    var f := First(kind, lines);
    if f == |lines| then lines + ["", entry]
    else lines[..f] + [entry] + Outside(kind, lines, f, |lines|)
  }

  /** The removing loop. */
  method DropOurs(kind: Classifier, lines: seq<string>) returns (out: seq<string>)
    ensures out == Outside(kind, lines, 0, |lines|)
  {
    out := [];
    var skipping := false;
    for i := 0 to |lines|
      invariant skipping <==> i > 0 && Under(kind, lines, i - 1).Ours()
      invariant out == Outside(kind, lines, 0, i)
    {
      var line := lines[i];
      if kind(line).Ours() {
        skipping := true;
        continue;
      }
      if skipping && kind(line) != Plain {
        skipping := false;
      }
      if skipping {
        continue;
      }
      out := out + [line];
    }
  }

  /** The reading loop: does a line under the env header, and no header itself, pass the test? */
  method AnyUnderEnv(kind: Classifier, lines: seq<string>, test: string -> bool) returns (found: bool)
    ensures found <==> exists k :: 0 <= k < |lines| && UnderEnv(kind, lines, k) && test(lines[k])
  {
    var inEnv := false;
    for i := 0 to |lines|
      invariant inEnv <==> i > 0 && Under(kind, lines, i - 1) == Env
      invariant forall k :: 0 <= k < i ==> !(UnderEnv(kind, lines, k) && test(lines[k]))
    {
      var line := lines[i];
      if kind(line) != Plain {
        inEnv := kind(line) == Env;
        continue;
      }
      if inEnv && test(line) {
        assert UnderEnv(kind, lines, i);
        return true;
      }
    }
    return false;
  }

  lemma {:induction false} EnvNeedsHeader(kind: Classifier, lines: seq<string>, k: nat) returns (j: nat)
    requires k < |lines| && Under(kind, lines, k) == Env
    ensures j <= k && kind(lines[j]) == Env
  {
    if kind(lines[k]) != Plain || k == 0 {
      j := k;
    } else {
      j := EnvNeedsHeader(kind, lines, k - 1);
    }
  }

  predicate NoEnvHeader(kind: Classifier, lines: seq<string>)
  {
    forall j :: 0 <= j < |lines| ==> kind(lines[j]) != Env
  }

  lemma NoEnvBesideBlock(kind: Classifier, before: seq<string>, block: seq<string>, behind: seq<string>)
    requires Block(kind, block) && NoneOurs(kind, before) && Rest(kind, behind)
    ensures NoEnvHeader(kind, before + block + behind + [""])
  {
  }

  predicate UnderEnv(kind: Classifier, lines: seq<string>, k: nat)
    requires k < |lines|
  {
    kind(lines[k]) == Plain && Under(kind, lines, k) == Env
  }
}
