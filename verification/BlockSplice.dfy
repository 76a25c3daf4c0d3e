/**
  The managed block of `write-env --append`: one block between two marker lines, spliced into a
  file that may hold anything else.
 */
module BlockSplice {
  import opened Option
  import opened Text

  const BEGIN := "# --- hasp begin ---"
  const END := "# --- hasp end ---"

  datatype MarkerPair = MarkerPair(begin: string, end: string)

  /** What the proofs need of the two markers: one line each, neither inside the other, and a first character that
      does not come back in the begin marker. */
  predicate Proper(m: MarkerPair)
  {
    && m.begin != "" && '\n' !in m.begin && m.begin[0] !in m.begin[1..]
    && m.end != "" && '\n' !in m.end && Free(m.begin, m.end) && Free(m.end, m.begin)
  }

  type Markers = m: MarkerPair | Proper(m) witness HaspMarkers()

  function HaspMarkers(): (m: MarkerPair)
    ensures Proper(m)
  {
    HaspMarkersAreProper();
    MarkerPair(BEGIN, END)
  }

  lemma HaspMarkersAreProper()
    ensures Proper(MarkerPair(BEGIN, END))
  {
    BeginIsProper();
    EndIsProper();
    assert BEGIN[11] != END[11];
    OnlyAtFront(BEGIN, END);
  }

  lemma BeginIsProper()
    ensures |BEGIN| == 20 && BEGIN[0] == '#' && '\n' !in BEGIN && '#' !in BEGIN[1..] && BEGIN[11] == 'b'
  {
    assert BEGIN[1..] == " --- hasp begin ---";
  }

  lemma EndIsProper()
    ensures |END| == 18 && END[0] == '#' && '\n' !in END && END[11] == 'e'
  {
  }

  lemma OnlyAtFront(s: string, pat: string)
    requires 0 < |pat| <= |s| && pat[0] !in s[1..]
    requires exists k :: 0 <= k < |pat| && s[k] != pat[k]
    ensures Free(s, pat)
  {
    assert forall k :: 0 < k < |s| ==> s[k] == s[1..][k - 1] != pat[0];
    var k :| 0 <= k < |pat| && s[k] != pat[k];
    assert s[..|pat|][k] == s[k];
    assert forall i :: OccursAt(s, pat, i) ==> s[i] == s[i..i + |pat|][0] == pat[0];
  }

  const HASP: Markers := HaspMarkers()

  /** strings.Index */
  function Find(s: string, pat: string): (at: int)
    ensures at == -1 ==> forall i :: !OccursAt(s, pat, i)
    ensures at != -1 ==> OccursAt(s, pat, at) && forall i :: i < at ==> !OccursAt(s, pat, i)
  {
    FindFrom(s, pat, 0)
  }

  function FindFrom(s: string, pat: string, from: nat): (at: int)
    ensures at == -1 ==> forall i :: from <= i ==> !OccursAt(s, pat, i)
    ensures at != -1 ==> from <= at && OccursAt(s, pat, at) && forall i :: from <= i < at ==> !OccursAt(s, pat, i)
    decreases |s| - from
  {
    if from + |pat| > |s| then -1
    else if s[from..from + |pat|] == pat then from
    else FindFrom(s, pat, from + 1)
  }

  /** strings.Count: occurrences that do not overlap. */
  function Count(s: string, pat: string): nat
    requires pat != ""
    decreases |s|
  {
    var at := Find(s, pat);
    if at == -1 then 0 else 1 + Count(s[at + |pat|..], pat)
  }

  function Block(m: Markers, lines: seq<string>): string
  {
    m.begin + "\n" + Join(lines, '\n') + "\n" + m.end + "\n"
  }

  /** What a splice keeps of a file: the text before the block and the text behind it. */
  datatype Parts = Parts(head: string, tail: string)

  function Around(m: Markers, existing: string): Option<Parts>
  {
    var count := Count(existing, m.begin);
    if count > 1 then None
    else if count == 0 then
      if existing == "" then Some(Parts("", "")) else Some(Parts(StripNewlines(existing) + "\n", ""))
    else
      var begin := Find(existing, m.begin);
      var end := Find(existing[begin..], m.end);
      if end == -1 then Some(Parts(existing[..begin], ""))
      else
        var stop := begin + end + |m.end|;
        var next := if stop < |existing| && existing[stop] == '\n' then stop + 1 else stop;
        Some(Parts(existing[..begin], existing[next..]))
  }

  function Splice(m: Markers, existing: string, lines: seq<string>): Option<string>
  {
    var parts := Around(m, existing);
    if parts.None? then None else Some(parts.value.head + Block(m, lines) + parts.value.tail)
  }

  method SpliceAppend(existing: string, lines: seq<string>) returns (output: Option<string>)
    ensures output == Splice(HASP, existing, lines)
  {
    hide Find, StripNewlines, Join;
    var count := Count(existing, BEGIN);
    if count > 1 {
      return None;
    }
    var newBlock := BEGIN + "\n" + Join(lines, '\n') + "\n" + END + "\n";
    if count == 0 {
      if |existing| == 0 {
        assert newBlock == "" + newBlock + "";
        return Some(newBlock);
      }
      var trimmed := StripNewlines(existing);
      assert trimmed + "\n" + newBlock == trimmed + "\n" + newBlock + "";
      return Some(trimmed + "\n" + newBlock);
    }
    var begin := Find(existing, BEGIN);
    var end := Find(existing[begin..], END);
    if end == -1 {
      assert existing[..begin] + newBlock == existing[..begin] + newBlock + "";
      return Some(existing[..begin] + newBlock);
    }
    end := end + begin;
    var endLineEnd := end + |END|;
    if endLineEnd < |existing| && existing[endLineEnd] == '\n' {
      endLineEnd := endLineEnd + 1;
    }
    return Some(existing[..begin] + newBlock + existing[endLineEnd..]);
  }

  // ----- Where markers can occur

  /** A pattern without newlines does not reach across one. */
  lemma OccursOnOneSide(a: string, b: string, pat: string, i: int)
    requires pat != "" && '\n' !in pat
    ensures OccursAt(a + "\n" + b, pat, i) <==> OccursAt(a, pat, i) || OccursAt(b, pat, i - |a| - 1)
  {
    var s := a + "\n" + b;
    assert s[|a|] == '\n';
    if OccursAt(s, pat, i) {
      assert forall j :: i <= j < i + |pat| ==> s[j] == pat[j - i];
      if i <= |a| < i + |pat| {
        assert false;
      }
    }
    if 0 <= i <= |a| - |pat| {
      assert s[i..i + |pat|] == a[i..i + |pat|];
    }
    if 0 <= i - |a| - 1 <= |b| - |pat| {
      assert s[i..i + |pat|] == b[i - |a| - 1..i - |a| - 1 + |pat|];
    }
  }

  /** Two begin markers never overlap. */
  lemma BeginsStandApart(m: Markers, s: string, i: int, j: int)
    requires OccursAt(s, m.begin, i) && OccursAt(s, m.begin, j) && i < j
    ensures i + |m.begin| <= j
  {
    assert forall k :: 0 < k < |m.begin| ==> m.begin[k] == m.begin[1..][k - 1] != m.begin[0];
    assert forall k :: i <= k < i + |m.begin| ==> s[k] == m.begin[k - i];
    assert s[j] == s[j..j + |m.begin|][0] == m.begin[0];
    if j < i + |m.begin| {
      assert false;
    }
  }

  predicate OnlyAt(s: string, pat: string, at: int)
  {
    OccursAt(s, pat, at) && forall i :: 0 <= i <= |s| && OccursAt(s, pat, i) ==> i == at
  }

  lemma OccursInSuffix(s: string, pat: string, from: nat, i: int)
    requires from <= |s|
    ensures OccursAt(s[from..], pat, i) <==> i >= 0 && OccursAt(s, pat, from + i)
  {
    if 0 <= i <= |s| - from - |pat| {
      assert s[from..][i..i + |pat|] == s[from + i..from + i + |pat|];
    }
  }

  lemma OccursInPrefix(s: string, pat: string, n: nat, i: int)
    requires n <= |s|
    ensures OccursAt(s[..n], pat, i) <==> i + |pat| <= n && OccursAt(s, pat, i)
  {
    if 0 <= i <= n - |pat| {
      assert s[..n][i..i + |pat|] == s[i..i + |pat|];
    }
  }

  lemma NewlineBehind(s: string, from: nat, k: nat, tail: string)
    requires from + k <= |s| && s[from..][k..] == "\n" + tail
    ensures from + k < |s| && s[from + k] == '\n' && s[from + k + 1..] == tail
  {
    assert s[from..][k..][0] == '\n';
    assert s[from + k + 1..] == s[from..][k..][1..];
  }

  lemma CountsOne(m: Markers, s: string, at: int)
    requires OnlyAt(s, m.begin, at)
    ensures Find(s, m.begin) == at && Count(s, m.begin) == 1
  {
    hide Find;
    var rest := s[at + |m.begin|..];
    forall i
      ensures !OccursAt(rest, m.begin, i)
    {
      OccursInSuffix(s, m.begin, at + |m.begin|, i);
    }
    assert Find(rest, m.begin) == -1;
  }

  lemma CountedOnce(m: Markers, s: string)
    requires Count(s, m.begin) == 1
    ensures OnlyAt(s, m.begin, Find(s, m.begin))
  {
    var at := Find(s, m.begin);
    assert Find(s[at + |m.begin|..], m.begin) == -1;
    NoneBehind(m, s, at);
  }

  lemma NoneBehind(m: Markers, s: string, at: nat)
    requires at + |m.begin| <= |s| && Find(s, m.begin) == at && Find(s[at + |m.begin|..], m.begin) == -1
    ensures OnlyAt(s, m.begin, at)
  {
    hide Find, OccursAt;
    forall i | OccursAt(s, m.begin, i)
      ensures i == at
    {
      if i > at {
        BeginsStandApart(m, s, at, i);
        OccursInSuffix(s, m.begin, at + |m.begin|, i - at - |m.begin|);
      }
    }
  }

  // ----- The shape of a spliced file

  predicate Free(s: string, pat: string)
  {
    !Contains(s, pat)
  }

  lemma FreeMeansNowhere(s: string, pat: string)
    ensures Free(s, pat) <==> forall i :: !OccursAt(s, pat, i)
  {
  }

  predicate MarkerFree(m: Markers, lines: seq<string>)
  {
    forall i :: 0 <= i < |lines| ==> Free(lines[i], m.begin) && Free(lines[i], m.end)
  }

  /** Lines as write-env builds them: at least one, and none holds a newline. */
  predicate LineShaped(lines: seq<string>)
  {
    lines != [] && forall i :: 0 <= i < |lines| ==> Without(lines[i], '\n')
  }

  lemma {:induction false} FreeLinesJoin(lines: seq<string>, pat: string)
    requires pat != "" && '\n' !in pat
    ensures Free(Join(lines, '\n'), pat) <==> forall i :: 0 <= i < |lines| ==> Free(lines[i], pat)
  {
    if |lines| > 1 {
      var rest := Join(lines[1..], '\n');
      FreeLinesJoin(lines[1..], pat);
      assert forall i :: 1 <= i < |lines| ==> lines[i] == lines[1..][i - 1];
      FreeAcrossNewline(lines[0], rest, pat);
      assert lines[0] + ['\n'] + rest == lines[0] + "\n" + rest;
    }
  }

  lemma FreeAcrossNewline(a: string, b: string, pat: string)
    requires pat != "" && '\n' !in pat
    ensures Free(a + "\n" + b, pat) <==> Free(a, pat) && Free(b, pat)
  {
    if Contains(a, pat) {
      var i :| 0 <= i <= |a| && OccursAt(a, pat, i);
      OccursOnOneSide(a, b, pat, i);
    }
    if Contains(b, pat) {
      var i :| 0 <= i <= |b| && OccursAt(b, pat, i);
      OccursOnOneSide(a, b, pat, i + |a| + 1);
    }
    if Contains(a + "\n" + b, pat) {
      var i :| 0 <= i <= |a + "\n" + b| && OccursAt(a + "\n" + b, pat, i);
      OccursOnOneSide(a, b, pat, i);
    }
  }

  /** What Around promises about the text it keeps. */
  lemma KeptPartsAreFree(m: Markers, existing: string)
    requires Around(m, existing).Some?
    ensures Free(Around(m, existing).value.head, m.begin) && Free(Around(m, existing).value.tail, m.begin)
  {
    var parts := Around(m, existing).value;
    if Count(existing, m.begin) == 0 {
      StrippedIsFree(existing, m.begin);
    } else {
      CountedOnce(m, existing);
      TailStartsBehind(m, existing);
      PartsAreFree(m, existing, Find(existing, m.begin), parts);
    }
  }

  lemma PartsAreFree(m: Markers, s: string, begin: nat, parts: Parts)
    requires OnlyAt(s, m.begin, begin) && parts.head == s[..begin] && |parts.tail| <= |s|
    requires var from := |s| - |parts.tail|; begin < from && parts.tail == s[from..]
    ensures Free(parts.head, m.begin) && Free(parts.tail, m.begin)
  {
    hide OccursAt;
    var from := |s| - |parts.tail|;
    forall i
      ensures !OccursAt(parts.head, m.begin, i) && !OccursAt(parts.tail, m.begin, i)
    {
      OccursInPrefix(s, m.begin, begin, i);
      OccursInSuffix(s, m.begin, from, i);
      PlacesAreInside(s, m.begin);
    }
  }

  lemma PlacesAreInside(s: string, pat: string)
    ensures forall i :: OccursAt(s, pat, i) ==> 0 <= i <= |s|
  {
  }

  lemma StrippedIsFree(s: string, pat: string)
    requires pat != "" && '\n' !in pat && Free(s, pat)
    ensures Free(StripNewlines(s) + "\n", pat)
    ensures Free("", pat)
  {
    var kept := StripNewlines(s);
    StrippedIsPrefix(s);
    forall i
      ensures !OccursAt(kept, pat, i)
    {
      assert kept == s[..|kept|];
      FreeMeansNowhere(s, pat);
      OccursInPrefix(s, pat, |kept|, i);
    }
    assert kept + "\n" == kept + "\n" + "";
    FreeAcrossNewline(kept, "", pat);
  }

  lemma {:induction false} StrippedIsPrefix(s: string)
    ensures StripNewlines(s) <= s
    ensures forall i :: |StripNewlines(s)| <= i < |s| ==> s[i] == '\n'
    ensures var kept := StripNewlines(s); kept != "" ==> kept[|kept| - 1] != '\n'
  {
    if s != "" && s[|s| - 1] == '\n' {
      StrippedIsPrefix(s[..|s| - 1]);
    }
  }

  /** With one begin marker, the file is head, the old block, tail, and the old block is not empty. */
  lemma TailStartsBehind(m: Markers, existing: string)
    requires Count(existing, m.begin) == 1
    ensures var parts := Around(m, existing).value;
      var begin := Find(existing, m.begin);
      var from := |existing| - |parts.tail|;
      && parts.head == existing[..begin]
      && begin < from && parts.tail == existing[from..]
  {
    var begin := Find(existing, m.begin);
    var end := Find(existing[begin..], m.end);
    if end == -1 {
      assert existing[|existing|..] == "";
    }
  }

  function SkipNewline(s: string): string
  {
    if s != "" && s[0] == '\n' then s[1..] else s
  }

  /** Every byte before the begin marker stays, and every byte behind the end marker's line. */
  lemma SpliceKeepsTheRest(m: Markers, existing: string, lines: seq<string>)
    requires Count(existing, m.begin) == 1
    ensures var begin := Find(existing, m.begin);
      var end := Find(existing[begin..], m.end);
      var after := if end == -1 then "" else SkipNewline(existing[begin + end + |m.end|..]);
      Splice(m, existing, lines) == Some(existing[..begin] + Block(m, lines) + after)
  {
    hide Block, Find, SkipNewline;
    var begin := Find(existing, m.begin);
    var end := Find(existing[begin..], m.end);
    if end != -1 {
      SkipNewlineSteps(existing, begin + end + |m.end|);
    }
  }

  lemma SkipNewlineSteps(s: string, stop: nat)
    requires stop <= |s|
    ensures SkipNewline(s[stop..]) == if stop < |s| && s[stop] == '\n' then s[stop + 1..] else s[stop..]
  {
  }

  /** A file without a block keeps everything but its trailing newlines, and the block follows. */
  lemma SpliceAppends(m: Markers, existing: string, lines: seq<string>)
    requires Free(existing, m.begin)
    ensures var kept := StripNewlines(existing);
      && kept <= existing && (forall i :: |kept| <= i < |existing| ==> existing[i] == '\n')
      && (kept != "" ==> kept[|kept| - 1] != '\n')
      && Splice(m, existing, lines) == Some((if existing == "" then "" else kept + "\n") + Block(m, lines))
  {
    StrippedIsPrefix(existing);
    FreeMeansNowhere(existing, m.begin);
    assert Count(existing, m.begin) == 0;
    var head := if existing == "" then "" else StripNewlines(existing) + "\n";
    assert Around(m, existing) == Some(Parts(head, ""));
    assert head + Block(m, lines) + "" == head + Block(m, lines);
  }

  /** In a spliced file the only begin marker is the block's, when the lines hold none. */
  lemma OneBegin(m: Markers, head: string, lines: seq<string>, tail: string)
    requires Free(head, m.begin) && Free(tail, m.begin)
    requires Free(Join(lines, '\n'), m.begin)
    ensures OnlyAt(head + Block(m, lines) + tail, m.begin, |head|)
  {
    var body, s := Join(lines, '\n'), head + Block(m, lines) + tail;
    FreeAcrossNewline(m.end, tail, m.begin);
    FreeAcrossNewline(body, m.end + "\n" + tail, m.begin);
    var rest := body + "\n" + (m.end + "\n" + tail);
    assert s == (head + m.begin) + "\n" + rest;
    OneBeginBefore(m, head, rest, s);
  }

  lemma OneBeginBefore(m: Markers, head: string, rest: string, s: string)
    requires Free(head, m.begin) && Free(rest, m.begin) && s == (head + m.begin) + "\n" + rest
    ensures OnlyAt(s, m.begin, |head|)
  {
    forall i | OccursAt(s, m.begin, i)
      ensures i == |head|
    {
      OccursOnOneSide(head + m.begin, rest, m.begin, i);
      FreeMeansNowhere(rest, m.begin);
      OnlyTheAppendedMarker(m, head, i);
    }
    assert s[|head|..|head| + |m.begin|] == m.begin;
  }

  lemma OnlyTheAppendedMarker(m: Markers, head: string, i: int)
    requires Free(head, m.begin) && OccursAt(head + m.begin, m.begin, i)
    ensures i == |head|
  {
    var s := head + m.begin;
    assert s[|head|..|head| + |m.begin|] == m.begin;
    FreeMeansNowhere(head, m.begin);
    assert !OccursAt(head, m.begin, i);
    if i < |head| {
      BeginsStandApart(m, s, i, |head|);
      assert false;
    }
  }

  /** Where the end marker of the block stands, counted from its begin marker. */
  function EndOffset(m: Markers, lines: seq<string>): nat
  {
    |m.begin| + 1 + |Join(lines, '\n')| + 1
  }

  lemma EndStands(m: Markers, lines: seq<string>, tail: string)
    ensures OccursAt(Block(m, lines) + tail, m.end, EndOffset(m, lines))
    ensures (Block(m, lines) + tail)[EndOffset(m, lines) + |m.end|..] == "\n" + tail
  {
    var s, at := Block(m, lines) + tail, EndOffset(m, lines);
    assert s == (m.begin + "\n" + Join(lines, '\n') + "\n") + m.end + ("\n" + tail);
    assert s[at..at + |m.end|] == m.end;
  }

  /** The first occurrence of end behind a body is the closing one, exactly when the body holds none. */
  lemma FirstOccurrence(begin: string, body: string, end: string, tail: string)
    requires end != "" && '\n' !in end && Free(begin, end)
    ensures var at := |begin| + 1 + |body| + 1;
      var found := Find(begin + "\n" + (body + "\n" + (end + "\n" + tail)), end);
      0 <= found <= at && (found == at <==> Free(body, end))
  {
    var second := end + "\n" + tail;
    var rest := body + "\n" + second;
    var s := begin + "\n" + rest;
    var at, found := |begin| + 1 + |body| + 1, Find(s, end);
    assert second[..|end|] == end;
    OccursOnOneSide(body, second, end, |body| + 1);
    OccursOnOneSide(begin, rest, end, at);
    OccursOnOneSide(begin, rest, end, found);
    OccursOnOneSide(body, second, end, found - |begin| - 1);
    if !Free(body, end) {
      var i :| 0 <= i <= |body| && OccursAt(body, end, i);
      OccursOnOneSide(body, second, end, i);
      OccursOnOneSide(begin, rest, end, i + |begin| + 1);
    }
  }

  lemma FirstEnd(m: Markers, lines: seq<string>, tail: string)
    ensures var end := Find(Block(m, lines) + tail, m.end);
      && 0 <= end <= EndOffset(m, lines)
      && (end == EndOffset(m, lines) <==> Free(Join(lines, '\n'), m.end))
  {
    var body := Join(lines, '\n');
    FirstOccurrence(m.begin, body, m.end, tail);
    assert Block(m, lines) + tail == m.begin + "\n" + (body + "\n" + (m.end + "\n" + tail));
  }

  /** Taking a spliced file apart again gives back what the splice kept, exactly when the lines hold no marker. */
  lemma ReparseIffMarkerFree(m: Markers, parts: Parts, lines: seq<string>)
    requires Free(parts.head, m.begin) && Free(parts.tail, m.begin)
    ensures Around(m, parts.head + Block(m, lines) + parts.tail) == Some(parts) <==> MarkerFree(m, lines)
  {
    var Parts(head, tail) := parts;
    var s := head + Block(m, lines) + tail;
    hide Around, Block;
    if MarkerFree(m, lines) {
      FreeLinesJoin(lines, m.begin);
      FreeLinesJoin(lines, m.end);
      ReparseFree(m, head, lines, tail);
    } else if Around(m, s).Some? {
      AroundIsLonger(m, parts, lines, s);
    }
  }

  lemma ReparseFree(m: Markers, head: string, lines: seq<string>, tail: string)
    requires Free(head, m.begin) && Free(tail, m.begin)
    requires Free(Join(lines, '\n'), m.begin) && Free(Join(lines, '\n'), m.end)
    ensures Around(m, head + Block(m, lines) + tail) == Some(Parts(head, tail))
  {
    hide Block, Find, Count, Free;
    var s := head + Block(m, lines) + tail;
    OneBegin(m, head, lines, tail);
    CountsOne(m, s, |head|);
    assert s[|head|..] == Block(m, lines) + tail;
    assert s[..|head|] == head;
    FirstEnd(m, lines, tail);
    EndStands(m, lines, tail);
    NewlineBehind(s, |head|, EndOffset(m, lines) + |m.end|, tail);
  }

  /** A begin marker inside the lines makes the file ambiguous. */
  lemma SecondBegin(m: Markers, head: string, lines: seq<string>, tail: string, i: int)
    requires OccursAt(Join(lines, '\n'), m.begin, i)
    ensures Around(m, head + Block(m, lines) + tail).None?
  {
    var body, s := Join(lines, '\n'), head + Block(m, lines) + tail;
    var rest := body + "\n" + (m.end + "\n" + tail);
    assert s == (head + m.begin) + "\n" + rest;
    TwoBegins(m, head, body, m.end + "\n" + tail, i);
    NotCountedOnce(m, s, |head|, i + |head + m.begin| + 1);
  }

  lemma TwoBegins(m: Markers, head: string, body: string, tail: string, i: int)
    requires OccursAt(body, m.begin, i)
    ensures var s := (head + m.begin) + "\n" + (body + "\n" + tail);
      OccursAt(s, m.begin, |head|) && OccursAt(s, m.begin, i + |head + m.begin| + 1)
  {
    var front, rest := head + m.begin, body + "\n" + tail;
    assert front[|head|..|head| + |m.begin|] == m.begin;
    assert OccursAt(front, m.begin, |head|);
    hide OccursAt;
    OccursOnOneSide(body, tail, m.begin, i);
    OccursOnOneSide(front, rest, m.begin, i + |front| + 1);
    OccursOnOneSide(front, rest, m.begin, |head|);
  }

  /** Two begin markers are counted as more than one. */
  lemma NotCountedOnce(m: Markers, s: string, i: nat, j: nat)
    requires i < j && OccursAt(s, m.begin, i) && OccursAt(s, m.begin, j)
    ensures Count(s, m.begin) > 1 && Around(m, s).None?
  {
    assert Find(s, m.begin) != -1;
    if Count(s, m.begin) == 1 {
      CountedOnce(m, s);
      assert false;
    }
  }

  /** A later splice replaces an earlier one as if that had never been, for every pair of writes, exactly when
      the earlier lines hold no marker. (With the same lines twice: the splice is idempotent.) */
  lemma LastSpliceWins(m: Markers, existing: string, a: seq<string>, b: seq<string>)
    requires Splice(m, existing, a).Some?
    ensures Splice(m, Splice(m, existing, a).value, b) == Splice(m, existing, b) <==> MarkerFree(m, a)
  {
    var parts := Around(m, existing).value;
    KeptPartsAreFree(m, existing);
    ReparseIffMarkerFree(m, parts, a);
    if !MarkerFree(m, a) {
      LeakChangesSplice(m, parts, a, Splice(m, existing, a).value, b);
    }
  }

  lemma LeakChangesSplice(m: Markers, parts: Parts, a: seq<string>, s: string, b: seq<string>)
    requires Free(parts.head, m.begin) && Free(parts.tail, m.begin)
    requires !MarkerFree(m, a) && s == parts.head + Block(m, a) + parts.tail
    ensures Splice(m, s, b) != Some(parts.head + Block(m, b) + parts.tail)
  {
    if Around(m, s).Some? {
      AroundIsLonger(m, parts, a, s);
      LongerTailTells(parts.head, Block(m, b), Around(m, s).value.tail, parts.tail);
    }
  }

  lemma LongerTailTells(head: string, block: string, long: string, short: string)
    requires |long| > |short|
    ensures head + block + long != head + block + short
  {
  }

  /** When a line holds an end marker, what stands behind it is taken for text of the user's. */
  lemma AroundIsLonger(m: Markers, parts: Parts, lines: seq<string>, s: string)
    requires Free(parts.head, m.begin) && Free(parts.tail, m.begin)
    requires s == parts.head + Block(m, lines) + parts.tail
    requires !MarkerFree(m, lines) && Around(m, s).Some?
    ensures Around(m, s).value.head == parts.head && |Around(m, s).value.tail| > |parts.tail|
  {
    var Parts(head, tail) := parts;
    var body := Join(lines, '\n');
    FreeLinesJoin(lines, m.begin);
    FreeLinesJoin(lines, m.end);
    if !Free(body, m.begin) {
      var i :| 0 <= i <= |body| && OccursAt(body, m.begin, i);
      SecondBegin(m, head, lines, tail, i);
    } else {
      EarlyEnd(m, head, lines, tail, s);
    }
  }

  lemma EarlyEnd(m: Markers, head: string, lines: seq<string>, tail: string, s: string)
    requires Free(head, m.begin) && Free(tail, m.begin)
    requires s == head + Block(m, lines) + tail
    requires Free(Join(lines, '\n'), m.begin) && !Free(Join(lines, '\n'), m.end)
    ensures Around(m, s).Some? && Around(m, s).value.head == head && |Around(m, s).value.tail| > |tail|
  {
    OneBegin(m, head, lines, tail);
    CountsOne(m, s, |head|);
    assert s[|head|..] == Block(m, lines) + tail && s[..|head|] == head;
    FirstEnd(m, lines, tail);
    BlockLength(m, lines);
  }

  lemma BlockLength(m: Markers, lines: seq<string>)
    ensures |Block(m, lines)| == EndOffset(m, lines) + |m.end| + 1
  {
  }

  // ----- What is written, and when

  lemma {:induction false} CountsSeveral(s: string, pat: string)
    requires pat != "" && Count(s, pat) > 1
    ensures exists i, j :: 0 <= i && i + |pat| <= j && OccursAt(s, pat, i) && OccursAt(s, pat, j)
  {
    var i := Find(s, pat);
    var rest := s[i + |pat|..];
    var k := Find(rest, pat);
    OccursInSuffix(s, pat, i + |pat|, k);
    assert OccursAt(s, pat, i) && OccursAt(s, pat, i + |pat| + k);
  }

  predicate TwoOf(s: string, pat: string)
  {
    exists i, j :: 0 <= i < j <= |s| && OccursAt(s, pat, i) && OccursAt(s, pat, j)
  }

  /** A write is refused exactly when the file holds two begin markers, and else it writes the marker lines with the
      given lines between them. */
  lemma SpliceMeans(existing: string, lines: seq<string>)
    ensures Splice(HASP, existing, lines).None? <==> TwoOf(existing, "# --- hasp begin ---")
    ensures Splice(HASP, existing, lines).Some? ==>
      exists head, tail :: Splice(HASP, existing, lines).value
        == head + ("# --- hasp begin ---\n" + Join(lines, '\n') + "\n# --- hasp end ---\n") + tail
  {
    BlockMeans(lines);
    SpliceRefusesIff(HASP, existing, lines);
    hide Block, Around, Join;
    if Splice(HASP, existing, lines).Some? {
      var Parts(head, tail) := Around(HASP, existing).value;
      assert Splice(HASP, existing, lines).value == head + Block(HASP, lines) + tail;
    }
  }

  lemma BlockMeans(lines: seq<string>)
    ensures Block(HASP, lines) == "# --- hasp begin ---\n" + Join(lines, '\n') + "\n# --- hasp end ---\n"
    ensures HASP.begin == "# --- hasp begin ---"
  {
    hide Join;
    var body := Join(lines, '\n');
    assert BEGIN + "\n" + body + "\n" + END + "\n" == (BEGIN + "\n") + body + ("\n" + END + "\n");
  }

  lemma SpliceRefusesIff(m: Markers, existing: string, lines: seq<string>)
    ensures Splice(m, existing, lines).None? <==> TwoOf(existing, m.begin)
  {
    hide Find, StripNewlines;
    if Count(existing, m.begin) > 1 {
      CountsSeveral(existing, m.begin);
    } else if TwoOf(existing, m.begin) {
      var i, j :| 0 <= i < j <= |existing| && OccursAt(existing, m.begin, i) && OccursAt(existing, m.begin, j);
      NotCountedOnce(m, existing, i, j);
    }
  }

  // ----- Reading the block back

  /** The lines between the markers of a file with one block. */
  function ReadBlock(m: Markers, s: string): seq<string>
  {
    var begin := Find(s, m.begin);
    if begin == -1 then []
    else
      var block := s[begin..];
      var end := Find(block, m.end);
      if end < |m.begin| + 2 then [] else Split(block[|m.begin| + 1..end - 1], '\n')
  }

  /** After a successful splice of marker-free, newline-free lines there is exactly one begin marker, and the
      block reads back as the lines. */
  lemma SpliceReadsBack(m: Markers, existing: string, lines: seq<string>)
    requires Splice(m, existing, lines).Some? && LineShaped(lines) && MarkerFree(m, lines)
    ensures var s := Splice(m, existing, lines).value;
      OnlyAt(s, m.begin, Find(s, m.begin)) && Count(s, m.begin) == 1 && ReadBlock(m, s) == lines
  {
    var Parts(head, tail) := Around(m, existing).value;
    KeptPartsAreFree(m, existing);
    BlockReadsBack(m, head, lines, tail);
  }

  lemma BlockReadsBack(m: Markers, head: string, lines: seq<string>, tail: string)
    requires Free(head, m.begin) && Free(tail, m.begin) && LineShaped(lines) && MarkerFree(m, lines)
    ensures var s := head + Block(m, lines) + tail;
      OnlyAt(s, m.begin, |head|) && Find(s, m.begin) == |head| && Count(s, m.begin) == 1 && ReadBlock(m, s) == lines
  {
    var s := head + Block(m, lines) + tail;
    FreeLinesJoin(lines, m.begin);
    FreeLinesJoin(lines, m.end);
    OneBegin(m, head, lines, tail);
    CountsOne(m, s, |head|);
    assert s[|head|..] == Block(m, lines) + tail;
    ReadsBackFrom(m, s, |head|, lines, tail);
  }

  lemma ReadsBackFrom(m: Markers, s: string, begin: nat, lines: seq<string>, tail: string)
    requires Find(s, m.begin) == begin <= |s| && s[begin..] == Block(m, lines) + tail
    requires LineShaped(lines) && Free(Join(lines, '\n'), m.end)
    ensures ReadBlock(m, s) == lines
  {
    FirstEnd(m, lines, tail);
    BodyStands(m, lines, tail);
    SplitJoin(lines, '\n');
  }

  lemma BodyStands(m: Markers, lines: seq<string>, tail: string)
    ensures EndOffset(m, lines) - 1 <= |Block(m, lines) + tail|
    ensures (Block(m, lines) + tail)[|m.begin| + 1..EndOffset(m, lines) - 1] == Join(lines, '\n')
  {
    assert Block(m, lines) + tail == (m.begin + "\n") + Join(lines, '\n') + ("\n" + m.end + "\n" + tail);
  }

  // ----- The lines

  /** rejectLineDeliveryNewline */
  predicate Deliverable(value: string)
  {
    '\n' !in value && '\r' !in value
  }

  /** authorizeWriteEnvExport: a line per destination, or none at all when a value has a line break. */
  method BuildLines(entries: seq<(string, string)>, separator: string) returns (lines: Option<seq<string>>)
    requires Without(separator, '\n') && forall i :: 0 <= i < |entries| ==> Without(entries[i].0, '\n')
    ensures lines.Some? <==> forall i :: 0 <= i < |entries| ==> Deliverable(entries[i].1)
    ensures lines.Some? ==> |lines.value| == |entries|
    ensures lines.Some? ==> forall i :: 0 <= i < |entries| ==>
      lines.value[i] == entries[i].0 + separator + entries[i].1 && Without(lines.value[i], '\n')
  {
    var out: seq<string> := [];
    for i := 0 to |entries|
      invariant |out| == i
      invariant forall j :: 0 <= j < i ==> Deliverable(entries[j].1)
      invariant forall j :: 0 <= j < i ==>
        out[j] == entries[j].0 + separator + entries[j].1 && Without(out[j], '\n')
    {
      var (name, value) := entries[i];
      if !Deliverable(value) {
        return None;
      }
      out := out + [name + separator + value];
    }
    return Some(out);
  }

  /** A value may hold the end marker: it passes the newline check, and then, over any file that is
      not refused, the next write leaves a piece of it behind as if it were the user's text. */
  lemma EndMarkerInValueLeaksOut(existing: string, key: string, before: string, rest: string, next: seq<string>)
    requires Deliverable(before) && Deliverable(rest)
    requires Splice(HASP, existing, next).Some?
    ensures Deliverable(before + END + rest)
    ensures var line := key + (before + END + rest);
      && Splice(HASP, existing, [line]).Some?
      && Splice(HASP, Splice(HASP, existing, [line]).value, next) != Splice(HASP, existing, next)
  {
    hide Splice;
    assert key + (before + END + rest) == (key + before) + END + rest;
    MarkedLineLeaks(HASP, existing, key + before, rest, next);
  }

  lemma MarkedLineLeaks(m: Markers, existing: string, key: string, rest: string, next: seq<string>)
    requires Splice(m, existing, next).Some?
    ensures var line := key + m.end + rest;
      && Splice(m, existing, [line]).Some?
      && Splice(m, Splice(m, existing, [line]).value, next) != Splice(m, existing, next)
  {
    var line := key + m.end + rest;
    assert line[|key|..|key| + |m.end|] == m.end;
    assert OccursAt(line, m.end, |key|);
    assert [line][0] == line;
    assert Splice(m, existing, [line]).Some?;
    hide Splice;
    LastSpliceWins(m, existing, [line], next);
  }
}
