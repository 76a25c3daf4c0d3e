/** The pieces of Go's strings package that the program's text handling rests on. */
module Text {
  // ----- Splitting on a separator character, and joining

  predicate Without(s: string, c: char)
  {
    c !in s
  }

  /** strings.Join with a one-character separator. */
  function Join(parts: seq<string>, sep: char): string
  {
    if parts == [] then ""
    else if |parts| == 1 then parts[0]
    else parts[0] + [sep] + Join(parts[1..], sep)
  }

  /** The first index of c, or |s|. */
  function IndexOf(s: string, c: char): (i: nat)
    ensures i <= |s| && c !in s[..i] && (i < |s| ==> s[i] == c)
  {
    if s == "" || s[0] == c then 0
    else
      var i := 1 + IndexOf(s[1..], c);
      assert s[..i] == [s[0]] + s[1..][..i - 1];
      i
  }

  /** strings.Split with a one-character separator. */
  function Split(s: string, sep: char): (parts: seq<string>)
    ensures parts != []
    decreases |s|
  {
    var i := IndexOf(s, sep);
    if i == |s| then [s] else [s[..i]] + Split(s[i + 1..], sep)
  }

  lemma IndexOfFirst(head: string, tail: string, c: char)
    requires c !in head && tail != "" && tail[0] == c
    ensures IndexOf(head + tail, c) == |head|
  {
    var s := head + tail;
    var i := IndexOf(s, c);
    assert s[|head|] == c;
    if i < |head| {
      assert false;
    } else if i > |head| {
      assert false;
    }
  }

  lemma {:induction false} SplitJoin(parts: seq<string>, sep: char)
    requires parts != []
    requires forall i :: 0 <= i < |parts| ==> Without(parts[i], sep)
    ensures Split(Join(parts, sep), sep) == parts
  {
    var s := Join(parts, sep);
    assert Without(parts[0], sep);
    if |parts| == 1 {
      assert IndexOf(s, sep) == |s|;
    } else {
      var rest := Join(parts[1..], sep);
      assert s == parts[0] + ([sep] + rest);
      IndexOfFirst(parts[0], [sep] + rest, sep);
      assert s[|parts[0]| + 1..] == rest;
      forall i | 0 <= i < |parts[1..]|
        ensures Without(parts[1..][i], sep)
      {
        assert Without(parts[i + 1], sep);
      }
      SplitJoin(parts[1..], sep);
    }
  }

  lemma {:induction false} JoinSplit(s: string, sep: char)
    ensures Join(Split(s, sep), sep) == s
    ensures forall i :: 0 <= i < |Split(s, sep)| ==> Without(Split(s, sep)[i], sep)
    decreases |s|
  {
    var i := IndexOf(s, sep);
    if i < |s| {
      JoinSplit(s[i + 1..], sep);
      assert s == s[..i] + [sep] + s[i + 1..];
      assert Split(s, sep)[1..] == Split(s[i + 1..], sep);
    } else {
      assert s[..i] == s;
    }
  }

  lemma {:induction false} JoinAppend(a: seq<string>, b: seq<string>, sep: char)
    requires a != [] && b != []
    ensures Join(a + b, sep) == Join(a, sep) + [sep] + Join(b, sep)
  {
    assert (a + b)[1..] == a[1..] + b;
    if |a| > 1 {
      JoinAppend(a[1..], b, sep);
    }
  }

  // ----- White space (unicode.IsSpace)

  predicate IsSpace(c: char)
  {
    || c == '\t' || c == '\n' || c == '\U{0B}' || c == '\U{0C}' || c == '\r' || c == ' '
    || c == '\U{85}' || c == '\U{A0}' || c == '\U{1680}' || '\U{2000}' <= c <= '\U{200A}'
    || c == '\U{2028}' || c == '\U{2029}' || c == '\U{202F}' || c == '\U{205F}' || c == '\U{3000}'
  }

  function TrimLeft(s: string): string
  {
    if s != "" && IsSpace(s[0]) then TrimLeft(s[1..]) else s
  }

  function TrimRight(s: string): string
  {
    if s != "" && IsSpace(s[|s| - 1]) then TrimRight(s[..|s| - 1]) else s
  }

  /** strings.TrimSpace */
  function TrimSpace(s: string): string
  {
    TrimRight(TrimLeft(s))
  }

  predicate Blank(s: string)
  {
    TrimSpace(s) == ""
  }

  /** Nothing to trim: s neither begins nor ends with white space. */
  lemma TrimNothing(s: string)
    requires s == "" || (!IsSpace(s[0]) && !IsSpace(s[|s| - 1]))
    ensures TrimSpace(s) == s
  {
  }

  predicate AllSpace(s: string)
  {
    forall k :: 0 <= k < |s| ==> IsSpace(s[k])
  }

  /** Trimming takes white space away at both ends, and all of it. */
  lemma TrimMeans(s: string) returns (i: nat, j: nat)
    ensures i <= j <= |s| && TrimSpace(s) == s[i..j]
    ensures AllSpace(s[..i]) && AllSpace(s[j..])
    ensures i < j ==> !IsSpace(s[i]) && !IsSpace(s[j - 1])
  {
    i := TrimLeftMeans(s);
    var k := TrimRightMeans(s[i..]);
    j := i + k;
    assert s[i..][..j - i] == s[i..j] && s[i..][j - i..] == s[j..];
    if i < j {
      assert s[i..][0] == s[i] && s[i..][j - i - 1] == s[j - 1];
    }
  }

  lemma {:induction false} TrimLeftMeans(s: string) returns (i: nat)
    ensures i <= |s| && TrimLeft(s) == s[i..] && AllSpace(s[..i]) && (i < |s| ==> !IsSpace(s[i]))
  {
    i := 0;
    if s != "" && IsSpace(s[0]) {
      var k := TrimLeftMeans(s[1..]);
      i := k + 1;
      assert s[..i] == [s[0]] + s[1..][..k] && s[1..][k..] == s[i..];
    }
  }

  lemma {:induction false} TrimRightMeans(s: string) returns (j: nat)
    ensures j <= |s| && TrimRight(s) == s[..j] && AllSpace(s[j..]) && (j > 0 ==> !IsSpace(s[j - 1]))
  {
    j := |s|;
    if s != "" && IsSpace(s[|s| - 1]) {
      j := TrimRightMeans(s[..|s| - 1]);
      assert s[j..] == s[..|s| - 1][j..] + [s[|s| - 1]] && s[..|s| - 1][..j] == s[..j];
    }
  }

  // ----- Occurrences of a substring

  predicate OccursAt(s: string, pat: string, i: int)
  {
    0 <= i <= |s| - |pat| && s[i..i + |pat|] == pat
  }

  /** strings.Contains */
  predicate Contains(s: string, pat: string)
  {
    exists i :: 0 <= i <= |s| && OccursAt(s, pat, i)
  }

  function StripNewlines(s: string): string
  {
    if s != "" && s[|s| - 1] == '\n' then StripNewlines(s[..|s| - 1]) else s
  }

  function StripLeadingNewlines(s: string): string
  {
    if s != "" && s[0] == '\n' then StripLeadingNewlines(s[1..]) else s
  }

  /** Between newlines, a line is found in a text exactly when it is one of its lines. */
  lemma {:induction false} WholeLine(text: string, line: string)
    requires Without(line, '\n')
    ensures Contains("\n" + text + "\n", "\n" + line + "\n") <==> line in Split(text, '\n')
    decreases |text|
  {
    var end := IndexOf(text, '\n');
    var first := text[..end];
    FirstLineOccurs(text, first, line);
    if end < |text| {
      var rest := text[end + 1..];
      assert text == first + "\n" + rest;
      WholeLine(rest, line);
      OccursBehind(first, rest, line);
    } else {
      assert text == first;
      OccursOnce(text, line);
    }
  }

  /** At the very front, the line is found exactly when it is the first line. */
  lemma FirstLineOccurs(text: string, first: string, line: string)
    requires Without(line, '\n') && Without(first, '\n')
    requires text == first || (first + "\n" <= text)
    ensures OccursAt("\n" + text + "\n", "\n" + line + "\n", 0) <==> line == first
  {
    var s, pat := "\n" + text + "\n", "\n" + line + "\n";
    assert s[0] == '\n' && s[|first| + 1] == '\n';
    assert forall k :: 0 <= k < |first| ==> s[k + 1] == first[k] != '\n';
    assert forall k :: 0 <= k < |line| ==> pat[k + 1] == line[k] != '\n';
    assert pat[|line| + 1] == '\n';
    if line == first {
      assert s[..|pat|] == pat;
    }
    if OccursAt(s, pat, 0) {
      assert forall k :: 0 <= k < |pat| ==> s[k] == pat[k];
      assert |line| == |first|;
    }
  }

  /** Without a newline in the text there is no other place. */
  lemma OccursOnce(text: string, line: string)
    requires Without(text, '\n')
    ensures forall i :: OccursAt("\n" + text + "\n", "\n" + line + "\n", i) ==> i == 0
  {
    var s, pat := "\n" + text + "\n", "\n" + line + "\n";
    assert forall k :: 0 < k <= |text| ==> s[k] == text[k - 1] != '\n';
    forall i | OccursAt(s, pat, i)
      ensures i == 0
    {
      assert s[i] == s[i..i + |pat|][0] == '\n';
    }
  }

  /** Behind the first line, it is found where it is found in the rest. */
  lemma OccursBehind(first: string, rest: string, line: string)
    requires Without(first, '\n')
    ensures var s, pat := "\n" + (first + "\n" + rest) + "\n", "\n" + line + "\n";
      Contains(s, pat) <==> OccursAt(s, pat, 0) || Contains("\n" + rest + "\n", pat)
  {
    var s, pat := "\n" + (first + "\n" + rest) + "\n", "\n" + line + "\n";
    var t, n := "\n" + rest + "\n", |first| + 1;
    assert s[n..] == t;
    assert forall k :: 0 < k < n ==> s[k] == first[k - 1] != '\n';
    forall i | OccursAt(s, pat, i)
      ensures i == 0 || (n <= i && OccursAt(t, pat, i - n))
    {
      assert s[i] == s[i..i + |pat|][0] == '\n';
      if i >= n {
        assert t[i - n..i - n + |pat|] == s[i..i + |pat|];
      }
    }
    forall i | OccursAt(t, pat, i)
      ensures OccursAt(s, pat, i + n)
    {
      assert t[i..i + |pat|] == s[i + n..i + n + |pat|];
    }
    if Contains(t, pat) {
      var i :| 0 <= i <= |t| && OccursAt(t, pat, i);
      assert OccursAt(s, pat, i + n);
    }
  }
}
