/** The server's entry in Codex's TOML configuration: written, removed, and looked at, line by line. */
module CodexConfig {
  import opened Text
  import opened TomlSections

  // ----- The lines of the entry

  const SERVER := "[mcp_servers.hasp]"
  const ENV := "[mcp_servers.hasp.env]"

  function Classify(line: string): Kind
  {
    var trimmed := TrimSpace(line);
    if trimmed == SERVER then Server
    else if trimmed == ENV then Env
    else if IsHeader(trimmed) then Other
    else Plain
  }

  predicate IsHeader(trimmed: string)
  {
    trimmed != "" && trimmed[0] == '[' && trimmed[|trimmed| - 1] == ']'
  }

  /** The classes are the loops' own tests on the trimmed line. */
  lemma ClassesAreTheTests(line: string)
    ensures var trimmed := TrimSpace(line);
      && (Classify(line).Ours() <==> trimmed == SERVER || trimmed == ENV)
      && (Classify(line) != Plain <==> IsHeader(trimmed))
      && (Classify(line) == Env <==> trimmed == ENV)
  {
    assert |SERVER| == 18 && SERVER[17] == ']';
    assert |ENV| == 22 && ENV[21] == ']';
  }

  /** The two lines of the entry; quoted is the command's path as a JSON string. */
  function Entry(quoted: string): seq<string>
  {
    [SERVER, "command = " + quoted]
  }

  lemma TrimKeepsFirst(s: string)
    requires s != "" && !IsSpace(s[0])
    ensures TrimSpace(s) != "" && TrimSpace(s)[0] == s[0]
  {
    assert TrimLeft(s) == s;
    TrimRightKeepsFirst(s);
  }

  lemma {:induction false} TrimRightKeepsFirst(s: string)
    requires s != "" && !IsSpace(s[0])
    ensures TrimRight(s) != "" && TrimRight(s)[0] == s[0]
  {
    if IsSpace(s[|s| - 1]) {
      TrimRightKeepsFirst(s[..|s| - 1]);
    }
  }

  lemma ServerLine()
    ensures SERVER != "" && Without(SERVER, '\n') && Classify(SERVER) == Server
  {
    assert |SERVER| == 18;
    TrimNothing(SERVER);
  }

  lemma CommandLine(quoted: string)
    requires Without(quoted, '\n')
    ensures var line := "command = " + quoted; line != "" && Without(line, '\n') && Classify(line) == Plain
  {
    var line := "command = " + quoted;
    assert line[0] == 'c';
    TrimKeepsFirst(line);
  }

  lemma EntryIsBlock(quoted: string)
    requires Without(quoted, '\n')
    ensures Block(Classify, Entry(quoted))
    ensures forall i :: 0 <= i < |Entry(quoted)| ==> Without(Entry(quoted)[i], '\n')
  {
    ServerLine();
    CommandLine(quoted);
    assert Classify("") == Plain;
  }

  lemma StrippedEntry(entry: seq<string>)
    requires |entry| == 2 && entry[1] != "" && Without(entry[1], '\n')
    ensures StripNewlines(Join(entry, '\n') + "\n") == Join(entry, '\n')
  {
    var s := Join(entry, '\n');
    assert entry[1..] == [entry[1]];
    assert s == entry[0] + "\n" + entry[1];
    assert s[|s| - 1] == entry[1][|entry[1]| - 1];
    assert (s + "\n")[..|s|] == s;
  }

  // ----- Writing and removing

  function Upsert(existing: string, quoted: string): string
  {
    var content := StripNewlines(existing);
    if content == "" then Join(Entry(quoted), '\n') + "\n"
    else StripLeadingNewlines(Join(Rewritten(Classify, Split(content, '\n'), Entry(quoted)), '\n')) + "\n"
  }

  function Remove(existing: string): string
  {
    var content := StripNewlines(existing);
    if content == "" then ""
    else
      var lines := Split(content, '\n');
      TrimSpace(Join(Outside(Classify, lines, 0, |lines|), '\n')) + "\n"
  }

  method UpsertEntry(existing: string, quoted: string) returns (text: string)
    requires Without(quoted, '\n')
    ensures text == Upsert(existing, quoted)
  {
    var block := Join(Entry(quoted), '\n') + "\n";
    var content := StripNewlines(existing);
    if content == "" {
      return block;
    }
    EntryIsBlock(quoted);
    StrippedEntry(Entry(quoted));
    var lines := Split(content, '\n');
    var out := RewriteLines(Classify, lines, StripNewlines(block));
    RewrittenText(lines, Entry(quoted), out);
    return StripLeadingNewlines(Join(out, '\n')) + "\n";
  }

  lemma RewrittenText(lines: seq<string>, entry: seq<string>, out: seq<string>)
    requires |entry| == 2 && lines != [] && out == RewrittenElements(Classify, lines, Join(entry, '\n'))
    ensures Join(out, '\n') == Join(Rewritten(Classify, lines, entry), '\n')
  {
    var f := First(Classify, lines);
    OutsideBefore(Classify, lines, f);
    if f == |lines| {
      JoinNested(lines + [""], entry, []);
      assert out == lines + [""] + [Join(entry, '\n')] + [];
      assert lines + [""] + entry + [] == lines + [""] + entry;
    } else {
      JoinNested(lines[..f], entry, Outside(Classify, lines, f, |lines|));
    }
  }

  /** Joined lines may stand for their lines in a longer join. */
  lemma JoinNested(before: seq<string>, inner: seq<string>, behind: seq<string>)
    requires inner != []
    ensures Join(before + [Join(inner, '\n')] + behind, '\n') == Join(before + inner + behind, '\n')
  {
    var one := [Join(inner, '\n')];
    assert Join(one, '\n') == Join(inner, '\n');
    if behind != [] {
      JoinAppend(before + one, behind, '\n');
      JoinAppend(before + inner, behind, '\n');
    } else {
      assert before + one + behind == before + one && before + inner + behind == before + inner;
    }
    if before != [] {
      JoinAppend(before, one, '\n');
      JoinAppend(before, inner, '\n');
    } else {
      assert before + one == one && before + inner == inner;
    }
  }

  method RemoveEntry(existing: string) returns (text: string)
    ensures text == Remove(existing)
  {
    var content := StripNewlines(existing);
    if content == "" {
      return "";
    }
    var out := DropOurs(Classify, Split(content, '\n'));
    return TrimSpace(Join(out, '\n')) + "\n";
  }

  // ----- Lines of a stripped text

  predicate Lines(lines: seq<string>)
  {
    forall i :: 0 <= i < |lines| ==> Without(lines[i], '\n')
  }

  lemma LinesAppend(a: seq<string>, b: seq<string>)
    requires Lines(a) && Lines(b)
    ensures Lines(a + b)
  {
  }

  lemma {:induction false} StripFront(lines: seq<string>)
    requires Lines(lines)
    ensures Lines(DropFront(lines))
    ensures StripLeadingNewlines(Join(lines, '\n')) == Join(DropFront(lines), '\n')
  {
    if lines != [] {
      assert Without(lines[0], '\n');
      if lines[0] == "" {
        if |lines| > 1 {
          assert Join(lines, '\n')[1..] == Join(lines[1..], '\n');
        }
        assert forall k :: 0 <= k < |lines[1..]| ==> lines[1..][k] == lines[k + 1];
        StripFront(lines[1..]);
      }
    }
  }

  lemma {:induction false} StripBack(lines: seq<string>)
    requires Lines(lines)
    ensures Lines(DropBack(lines))
    ensures StripNewlines(Join(lines, '\n')) == Join(DropBack(lines), '\n')
  {
    if lines != [] {
      var n := |lines| - 1;
      assert lines == lines[..n] + [lines[n]];
      if lines[n] == "" {
        if n > 0 {
          JoinAppend(lines[..n], [""], '\n');
          var text := Join(lines[..n], '\n');
          assert Join(lines, '\n') == text + "\n" && (text + "\n")[..|text|] == text;
        }
        StripBack(lines[..n]);
      } else {
        LastCharacter(lines);
      }
    }
  }

  lemma LastCharacter(lines: seq<string>)
    requires lines != [] && Lines(lines) && lines[|lines| - 1] != ""
    ensures var s := Join(lines, '\n'); s != "" && s[|s| - 1] != '\n'
  {
    var n, s := |lines| - 1, Join(lines, '\n');
    var last := lines[n];
    assert Without(last, '\n');
    if n > 0 {
      assert lines == lines[..n] + [last];
      JoinAppend(lines[..n], [last], '\n');
      assert s[|s| - 1] == last[|last| - 1];
    }
  }

  lemma SplitWithNewline(lines: seq<string>)
    requires lines != [] && Lines(lines)
    ensures Split(Join(lines, '\n') + "\n", '\n') == lines + [""]
  {
    JoinAppend(lines, [""], '\n');
    assert Join(lines, '\n') + "\n" == Join(lines + [""], '\n');
    SplitJoin(lines + [""], '\n');
  }

  lemma StripsLast(text: string)
    ensures StripNewlines(text + "\n") == StripNewlines(text)
  {
    assert (text + "\n")[..|text|] == text;
  }

  // ----- What a written file looks like

  /** What a write keeps of a file. */
  function Around(existing: string): Sides
  {
    var content := StripNewlines(existing);
    if content == "" then Sides([], []) else Kept(Classify, Split(content, '\n'))
  }

  /** The lines under no header of ours. */
  function OthersLines(existing: string): seq<string>
  {
    var content := StripNewlines(existing);
    var lines := Split(content, '\n');
    if content == "" then [] else Outside(Classify, lines, 0, |lines|)
  }

  /** The written file is the entry between two sides that hold no header of ours, and the sides hold every
      line of the old file that was not ours, in its order (with an empty line before an appended entry). */
  lemma UpsertShape(existing: string, quoted: string)
    requires Without(quoted, '\n')
    ensures var Sides(before, behind) := Around(existing);
      && Lines(before) && Lines(behind) && NoneOurs(Classify, before) && Rest(Classify, behind)
      && Upsert(existing, quoted) == Join(DropFront(before) + Entry(quoted) + behind, '\n') + "\n"
      && (before + behind == OthersLines(existing) || before + behind == OthersLines(existing) + [""])
  {
    var Sides(before, behind) := Around(existing);
    var content := StripNewlines(existing);
    EntryIsBlock(quoted);
    if content == "" {
      assert DropFront([]) + Entry(quoted) + [] == Entry(quoted);
    } else {
      var lines := Split(content, '\n');
      JoinSplit(content, '\n');
      KeptIsOutside(Classify, lines);
      SidesAreFree(Classify, lines);
      RewrittenShape(Classify, lines, Entry(quoted));
      OutsideLines(Classify, lines, 0, |lines|);
      LinesOfParts(before, behind);
      EntryStays(before, Entry(quoted), behind);
    }
  }

  lemma {:induction false} OutsideLines(kind: Classifier, lines: seq<string>, from: nat, upTo: nat)
    requires from <= upTo <= |lines| && Lines(lines)
    ensures Lines(Outside(kind, lines, from, upTo))
    decreases upTo - from
  {
    if from < upTo {
      OutsideLines(kind, lines, from, upTo - 1);
      assert Without(lines[upTo - 1], '\n');
    }
  }

  lemma LinesOfParts(before: seq<string>, rest: seq<string>)
    requires Lines(before + rest)
    ensures Lines(before) && Lines(rest)
  {
    assert forall i :: 0 <= i < |before| ==> before[i] == (before + rest)[i];
    assert forall i :: 0 <= i < |rest| ==> rest[i] == (before + rest)[|before| + i];
  }

  lemma EntryStays(before: seq<string>, entry: seq<string>, rest: seq<string>)
    requires Lines(before) && Lines(entry) && Lines(rest) && entry != [] && entry[0] != ""
    ensures StripLeadingNewlines(Join(before + entry + rest, '\n')) == Join(DropFront(before) + entry + rest, '\n')
  {
    var behind := entry + rest;
    LinesAppend(entry, rest);
    FrontStops(before, behind);
    Regroup(before, entry, rest);
    Regroup(DropFront(before), entry, rest);
  }

  lemma Regroup(a: seq<string>, b: seq<string>, c: seq<string>)
    ensures a + b + c == a + (b + c)
  {
  }

  lemma FrontStops(before: seq<string>, behind: seq<string>)
    requires Lines(before) && Lines(behind) && behind != [] && behind[0] != ""
    ensures StripLeadingNewlines(Join(before + behind, '\n')) == Join(DropFront(before) + behind, '\n')
  {
    LinesAppend(before, behind);
    StripFront(before + behind);
    DropFrontStops(before, behind);
  }

  /** The content of a written file splits into the lines before, the entry, and the lines behind. */
  lemma UpsertContent(text: string, before: seq<string>, entry: seq<string>, rest: seq<string>)
    requires Lines(before) && Lines(entry) && Lines(rest) && |entry| == 2 && entry[1] != ""
    requires text == Join(before + entry + rest, '\n') + "\n"
    ensures StripNewlines(text) == Join(before + entry + DropBack(rest), '\n') != ""
    ensures Split(StripNewlines(text), '\n') == before + entry + DropBack(rest)
  {
    var lines := before + entry + rest;
    StripsLast(Join(lines, '\n'));
    StripBack(lines);
    DropBackStops(before + entry, rest);
    var inner := before + entry + DropBack(rest);
    SplitJoin(inner, '\n');
    assert Split("", '\n') == [""];
  }

  /** The entry stands at line k, and is all that is written under a header of the server's. */
  predicate EntryAt(lines: seq<string>, quoted: string, k: nat)
  {
    && k + 2 < |lines| && lines[k] == "[mcp_servers.hasp]" && lines[k + 1] == "command = " + quoted
    && (lines[k + 2..] == [""] || IsHeader(TrimSpace(lines[k + 2])))
    && forall j :: 0 <= j < |lines| && j != k ==>
         var line := TrimSpace(lines[j]); line != "[mcp_servers.hasp]" && line != "[mcp_servers.hasp.env]"
  }

  lemma EntryMeans(quoted: string)
    ensures Entry(quoted)[0] == "[mcp_servers.hasp]" && Entry(quoted)[1] == "command = " + quoted
    ensures TrimSpace(Entry(quoted)[1]) != "[mcp_servers.hasp]"
    ensures TrimSpace(Entry(quoted)[1]) != "[mcp_servers.hasp.env]"
  {
    var line := "command = " + quoted;
    assert line[0] == 'c';
    TrimKeepsFirst(line);
    assert "[mcp_servers.hasp]"[0] == '[' && "[mcp_servers.hasp.env]"[0] == '[';
  }

  lemma NotOurs(line: string)
    requires !Classify(line).Ours()
    ensures TrimSpace(line) != "[mcp_servers.hasp]" && TrimSpace(line) != "[mcp_servers.hasp.env]"
  {
  }

  /** Whatever the file was, a write leaves one table of the server's, with its command and nothing else. */
  lemma WrittenEntry(existing: string, quoted: string) returns (k: nat)
    requires Without(quoted, '\n')
    ensures EntryAt(Split(Upsert(existing, quoted), '\n'), quoted, k)
  {
    var Sides(before, behind) := Around(existing);
    UpsertShape(existing, quoted);
    EntryIsBlock(quoted);
    StripFront(before);
    DropFrontKeeps(Classify, before);
    var a := DropFront(before);
    LinesAppend(a, Entry(quoted));
    LinesAppend(a + Entry(quoted), behind);
    SplitWithNewline(a + Entry(quoted) + behind);
    k := |a|;
    EntryPlaced(a, quoted, behind);
  }

  lemma EntryPlaced(a: seq<string>, quoted: string, behind: seq<string>)
    requires NoneOurs(Classify, a) && Rest(Classify, behind)
    ensures EntryAt(a + Entry(quoted) + behind + [""], quoted, |a|)
  {
    EntryMeans(quoted);
    EntryIsTwo(quoted);
    hide Classify, TrimSpace, Entry;
    var lines := a + Entry(quoted) + behind + [""];
    assert lines[|a| + 2..] == behind + [""];
    if behind != [] {
      ClassesAreTheTests(behind[0]);
      assert lines[|a| + 2] == behind[0];
    }
    EmptyLine();
    forall j | 0 <= j < |lines| && j != |a|
      ensures TrimSpace(lines[j]) != "[mcp_servers.hasp]" && TrimSpace(lines[j]) != "[mcp_servers.hasp.env]"
    {
      if j < |a| {
        assert lines[j] == a[j];
        NotOurs(lines[j]);
      } else if j == |a| + 1 {
        assert lines[j] == Entry(quoted)[1];
      } else if j < |lines| - 1 {
        assert lines[j] == behind[j - |a| - 2];
        NotOurs(lines[j]);
      }
    }
  }

  lemma EntryIsTwo(quoted: string)
    ensures |Entry(quoted)| == 2
  {
  }

  lemma EmptyLine()
    ensures TrimSpace("") == "" && "[mcp_servers.hasp]" != "" && "[mcp_servers.hasp.env]" != ""
  {
  }

  // ----- The laws

  /** The content of a written file: its lines, and what a second look makes of them. */
  lemma WrittenContent(existing: string, quoted: string)
    requires Without(quoted, '\n')
    ensures var a, b := DropFront(Around(existing).before), DropBack(Around(existing).behind);
      var text := Upsert(existing, quoted);
      && StripNewlines(text) == Join(a + Entry(quoted) + b, '\n')
      && Around(text) == Sides(a, b) && OthersLines(text) == a + b
      && Lines(a) && Lines(b) && NoneOurs(Classify, a) && Rest(Classify, b)
  {
    var Sides(before, behind) := Around(existing);
    var a, b := DropFront(before), DropBack(behind);
    UpsertShape(existing, quoted);
    EntryIsBlock(quoted);
    StripFront(before);
    StripBack(behind);
    DropFrontKeeps(Classify, before);
    DropBackKeeps(Classify, behind);
    UpsertContent(Upsert(existing, quoted), a, Entry(quoted), behind);
    SecondLook(Upsert(existing, quoted), a, Entry(quoted), b);
  }

  lemma SecondLook(text: string, a: seq<string>, entry: seq<string>, b: seq<string>)
    requires Block(Classify, entry) && NoneOurs(Classify, a) && Rest(Classify, b)
    requires StripNewlines(text) != "" && Split(StripNewlines(text), '\n') == a + entry + b
    ensures Around(text) == Sides(a, b) && OthersLines(text) == a + b
  {
    var lines := a + entry + b;
    OnlyTheBlockIsOurs(Classify, a, entry, b);
    assert lines[..|a|] == a;
    OutsideParts(Classify, lines, 0, |a|, |lines|);
  }

  lemma {:induction false} DropFrontTwice(lines: seq<string>)
    ensures DropFront(DropFront(lines)) == DropFront(lines)
  {
    if lines != [] && lines[0] == "" {
      DropFrontTwice(lines[1..]);
    }
  }

  /** A later write replaces an earlier one, whatever the file: apart from trailing newlines the result is as if
      the earlier had never been. With the same command twice: the write is idempotent. */
  lemma LastUpsertWins(existing: string, first: string, second: string)
    requires Without(first, '\n') && Without(second, '\n')
    ensures Upsert(Upsert(existing, first), second) == StripNewlines(Upsert(existing, second)) + "\n"
  {
    WrittenContent(existing, first);
    WrittenContent(existing, second);
    UpsertShape(Upsert(existing, first), second);
    DropFrontTwice(Around(existing).before);
  }

  /** Removing a written entry gives what removing gives on the old file, for every file but an empty one. */
  lemma RemoveUndoesUpsert(existing: string, quoted: string)
    requires Without(quoted, '\n')
    ensures Remove(Upsert(existing, quoted)) == if StripNewlines(existing) == "" then "\n" else Remove(existing)
  {
    var text := Upsert(existing, quoted);
    var Sides(before, behind) := Around(existing);
    WrittenContent(existing, quoted);
    WrittenIsNotEmpty(existing, quoted);
    RemovedText(text);
    assert Remove(text) == TrimSpace(Join(DropFront(before) + DropBack(behind), '\n')) + "\n";
    TrimIgnoresEmptyEdges(before, behind);
    UpsertShape(existing, quoted);
    TrimIgnoresEmptyLine(OthersLines(existing));
    RemovedText(existing);
  }

  lemma RemovedText(existing: string)
    ensures StripNewlines(existing) == "" ==> OthersLines(existing) == []
    ensures Remove(existing) == if StripNewlines(existing) == "" then ""
                                else TrimSpace(Join(OthersLines(existing), '\n')) + "\n"
  {
  }

  lemma WrittenIsNotEmpty(existing: string, quoted: string)
    requires Without(quoted, '\n')
    ensures StripNewlines(Upsert(existing, quoted)) != ""
  {
    UpsertShape(existing, quoted);
    EntryIsBlock(quoted);
    var Sides(before, behind) := Around(existing);
    StripFront(before);
    UpsertContent(Upsert(existing, quoted), DropFront(before), Entry(quoted), behind);
  }

  lemma {:induction false} TrimLeftAppend(s: string, c: char)
    requires IsSpace(c)
    ensures TrimSpace(s + [c]) == TrimSpace(s)
  {
    if s == "" {
      assert s + [c] == [c] && [c][1..] == "";
    } else if IsSpace(s[0]) {
      assert (s + [c])[1..] == s[1..] + [c];
      TrimLeftAppend(s[1..], c);
    } else {
      assert (s + [c])[..|s|] == s;
    }
  }

  lemma TrimIgnoresEmptyLine(lines: seq<string>)
    ensures TrimSpace(Join(lines + [""], '\n')) == TrimSpace(Join(lines, '\n'))
  {
    if lines != [] {
      JoinAppend(lines, [""], '\n');
      TrimLeftAppend(Join(lines, '\n'), '\n');
      assert Join(lines, '\n') + ['\n'] + "" == Join(lines, '\n') + ['\n'];
    }
  }

  lemma {:induction false} TrimIgnoresFront(before: seq<string>, behind: seq<string>)
    ensures TrimSpace(Join(DropFront(before) + behind, '\n')) == TrimSpace(Join(before + behind, '\n'))
  {
    if before != [] && before[0] == "" {
      var all := before + behind;
      assert all[1..] == before[1..] + behind;
      if |all| > 1 {
        assert Join(all, '\n') == ['\n'] + Join(all[1..], '\n');
        assert Join(all, '\n')[1..] == Join(all[1..], '\n');
      }
      TrimIgnoresFront(before[1..], behind);
    }
  }

  lemma {:induction false} TrimIgnoresBack(before: seq<string>, behind: seq<string>)
    ensures TrimSpace(Join(before + DropBack(behind), '\n')) == TrimSpace(Join(before + behind, '\n'))
  {
    var n := |behind| - 1;
    if behind != [] && behind[n] == "" {
      assert before + behind == before + behind[..n] + [""];
      TrimIgnoresEmptyLine(before + behind[..n]);
      TrimIgnoresBack(before, behind[..n]);
    }
  }

  lemma TrimIgnoresEmptyEdges(before: seq<string>, behind: seq<string>)
    ensures TrimSpace(Join(DropFront(before) + DropBack(behind), '\n')) == TrimSpace(Join(before + behind, '\n'))
  {
    TrimIgnoresFront(before, DropBack(behind));
    TrimIgnoresBack(before, behind);
  }

  /** The last header at or before line k is one of the server's. */
  predicate InOurTables(lines: seq<string>, k: nat)
    requires k < |lines|
  {
    exists j: nat | j <= k ::
      && (TrimSpace(lines[j]) == "[mcp_servers.hasp]" || TrimSpace(lines[j]) == "[mcp_servers.hasp.env]")
      && forall i :: j < i <= k ==> !IsHeader(TrimSpace(lines[i]))
  }

  lemma OursAreInOurTables(lines: seq<string>, k: nat)
    requires k < |lines|
    ensures Under(Classify, lines, k).Ours() <==> InOurTables(lines, k)
  {
    hide TrimSpace, Classify, IsHeader, Under;
    forall i | 0 <= i < |lines|
      ensures Classify(lines[i]).Ours()
         <==> TrimSpace(lines[i]) == "[mcp_servers.hasp]" || TrimSpace(lines[i]) == "[mcp_servers.hasp.env]"
      ensures Classify(lines[i]) == Plain <==> !IsHeader(TrimSpace(lines[i]))
    {
      ClassesAreTheTests(lines[i]);
    }
    UnderMeans(Classify, lines, k, Server);
    UnderMeans(Classify, lines, k, Env);
    if InOurTables(lines, k) {
      var j: nat :| j <= k && Classify(lines[j]).Ours() && forall i :: j < i <= k ==> Classify(lines[i]) == Plain;
      assert Classify(lines[j]) == Server || Classify(lines[j]) == Env;
    }
  }

  /** What removing leaves: line by line, those that stand in no table of the server's, without white space at the
      two ends of the text. */
  lemma RemoveMeans(existing: string) returns (i: nat, j: nat)
    ensures var text := Join(OthersLines(existing), '\n');
      && i <= j <= |text| && AllSpace(text[..i]) && AllSpace(text[j..])
      && (i < j ==> !IsSpace(text[i]) && !IsSpace(text[j - 1]))
      && Remove(existing) == if StripNewlines(existing) == "" then "" else text[i..j] + "\n"
    ensures var lines := Split(StripNewlines(existing), '\n');
      && (OthersLines(existing) == if StripNewlines(existing) == "" then [] else Outside(Classify, lines, 0, |lines|))
      && forall k :: 0 <= k < |lines| ==>
           Outside(Classify, lines, k, k + 1) == if InOurTables(lines, k) then [] else [lines[k]]
  {
    hide TrimSpace, Classify, Outside, InOurTables, Split, IsSpace;
    RemovedText(existing);
    i, j := TrimMeans(Join(OthersLines(existing), '\n'));
    var lines := Split(StripNewlines(existing), '\n');
    forall k | 0 <= k < |lines|
      ensures Outside(Classify, lines, k, k + 1) == if InOurTables(lines, k) then [] else [lines[k]]
    {
      OutsideOne(Classify, lines, k);
      OursAreInOurTables(lines, k);
    }
  }

  // ----- The readers

  function NonBlank(lines: seq<string>): seq<string>
  {
    if lines == [] then []
    else (if Blank(lines[0]) then [] else [lines[0]]) + NonBlank(lines[1..])
  }

  function Normal(data: string): string
  {
    Join(NonBlank(Split(data, '\n')), '\n')
  }

  lemma {:induction false} NonBlankParts(a: seq<string>, b: seq<string>)
    ensures NonBlank(a + b) == NonBlank(a) + NonBlank(b)
  {
    if a == [] {
      assert a + b == b;
    } else {
      assert (a + b)[1..] == a[1..] + b;
      NonBlankParts(a[1..], b);
    }
  }

  method NonemptyLines(data: string) returns (text: string)
    ensures text == Normal(data)
  {
    var all := Split(data, '\n');
    var lines: seq<string> := [];
    for i := 0 to |all|
      invariant lines == NonBlank(all[..i])
    {
      assert all[..i + 1] == all[..i] + [all[i]];
      NonBlankParts(all[..i], [all[i]]);
      if TrimSpace(all[i]) != "" {
        lines := lines + [all[i]];
      }
    }
    assert all[..|all|] == all;
    return Join(lines, '\n');
  }

  /** inspectAgentConfig on TOML: is the managed entry current? */
  method InspectToml(data: string, quoted: string) returns (current: bool)
    requires Without(quoted, '\n')
    ensures current <==> Normal(Upsert(data, quoted)) == Normal(data)
  {
    var updated := UpsertEntry(data, quoted);
    var wanted := NonemptyLines(updated);
    var got := NonemptyLines(data);
    return wanted == got;
  }

  /** After a write the entry is current, whatever the file was. */
  lemma UpsertIsCurrent(existing: string, quoted: string)
    requires Without(quoted, '\n')
    ensures Normal(Upsert(Upsert(existing, quoted), quoted)) == Normal(Upsert(existing, quoted))
  {
    LastUpsertWins(existing, quoted, quoted);
    WrittenContent(existing, quoted);
    UpsertShape(existing, quoted);
    EntryIsBlock(quoted);
    var Sides(before, behind) := Around(existing);
    StripFront(before);
    SameNormal(DropFront(before) + Entry(quoted), behind);
  }

  lemma SameNormal(before: seq<string>, behind: seq<string>)
    requires before != [] && Lines(before) && Lines(behind)
    ensures Normal(Join(before + DropBack(behind), '\n') + "\n") == Normal(Join(before + behind, '\n') + "\n")
  {
    StripBack(behind);
    LinesAppend(before, behind);
    LinesAppend(before, DropBack(behind));
    SplitWithNewline(before + behind);
    SplitWithNewline(before + DropBack(behind));
    NonBlankDropBack(before, behind);
    NonBlankParts(before + behind, [""]);
    NonBlankParts(before + DropBack(behind), [""]);
  }

  lemma {:induction false} NonBlankDropBack(before: seq<string>, behind: seq<string>)
    ensures NonBlank(before + DropBack(behind)) == NonBlank(before + behind)
  {
    var n := |behind| - 1;
    if behind != [] && behind[n] == "" {
      assert before + behind == before + behind[..n] + [""];
      NonBlankParts(before + behind[..n], [""]);
      NonBlankDropBack(before, behind[..n]);
    }
  }

  lemma {:induction false} NonBlankPlace(lines: seq<string>, i: nat) returns (j: nat)
    requires i < |NonBlank(lines)|
    ensures j < |lines| && lines[j] == NonBlank(lines)[i] && NonBlank(lines[j + 1..]) == NonBlank(lines)[i + 1..]
    ensures i == 0 ==> forall m :: 0 <= m < j ==> Blank(lines[m])
  {
    hide Blank;
    if !Blank(lines[0]) && i == 0 {
      j := 0;
    } else {
      var rest := lines[1..];
      var k := NonBlankPlace(rest, if Blank(lines[0]) then i else i - 1);
      j := k + 1;
      assert rest[k + 1..] == lines[j + 1..];
    }
  }

  /** The entry's lines follow one another but for blank lines. */
  predicate EntryFollows(lines: seq<string>, quoted: string, j: nat, k: nat)
  {
    && j < k < |lines| && lines[j] == "[mcp_servers.hasp]" && lines[k] == "command = " + quoted
    && forall m :: j < m < k ==> Blank(lines[m])
  }

  /** A file that is reported current holds the entry, however it came about. */
  lemma CurrentHasEntry(data: string, quoted: string) returns (j: nat, k: nat)
    requires Without(quoted, '\n')
    requires Normal(Upsert(data, quoted)) == Normal(data)
    ensures EntryFollows(Split(data, '\n'), quoted, j, k)
  {
    hide Upsert, Normal, Blank, Split, NonBlank;
    var lines, updated := Split(data, '\n'), Split(Upsert(data, quoted), '\n');
    SameNonBlank(data, Upsert(data, quoted));
    var at := WrittenEntry(data, quoted);
    var i := EntryIsNonBlank(updated, quoted, at);
    j := NonBlankPlace(lines, i);
    var m := NonBlankPlace(lines[j + 1..], 0);
    k := j + 1 + m;
    assert NonBlank(lines)[i + 1..][0] == NonBlank(lines)[i + 1];
    assert forall n :: j < n < k ==> lines[n] == lines[j + 1..][n - j - 1];
  }

  lemma EntryIsNonBlank(lines: seq<string>, quoted: string, k: nat) returns (i: nat)
    requires EntryAt(lines, quoted, k)
    ensures i + 1 < |NonBlank(lines)|
    ensures NonBlank(lines)[i] == "[mcp_servers.hasp]" && NonBlank(lines)[i + 1] == "command = " + quoted
  {
    var head, command, tail := lines[k], lines[k + 1], lines[k + 2..];
    assert head[0] == '[' && command[0] == 'c';
    TrimKeepsFirst(head);
    TrimKeepsFirst(command);
    hide TrimSpace, IsHeader;
    assert lines == lines[..k] + ([head] + ([command] + tail));
    NonBlankParts(lines[..k], [head] + ([command] + tail));
    NonBlankFront(head, [command] + tail);
    NonBlankFront(command, tail);
    i := |NonBlank(lines[..k])|;
  }

  lemma NonBlankFront(line: string, rest: seq<string>)
    requires !Blank(line)
    ensures NonBlank([line] + rest) == [line] + NonBlank(rest)
  {
    assert ([line] + rest)[1..] == rest;
  }

  predicate TomlKeyLine(line: string, key: string)
  {
    && key <= line
    && var rest := TrimSpace(line[|key|..]);
       rest != "" && rest[0] == '='
  }

  const ENV_KEY := "HASP_AGENT_HASP"

  predicate SetsEnvKey(line: string)
  {
    TomlKeyLine(TrimSpace(line), ENV_KEY)
  }

  /** Some line of the server's env table sets the key. */
  predicate EnvOverride(data: string)
  {
    var lines := Split(data, '\n');
    exists k :: 0 <= k < |lines| && UnderEnv(Classify, lines, k) && SetsEnvKey(lines[k])
  }

  /** Line k assigns the key, and the last header before it is line j, that of the env table. */
  predicate OverrideAt(lines: seq<string>, j: nat, k: nat)
  {
    && j < k < |lines| && TrimSpace(lines[j]) == "[mcp_servers.hasp.env]"
    && (forall i :: j < i <= k ==> !IsHeader(TrimSpace(lines[i])))
    && var line := TrimSpace(lines[k]);
       && "HASP_AGENT_HASP" <= line
       && "=" <= TrimSpace(line[15..])
  }

  /** An override is an assignment of the key behind the env table's header and before the next one. */
  lemma OverrideMeans(data: string)
    ensures EnvOverride(data) <==> exists j: nat, k: nat :: OverrideAt(Split(data, '\n'), j, k)
  {
    hide TrimSpace, Classify, IsHeader, Under, Split, SetsEnvKey;
    var lines := Split(data, '\n');
    forall i | 0 <= i < |lines|
      ensures Classify(lines[i]) == Env <==> TrimSpace(lines[i]) == "[mcp_servers.hasp.env]"
      ensures Classify(lines[i]) == Plain <==> !IsHeader(TrimSpace(lines[i]))
      ensures SetsEnvKey(lines[i]) <==> KeyIsSet(TrimSpace(lines[i]))
    {
      ClassesAreTheTests(lines[i]);
      KeyMeans(lines[i]);
    }
    forall k | 0 <= k < |lines|
      ensures UnderEnv(Classify, lines, k) && SetsEnvKey(lines[k]) <==> exists j: nat :: OverrideAt(lines, j, k)
    {
      UnderMeans(Classify, lines, k, Env);
      if UnderEnv(Classify, lines, k) && SetsEnvKey(lines[k]) {
        var j: nat :| j <= k && Classify(lines[j]) == Env && forall i :: j < i <= k ==> Classify(lines[i]) == Plain;
        assert OverrideAt(lines, j, k);
      }
      if j: nat :| OverrideAt(lines, j, k) {
        assert forall i :: j < i <= k ==> Classify(lines[i]) == Plain;
        assert Classify(lines[j]) == Env;
      }
    }
  }

  predicate KeyIsSet(line: string)
  {
    "HASP_AGENT_HASP" <= line && "=" <= TrimSpace(line[15..])
  }

  lemma KeyMeans(line: string)
    ensures SetsEnvKey(line) <==> KeyIsSet(TrimSpace(line))
  {
    hide TrimSpace;
    assert |ENV_KEY| == 15;
  }

  method CodexHaspEnvOverride(data: string) returns (found: bool)
    ensures found <==> EnvOverride(data)
  {
    found := AnyUnderEnv(Classify, Split(data, '\n'), SetsEnvKey);
  }

  lemma WrittenHasNoEnv(existing: string, quoted: string)
    requires Without(quoted, '\n')
    ensures NoEnvHeader(Classify, Split(Upsert(existing, quoted), '\n'))
  {
    UpsertShape(existing, quoted);
    EntryIsBlock(quoted);
    var Sides(before, behind) := Around(existing);
    StripFront(before);
    DropFrontKeeps(Classify, before);
    NoEnvInLines(DropFront(before), Entry(quoted), behind);
  }

  lemma NoEnvInLines(before: seq<string>, entry: seq<string>, behind: seq<string>)
    requires Lines(before) && Lines(entry) && Lines(behind)
    requires Block(Classify, entry) && NoneOurs(Classify, before) && Rest(Classify, behind)
    ensures NoEnvHeader(Classify, Split(Join(before + entry + behind, '\n') + "\n", '\n'))
  {
    LinesAppend(before, entry);
    LinesAppend(before + entry, behind);
    SplitWithNewline(before + entry + behind);
    NoEnvBesideBlock(Classify, before, entry, behind);
  }

  /** After a write no env table of the server is left, so none overrides the key. */
  lemma UpsertClearsEnvOverride(existing: string, quoted: string)
    requires Without(quoted, '\n')
    ensures !EnvOverride(Upsert(existing, quoted))
  {
    var lines := Split(Upsert(existing, quoted), '\n');
    WrittenHasNoEnv(existing, quoted);
    forall k | 0 <= k < |lines|
      ensures Under(Classify, lines, k) != Env
    {
      if Under(Classify, lines, k) == Env {
        var j := EnvNeedsHeader(Classify, lines, k);
      }
    }
  }

  /** A file that is reported current has no override either, however it came about. */
  lemma CurrentHasNoEnvOverride(data: string, quoted: string)
    requires Without(quoted, '\n')
    requires Normal(Upsert(data, quoted)) == Normal(data)
    ensures !EnvOverride(data)
  {
    var lines := Split(data, '\n');
    var updated := Split(Upsert(data, quoted), '\n');
    WrittenHasNoEnv(data, quoted);
    SameNonBlank(data, Upsert(data, quoted));
    forall k | 0 <= k < |lines|
      ensures Under(Classify, lines, k) != Env
    {
      if Under(Classify, lines, k) == Env {
        var j := EnvNeedsHeader(Classify, lines, k);
        assert !Blank(lines[j]);
        NonBlankMembers(lines, lines[j]);
        NonBlankMembers(updated, lines[j]);
      }
    }
  }

  lemma {:induction false} NonBlankMembers(lines: seq<string>, line: string)
    ensures line in NonBlank(lines) <==> line in lines && !Blank(line)
  {
    if lines != [] {
      NonBlankMembers(lines[1..], line);
    }
  }

  /** Equal joins of non-blank lines are joins of equal lines. */
  lemma SameNonBlank(one: string, two: string)
    requires Normal(one) == Normal(two)
    ensures NonBlank(Split(one, '\n')) == NonBlank(Split(two, '\n'))
  {
    var a, b := NonBlank(Split(one, '\n')), NonBlank(Split(two, '\n'));
    NormalSplits(one);
    NormalSplits(two);
  }

  lemma NormalSplits(data: string)
    ensures var lines := NonBlank(Split(data, '\n'));
      Split(Normal(data), '\n') == if lines == [] then [""] else lines
    ensures NonBlank(Split(data, '\n')) != [""]
  {
    var all := Split(data, '\n');
    var lines := NonBlank(all);
    JoinSplit(data, '\n');
    forall i | 0 <= i < |lines|
      ensures Without(lines[i], '\n') && lines[i] != ""
    {
      NonBlankMembers(all, lines[i]);
    }
    if lines != [] {
      SplitJoin(lines, '\n');
    }
  }
}
