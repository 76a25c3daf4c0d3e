/**
  Shell quoting, against the token rules of POSIX.1-2017, XCU sections 2.2.1 to 2.2.3: a reader
  that splits a line into words, removing quotes, and that gives up on any unquoted character
  the shell would interpret.
 */
module ShellQuote {
  import opened Option

  // ----- The shell's side

  datatype Mode = Between | Word | Single | Double

  // Characters that stand for themselves when unquoted, anywhere in a word.
  predicate Ordinary(c: char)
  {
    || 'A' <= c <= 'Z' || 'a' <= c <= 'z' || '0' <= c <= '9'
    || c == '_' || c == '-' || c == '.' || c == '/' || c == ':' || c == ',' || c == '+' || c == '@' || c == '%'
  }

  predicate Separates(c: char)
  {
    c == ' ' || c == '\t'
  }

  datatype Lexed = Lexed(words: seq<string>, word: string, mode: Mode)

  /** Reads s from a given state. None: an expansion, an operator or a line end outside quotes, or an
      expansion inside double quotes. */
  function Lex(st: Lexed, s: string): Option<Lexed>
    decreases |s|
  {
    if s == "" then Some(st)
    else
      var c, rest := s[0], s[1..];
      match st.mode
      case Single =>
        Lex(if c == '\'' then st.(mode := Word) else st.(word := st.word + [c]), rest)
      case Double =>
        if c == '"' then Lex(st.(mode := Word), rest)
        else if c == '$' || c == '`' || c == '\\' then None
        else Lex(st.(word := st.word + [c]), rest)
      case _ =>
        if c == '\'' then Lex(st.(mode := Single), rest)
        else if c == '"' then Lex(st.(mode := Double), rest)
        else if c == '\\' then
          if rest == "" || rest[0] == '\n' then None
          else Lex(st.(word := st.word + [rest[0]], mode := Word), rest[1..])
        else if Separates(c) then
          Lex(if st.mode.Word? then Lexed(st.words + [st.word], "", Between) else st, rest)
        else if Ordinary(c) then Lex(st.(word := st.word + [c], mode := Word), rest)
        else None
  }

  /** The words of a complete command line. */
  function Words(s: string): Option<seq<string>>
  {
    var end := Lex(Lexed([], "", Between), s);
    if end.None? then None
    else match end.value.mode
      case Between => Some(end.value.words)
      case Word => Some(end.value.words + [end.value.word])
      case _ => None
  }

  // ----- The program's side

  /** strings.ReplaceAll(s, "'", esc) */
  function ReplaceQuotes(s: string, esc: string): string
  {
    if s == "" then ""
    else (if s[0] == '\'' then esc else [s[0]]) + ReplaceQuotes(s[1..], esc)
  }

  const DOUBLE_QUOTED := "'\"'\"'"
  const BACKSLASHED := "'\\''"

  predicate Plain(c: char)
  {
    c == '_' || c == '-' || c == '.' || c == '/' || c == ':'
    || 'A' <= c <= 'Z' || 'a' <= c <= 'z' || '0' <= c <= '9'
  }

  function QuoteArg(arg: string): string
  {
    if arg == "" then "''"
    else if forall i :: 0 <= i < |arg| ==> Plain(arg[i]) then arg
    else "'" + ReplaceQuotes(arg, DOUBLE_QUOTED) + "'"
  }

  /** shellSingleQuote of the hooks package. */
  function SingleQuote(s: string): string
  {
    "'" + ReplaceQuotes(s, BACKSLASHED) + "'"
  }

  function JoinArgs(args: seq<string>): string
  {
    if args == [] then ""
    else if |args| == 1 then QuoteArg(args[0])
    else JoinArgs(args[..|args| - 1]) + " " + QuoteArg(args[|args| - 1])
  }

  lemma JoinArgsStep(args: seq<string>)
    requires |args| > 1
    ensures JoinArgs(args) == JoinArgs(args[..|args| - 1]) + " " + QuoteArg(args[|args| - 1])
  {
  }

  lemma JoinArgsOne(arg: string)
    ensures JoinArgs([arg]) == QuoteArg(arg)
  {
  }

  method ShellJoinArgs(args: seq<string>) returns (line: string)
    ensures line == JoinArgs(args)
    ensures Words(line) == Some(args)
  {
    line := "";
    for i := 0 to |args|
      invariant line == JoinArgs(args[..i])
    {
      var quoted := QuoteArg(args[i]);
      line := if i == 0 then quoted else line + " " + quoted;
      assert args[..i + 1][..i] == args[..i];
    }
    assert args[..|args|] == args;
    WordsOfJoinedArgs(args);
  }

  // ----- Round trips

  lemma {:induction false} LexAppend(st: Lexed, a: string, b: string)
    requires Lex(st, a).Some?
    ensures Lex(st, a + b) == Lex(Lex(st, a).value, b)
    decreases |a|
  {
    if a == "" {
      assert a + b == b;
    } else {
      assert (a + b)[1..] == a[1..] + b;
      var c, rest := a[0], a[1..];
      match st.mode {
        case Single => LexAppend(if c == '\'' then st.(mode := Word) else st.(word := st.word + [c]), rest, b);
        case Double => LexAppend(if c == '"' then st.(mode := Word) else st.(word := st.word + [c]), rest, b);
        case _ =>
          if c == '\'' {
            LexAppend(st.(mode := Single), rest, b);
          } else if c == '"' {
            LexAppend(st.(mode := Double), rest, b);
          } else if c == '\\' {
            assert (a + b)[2..] == a[2..] + b && rest[1..] == a[2..];
            LexAppend(st.(word := st.word + [rest[0]], mode := Word), rest[1..], b);
          } else if Separates(c) {
            LexAppend(if st.mode.Word? then Lexed(st.words + [st.word], "", Between) else st, rest, b);
          } else {
            LexAppend(st.(word := st.word + [c], mode := Word), rest, b);
          }
      }
    }
  }

  /** Both ways of leaving, escaping and re-entering single quotes add one quote character. */
  lemma EscapesLex(st: Lexed, esc: string)
    requires st.mode == Single && (esc == DOUBLE_QUOTED || esc == BACKSLASHED)
    ensures Lex(st, esc) == Some(st.(word := st.word + ['\'']))
  {
    var word := st.(mode := Word);
    var added := word.(word := st.word + ['\'']);
    if esc == BACKSLASHED {
      assert esc[1..] == "\\''" && esc[1..][1..] == "''" && esc[1..][1..][1..] == "'";
      assert Lex(added, "'") == Lex(added.(mode := Single), "");
      assert Lex(word, "\\''") == Lex(added, "'");
    } else {
      assert esc[1..] == "\"'\"'" && esc[1..][1..] == "'\"'" && esc[1..][1..][1..] == "\"'";
      assert esc[1..][1..][1..][1..] == "'";
      assert Lex(added, "'") == Lex(added.(mode := Single), "");
      assert Lex(added.(mode := Double), "\"'") == Lex(added, "'");
      assert Lex(word.(mode := Double), "'\"'") == Lex(added.(mode := Double), "\"'");
      assert Lex(word, "\"'\"'") == Lex(word.(mode := Double), "'\"'");
    }
  }

  lemma {:induction false} QuotedBodyLexes(st: Lexed, s: string, esc: string)
    requires st.mode == Single && (esc == DOUBLE_QUOTED || esc == BACKSLASHED)
    ensures Lex(st, ReplaceQuotes(s, esc)) == Some(st.(word := st.word + s))
    decreases |s|
  {
    if s == "" {
      assert st.word + s == st.word;
    } else {
      var head := if s[0] == '\'' then esc else [s[0]];
      var next := st.(word := st.word + [s[0]]);
      if s[0] == '\'' {
        EscapesLex(st, esc);
      } else {
        assert Lex(next, "") == Some(next);
        assert head[1..] == "";
      }
      LexAppend(st, head, ReplaceQuotes(s[1..], esc));
      QuotedBodyLexes(next, s[1..], esc);
      assert st.word + [s[0]] + s[1..] == st.word + s;
    }
  }

  /** From between words, a quoted text is read as one word, whatever follows it. */
  lemma QuotedLexes(words: seq<string>, s: string, esc: string)
    requires esc == DOUBLE_QUOTED || esc == BACKSLASHED
    ensures Lex(Lexed(words, "", Between), "'" + ReplaceQuotes(s, esc) + "'") == Some(Lexed(words, s, Word))
  {
    var open, body := Lexed(words, "", Single), ReplaceQuotes(s, esc);
    QuotedBodyLexes(open, s, esc);
    LexAppend(open, body, "'");
    assert Lex(Lexed(words, s, Word), "") == Some(Lexed(words, s, Word));
    assert "'"[1..] == "";
    assert Lex(Lexed(words, s, Single), "'") == Some(Lexed(words, s, Word));
    assert ("'" + body + "'")[1..] == body + "'";
    assert "" + s == s;
  }

  lemma {:induction false} PlainLexes(st: Lexed, s: string)
    requires st.mode.Word? || (st.mode.Between? && s != "" && st.word == "")
    requires forall i :: 0 <= i < |s| ==> Plain(s[i])
    ensures Lex(st, s) == Some(st.(word := st.word + s, mode := Word))
    decreases |s|
  {
    if s == "" {
      assert st.word + s == st.word;
    } else {
      PlainLexes(st.(word := st.word + [s[0]], mode := Word), s[1..]);
      assert st.word + [s[0]] + s[1..] == st.word + s;
    }
  }

  lemma ArgLexes(words: seq<string>, arg: string)
    ensures Lex(Lexed(words, "", Between), QuoteArg(arg)) == Some(Lexed(words, arg, Word))
  {
    if arg == "" {
      QuotedLexes(words, "", DOUBLE_QUOTED);
      assert "'" + ReplaceQuotes("", DOUBLE_QUOTED) + "'" == "''";
    } else if forall i :: 0 <= i < |arg| ==> Plain(arg[i]) {
      PlainLexes(Lexed(words, "", Between), arg);
      assert "" + arg == arg;
    } else {
      QuotedLexes(words, arg, DOUBLE_QUOTED);
    }
  }

  lemma SpaceEndsWord(words: seq<string>, word: string)
    ensures Lex(Lexed(words, word, Word), " ") == Some(Lexed(words + [word], "", Between))
  {
    assert " "[1..] == "";
  }

  lemma NextArgLexes(words: seq<string>, word: string, arg: string)
    ensures Lex(Lexed(words, word, Word), " " + QuoteArg(arg)) == Some(Lexed(words + [word], arg, Word))
  {
    SpaceEndsWord(words, word);
    LexAppend(Lexed(words, word, Word), " ", QuoteArg(arg));
    ArgLexes(words + [word], arg);
  }

  lemma {:induction false} JoinedArgsLex(args: seq<string>, line: string)
    requires args != [] && line == JoinArgs(args)
    ensures Lex(Lexed([], "", Between), line) == Some(Lexed(args[..|args| - 1], args[|args| - 1], Word))
    decreases |args|
  {
    hide Lex, QuoteArg, JoinArgs;
    if |args| == 1 {
      assert args == [args[0]];
      JoinArgsOne(args[0]);
      ArgLexes([], args[0]);
    } else {
      JoinArgsStep(args);
      var init, last := args[..|args| - 1], args[|args| - 1];
      var before, more := JoinArgs(init), " " + QuoteArg(last);
      assert line == before + more;
      JoinedArgsLex(init, before);
      assert init[..|init| - 1] + [init[|init| - 1]] == init;
      NextArgLexes(init[..|init| - 1], init[|init| - 1], last);
      LexAppend(Lexed([], "", Between), before, more);
    }
  }

  /** The shell reads the joined line back as exactly the arguments, empty ones and quotes included. */
  lemma WordsOfJoinedArgs(args: seq<string>)
    ensures Words(JoinArgs(args)) == Some(args)
  {
    if args == [] {
      assert Lex(Lexed([], "", Between), "") == Some(Lexed([], "", Between));
    } else {
      JoinedArgsLex(args, JoinArgs(args));
      assert args[..|args| - 1] + [args[|args| - 1]] == args;
    }
  }

  /** A single-quoted text is one word, whatever is in it. */
  lemma WordsOfSingleQuote(s: string)
    ensures Words(SingleQuote(s)) == Some([s])
  {
    QuotedLexes([], s, BACKSLASHED);
    assert [] + [s] == [s];
  }
}
