/**
  The command-line tokenizer `_parse_command_text` (slash_slack/slash_slack.py):
  a line becomes a command word, the residual argument string and the set of
  `--flag` names.

  The flag regular expression `(?:^|(?<= ))--(?P<flag>\S+?)(?:$| )` can only
  start a match at the start of the line or right after a space, and can only
  end it at a space or at the end of the line, so it works token by token on
  the pieces of `text.split(" ")`: a piece `--name` whose `name` is non-empty
  and free of whitespace is a flag, and so is a last piece `--name` followed by
  the final newline, which `$` also accepts. `sub("", text)` deletes each such
  piece together with the space after it.
 */
module CommandText {
  import opened Common
  import opened PyStr

  datatype CommandLine = CommandLine(command: string, args: string, flags: set<string>)

  /** A piece `--name`, `name` non-empty and free of whitespace. */
  predicate PlainFlag(tok: string) {
    |tok| >= 3 && tok[..2] == "--" && NoWhitespace(tok[2..])
  }

  /** A last piece `--name` + newline, accepted because `$` matches before a final newline. */
  predicate NewlineFlag(tok: string) {
    |tok| >= 4 && tok[..2] == "--" && tok[|tok| - 1] == '\n' && NoWhitespace(tok[2..|tok| - 1])
  }

  /** The flag name a space-delimited piece contributes, if it is matched by the flag pattern. */
  function FlagName(tok: string, isLast: bool): Option<string>
  {
    if PlainFlag(tok) then Some(tok[2..])
    else if isLast && NewlineFlag(tok) then Some(tok[2..|tok| - 1])
    else None
  }

  /** `set(_FLAG_REGEXP.findall(text))`, given the pieces of `text.split(" ")`. */
  function FlagNames(toks: seq<string>): set<string>
  {
    set i | 0 <= i < |toks| && FlagName(toks[i], i == |toks| - 1).Some? :: FlagName(toks[i], i == |toks| - 1).value
  }

  /** `_FLAG_REGEXP.sub("", text)`, given the pieces of `text.split(" ")`. */
  function Residue(toks: seq<string>): string
  {
    if |toks| == 0 then []
    else
      var last := |toks| == 1;
      var piece :=
        if FlagName(toks[0], last).None? then toks[0] + (if last then [] else " ")
        else if PlainFlag(toks[0]) then []
        else "\n";
      piece + Residue(toks[1..])
  }

  /** `_parse_command_text(text)`. */
  function ParseCommandText(text: string): (r: CommandLine)
    ensures ' ' !in r.command
  {
    var toks := Split(text, ' ');
    var parts := Split(Strip(Residue(toks)), ' ');
    CommandLine(parts[0], Join(NonEmpty(parts[1..]), ' '), FlagNames(toks))
  }

  // ---------------------------------------------------------------------------
  // Reference view: the non-flag words of a line

  /** The pieces of a split that the flag pattern does not match, in order. */
  function Kept(toks: seq<string>): seq<string>
  {
    if |toks| == 0 then []
    else if FlagName(toks[0], |toks| == 1).Some? then Kept(toks[1..])
    else [toks[0]] + Kept(toks[1..])
  }

  /** The non-empty, non-flag space-delimited words of `text`, in their original order. */
  function Words(text: string): seq<string>
  {
    NonEmpty(Kept(Split(text, ' ')))
  }

  // ---------------------------------------------------------------------------
  // Properties

  /** The tokenizer's documented examples. */
  lemma EmptyLine()
    ensures ParseCommandText("") == CommandLine("", "", {})
  {
    assert Split("", ' ') == [""];
    assert FlagName("", true).None?;
    assert Residue([""]) == "";
    assert Strip("") == "";
    assert FlagNames([""]) == {};
  }

  /**
    Whatever the line, `args` is a sequence of non-empty words joined by
    single spaces: it has no leading, trailing or doubled space.
   */
  lemma ArgsAreWords(text: string)
    ensures var a := ParseCommandText(text).args;
      a == [] || forall k :: 0 <= k < |Split(a, ' ')| ==> Split(a, ' ')[k] != []
  {
    var parts := Split(Strip(Residue(Split(text, ' '))), ' ');
    var ws := NonEmpty(parts[1..]);
    if ws != [] {
      forall k | 0 <= k < |ws| ensures ' ' !in ws[k] {
        assert ws[k] in parts[1..];
      }
      JoinSplit(ws, ' ');
    }
  }

  /** In a line whose pieces carry no other whitespace, a piece is a flag exactly when it is `--name` with `name` non-empty. */
  lemma FlagNameOfCleanPiece(tok: string, isLast: bool)
    requires NoWhitespace(tok)
    ensures FlagName(tok, isLast).Some? <==> |tok| >= 3 && tok[..2] == "--"
    ensures FlagName(tok, isLast).Some? ==> FlagName(tok, isLast).value == tok[2..]
  {
    if |tok| >= 3 && tok[..2] == "--" {
      assert PlainFlag(tok);
    }
    if NewlineFlag(tok) {
      assert IsSpace(tok[|tok| - 1]);
    }
  }

  lemma CleanPieces(text: string)
    requires OnlyPlainSpaces(text)
    ensures forall k :: 0 <= k < |Split(text, ' ')| ==> NoWhitespace(Split(text, ' ')[k])
    decreases |text|
  {
    var toks := Split(text, ' ');
    if text != [] {
      CleanPieces(text[1..]);
      var rest := Split(text[1..], ' ');
      if text[0] != ' ' {
        assert !IsSpace(text[0]);
        forall k | 0 <= k < |toks| ensures NoWhitespace(toks[k]) {
          if k == 0 {
            assert toks[0] == [text[0]] + rest[0];
          } else {
            assert toks[k] == rest[k];
          }
        }
      } else {
        assert toks == [[]] + rest;
        forall k | 0 <= k < |toks| ensures NoWhitespace(toks[k]) {
          if k > 0 { assert toks[k] == rest[k - 1]; }
        }
      }
    }
  }

  /**
    The flag set is exactly the set of names of the space-delimited tokens
    `--name` with `name` non-empty, wherever they stand; `a--b` and a bare `--`
    are not flags, and names are kept case-sensitively.
   */
  lemma FlagsAreDashedTokens(text: string, name: string)
    requires OnlyPlainSpaces(text)
    ensures name in ParseCommandText(text).flags <==> name != [] && "--" + name in Split(text, ' ')
  {
    CleanPieces(text);
    assert ParseCommandText(text).flags == FlagNames(Split(text, ' '));
    FlagNamesOfCleanPieces(Split(text, ' '), name);
  }

  lemma FlagNamesOfCleanPieces(toks: seq<string>, name: string)
    requires forall k :: 0 <= k < |toks| ==> NoWhitespace(toks[k])
    ensures name in FlagNames(toks) <==> name != [] && "--" + name in toks
  {
    if name in FlagNames(toks) {
      var i :| 0 <= i < |toks| && FlagName(toks[i], i == |toks| - 1).Some?
             && FlagName(toks[i], i == |toks| - 1).value == name;
      FlagNameOfCleanPiece(toks[i], i == |toks| - 1);
      assert toks[i] == "--" + name;
    }
    if name != [] && "--" + name in toks {
      var i :| 0 <= i < |toks| && toks[i] == "--" + name;
      FlagNameOfCleanPiece(toks[i], i == |toks| - 1);
      assert toks[i][..2] == "--" && toks[i][2..] == name;
      assert FlagName(toks[i], i == |toks| - 1) == Some(name);
    }
  }

  /** A piece without whitespace, a space and a residue: the words and the whitespace of the whole. */
  lemma ConsWords(t: string, rest: string)
    requires NoWhitespace(t) && OnlyPlainSpaces(rest)
    ensures NonEmpty(Split(t + " " + rest, ' ')) == NonEmpty([t]) + NonEmpty(Split(rest, ' '))
    ensures OnlyPlainSpaces(t + " " + rest)
  {
    var r := t + " " + rest;
    assert r == t + [' '] + rest;
    SplitAround(t, rest, ' ');
    SplitNoSep(t, ' ');
    NonEmptyAppend([t], Split(rest, ' '));
    forall i | 0 <= i < |r| && IsSpace(r[i]) ensures r[i] == ' ' {
      if i > |t| {
        assert r[i] == rest[i - |t| - 1];
      }
    }
  }

  /** A last piece that is not a flag is the whole residue and the only kept word. */
  lemma LastPieceWords(t: string)
    requires NoWhitespace(t) && FlagName(t, true).None?
    ensures Residue([t]) == t && Kept([t]) == [t]
    ensures NonEmpty(Split(t, ' ')) == NonEmpty([t])
    ensures OnlyPlainSpaces(t)
  {
    SplitNoSep(t, ' ');
  }

  lemma {:induction false} ResidueWords(toks: seq<string>)
    requires forall k :: 0 <= k < |toks| ==> NoWhitespace(toks[k])
    ensures NonEmpty(Split(Residue(toks), ' ')) == NonEmpty(Kept(toks))
    ensures OnlyPlainSpaces(Residue(toks))
  {
    if |toks| > 0 {
      var t := toks[0];
      var last := |toks| == 1;
      ResidueWords(toks[1..]);
      var rest := Residue(toks[1..]);
      FlagNameOfCleanPiece(t, last);
      if FlagName(t, last).Some? {
        assert PlainFlag(t);
        assert Residue(toks) == rest;
        assert Kept(toks) == Kept(toks[1..]);
      } else if last {
        assert toks == [t];
        LastPieceWords(t);
      } else {
        assert Residue(toks) == t + " " + rest;
        assert Kept(toks) == [t] + Kept(toks[1..]);
        ConsWords(t, rest);
        NonEmptyAppend([t], Kept(toks[1..]));
      }
    }
  }

  /**
    For a line with no whitespace other than plain spaces, the command word
    followed by the words of `args` is exactly the sequence of non-empty,
    non-flag words of the line, in their original order; when there is no
    such word both are empty (so a line of flags only has an empty command).
   */
  lemma CommandAndArgsAreTheWords(text: string)
    requires OnlyPlainSpaces(text)
    ensures var r := ParseCommandText(text);
      var ws := Words(text);
      && (ws == [] ==> r.command == [] && r.args == [])
      && (ws != [] ==> r.command == ws[0] && r.args == Join(ws[1..], ' '))
  {
    var toks := Split(text, ' ');
    CleanPieces(text);
    ResidueWords(toks);
    var s := Strip(Residue(toks));
    StripKeepsWords(Residue(toks));
    var parts := Split(s, ' ');
    assert NonEmpty(parts) == Words(text);
    if s == [] {
      assert parts == [[]];
      assert NonEmpty(parts[1..]) == [];
    } else {
      SplitFirstPiece(s, ' ');
      assert parts == [parts[0]] + parts[1..];
      NonEmptyAppend([parts[0]], parts[1..]);
    }
  }

  /** A line made only of flags has an empty command and no arguments. */
  lemma OnlyFlagsEmptyCommand(text: string)
    requires OnlyPlainSpaces(text)
    requires forall k :: 0 <= k < |Split(text, ' ')| ==>
      Split(text, ' ')[k] == [] || (|Split(text, ' ')[k]| >= 3 && Split(text, ' ')[k][..2] == "--")
    ensures ParseCommandText(text).command == [] && ParseCommandText(text).args == []
  {
    var toks := Split(text, ' ');
    CleanPieces(text);
    KeptOnlyEmpty(toks);
    CommandAndArgsAreTheWords(text);
  }

  lemma {:induction false} KeptOnlyEmpty(toks: seq<string>)
    requires forall k :: 0 <= k < |toks| ==> NoWhitespace(toks[k])
    requires forall k :: 0 <= k < |toks| ==> toks[k] == [] || (|toks[k]| >= 3 && toks[k][..2] == "--")
    ensures NonEmpty(Kept(toks)) == []
  {
    if |toks| > 0 {
      FlagNameOfCleanPiece(toks[0], |toks| == 1);
      KeptOnlyEmpty(toks[1..]);
    }
  }

  lemma {:induction false} KeptAreNotFlags(toks: seq<string>)
    requires forall k :: 0 <= k < |toks| ==> NoWhitespace(toks[k])
    ensures forall k :: 0 <= k < |Kept(toks)| ==> NoWhitespace(Kept(toks)[k]) && !PlainFlag(Kept(toks)[k])
  {
    if |toks| > 0 {
      KeptAreNotFlags(toks[1..]);
      FlagNameOfCleanPiece(toks[0], |toks| == 1);
    }
  }

  /**
    Idempotence needs plain spaces: a newline before a space keeps `--a` from
    being a flag in `x --a\n --b`, so it survives into the arguments, where it
    is a flag when they are parsed again.
   */
  lemma NewlineKeepsFlagInArgs()
    ensures ParseCommandText("x --a\n --b").args == "--a"
    ensures ParseCommandText("--a").flags == {"a"}
  {
    NewlinePieces();
    NewlineResidue();
    NewlineStrip();
    NewlineArgs();
    LoneFlag();
  }

  lemma NewlinePieces()
    ensures Split("x --a\n --b", ' ') == ["x", "--a\n", "--b"]
  {
    ThreePieces("x", "--a\n", "--b");
    assert "x" + " " + "--a\n" + " " + "--b" == "x --a\n --b";
  }

  lemma ThreePieces(a: string, b: string, c: string)
    requires ' ' !in a && ' ' !in b && ' ' !in c
    ensures Split(a + " " + b + " " + c, ' ') == [a, b, c]
  {
    TwoPieces(b, c);
    assert a + " " + b + " " + c == a + [' '] + (b + " " + c);
    SplitAround(a, b + " " + c, ' ');
    SplitNoSep(a, ' ');
  }

  lemma TwoPieces(a: string, b: string)
    requires ' ' !in a && ' ' !in b
    ensures Split(a + " " + b, ' ') == [a, b]
  {
    assert a + " " + b == a + [' '] + b;
    SplitAround(a, b, ' ');
    SplitNoSep(a, ' ');
    SplitNoSep(b, ' ');
  }

  lemma NewlineResidue()
    ensures Residue(["x", "--a\n", "--b"]) == "x --a\n "
  {
    assert "--a\n"[2..][1] == '\n';
    assert FlagName("x", false).None?;
    assert FlagName("--a\n", false).None?;
    assert FlagName("--b", true) == Some("b");
    var toks := ["x", "--a\n", "--b"];
    assert toks[1..] == ["--a\n", "--b"] && toks[1..][1..] == ["--b"] && toks[1..][1..][1..] == [];
    assert Residue(["--b"]) == [];
    assert Residue(["--a\n", "--b"]) == "--a\n ";
  }

  lemma NewlineStrip()
    ensures Strip("x --a\n ") == "x --a"
  {
    assert TrimStart("x --a\n ") == "x --a\n ";
    assert "x --a\n "[..6] == "x --a\n";
    assert "x --a\n"[..5] == "x --a";
  }

  lemma NewlineArgs()
    ensures Join(NonEmpty(Split("x --a", ' ')[1..]), ' ') == "--a"
  {
    TwoPieces("x", "--a");
    assert Split("x --a", ' ')[1..] == ["--a"];
    assert NonEmpty(["--a"]) == ["--a"];
  }

  lemma LoneFlag()
    ensures FlagNames(Split("--a", ' ')) == {"a"}
  {
    SplitNoSep("--a", ' ');
    var toks := ["--a"];
    assert FlagName(toks[0], true) == Some("a");
    assert "a" in FlagNames(toks);
    assert forall x :: x in FlagNames(toks) ==> x == "a";
  }

  /**
    Tokenizing is stable: for a line with no whitespace other than plain spaces
    and a non-empty command, the flag-free line `command args` tokenizes to the
    same command and arguments and no flags, and `args` alone carries no flag.
   */
  lemma Idempotent(text: string)
    requires OnlyPlainSpaces(text)
    ensures var r := ParseCommandText(text);
      && ParseCommandText(r.args).flags == {}
      && (r.command != [] ==>
            ParseCommandText(r.command + (if r.args == [] then [] else " " + r.args))
              == CommandLine(r.command, r.args, {}))
  {
    var ws := Words(text);
    CommandAndArgsAreTheWords(text);
    WordsAreClean(text);
    if ws == [] {
      EmptyLine();
    } else {
      ReparseWords(ws);
    }
  }

  /** The words of a line are non-empty, carry no whitespace and are not flags. */
  lemma WordsAreClean(text: string)
    requires OnlyPlainSpaces(text)
    ensures forall k :: 0 <= k < |Words(text)| ==>
      NoWhitespace(Words(text)[k]) && !PlainFlag(Words(text)[k]) && Words(text)[k] != []
  {
    var toks := Split(text, ' ');
    var ws := Words(text);
    CleanPieces(text);
    KeptAreNotFlags(toks);
    forall k | 0 <= k < |ws| ensures NoWhitespace(ws[k]) && !PlainFlag(ws[k]) && ws[k] != [] {
      assert ws[k] in Kept(toks);
    }
  }

  /** Words reassembled as command and arguments parse back to themselves, without flags. */
  lemma ReparseWords(ws: seq<string>)
    requires |ws| >= 1
    requires forall k :: 0 <= k < |ws| ==> NoWhitespace(ws[k]) && !PlainFlag(ws[k]) && ws[k] != []
    ensures var args := Join(ws[1..], ' ');
      && ParseCommandText(args).flags == {}
      && ParseCommandText(ws[0] + (if args == [] then [] else " " + args)) == CommandLine(ws[0], args, {})
  {
    var args := Join(ws[1..], ' ');
    RejoinWords(ws);
    LineOfWords(ws);
    var tail := ws[1..];
    if tail == [] {
      EmptyLine();
    } else {
      NoFlagsInWords(tail);
      assert ParseCommandText(args).flags == FlagNames(Split(args, ' '));
    }
  }

  lemma RejoinWords(ws: seq<string>)
    requires |ws| >= 1
    requires forall k :: 0 <= k < |ws| ==> ws[k] != []
    ensures var args := Join(ws[1..], ' ');
      ws[0] + (if args == [] then [] else " " + args) == Join(ws, ' ')
  {
    if |ws| > 1 {
      JoinEmptyFree(ws[1..], ' ');
    }
  }

  lemma NoFlagsInWords(ws: seq<string>)
    requires |ws| >= 1
    requires forall k :: 0 <= k < |ws| ==> NoWhitespace(ws[k]) && !PlainFlag(ws[k]) && ' ' !in ws[k]
    ensures FlagNames(Split(Join(ws, ' '), ' ')) == {}
  {
    JoinSplit(ws, ' ');
    forall k | 0 <= k < |ws| ensures FlagName(ws[k], k == |ws| - 1).None? {
      FlagNameOfCleanPiece(ws[k], k == |ws| - 1);
    }
  }

  /** A line of non-empty, flag-free, whitespace-free words tokenizes to its first word and the rest. */
  lemma LineOfWords(ws: seq<string>)
    requires |ws| >= 1
    requires forall k :: 0 <= k < |ws| ==> NoWhitespace(ws[k]) && !PlainFlag(ws[k]) && ' ' !in ws[k] && ws[k] != []
    ensures ParseCommandText(Join(ws, ' ')) == CommandLine(ws[0], Join(ws[1..], ' '), {})
  {
    var line := Join(ws, ' ');
    JoinSplit(ws, ' ');
    NoFlagsInWords(ws);
    assert OnlyPlainSpaces(line) by {
      CleanWordsLine(ws);
    }
    KeptNone(ws);
    CommandAndArgsAreTheWords(line);
    NonEmptyOfNonEmpty(ws);
  }

  lemma {:induction false} KeptNone(ws: seq<string>)
    requires forall k :: 0 <= k < |ws| ==> NoWhitespace(ws[k]) && !PlainFlag(ws[k])
    ensures Kept(ws) == ws
  {
    if |ws| > 0 {
      FlagNameOfCleanPiece(ws[0], |ws| == 1);
      KeptNone(ws[1..]);
    }
  }

  lemma {:induction false} CleanWordsLine(ws: seq<string>)
    requires forall k :: 0 <= k < |ws| ==> NoWhitespace(ws[k])
    ensures OnlyPlainSpaces(Join(ws, ' '))
  {
    if |ws| > 1 {
      CleanWordsLine(ws[1..]);
      var a, b := ws[0], Join(ws[1..], ' ');
      var line := a + [' '] + b;
      forall i | 0 <= i < |line| && IsSpace(line[i]) ensures line[i] == ' ' {
        if i > |a| { assert line[i] == b[i - |a| - 1]; }
      }
    }
  }
}
