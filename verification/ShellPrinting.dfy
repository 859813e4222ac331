/** The canonical printing of a list of calls, and that splitting and tokenizing undo it. */
module ShellPrinting {
  import opened Collections
  import opened ShellCalls
  import opened Strings
  import opened ShellTokenizer
  import opened ShellSplitter
  import opened ShellQuotes
  import opened ShellJoining
  import opened ShellWords

  lemma BareWord(w: string)
    requires Word(w)
    ensures Bare(w)
  {
    if Quoted(w) {
      BareQuoted(w);
    } else {
      BareWithoutOperators(w);
    }
  }

  lemma {:induction false} BareArgs(args: seq<string>)
    requires forall a | a in args :: Word(a)
    ensures Bare(PrintArgs(args))
  {
    hide Bare, Word;
    if args == [] {
      BareWithoutOperators("");
    } else {
      BareWithoutOperators(" ");
      BareWord(args[0]);
      BareAppend(" ", args[0]);
      BareArgs(args[1..]);
      BareAppend(" " + args[0], PrintArgs(args[1..]));
    }
  }

  lemma BareFile(sign: char, file: string)
    requires sign in {'<', '>'} && (file == "" || Word(file))
    ensures Bare(PrintFile(sign, file))
  {
    hide Bare, Word;
    if file == "" {
      BareWithoutOperators("");
    } else {
      BareWithoutOperators([' ', sign]);
      BareWord(file);
      BareAppend([' ', sign], file);
    }
  }

  lemma BarePrinted(c: Call)
    requires Canonical(c)
    ensures Bare(PrintCall(c))
  {
    hide Bare, Word, PrintArgs, PrintFile;
    BareWord(c.command);
    BareArgs(c.args);
    BareAppend(c.command, PrintArgs(c.args));
    BareFile('<', c.inputFile);
    BareAppend(c.command + PrintArgs(c.args), PrintFile('<', c.inputFile));
    BareFile('>', c.outputFile);
    BareAppend(c.command + PrintArgs(c.args) + PrintFile('<', c.inputFile), PrintFile('>', c.outputFile));
  }

  /** A list of calls a line can say: canonical calls, linked, ended by no operator. */
  predicate Sayable(xs: seq<Item>, before: Link)
  {
    xs != [] && xs[0].before == before && xs[0].after != First && Canonical(xs[0].call)
    && if |xs| == 1 then xs[0].after == Last else Sayable(xs[1..], Next(xs[0].after))
  }

  /** The line that says a list of calls: operators with a blank on either side. */
  function PrintLine(xs: seq<Item>): string
    requires xs != []
  {
    if |xs| == 1 then PrintCall(xs[0].call)
    else PrintCall(xs[0].call) + " " + Sign(xs[0].after) + " " + PrintLine(xs[1..])
  }

  /** The pieces such a line is cut into: blanks stay with the call texts. */
  function Texts(xs: seq<Item>, pre: string): seq<Piece>
  {
    if xs == [] then []
    else [Piece(pre + PrintCall(xs[0].call) + " ", xs[0].before, xs[0].after)] + Texts(xs[1..], " ")
  }

  /** A call text with white space around it is bare. */
  lemma BareText(c: Call, pre: string)
    requires Canonical(c) && AllSpace(pre)
    ensures Bare(pre + PrintCall(c) + " ")
  {
    hide Bare, Canonical, PrintCall;
    BarePrinted(c);
    BareWithoutOperators(pre);
    BareAppend(pre, PrintCall(c));
    BareWithoutOperators(" ");
    BareAppend(pre + PrintCall(c), " ");
  }

  lemma {:induction false} TextsJoinable(xs: seq<Item>, pre: string, before: Link)
    requires Sayable(xs, before) && AllSpace(pre)
    ensures Joinable(Texts(xs, pre), before)
    decreases |xs|
  {
    hide Bare, Canonical, PrintCall;
    var ps := Texts(xs, pre);
    BareText(xs[0].call, pre);
    if |xs| == 1 {
      assert xs[1..] == [];
      assert ps == [ps[0]] && ps[1..] == [];
      assert LinkedFrom(ps, before);
      assert ps[|ps| - 1].after == Last;
      assert forall p | p in ps :: p == ps[0];
      assert forall p | p in ps :: p.text != "" && Bare(p.text);
    } else {
      TextsJoinable(xs[1..], " ", Next(xs[0].after));
      var rest := Texts(xs[1..], " ");
      assert ps == [ps[0]] + rest && ps[1..] == rest;
      assert ps[|ps| - 1] == rest[|rest| - 1];
      assert LinkedFrom(ps, before);
      assert forall p | p in ps :: p == ps[0] || p in rest;
      assert forall p | p in rest :: p.text != "" && Bare(p.text);
      assert ps[0].text != "" && Bare(ps[0].text);
    }
  }

  lemma {:induction false} TextsJoin(xs: seq<Item>, pre: string)
    requires xs != []
    ensures Join(Texts(xs, pre)) == pre + PrintLine(xs) + " "
    decreases |xs|
  {
    hide PrintCall, Sign;
    var ps := Texts(xs, pre);
    if |xs| == 1 {
      assert xs[1..] == [];
      assert ps == [ps[0]];
    } else {
      TextsJoin(xs[1..], " ");
      assert ps[1..] == Texts(xs[1..], " ");
      assert Texts(xs[1..], " ") != [];
      var c, sign, rest := PrintCall(xs[0].call), Sign(xs[0].after), PrintLine(xs[1..]);
      assert (pre + c + " ") + sign + (" " + rest + " ") == pre + (c + " " + sign + " " + rest) + " ";
    }
  }

  /** Every piece is the text of the call in its place. */
  predicate ReadAs(ps: seq<Piece>, xs: seq<Item>, stray: Stray)
  {
    |ps| == |xs| && forall i | 0 <= i < |ps| ::
      Tokenize(ps[i].text, 0, 1, stray) == Some(xs[i].call) && ps[i].before == xs[i].before && ps[i].after == xs[i].after
  }

  lemma {:induction false} TextsRead(xs: seq<Item>, pre: string, before: Link, stray: Stray)
    requires Sayable(xs, before) && AllSpace(pre)
    ensures ReadAs(Texts(xs, pre), xs, stray)
    decreases |xs|
  {
    hide Canonical, PrintCall, Tokenize;
    TokenizePrinted(xs[0].call, pre, " ", stray);
    assert Texts(xs, pre)[1..] == Texts(xs[1..], " ");
    if |xs| == 1 {
      assert xs[1..] == [];
    } else {
      TextsRead(xs[1..], " ", Next(xs[0].after), stray);
    }
  }

  lemma {:induction false} ReadItems(ps: seq<Piece>, xs: seq<Item>, stray: Stray)
    requires ReadAs(ps, xs, stray)
    ensures Items(ps, stray) == Some(xs)
    decreases |ps|
  {
    hide Tokenize;
    if ps != [] {
      ReadItems(ps[1..], xs[1..], stray);
      assert xs == [xs[0]] + xs[1..];
    }
  }

  lemma {:induction false} LineTight(xs: seq<Item>, before: Link)
    requires Sayable(xs, before)
    ensures Tight(PrintLine(xs))
    decreases |xs|
  {
    hide Canonical, PrintCall, Sign;
    PrintedTight(xs[0].call);
    if |xs| > 1 {
      LineTight(xs[1..], Next(xs[0].after));
    }
  }

  /** The line with the sign for the background behind it, if it is to run there. */
  function PrintInstruction(xs: seq<Item>, background: bool): string
    requires xs != []
  {
    PrintLine(xs) + if background then " &" else ""
  }

  lemma InstructionTight(xs: seq<Item>, background: bool)
    requires Sayable(xs, First)
    ensures Tight(PrintInstruction(xs, background))
  {
    hide Sayable, PrintLine;
    assert xs != [] by { SayableSome(xs); }
    LineTight(xs, First);
    NotPadded(PrintLine(xs));
  }

  lemma SayableSome(xs: seq<Item>)
    requires Sayable(xs, First)
    ensures xs != []
  {
  }

  lemma ParseOf(line: string, ps: seq<Piece>, xs: seq<Item>, background: bool, stray: Stray)
    requires Cuts(Trim(line) + " ", 0, 0, First, false) == Some(Cut(ps, background, false)) && Items(ps, stray) == Some(xs)
    ensures Parse(line, stray) == Some(Parsed(xs, background, false))
  {
    hide Cuts, Items, Trim;
  }

  lemma CutWhole(s: string, x: string, ps: seq<Piece>, background: bool)
    requires Joinable(ps, First) && Join(ps) == "" + x + " " && s == x + (if background then " &" else "") + " "
    ensures Line(s) && Cuts(s, 0, 0, First, false) == Some(Cut(ps, background, false))
  {
    hide Cuts, Join, Joinable;
    assert s[|s| - 1] == ' ';
    assert s[0..] == s == Join(ps) + Ending(background);
    CutsJoin(s, 0, ps, First, background);
  }

  lemma LineCut(xs: seq<Item>, background: bool, stray: Stray)
    requires Sayable(xs, First)
    ensures Cuts(PrintInstruction(xs, background) + " ", 0, 0, First, false) == Some(Cut(Texts(xs, ""), background, false))
    ensures Items(Texts(xs, ""), stray) == Some(xs)
  {
    assert xs != [];
    hide Cuts, Items, Texts, Join, PrintLine, Sayable, Joinable, ReadAs;
    TextsJoinable(xs, "", First);
    TextsJoin(xs, "");
    CutWhole(PrintInstruction(xs, background) + " ", PrintLine(xs), Texts(xs, ""), background);
    TextsRead(xs, "", First, stray);
    ReadItems(Texts(xs, ""), xs, stray);
  }

  /** Splitting and tokenizing undo printing, in the foreground and in the background, with any white
      space around the line. */
  lemma ParsePrinted(xs: seq<Item>, background: bool, pre: string, post: string, stray: Stray)
    requires Sayable(xs, First)
    requires AllSpace(pre) && AllSpace(post)
    ensures Parse(pre + PrintInstruction(xs, background) + post, stray) == Some(Parsed(xs, background, false))
  {
    assert xs != [];
    hide Cuts, Trim, Items, Texts, PrintInstruction, Sayable, Parse;
    InstructionTight(xs, background);
    TrimPadded(pre, PrintInstruction(xs, background), post);
    LineCut(xs, background, stray);
    ParseOf(pre + PrintInstruction(xs, background) + post, Texts(xs, ""), xs, background, stray);
  }
}
