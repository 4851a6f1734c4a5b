/**
 * The line filter built by callWrapper: given the key prefixes typed by the
 * operator and the category's show-all flag, it decides which lines of a
 * node's INFO text are printed, each as `indent + "+" + line`.
 *
 * Emitted is the specification (what is printed, as a function of the
 * inputs); CallWrapper is the nested loop of the source, proved to print
 * exactly that. The lemmas below state what the printed text means.
 */
module LineFilter {
  import opened Text

  /** Section headers and blank lines: never printed. */
  predicate Dropped(line: string) {
    HasPrefix(line, "#") || |line| == 0
  }

  /** The printed form of a data line. */
  function Echo(indent: string, line: string): string {
    indent + "+" + line
  }

  /** One copy of the line for each argument it starts with, in argument order. */
  function Echoes(indent: string, line: string, args: seq<string>): seq<string>
    decreases |args|
  {
    if args == [] then []
    else
      Echoes(indent, line, args[..|args| - 1])
      + (if HasPrefix(line, args[|args| - 1]) then [Echo(indent, line)] else [])
  }

  /** What one input line contributes to the output. */
  function LineOutput(args: seq<string>, showAll: bool, indent: string, line: string): seq<string> {
    if Dropped(line) then []
    else if |args| == 0 && showAll then [Echo(indent, line)]
    else Echoes(indent, line, args)
  }

  /** The whole output for a sequence of lines, line by line in input order. */
  function Emitted(args: seq<string>, showAll: bool, indent: string, lines: seq<string>): seq<string>
    decreases |lines|
  {
    if lines == [] then []
    else Emitted(args, showAll, indent, lines[..|lines| - 1]) + LineOutput(args, showAll, indent, lines[|lines| - 1])
  }

  /** The nested loops of the closure returned by callWrapper. */
  method CallWrapper(args: seq<string>, showAll: bool, indent: string, lines: seq<string>) returns (out: seq<string>)
    ensures out == Emitted(args, showAll, indent, lines)
  {
    out := [];
    for i := 0 to |lines|
      invariant out == Emitted(args, showAll, indent, lines[..i])
    {
      assert lines[..i + 1][..i] == lines[..i];
      var line := lines[i];
      if HasPrefix(line, "#") || |line| == 0 {
        continue;
      }
      if |args| == 0 && showAll {
        out := out + [indent + "+" + line];
        continue;
      }
      for j := 0 to |args|
        invariant out == Emitted(args, showAll, indent, lines[..i]) + Echoes(indent, line, args[..j])
      {
        assert args[..j + 1][..j] == args[..j];
        if HasPrefix(line, args[j]) {
          out := out + [indent + "+" + line];
        }
      }
      assert args[..|args|] == args;
    }
    assert lines[..|lines|] == lines;
  }

  // ---------------------------------------------------------------------------
  // What the printed text means

  /** The lines that can be printed at all. */
  function Surviving(lines: seq<string>): (r: seq<string>)
    ensures forall k :: 0 <= k < |r| ==> !Dropped(r[k]) && r[k] in lines
    decreases |lines|
  {
    if lines == [] then []
    else
      var last := lines[|lines| - 1];
      var init := Surviving(lines[..|lines| - 1]);
      assert forall x :: x in lines[..|lines| - 1] ==> x in lines;
      if Dropped(last) then init else init + [last]
  }

  /** Output is produced line by line: the output of `a + b` is that of `a` then that of `b`. */
  lemma {:induction false} EmittedAppend(args: seq<string>, showAll: bool, indent: string, a: seq<string>, b: seq<string>)
    ensures Emitted(args, showAll, indent, a + b)
         == Emitted(args, showAll, indent, a) + Emitted(args, showAll, indent, b)
    decreases |b|
  {
    if b == [] {
      assert a + b == a;
    } else {
      var b' := b[..|b| - 1];
      assert (a + b)[..|a + b| - 1] == a + b';
      assert (a + b)[|a + b| - 1] == b[|b| - 1];
      EmittedAppend(args, showAll, indent, a, b');
    }
  }

  /** Removing header and blank lines from the input changes nothing in the output. */
  lemma {:induction false} DroppedLinesIgnored(args: seq<string>, showAll: bool, indent: string, lines: seq<string>)
    ensures Emitted(args, showAll, indent, Surviving(lines)) == Emitted(args, showAll, indent, lines)
    decreases |lines|
  {
    if lines != [] {
      var init := lines[..|lines| - 1];
      var last := lines[|lines| - 1];
      DroppedLinesIgnored(args, showAll, indent, init);
      if !Dropped(last) {
        EmittedAppend(args, showAll, indent, Surviving(init), [last]);
        assert Emitted(args, showAll, indent, [last]) == LineOutput(args, showAll, indent, last) by {
          assert [last][..0] == [];
        }
      }
    }
  }

  /**
   * With no prefix arguments and show-all set, every surviving line is
   * printed exactly once, in input order.
   */
  lemma {:induction false} ShowAllPrintsSurvivors(showAll: bool, indent: string, lines: seq<string>)
    requires showAll
    ensures Emitted([], showAll, indent, lines)
         == seq(|Surviving(lines)|, k requires 0 <= k < |Surviving(lines)| => Echo(indent, Surviving(lines)[k]))
    decreases |lines|
  {
    if lines != [] {
      ShowAllPrintsSurvivors(showAll, indent, lines[..|lines| - 1]);
    }
  }

  /** With no prefix arguments and show-all off (the replication category), nothing is printed. */
  lemma {:induction false} NoArgumentsHideAll(indent: string, lines: seq<string>)
    ensures Emitted([], false, indent, lines) == []
    decreases |lines|
  {
    if lines != [] {
      NoArgumentsHideAll(indent, lines[..|lines| - 1]);
    }
  }

  /** The positions of the arguments a line starts with. */
  function MatchingArgs(line: string, args: seq<string>): set<nat> {
    set j: nat | j < |args| && HasPrefix(line, args[j])
  }

  /** Echoes holds nothing but copies of the line, one per matching argument. */
  lemma {:induction false} EchoesCount(indent: string, line: string, args: seq<string>)
    ensures |Echoes(indent, line, args)| == |MatchingArgs(line, args)|
    ensures forall k :: 0 <= k < |Echoes(indent, line, args)| ==> Echoes(indent, line, args)[k] == Echo(indent, line)
    decreases |args|
  {
    if args != [] {
      var n := |args| - 1;
      var init := args[..n];
      EchoesCount(indent, line, init);
      var before := MatchingArgs(line, init);
      var after := MatchingArgs(line, args);
      assert forall j :: 0 <= j < n ==> init[j] == args[j];
      if HasPrefix(line, args[n]) {
        assert after == before + {n};
        assert n !in before;
      } else {
        assert after == before;
      }
    }
  }

  /**
   * With prefix arguments, each occurrence of a surviving line is printed
   * once per argument it starts with (so twice if two prefixes match), and a
   * line matching no argument is not printed at all.
   */
  lemma {:induction false} PrintedOncePerMatchingArg(showAll: bool, indent: string, lines: seq<string>, args: seq<string>, line: string)
    requires args != []
    requires !Dropped(line)
    ensures multiset(Emitted(args, showAll, indent, lines))[Echo(indent, line)]
         == multiset(lines)[line] * |MatchingArgs(line, args)|
    decreases |lines|
  {
    if lines != [] {
      var init := lines[..|lines| - 1];
      var last := lines[|lines| - 1];
      assert lines == init + [last];
      PrintedOncePerMatchingArg(showAll, indent, init, args, line);
      LineOutputCount(args, showAll, indent, last, line);
      var m := |MatchingArgs(line, args)|;
      var x := Echo(indent, line);
      var before := multiset(init)[line];
      var early := multiset(Emitted(args, showAll, indent, init))[x];
      var piece := multiset(LineOutput(args, showAll, indent, last))[x];
      var one := if last == line then 1 else 0;
      assert early == before * m;
      assert piece == one * m;
      assert multiset(lines)[line] == before + one by {
        assert multiset(lines) == multiset(init) + multiset{last};
      }
      assert multiset(Emitted(args, showAll, indent, lines))[x] == early + piece by {
        assert Emitted(args, showAll, indent, lines)
            == Emitted(args, showAll, indent, init) + LineOutput(args, showAll, indent, last);
      }
      if last == line {
        assert early + piece == before * m + m;
        MulSucc(before, m);
      }
    }
  }

  lemma MulSucc(a: int, m: int)
    ensures (a + 1) * m == a * m + m
  {
  }

  /** How often one input line contributes the echo of `line`. */
  lemma LineOutputCount(args: seq<string>, showAll: bool, indent: string, last: string, line: string)
    requires args != []
    requires !Dropped(line)
    ensures multiset(LineOutput(args, showAll, indent, last))[Echo(indent, line)]
         == if last == line then |MatchingArgs(line, args)| else 0
  {
    var piece := LineOutput(args, showAll, indent, last);
    if last == line {
      EchoesCount(indent, line, args);
      SameElements(piece, Echo(indent, line));
    } else if !Dropped(last) {
      EchoesCount(indent, last, args);
      EchoInjective(indent, last, line);
      assert Echo(indent, line) !in piece;
    }
  }

  lemma EchoInjective(indent: string, a: string, b: string)
    ensures Echo(indent, a) == Echo(indent, b) <==> a == b
  {
    assert Echo(indent, a)[|indent| + 1..] == a;
    assert Echo(indent, b)[|indent| + 1..] == b;
  }

  lemma {:induction false} SameElements(s: seq<string>, x: string)
    requires forall k :: 0 <= k < |s| ==> s[k] == x
    ensures multiset(s)[x] == |s|
    decreases |s|
  {
    if s != [] {
      assert s == s[..|s| - 1] + [x];
      SameElements(s[..|s| - 1], x);
    }
  }

  /**
   * Printed iff kept: a data line appears in the output exactly when it is in
   * the input, is neither a header nor blank, and is either shown by default
   * or starts with one of the arguments.
   */
  lemma {:induction false} PrintedIffKept(args: seq<string>, showAll: bool, indent: string, lines: seq<string>, line: string)
    ensures Echo(indent, line) in Emitted(args, showAll, indent, lines)
        <==> && line in lines
             && !Dropped(line)
             && ((|args| == 0 && showAll) || exists j :: 0 <= j < |args| && HasPrefix(line, args[j]))
    decreases |lines|
  {
    if lines != [] {
      var init := lines[..|lines| - 1];
      var last := lines[|lines| - 1];
      assert lines == init + [last];
      PrintedIffKept(args, showAll, indent, init, line);
      var piece := LineOutput(args, showAll, indent, last);
      EchoesCount(indent, last, args);
      EchoInjective(indent, last, line);
      if !Dropped(last) && !(|args| == 0 && showAll) {
        var m := MatchingArgs(last, args);
        if exists j :: 0 <= j < |args| && HasPrefix(last, args[j]) {
          var j :| 0 <= j < |args| && HasPrefix(last, args[j]);
          assert j in m;
          assert |piece| > 0;
          assert piece[0] == Echo(indent, last);
        } else {
          assert m == {};
        }
      }
    }
  }

  /** Every printed line starts with the indent and a "+". */
  lemma {:induction false} EmittedIndented(args: seq<string>, showAll: bool, indent: string, lines: seq<string>)
    ensures forall k :: 0 <= k < |Emitted(args, showAll, indent, lines)| ==>
      HasPrefix(Emitted(args, showAll, indent, lines)[k], indent + "+")
    decreases |lines|
  {
    if lines != [] {
      var last := lines[|lines| - 1];
      EmittedIndented(args, showAll, indent, lines[..|lines| - 1]);
      EchoesCount(indent, last, args);
      assert HasPrefix(Echo(indent, last), indent + "+");
    }
  }
}
