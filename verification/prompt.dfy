/** The interactive helpers: `read_input`, `confirm` and `select_profile`.
    Standard input is a finite sequence of raw lines. Once it is used up,
    `read_line` succeeds with nothing read, so every further prompt sees "". */
module Prompt {
  import opened Optional
  import opened Text
  import opened Decimal

  type Input = seq<string>

  /** What the `i`-th call of `read_input` returns: that line trimmed, or ""
      when standard input has already ended. */
  function Line(inp: Input, i: nat): string {
    if i < |inp| then Trim(inp[i]) else ""
  }

  /** The input left after `n` lines have been read. */
  function Drop(inp: Input, n: nat): (rest: Input)
    ensures |rest| == if n <= |inp| then |inp| - n else 0
  {
    if n <= |inp| then inp[n..] else []
  }

  lemma DropLine(inp: Input, n: nat, i: nat)
    ensures Line(Drop(inp, n), i) == Line(inp, n + i)
    ensures Drop(Drop(inp, n), i) == Drop(inp, n + i)
  {
  }

  datatype Read = Read(line: string, rest: Input)

  /** `read_input`: one line, trimmed. */
  function ReadInput(inp: Input): (r: Read)
    ensures r.line == Line(inp, 0) && r.rest == Drop(inp, 1)
  {
    if inp == [] then Read("", []) else Read(Trim(inp[0]), inp[1..])
  }

  datatype Answer = Answer(yes: bool, rest: Input)

  /** `confirm`: reads one line and accepts it exactly when it is "y" or "Y"
      once trimmed; "yes", "n", an empty line and the end of input all refuse. */
  function Confirm(inp: Input): (r: Answer)
    ensures r.yes <==> Line(inp, 0) == "y" || Line(inp, 0) == "Y"
    ensures r.rest == Drop(inp, 1)
  {
    var read := ReadInput(inp);
    LowerIsY(read.line);
    Answer(ToLower(read.line) == "y", read.rest)
  }

  lemma ConfirmExamples()
    ensures Confirm(["y"]).yes && Confirm(["Y"]).yes && Confirm([" y \n"]).yes
    ensures !Confirm(["yes"]).yes && !Confirm(["n"]).yes && !Confirm([""]).yes && !Confirm([]).yes
  {
    assert Line([" y \n"], 0) == "y" by {
      TrimOfTrimmed("y");
      assert TrimStart(" y \n") == TrimStart("y \n") == "y \n";
      assert TrimEnd("y \n") == TrimEnd("y ") == TrimEnd("y") == "y";
    }
    TrimOfTrimmed("yes");
    TrimOfTrimmed("n");
  }

  /** The validity test inside the selection loop: the line parses as a `usize`
      `n` with `1 <= n <= count`; the result is that 1-based position. */
  function Choice(line: string, count: nat): (r: Option<nat>)
    ensures r.Some? ==> 1 <= r.value <= count && ParseUsize(line) == Some(r.value)
    ensures r.None? <==> ParseUsize(line).None? || ParseUsize(line).value == 0 || ParseUsize(line).value > count
  {
    var n := ParseUsize(line);
    if n.Some? && n.value > 0 && n.value <= count then n else None
  }

  /** Typing the number printed beside the `n`-th key chooses position `n`. */
  lemma ChoiceOfRendered(n: nat, count: nat)
    requires 1 <= n <= count <= UsizeMax
    ensures Choice(Render(n), count) == Some(n)
  {
    ParseRender(n);
  }

  /** Zero, negative numbers, non-numbers and numbers past the end are refused. */
  lemma ChoiceRejects(count: nat)
    ensures Choice("0", count) == None
    ensures Choice("-1", count) == None
    ensures Choice("abc", count) == None
    ensures Choice("", count) == None
    ensures Choice(Render(count + 1), count) == None
  {
    ParseRejects();
    assert Render(0) == "0";
    ValueOfRender(0);
    if count + 1 <= UsizeMax {
      ParseRender(count + 1);
    } else {
      ParseOverflow(count + 1);
    }
  }

  /** Line `i` is the first line of `inp` the selection loop accepts. */
  predicate FirstAccepted(inp: Input, count: nat, i: nat) {
    && i < |inp|
    && Choice(Trim(inp[i]), count).Some?
    && forall j :: 0 <= j < i ==> Choice(Trim(inp[j]), count).None?
  }

  lemma FirstAcceptedShift(inp: Input, count: nat)
    requires inp != [] && Choice(Trim(inp[0]), count).None?
    ensures forall i: nat :: FirstAccepted(inp[1..], count, i) ==> FirstAccepted(inp, count, i + 1)
  {
  }

  datatype Selection = Selection(key: string, rest: Input)

  /** `select_profile` over the listing `order`: reads lines until one is a valid
      position and returns the key listed there with the input after that line.
      `None` means the input ran out first; the program itself then keeps
      prompting forever, reading "" at end of input. */
  function Select(order: seq<string>, inp: Input): (r: Option<Selection>)
    ensures r.Some? ==> r.value.key in order && |r.value.rest| < |inp|
    decreases |inp|
  {
    if inp == [] then None
    else
      var read := ReadInput(inp);
      var n := Choice(read.line, |order|);
      if n.Some? then Some(Selection(order[n.value - 1], read.rest))
      else Select(order, read.rest)
  }

  /** Selection stops at the first valid line: it returns the key at the
      position that line gives, and the input after it; every earlier line was
      refused. It returns `None` only when no line is valid. */
  lemma {:induction false} SelectSpec(order: seq<string>, inp: Input)
    ensures Select(order, inp).None? ==> forall i :: 0 <= i < |inp| ==> Choice(Trim(inp[i]), |order|).None?
    ensures Select(order, inp).Some? ==>
              exists i: nat :: && FirstAccepted(inp, |order|, i)
                               && Select(order, inp).value.key == order[Choice(Trim(inp[i]), |order|).value - 1]
                               && Select(order, inp).value.rest == inp[i + 1..]
    decreases |inp|
  {
    if inp != [] {
      var n := Choice(Trim(inp[0]), |order|);
      if n.Some? {
        assert FirstAccepted(inp, |order|, 0);
      } else {
        var tail := inp[1..];
        assert Select(order, inp) == Select(order, tail);
        SelectSpec(order, tail);
        FirstAcceptedShift(inp, |order|);
        assert forall i :: 1 <= i < |inp| ==> inp[i] == tail[i - 1];
        if Select(order, tail).Some? {
          var i: nat :| && FirstAccepted(tail, |order|, i)
                        && Select(order, tail).value.key == order[Choice(Trim(tail[i]), |order|).value - 1]
                        && Select(order, tail).value.rest == tail[i + 1..];
          assert FirstAccepted(inp, |order|, i + 1);
          assert tail[i + 1..] == inp[i + 2..];
        }
      }
    }
  }

  /** The retry loop of `select_profile` as written: read a line, return the
      listed key if the line is a valid position, otherwise prompt again. It
      stops with `None` only when the given input is used up. */
  method SelectLoop(order: seq<string>, inp: Input) returns (r: Option<Selection>)
    ensures r == Select(order, inp)
  {
    var rest := inp;
    while rest != []
      invariant Select(order, rest) == Select(order, inp)
      decreases |rest|
    {
      var read := ReadInput(rest);
      var n := Choice(read.line, |order|);
      if n.Some? {
        return Some(Selection(order[n.value - 1], read.rest));
      }
      rest := read.rest;
    }
    return None;
  }

  /** Lines the loop refuses are skipped without effect on what it returns. */
  lemma {:induction false} SelectSkips(order: seq<string>, refused: Input, rest: Input)
    requires forall i :: 0 <= i < |refused| ==> Choice(Trim(refused[i]), |order|).None?
    ensures Select(order, refused + rest) == Select(order, rest)
    decreases |refused|
  {
    if refused != [] {
      var inp := refused + rest;
      assert inp[0] == refused[0];
      assert inp[1..] == refused[1..] + rest;
      assert Select(order, inp) == Select(order, inp[1..]);
      SelectSkips(order, refused[1..], rest);
    } else {
      assert refused + rest == rest;
    }
  }

  /** Typing the number printed beside a key selects that key and reads nothing more. */
  lemma SelectDisplayed(order: seq<string>, i: nat, rest: Input)
    requires i < |order| <= UsizeMax
    ensures Select(order, [Render(i + 1)] + rest) == Some(Selection(order[i], rest))
  {
    RenderTrimmed(i + 1);
    TrimOfTrimmed(Render(i + 1));
    ChoiceOfRendered(i + 1, |order|);
    assert ([Render(i + 1)] + rest)[1..] == rest;
  }

  lemma RenderTrimmed(n: nat)
    ensures Trimmed(Render(n))
  {
  }
}
