/** Conditional expansion of file lists.

A stack machine over lines is proved to compute the recursive meaning of every
well-nested text, line by line; on any other text, with stray `else` and `endif`
lines, the stack never empties and activity is inherited downwards. Stray lines are
ignored, and an open branch reaches to the end. */
module KFile {
  import opened Wrappers

  /** A line, classified as the expander does: anything else, `ifndef` included,
      is plain. */
  datatype Line = Ifdef(macro: string) | Else | Endif | Plain(text: string)

  datatype Frame = Frame(active: bool, hadTrue: bool)

  // ----- the machine -------------------------------------------------------

  function Top(stack: seq<Frame>): Frame
    requires stack != []
  {
    stack[|stack| - 1]
  }

  /** The stack after one line. */
  function Step(line: Line, defines: set<string>, stack: seq<Frame>): (r: seq<Frame>)
    requires stack != []
    ensures r != []
  {
    var n := |stack| - 1;
    match line
    case Ifdef(macro) =>
      var active := Top(stack).active && macro in defines;
      stack + [Frame(active, active)]
    case Else =>
      var parentActive := if n >= 1 then stack[n - 1].active else true;
      stack[n := Top(stack).(active := !Top(stack).hadTrue && parentActive)]
    case Endif => if n > 0 then stack[..n] else stack
    case Plain(_) => stack
  }

  function Kept(line: Line, stack: seq<Frame>): Option<string>
    requires stack != []
  {
    if line.Plain? && Top(stack).active then Some(line.text) else None
  }

  function Run(lines: seq<Line>, defines: set<string>, stack: seq<Frame>): (seq<Option<string>>, seq<Frame>)
    requires stack != []
  {
    if lines == [] then ([], stack)
    else
      var rest := Run(lines[1..], defines, Step(lines[0], defines, stack));
      ([Kept(lines[0], stack)] + rest.0, rest.1)
  }

  const BOTTOM := Frame(true, false)

  /** Every active frame stands on an active frame, and the bottom one is active. */
  predicate Inherited(stack: seq<Frame>) {
    stack != [] && stack[0] == BOTTOM && forall i :: 0 < i < |stack| ==> stack[i].active ==> stack[i - 1].active
  }

  /** `_expand`: one result per line; the file gets those that are kept. */
  method Expand(lines: seq<Line>, defines: set<string>) returns (result: seq<Option<string>>)
    ensures result == Run(lines, defines, [BOTTOM]).0
    ensures |result| == |lines|
  {
    var stack := [BOTTOM];
    result := [];
    for i := 0 to |lines|
      invariant Inherited(stack) && |result| == i
      invariant result + Run(lines[i..], defines, stack).0 == Run(lines, defines, [BOTTOM]).0
    {
      var line := lines[i];
      ghost var before, was := stack, result;
      assert lines[i..][1..] == lines[i + 1..];
      match line {
        case Ifdef(macro) =>
          var frame := stack[|stack| - 1];
          var newActive := frame.active && macro in defines;
          stack := stack + [Frame(newActive, newActive)];
          result := result + [None];
        case Else =>
          var n := |stack| - 1;
          if stack[n].hadTrue {
            stack := stack[n := stack[n].(active := false)];
          } else {
            var parentActive := if |stack| >= 2 then stack[n - 1].active else true;
            stack := stack[n := stack[n].(active := parentActive && !stack[n].hadTrue)];
          }
          result := result + [None];
        case Endif =>
          if |stack| > 1 {
            stack := stack[..|stack| - 1];
          }
          result := result + [None];
        case Plain(text) =>
          if stack[|stack| - 1].active {
            result := result + [Some(text)];
          } else {
            result := result + [None];
          }
      }
      assert stack == Step(line, defines, before) && result == was + [Kept(line, before)];
      StepInherits(line, defines, before);
      RunStep(lines[i..], defines, before, was);
    }
    assert lines[|lines|..] == [];
  }

  lemma StepInherits(line: Line, defines: set<string>, stack: seq<Frame>)
    requires Inherited(stack)
    ensures Inherited(Step(line, defines, stack))
  {
  }

  lemma RunStep(lines: seq<Line>, defines: set<string>, stack: seq<Frame>, was: seq<Option<string>>)
    requires lines != [] && stack != []
    ensures was + Run(lines, defines, stack).0 ==
            was + [Kept(lines[0], stack)] + Run(lines[1..], defines, Step(lines[0], defines, stack)).0
  {
  }

  /** On any text at all. */
  lemma {:induction false} AlwaysInherited(lines: seq<Line>, defines: set<string>, stack: seq<Frame>)
    requires Inherited(stack)
    ensures Inherited(Run(lines, defines, stack).1)
    ensures |Run(lines, defines, stack).0| == |lines|
  {
    if lines != [] {
      StepInherits(lines[0], defines, stack);
      AlwaysInherited(lines[1..], defines, Step(lines[0], defines, stack));
    }
  }

  // ----- the meaning of a well-nested text ---------------------------------

  datatype Text = End | Then(item: Item, rest: Text)
  datatype Item = Leaf(text: string) | If(macro: string, yes: Text) | IfElse(macro: string, yes: Text, no: Text)

  function Lines(t: Text): seq<Line> {
    match t
    case End => []
    case Then(item, rest) => ItemLines(item) + Lines(rest)
  }

  function ItemLines(item: Item): seq<Line> {
    match item
    case Leaf(text) => [Plain(text)]
    case If(macro, yes) => [Ifdef(macro)] + (Lines(yes) + [Endif])
    case IfElse(macro, yes, no) => [Ifdef(macro)] + (Lines(yes) + ([Else] + (Lines(no) + [Endif])))
  }

  /** The lines of the selected branches, in order. */
  function Selected(t: Text, defines: set<string>): seq<string> {
    match t
    case End => []
    case Then(item, rest) => ItemSelected(item, defines) + Selected(rest, defines)
  }

  function ItemSelected(item: Item, defines: set<string>): seq<string> {
    match item
    case Leaf(text) => [text]
    case If(macro, yes) => if macro in defines then Selected(yes, defines) else []
    case IfElse(macro, yes, no) => if macro in defines then Selected(yes, defines) else Selected(no, defines)
  }

  function KeptLines(r: seq<Option<string>>): seq<string> {
    if r == [] then [] else (if r[0].Some? then [r[0].value] else []) + KeptLines(r[1..])
  }

  lemma {:induction false} KeptLinesConcat(a: seq<Option<string>>, b: seq<Option<string>>)
    ensures KeptLines(a + b) == KeptLines(a) + KeptLines(b)
  {
    if a == [] {
      assert a + b == b;
    } else {
      assert (a + b)[1..] == a[1..] + b;
      KeptLinesConcat(a[1..], b);
    }
  }

  lemma {:induction false} RunConcat(a: seq<Line>, b: seq<Line>, defines: set<string>, stack: seq<Frame>)
    requires stack != []
    ensures var first := Run(a, defines, stack);
            && first.1 != []
            && var second := Run(b, defines, first.1);
            Run(a + b, defines, stack) == (first.0 + second.0, second.1)
  {
    if a == [] {
      assert a + b == b;
      assert [] + Run(b, defines, stack).0 == Run(b, defines, stack).0;
    } else {
      assert (a + b)[1..] == a[1..] + b;
      var next, k := Step(a[0], defines, stack), [Kept(a[0], stack)];
      RunConcat(a[1..], b, defines, next);
      var first := Run(a[1..], defines, next);
      assert k + (first.0 + Run(b, defines, first.1).0) == k + first.0 + Run(b, defines, first.1).0;
    }
  }

  /** What a stretch of lines keeps, and the stack it leaves. */
  ghost predicate Yields(lines: seq<Line>, defines: set<string>, stack: seq<Frame>, kept: seq<string>, stack': seq<Frame>)
    requires stack != []
  {
    KeptLines(Run(lines, defines, stack).0) == kept && Run(lines, defines, stack).1 == stack'
  }

  lemma YieldsConcat(a: seq<Line>, b: seq<Line>, defines: set<string>, stack: seq<Frame>, ka: seq<string>, mid: seq<Frame>,
                     kb: seq<string>, end: seq<Frame>)
    requires stack != [] && mid != [] && Yields(a, defines, stack, ka, mid) && Yields(b, defines, mid, kb, end)
    ensures Yields(a + b, defines, stack, ka + kb, end)
  {
    RunConcat(a, b, defines, stack);
    KeptLinesConcat(Run(a, defines, stack).0, Run(b, defines, mid).0);
  }

  lemma YieldsDirective(line: Line, defines: set<string>, stack: seq<Frame>)
    requires stack != [] && !line.Plain?
    ensures Yields([line], defines, stack, [], Step(line, defines, stack))
  {
    assert Run([line], defines, stack).0 == [None];
    assert KeptLines([None]) == [] + KeptLines([None][1..]);
  }

  lemma {:induction false} TextYields(t: Text, defines: set<string>, stack: seq<Frame>)
    requires stack != []
    ensures Yields(Lines(t), defines, stack, if Top(stack).active then Selected(t, defines) else [], stack)
  {
    if t.Then? {
      ItemYields(t.item, defines, stack);
      TextYields(t.rest, defines, stack);
      YieldsConcat(ItemLines(t.item), Lines(t.rest), defines, stack,
                   if Top(stack).active then ItemSelected(t.item, defines) else [], stack,
                   if Top(stack).active then Selected(t.rest, defines) else [], stack);
    }
  }

  lemma {:induction false} ItemYields(item: Item, defines: set<string>, stack: seq<Frame>)
    requires stack != []
    ensures Yields(ItemLines(item), defines, stack, if Top(stack).active then ItemSelected(item, defines) else [], stack)
  {
    var active := Top(stack).active;
    match item {
      case Leaf(text) =>
        assert Run([Plain(text)], defines, stack).0 == [Kept(Plain(text), stack)];
        assert KeptLines([Kept(Plain(text), stack)]) == if active then [text] else [];
      case If(macro, yes) =>
        var inside := stack + [Frame(active && macro in defines, active && macro in defines)];
        var kept := if active && macro in defines then Selected(yes, defines) else [];
        YieldsDirective(Ifdef(macro), defines, stack);
        TextYields(yes, defines, inside);
        YieldsDirective(Endif, defines, inside);
        assert Step(Endif, defines, inside) == stack;
        YieldsConcat(Lines(yes), [Endif], defines, inside, kept, inside, [], stack);
        YieldsConcat([Ifdef(macro)], Lines(yes) + [Endif], defines, stack, [], inside, kept + [], stack);
        assert [] + (kept + []) == kept;
      case IfElse(macro, yes, no) =>
        var on := active && macro in defines;
        var inside := stack + [Frame(on, on)];
        var other := stack + [Frame(!on && active, on)];
        var kept, kept' := if on then Selected(yes, defines) else [], if !on && active then Selected(no, defines) else [];
        YieldsDirective(Ifdef(macro), defines, stack);
        TextYields(yes, defines, inside);
        YieldsDirective(Else, defines, inside);
        assert Step(Else, defines, inside) == other;
        TextYields(no, defines, other);
        YieldsDirective(Endif, defines, other);
        assert Step(Endif, defines, other) == stack;
        YieldsConcat(Lines(no), [Endif], defines, other, kept', other, [], stack);
        YieldsConcat([Else], Lines(no) + [Endif], defines, inside, [], other, kept' + [], stack);
        YieldsConcat(Lines(yes), [Else] + (Lines(no) + [Endif]), defines, inside, kept, inside, [] + (kept' + []), stack);
        YieldsConcat([Ifdef(macro)], Lines(yes) + ([Else] + (Lines(no) + [Endif])), defines, stack, [], inside,
                     kept + ([] + (kept' + [])), stack);
        assert [] + (kept + ([] + (kept' + []))) == kept + kept';
    }
  }

  /** The expansion of a well-nested text keeps exactly the lines of its selected
      branches, in order. */
  lemma ExpandSelects(t: Text, defines: set<string>)
    ensures KeptLines(Run(Lines(t), defines, [BOTTOM]).0) == Selected(t, defines)
  {
    TextYields(t, defines, [BOTTOM]);
  }

  // ----- texts that are not well nested ------------------------------------

  /** An `else` or `endif` outside all branches does nothing. */
  lemma StrayIsIgnored(t: Text, stray: Line, u: Text, defines: set<string>)
    requires stray == Else || stray == Endif
    ensures KeptLines(Run(Lines(t) + ([stray] + Lines(u)), defines, [BOTTOM]).0) == Selected(t, defines) + Selected(u, defines)
  {
    TextYields(t, defines, [BOTTOM]);
    YieldsDirective(stray, defines, [BOTTOM]);
    assert Step(stray, defines, [BOTTOM]) == [BOTTOM];
    TextYields(u, defines, [BOTTOM]);
    YieldsConcat([stray], Lines(u), defines, [BOTTOM], [], [BOTTOM], Selected(u, defines), [BOTTOM]);
    YieldsConcat(Lines(t), [stray] + Lines(u), defines, [BOTTOM], Selected(t, defines), [BOTTOM],
                 [] + Selected(u, defines), [BOTTOM]);
    assert [] + Selected(u, defines) == Selected(u, defines);
  }

  /** A second `else` goes on with the branch of the first one. */
  lemma SecondElse(stack: seq<Frame>, defines: set<string>)
    requires stack != []
    ensures Step(Else, defines, Step(Else, defines, stack)) == Step(Else, defines, stack)
  {
  }

  /** A branch that is never closed reaches to the end. */
  lemma Unclosed(t: Text, macro: string, yes: Text, defines: set<string>)
    ensures KeptLines(Run(Lines(t) + ([Ifdef(macro)] + Lines(yes)), defines, [BOTTOM]).0) ==
            Selected(t, defines) + if macro in defines then Selected(yes, defines) else []
  {
    var on := macro in defines;
    var inside := [BOTTOM] + [Frame(on, on)];
    var kept := if on then Selected(yes, defines) else [];
    TextYields(t, defines, [BOTTOM]);
    YieldsDirective(Ifdef(macro), defines, [BOTTOM]);
    TextYields(yes, defines, inside);
    YieldsConcat([Ifdef(macro)], Lines(yes), defines, [BOTTOM], [], inside, kept, inside);
    YieldsConcat(Lines(t), [Ifdef(macro)] + Lines(yes), defines, [BOTTOM], Selected(t, defines), [BOTTOM], [] + kept, inside);
    assert [] + kept == kept;
  }
}
