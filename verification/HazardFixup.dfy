/** NOPs against cancelled delayed writes.

A division, remainder or load whose destination is written again by one of the
next two instructions is followed by NOPs. Proved: the input is still there, line
by line, with nothing but NOPs in between; every such pair ends up at least ten
instructions apart, and exactly ten where no other line adds to it; and running the tool on its own output changes nothing, except
for one odd spelling of a destination. That last fact hangs on how the tool reads
the line it inserts: the colon in its comment makes it an instruction. */
module HazardFixup {
  import opened Arithmetic
  import opened Scan
  import opened Wrappers

  /** What `AssemblyLine` reads in a line; no mnemonic unless the line is an
      instruction with operands. */
  datatype Asm = Asm(mnemonic: Option<string>, operands: seq<string>)

  predicate NotColon(c: char) { c != ':' }
  predicate NotHash(c: char) { c != '#' }
  predicate NotSpace(c: char) { !IsSpace(c) }

  function StripLeft(s: string): string {
    s[Span(s, IsSpace)..]
  }

  function StripRight(s: string): string {
    if s != "" && IsSpace(s[|s| - 1]) then StripRight(s[..|s| - 1]) else s
  }

  /** The part behind the first colon, if there is one. */
  function DropLabel(s: string): string {
    var n := Span(s, NotColon);
    if n < |s| then s[n + 1..] else s
  }

  function DropComment(s: string): string {
    s[..Span(s, NotHash)]
  }

  function Lower(c: char): char {
    if 'A' <= c <= 'Z' then ((c - 'A') + 'a') else c
  }

  function LowerAll(s: string): string {
    seq(|s|, i requires 0 <= i < |s| => Lower(s[i]))
  }

  function Split(s: string): seq<string>
    decreases |s|
  {
    var t := StripLeft(s);
    var n := Span(t, NotSpace);
    if n == 0 then [] else [t[..n]] + Split(t[n..])
  }

  /** The constructor of `AssemblyLine`. */
  function Parse(text: string): Asm {
    var s := StripRight(StripLeft(DropComment(DropLabel(text))));
    var n := Span(s, NotSpace);
    if n == 0 || n == |s| || s[0] == '.' then Asm(None, [])
    else Asm(Some(LowerAll(s[..n])), Split(s[n..]))
  }

  // ----- the inserted line -------------------------------------------------

  const NOP_HEAD := "                  nop # FIXME"
  const NOP_MORE := " not to make VeeR" + " cancel a delayed write"
  const NOP_TAIL := " " + (("A" + (" " + ("fixup" + NOP_MORE))) + "\n")
  const NOP := NOP_HEAD + (":" + NOP_TAIL)

  lemma AllConcat(a: string, b: string, p: char -> bool)
    requires All(a, p) && All(b, p)
    ensures All(a + b, p)
  {
  }

  lemma LabelIsDropped(head: string, tail: string)
    requires All(head, NotColon)
    ensures DropLabel(head + (":" + tail)) == tail
  {
    SpanOf(head, ":" + tail, NotColon);
    assert (head + (":" + tail))[|head| + 1..] == tail;
  }

  lemma NoComment(s: string)
    requires All(s, NotHash)
    ensures DropComment(s) == s
  {
    SpanOf(s, "", NotHash);
    assert s + "" == s;
  }

  lemma StripBoth(pre: string, s: string, post: string)
    requires s != "" && !IsSpace(s[0]) && !IsSpace(s[|s| - 1])
    requires All(pre, IsSpace) && |post| == 1 && IsSpace(post[0])
    ensures StripRight(StripLeft(pre + (s + post))) == s
  {
    SpanOf(pre, s + post, IsSpace);
    assert (pre + (s + post))[|pre|..] == s + post;
    assert (s + post)[..|s|] == s;
  }

  lemma FirstWord(pre: string, word: string, rest: string)
    requires All(pre, IsSpace) && All(word, NotSpace) && word != "" && rest != "" && IsSpace(rest[0])
    ensures Split(pre + (word + rest)) != [] && Split(pre + (word + rest))[0] == word
  {
    assert (word + rest)[0] == word[0];
    SpanOf(pre, word + rest, IsSpace);
    assert (pre + (word + rest))[|pre|..] == word + rest;
    SpanOf(word, rest, NotSpace);
    assert (word + rest)[..|word|] == word;
  }

  /** How the text behind a label and in front of a comment is read. */
  lemma ParseWords(text: string, pre: string, word: string, operand: string, more: string)
    requires DropComment(DropLabel(text)) == pre + ((word + (" " + (operand + more))) + "\n") && All(pre, IsSpace)
    requires word != "" && All(word, NotSpace) && word[0] != '.'
    requires operand != "" && All(operand, NotSpace)
    requires |more| > 1 && IsSpace(more[0]) && !IsSpace(more[|more| - 1])
    ensures var line := Parse(text);
            line.mnemonic == Some(LowerAll(word)) && line.operands != [] && line.operands[0] == operand
  {
    var rest := " " + (operand + more);
    var s := word + rest;
    assert s[0] == word[0] && s[|s| - 1] == more[|more| - 1];
    StripBoth(pre, s, "\n");
    SpanOf(word, rest, NotSpace);
    assert s[..|word|] == word && s[|word|..] == rest;
    FirstWord(" ", operand, more);
  }

  /** How a line of the shape "label: word operand more" is read. */
  lemma ParseShape(head: string, word: string, operand: string, more: string)
    requires All(head, NotColon)
    requires All(" " + ((word + (" " + (operand + more))) + "\n"), NotHash)
    requires word != "" && All(word, NotSpace) && word[0] != '.'
    requires operand != "" && All(operand, NotSpace)
    requires |more| > 1 && IsSpace(more[0]) && !IsSpace(more[|more| - 1])
    ensures var line := Parse(head + (":" + (" " + ((word + (" " + (operand + more))) + "\n"))));
            line.mnemonic == Some(LowerAll(word)) && line.operands != [] && line.operands[0] == operand
  {
    var tail := " " + ((word + (" " + (operand + more))) + "\n");
    LabelIsDropped(head, tail);
    NoComment(tail);
    ParseWords(head + (":" + tail), " ", word, operand, more);
  }

  lemma NopHasNoHash()
    ensures All(NOP_TAIL, NotHash)
  {
    assert All(" not to make VeeR", NotHash) && All(" cancel a delayed write", NotHash);
    AllConcat(" not to make VeeR", " cancel a delayed write", NotHash);
    AllConcat("fixup", NOP_MORE, NotHash);
    AllConcat(" ", "fixup" + NOP_MORE, NotHash);
    AllConcat("A", " " + ("fixup" + NOP_MORE), NotHash);
    AllConcat("A" + (" " + ("fixup" + NOP_MORE)), "\n", NotHash);
    AllConcat(" ", ("A" + (" " + ("fixup" + NOP_MORE))) + "\n", NotHash);
  }

  lemma NopHeadAndMore()
    ensures All(NOP_HEAD, NotColon) && LowerAll("A") == "a" && All("fixup", NotSpace)
    ensures |NOP_MORE| > 1 && IsSpace(NOP_MORE[0]) && !IsSpace(NOP_MORE[|NOP_MORE| - 1])
  {
    assert NOP_MORE[0] == ' ' && NOP_MORE[|NOP_MORE| - 1] == 'e';
  }

  /** The inserted line is read back as an instruction "a" with first operand
      "fixup": its comment holds a colon, and labels are stripped before comments. */
  lemma NopIsInstruction()
    ensures IsFixup(Parse(NOP))
  {
    NopHasNoHash();
    NopHeadAndMore();
    ParseShape(NOP_HEAD, "A", "fixup", NOP_MORE);
  }

  /** The assembler, to which the number sign begins a comment, reads it as a nop. */
  lemma NopIsNop()
    ensures StripRight(StripLeft(DropComment(NOP))) == "nop"
  {
    var head, mark := "                  " + ("nop" + " "), "# FIXME";
    assert NOP_HEAD == head + mark;
    assert NOP == head + ("#" + (" FIXME" + (":" + NOP_TAIL)));
    CommentIsDropped(head, " FIXME" + (":" + NOP_TAIL));
    StripBoth("                  ", "nop", " ");
  }

  predicate IsFixup(line: Asm) {
    line.mnemonic == Some("a") && line.operands != [] && line.operands[0] == "fixup"
  }

  /** Operands come with every mnemonic, so `line.operands[0]` exists. */
  lemma InstrHasOperands(text: string)
    ensures Sound(Parse(text))
  {
    var s := StripRight(StripLeft(DropComment(DropLabel(text))));
    var n := Span(s, NotSpace);
    if n != 0 && n != |s| {
      StripRightEnds(StripLeft(DropComment(DropLabel(text))));
      var t := s[n..];
      SpanStops(t, IsSpace, |t| - 1);
      assert StripLeft(t) != "" && NotSpace(StripLeft(t)[0]);
    }
  }

  lemma {:induction false} StripRightEnds(s: string)
    ensures StripRight(s) == "" || !IsSpace(StripRight(s)[|StripRight(s)| - 1])
  {
    if s != "" && IsSpace(s[|s| - 1]) {
      StripRightEnds(s[..|s| - 1]);
    }
  }

  lemma SpanStops(t: string, p: char -> bool, k: nat)
    requires k < |t| && !p(t[k])
    ensures Span(t, p) <= k
  {
  }

  // ----- how other lines are read ------------------------------------------

  /** A label and a comment do not matter. */
  lemma LabelAndComment(name: string, body: string, comment: string)
    requires All(name, NotColon) && All(body, NotColon) && All(body, NotHash)
    ensures Parse(name + (":" + body)) == Parse(body)
    ensures Parse(name + (":" + (body + ("#" + comment)))) == Parse(body)
    ensures All(comment, NotColon) ==> Parse(body + ("#" + comment)) == Parse(body)
  {
    var commented := body + ("#" + comment);
    LabelIsDropped(name, body);
    LabelIsDropped(name, commented);
    CommentIsDropped(body, comment);
    NoComment(body);
    NoLabel(body);
    if All(comment, NotColon) {
      AllConcat("#", comment, NotColon);
      AllConcat(body, "#" + comment, NotColon);
      NoLabel(commented);
    }
  }

  lemma CommentIsDropped(body: string, comment: string)
    requires All(body, NotHash)
    ensures DropComment(body + ("#" + comment)) == body
  {
    SpanOf(body, "#" + comment, NotHash);
  }

  lemma {:induction false} StripRightBehind(a: string, b: string)
    requires a != "" && !IsSpace(a[|a| - 1])
    ensures StripRight(a + b) == a + StripRight(b)
    ensures StripRight(b) <= b
  {
    if b == "" {
      assert a + b == a;
    } else {
      assert (a + b)[|a + b| - 1] == b[|b| - 1];
      assert (a + b)[..|a + b| - 1] == a + b[..|b| - 1];
      if IsSpace(b[|b| - 1]) {
        StripRightBehind(a, b[..|b| - 1]);
      }
    }
  }

  /** What is left of a line once it has no label and no comment. */
  lemma Stripped(pre: string, s: string, post: string)
    requires All(pre, IsSpace) && s != "" && !IsSpace(s[0]) && !IsSpace(s[|s| - 1])
    ensures StripRight(StripLeft(pre + (s + post))) == s + StripRight(post)
    ensures StripRight(post) <= post
  {
    SpanOf(pre, s + post, IsSpace);
    assert (pre + (s + post))[|pre|..] == s + post;
    StripRightBehind(s, post);
  }

  /** Does not hold up a word. */
  predicate Ends(rest: string) {
    rest == "" || IsSpace(rest[0])
  }

  lemma LeadingWord(word: string, rest: string)
    requires All(word, NotSpace) && Ends(rest)
    ensures Span(word + rest, NotSpace) == |word|
    ensures (word + rest)[..|word|] == word && (word + rest)[|word|..] == rest
  {
    SpanOf(word, rest, NotSpace);
  }

  lemma SplitsFirst(gap: string, word: string, rest: string)
    requires All(gap, IsSpace) && All(word, NotSpace) && word != "" && Ends(rest)
    ensures Split(gap + (word + rest)) == [word] + Split(rest)
  {
    assert (word + rest)[0] == word[0];
    SpanOf(gap, word + rest, IsSpace);
    assert (gap + (word + rest))[|gap|..] == word + rest;
    LeadingWord(word, rest);
  }

  /** A plain line with a word and operands: the word in lower case is the mnemonic, and
      the operands are the words behind it; a directive is no instruction. */
  lemma InstrIsRead(text: string, pre: string, word: string, gap: string, operand: string, tail: string)
    requires All(text, NotColon) && All(text, NotHash) && text == pre + ((word + (gap + operand)) + tail)
    requires All(pre, IsSpace) && word != "" && All(word, NotSpace)
    requires gap != "" && All(gap, IsSpace) && operand != "" && All(operand, NotSpace) && Ends(tail)
    ensures Parse(text) == if word[0] == '.' then Asm(None, [])
                           else Asm(Some(LowerAll(word)), [operand] + Split(StripRight(tail)))
  {
    var s, more := word + (gap + operand), StripRight(tail);
    NoLabel(text);
    NoComment(text);
    assert s[0] == word[0] && s[|s| - 1] == operand[|operand| - 1];
    Stripped(pre, s, tail);
    assert s + more == word + (gap + (operand + more));
    LeadingWord(word, gap + (operand + more));
    SplitsFirst(gap, operand, more);
  }

  /** A word alone is no instruction, nor is nothing at all. */
  lemma OthersAreNone(text: string, pre: string, word: string, post: string)
    requires All(text, NotColon) && All(text, NotHash) && text == pre + (word + post)
    requires All(pre, IsSpace) && All(word, NotSpace) && All(post, IsSpace)
    ensures Parse(text) == Asm(None, [])
  {
    NoLabel(text);
    NoComment(text);
    if word == "" {
      AllConcat(pre, post, IsSpace);
      SpanOf(text, "", IsSpace);
      assert text == pre + post && text + "" == text;
    } else {
      Stripped(pre, word, post);
      NothingLeft(post);
      LeadingWord(word, "");
      assert word + "" == word;
    }
  }

  lemma {:induction false} NothingLeft(s: string)
    requires All(s, IsSpace)
    ensures StripRight(s) == ""
  {
    if s != "" {
      NothingLeft(s[..|s| - 1]);
    }
  }

  lemma NoLabel(s: string)
    requires All(s, NotColon)
    ensures DropLabel(s) == s
  {
    SpanOf(s, "", NotColon);
    assert s + "" == s;
  }

  // ----- what is inserted where --------------------------------------------

  const MAX_NOPS: nat := 10

  const DELAYED: set<string> := {"div", "divu", "rem", "remu", "lw"}

  predicate IsInstr(line: Asm) {
    line.mnemonic.Some?
  }

  predicate Sound(line: Asm) {
    IsInstr(line) ==> line.operands != []
  }

  predicate Delayed(line: Asm) {
    IsInstr(line) && line.mnemonic.value in DELAYED
  }

  /** `later` writes what `line` writes, as far as the tool sees: the first operands
      are the same text. */
  predicate Rewrites(line: Asm, later: Asm) {
    line.operands != [] && later.operands != [] && later.operands[0] == line.operands[0]
  }

  /** The first instruction at or after `k`; the length if there is none. */
  function NextInstr(lines: seq<Asm>, k: nat): (r: nat)
    requires k <= |lines|
    ensures k <= r <= |lines| && (r < |lines| ==> IsInstr(lines[r]))
    decreases |lines| - k
  {
    if k == |lines| || IsInstr(lines[k]) then k else NextInstr(lines, k + 1)
  }

  /** The two instructions behind line `i`. */
  function First(lines: seq<Asm>, i: nat): (r: nat)
    requires i < |lines|
    ensures i < r <= |lines|
  {
    NextInstr(lines, i + 1)
  }

  function Second(lines: seq<Asm>, i: nat): (r: nat)
    requires i < |lines|
    ensures First(lines, i) <= r <= |lines|
  {
    var f := First(lines, i);
    if f < |lines| then NextInstr(lines, f + 1) else |lines|
  }

  predicate RewrittenAt(lines: seq<Asm>, i: nat, k: nat)
    requires i < |lines|
  {
    k < |lines| && Rewrites(lines[i], lines[k])
  }

  /** The number of NOPs behind line `i`. */
  function Nops(lines: seq<Asm>, i: nat): nat
    requires i < |lines|
  {
    if !Delayed(lines[i]) then 0
    else if RewrittenAt(lines, i, First(lines, i)) then MAX_NOPS
    else if RewrittenAt(lines, i, Second(lines, i)) then MAX_NOPS - 1
    else 0
  }

  function Counts(lines: seq<Asm>): (r: seq<nat>)
    ensures |r| == |lines| && forall i :: 0 <= i < |lines| ==> r[i] == Nops(lines, i)
  {
    seq(|lines|, i requires 0 <= i < |lines| => Nops(lines, i))
  }

  function Copies<T>(pad: T, n: nat): (r: seq<T>)
    ensures |r| == n && forall k :: 0 <= k < n ==> r[k] == pad
  {
    seq(n, _ => pad)
  }

  /** The first `n` items, each followed by its number of copies of `pad`. */
  function Spread<T>(items: seq<T>, counts: seq<nat>, pad: T, n: nat): seq<T>
    requires n <= |items| == |counts|
  {
    if n == 0 then [] else Spread(items, counts, pad, n - 1) + ([items[n - 1]] + Copies(pad, counts[n - 1]))
  }

  /** Where item `i` ends up. */
  function Pos(counts: seq<nat>, i: nat): nat
    requires i <= |counts|
  {
    if i == 0 then 0 else Pos(counts, i - 1) + 1 + counts[i - 1]
  }

  function Map<T, U>(f: T -> U, s: seq<T>): (r: seq<U>)
    ensures |r| == |s| && forall i :: 0 <= i < |s| ==> r[i] == f(s[i])
  {
    seq(|s|, i requires 0 <= i < |s| => f(s[i]))
  }

  function ParseAll(texts: seq<string>): seq<Asm> {
    Map(Parse, texts)
  }

  /** The output file for an input file. */
  function Fixup(texts: seq<string>): seq<string> {
    Spread(texts, Counts(ParseAll(texts)), NOP, |texts|)
  }

  // ----- the tool ----------------------------------------------------------

  method ReadLines(parse: string -> Asm, texts: seq<string>) returns (lines: seq<Asm>)
    ensures lines == Map(parse, texts)
  {
    lines := [];
    for i := 0 to |texts|
      invariant |lines| == i && forall k :: 0 <= k < i ==> lines[k] == parse(texts[k])
    {
      lines := lines + [parse(texts[i])];
    }
  }

  method FollowingTwo(lines: seq<Asm>, i: nat) returns (following: seq<Asm>)
    requires i < |lines|
    ensures following == if First(lines, i) == |lines| then []
                         else if Second(lines, i) == |lines| then [lines[First(lines, i)]]
                         else [lines[First(lines, i)], lines[Second(lines, i)]]
  {
    following := [];
    for j := i + 1 to |lines|
      invariant |following| < 2
      invariant following == [] ==> First(lines, i) == NextInstr(lines, j)
      invariant following != [] ==> First(lines, i) < j && following == [lines[First(lines, i)]]
                                    && Second(lines, i) == NextInstr(lines, j)
    {
      if IsInstr(lines[j]) {
        following := following + [lines[j]];
        if |following| >= 2 {
          return;
        }
      }
    }
  }

  /** The NOPs that line `i` asks for. */
  method NopsBehind(lines: seq<Asm>, i: nat) returns (nops: nat)
    requires i < |lines|
    requires forall k :: 0 <= k < |lines| ==> Sound(lines[k])
    ensures nops == Nops(lines, i)
  {
    var line := lines[i];
    if line.mnemonic.None? {
      return 0;
    }
    if line.mnemonic.value !in DELAYED {
      return 0;
    }
    var following := FollowingTwo(lines, i);
    var dst := line.operands[0];
    for j := 0 to |following|
      invariant forall k :: 0 <= k < j ==> !Rewrites(line, following[k])
    {
      var l := following[j];
      if |l.operands| > 0 && l.operands[0] == dst {
        assert Rewrites(line, l);
        assert j == 0 || !Rewrites(line, following[0]);
        return Max(0, MAX_NOPS - j);
      }
    }
    assert |following| > 0 ==> !Rewrites(line, following[0]);
    assert |following| > 1 ==> !Rewrites(line, following[1]);
    return 0;
  }

  /** The loop of `main`: every line, followed by the NOPs it asks for. */
  method InsertNops(texts: seq<string>, lines: seq<Asm>, nop: string) returns (outLines: seq<string>)
    requires |texts| == |lines|
    requires forall i :: 0 <= i < |lines| ==> Sound(lines[i])
    ensures outLines == Spread(texts, Counts(lines), nop, |texts|)
  {
    outLines := [];
    for i := 0 to |texts|
      invariant outLines == Spread(texts, Counts(lines), nop, i)
    {
      var nops := NopsBehind(lines, i);
      var more := [texts[i]];
      for k := 0 to nops
        invariant more == [texts[i]] + Copies(nop, k)
      {
        more := more + [nop];
      }
      outLines := outLines + more;
    }
  }

  /** `main`, between reading and writing the files. */
  method FixupFile(texts: seq<string>) returns (outLines: seq<string>)
    ensures outLines == Fixup(texts)
  {
    var lines := ReadLines(Parse, texts);
    forall i | 0 <= i < |lines|
      ensures Sound(lines[i])
    {
      InstrHasOperands(texts[i]);
    }
    outLines := InsertNops(texts, lines, NOP);
  }

  // ----- nothing is lost ---------------------------------------------------

  /** The item at its place, and padding up to the next one. */
  predicate LaidOut<T(==)>(out: seq<T>, items: seq<T>, counts: seq<nat>, pad: T, i: nat)
    requires i < |items| == |counts|
  {
    && Pos(counts, i + 1) <= |out|
    && out[Pos(counts, i)] == items[i]
    && forall k :: Pos(counts, i) < k < Pos(counts, i + 1) ==> out[k] == pad
  }

  lemma {:induction false} SpreadLaysOut<T>(items: seq<T>, counts: seq<nat>, pad: T, n: nat)
    requires n <= |items| == |counts|
    ensures |Spread(items, counts, pad, n)| == Pos(counts, n)
    ensures forall i :: 0 <= i < n ==> LaidOut(Spread(items, counts, pad, n), items, counts, pad, i)
  {
    if n > 0 {
      var before := Spread(items, counts, pad, n - 1);
      SpreadLaysOut(items, counts, pad, n - 1);
      forall i | 0 <= i < n
        ensures LaidOut(Spread(items, counts, pad, n), items, counts, pad, i)
      {
        if i < n - 1 {
          assert LaidOut(before, items, counts, pad, i);
        }
      }
    }
  }

  /** Every input line is in the output, in order, and all the rest is NOPs. */
  lemma NothingIsLost(texts: seq<string>)
    ensures var counts := Counts(ParseAll(texts));
            && |Fixup(texts)| == Pos(counts, |texts|)
            && forall i :: 0 <= i < |texts| ==> LaidOut(Fixup(texts), texts, counts, NOP, i)
  {
    SpreadLaysOut(texts, Counts(ParseAll(texts)), NOP, |texts|);
  }

  /** `s` without the items equal to `x`. */
  function Without<T(==)>(s: seq<T>, x: T): seq<T> {
    if s == [] then [] else Without(s[..|s| - 1], x) + (if s[|s| - 1] == x then [] else [s[|s| - 1]])
  }

  lemma {:induction false} WithoutConcat<T>(a: seq<T>, b: seq<T>, x: T)
    ensures Without(a + b, x) == Without(a, x) + Without(b, x)
  {
    if b == [] {
      assert a + b == a;
    } else {
      assert (a + b)[..|a + b| - 1] == a + b[..|b| - 1];
      WithoutConcat(a, b[..|b| - 1], x);
    }
  }

  lemma {:induction false} WithoutCopies<T>(x: T, n: nat)
    ensures Without(Copies(x, n), x) == []
  {
    if n > 0 {
      assert Copies(x, n)[..n - 1] == Copies(x, n - 1);
      WithoutCopies(x, n - 1);
    }
  }

  lemma {:induction false} SpreadErased<T>(items: seq<T>, counts: seq<nat>, pad: T, n: nat)
    requires n <= |items| == |counts|
    ensures Without(Spread(items, counts, pad, n), pad) == Without(items[..n], pad)
  {
    if n > 0 {
      SpreadErased(items, counts, pad, n - 1);
      var copies := Copies(pad, counts[n - 1]);
      WithoutCopies(pad, counts[n - 1]);
      WithoutConcat([items[n - 1]], copies, pad);
      WithoutConcat(Spread(items, counts, pad, n - 1), [items[n - 1]] + copies, pad);
      assert items[..n] == items[..n - 1] + [items[n - 1]];
      WithoutConcat(items[..n - 1], [items[n - 1]], pad);
    }
  }

  /** Erasing the NOPs gives the input without the NOPs it may have held already. */
  lemma ErasingRestores(texts: seq<string>)
    ensures Without(Fixup(texts), NOP) == Without(texts, NOP)
  {
    SpreadErased(texts, Counts(ParseAll(texts)), NOP, |texts|);
    assert texts[..|texts|] == texts;
  }

  // ----- the distance ------------------------------------------------------

  /** The instructions among lines `lo` to `hi`, the latter not included. */
  function InstrsIn(lines: seq<Asm>, lo: nat, hi: nat): nat
    requires lo <= hi <= |lines|
  {
    if lo == hi then 0 else InstrsIn(lines, lo, hi - 1) + if lines[hi - 1].mnemonic.Some? then 1 else 0
  }

  lemma {:induction false} InstrsSplit(lines: seq<Asm>, lo: nat, mid: nat, hi: nat)
    requires lo <= mid <= hi <= |lines|
    ensures InstrsIn(lines, lo, hi) == InstrsIn(lines, lo, mid) + InstrsIn(lines, mid, hi)
  {
    if mid < hi {
      InstrsSplit(lines, lo, mid, hi - 1);
    }
  }

  lemma {:induction false} AllInstrs(lines: seq<Asm>, lo: nat, hi: nat)
    requires lo <= hi <= |lines|
    requires forall k :: lo <= k < hi ==> IsInstr(lines[k])
    ensures InstrsIn(lines, lo, hi) == hi - lo
  {
    if lo < hi {
      AllInstrs(lines, lo, hi - 1);
    }
  }

  lemma {:induction false} PosIsMonotone(counts: seq<nat>, i: nat, k: nat)
    requires i < k <= |counts|
    ensures Pos(counts, i) + 1 + counts[i] <= Pos(counts, k)
  {
    if i < k - 1 {
      PosIsMonotone(counts, i, k - 1);
    }
  }

  /** Where line `i` ends up. */
  function Place(lines: seq<Asm>, i: nat): nat
    requires i <= |lines|
  {
    Pos(Counts(lines), i)
  }

  /** `out` is `lines` with its NOPs put in. */
  predicate Padded(lines: seq<Asm>, nop: Asm, out: seq<Asm>) {
    |out| == Place(lines, |lines|) && forall i :: 0 <= i < |lines| ==> LaidOut(out, lines, Counts(lines), nop, i)
  }

  predicate AreNops(out: seq<Asm>, nop: Asm, lo: nat, hi: nat)
    requires hi <= |out|
  {
    forall k :: lo <= k < hi ==> out[k] == nop
  }

  lemma OnePlace(lines: seq<Asm>, nop: Asm, out: seq<Asm>, i: nat)
    requires Padded(lines, nop, out) && i < |lines|
    ensures Place(lines, i + 1) == Place(lines, i) + 1 + Nops(lines, i) <= |out| == Place(lines, |lines|)
    ensures out[Place(lines, i)] == lines[i]
    ensures AreNops(out, nop, Place(lines, i) + 1, Place(lines, i + 1))
  {
    assert LaidOut(out, lines, Counts(lines), nop, i);
  }

  lemma PlacesApart(lines: seq<Asm>, nop: Asm, out: seq<Asm>, i: nat, k: nat)
    requires Padded(lines, nop, out) && i < k < |lines|
    ensures Place(lines, i) + 1 + Nops(lines, i) <= Place(lines, k) < |out|
    ensures out[Place(lines, k)] == lines[k]
  {
    PosIsMonotone(Counts(lines), i, k);
    OnePlace(lines, nop, out, k);
  }

  /** At least the NOPs, and the line in between if there is one. */
  lemma CountBetween(lines: seq<Asm>, nop: Asm, out: seq<Asm>, i: nat, k: nat)
    requires Padded(lines, nop, out) && IsInstr(nop) && i < k < |lines|
    ensures Place(lines, i) < Place(lines, k) <= |out|
    ensures InstrsIn(out, Place(lines, i) + 1, Place(lines, k)) >= Nops(lines, i)
  {
    var start, end := Place(lines, i) + 1, Place(lines, i) + 1 + Nops(lines, i);
    OnePlace(lines, nop, out, i);
    PlacesApart(lines, nop, out, i, k);
    AllInstrs(out, start, end);
    InstrsSplit(out, start, end, Place(lines, k));
  }

  lemma CountPast(lines: seq<Asm>, nop: Asm, out: seq<Asm>, i: nat, f: nat, k: nat)
    requires Padded(lines, nop, out) && IsInstr(nop) && i < f < k < |lines| && IsInstr(lines[f])
    ensures Place(lines, i) < Place(lines, k) <= |out|
    ensures InstrsIn(out, Place(lines, i) + 1, Place(lines, k)) >= Nops(lines, i) + 1
  {
    var start, p := Place(lines, i) + 1, Place(lines, f);
    CountBetween(lines, nop, out, i, f);
    PlacesApart(lines, nop, out, i, f);
    PlacesApart(lines, nop, out, f, k);
    InstrsSplit(out, start, p, Place(lines, k));
    InstrsSplit(out, p, p + 1, Place(lines, k));
    AllInstrs(out, p, p + 1);
  }

  lemma RewriteIsFarAway(lines: seq<Asm>, nop: Asm, out: seq<Asm>, i: nat, k: nat)
    requires Padded(lines, nop, out) && IsInstr(nop) && i < |lines| && Delayed(lines[i])
    requires k == First(lines, i) || k == Second(lines, i)
    requires RewrittenAt(lines, i, k)
    ensures Place(lines, i) < Place(lines, k) < |out|
    ensures InstrsIn(out, Place(lines, i) + 1, Place(lines, k)) >= MAX_NOPS
  {
    PlacesApart(lines, nop, out, i, k);
    if RewrittenAt(lines, i, First(lines, i)) {
      CountBetween(lines, nop, out, i, k);
    } else {
      CountPast(lines, nop, out, i, First(lines, i), k);
    }
  }

  // ----- doing it twice ----------------------------------------------------

  lemma Locate(counts: seq<nat>, n: nat, p: nat) returns (i: nat)
    requires n <= |counts| && p < Pos(counts, n)
    ensures i < n && Pos(counts, i) <= p < Pos(counts, i + 1)
  {
    if p >= Pos(counts, n - 1) {
      i := n - 1;
    } else {
      i := Locate(counts, n - 1, p);
    }
  }

  lemma {:induction false} MapCopies<T, U>(f: T -> U, pad: T, n: nat)
    ensures Map(f, Copies(pad, n)) == Copies(f(pad), n)
  {
  }

  lemma MapConcat<T, U>(f: T -> U, a: seq<T>, b: seq<T>)
    ensures Map(f, a + b) == Map(f, a) + Map(f, b)
  {
  }

  /** Reading the output gives the input as read, with the NOPs as read. */
  lemma {:induction false} MapOfSpread<T, U>(f: T -> U, items: seq<T>, counts: seq<nat>, pad: T, n: nat)
    requires n <= |items| == |counts|
    ensures Map(f, Spread(items, counts, pad, n)) == Spread(Map(f, items), counts, f(pad), n)
  {
    if n > 0 {
      MapOfSpread(f, items, counts, pad, n - 1);
      MapConcat(f, Spread(items, counts, pad, n - 1), [items[n - 1]] + Copies(pad, counts[n - 1]));
      MapConcat(f, [items[n - 1]], Copies(pad, counts[n - 1]));
      MapCopies(f, pad, counts[n - 1]);
      assert Map(f, [items[n - 1]]) == [Map(f, items)[n - 1]];
    }
  }

  /** The next instruction is where the input's next instruction went. */
  lemma {:induction false} NextInstrMoves(lines: seq<Asm>, nop: Asm, out: seq<Asm>, k: nat)
    requires Padded(lines, nop, out) && k <= |lines|
    ensures Place(lines, k) <= |out|
    ensures NextInstr(out, Place(lines, k)) == Place(lines, NextInstr(lines, k))
    decreases |lines| - k
  {
    if k < |lines| {
      OnePlace(lines, nop, out, k);
      if !IsInstr(lines[k]) {
        NextInstrMoves(lines, nop, out, k + 1);
      }
    }
  }

  /** Line `i` finds an inserted NOP among the two instructions behind it. */
  predicate SeesNop(lines: seq<Asm>, i: nat)
    requires i < |lines|
  {
    Nops(lines, i) > 0 || (First(lines, i) < |lines| && Nops(lines, First(lines, i)) > 0)
  }

  /** Line `i` is a delayed write to a "register" called fixup that sees a NOP. */
  predicate Confused(lines: seq<Asm>, i: nat)
    requires i < |lines|
  {
    Delayed(lines[i]) && lines[i].operands != [] && lines[i].operands[0] == "fixup" && SeesNop(lines, i)
  }

  /** A line that got NOPs finds two of them. */
  lemma OwnNops(lines: seq<Asm>, nop: Asm, out: seq<Asm>, i: nat)
    requires Padded(lines, nop, out) && IsFixup(nop) && i < |lines| && Nops(lines, i) > 0
    ensures Place(lines, i) < |out|
    ensures Nops(out, Place(lines, i)) > 0 <==> Confused(lines, i)
  {
    var p := Place(lines, i);
    OnePlace(lines, nop, out, i);
    assert p + 3 <= Place(lines, i + 1);
    assert out[p + 1] == nop && out[p + 2] == nop;
    assert First(out, p) == p + 1;
    assert Second(out, p) == p + 2;
  }

  /** A line without NOPs finds the same first instruction as before. */
  lemma FirstMoves(lines: seq<Asm>, nop: Asm, out: seq<Asm>, i: nat)
    requires Padded(lines, nop, out) && i < |lines| && Nops(lines, i) == 0
    ensures Place(lines, i) < |out| && First(out, Place(lines, i)) == Place(lines, First(lines, i)) <= |out|
    ensures First(lines, i) < |lines| ==>
              First(out, Place(lines, i)) < |out| && out[First(out, Place(lines, i))] == lines[First(lines, i)]
  {
    OnePlace(lines, nop, out, i);
    NextInstrMoves(lines, nop, out, i + 1);
    if First(lines, i) < |lines| {
      PlacesApart(lines, nop, out, i, First(lines, i));
    }
  }

  /** The second one is a NOP if the first one got NOPs. */
  lemma SecondIsNop(lines: seq<Asm>, nop: Asm, out: seq<Asm>, i: nat)
    requires Padded(lines, nop, out) && IsInstr(nop) && i < |lines| && Nops(lines, i) == 0
    requires First(lines, i) < |lines| && Nops(lines, First(lines, i)) > 0
    ensures Place(lines, i) < |out|
    ensures Second(out, Place(lines, i)) < |out| && out[Second(out, Place(lines, i))] == nop
  {
    var f := First(lines, i);
    FirstMoves(lines, nop, out, i);
    OnePlace(lines, nop, out, f);
    assert out[Place(lines, f) + 1] == nop;
  }

  lemma SecondMoves(lines: seq<Asm>, nop: Asm, out: seq<Asm>, i: nat)
    requires Padded(lines, nop, out) && i < |lines| && Nops(lines, i) == 0
    requires First(lines, i) < |lines| && Nops(lines, First(lines, i)) == 0
    ensures Place(lines, i) < |out|
    ensures Second(lines, i) < |lines| ==>
              Second(out, Place(lines, i)) < |out| && out[Second(out, Place(lines, i))] == lines[Second(lines, i)]
    ensures Second(lines, i) == |lines| ==> Second(out, Place(lines, i)) == |out|
  {
    FirstMoves(lines, nop, out, i);
    FirstMoves(lines, nop, out, First(lines, i));
  }

  /** In the output, a line gets further NOPs iff it takes the NOPs for writes. */
  lemma SecondPass(lines: seq<Asm>, nop: Asm, out: seq<Asm>, i: nat)
    requires Padded(lines, nop, out) && IsFixup(nop) && i < |lines|
    ensures Place(lines, i) < |out|
    ensures Nops(out, Place(lines, i)) > 0 <==> Confused(lines, i)
  {
    OnePlace(lines, nop, out, i);
    if Nops(lines, i) > 0 {
      OwnNops(lines, nop, out, i);
    } else {
      FirstMoves(lines, nop, out, i);
      var f := First(lines, i);
      if f < |lines| {
        if Nops(lines, f) > 0 {
          SecondIsNop(lines, nop, out, i);
        } else {
          SecondMoves(lines, nop, out, i);
        }
      }
    }
  }

  lemma {:induction false} NoCountsNoChange<T>(items: seq<T>, counts: seq<nat>, pad: T, n: nat)
    requires n <= |items| == |counts|
    ensures Pos(counts, n) >= n
    ensures (exists i :: 0 <= i < n && counts[i] > 0) ==> Pos(counts, n) > n
    ensures (forall i :: 0 <= i < n ==> counts[i] == 0) ==> Spread(items, counts, pad, n) == items[..n]
  {
    if n > 0 {
      NoCountsNoChange(items, counts, pad, n - 1);
    }
  }

  lemma FixedPoint(texts: seq<string>, counts: seq<nat>, pad: string)
    requires |counts| == |texts|
    ensures Spread(texts, counts, pad, |texts|) == texts <==> forall i :: 0 <= i < |texts| ==> counts[i] == 0
  {
    NoCountsNoChange(texts, counts, pad, |texts|);
    SpreadLaysOut(texts, counts, pad, |texts|);
    assert texts[..|texts|] == texts;
  }

  predicate NoNops(lines: seq<Asm>) {
    forall p :: 0 <= p < |lines| ==> Nops(lines, p) == 0
  }

  predicate NoneConfused(lines: seq<Asm>) {
    forall i :: 0 <= i < |lines| ==> !Confused(lines, i)
  }

  lemma PaddedFixedPoint(lines: seq<Asm>, nop: Asm, out: seq<Asm>)
    requires Padded(lines, nop, out) && IsFixup(nop)
    ensures NoNops(out) <==> NoneConfused(lines)
  {
    if NoneConfused(lines) {
      forall p | 0 <= p < |out|
        ensures Nops(out, p) == 0
      {
        var i := Locate(Counts(lines), |lines|, p);
        OnePlace(lines, nop, out, i);
        SecondPass(lines, nop, out, i);
      }
    } else {
      var i :| 0 <= i < |lines| && Confused(lines, i);
      SecondPass(lines, nop, out, i);
    }
  }

  /** The output as the tool would read it. */
  lemma OutputIsPadded(texts: seq<string>)
    ensures Padded(ParseAll(texts), Parse(NOP), ParseAll(Fixup(texts)))
  {
    var lines := ParseAll(texts);
    MapOfSpread(Parse, texts, Counts(lines), NOP, |texts|);
    SpreadLaysOut(lines, Counts(lines), Parse(NOP), |texts|);
  }

  /** Exactly when a second run changes nothing. */
  lemma IdempotentIff(texts: seq<string>)
    ensures Fixup(Fixup(texts)) == Fixup(texts) <==> NoneConfused(ParseAll(texts))
  {
    NopIsInstruction();
    OutputIsPadded(texts);
    PaddedFixedPoint(ParseAll(texts), Parse(NOP), ParseAll(Fixup(texts)));
    FixedPoint(Fixup(texts), Counts(ParseAll(Fixup(texts))), NOP);
  }

  /** Two of these lines: the second run takes the inserted NOPs for rewrites. */
  lemma TwiceConfuses(text: string)
    requires Delayed(Parse(text)) && Parse(text).operands != [] && Parse(text).operands[0] == "fixup"
    ensures Fixup(Fixup([text, text])) != Fixup([text, text])
  {
    var lines := ParseAll([text, text]);
    assert First(lines, 0) == 1 && RewrittenAt(lines, 0, 1);
    assert Confused(lines, 0);
    IdempotentIff([text, text]);
  }

  const CONFUSING := ("lw" + (" " + ("fixup" + " x"))) + "\n"

  lemma ConfusingIsPlain()
    ensures All(CONFUSING, NotColon) && All(CONFUSING, NotHash) && CONFUSING == "lw fixup x\n"
  {
    assert CONFUSING == "lw fixup x\n";
  }

  lemma ConfusingWords()
    ensures All("lw", NotSpace) && "lw"[0] != '.' && All("fixup", NotSpace)
    ensures |" x"| > 1 && IsSpace(" x"[0]) && !IsSpace(" x"[|" x"| - 1])
    ensures LowerAll("lw") in DELAYED
  {
    assert LowerAll("lw") == "lw";
  }

  lemma ConfusingIsRead()
    ensures Delayed(Parse(CONFUSING)) && Parse(CONFUSING).operands != [] && Parse(CONFUSING).operands[0] == "fixup"
  {
    ConfusingIsPlain();
    NoLabel(CONFUSING);
    NoComment(CONFUSING);
    ConfusingWords();
    assert "" + CONFUSING == CONFUSING;
    ParseWords(CONFUSING, "", "lw", "fixup", " x");
  }

  /** There is such a line, so the condition of `IdempotentIff` is needed. */
  lemma SecondRunMayChange()
    ensures CONFUSING == "lw fixup x\n"
    ensures Fixup(Fixup([CONFUSING, CONFUSING])) != Fixup([CONFUSING, CONFUSING])
  {
    ConfusingIsPlain();
    ConfusingIsRead();
    TwiceConfuses(CONFUSING);
  }

  /** No register is called "fixup", so for real code a second run changes nothing. */
  lemma IdempotentOnRegisters(texts: seq<string>)
    requires forall line :: line in ParseAll(texts) && Delayed(line) && line.operands != [] ==> line.operands[0] != "fixup"
    ensures Fixup(Fixup(texts)) == Fixup(texts)
  {
    IdempotentIff(texts);
  }

  /** The promise as a reader of the output sees it. */
  lemma HazardsAreApart(texts: seq<string>, i: nat, k: nat)
    requires i < |texts| && Delayed(ParseAll(texts)[i])
    requires k == First(ParseAll(texts), i) || k == Second(ParseAll(texts), i)
    requires RewrittenAt(ParseAll(texts), i, k)
    ensures var lines, out := ParseAll(texts), Fixup(texts);
            && Place(lines, i) < Place(lines, k) < |out|
            && out[Place(lines, i)] == texts[i] && out[Place(lines, k)] == texts[k]
            && InstrsIn(ParseAll(out), Place(lines, i) + 1, Place(lines, k)) >= MAX_NOPS
  {
    NopIsInstruction();
    OutputIsPadded(texts);
    RewriteIsFarAway(ParseAll(texts), Parse(NOP), ParseAll(Fixup(texts)), i, k);
    NothingIsLost(texts);
    assert LaidOut(Fixup(texts), texts, Counts(ParseAll(texts)), NOP, i);
    assert LaidOut(Fixup(texts), texts, Counts(ParseAll(texts)), NOP, k);
  }

  // ----- the count, exactly ------------------------------------------------

  lemma DelayedAre(line: Asm)
    ensures Delayed(line) <==>
            || line.mnemonic == Some("div") || line.mnemonic == Some("divu") || line.mnemonic == Some("rem")
            || line.mnemonic == Some("remu") || line.mnemonic == Some("lw")
  {
  }

  /** Line `i` is a delayed write, and `n` instructions behind it one has the same first
      operand. */
  ghost predicate Overwritten(lines: seq<Asm>, i: nat, n: nat)
    requires i < |lines|
  {
    Delayed(lines[i]) && exists k :: i < k < |lines| && OverwrittenBy(lines, i, n, k)
  }

  ghost predicate OverwrittenBy(lines: seq<Asm>, i: nat, n: nat, k: nat)
    requires i < k < |lines|
  {
    && lines[k].mnemonic.Some? && InstrsIn(lines, i + 1, k) == n
    && lines[i].operands != [] && lines[k].operands != [] && lines[k].operands[0] == lines[i].operands[0]
  }

  ghost predicate CountIs(lines: seq<Asm>, i: nat, count: nat)
    requires i < |lines|
  {
    count == if Overwritten(lines, i, 0) then 10 else if Overwritten(lines, i, 1) then 9 else 0
  }

  /** The next instruction is the one with none in between. */
  lemma {:induction false} NextIsUnique(lines: seq<Asm>, from: nat, k: nat)
    requires from <= k < |lines| && lines[k].mnemonic.Some?
    ensures InstrsIn(lines, from, k) == 0 <==> k == NextInstr(lines, from)
    decreases k - from
  {
    if from < k {
      NextIsUnique(lines, from + 1, k);
      InstrsSplit(lines, from, from + 1, k);
      assert InstrsIn(lines, from, from + 1) == if lines[from].mnemonic.Some? then 1 else 0;
    }
  }

  lemma {:induction false} NextIsFirst(lines: seq<Asm>, from: nat)
    requires from <= |lines|
    ensures InstrsIn(lines, from, NextInstr(lines, from)) == 0
    decreases |lines| - from
  {
    if from < NextInstr(lines, from) {
      NextIsFirst(lines, from + 1);
      InstrsSplit(lines, from, from + 1, NextInstr(lines, from));
      assert InstrsIn(lines, from, from + 1) == 0;
    }
  }

  lemma FirstIs(lines: seq<Asm>, i: nat, k: nat)
    requires i < k < |lines| && lines[k].mnemonic.Some?
    ensures InstrsIn(lines, i + 1, k) == 0 <==> k == First(lines, i)
  {
    NextIsUnique(lines, i + 1, k);
  }

  lemma {:induction false} NextIsNotBehind(lines: seq<Asm>, from: nat, k: nat)
    requires from <= k < |lines| && lines[k].mnemonic.Some?
    ensures NextInstr(lines, from) <= k
    decreases k - from
  {
    if from < k {
      NextIsNotBehind(lines, from + 1, k);
    }
  }

  lemma SecondIs(lines: seq<Asm>, i: nat, k: nat)
    requires i < k < |lines| && lines[k].mnemonic.Some?
    ensures InstrsIn(lines, i + 1, k) == 1 <==> k == Second(lines, i)
  {
    var f := First(lines, i);
    FirstIs(lines, i, k);
    NextIsNotBehind(lines, i + 1, k);
    if f < k {
      NextIsFirst(lines, i + 1);
      InstrsSplit(lines, i + 1, f, k);
      InstrsSplit(lines, f, f + 1, k);
      assert InstrsIn(lines, f, f + 1) == 1;
      NextIsUnique(lines, f + 1, k);
    }
  }

  lemma OverwrittenIff(lines: seq<Asm>, i: nat)
    requires i < |lines|
    ensures Overwritten(lines, i, 0) <==> Delayed(lines[i]) && RewrittenAt(lines, i, First(lines, i))
    ensures Overwritten(lines, i, 1) <==> Delayed(lines[i]) && RewrittenAt(lines, i, Second(lines, i))
  {
    forall k | i < k < |lines| && lines[k].mnemonic.Some?
      ensures InstrsIn(lines, i + 1, k) == 0 <==> k == First(lines, i)
      ensures InstrsIn(lines, i + 1, k) == 1 <==> k == Second(lines, i)
    {
      FirstIs(lines, i, k);
      SecondIs(lines, i, k);
    }
    assert RewrittenAt(lines, i, First(lines, i)) ==> OverwrittenBy(lines, i, 0, First(lines, i));
    assert RewrittenAt(lines, i, Second(lines, i)) ==> OverwrittenBy(lines, i, 1, Second(lines, i));
  }

  /** Each line is followed by ten NOPs, by nine, or by none. */
  lemma NopsAre(lines: seq<Asm>, i: nat)
    requires i < |lines|
    ensures CountIs(lines, i, Nops(lines, i))
  {
    OverwrittenIff(lines, i);
  }

  /** The output is the input with these NOPs and nothing else. */
  lemma FixupAdds(texts: seq<string>) returns (counts: seq<nat>)
    ensures |counts| == |texts| && forall i {:trigger counts[i]} :: 0 <= i < |texts| ==> CountIs(ParseAll(texts), i, counts[i])
    ensures Fixup(texts) == Spread(texts, counts, NOP, |texts|)
    ensures |Fixup(texts)| == |texts| + 10 * |Having(counts, 10, |texts|)| + 9 * |Having(counts, 9, |texts|)|
  {
    var lines := ParseAll(texts);
    counts := Counts(lines);
    forall i | 0 <= i < |texts|
      ensures CountIs(lines, i, counts[i])
      ensures counts[i] == 10 || counts[i] == 9 || counts[i] == 0
    {
      NopsAre(lines, i);
    }
    SpreadLaysOut(texts, counts, NOP, |texts|);
    LengthAdds(counts, |texts|);
  }

  /** The lines among the first `n` with this count. */
  ghost function Having(counts: seq<nat>, count: nat, n: nat): set<nat> {
    set i: nat | i < n && i < |counts| && counts[i] == count
  }

  lemma OneMoreHaving(counts: seq<nat>, count: nat, n: nat)
    requires n < |counts|
    ensures |Having(counts, count, n + 1)| == |Having(counts, count, n)| + if counts[n] == count then 1 else 0
  {
    assert Having(counts, count, n + 1) == Having(counts, count, n) + if counts[n] == count then {n} else {};
  }

  lemma {:induction false} LengthAdds(counts: seq<nat>, n: nat)
    requires n <= |counts| && forall i :: 0 <= i < |counts| ==> counts[i] == 10 || counts[i] == 9 || counts[i] == 0
    ensures Pos(counts, n) == n + 10 * |Having(counts, 10, n)| + 9 * |Having(counts, 9, n)|
  {
    if n == 0 {
      assert Having(counts, 10, 0) == {} && Having(counts, 9, 0) == {};
    } else {
      LengthAdds(counts, n - 1);
      OneMoreHaving(counts, 10, n - 1);
      OneMoreHaving(counts, 9, n - 1);
    }
  }

  /** The instructions of the output between two lines: those of the input and the NOPs. */
  lemma {:induction false} InstrsBetween(lines: seq<Asm>, nop: Asm, out: seq<Asm>, i: nat, k: nat)
    requires Padded(lines, nop, out) && nop.mnemonic.Some? && i < k < |lines|
    requires forall f :: i < f < k ==> Nops(lines, f) == 0
    ensures Place(lines, i) < Place(lines, k) < |out|
    ensures InstrsIn(out, Place(lines, i) + 1, Place(lines, k)) == Nops(lines, i) + InstrsIn(lines, i + 1, k)
  {
    var p, q := Place(lines, i), Place(lines, i + 1);
    OnePlace(lines, nop, out, k - 1);
    PlacesApart(lines, nop, out, i, k);
    if k == i + 1 {
      AllInstrs(out, p + 1, q);
    } else {
      InstrsBetween(lines, nop, out, i, k - 1);
      var r := Place(lines, k - 1);
      assert Place(lines, k) == r + 1 && out[r] == lines[k - 1];
      assert InstrsIn(out, p + 1, r + 1) == InstrsIn(out, p + 1, r) + if lines[k - 1].mnemonic.Some? then 1 else 0;
    }
  }

  /** Line `k` is the first to write again what line `i` writes with delay: the next
      instruction, or the one behind a line that gets no NOPs of its own. */
  ghost predicate ComesNext(lines: seq<Asm>, i: nat, k: nat)
    requires i < k < |lines|
  {
    && Delayed(lines[i])
    && (OverwrittenBy(lines, i, 0, k) || (OverwrittenBy(lines, i, 1, k) && !Overwritten(lines, i, 0)))
    && forall f :: i < f < k ==> !Overwritten(lines, f, 0) && !Overwritten(lines, f, 1)
  }

  lemma TenBetween(lines: seq<Asm>, nop: Asm, out: seq<Asm>, i: nat, k: nat)
    requires Padded(lines, nop, out) && nop.mnemonic.Some? && i < k < |lines| && ComesNext(lines, i, k)
    ensures Place(lines, i) < Place(lines, k) < |out|
    ensures InstrsIn(out, Place(lines, i) + 1, Place(lines, k)) == 10
  {
    forall f | i < f < k
      ensures Nops(lines, f) == 0
    {
      NopsAre(lines, f);
    }
    InstrsBetween(lines, nop, out, i, k);
    NopsAre(lines, i);
  }

  lemma TenInOutput(texts: seq<string>, lines: seq<Asm>, out: seq<Asm>, i: nat, k: nat)
    requires lines == ParseAll(texts) && out == ParseAll(Fixup(texts)) && i < k < |lines| && ComesNext(lines, i, k)
    ensures Place(lines, i) < Place(lines, k) < |out|
    ensures InstrsIn(out, Place(lines, i) + 1, Place(lines, k)) == 10
  {
    NopIsInstruction();
    OutputIsPadded(texts);
    TenBetween(lines, Parse(NOP), out, i, k);
  }

  lemma LineIsThere(texts: seq<string>, lines: seq<Asm>, i: nat)
    requires lines == ParseAll(texts) && i < |texts|
    ensures Place(lines, i) < |Fixup(texts)| && Fixup(texts)[Place(lines, i)] == texts[i]
  {
    NothingIsLost(texts);
    assert LaidOut(Fixup(texts), texts, Counts(lines), NOP, i);
  }

  /** Between a delayed write and such a rewrite stand exactly ten instructions. */
  lemma ExactlyTen(texts: seq<string>, lines: seq<Asm>, out: seq<string>, i: nat, k: nat)
    requires lines == ParseAll(texts) && out == Fixup(texts) && i < k < |lines| && ComesNext(lines, i, k)
    ensures Place(lines, i) < Place(lines, k) < |out|
    ensures out[Place(lines, i)] == texts[i] && out[Place(lines, k)] == texts[k]
    ensures InstrsIn(ParseAll(out), Place(lines, i) + 1, Place(lines, k)) == 10
  {
    TenInOutput(texts, lines, ParseAll(out), i, k);
    LineIsThere(texts, lines, i);
    LineIsThere(texts, lines, k);
  }
}
