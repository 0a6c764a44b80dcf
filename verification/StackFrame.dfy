/** Entering and leaving a sub-program.

The push and pop sequences are mixed into random filler. For every mix, every
filler that keeps off the stack pointer and the saved registers, and every body
that preserves its frame, the caller gets its stack pointer and its registers
back; so calls nested to any depth are transparent to every caller and touch no
more of the stack than they take. All arithmetic wraps at the register width. The
module also settles when the stores stay inside the frame they were given: the
size check of the generator is one word too generous for that. */
module StackFrame {
  import opened Arithmetic
  import opened InstrStream

  datatype Xlen = Rv32 | Rv64 {
    function Bytes(): nat {
      if Rv32? then 4 else 8
    }

    function Modulus(): nat {
      if Rv32? then 0x1_0000_0000 else 0x1_0000_0000_0000_0000
    }

    function Wrap(x: int): (w: int)
      ensures 0 <= w < Modulus()
    {
      x % Modulus()
    }
  }

  datatype Hart = Hart(regs: Reg -> int, mem: int -> int)

  function Exec(x: Xlen, op: Op, h: Hart): Hart {
    match op
    case Branch => h
    case Jump(_) => h
    case Addi(rd, rs1, imm) =>
      var v := x.Wrap(h.regs(rs1) + imm);
      h.(regs := (r: Reg) => if r == rd then v else h.regs(r))
    case Save(rs2, rs1, imm) =>
      var a := x.Wrap(h.regs(rs1) + imm);
      h.(mem := (p: int) => if p == a then h.regs(rs2) else h.mem(p))
    case Restore(rd, rs1, imm) =>
      var v := h.mem(x.Wrap(h.regs(rs1) + imm));
      h.(regs := (r: Reg) => if r == rd then v else h.regs(r))
    case Filler(effect) => h.(regs := effect(h.regs))
  }

  function Run(x: Xlen, ops: seq<Op>, h: Hart): Hart {
    if ops == [] then h else Run(x, ops[1..], Exec(x, ops[0], h))
  }

  /** The stack discipline a pair of sequences is generated for. */
  datatype Frame = Frame(x: Xlen, sp: Reg, saved: seq<Reg>, len: nat) {
    ghost predicate Valid() {
      && sp !in saved && (forall i, j :: 0 <= i < j < |saved| ==> saved[i] != saved[j])
      && |saved| * x.Bytes() <= len < x.Modulus()
    }

    /** The offset of the i-th saved register from the lowered stack pointer. */
    function Offset(i: nat): nat {
      x.Bytes() * (i + 1)
    }

    function Push(): (ops: seq<Op>)
      ensures |ops| == |saved| + 1
    {
      [Addi(sp, sp, -(len as int))] + seq(|saved|, i requires 0 <= i < |saved| => Save(saved[i], sp, Offset(i)))
    }

    function Pop(): (ops: seq<Op>)
      ensures |ops| == |saved| + 1
    {
      seq(|saved|, i requires 0 <= i < |saved| => Restore(saved[i], sp, Offset(i))) + [Addi(sp, sp, len)]
    }
  }

  ghost predicate Harmless(f: Frame, op: Op) {
    op.Filler? && forall regs: Reg -> int, r: Reg {:trigger op.effect(regs)(r)} :: r == f.sp || r in f.saved ==> op.effect(regs)(r) == regs(r)
  }

  /** The sequences, word by word: four bytes each on 32 bits, eight on 64, and addresses
      that wrap there. */
  lemma WordsAre(f: Frame, i: nat)
    requires i < |f.saved|
    ensures f.x.Bytes() == if f.x == Rv32 then 4 else 8
    ensures f.Push()[0] == Addi(f.sp, f.sp, -(f.len as int)) && f.Pop()[|f.saved|] == Addi(f.sp, f.sp, f.len)
    ensures f.x == Rv32 ==> f.Push()[i + 1] == Save(f.saved[i], f.sp, 4 * (i + 1)) && f.Pop()[i] == Restore(f.saved[i], f.sp, 4 * (i + 1))
    ensures f.x == Rv64 ==> f.Push()[i + 1] == Save(f.saved[i], f.sp, 8 * (i + 1)) && f.Pop()[i] == Restore(f.saved[i], f.sp, 8 * (i + 1))
    ensures f.x.Wrap(-1) == if f.x == Rv32 then 0xffff_ffff else 0xffff_ffff_ffff_ffff
  {
  }

  // ----- the generator -----------------------------------------------------

  function Ops(list: seq<Instr>): (r: seq<Op>)
    ensures |r| == |list|
  {
    seq(|list|, i requires 0 <= i < |list| => list[i].op)
  }

  lemma {:induction false} InterleavesOps(r: seq<Instr>, a: seq<Instr>, b: seq<Instr>)
    requires Interleaves(r, a, b)
    ensures Interleaves(Ops(r), Ops(a), Ops(b))
  {
    if r != [] {
      assert Ops(r)[1..] == Ops(r[1..]);
      if a != [] && r[0] == a[0] && Interleaves(r[1..], a[1..], b) {
        assert Ops(a)[1..] == Ops(a[1..]);
        InterleavesOps(r[1..], a[1..], b);
      } else {
        assert Ops(b)[1..] == Ops(b[1..]);
        InterleavesOps(r[1..], a, b[1..]);
      }
    }
  }

  method MixIn(stream: Stream, filler: seq<Instr>, core: seq<Instr>, dice: Dice)
    requires InRange(dice) && stream.instrs == filler
    modifies stream
    ensures Interleaves(stream.instrs, filler, core)
  {
    var ok := stream.MixInstrStream(core, dice);
  }

  /** `gen_push_stack_instr`; `ok` is false where the source exits. `filler` is
      what `gen_instr` produced without branches, loads and stores. */
  method GenPushStackInstr(f: Frame, filler: seq<Instr>, dice: Dice) returns (ok: bool, stream: Stream)
    requires InRange(dice)
    modifies filler
    ensures ok <==> |f.saved| * f.x.Bytes() <= f.len
    ensures ok ==> Interleaves(Ops(stream.instrs), Ops(filler), f.Push())
    ensures ok ==> forall i :: i in stream.instrs ==> i.atomic && (i.tag == Unlabelled ==> !i.hasLabel)
  {
    stream := new Stream(filler);
    if |f.saved| * f.x.Bytes() > f.len {
      return false, stream;
    }
    var pushStackInstr: seq<Instr> := [];
    var first := new Instr(Addi(f.sp, f.sp, -(f.len as int)), false, false, false, true, Unlabelled);
    pushStackInstr := [first];
    for i := 0 to |f.saved|
      invariant |pushStackInstr| == i + 1 && forall k :: 0 <= k <= i ==> pushStackInstr[k].op == f.Push()[k]
      invariant fresh(pushStackInstr) && stream.instrs == filler
    {
      var save := new Instr(Save(f.saved[i], f.sp, f.Offset(i)), false, false, false, true, Unlabelled);
      pushStackInstr := pushStackInstr + [save];
    }
    assert Ops(pushStackInstr) == f.Push();
    MixIn(stream, filler, pushStackInstr, dice);
    InterleavesOps(stream.instrs, filler, pushStackInstr);
    InterleavesElements(stream.instrs, filler, pushStackInstr);
    assert forall k :: 0 <= k < |stream.instrs| ==> stream.instrs[k] in filler || fresh(stream.instrs[k]);
    MakeAtomic(stream.instrs, false);
    ok := true;
  }

  /** `gen_pop_stack_instr`; its size check counts four bytes per register
      whatever the width. */
  method GenPopStackInstr(f: Frame, filler: seq<Instr>, dice: Dice) returns (ok: bool, stream: Stream)
    requires InRange(dice)
    modifies filler
    ensures ok <==> |f.saved| * 4 <= f.len
    ensures ok ==> Interleaves(Ops(stream.instrs), Ops(filler), f.Pop())
    ensures ok ==> forall i :: i in stream.instrs ==> i.atomic && !i.hasLabel
  {
    stream := new Stream(filler);
    if |f.saved| * 4 > f.len {
      return false, stream;
    }
    var popStackInstr: seq<Instr> := [];
    for i := 0 to |f.saved|
      invariant |popStackInstr| == i && forall k :: 0 <= k < i ==> popStackInstr[k].op == f.Pop()[k]
      invariant fresh(popStackInstr) && stream.instrs == filler
    {
      var restore := new Instr(Restore(f.saved[i], f.sp, f.Offset(i)), false, false, false, true, Unlabelled);
      popStackInstr := popStackInstr + [restore];
    }
    var last := new Instr(Addi(f.sp, f.sp, f.len), false, false, false, true, Unlabelled);
    popStackInstr := popStackInstr + [last];
    assert Ops(popStackInstr) == f.Pop();
    MixIn(stream, filler, popStackInstr, dice);
    InterleavesOps(stream.instrs, filler, popStackInstr);
    InterleavesElements(stream.instrs, filler, popStackInstr);
    assert forall k :: 0 <= k < |stream.instrs| ==> stream.instrs[k] in filler || fresh(stream.instrs[k]);
    MakeAtomic(stream.instrs, true);
    ok := true;
  }

  lemma {:induction false} InterleavesElements<T>(r: seq<T>, a: seq<T>, b: seq<T>)
    requires Interleaves(r, a, b)
    ensures forall x :: x in r ==> x in a || x in b
  {
    if r != [] {
      if a != [] && r[0] == a[0] && Interleaves(r[1..], a[1..], b) {
        InterleavesElements(r[1..], a[1..], b);
      } else {
        InterleavesElements(r[1..], a, b[1..]);
      }
    }
  }

  /** The closing loop of both generators. */
  method MakeAtomic(list: seq<Instr>, dropAllLabels: bool)
    modifies list
    ensures forall i :: i in list ==> i.atomic && (dropAllLabels || i.tag == Unlabelled ==> !i.hasLabel)
  {
    for k := 0 to |list|
      invariant forall i :: i in list[..k] ==> i.atomic && (dropAllLabels || i.tag == Unlabelled ==> !i.hasLabel)
    {
      list[k].atomic := true;
      if dropAllLabels || list[k].tag == Unlabelled {
        list[k].hasLabel := false;
      }
      assert list[..k + 1] == list[..k] + [list[k]];
    }
    assert list[..|list|] == list;
  }

  // ----- the caller gets everything back -----------------------------------

  /** Where the i-th saved register goes if the stack pointer was `sp0`. */
  function Slot(f: Frame, sp0: int, i: nat): int {
    f.x.Wrap(f.x.Wrap(sp0 - f.len) + f.Offset(i))
  }

  lemma SlotsDiffer(f: Frame, sp0: int, i: nat, j: nat)
    requires f.Valid() && i < j < |f.saved|
    ensures Slot(f, sp0, i) != Slot(f, sp0, j)
  {
    var base, m := f.x.Wrap(sp0 - f.len), f.x.Modulus();
    var d := f.Offset(j) - f.Offset(i);
    assert 0 < d < m by {
      assert f.x.Bytes() * (j - i) <= f.x.Bytes() * |f.saved|;
    }
    WrapsApart(base + f.Offset(i), d, m);
  }

  lemma WrapsApart(x: int, d: nat, m: nat)
    requires 0 < d < m
    ensures x % m != (x + d) % m
  {
    var q := (x + d) / m - x / m;
    NoMultiple(q, d, m);
    assert q * m == (x + d) / m * m - x / m * m;
  }

  /** The state once the first `k` push instructions are through. */
  ghost predicate Pushed(f: Frame, before: Hart, h: Hart, k: nat) {
    && h.regs(f.sp) == (if k == 0 then before.regs(f.sp) else f.x.Wrap(before.regs(f.sp) - f.len))
    && (forall i :: 0 <= i < |f.saved| ==> h.regs(f.saved[i]) == before.regs(f.saved[i]))
    && (forall i: nat :: i < |f.saved| && i + 1 < k ==>
          h.mem(Slot(f, before.regs(f.sp), i)) == before.regs(f.saved[i]))
    && (forall p :: (forall i: nat :: i < |f.saved| ==> p != Slot(f, before.regs(f.sp), i)) ==> h.mem(p) == before.mem(p))
  }

  lemma PushStep(f: Frame, before: Hart, h: Hart, k: nat)
    requires f.Valid() && Pushed(f, before, h, k) && k <= |f.saved|
    ensures Pushed(f, before, Exec(f.x, f.Push()[k], h), k + 1)
  {
    var sp0 := before.regs(f.sp);
    if k > 0 {
      forall i: nat | i < |f.saved| && i + 1 < k
        ensures Slot(f, sp0, i) != Slot(f, sp0, k - 1)
      {
        SlotsDiffer(f, sp0, i, k - 1);
      }
    }
  }

  lemma HarmlessKeeps(f: Frame, op: Op, h: Hart)
    requires Harmless(f, op)
    ensures var h' := Exec(f.x, op, h);
            && h'.regs(f.sp) == h.regs(f.sp) && h'.mem == h.mem
            && forall i :: 0 <= i < |f.saved| ==> h'.regs(f.saved[i]) == h.regs(f.saved[i])
  {
    assert op.effect(h.regs)(f.sp) == h.regs(f.sp);
    forall i | 0 <= i < |f.saved|
      ensures op.effect(h.regs)(f.saved[i]) == h.regs(f.saved[i])
    {
      assert f.saved[i] in f.saved;
    }
  }

  lemma {:induction false} PushRuns(f: Frame, before: Hart, h: Hart, ops: seq<Op>, filler: seq<Op>, k: nat)
    requires f.Valid() && k <= |f.saved| + 1 && Pushed(f, before, h, k)
    requires Interleaves(ops, filler, f.Push()[k..]) && forall op :: op in filler ==> Harmless(f, op)
    ensures Pushed(f, before, Run(f.x, ops, h), |f.saved| + 1)
    decreases |ops|
  {
    if ops != [] {
      var h' := Exec(f.x, ops[0], h);
      var rest := f.Push()[k..];
      if filler != [] && ops[0] == filler[0] && Interleaves(ops[1..], filler[1..], rest) {
        HarmlessKeeps(f, filler[0], h);
        PushRuns(f, before, h', ops[1..], filler[1..], k);
      } else {
        PushStep(f, before, h, k);
        assert rest[1..] == f.Push()[k + 1..];
        PushRuns(f, before, h', ops[1..], filler, k + 1);
      }
    }
  }

  /** The state once the first `k` pop instructions are through. */
  ghost predicate Popped(f: Frame, before: Hart, h: Hart, k: nat) {
    && h.regs(f.sp) == (if k <= |f.saved| then f.x.Wrap(before.regs(f.sp) - f.len) else f.x.Wrap(before.regs(f.sp)))
    && (forall i: nat :: i < |f.saved| ==> h.mem(Slot(f, before.regs(f.sp), i)) == before.regs(f.saved[i]))
    && (forall i :: 0 <= i < |f.saved| && i < k ==> h.regs(f.saved[i]) == before.regs(f.saved[i]))
  }

  lemma PopStep(f: Frame, before: Hart, h: Hart, k: nat)
    requires f.Valid() && Popped(f, before, h, k) && k <= |f.saved|
    ensures Popped(f, before, Exec(f.x, f.Pop()[k], h), k + 1)
  {
    if k == |f.saved| {
      WrapBack(before.regs(f.sp), f.len, f.x.Modulus());
    } else {
      assert f.Pop()[k] == Restore(f.saved[k], f.sp, f.Offset(k));
      assert h.mem(Slot(f, before.regs(f.sp), k)) == before.regs(f.saved[k]);
    }
  }

  lemma WrapBack(x: int, d: nat, m: nat)
    requires m > 0
    ensures ((x - d) % m + d) % m == x % m
  {
    var y := (x - d) % m + d;
    var q := (x - d) / m + x / m * -1 + y / m;
    if y % m != x % m {
      NoMultiple(q, x % m - y % m, m);
    }
    assert q * m == (x - d) / m * m - x / m * m + y / m * m;
  }

  lemma {:induction false} PopRuns(f: Frame, before: Hart, h: Hart, ops: seq<Op>, filler: seq<Op>, k: nat)
    requires f.Valid() && k <= |f.saved| + 1 && Popped(f, before, h, k)
    requires Interleaves(ops, filler, f.Pop()[k..]) && forall op :: op in filler ==> Harmless(f, op)
    ensures Popped(f, before, Run(f.x, ops, h), |f.saved| + 1)
    decreases |ops|
  {
    if ops != [] {
      var h' := Exec(f.x, ops[0], h);
      var rest := f.Pop()[k..];
      if filler != [] && ops[0] == filler[0] && Interleaves(ops[1..], filler[1..], rest) {
        HarmlessKeeps(f, filler[0], h);
        PopRuns(f, before, h', ops[1..], filler[1..], k);
      } else {
        PopStep(f, before, h, k);
        assert rest[1..] == f.Pop()[k + 1..];
        PopRuns(f, before, h', ops[1..], filler, k + 1);
      }
    }
  }

  /** The body leaves the stack pointer and the saved words as it found them. */
  ghost predicate KeepsFrame(f: Frame, sp0: int, before: Hart, after: Hart) {
    && after.regs(f.sp) == before.regs(f.sp)
    && forall i: nat :: i < |f.saved| ==> after.mem(Slot(f, sp0, i)) == before.mem(Slot(f, sp0, i))
  }

  /** Enter, body, exit: the stack pointer and all saved registers are back, for every
      mix and every filler, if the body keeps the frame from where it is entered; it may
      use the stack below. Nothing outside the slots was written on entry. */
  lemma CallIsTransparent(f: Frame, before: Hart, body: Hart -> Hart,
                          enter: seq<Op>, filler: seq<Op>, exit: seq<Op>, filler': seq<Op>)
    requires f.Valid() && 0 <= before.regs(f.sp) < f.x.Modulus()
    requires Interleaves(enter, filler, f.Push()) && (forall op :: op in filler ==> Harmless(f, op))
    requires Interleaves(exit, filler', f.Pop()) && (forall op :: op in filler' ==> Harmless(f, op))
    requires var inside := Run(f.x, enter, before); KeepsFrame(f, before.regs(f.sp), inside, body(inside))
    ensures var after := Run(f.x, exit, body(Run(f.x, enter, before)));
            after.regs(f.sp) == before.regs(f.sp) && forall r :: r in f.saved ==> after.regs(r) == before.regs(r)
    ensures forall p :: (forall i: nat :: i < |f.saved| ==> p != Slot(f, before.regs(f.sp), i)) ==>
              Run(f.x, enter, before).mem(p) == before.mem(p)
  {
    assert f.Push()[0..] == f.Push() && f.Pop()[0..] == f.Pop();
    PushRuns(f, before, before, enter, filler, 0);
    var inside := Run(f.x, enter, before);
    forall i: nat | i < |f.saved|
      ensures body(inside).mem(Slot(f, before.regs(f.sp), i)) == before.regs(f.saved[i])
    {
      assert i + 1 < |f.saved| + 1;
    }
    PopRuns(f, before, body(inside), exit, filler', 0);
    PoppedMeansRestored(f, before, Run(f.x, exit, body(inside)));
  }

  lemma PoppedMeansRestored(f: Frame, before: Hart, after: Hart)
    requires 0 <= before.regs(f.sp) < f.x.Modulus() && Popped(f, before, after, |f.saved| + 1)
    ensures after.regs(f.sp) == before.regs(f.sp) && forall r :: r in f.saved ==> after.regs(r) == before.regs(r)
  {
    forall r | r in f.saved
      ensures after.regs(r) == before.regs(r)
    {
      var i :| 0 <= i < |f.saved| && f.saved[i] == r;
    }
  }

  // ----- calls inside calls ------------------------------------------------

  /** The slots of a program called anywhere below are at least a word under those of
      the caller, though the topmost may be where the caller's stack pointer points.
      `gap` is what the programs in between have taken from the stack. */
  lemma NestedSlotsDiffer(f: Frame, gap: nat, g: Frame, sp0: int, i: nat, j: nat)
    requires f.Valid() && g.Valid() && g.x == f.x && f.len + gap + g.len + f.x.Bytes() < f.x.Modulus()
    requires i < |f.saved| && j < |g.saved|
    ensures var d := f.Offset(i) + gap + g.len - g.Offset(j);
            && f.x.Bytes() <= d && d + f.x.Bytes() <= f.x.Modulus()
            && Slot(f, sp0, i) == f.x.Wrap(Slot(g, f.x.Wrap(sp0 - f.len - gap), j) + d)
            && Slot(f, sp0, i) != Slot(g, f.x.Wrap(sp0 - f.len - gap), j)
  {
    var m, x := f.x.Modulus(), sp0 - f.len - gap - g.len + g.Offset(j);
    var d := f.Offset(i) + gap + g.len - g.Offset(j);
    OffsetsFit(f, i);
    OffsetsFit(g, j);
    SlotIs(f, sp0, i);
    SlotIs(g, f.x.Wrap(sp0 - f.len - gap), j);
    WrapOfWrap(sp0 - f.len - gap, g.Offset(j) - g.len, m);
    WrapOfWrap(x, d, m);
    WrapsApart(x, d, m);
  }

  /** How far below the stack pointer a slot is. */
  function SlotDepth(f: Frame, i: nat): (k: nat)
    requires f.Valid() && i < |f.saved|
    ensures k < f.len
  {
    OffsetsFit(f, i);
    f.len - f.Offset(i)
  }

  lemma OffsetsFit(f: Frame, i: nat)
    requires f.Valid() && i < |f.saved|
    ensures f.x.Bytes() <= f.Offset(i) <= f.len
  {
    WordsFit(f.x.Bytes(), i, |f.saved|);
  }

  lemma SlotIs(f: Frame, sp0: int, i: nat)
    requires f.Valid() && i < |f.saved|
    ensures Slot(f, sp0, i) == f.x.Wrap(sp0 - f.len + f.Offset(i)) == f.x.Wrap(sp0 - SlotDepth(f, i))
  {
    WrapOfWrap(sp0 - f.len, f.Offset(i), f.x.Modulus());
  }

  lemma WordsFit(w: nat, i: nat, n: nat)
    requires i < n
    ensures w <= w * (i + 1) <= n * w
  {
    MulMonotone(i + 1, n, w);
    MulMonotone(1, i + 1, w);
  }

  lemma WrapOfWrap(x: int, d: int, m: nat)
    requires m > 0
    ensures (x % m + d) % m == (x + d) % m
  {
    var y, z := x % m + d, x + d;
    var q := x / m - z / m + y / m;
    assert z - y == x / m * m;
    assert z % m - y % m == (x / m - z / m + y / m) * m by {
      assert z == z / m * m + z % m && y == y / m * m + y % m;
      assert (x / m - z / m + y / m) * m == x / m * m - z / m * m + y / m * m;
    }
    if z % m > y % m {
      NoMultiple(q, z % m - y % m, m);
    } else if z % m < y % m {
      assert (-q) * m == -(q * m);
      NoMultiple(-q, y % m - z % m, m);
    }
  }

  lemma {:induction false} NoStoreNoChange(x: Xlen, ops: seq<Op>, h: Hart)
    requires forall op :: op in ops ==> !op.Save?
    ensures Run(x, ops, h).mem == h.mem
  {
    if ops != [] {
      assert ops[0] in ops;
      NoStoreNoChange(x, ops[1..], Exec(x, ops[0], h));
    }
  }

  lemma PopStoresNothing(g: Frame, ops: seq<Op>, filler: seq<Op>)
    requires Interleaves(ops, filler, g.Pop()) && forall op :: op in filler ==> Harmless(g, op)
    ensures forall op :: op in ops ==> !op.Save?
  {
    InterleavesElements(ops, filler, g.Pop());
  }

  /** A call made `gap` bytes under a frame keeps that frame, if what it runs does: for
      the frame of its caller, of its caller's caller and so on. */
  lemma NestedCallKeepsFrame(f: Frame, gap: nat, g: Frame, sp0: int, inside: Hart, body: Hart -> Hart,
                             enter: seq<Op>, filler: seq<Op>, exit: seq<Op>, filler': seq<Op>)
    requires f.Valid() && g.Valid() && g.x == f.x && g.sp == f.sp && f.len + gap + g.len + f.x.Bytes() < f.x.Modulus()
    requires inside.regs(f.sp) == f.x.Wrap(sp0 - f.len - gap)
    requires Interleaves(enter, filler, g.Push()) && (forall op :: op in filler ==> Harmless(g, op))
    requires Interleaves(exit, filler', g.Pop()) && (forall op :: op in filler' ==> Harmless(g, op))
    requires var deep := Run(f.x, enter, inside);
             KeepsFrame(g, inside.regs(f.sp), deep, body(deep)) && KeepsFrame(f, sp0, deep, body(deep))
    ensures KeepsFrame(f, sp0, inside, Run(f.x, exit, body(Run(f.x, enter, inside))))
  {
    var deep := Run(f.x, enter, inside);
    CallIsTransparent(g, inside, body, enter, filler, exit, filler');
    PopStoresNothing(g, exit, filler');
    NoStoreNoChange(f.x, exit, body(deep));
    forall i: nat | i < |f.saved|
      ensures deep.mem(Slot(f, sp0, i)) == inside.mem(Slot(f, sp0, i))
    {
      forall j: nat | j < |g.saved|
        ensures Slot(f, sp0, i) != Slot(g, inside.regs(f.sp), j)
      {
        NestedSlotsDiffer(f, gap, g, sp0, i, j);
      }
    }
  }

  // ----- trees of calls ----------------------------------------------------

  /** A sub-program at run time: its entry, what it does and calls, its exit. */
  datatype Call = Call(f: Frame, enter: seq<Op>, body: Body, exit: seq<Op>)
  datatype Body = Return | Work(effect: Hart -> Hart, more: Body) | Nest(call: Call, more: Body)

  /** `ops` is `core` mixed with harmless filler. */
  ghost predicate Mixed(f: Frame, ops: seq<Op>, core: seq<Op>) {
    exists filler: seq<Op> :: Interleaves(ops, filler, core) && forall op :: op in filler ==> Harmless(f, op)
  }

  /** Instructions that keep off the stack pointer and the words of the stack; they may
      change any other register, the saved ones included. */
  ghost predicate OffStack(effect: Hart -> Hart, sp: Reg, stack: iset<int>) {
    forall h: Hart :: effect(h).regs(sp) == h.regs(sp) && forall p :: p in stack ==> effect(h).mem(p) == h.mem(p)
  }

  ghost predicate Legal(c: Call, x: Xlen, sp: Reg, stack: iset<int>) {
    && c.f.Valid() && c.f.x == x && c.f.sp == sp
    && Mixed(c.f, c.enter, c.f.Push()) && Mixed(c.f, c.exit, c.f.Pop())
    && LegalBody(c.body, x, sp, stack)
  }

  ghost predicate LegalBody(b: Body, x: Xlen, sp: Reg, stack: iset<int>) {
    match b
    case Return => true
    case Work(effect, more) => OffStack(effect, sp, stack) && LegalBody(more, x, sp, stack)
    case Nest(call, more) => Legal(call, x, sp, stack) && LegalBody(more, x, sp, stack)
  }

  /** The stack a call takes with all it calls. */
  function Depth(c: Call): nat {
    c.f.len + BodyDepth(c.body)
  }

  function BodyDepth(b: Body): nat {
    match b
    case Return => 0
    case Work(_, more) => BodyDepth(more)
    case Nest(call, more) => Max(Depth(call), BodyDepth(more))
  }

  /** A call that calls nothing. */
  lemma LeafIsLegal(c: Call, x: Xlen, sp: Reg, stack: iset<int>)
    requires c.f.Valid() && c.f.x == x && c.f.sp == sp && c.body == Return
    requires Mixed(c.f, c.enter, c.f.Push()) && Mixed(c.f, c.exit, c.f.Pop())
    ensures Legal(c, x, sp, stack) && Depth(c) == c.f.len
  {
  }

  function RunCall(c: Call, h: Hart): Hart {
    Run(c.f.x, c.exit, RunBody(c.body, Run(c.f.x, c.enter, h)))
  }

  function RunBody(b: Body, h: Hart): Hart {
    match b
    case Return => h
    case Work(effect, more) => RunBody(more, effect(h))
    case Nest(call, more) => RunBody(more, RunCall(call, h))
  }

  /** The address `k` under `sp0`. */
  function Down(x: Xlen, sp0: int, k: nat): int {
    x.Wrap(sp0 - k)
  }

  /** The `n` addresses from `sp0` down. */
  ghost predicate Under(x: Xlen, sp0: int, n: nat, p: int) {
    exists k: nat :: k < n && p == Down(x, sp0, k)
  }

  ghost predicate StackHas(x: Xlen, sp0: int, n: nat, stack: iset<int>) {
    forall p :: Under(x, sp0, n, p) ==> p in stack
  }

  /** Of the stack, only the words under `sp0` are touched. */
  ghost predicate Untouched(x: Xlen, sp0: int, n: nat, stack: iset<int>, before: Hart, after: Hart) {
    forall p :: p in stack && !Under(x, sp0, n, p) ==> after.mem(p) == before.mem(p)
  }

  lemma UnderLess(x: Xlen, sp0: int, n: nat, m: nat, p: int)
    requires n <= m && Under(x, sp0, n, p)
    ensures Under(x, sp0, m, p)
  {
  }

  /** What a callee touches lies under the caller's frame. */
  lemma UnderFrame(x: Xlen, sp0: int, len: nat, n: nat, p: int) returns (k: nat)
    requires Under(x, x.Wrap(sp0 - len), n, p)
    ensures len <= k < len + n && p == Down(x, sp0, k) && Under(x, sp0, len + n, p)
  {
    var l: nat :| l < n && p == Down(x, x.Wrap(sp0 - len), l);
    WrapOfWrap(sp0 - len, -(l as int), x.Modulus());
    k := len + l;
    assert p == Down(x, sp0, k);
  }

  lemma SlotIsUnder(f: Frame, sp0: int, n: nat, i: nat)
    requires f.Valid() && i < |f.saved|
    ensures Under(f.x, sp0, f.len + n, Slot(f, sp0, i))
  {
    SlotIs(f, sp0, i);
    assert Slot(f, sp0, i) == Down(f.x, sp0, SlotDepth(f, i));
  }

  /** The words of a frame are not among those the callees touch. */
  lemma SlotIsAbove(f: Frame, sp0: int, i: nat, n: nat)
    requires f.Valid() && i < |f.saved| && f.len + n < f.x.Modulus()
    ensures !Under(f.x, f.x.Wrap(sp0 - f.len), n, Slot(f, sp0, i))
  {
    if Under(f.x, f.x.Wrap(sp0 - f.len), n, Slot(f, sp0, i)) {
      var k := UnderFrame(f.x, sp0, f.len, n, Slot(f, sp0, i));
      SlotIs(f, sp0, i);
      DownsDiffer(f.x, sp0, SlotDepth(f, i), k);
      assert false;
    }
  }

  lemma DownsDiffer(x: Xlen, sp0: int, k: nat, l: nat)
    requires k < l < x.Modulus()
    ensures Down(x, sp0, k) != Down(x, sp0, l)
  {
    WrapsApart(sp0 - l, l - k, x.Modulus());
  }

  /** Less of the stack is part of more. */
  lemma LessStack(x: Xlen, sp0: int, n: nat, m: nat, stack: iset<int>)
    requires n <= m && StackHas(x, sp0, m, stack)
    ensures StackHas(x, sp0, n, stack)
  {
    forall p | Under(x, sp0, n, p)
      ensures p in stack
    {
      UnderLess(x, sp0, n, m, p);
    }
  }

  lemma TouchedLess(x: Xlen, sp0: int, n: nat, m: nat, stack: iset<int>, before: Hart, after: Hart)
    requires n <= m && Untouched(x, sp0, n, stack, before, after)
    ensures Untouched(x, sp0, m, stack, before, after)
  {
    forall p | p in stack && !Under(x, sp0, m, p)
      ensures after.mem(p) == before.mem(p)
    {
      if Under(x, sp0, n, p) {
        UnderLess(x, sp0, n, m, p);
        assert false;
      }
    }
  }

  /** Calls nested to any depth, with any work in between: the stack pointer and all
      saved registers are back, and of the stack nothing is touched but the words that
      the depth of the call accounts for. */
  lemma {:induction false} CallTreeIsTransparent(c: Call, stack: iset<int>, h: Hart)
    requires Legal(c, c.f.x, c.f.sp, stack) && Depth(c) < c.f.x.Modulus()
    requires 0 <= h.regs(c.f.sp) < c.f.x.Modulus() && StackHas(c.f.x, h.regs(c.f.sp), Depth(c), stack)
    ensures var after := RunCall(c, h);
            && after.regs(c.f.sp) == h.regs(c.f.sp)
            && (forall r :: r in c.f.saved ==> after.regs(r) == h.regs(r))
            && Untouched(c.f.x, h.regs(c.f.sp), Depth(c), stack, h, after)
    decreases c, 1
  {
    var f, sp0 := c.f, h.regs(c.f.sp);
    var inside := Run(f.x, c.enter, h);
    var filler: seq<Op> :| Interleaves(c.enter, filler, f.Push()) && forall op :: op in filler ==> Harmless(f, op);
    var filler': seq<Op> :| Interleaves(c.exit, filler', f.Pop()) && forall op :: op in filler' ==> Harmless(f, op);
    EnterLowers(f, h, c.enter, filler);
    StackBelow(f.x, sp0, f.len, BodyDepth(c.body), stack);
    BodyIsTransparent(c.body, f.x, f.sp, stack, inside);
    FrameIsKept(f, sp0, BodyDepth(c.body), stack, inside, RunBody(c.body, inside));
    CallIsTransparent(f, h, (s: Hart) => RunBody(c.body, s), c.enter, filler, c.exit, filler');
    PopStoresNothing(f, c.exit, filler');
    NoStoreNoChange(f.x, c.exit, RunBody(c.body, inside));
    TouchedJoins(f, sp0, BodyDepth(c.body), stack, h, inside, RunCall(c, h));
  }

  lemma {:induction false} BodyIsTransparent(b: Body, x: Xlen, sp: Reg, stack: iset<int>, h: Hart)
    requires LegalBody(b, x, sp, stack) && BodyDepth(b) < x.Modulus()
    requires 0 <= h.regs(sp) < x.Modulus() && StackHas(x, h.regs(sp), BodyDepth(b), stack)
    ensures RunBody(b, h).regs(sp) == h.regs(sp)
    ensures Untouched(x, h.regs(sp), BodyDepth(b), stack, h, RunBody(b, h))
    decreases b, 0
  {
    match b {
      case Return =>
      case Work(effect, more) =>
        BodyIsTransparent(more, x, sp, stack, effect(h));
      case Nest(call, more) =>
        var sp0, after := h.regs(sp), RunCall(call, h);
        LessStack(x, sp0, Depth(call), BodyDepth(b), stack);
        LessStack(x, sp0, BodyDepth(more), BodyDepth(b), stack);
        CallTreeIsTransparent(call, stack, h);
        BodyIsTransparent(more, x, sp, stack, after);
        TouchedLess(x, sp0, Depth(call), BodyDepth(b), stack, h, after);
        TouchedLess(x, sp0, BodyDepth(more), BodyDepth(b), stack, after, RunBody(more, after));
    }
  }

  lemma EnterLowers(f: Frame, h: Hart, enter: seq<Op>, filler: seq<Op>)
    requires f.Valid() && Interleaves(enter, filler, f.Push()) && forall op :: op in filler ==> Harmless(f, op)
    ensures Run(f.x, enter, h).regs(f.sp) == f.x.Wrap(h.regs(f.sp) - f.len)
  {
    assert f.Push()[0..] == f.Push();
    PushRuns(f, h, h, enter, filler, 0);
  }

  lemma StackBelow(x: Xlen, sp0: int, len: nat, n: nat, stack: iset<int>)
    requires StackHas(x, sp0, len + n, stack)
    ensures StackHas(x, x.Wrap(sp0 - len), n, stack)
  {
    forall p | Under(x, x.Wrap(sp0 - len), n, p)
      ensures p in stack
    {
      var _ := UnderFrame(x, sp0, len, n, p);
    }
  }

  lemma FrameIsKept(f: Frame, sp0: int, n: nat, stack: iset<int>, inside: Hart, after: Hart)
    requires f.Valid() && f.len + n < f.x.Modulus() && StackHas(f.x, sp0, f.len + n, stack)
    requires after.regs(f.sp) == inside.regs(f.sp)
    requires Untouched(f.x, f.x.Wrap(sp0 - f.len), n, stack, inside, after)
    ensures KeepsFrame(f, sp0, inside, after)
  {
    forall i: nat | i < |f.saved|
      ensures after.mem(Slot(f, sp0, i)) == inside.mem(Slot(f, sp0, i))
    {
      SlotIsUnder(f, sp0, n, i);
      SlotIsAbove(f, sp0, i, n);
    }
  }

  lemma TouchedJoins(f: Frame, sp0: int, n: nat, stack: iset<int>, h: Hart, inside: Hart, after: Hart)
    requires f.Valid()
    requires forall p :: (forall i: nat :: i < |f.saved| ==> p != Slot(f, sp0, i)) ==> inside.mem(p) == h.mem(p)
    requires Untouched(f.x, f.x.Wrap(sp0 - f.len), n, stack, inside, after)
    ensures Untouched(f.x, sp0, f.len + n, stack, h, after)
  {
    forall p | p in stack && !Under(f.x, sp0, f.len + n, p)
      ensures after.mem(p) == h.mem(p)
    {
      OutsideFrame(f, sp0, n, p);
    }
  }

  lemma OutsideFrame(f: Frame, sp0: int, n: nat, p: int)
    requires f.Valid() && !Under(f.x, sp0, f.len + n, p)
    ensures !Under(f.x, f.x.Wrap(sp0 - f.len), n, p)
    ensures forall i: nat :: i < |f.saved| ==> p != Slot(f, sp0, i)
  {
    forall i: nat | i < |f.saved|
      ensures p != Slot(f, sp0, i)
    {
      SlotIsUnder(f, sp0, n, i);
    }
    if Under(f.x, f.x.Wrap(sp0 - f.len), n, p) {
      var _ := UnderFrame(f.x, sp0, f.len, n, p);
      assert false;
    }
  }

  // ----- is the frame big enough? ------------------------------------------

  /** The i-th slot lies inside the `len` bytes above the lowered stack pointer. */
  predicate InsideFrame(f: Frame, i: nat) {
    f.Offset(i) + f.x.Bytes() <= f.len
  }

  /** The size check admits n words, but n registers need n + 1, because the
      lowest word of the frame stays unused. */
  lemma StoresStayInsideIff(f: Frame)
    ensures (forall i: nat :: i < |f.saved| ==> InsideFrame(f, i)) <==>
            |f.saved| == 0 || (|f.saved| + 1) * f.x.Bytes() <= f.len
  {
    var n, w := |f.saved|, f.x.Bytes();
    if n > 0 {
      assert f.Offset(n - 1) + w == (n + 1) * w;
      forall i: nat | i < n
        ensures f.Offset(i) <= f.Offset(n - 1)
      {
      }
      if forall i: nat :: i < n ==> InsideFrame(f, i) {
        assert InsideFrame(f, n - 1);
      }
    }
  }

  /** A frame the generator accepts whose only store hits the caller's word. */
  lemma AcceptedFrameTooSmall()
    ensures var f := Frame(Rv32, 2, [1], 4);
            f.Valid() && !InsideFrame(f, 0) && forall sp0: int :: 0 <= sp0 < f.x.Modulus() ==> Slot(f, sp0, 0) == sp0
  {
    var f := Frame(Rv32, 2, [1], 4);
    forall sp0: int | 0 <= sp0 < f.x.Modulus()
      ensures Slot(f, sp0, 0) == sp0
    {
      WrapBack(sp0, 4, f.x.Modulus());
    }
  }
}
