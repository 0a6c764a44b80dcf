/** Instruction streams of the random program generator.

A stream is a list of instruction objects. Directed streams are spliced into the
main one at random places, and a few instructions are mixed into filler; the
programs rely on atomic streams staying in one piece and on mixing to keep both
orders. Every random draw is an arbitrary value of its range. */
module InstrStream {
  import JumpChain
  import opened Wrappers

  datatype Label = Unlabelled | Digit(n: int) | Name(text: string)

  type Reg = nat

  /** What an instruction does, as far as it matters here. Addresses and register
      values are words of the configured width; a filler changes registers only. */
  datatype Op =
    | Branch
    | Jump(operand: JumpChain.Operand)
    | Addi(rd: Reg, rs1: Reg, imm: int)
    | Save(rs2: Reg, rs1: Reg, imm: int)
    | Restore(rd: Reg, rs1: Reg, imm: int)
    | Filler(effect: (Reg -> int) -> (Reg -> int))

  /** The fields of `riscv_instr` that the passes read and write. `tag` is its label,
      shown if `hasLabel`; `target` is
      the n of an assigned operand "nf". */
  class Instr {
    const op: Op
    const compressed: bool
    const insertIllegal: bool
    var atomic: bool
    var hasLabel: bool
    var tag: Label
    var numeric: bool
    var idx: int
    var branchAssigned: bool
    var illegal: bool
    var hint: bool
    var target: Option<int>

    constructor (op: Op, compressed: bool, insertIllegal: bool, atomic: bool, hasLabel: bool, tag: Label)
      ensures this.op == op && this.compressed == compressed && this.insertIllegal == insertIllegal
      ensures this.atomic == atomic && this.hasLabel == hasLabel && this.tag == tag
      ensures !numeric && !branchAssigned && !illegal && !hint && target == None && idx == -1
    {
      this.op, this.compressed, this.insertIllegal := op, compressed, insertIllegal;
      this.atomic, this.hasLabel, this.tag := atomic, hasLabel, tag;
      numeric, branchAssigned, illegal, hint, target, idx := false, false, false, false, None, -1;
    }
  }

  /** The t-th call of randint(0, n - 1). */
  type Dice = (nat, nat) -> nat

  ghost predicate InRange(dice: Dice) {
    forall t: nat, n: nat :: n > 0 ==> dice(t, n) < n
  }

  // ----- splicing on values ------------------------------------------------

  function Insert<T>(list: seq<T>, k: nat, new_: seq<T>): seq<T>
    requires k <= |list|
  {
    list[..k] + new_ + list[k..]
  }

  /** `list` after splicing in `streams[0]` at `at[0]`, then `streams[1]`, ... */
  function InsertAll<T>(list: seq<T>, streams: seq<seq<T>>, at: seq<nat>): seq<T>
    requires |at| == |streams|
  {
    if streams == [] then list
    else
      var n := |streams| - 1;
      var before := InsertAll(list, streams[..n], at[..n]);
      if at[n] <= |before| then Insert(before, at[n], streams[n]) else before
  }

  /** No splice happens in front of an atomic instruction. */
  ghost predicate LegalSeries<T>(list: seq<T>, streams: seq<seq<T>>, at: seq<nat>, atomics: set<T>) {
    && |at| == |streams|
    && forall n :: 0 <= n < |streams| ==>
         var before := InsertAll(list, streams[..n], at[..n]);
         at[n] < |before| && before[at[n]] !in atomics
  }

  predicate ContiguousAt<T(==)>(list: seq<T>, block: seq<T>, p: nat) {
    p + |block| <= |list| && list[p..p + |block|] == block
  }

  ghost predicate Contiguous<T>(list: seq<T>, block: seq<T>) {
    exists p :: ContiguousAt(list, block, p)
  }

  lemma InsertAllStep<T>(list: seq<T>, streams: seq<seq<T>>, at: seq<nat>, block: seq<T>, k: nat)
    requires |at| == |streams| && k <= |InsertAll(list, streams, at)|
    ensures InsertAll(list, streams + [block], at + [k]) == Insert(InsertAll(list, streams, at), k, block)
  {
    assert (streams + [block])[..|streams|] == streams && (at + [k])[..|at|] == at;
  }

  lemma LegalSeriesStep<T>(list: seq<T>, streams: seq<seq<T>>, at: seq<nat>, block: seq<T>, k: nat, atomics: set<T>)
    requires LegalSeries(list, streams, at, atomics)
    requires k < |InsertAll(list, streams, at)| && InsertAll(list, streams, at)[k] !in atomics
    ensures LegalSeries(list, streams + [block], at + [k], atomics)
  {
    var ss, ks := streams + [block], at + [k];
    forall n | 0 <= n < |ss|
      ensures ks[n] < |InsertAll(list, ss[..n], ks[..n])| && InsertAll(list, ss[..n], ks[..n])[ks[n]] !in atomics
    {
      assert ss[..n] == streams[..n] && ks[..n] == at[..n];
      if n == |streams| {
        assert streams[..n] == streams && at[..n] == at;
      }
    }
  }

  lemma LegalSeriesPrefix<T>(list: seq<T>, streams: seq<seq<T>>, at: seq<nat>, atomics: set<T>)
    requires LegalSeries(list, streams, at, atomics) && streams != []
    ensures var n := |streams| - 1;
            var before := InsertAll(list, streams[..n], at[..n]);
            && LegalSeries(list, streams[..n], at[..n], atomics)
            && at[n] < |before| && before[at[n]] !in atomics
            && InsertAll(list, streams, at) == Insert(before, at[n], streams[n])
  {
    var n := |streams| - 1;
    forall m | 0 <= m < n
      ensures at[..n][m] < |InsertAll(list, streams[..n][..m], at[..n][..m])|
              && InsertAll(list, streams[..n][..m], at[..n][..m])[at[..n][m]] !in atomics
    {
      assert streams[..n][..m] == streams[..m] && at[..n][..m] == at[..m];
    }
  }

  /** A splice in front of a non-atomic instruction cannot cut a block of atomic
      ones. */
  lemma SpliceKeepsBlock<T>(list: seq<T>, block: seq<T>, p: nat, k: nat, new_: seq<T>, atomics: set<T>)
    requires ContiguousAt(list, block, p) && (forall x :: x in block ==> x in atomics)
    requires k < |list| && list[k] !in atomics
    ensures ContiguousAt(Insert(list, k, new_), block, if k < p then p + |new_| else p)
  {
    forall j | p <= j < p + |block|
      ensures list[j] in atomics
    {
      assert block[j - p] == list[p..p + |block|][j - p] == list[j];
    }
    var r := Insert(list, k, new_);
    var q := if k < p then p + |new_| else p;
    if block != [] {
      forall i | 0 <= i < |block|
        ensures r[q + i] == block[i]
      {
        assert block[i] == list[p..p + |block|][i] == list[p + i];
      }
    }
    assert r[q..q + |block|] == block;
  }

  lemma InsertedIsContiguous<T>(list: seq<T>, k: nat, new_: seq<T>)
    requires k <= |list|
    ensures ContiguousAt(Insert(list, k, new_), new_, k)
  {
  }

  /** Over any series of splices every all-atomic stream stays in one piece. */
  lemma {:induction false} AtomicBlocksStayWhole<T>(list: seq<T>, streams: seq<seq<T>>, at: seq<nat>, atomics: set<T>)
    requires LegalSeries(list, streams, at, atomics)
    requires forall s, x :: s in streams && x in s ==> x in atomics
    ensures forall j :: 0 <= j < |streams| ==> Contiguous(InsertAll(list, streams, at), streams[j])
  {
    if streams != [] {
      var n := |streams| - 1;
      var before := InsertAll(list, streams[..n], at[..n]);
      LegalSeriesPrefix(list, streams, at, atomics);
      AtomicBlocksStayWhole(list, streams[..n], at[..n], atomics);
      forall j | 0 <= j < |streams|
        ensures Contiguous(InsertAll(list, streams, at), streams[j])
      {
        if j < n {
          assert streams[..n][j] == streams[j];
          var p :| ContiguousAt(before, streams[j], p);
          SpliceKeepsBlock(before, streams[j], p, at[n], streams[n], atomics);
        } else {
          InsertedIsContiguous(before, at[n], streams[n]);
        }
      }
    }
  }

  function Only<T(==)>(list: seq<T>, keep: set<T>): seq<T> {
    if list == [] then []
    else (if list[0] in keep then [list[0]] else []) + Only(list[1..], keep)
  }

  lemma {:induction false} OnlyConcat<T>(a: seq<T>, b: seq<T>, keep: set<T>)
    ensures Only(a + b, keep) == Only(a, keep) + Only(b, keep)
  {
    if a == [] {
      assert a + b == b;
    } else {
      assert (a + b)[1..] == a[1..] + b;
      OnlyConcat(a[1..], b, keep);
    }
  }

  lemma {:induction false} OnlyForeign<T>(a: seq<T>, keep: set<T>)
    requires forall x :: x in a ==> x !in keep
    ensures Only(a, keep) == []
  {
    if a != [] {
      OnlyForeign(a[1..], keep);
    }
  }

  lemma {:induction false} OnlyOwn<T>(a: seq<T>, keep: set<T>)
    requires forall x :: x in a ==> x in keep
    ensures Only(a, keep) == a
  {
    if a != [] {
      OnlyOwn(a[1..], keep);
    }
  }

  lemma OnlyInsert<T>(list: seq<T>, k: nat, new_: seq<T>, keep: set<T>)
    requires k <= |list| && forall x :: x in new_ ==> x !in keep
    ensures Only(Insert(list, k, new_), keep) == Only(list, keep)
  {
    OnlyForeign(new_, keep);
    OnlyConcat(list[..k] + new_, list[k..], keep);
    OnlyConcat(list[..k], new_, keep);
    OnlyConcat(list[..k], list[k..], keep);
    assert list[..k] + list[k..] == list;
  }

  function Last<T>(list: seq<T>): T
    requires list != []
  {
    list[|list| - 1]
  }

  /** The original instructions are all still there and in order: forgetting the
      spliced streams gives the original back. */
  lemma {:induction false} SplicesKeepOriginal<T>(list: seq<T>, streams: seq<seq<T>>, at: seq<nat>)
    requires |at| == |streams| && forall s, x :: s in streams && x in s ==> x !in list
    ensures Only(InsertAll(list, streams, at), set x | x in list) == list
  {
    var keep := set x | x in list;
    if streams == [] {
      OnlyOwn(list, keep);
    } else {
      var n := |streams| - 1;
      SplicesKeepOriginal(list, streams[..n], at[..n]);
      assert streams[n] in streams;
      var before := InsertAll(list, streams[..n], at[..n]);
      if at[n] <= |before| {
        OnlyInsert(before, at[n], streams[n], keep);
      }
    }
  }

  /** The last instruction stays last. */
  lemma {:induction false} SeriesKeepsLast<T>(list: seq<T>, streams: seq<seq<T>>, at: seq<nat>, atomics: set<T>)
    requires LegalSeries(list, streams, at, atomics) && list != []
    ensures InsertAll(list, streams, at) != [] && Last(InsertAll(list, streams, at)) == Last(list)
  {
    if streams != [] {
      var n := |streams| - 1;
      LegalSeriesPrefix(list, streams, at, atomics);
      SeriesKeepsLast(list, streams[..n], at[..n], atomics);
    }
  }

  // ----- mixing on values --------------------------------------------------

  /** `r` consists of `a` and `b`, both in their own order. */
  ghost predicate Interleaves<T>(r: seq<T>, a: seq<T>, b: seq<T>) {
    if r == [] then a == [] && b == []
    else
      || (a != [] && r[0] == a[0] && Interleaves(r[1..], a[1..], b))
      || (b != [] && r[0] == b[0] && Interleaves(r[1..], a, b[1..]))
  }

  lemma {:induction false} InterleavesOnlyLeft<T>(a: seq<T>)
    ensures Interleaves(a, a, [])
  {
    if a != [] {
      InterleavesOnlyLeft(a[1..]);
    }
  }

  lemma {:induction false} InterleavesConcat<T>(r: seq<T>, a: seq<T>, b: seq<T>, r': seq<T>, a': seq<T>, b': seq<T>)
    requires Interleaves(r, a, b) && Interleaves(r', a', b')
    ensures Interleaves(r + r', a + a', b + b')
  {
    if r == [] {
      assert r + r' == r' && a + a' == a' && b + b' == b';
    } else {
      assert (r + r')[1..] == r[1..] + r';
      if a != [] && r[0] == a[0] && Interleaves(r[1..], a[1..], b) {
        InterleavesConcat(r[1..], a[1..], b, r', a', b');
        assert (a + a')[1..] == a[1..] + a';
      } else {
        InterleavesConcat(r[1..], a, b[1..], r', a', b');
        assert (b + b')[1..] == b[1..] + b';
      }
    }
  }

  ghost predicate Sorted(s: seq<nat>) {
    forall i, j :: 0 <= i < j < |s| ==> s[i] <= s[j]
  }

  /** `list.sort()`. */
  function Sort(s: seq<nat>): (r: seq<nat>)
    ensures multiset(r) == multiset(s) && Sorted(r)
  {
    if s == [] then [] else
      MultisetHead(s);
      SortInto(s[0], Sort(s[1..]))
  }

  lemma MultisetHead(s: seq<nat>)
    requires s != []
    ensures multiset(s) == multiset{s[0]} + multiset(s[1..])
  {
    assert s == [s[0]] + s[1..];
  }

  function SortInto(x: nat, s: seq<nat>): (r: seq<nat>)
    requires Sorted(s)
    ensures multiset(r) == multiset{x} + multiset(s) && Sorted(r)
  {
    if s == [] || x <= s[0] then
      [x] + s
    else
      var rest := SortInto(x, s[1..]);
      MultisetHead(s);
      MultisetHead([s[0]] + rest);
      SortedCons(s[0], x, s[1..], rest);
      [s[0]] + rest
  }

  lemma SortedCons(head: nat, x: nat, tail: seq<nat>, r: seq<nat>)
    requires Sorted([head] + tail) && head <= x && Sorted(r)
    requires multiset(r) == multiset{x} + multiset(tail)
    ensures Sorted([head] + r)
  {
    forall j | 0 <= j < |r|
      ensures head <= r[j]
    {
      assert r[j] in multiset(r);
      if r[j] != x {
        assert r[j] in tail;
        var i :| 0 <= i < |tail| && tail[i] == r[j];
        assert ([head] + tail)[i + 1] == r[j] && ([head] + tail)[0] == head;
      }
    }
  }

  lemma SortedPositions(draws: seq<nat>, bound: nat)
    requires forall x :: x in draws ==> x <= bound
    ensures |Sort(draws)| == |draws| && Sorted(Sort(draws))
    ensures forall i :: 0 <= i < |draws| ==> Sort(draws)[i] <= bound
  {
    var r := Sort(draws);
    assert |multiset(r)| == |r| && |multiset(draws)| == |draws|;
    forall i | 0 <= i < |r|
      ensures r[i] <= bound
    {
      assert r[i] in multiset(r);
      assert r[i] in draws;
    }
  }

  /** One of the eleven draws for a splice hits an atomic instruction. */
  ghost predicate HitsAtomic(list: seq<Instr>, dice: Dice)
    requires InRange(dice) && list != []
    reads list
  {
    exists t: nat {:trigger dice(t, |list|)} :: t <= 10 && list[dice(t, |list|)].atomic
  }

  ghost predicate FirstNonAtomic(list: seq<Instr>, k: nat)
    reads list
  {
    k < |list| && !list[k].atomic && forall j :: 0 <= j < k ==> list[j].atomic
  }

  // ----- the stream object -------------------------------------------------

  class Stream {
    var instrs: seq<Instr>

    constructor (instrs: seq<Instr>)
      ensures this.instrs == instrs
    {
      this.instrs := instrs;
    }

    /** `insert_instr` with an explicit index; `ok` is false where the source
        exits. */
    method InsertInstr(instr: Instr, idx: int) returns (ok: bool)
      requires idx != -1
      modifies this
      ensures ok <==> 0 <= idx <= |old(instrs)|
      ensures instrs == if ok then Insert(old(instrs), idx, [instr]) else old(instrs)
    {
      var currentCnt := |instrs|;
      if idx > currentCnt || idx < 0 {
        return false;
      }
      instrs := instrs[..idx] + [instr] + instrs[idx..];
      ok := true;
    }

    /** `insert_instr_stream` without replacement. The retry loop stops at an
        atomic instruction and draws again at any other; the search after it is
        what finds a legal place, the first there is. So the last draw counts only
        if no draw hits an atomic instruction. A random splice fails only if every
        instruction is atomic. */
    method InsertInstrStream(newInstr: seq<Instr>, idx: int, dice: Dice) returns (ok: bool, ghost at: nat)
      requires InRange(dice)
      modifies this
      ensures !ok ==> instrs == old(instrs)
      ensures old(instrs) == [] ==> ok && instrs == newInstr
      ensures old(instrs) != [] && idx == -1 ==>
                && (ok <==> exists x :: x in old(instrs) && !x.atomic)
                && (ok ==> at < |old(instrs)| && !old(instrs)[at].atomic
                           && instrs == Insert(old(instrs), at, newInstr))
      ensures old(instrs) != [] && idx == -1 && ok ==>
                if HitsAtomic(old(instrs), dice) then FirstNonAtomic(old(instrs), at) else at == dice(10, |old(instrs)|)
      ensures old(instrs) != [] && idx != -1 ==>
                && (ok <==> 0 <= idx <= |old(instrs)|)
                && (ok ==> at == idx && instrs == Insert(old(instrs), at, newInstr))
    {
      var currentCnt := |instrs|;
      at := 0;
      if currentCnt == 0 {
        instrs := newInstr;
        return true, 0;
      }
      var k := idx;
      if idx == -1 {
        k := dice(0, currentCnt);
        for i := 0 to 10
          invariant k == dice(i, currentCnt) < currentCnt
          invariant forall t: nat {:trigger dice(t, currentCnt)} :: t < i ==> !instrs[dice(t, currentCnt)].atomic
        {
          if instrs[k].atomic {
            break;
          }
          k := dice(i + 1, currentCnt);
        }
        if instrs[k].atomic {
          for i := 0 to |instrs|
            invariant 0 <= k < currentCnt && instrs[k].atomic
            invariant forall j :: 0 <= j < i ==> instrs[j].atomic
          {
            if !instrs[i].atomic {
              k := i;
              break;
            }
          }
          if instrs[k].atomic {
            return false, 0;
          }
        }
        assert instrs[k] in instrs;
      } else if idx > currentCnt || idx < 0 {
        return false, 0;
      }
      instrs := if k == 0 then newInstr + instrs[k..currentCnt]
                else instrs[0..k] + newInstr + instrs[k..currentCnt];
      ok, at := true, k;
    }

    /** `mix_instr_stream` with contained = 0: both orders are kept and no
        insertion is refused, whatever the draws. */
    method MixInstrStream(newInstr: seq<Instr>, dice: Dice) returns (ok: bool)
      requires InRange(dice)
      modifies this
      ensures ok && Interleaves(instrs, old(instrs), newInstr)
      ensures Placed(instrs, newInstr, MixPositions(|old(instrs)|, |newInstr|, dice), |newInstr|)
    {
      var base := instrs;
      var position := MixPositions(|base|, |newInstr|, dice);
      ghost var p := 0;
      assert MixedUpTo(instrs, base, newInstr, 0, 0);
      for i := 0 to |newInstr|
        invariant 0 <= p <= |base| && (i < |newInstr| ==> p <= position[i])
        invariant MixedUpTo(instrs, base, newInstr, p, i) && Placed(instrs, newInstr, position, i)
      {
        var k := position[i];
        MixStep(instrs, base, newInstr, p, k, i);
        PlaceOneMore(instrs, newInstr, position, i);
        var inserted := InsertInstr(newInstr[i], k + i);
        if !inserted {
          return false;
        }
        p := k;
      }
      MixEnd(instrs, base, newInstr, p);
      ok := true;
    }

    /** The end of `gen_instr`: a branch has no forward target at the end. */
    method TrimTail()
      requires instrs != []
      modifies this
      ensures instrs <= old(instrs)
      ensures instrs != [] ==> !instrs[|instrs| - 1].op.Branch?
      ensures forall i :: |instrs| <= i < |old(instrs)| ==> old(instrs)[i].op.Branch?
    {
      while instrs[|instrs| - 1].op.Branch?
        invariant instrs <= old(instrs) && instrs != []
        invariant forall i :: |instrs| <= i < |old(instrs)| ==> old(instrs)[i].op.Branch?
        decreases |instrs|
      {
        instrs := instrs[..|instrs| - 1];
        if |instrs| == 0 {
          break;
        }
      }
    }
  }

  /** Where the new instructions go: in front of which of the old ones, drawn for each
      and sorted. */
  function MixPositions(n: nat, count: nat, dice: Dice): (r: seq<nat>)
    requires InRange(dice)
    ensures |r| == count && Sorted(r) && forall i :: 0 <= i < count ==> r[i] <= n
  {
    var draws: seq<nat> := seq(count, i requires 0 <= i < count => dice(i, n + 1));
    SortedPositions(draws, n);
    Sort(draws)
  }

  /** The first `i` new instructions stand where they were drawn to. */
  ghost predicate Placed<T>(list: seq<T>, new_: seq<T>, position: seq<nat>, i: nat)
    requires i <= |new_| == |position|
  {
    forall m :: 0 <= m < i ==> position[m] + m < |list| && list[position[m] + m] == new_[m]
  }

  lemma PlaceOneMore<T>(list: seq<T>, new_: seq<T>, position: seq<nat>, i: nat)
    requires i < |new_| == |position| && Sorted(position) && position[i] + i <= |list|
    requires Placed(list, new_, position, i)
    ensures Placed(Insert(list, position[i] + i, [new_[i]]), new_, position, i + 1)
  {
    forall m | 0 <= m < i
      ensures position[m] + m < position[i] + i
    {
    }
  }

  /** `i` instructions are in, the last of them in front of base[p]. */
  ghost predicate MixedUpTo<T>(list: seq<T>, base: seq<T>, new_: seq<T>, p: nat, i: nat) {
    && p <= |base| && i <= |new_| && |list| == |base| + i
    && list[p + i..] == base[p..]
    && Interleaves(list[..p + i], base[..p], new_[..i])
  }

  lemma MixEnd<T>(list: seq<T>, base: seq<T>, new_: seq<T>, p: nat)
    requires MixedUpTo(list, base, new_, p, |new_|)
    ensures Interleaves(list, base, new_)
  {
    var i := p + |new_|;
    InterleavesOnlyLeft(base[p..]);
    InterleavesConcat(list[..i], base[..p], new_[..|new_|], base[p..], base[p..], []);
    assert list[..i] + list[i..] == list;
    assert base[..p] + base[p..] == base && new_[..|new_|] + [] == new_;
  }

  lemma MixStep<T>(list: seq<T>, base: seq<T>, new_: seq<T>, p: nat, k: nat, i: nat)
    requires MixedUpTo(list, base, new_, p, i) && p <= k <= |base| && i < |new_|
    ensures MixedUpTo(Insert(list, k + i, [new_[i]]), base, new_, k, i + 1)
  {
    var done, between, x := list[..p + i], base[p..k], [new_[i]];
    InterleavesOnlyLeft(between);
    InterleavesConcat(done, base[..p], new_[..i], between, between, []);
    assert base[..p] + between == base[..k] && new_[..i] + [] == new_[..i];
    assert Interleaves(x, [], x);
    InterleavesConcat(done + between, base[..k], new_[..i], x, [], x);
    assert base[..k] + [] == base[..k] && new_[..i] + x == new_[..i + 1];
    MixStepShape(list, base, p, k, i, x);
  }

  lemma MixStepShape<T>(list: seq<T>, base: seq<T>, p: nat, k: nat, i: nat, x: seq<T>)
    requires p <= k <= |base| && |list| == |base| + i && list[p + i..] == base[p..] && |x| == 1
    ensures var r := Insert(list, k + i, x);
            r[..k + i + 1] == list[..p + i] + base[p..k] + x && r[k + i + 1..] == base[k..]
  {
    assert list[k + i..] == list[p + i..][k - p..] == base[k..];
    assert list[p + i..k + i] == list[p + i..][..k - p] == base[p..k];
    assert list[..k + i] == list[..p + i] + list[p + i..k + i];
  }
}
