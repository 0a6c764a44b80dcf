/** The back-to-back jump stream.

Every jump carries its index as a numeric label and jumps to the next index of a
random order, forward or backward; the assembler takes the nearest such label.
For every order and every surrounding program, whatever numeric labels that
program has, a run visits each jump exactly once, in the drawn order, and leaves
at the last instruction. */
module JumpChain {
  import opened Collections
  import opened Wrappers

  /** "nf" and "nb" */
  datatype Operand = Forward(n: nat) | Backward(n: nat)

  datatype Line = Line(tag: Option<nat>, operand: Option<Operand>)

  /** The operand of the k-th jump in the order. */
  function OperandAt(order: seq<nat>, k: nat): Operand
    requires k < |order|
  {
    if k == |order| - 1 then Forward(|order|)
    else if order[k + 1] > order[k] then Forward(order[k + 1])
    else Backward(order[k + 1])
  }

  /** The stream stands in `lines` from line `base` on. */
  ghost predicate ChainAt(lines: seq<Line>, base: nat, order: seq<nat>) {
    && order != [] && Permutation(order)
    && base + |order| + 2 <= |lines|
    && lines[base].operand == Some(Forward(order[0]))
    && TagsAt(lines, base, |order|)
    && (forall k {:trigger OperandAt(order, k)} :: 0 <= k < |order| ==> lines[base + 1 + order[k]].operand == Some(OperandAt(order, k)))
    && lines[base + |order| + 1].operand == None
  }

  ghost predicate TagsAt(lines: seq<Line>, base: nat, n: nat) {
    base + n + 2 <= |lines| && forall p :: base < p <= base + n + 1 ==> lines[p].tag == Some(p - base - 1)
  }

  /** `post_randomize`; `shuffle` is the random permutation. The label of the first
      instruction is not a number. */
  method PostRandomize(numOfJumpInstr: nat, shuffle: seq<nat> -> seq<nat>) returns (instrList: seq<Line>, order: seq<nat>)
    requires numOfJumpInstr >= 1
    requires forall s: seq<nat> :: multiset(shuffle(s)) == multiset(s)
    ensures |order| == numOfJumpInstr && |instrList| == numOfJumpInstr + 2 && ChainAt(instrList, 0, order)
    ensures instrList[0].tag == None
  {
    var identity: seq<nat> := seq(numOfJumpInstr, i requires 0 <= i => i);
    order := shuffle(identity);
    ShuffledIdentity(identity, order);
    var jumpStart := Line(None, Some(Forward(order[0])));
    var jumpEnd := Line(Some(numOfJumpInstr), None);
    var jump := new Line[numOfJumpInstr](_ => Line(None, None));
    SetLabels(jump);
    SetOperands(jump, order);
    instrList := [jumpStart] + jump[..] + [jumpEnd];
    assert forall p :: 0 < p <= numOfJumpInstr ==> instrList[p] == jump[p - 1];
  }

  method SetLabels(jump: array<Line>)
    modifies jump
    ensures forall k :: 0 <= k < jump.Length ==> jump[k].tag == Some(k)
  {
    for i := 0 to jump.Length
      invariant forall k :: 0 <= k < i ==> jump[k].tag == Some(k)
    {
      jump[i] := jump[i].(tag := Some(i));
    }
  }

  method SetOperands(jump: array<Line>, order: seq<nat>)
    requires |order| == jump.Length && Permutation(order)
    modifies jump
    ensures forall k :: 0 <= k < jump.Length ==> jump[k].tag == old(jump[k].tag)
    ensures forall k {:trigger OperandAt(order, k)} :: 0 <= k < |order| ==> jump[order[k]].operand == Some(OperandAt(order, k))
  {
    for i := 0 to |order|
      invariant forall k :: 0 <= k < jump.Length ==> jump[k].tag == old(jump[k].tag)
      invariant forall k {:trigger OperandAt(order, k)} :: 0 <= k < i ==> jump[order[k]].operand == Some(OperandAt(order, k))
    {
      var operand;
      if i == |order| - 1 {
        operand := Forward(|order|);
      } else if order[i + 1] > order[i] {
        operand := Forward(order[i + 1]);
      } else {
        operand := Backward(order[i + 1]);
      }
      jump[order[i]] := jump[order[i]].(operand := Some(operand));
    }
  }

  lemma ShuffledIdentity(identity: seq<nat>, order: seq<nat>)
    requires multiset(order) == multiset(identity)
    requires forall i :: 0 <= i < |identity| ==> identity[i] == i
    ensures |order| == |identity| && Permutation(order)
  {
    assert |multiset(order)| == |order| && |multiset(identity)| == |identity|;
    forall k | 0 <= k < |order|
      ensures order[k] < |order|
    {
      assert order[k] in multiset(order);
      assert order[k] in identity;
    }
    forall k, l | 0 <= k < l < |order|
      ensures order[k] != order[l]
    {
      TwiceInMultiset(order, k, l);
      IdentityOnce(identity, order[k]);
    }
  }

  lemma TwiceInMultiset(s: seq<nat>, k: nat, l: nat)
    requires k < l < |s|
    ensures s[k] == s[l] ==> multiset(s)[s[k]] >= 2
  {
    assert s == s[..l] + [s[l]] + s[l + 1..];
    assert s[k] in s[..l];
    assert multiset(s) == multiset(s[..l]) + multiset([s[l]]) + multiset(s[l + 1..]);
  }

  lemma {:induction false} IdentityOnce(s: seq<nat>, x: nat)
    requires forall i :: 0 <= i < |s| ==> s[i] == i
    ensures multiset(s)[x] <= 1
  {
    if s != [] {
      var n := |s| - 1;
      IdentityOnce(s[..n], x);
      assert s == s[..n] + [s[n]];
      if x == s[n] {
        assert x !in s[..n];
      }
    }
  }

  // ----- the assembler and the machine -------------------------------------

  /** Control goes from line `p` to line `q`: "nf" is the nearest label n behind
      the line, "nb" the nearest one at or before it. */
  ghost predicate Leads(lines: seq<Line>, p: nat, q: nat) {
    p < |lines| &&
    match lines[p].operand
    case None => q == p + 1
    case Some(Forward(n)) =>
      p < q < |lines| && lines[q].tag == Some(n) && forall i :: p < i < q ==> lines[i].tag != Some(n)
    case Some(Backward(n)) =>
      q <= p && lines[q].tag == Some(n) && forall i :: q < i <= p ==> lines[i].tag != Some(n)
  }

  lemma LeadsToOneLine(lines: seq<Line>, p: nat, q: nat, q': nat)
    requires Leads(lines, p, q) && Leads(lines, p, q')
    ensures q == q'
  {
  }

  /** `path` is what the machine executes from its first line on. */
  ghost predicate IsRun(lines: seq<Line>, path: seq<nat>) {
    forall t :: 0 <= t < |path| - 1 ==> Leads(lines, path[t], path[t + 1])
  }

  /** Where the k-th visit is inside the block: the jumps in order, then the end. */
  function Visit(order: seq<nat>, k: nat): nat
    requires k <= |order|
  {
    1 + if k < |order| then order[k] else |order|
  }

  lemma OperandLeads(lines: seq<Line>, base: nat, order: seq<nat>, k: nat)
    requires ChainAt(lines, base, order) && k < |order|
    ensures var v, w := Visit(order, k), Visit(order, k + 1);
            && v != w && base + v < |lines|
            && lines[base + v].operand == Some(if v < w then Forward(w - 1) else Backward(w - 1))
  {
    assert k + 1 < |order| ==> order[k + 1] != order[k];
    assert lines[base + 1 + order[k]].operand == Some(OperandAt(order, k));
  }

  /** Between two lines of the stream there are only lines of the stream, so no
      label of the surrounding program can interfere. */
  lemma FollowVisit(lines: seq<Line>, base: nat, n: nat, v: nat, w: nat)
    requires TagsAt(lines, base, n) && v <= n + 1 && 0 < w <= n + 1 && v != w
    requires lines[base + v].operand == Some(if v < w then Forward(w - 1) else Backward(w - 1))
    ensures Leads(lines, base + v, base + w)
  {
  }

  lemma JumpLeads(lines: seq<Line>, base: nat, order: seq<nat>, k: nat)
    requires ChainAt(lines, base, order) && k < |order|
    ensures Leads(lines, base + Visit(order, k), base + Visit(order, k + 1))
  {
    OperandLeads(lines, base, order, k);
    FollowVisit(lines, base, |order|, Visit(order, k), Visit(order, k + 1));
  }

  /** First line, jumps in the drawn order, last line. */
  function Path(base: nat, order: seq<nat>): seq<nat> {
    [base] + seq(|order| + 1, k requires 0 <= k <= |order| => base + Visit(order, k))
  }

  /** From its first line the stream executes the jumps in the drawn order and
      stands at its last line after n + 1 jumps, whatever program surrounds it. */
  lemma ChainFollowsOrder(lines: seq<Line>, base: nat, order: seq<nat>)
    requires ChainAt(lines, base, order)
    ensures IsRun(lines, Path(base, order)) && |Path(base, order)| == |order| + 2
    ensures Path(base, order)[0] == base && Path(base, order)[|order| + 1] == base + |order| + 1
    ensures forall k :: 0 <= k < |order| ==> Path(base, order)[k + 1] == base + 1 + order[k]
  {
    forall k | 0 <= k < |order|
      ensures Leads(lines, base + Visit(order, k), base + Visit(order, k + 1))
    {
      JumpLeads(lines, base, order, k);
    }
    FollowVisit(lines, base, |order|, 0, Visit(order, 0));
    PathIsRun(lines, base, order);
  }

  lemma PathIsRun(lines: seq<Line>, base: nat, order: seq<nat>)
    requires base + |order| + 2 <= |lines| && Permutation(order)
    requires Leads(lines, base, base + Visit(order, 0))
    requires forall k :: 0 <= k < |order| ==> Leads(lines, base + Visit(order, k), base + Visit(order, k + 1))
    ensures IsRun(lines, Path(base, order))
  {
    var path := Path(base, order);
    forall t | 0 <= t < |path| - 1
      ensures Leads(lines, path[t], path[t + 1])
    {
      assert path[t + 1] == base + Visit(order, t);
      if t > 0 {
        assert path[t] == base + Visit(order, t - 1);
        assert Leads(lines, base + Visit(order, t - 1), base + Visit(order, t - 1 + 1));
      }
    }
  }

  /** Each jump is executed exactly once on the way. */
  lemma EachJumpOnce(lines: seq<Line>, base: nat, order: seq<nat>, i: nat)
    requires ChainAt(lines, base, order) && i < |order|
    ensures exists t :: 0 <= t < |Path(base, order)| && Path(base, order)[t] == base + 1 + i
    ensures forall t, u :: 0 <= t < u < |Path(base, order)| ==> Path(base, order)[t] != Path(base, order)[u]
  {
    Onto(order, i);
    PathIsInjective(base, order, i);
  }

  lemma PathIsInjective(base: nat, order: seq<nat>, i: nat)
    requires Permutation(order) && exists k :: 0 <= k < |order| && order[k] == i
    ensures exists t :: 0 <= t < |Path(base, order)| && Path(base, order)[t] == base + 1 + i
    ensures forall t, u :: 0 <= t < u < |Path(base, order)| ==> Path(base, order)[t] != Path(base, order)[u]
  {
    var path := Path(base, order);
    var k :| 0 <= k < |order| && order[k] == i;
    assert path[k + 1] == base + Visit(order, k);
    forall t, u | 0 <= t < u < |path|
      ensures path[t] != path[u]
    {
      assert path[u] == base + Visit(order, u - 1);
      assert t > 0 ==> path[t] == base + Visit(order, t - 1);
    }
  }

  /** Wherever the stream stands in a program, it is a chain. */
  lemma ChainInContext(block: seq<Line>, b: nat, lines: seq<Line>, base: nat, order: seq<nat>)
    requires ChainAt(block, b, order) && base + |order| + 2 <= |lines|
    requires lines[base..base + |order| + 2] == block[b..b + |order| + 2]
    ensures ChainAt(lines, base, order)
  {
    forall i | 0 <= i < |order| + 2
      ensures lines[base..][i] == block[b..][i]
    {
      assert lines[base..base + |order| + 2][i] == block[b..b + |order| + 2][i];
    }
    forall p | base < p <= base + |order| + 1
      ensures lines[p].tag == Some(p - base - 1)
    {
      assert lines[base..][p - base] == block[b..][p - base];
    }
    forall k | 0 <= k < |order|
      ensures lines[base + 1 + order[k]].operand == Some(OperandAt(order, k))
    {
      assert lines[base..][1 + order[k]] == block[b..][1 + order[k]];
    }
    assert lines[base..][0] == block[b..][0] && lines[base..][|order| + 1] == block[b..][|order| + 1];
  }

  /** Every line of the stream is on the path. */
  lemma PathCovers(base: nat, order: seq<nat>, p: nat) returns (t: nat)
    requires Permutation(order) && base <= p <= base + |order| + 1
    ensures t < |Path(base, order)| == |order| + 2 && Path(base, order)[t] == p
  {
    if p == base {
      t := 0;
    } else if p == base + |order| + 1 {
      t := |order| + 1;
    } else {
      Onto(order, p - base - 1);
      var k :| 0 <= k < |order| && order[k] == p - base - 1;
      t := k + 1;
    }
  }

  /** Control goes along the path from any of its lines. */
  lemma PathLeads(lines: seq<Line>, base: nat, order: seq<nat>, t: nat)
    requires ChainAt(lines, base, order) && t <= |order|
    ensures Leads(lines, Path(base, order)[t], Path(base, order)[t + 1])
  {
    ChainFollowsOrder(lines, base, order);
  }
}
