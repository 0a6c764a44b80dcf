/** In-order comparison of two instruction traces.

Both traces are reduced to the entries that change a register; these are paired
and compared. The module states exactly when an entry is a change, states the
verdict without the loop, proves that equal histories mean equal register files, and that entries which change
nothing cannot influence the verdict. */
module TraceCompare {
  import opened Arithmetic
  import opened Digits
  import opened Wrappers

  /** One element of the gpr column: empty, not of the form a:b, or a write. */
  datatype Update = Blank | Illegal | Write(rd: string, val: string)

  type Entry = seq<Update>
  type Regs = map<string, string>

  /** The result of `check_update_gpr`; `Exit` where the program stops. */
  datatype Check = Checked(change: bool, regs: Regs) | Exit

  predicate IsNumber(s: string) {
    s != "" && forall c :: c in s ==> IsHex(c)
  }

  // ----- check_update_gpr --------------------------------------------------

  function CheckFrom(gprUpdate: Entry, regs: Regs, change: bool): Check {
    if gprUpdate == [] then Checked(change, regs)
    else match gprUpdate[0]
      case Blank => Checked(false, regs)
      case Illegal => Exit
      case Write(rd, val) =>
        if rd in regs then CheckFrom(gprUpdate[1..], regs[rd := val], change || val != regs[rd])
        else if !IsNumber(val) then Exit
        else CheckFrom(gprUpdate[1..], regs[rd := val], change || ValueIn(val, 16) != 0)
  }

  function CheckUpdate(gprUpdate: Entry, regs: Regs): Check {
    CheckFrom(gprUpdate, regs, false)
  }

  method CheckUpdateGpr(gprUpdate: Entry, gpr: Regs) returns (r: Check)
    ensures r == CheckUpdate(gprUpdate, gpr)
  {
    var gprStateChange, regs := false, gpr;
    for i := 0 to |gprUpdate|
      invariant CheckUpdate(gprUpdate, gpr) == CheckFrom(gprUpdate[i..], regs, gprStateChange)
    {
      assert gprUpdate[i..][1..] == gprUpdate[i + 1..];
      match gprUpdate[i]
      case Blank => return Checked(false, regs);
      case Illegal => return Exit;
      case Write(rd, val) =>
        if rd in regs {
          if val != regs[rd] {
            gprStateChange := true;
          }
        } else {
          if !IsNumber(val) {
            return Exit;
          }
          if ValueIn(val, 16) != 0 {
            gprStateChange := true;
          }
        }
        regs := regs[rd := val];
    }
    r := Checked(gprStateChange, regs);
  }

  // ----- what the comparison is about --------------------------------------

  function StepRegs(e: Entry, regs: Regs): Regs {
    var c := CheckUpdate(e, regs);
    if c == Exit then regs else c.regs
  }

  predicate StepChanges(e: Entry, regs: Regs) {
    var c := CheckUpdate(e, regs);
    c.Checked? && c.change
  }

  // ----- one entry, without the loop ---------------------------------------

  ghost predicate AllWrites(e: Entry) {
    forall k :: 0 <= k < |e| ==> e[k].Write?
  }

  lemma {:induction false} ChecksInTurn(a: Entry, b: Entry, regs: Regs, change: bool)
    requires AllWrites(a)
    ensures var c := CheckFrom(a, regs, change);
            CheckFrom(a + b, regs, change) == if c == Exit then Exit else CheckFrom(b, c.regs, c.change)
  {
    if a == [] {
      assert a + b == b;
    } else {
      var rd, val := a[0].rd, a[0].val;
      assert (a + b)[0] == a[0] && (a + b)[1..] == a[1..] + b;
      if rd in regs {
        ChecksInTurn(a[1..], b, regs[rd := val], change || val != regs[rd]);
      } else if IsNumber(val) {
        ChecksInTurn(a[1..], b, regs[rd := val], change || ValueIn(val, 16) != 0);
      }
    }
  }

  /** An empty update ends the entry as no change, a malformed one ends the program;
      what stands behind does not matter. */
  lemma EndsEarly(a: Entry, b: Entry, regs: Regs)
    requires AllWrites(a)
    ensures CheckUpdate(a, regs) == Exit ==> CheckUpdate(a + b, regs) == Exit
    ensures CheckUpdate(a, regs).Checked? ==>
              && CheckUpdate(a + ([Blank] + b), regs) == Checked(false, CheckUpdate(a, regs).regs)
              && CheckUpdate(a + ([Illegal] + b), regs) == Exit
  {
    ChecksInTurn(a, b, regs, false);
    ChecksInTurn(a, [Blank] + b, regs, false);
    ChecksInTurn(a, [Illegal] + b, regs, false);
  }

  /** The entry's k-th update in the registers as they then are: a register that is not
      there counts as zero. */
  ghost predicate Alters(e: Entry, k: nat, regs: Regs)
    requires k < |e| && e[k].Write?
  {
    var s := StepRegs(e[..k], regs);
    if e[k].rd in s then e[k].val != s[e[k].rd] else IsNumber(e[k].val) && ValueIn(e[k].val, 16) != 0
  }

  /** The first write to a register that is not there, with a text that is no number. */
  ghost predicate NoNumber(e: Entry, k: nat, regs: Regs)
    requires k < |e| && AllWrites(e)
  {
    e[k].rd !in regs && !IsNumber(e[k].val) && forall j :: 0 <= j < k ==> e[j].rd != e[k].rd
  }

  /** No write to `r` from the k-th on. */
  ghost predicate NoWrite(e: Entry, r: string, k: nat)
    requires AllWrites(e)
  {
    forall j :: k <= j < |e| ==> e[j].rd != r
  }

  ghost predicate HoldsLastOf(e: Entry, s: Regs)
    requires AllWrites(e)
  {
    forall k {:trigger e[k]} :: 0 <= k < |e| && NoWrite(e, e[k].rd, k + 1) ==> e[k].rd in s && s[e[k].rd] == e[k].val
  }

  ghost predicate KeepsOthers(e: Entry, regs: Regs, s: Regs)
    requires AllWrites(e)
  {
    forall r :: NoWrite(e, r, 0) ==> (r in s <==> r in regs) && (r in s ==> s[r] == regs[r])
  }

  /** `check_update_gpr` on writes: it exits, or counts a change, exactly if one of them
      makes it; each register holds what was written last, and no other one is touched. */
  lemma {:induction false} CheckIs(e: Entry, regs: Regs)
    requires AllWrites(e)
    ensures CheckUpdate(e, regs) == Exit <==> exists k :: 0 <= k < |e| && NoNumber(e, k, regs)
    ensures CheckUpdate(e, regs).Checked? ==>
              && (StepChanges(e, regs) <==> exists k :: 0 <= k < |e| && Alters(e, k, regs))
              && HoldsLastOf(e, StepRegs(e, regs)) && KeepsOthers(e, regs, StepRegs(e, regs))
    decreases |e|
  {
    if e != [] {
      var n := |e| - 1;
      var a := e[..n];
      CheckIs(a, regs);
      ChecksInTurn(a, [e[n]], regs, false);
      assert a + [e[n]] == e && [e[n]][1..] == [];
      ExitStep(e, n, regs);
      if CheckUpdate(a, regs).Checked? {
        var s := StepRegs(a, regs);
        WrittenOrThere(a, e[n].rd, regs, s);
        if CheckUpdate(e, regs).Checked? {
          AltersStep(e, n, regs);
          assert StepRegs(e, regs) == s[e[n].rd := e[n].val];
          LastStep(e, n, regs, s);
        }
      }
    }
  }

  lemma ExitStep(e: Entry, n: nat, regs: Regs)
    requires AllWrites(e) && |e| == n + 1
    ensures (exists k :: 0 <= k < |e| && NoNumber(e, k, regs)) <==>
            (exists k :: 0 <= k < n && NoNumber(e[..n], k, regs)) || NoNumber(e, n, regs)
  {
    forall k | 0 <= k < n
      ensures NoNumber(e, k, regs) <==> NoNumber(e[..n], k, regs)
    {
      assert e[..n][k] == e[k] && forall j :: 0 <= j < k ==> e[..n][j] == e[j];
    }
  }

  lemma AltersStep(e: Entry, n: nat, regs: Regs)
    requires AllWrites(e) && |e| == n + 1
    ensures (exists k :: 0 <= k < |e| && Alters(e, k, regs)) <==>
            (exists k :: 0 <= k < n && Alters(e[..n], k, regs)) || Alters(e, n, regs)
  {
    forall k | 0 <= k < n
      ensures Alters(e, k, regs) <==> Alters(e[..n], k, regs)
    {
      assert e[..n][k] == e[k] && e[..n][..k] == e[..k];
    }
  }

  lemma WrittenOrThere(e: Entry, r: string, regs: Regs, s: Regs)
    requires AllWrites(e) && HoldsLastOf(e, s) && KeepsOthers(e, regs, s)
    ensures r in s <==> r in regs || !NoWrite(e, r, 0)
  {
    if !NoWrite(e, r, 0) {
      var k := LastTo(e, r);
      assert NoWrite(e, e[k].rd, k + 1);
    }
  }

  lemma {:induction false} LastTo(e: Entry, r: string) returns (k: nat)
    requires AllWrites(e) && !NoWrite(e, r, 0)
    ensures k < |e| && e[k].rd == r && NoWrite(e, r, k + 1)
  {
    k := |e| - 1;
    while e[k].rd != r
      invariant k < |e| && NoWrite(e, r, k + 1)
      decreases k
    {
      k := k - 1;
    }
  }

  lemma NoWriteStep(e: Entry, n: nat, r: string, k: nat)
    requires AllWrites(e) && |e| == n + 1 && k <= n
    ensures NoWrite(e, r, k) <==> NoWrite(e[..n], r, k) && e[n].rd != r
  {
    var a := e[..n];
    if NoWrite(e, r, k) {
      forall j | k <= j < n
        ensures a[j].rd != r
      {
        assert a[j] == e[j];
      }
    }
    if NoWrite(a, r, k) && e[n].rd != r {
      forall j | k <= j < |e|
        ensures e[j].rd != r
      {
        assert j < n ==> a[j] == e[j];
      }
    }
  }

  lemma LastStep(e: Entry, n: nat, regs: Regs, s: Regs)
    requires AllWrites(e) && |e| == n + 1 && HoldsLastOf(e[..n], s) && KeepsOthers(e[..n], regs, s)
    ensures HoldsLastOf(e, s[e[n].rd := e[n].val]) && KeepsOthers(e, regs, s[e[n].rd := e[n].val])
  {
    var a, s' := e[..n], s[e[n].rd := e[n].val];
    forall k | 0 <= k < |e| && NoWrite(e, e[k].rd, k + 1)
      ensures e[k].rd in s' && s'[e[k].rd] == e[k].val
    {
      if k < n {
        NoWriteStep(e, n, e[k].rd, k + 1);
        assert a[k] == e[k] && NoWrite(a, a[k].rd, k + 1);
      }
    }
    forall r | NoWrite(e, r, 0)
      ensures (r in s' <==> r in regs) && (r in s' ==> s'[r] == regs[r])
    {
      NoWriteStep(e, n, r, 0);
    }
  }

  /** The registers after the first `i` entries. */
  function RegsAt(t: seq<Entry>, i: nat): Regs
    requires i <= |t|
  {
    if i == 0 then map[] else StepRegs(t[i - 1], RegsAt(t, i - 1))
  }

  /** The entries among the first `i` that change the state. */
  function ChangesTo(t: seq<Entry>, i: nat): seq<Entry>
    requires i <= |t|
  {
    if i == 0 then []
    else ChangesTo(t, i - 1) + if StepChanges(t[i - 1], RegsAt(t, i - 1)) then [t[i - 1]] else []
  }

  function Changes(t: seq<Entry>): seq<Entry> {
    ChangesTo(t, |t|)
  }

  predicate LastIsChange(t: seq<Entry>) {
    t != [] && StepChanges(t[|t| - 1], RegsAt(t, |t| - 1))
  }

  lemma {:induction false} ChangesGrow(t: seq<Entry>, i: nat, j: nat)
    requires i <= j <= |t|
    ensures ChangesTo(t, i) <= ChangesTo(t, j)
  {
    if i < j {
      ChangesGrow(t, i, j - 1);
    }
  }

  /** The number of places where two histories agree. */
  function Agreements(a: seq<Entry>, b: seq<Entry>): nat
    requires |a| == |b|
  {
    if a == [] then 0
    else Agreements(a[..|a| - 1], b[..|a| - 1]) + if a[|a| - 1] == b[|a| - 1] then 1 else 0
  }

  lemma {:induction false} AgreementsAre(a: seq<Entry>, b: seq<Entry>)
    requires |a| == |b|
    ensures Agreements(a, b) <= |a| && (Agreements(a, b) == |a| <==> a == b)
  {
    if a != [] {
      var n := |a| - 1;
      AgreementsAre(a[..n], b[..n]);
      assert a == a[..n] + [a[n]] && b == b[..n] + [b[n]];
    }
  }

  lemma AgreementsStep(a: seq<Entry>, b: seq<Entry>, x: Entry, y: Entry)
    requires |a| == |b|
    ensures Agreements(a + [x], b + [y]) == Agreements(a, b) + if x == y then 1 else 0
  {
    assert (a + [x])[..|a|] == a && (b + [y])[..|a|] == b;
  }

  // ----- the comparison ----------------------------------------------------

  /** An entry of trace 1 or of trace 2. */
  datatype Place = InTrace1(entry: nat) | InTrace2(entry: nat)

  /** The counts of the report, or where the program exits. */
  datatype Verdict = Report(matched: nat, mismatched: nat) | Stopped(at: Place) {
    predicate Passed() {
      Report? && mismatched == 0
    }
  }

  predicate ExitsAt(t: seq<Entry>, k: nat) {
    k < |t| && CheckUpdate(t[k], RegsAt(t, k)) == Exit
  }

  /** The first entry at which `check_update_gpr` would exit. */
  function FirstExit(t: seq<Entry>, from: nat): (k: nat)
    requires from <= |t|
    ensures from <= k <= |t|
    decreases |t| - from
  {
    if from == |t| || ExitsAt(t, from) then from else FirstExit(t, from + 1)
  }

  ghost predicate NoExit(t: seq<Entry>, i: nat) {
    i <= |t| && FirstExit(t, 0) == FirstExit(t, i)
  }

  /** Moves through the other trace until an entry changes its state. */
  method NextChange(t: seq<Entry>, from: nat, regs: Regs) returns (ok: bool, changed: bool, i: nat, regs': Regs)
    requires from <= |t| && regs == RegsAt(t, from) && NoExit(t, from)
    ensures from <= i <= |t| && NoExit(t, i)
    ensures ok ==> regs' == RegsAt(t, i)
    ensures ok && changed ==> from < i && ChangesTo(t, i) == ChangesTo(t, from) + [t[i - 1]]
                              && StepChanges(t[i - 1], RegsAt(t, i - 1))
    ensures ok && !changed ==> i == |t| && ChangesTo(t, |t|) == ChangesTo(t, from)
                               && (from < |t| ==> !LastIsChange(t))
    ensures !ok ==> ExitsAt(t, i) && ChangesTo(t, i) == ChangesTo(t, from)
  {
    changed, i, regs' := false, from, regs;
    while !changed && i < |t|
      invariant from <= i <= |t| && regs' == RegsAt(t, i) && NoExit(t, i)
      invariant changed ==> from < i && StepChanges(t[i - 1], RegsAt(t, i - 1))
      invariant ChangesTo(t, i) == ChangesTo(t, from) + if changed then [t[i - 1]] else []
      invariant !changed && from < i ==> !StepChanges(t[i - 1], RegsAt(t, i - 1))
      decreases |t| - i, !changed
    {
      var c := CheckUpdateGpr(t[i], regs');
      if c == Exit {
        ok := false;
        return;
      }
      regs' := c.regs;
      changed := c.change;
      i := i + 1;
    }
    ok := true;
  }

  /** The state of the main loop: so far every change of trace 1 was paired with
      one of trace 2, and trace 2 has not been used up. */
  ghost predicate Paired(t1: seq<Entry>, t2: seq<Entry>, i1: nat, i2: nat, matched: nat, mismatched: nat) {
    && NoExit(t1, i1) && NoExit(t2, i2)
    && |ChangesTo(t1, i1)| == |ChangesTo(t2, i2)| == matched + mismatched
    && matched == Agreements(ChangesTo(t1, i1), ChangesTo(t2, i2))
    && (i2 == |t2| ==> t2 == [] || LastIsChange(t2))
  }

  /** The entry with the n-th change (from zero) among the first `i`. */
  function Index(t: seq<Entry>, i: nat, n: nat): (k: nat)
    requires i <= |t| && n < |ChangesTo(t, i)|
    ensures k < i
  {
    if n < |ChangesTo(t, i - 1)| then Index(t, i - 1, n) else i - 1
  }

  /** The report as a function of the history of trace 1 and of trace 2. Nobody
      looks at what trace 1 does after the last entry of trace 2. */
  function Expected(c1: seq<Entry>, t2: seq<Entry>): Verdict {
    var c2 := Changes(t2);
    var m := Min(|c1|, |c2|);
    var agreed := Agreements(c1[..m], c2[..m]);
    var unpaired := if |c2| < |c1| && !LastIsChange(t2) then 1 else 0;
    var leftOver := if |c1| < |c2| then |t2| - Index(t2, |t2|, |c1|) else 0;
    AgreementsAre(c1[..m], c2[..m]);
    Report(agreed, m - agreed + unpaired + leftOver)
  }

  lemma LastChangeCounts(t: seq<Entry>)
    requires LastIsChange(t)
    ensures Changes(t) != []
  {
  }

  /** The verdict, exactly. */
  lemma PassedIff(c1: seq<Entry>, t2: seq<Entry>)
    ensures var c2 := Changes(t2);
            && (Expected(c1, t2).Passed() <==> c2 <= c1 && (c1 == c2 || (c2 != [] && LastIsChange(t2))))
            && (Expected(c1, t2).Passed() ==> Expected(c1, t2).matched == |c2|)
  {
    var c2 := Changes(t2);
    var m := Min(|c1|, |c2|);
    AgreementsAre(c1[..m], c2[..m]);
    if LastIsChange(t2) {
      LastChangeCounts(t2);
    }
    if |c2| <= |c1| {
      assert c2[..m] == c2;
      assert |c1| == |c2| ==> c1[..m] == c1;
    }
  }

  /** Where the program exits. Neither trace is read further than the changes of the
      other require; the end of trace 2 with a pair ends the comparison. */
  function StopsAt(t1: seq<Entry>, t2: seq<Entry>): Option<Place> {
    var e1, e2 := FirstExit(t1, 0), FirstExit(t2, 0);
    var n1, n2 := |ChangesTo(t1, e1)|, |ChangesTo(t2, e2)|;
    if n1 > n2 then if e2 < |t2| then Some(InTrace2(e2)) else None
    else if n1 == n2 && e2 == |t2| && LastIsChange(t2) then None
    else if e1 < |t1| then Some(InTrace1(e1))
    else if n1 == n2 && e2 < |t2| then Some(InTrace2(e2))
    else None
  }

  method CompareTraceCsv(t1: seq<Entry>, t2: seq<Entry>) returns (r: Verdict)
    ensures r == match StopsAt(t1, t2)
                 case Some(place) => Stopped(place)
                 case None => Expected(Changes(t1), t2)
  {
    var matchedCnt, mismatchCnt := 0, 0;
    var trace1Index, trace2Index := 0, 0;
    var gprVal1: Regs, gprVal2: Regs := map[], map[];
    while trace1Index < |t1|
      invariant Paired(t1, t2, trace1Index, trace2Index, matchedCnt, mismatchCnt)
      invariant trace2Index == |t2| ==> t2 == []
      invariant gprVal1 == RegsAt(t1, trace1Index) && gprVal2 == RegsAt(t2, trace2Index)
    {
      var trace := t1[trace1Index];
      var c1 := CheckUpdateGpr(trace, gprVal1);
      if c1 == Exit {
        StopsInTrace1(t1, t2, trace1Index, trace2Index);
        return Stopped(InTrace1(trace1Index));
      }
      PassedEntry(t1, trace1Index);
      gprVal1 := c1.regs;
      ghost var was1, was2 := trace1Index, trace2Index;
      trace1Index := trace1Index + 1;
      if !c1.change {
        continue;
      }
      var ok, change2;
      ok, change2, trace2Index, gprVal2 := NextChange(t2, trace2Index, gprVal2);
      if !ok {
        StopsInTrace2(t1, t2, trace1Index, trace2Index);
        return Stopped(InTrace2(trace2Index));
      }
      if !change2 {
        NoStopUnpaired(t1, t2, was1, was2);
        EndUnpaired(t1, t2, was1, was2, matchedCnt, mismatchCnt);
        return Report(matchedCnt, mismatchCnt + 1);
      }
      OnePair(t1, t2, was1, was2, trace2Index, matchedCnt, mismatchCnt);
      if trace != t2[trace2Index - 1] {
        mismatchCnt := mismatchCnt + 1;
      } else {
        matchedCnt := matchedCnt + 1;
      }
      if trace2Index == |t2| {
        NoStopPaired(t1, t2, trace1Index);
        EndPaired(t1, t2, trace1Index, matchedCnt, mismatchCnt);
        return Report(matchedCnt, mismatchCnt);
      }
    }
    r := LeftOver(t1, t2, trace2Index, gprVal2, matchedCnt, mismatchCnt);
  }

  /** An entry at which the program does not exit. */
  lemma PassedEntry(t: seq<Entry>, i: nat)
    requires i < |t| && NoExit(t, i) && !ExitsAt(t, i)
    ensures NoExit(t, i + 1) && RegsAt(t, i + 1) == CheckUpdate(t[i], RegsAt(t, i)).regs
    ensures StepChanges(t[i], RegsAt(t, i)) == CheckUpdate(t[i], RegsAt(t, i)).change
    ensures ChangesTo(t, i + 1) == if CheckUpdate(t[i], RegsAt(t, i)).change then ChangesTo(t, i) + [t[i]] else ChangesTo(t, i)
  {
  }

  lemma OnePair(t1: seq<Entry>, t2: seq<Entry>, i: nat, i2: nat, i2': nat, matched: nat, mismatched: nat)
    requires 0 < i2' && Paired(t1, t2, i, i2, matched, mismatched) && NoExit(t1, i + 1) && NoExit(t2, i2')
    requires ChangesTo(t1, i + 1) == ChangesTo(t1, i) + [t1[i]]
    requires ChangesTo(t2, i2') == ChangesTo(t2, i2) + [t2[i2' - 1]] && StepChanges(t2[i2' - 1], RegsAt(t2, i2' - 1))
    ensures var same := t1[i] == t2[i2' - 1];
            Paired(t1, t2, i + 1, i2', matched + (if same then 1 else 0), mismatched + if same then 0 else 1)
  {
    AgreementsStep(ChangesTo(t1, i), ChangesTo(t2, i2), t1[i], t2[i2' - 1]);
  }

  /** What remains of trace 2 after trace 1 has ended. */
  method LeftOver(t1: seq<Entry>, t2: seq<Entry>, trace2Index: nat, gprVal2: Regs, matchedCnt: nat, mismatchCnt: nat)
    returns (r: Verdict)
    requires Paired(t1, t2, |t1|, trace2Index, matchedCnt, mismatchCnt) && gprVal2 == RegsAt(t2, trace2Index)
    ensures r == match StopsAt(t1, t2)
                 case Some(place) => Stopped(place)
                 case None => Expected(Changes(t1), t2)
  {
    var ok, change2, i, regs' := NextChange(t2, trace2Index, gprVal2);
    if !ok {
      StopsInTrace2(t1, t2, |t1|, i);
      return Stopped(InTrace2(i));
    }
    if change2 {
      NoStopLeftOver(t1, t2, i);
      EndLeftOver(t1, t2, trace2Index, i, matchedCnt, mismatchCnt);
      return Report(matchedCnt, mismatchCnt + (|t2| - (i - 1)));
    }
    NoStopPaired(t1, t2, |t1|);
    EndPaired(t1, t2, |t1|, matchedCnt, mismatchCnt);
    r := Report(matchedCnt, mismatchCnt);
  }

  /** An exit in trace 1, with all changes before it paired. */
  lemma StopsInTrace1(t1: seq<Entry>, t2: seq<Entry>, i1: nat, i2: nat)
    requires NoExit(t1, i1) && ExitsAt(t1, i1) && NoExit(t2, i2) && (i2 == |t2| ==> t2 == [])
    requires |ChangesTo(t1, i1)| == |ChangesTo(t2, i2)|
    ensures StopsAt(t1, t2) == Some(InTrace1(i1))
  {
    ChangesGrow(t2, i2, FirstExit(t2, 0));
    if i2 < |t2| {
      ChangesGrow(t2, i2, |t2| - 1);
    }
  }

  /** An exit in trace 2 while looking for the partner of a change of trace 1, or for
      what is left over. */
  lemma StopsInTrace2(t1: seq<Entry>, t2: seq<Entry>, i1: nat, i2: nat)
    requires NoExit(t1, i1) && NoExit(t2, i2) && ExitsAt(t2, i2)
    requires |ChangesTo(t1, i1)| > |ChangesTo(t2, i2)| || (i1 == |t1| && |ChangesTo(t1, i1)| == |ChangesTo(t2, i2)|)
    ensures StopsAt(t1, t2) == Some(InTrace2(i2))
  {
    ChangesGrow(t1, i1, FirstExit(t1, 0));
  }

  /** Both traces, or all of trace 2, have been paired. */
  lemma EndPaired(t1: seq<Entry>, t2: seq<Entry>, i1: nat, matched: nat, mismatched: nat)
    requires i1 <= |t1| && (i1 == |t1| || LastIsChange(t2))
    requires |ChangesTo(t1, i1)| == |Changes(t2)| == matched + mismatched
    requires matched == Agreements(ChangesTo(t1, i1), Changes(t2))
    ensures Report(matched, mismatched) == Expected(Changes(t1), t2)
  {
    ChangesGrow(t1, i1, |t1|);
    var c1, c2 := Changes(t1), Changes(t2);
    assert c1[..|c2|] == ChangesTo(t1, i1) && c2[..|c2|] == c2;
  }

  lemma NoStopPaired(t1: seq<Entry>, t2: seq<Entry>, i1: nat)
    requires NoExit(t1, i1) && NoExit(t2, |t2|) && (i1 == |t1| || LastIsChange(t2))
    requires |ChangesTo(t1, i1)| == |Changes(t2)|
    ensures StopsAt(t1, t2) == None
  {
    ChangesGrow(t1, i1, FirstExit(t1, 0));
  }

  /** A change of trace 1 for which trace 2 has none left. */
  lemma EndUnpaired(t1: seq<Entry>, t2: seq<Entry>, i: nat, i2: nat, matched: nat, mismatched: nat)
    requires Paired(t1, t2, i, i2, matched, mismatched) && ChangesTo(t2, |t2|) == ChangesTo(t2, i2)
    requires i < |t1| && ChangesTo(t1, i + 1) == ChangesTo(t1, i) + [t1[i]]
    requires if i2 < |t2| then !LastIsChange(t2) else t2 == []
    ensures Report(matched, mismatched + 1) == Expected(Changes(t1), t2)
  {
    ChangesGrow(t1, i, |t1|);
    ChangesGrow(t1, i + 1, |t1|);
    LongerHistory(Changes(t1), t2, ChangesTo(t1, i), matched, mismatched);
  }

  lemma LongerHistory(c1: seq<Entry>, t2: seq<Entry>, paired: seq<Entry>, matched: nat, mismatched: nat)
    requires paired <= c1 && |paired| == |Changes(t2)| < |c1| && !LastIsChange(t2)
    requires |paired| == matched + mismatched && matched == Agreements(paired, Changes(t2))
    ensures Report(matched, mismatched + 1) == Expected(c1, t2)
  {
    var c2 := Changes(t2);
    assert c1[..|c2|] == paired && c2[..|c2|] == c2;
  }

  lemma NoStopUnpaired(t1: seq<Entry>, t2: seq<Entry>, i: nat, i2: nat)
    requires NoExit(t1, i + 1) && ChangesTo(t1, i + 1) == ChangesTo(t1, i) + [t1[i]]
    requires NoExit(t2, |t2|) && i2 <= |t2| && ChangesTo(t2, |t2|) == ChangesTo(t2, i2) && |ChangesTo(t1, i)| == |ChangesTo(t2, i2)|
    ensures StopsAt(t1, t2) == None
  {
    ChangesGrow(t1, i + 1, FirstExit(t1, 0));
  }

  /** A change of trace 2 after trace 1 has ended. */
  lemma EndLeftOver(t1: seq<Entry>, t2: seq<Entry>, i2: nat, i: nat, matched: nat, mismatched: nat)
    requires i2 < i <= |t2| && ChangesTo(t2, i) == ChangesTo(t2, i2) + [t2[i - 1]]
    requires StepChanges(t2[i - 1], RegsAt(t2, i - 1))
    requires |ChangesTo(t2, i2)| == |Changes(t1)| == matched + mismatched
    requires matched == Agreements(Changes(t1), ChangesTo(t2, i2))
    ensures Report(matched, mismatched + (|t2| - (i - 1))) == Expected(Changes(t1), t2)
  {
    ChangesGrow(t2, i2, |t2|);
    ChangesGrow(t2, i, |t2|);
    IndexIs(t2, |t2|, i, |Changes(t1)|);
    ShorterHistory(Changes(t1), t2, ChangesTo(t2, i2), i, matched, mismatched);
  }

  lemma ShorterHistory(c1: seq<Entry>, t2: seq<Entry>, paired: seq<Entry>, i: nat, matched: nat, mismatched: nat)
    requires paired <= Changes(t2) && |paired| == |c1| < |Changes(t2)| && 0 < i <= |t2| && Index(t2, |t2|, |c1|) == i - 1
    requires |paired| == matched + mismatched && matched == Agreements(c1, paired)
    ensures Report(matched, mismatched + (|t2| - (i - 1))) == Expected(c1, t2)
  {
    var c2 := Changes(t2);
    assert c2[..|c1|] == paired && c1[..|c1|] == c1;
  }

  lemma NoStopLeftOver(t1: seq<Entry>, t2: seq<Entry>, i: nat)
    requires NoExit(t1, |t1|) && NoExit(t2, i) && |ChangesTo(t2, i)| > |Changes(t1)|
    ensures StopsAt(t1, t2) == None
  {
    ChangesGrow(t2, i, FirstExit(t2, 0));
  }

  lemma {:induction false} IndexIs(t: seq<Entry>, j: nat, i: nat, n: nat)
    requires 0 < i <= j <= |t| && |ChangesTo(t, i)| == n + 1 && StepChanges(t[i - 1], RegsAt(t, i - 1))
    ensures n < |ChangesTo(t, j)| && Index(t, j, n) == i - 1
  {
    ChangesGrow(t, i, j);
    if i < j {
      IndexIs(t, j - 1, i, n);
    }
  }

  // ----- histories and register files --------------------------------------

  /** Fixed-width lower-case values; an empty update stands alone. */
  predicate CanonicalVal(v: string, w: nat) {
    |v| == w && v != "" && forall c :: c in v ==> IsLowHex(c)
  }

  predicate WritesOnly(e: Entry, w: nat) {
    forall k :: 0 <= k < |e| ==> e[k].Write? && CanonicalVal(e[k].val, w)
  }

  predicate Canonical(t: seq<Entry>, w: nat) {
    forall i :: 0 <= i < |t| ==> t[i] == [Blank] || WritesOnly(t[i], w)
  }

  predicate CanonicalRegs(regs: Regs, w: nat) {
    forall r :: r in regs ==> CanonicalVal(regs[r], w)
  }

  /** The value of a register; one never written is zero. */
  function RegVal(regs: Regs, r: string): nat {
    if r in regs && IsNumber(regs[r]) then ValueIn(regs[r], 16) else 0
  }

  ghost predicate Agree(a: Regs, b: Regs) {
    forall r :: RegVal(a, r) == RegVal(b, r)
  }

  /** A write is counted as a change exactly if the value differs. */
  lemma WriteChangesIff(regs: Regs, rd: string, val: string, w: nat)
    requires CanonicalRegs(regs, w) && CanonicalVal(val, w)
    ensures IsNumber(val) && (if rd in regs then val != regs[rd] else ValueIn(val, 16) != 0) == (ValueIn(val, 16) != RegVal(regs, rd))
  {
    if rd in regs && ValueIn(val, 16) == ValueIn(regs[rd], 16) {
      SameWidthSameValue(val, regs[rd]);
    }
  }

  lemma {:induction false} AgreeingEntries(e: Entry, a: Regs, b: Regs, change: bool, w: nat)
    requires WritesOnly(e, w) && CanonicalRegs(a, w) && CanonicalRegs(b, w) && Agree(a, b)
    ensures var x, y := CheckFrom(e, a, change), CheckFrom(e, b, change);
            && x.Checked? && y.Checked? && x.change == y.change
            && CanonicalRegs(x.regs, w) && CanonicalRegs(y.regs, w) && Agree(x.regs, y.regs)
  {
    if e != [] {
      var rd, val := e[0].rd, e[0].val;
      WriteChangesIff(a, rd, val, w);
      WriteChangesIff(b, rd, val, w);
      assert RegVal(a, rd) == RegVal(b, rd);
      var change' := change || ValueIn(val, 16) != RegVal(a, rd);
      var a', b' := a[rd := val], b[rd := val];
      forall r
        ensures RegVal(a', r) == RegVal(b', r)
      {
        assert RegVal(a, r) == RegVal(b, r);
      }
      AgreeingEntries(e[1..], a', b', change', w);
    }
  }

  lemma {:induction false} UnchangingEntry(e: Entry, regs: Regs, change: bool, w: nat)
    requires WritesOnly(e, w) && CanonicalRegs(regs, w)
    ensures var x := CheckFrom(e, regs, change);
            && x.Checked? && (change ==> x.change)
            && (!x.change ==> Agree(regs, x.regs))
  {
    if e != [] {
      var rd, val := e[0].rd, e[0].val;
      WriteChangesIff(regs, rd, val, w);
      var change' := change || ValueIn(val, 16) != RegVal(regs, rd);
      UnchangingEntry(e[1..], regs[rd := val], change', w);
      var x := CheckFrom(e, regs, change);
      if !x.change {
        forall r
          ensures RegVal(regs, r) == RegVal(x.regs, r)
        {
          assert RegVal(regs[rd := val], r) == RegVal(x.regs, r);
        }
      }
    }
  }

  lemma AgreeStep(e: Entry, a: Regs, b: Regs, w: nat)
    requires e == [Blank] || WritesOnly(e, w)
    requires CanonicalRegs(a, w) && CanonicalRegs(b, w) && Agree(a, b)
    ensures CanonicalRegs(StepRegs(e, a), w) && CanonicalRegs(StepRegs(e, b), w)
    ensures Agree(StepRegs(e, a), StepRegs(e, b)) && StepChanges(e, a) == StepChanges(e, b)
    ensures !StepChanges(e, a) ==> Agree(a, StepRegs(e, a))
  {
    if e != [Blank] {
      AgreeingEntries(e, a, b, false, w);
      UnchangingEntry(e, a, false, w);
    }
  }

  /** For canonical values: an entry is a change exactly if one of its writes gives its
      register a value that the register does not hold at that point, zero if it was never
      written; afterwards every register holds what was written to it last. */
  lemma ChangesIff(e: Entry, regs: Regs, w: nat)
    requires WritesOnly(e, w) && CanonicalRegs(regs, w)
    ensures StepChanges(e, regs) <==>
            exists k :: 0 <= k < |e| && ValueIn(e[k].val, 16) != RegVal(StepRegs(e[..k], regs), e[k].rd)
    ensures HoldsLastOf(e, StepRegs(e, regs)) && KeepsOthers(e, regs, StepRegs(e, regs))
  {
    UnchangingEntry(e, regs, false, w);
    CheckIs(e, regs);
    forall k | 0 <= k < |e|
      ensures Alters(e, k, regs) <==> ValueIn(e[k].val, 16) != RegVal(StepRegs(e[..k], regs), e[k].rd)
    {
      AltersIff(e, k, regs, w);
    }
  }

  lemma AltersIff(e: Entry, k: nat, regs: Regs, w: nat)
    requires WritesOnly(e, w) && CanonicalRegs(regs, w) && k < |e|
    ensures IsNumber(e[k].val)
    ensures Alters(e, k, regs) <==> ValueIn(e[k].val, 16) != RegVal(StepRegs(e[..k], regs), e[k].rd)
  {
    AgreeStep(e[..k], regs, regs, w);
    WriteChangesIff(StepRegs(e[..k], regs), e[k].rd, e[k].val, w);
  }

  lemma {:induction false} RegsStayCanonical(t: seq<Entry>, i: nat, w: nat)
    requires Canonical(t, w) && i <= |t|
    ensures CanonicalRegs(RegsAt(t, i), w)
  {
    if i > 0 {
      RegsStayCanonical(t, i - 1, w);
      AgreeStep(t[i - 1], RegsAt(t, i - 1), RegsAt(t, i - 1), w);
    }
  }

  /** Equal histories mean equal register files. */
  lemma {:induction false} HistoriesDetermineRegs(t1: seq<Entry>, t2: seq<Entry>, i1: nat, i2: nat, w: nat)
    requires Canonical(t1, w) && Canonical(t2, w) && i1 <= |t1| && i2 <= |t2|
    requires ChangesTo(t1, i1) == ChangesTo(t2, i2)
    ensures Agree(RegsAt(t1, i1), RegsAt(t2, i2))
    decreases i1 + i2
  {
    if i1 > 0 && !StepChanges(t1[i1 - 1], RegsAt(t1, i1 - 1)) {
      RegsStayCanonical(t1, i1 - 1, w);
      AgreeStep(t1[i1 - 1], RegsAt(t1, i1 - 1), RegsAt(t1, i1 - 1), w);
      HistoriesDetermineRegs(t1, t2, i1 - 1, i2, w);
    } else if i2 > 0 && !StepChanges(t2[i2 - 1], RegsAt(t2, i2 - 1)) {
      RegsStayCanonical(t2, i2 - 1, w);
      AgreeStep(t2[i2 - 1], RegsAt(t2, i2 - 1), RegsAt(t2, i2 - 1), w);
      HistoriesDetermineRegs(t1, t2, i1, i2 - 1, w);
    } else if i1 > 0 {
      var c1, c2 := ChangesTo(t1, i1 - 1), ChangesTo(t2, i2 - 1);
      assert c1 == (c1 + [t1[i1 - 1]])[..|c1|] && c2 == (c2 + [t2[i2 - 1]])[..|c2|];
      assert t1[i1 - 1] == (c1 + [t1[i1 - 1]])[|c1|] == t2[i2 - 1];
      RegsStayCanonical(t1, i1 - 1, w);
      RegsStayCanonical(t2, i2 - 1, w);
      HistoriesDetermineRegs(t1, t2, i1 - 1, i2 - 1, w);
      AgreeStep(t1[i1 - 1], RegsAt(t1, i1 - 1), RegsAt(t2, i2 - 1), w);
    }
  }

  /** What the verdict is for: if the comparison passes, the two machines agree wherever
      as many changes have happened in both. */
  lemma PassedMeansAgree(t1: seq<Entry>, t2: seq<Entry>, i1: nat, i2: nat, w: nat)
    requires Canonical(t1, w) && Canonical(t2, w) && i1 <= |t1| && i2 <= |t2|
    requires Expected(Changes(t1), t2).Passed() && |ChangesTo(t1, i1)| == |ChangesTo(t2, i2)|
    ensures Agree(RegsAt(t1, i1), RegsAt(t2, i2))
  {
    PassedIff(Changes(t1), t2);
    ChangesGrow(t1, i1, |t1|);
    ChangesGrow(t2, i2, |t2|);
    HistoriesDetermineRegs(t1, t2, i1, i2, w);
  }

  /** An entry that changes nothing, put anywhere into a trace, does not show in
      its history, whatever follows. */
  lemma StutterIsInvisible(t: seq<Entry>, k: nat, e: Entry, w: nat)
    requires k <= |t| && Canonical(t, w) && (e == [Blank] || WritesOnly(e, w))
    requires !StepChanges(e, RegsAt(t, k))
    ensures Changes(t[..k] + [e] + t[k..]) == Changes(t)
  {
    StutterStep(t, k, e, |t|, w);
    assert |t[..k] + [e] + t[k..]| == |t| + 1;
  }

  lemma {:induction false} SamePrefix(t: seq<Entry>, u: seq<Entry>, i: nat)
    requires i <= |t| && i <= |u| && t[..i] == u[..i]
    ensures RegsAt(t, i) == RegsAt(u, i) && ChangesTo(t, i) == ChangesTo(u, i)
  {
    if i > 0 {
      assert t[..i - 1] == t[..i][..i - 1] && u[..i - 1] == u[..i][..i - 1];
      assert t[i - 1] == t[..i][i - 1] && u[i - 1] == u[..i][i - 1];
      SamePrefix(t, u, i - 1);
    }
  }

  lemma {:induction false} StutterStep(t: seq<Entry>, k: nat, e: Entry, i: nat, w: nat)
    requires k <= i <= |t| && Canonical(t, w) && (e == [Blank] || WritesOnly(e, w))
    requires !StepChanges(e, RegsAt(t, k))
    ensures var u := t[..k] + [e] + t[k..];
            && Canonical(u, w)
            && ChangesTo(u, i + 1) == ChangesTo(t, i) && Agree(RegsAt(u, i + 1), RegsAt(t, i))
  {
    var u := t[..k] + [e] + t[k..];
    if i == k {
      assert u[..k] == t[..k] && u[k] == e;
      SamePrefix(t, u, k);
      RegsStayCanonical(t, k, w);
      AgreeStep(e, RegsAt(t, k), RegsAt(t, k), w);
      assert ChangesTo(u, k + 1) == ChangesTo(u, k) + [];
    } else {
      StutterStep(t, k, e, i - 1, w);
      assert u[i] == t[i - 1];
      RegsStayCanonical(u, i, w);
      RegsStayCanonical(t, i - 1, w);
      AgreeStep(t[i - 1], RegsAt(u, i), RegsAt(t, i - 1), w);
    }
  }

  /** Such entries in trace 1 leave the whole report as it was. */
  lemma StutterKeepsReport(t1: seq<Entry>, t2: seq<Entry>, k: nat, e: Entry, w: nat)
    requires k <= |t1| && Canonical(t1, w) && (e == [Blank] || WritesOnly(e, w))
    requires !StepChanges(e, RegsAt(t1, k))
    ensures Expected(Changes(t1[..k] + [e] + t1[k..]), t2) == Expected(Changes(t1), t2)
  {
    StutterIsInvisible(t1, k, e, w);
  }

  /** Traces of canonical values never stop the program, so the report always comes. */
  lemma CanonicalNeverStops(t1: seq<Entry>, t2: seq<Entry>, w: nat)
    requires Canonical(t1, w) && Canonical(t2, w)
    ensures StopsAt(t1, t2) == None
  {
    CanonicalHasNoExit(t1, 0, w);
    CanonicalHasNoExit(t2, 0, w);
  }

  lemma {:induction false} CanonicalHasNoExit(t: seq<Entry>, i: nat, w: nat)
    requires Canonical(t, w) && i <= |t|
    ensures FirstExit(t, i) == |t|
    decreases |t| - i
  {
    if i < |t| {
      RegsStayCanonical(t, i, w);
      if t[i] != [Blank] {
        UnchangingEntry(t[i], RegsAt(t, i), false, w);
      }
      CanonicalHasNoExit(t, i + 1, w);
    }
  }
}
