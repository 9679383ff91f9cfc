/** Holding a regex program to its header, and what that means for every run of it. */
module RegexCheck {
  import opened Options
  import opened Bytes
  import opened RegexBytecode
  import opened RegexEncoding
  import opened RegexLayout

  /** Where an instruction can jump. */
  function Targets(i: Insn): seq<nat> {
    match i
    case Alternation(secondary, _, _) => [secondary]
    case Jump32(t) => [t]
    case EndLoop(t) => [t]
    case EndSimpleLoop(t) => [t]
    case Lookaround(_, _, _, _, _, continuation) => [continuation]
    case BeginLoop(_, _, _, _, _, _, _, notTaken) => [notTaken]
    case BeginSimpleLoop(_, notTaken) => [notTaken]
    case Width1Loop(_, _, _, _, notTaken) => [notTaken]
    case _ => []
  }

  /** The capture group an instruction names. Lookarounds and loops carry group ranges too, but
      those are not held to the header. */
  function GroupOf(i: Insn): Option<nat> {
    match i
    case BeginMarked(g) => Some(g)
    case EndMarked(g) => Some(g)
    case BackRef(g) => Some(g)
    case _ => None
  }

  function LoopOf(i: Insn): Option<nat> {
    match i
    case BeginLoop(id, _, _, _, _, _, _, _) => Some(id)
    case Width1Loop(id, _, _, _, _) => Some(id)
    case _ => None
  }

  function End(insns: seq<(nat, Insn)>): nat {
    if insns == [] then 0 else insns[|insns| - 1].0 + Width(insns[|insns| - 1].1)
  }

  /** Offsets a jump may land on: every instruction, and the end. */
  function Starts(insns: seq<(nat, Insn)>): set<nat> {
    (set k | 0 <= k < |insns| :: insns[k].0) + {End(insns)}
  }

  predicate JumpsOk(i: Insn, starts: set<nat>) {
    forall t :: t in Targets(i) ==> t in starts
  }

  predicate GroupOk(i: Insn, h: Header) {
    GroupOf(i).Some? ==> GroupOf(i).value < h.markedCount
  }

  predicate LoopOk(i: Insn, h: Header) {
    LoopOf(i).Some? ==> LoopOf(i).value < h.loopCount
  }

  predicate InsnOk(i: Insn, h: Header, starts: set<nat>) {
    JumpsOk(i, starts) && GroupOk(i, h) && LoopOk(i, h)
  }

  predicate EndsWithGoal(insns: seq<(nat, Insn)>) {
    insns != [] && insns[|insns| - 1].1.Goal?
  }

  predicate Accepted(p: Program) {
    && (forall k :: 0 <= k < |p.insns| ==> InsnOk(p.insns[k].1, p.header, Starts(p.insns)))
    && EndsWithGoal(p.insns)
  }

  /** The complaint about instruction `i` at `at`: jumps first, then its group, then its loop. */
  ghost predicate Complaint(e: Error, at: nat, i: Insn, h: Header, starts: set<nat>) {
    match e
    case BadJump(where, t) => where == at && t in Targets(i) && t !in starts
    case BadGroup(where, g) => where == at && JumpsOk(i, starts) && GroupOf(i) == Some(g) && g >= h.markedCount
    case BadLoop(where, l) =>
      where == at && JumpsOk(i, starts) && GroupOk(i, h) && LoopOf(i) == Some(l) && l >= h.loopCount
    case _ => false
  }

  method CheckInsn(at: nat, i: Insn, h: Header, starts: set<nat>) returns (r: Result<(), Error>)
    ensures r.Success? <==> InsnOk(i, h, starts)
    ensures r.Failure? ==> Complaint(r.error, at, i, h, starts)
  {
    var ts := Targets(i);
    for n := 0 to |ts|
      invariant forall m :: 0 <= m < n ==> ts[m] in starts
    {
      if ts[n] !in starts {
        return Failure(BadJump(at, ts[n]));
      }
    }
    var group := GroupOf(i);
    if group.Some? && group.value >= h.markedCount {
      return Failure(BadGroup(at, group.value));
    }
    var loop := LoopOf(i);
    if loop.Some? && loop.value >= h.loopCount {
      return Failure(BadLoop(at, loop.value));
    }
    return Success(());
  }

  /** The error is about the first instruction that is not in order, or about the missing `Goal`. */
  ghost predicate FirstComplaint(e: Error, p: Program) {
    || (exists k :: 0 <= k < |p.insns| && Complaint(e, p.insns[k].0, p.insns[k].1, p.header, Starts(p.insns))
          && forall m :: 0 <= m < k ==> InsnOk(p.insns[m].1, p.header, Starts(p.insns)))
    || (e == NoGoal && forall m :: 0 <= m < |p.insns| ==> InsnOk(p.insns[m].1, p.header, Starts(p.insns)))
  }

  /** Accepts exactly the programs in order, and otherwise names the first thing wrong. */
  method Check(p: Program) returns (r: Result<(), Error>)
    ensures r.Success? <==> Accepted(p)
    ensures r.Failure? ==> FirstComplaint(r.error, p)
  {
    var starts := Starts(p.insns);
    for k := 0 to |p.insns|
      invariant forall m :: 0 <= m < k ==> InsnOk(p.insns[m].1, p.header, starts)
    {
      var (at, insn) := p.insns[k];
      var ok := CheckInsn(at, insn, p.header, starts);
      if ok.Failure? {
        return ok;
      }
    }
    if EndsWithGoal(p.insns) {
      return Success(());
    }
    return Failure(NoGoal);
  }

  // ---------- The check, field by field

  /** The instruction carries `t` as a place to jump to. */
  predicate JumpsTo(i: Insn, t: nat) {
    || (i.Alternation? && i.secondary == t)
    || ((i.Jump32? || i.EndLoop? || i.EndSimpleLoop?) && i.target == t)
    || (i.Lookaround? && i.continuation == t)
    || ((i.BeginLoop? || i.BeginSimpleLoop? || i.Width1Loop?) && i.notTaken == t)
  }

  /** The instruction begins, ends or refers back to group `g`. */
  predicate Marks(i: Insn, g: nat) {
    (i.BeginMarked? || i.EndMarked? || i.BackRef?) && i.group == g
  }

  /** The instruction counts in loop `l`. */
  predicate CountsIn(i: Insn, l: nat) {
    (i.BeginLoop? || i.Width1Loop?) && i.loopId == l
  }

  /** An instruction starts at `t`, or the last one ends there. */
  ghost predicate IsStart(insns: seq<(nat, Insn)>, t: nat) {
    || (exists k :: 0 <= k < |insns| && insns[k].0 == t)
    || (if insns == [] then t == 0 else t == insns[|insns| - 1].0 + Width(insns[|insns| - 1].1))
  }

  lemma FieldsExactly(i: Insn)
    ensures forall t :: t in Targets(i) <==> JumpsTo(i, t)
    ensures forall g: nat :: GroupOf(i) == Some(g) <==> Marks(i, g)
    ensures forall l: nat :: LoopOf(i) == Some(l) <==> CountsIn(i, l)
  {
  }

  lemma StartsExactly(insns: seq<(nat, Insn)>, t: nat)
    ensures t in Starts(insns) <==> IsStart(insns, t)
  {
  }

  /** In order: every jump goes to a start, every group and loop is one the header counts. */
  ghost predicate InOrder(insns: seq<(nat, Insn)>, h: Header, i: Insn) {
    && (forall t: nat :: JumpsTo(i, t) ==> IsStart(insns, t))
    && (forall g: nat :: Marks(i, g) ==> g < h.markedCount)
    && (forall l: nat :: CountsIn(i, l) ==> l < h.loopCount)
  }

  lemma InOrderExactly(p: Program, i: Insn)
    ensures InsnOk(i, p.header, Starts(p.insns)) <==> InOrder(p.insns, p.header, i)
  {
    FieldsExactly(i);
    forall t: nat
      ensures t in Starts(p.insns) <==> IsStart(p.insns, t)
    {
      StartsExactly(p.insns, t);
    }
    if InOrder(p.insns, p.header, i) {
      forall t | t in Targets(i)
        ensures t in Starts(p.insns)
      {
        assert JumpsTo(i, t) && IsStart(p.insns, t);
      }
    }
  }

  /** The check accepts exactly the programs whose instructions are all in order and whose last one is
      the goal. */
  lemma AcceptedExactly(p: Program)
    ensures Accepted(p) <==>
            && (forall k :: 0 <= k < |p.insns| ==> InOrder(p.insns, p.header, p.insns[k].1))
            && p.insns != [] && p.insns[|p.insns| - 1].1 == Goal
  {
    forall k | 0 <= k < |p.insns|
      ensures InsnOk(p.insns[k].1, p.header, Starts(p.insns)) <==> InOrder(p.insns, p.header, p.insns[k].1)
    {
      InOrderExactly(p, p.insns[k].1);
    }
  }

  /** What a complaint says is so: the jump it names goes nowhere, the group or loop is not counted. */
  lemma ComplaintIsTrue(e: Error, at: nat, i: Insn, p: Program)
    requires Complaint(e, at, i, p.header, Starts(p.insns))
    ensures e.BadJump? ==> e.at == at && JumpsTo(i, e.target) && !IsStart(p.insns, e.target)
    ensures e.BadGroup? ==> e.at == at && Marks(i, e.group) && e.group >= p.header.markedCount
    ensures e.BadLoop? ==> e.at == at && CountsIn(i, e.loop) && e.loop >= p.header.loopCount
    ensures e.BadJump? || e.BadGroup? || e.BadLoop?
  {
    FieldsExactly(i);
    if e.BadJump? {
      StartsExactly(p.insns, e.target);
    }
  }

  // ---------- Runs

  /** Instruction `k` at `a` moves on to `b`, by falling through or by jumping. */
  ghost predicate Moves(insns: seq<(nat, Insn)>, k: nat, a: nat, b: nat) {
    && k < |insns| && insns[k].0 == a
    && (b == a + Width(insns[k].1) || b in Targets(insns[k].1))
  }

  /** A move goes one width on, or where a field of the instruction says. */
  lemma MovesExactly(insns: seq<(nat, Insn)>, k: nat, a: nat, b: nat)
    ensures Moves(insns, k, a, b) <==>
            k < |insns| && insns[k].0 == a && (b == a + Width(insns[k].1) || JumpsTo(insns[k].1, b))
  {
    if k < |insns| {
      FieldsExactly(insns[k].1);
    }
  }

  ghost predicate CanMove(insns: seq<(nat, Insn)>, a: nat, b: nat) {
    exists k: nat :: Moves(insns, k, a, b)
  }

  ghost predicate StepsAt(insns: seq<(nat, Insn)>, run: seq<nat>, j: nat)
    requires j + 1 < |run|
  {
    CanMove(insns, run[j], run[j + 1])
  }

  /** A run starts at 0 and moves from instruction to instruction. */
  ghost predicate IsRun(insns: seq<(nat, Insn)>, run: seq<nat>) {
    run != [] && run[0] == 0 && forall j: nat :: j + 1 < |run| ==> StepsAt(insns, run, j)
  }

  lemma {:induction false} LaidNext(insns: seq<(nat, Insn)>, at: nat, k: nat)
    requires Laid(insns, at) && k < |insns|
    ensures insns[k].0 >= at
    ensures k + 1 < |insns| ==> insns[k + 1].0 == insns[k].0 + Width(insns[k].1)
    decreases k
  {
    if k > 0 {
      LaidNext(insns[1..], at + Width(insns[0].1), k - 1);
    }
  }

  lemma {:induction false} OffsetsRise(insns: seq<(nat, Insn)>, at: nat, k: nat, m: nat)
    requires Laid(insns, at) && k < m < |insns|
    ensures insns[k].0 < insns[m].0
    decreases m
  {
    LaidNext(insns, at, m - 1);
    WidthPositive(insns[m - 1].1);
    if k < m - 1 {
      OffsetsRise(insns, at, k, m - 1);
    }
  }

  /** One move keeps to instructions and the end. */
  lemma MoveLands(p: Program, a: nat, b: nat)
    requires Accepted(p) && Laid(p.insns, 0) && CanMove(p.insns, a, b)
    ensures b in Starts(p.insns)
  {
    var k: nat :| Moves(p.insns, k, a, b);
    assert InsnOk(p.insns[k].1, p.header, Starts(p.insns));
    LaidNext(p.insns, 0, k);
    if b !in Targets(p.insns[k].1) && k + 1 < |p.insns| {
      assert p.insns[k + 1].0 == b;
    }
  }

  /** Every position of every run of an accepted program is an instruction's start or the end. */
  lemma {:induction false} RunStaysOnInstructions(p: Program, run: seq<nat>, j: nat)
    requires Accepted(p) && Laid(p.insns, 0) && IsRun(p.insns, run) && j < |run|
    ensures run[j] in Starts(p.insns)
    decreases j
  {
    if j == 0 {
      assert p.insns[0].0 == 0;
    } else {
      RunStaysOnInstructions(p, run, j - 1);
      assert StepsAt(p.insns, run, j - 1);
      MoveLands(p, run[j - 1], run[j]);
    }
  }

  /** The end is reached by a jump, or past the final `Goal`. */
  lemma EndOnlyByJumpOrGoal(p: Program, k: nat, a: nat)
    requires Accepted(p) && Laid(p.insns, 0) && Moves(p.insns, k, a, End(p.insns))
    ensures End(p.insns) in Targets(p.insns[k].1) || (p.insns[k].1.Goal? && k == |p.insns| - 1)
  {
    var last := |p.insns| - 1;
    if k < last {
      LaidNext(p.insns, 0, k);
      WidthPositive(p.insns[last].1);
      if k + 1 < last {
        OffsetsRise(p.insns, 0, k + 1, last);
      }
    }
  }

  /** The capture groups a lookaround or a counted loop ranges over, from the first up to the last. */
  function RangeOf(i: Insn): Option<(nat, nat)> {
    match i
    case Lookaround(_, _, _, begin, end, _) => Some((begin, end))
    case BeginLoop(_, _, _, begin, end, _, _, _) => Some((begin, end))
    case _ => None
  }

  predicate NamesGroup(i: Insn, g: nat) {
    GroupOf(i) == Some(g) || (RangeOf(i).Some? && RangeOf(i).value.0 <= g < RangeOf(i).value.1)
  }

  /** Every group the instruction names or ranges over is one the header counts. */
  ghost predicate GroupsWithin(i: Insn, h: Header) {
    forall g: nat :: NamesGroup(i, g) ==> g < h.markedCount
  }

  /** The range is empty or ends within the count; nothing holds a program to this. */
  predicate RangeOk(i: Insn, h: Header) {
    RangeOf(i).Some? && RangeOf(i).value.0 < RangeOf(i).value.1 ==> RangeOf(i).value.1 <= h.markedCount
  }

  /** Lookarounds and loops with a body carry such a range, and nothing else does. */
  lemma RangesExactly(i: Insn, begin: nat, end: nat)
    ensures RangeOf(i) == Some((begin, end)) <==> (i.Lookaround? || i.BeginLoop?) && i.mexpBegin == begin && i.mexpEnd == end
  {
  }

  lemma GroupsWithinExactly(i: Insn, h: Header)
    ensures GroupsWithin(i, h) <==> GroupOk(i, h) && RangeOk(i, h)
  {
    if GroupsWithin(i, h) {
      if GroupOf(i).Some? {
        assert NamesGroup(i, GroupOf(i).value);
      }
      if RangeOf(i).Some? && RangeOf(i).value.0 < RangeOf(i).value.1 {
        assert NamesGroup(i, RangeOf(i).value.1 - 1);
      }
    }
  }

  /** A lookaround over nine groups, then the end. */
  const LOOK := Lookaround(false, true, 0, 0, 9, 12)
  const LOOKS: seq<(nat, Insn)> := [(0, LOOK), (12, Goal)]
  const NO_GROUPS := Header(0, 0, 0, 0)

  lemma SmallFits(v: nat, w: nat)
    requires w > 0 && v < 256
    ensures v < Pow256(w)
  {
    assert Pow256(w) == 256 * Pow256(w - 1);
  }

  lemma SmallLookaround()
    ensures InRange(LOOK)
  {
    var half := Cons(2, 0, Cons(2, 9, Field(4, 12)));
    SmallFits(9, 2);
    SmallFits(12, 4);
    SmallFits(1, 1);
    FitThree(2, 0, 2, 9, 4, 12, Nil);
    FitThree(1, 0, 1, 1, 1, 0, half);
    assert OperandFields(LOOK) == Cons(1, 0, Cons(1, 1, Cons(1, 0, half)));
  }

  lemma TwoInsns(a: (nat, Insn), b: (nat, Insn))
    requires a.0 == 0 && b.0 == Width(a.1) && InRange(a.1) && InRange(b.1)
    ensures Laid([a, b], 0) && AllInRange([a, b])
  {
    assert [a, b][1..] == [b] && |[b][1..]| == 0;
    assert Laid([b], Width(a.1)) && AllInRange([b]);
  }

  lemma LooksAreAccepted()
    ensures Accepted(Program(NO_GROUPS, LOOKS))
  {
    assert LOOKS[1].0 in Starts(LOOKS);
    assert Targets(LOOK) == [12] && Targets(Goal) == [];
    assert InsnOk(LOOK, NO_GROUPS, Starts(LOOKS)) && InsnOk(Goal, NO_GROUPS, Starts(LOOKS));
  }

  /** The check does not look at group ranges: a program without groups is accepted although a
      lookaround ranges over nine of them. */
  lemma RangesAreNotChecked()
    ensures Accepted(Program(NO_GROUPS, LOOKS)) && Laid(LOOKS, 0) && AllInRange(LOOKS)
    ensures LOOKS[0].1 == LOOK && !GroupsWithin(LOOK, NO_GROUPS)
  {
    SmallLookaround();
    TwoInsns((0, LOOK), (12, Goal));
    LooksAreAccepted();
    GroupsWithinExactly(LOOK, NO_GROUPS);
  }

  /** What holds of an instruction an accepted program executes: its group and its loop are within the
      header's counts, and all groups it concerns are exactly when its range is. */
  ghost predicate HeldToHeader(i: Insn, h: Header) {
    GroupOk(i, h) && LoopOk(i, h) && (GroupsWithin(i, h) <==> RangeOk(i, h))
  }

  /** Short of the end there is exactly one instruction for a run of an accepted program to execute,
      and it is held to the header. */
  lemma ExecutesWithinHeader(p: Program, run: seq<nat>, j: nat)
    requires Accepted(p) && Laid(p.insns, 0) && IsRun(p.insns, run) && j < |run|
    ensures run[j] != End(p.insns) ==>
              exists k :: 0 <= k < |p.insns| && p.insns[k].0 == run[j] && HeldToHeader(p.insns[k].1, p.header)
                && forall m :: 0 <= m < |p.insns| && p.insns[m].0 == run[j] ==> m == k
  {
    RunStaysOnInstructions(p, run, j);
    if run[j] != End(p.insns) {
      var k :| 0 <= k < |p.insns| && p.insns[k].0 == run[j];
      assert InsnOk(p.insns[k].1, p.header, Starts(p.insns));
      GroupsWithinExactly(p.insns[k].1, p.header);
      forall m | 0 <= m < |p.insns| && p.insns[m].0 == run[j]
        ensures m == k
      {
        if m < k {
          OffsetsRise(p.insns, 0, m, k);
        } else if k < m {
          OffsetsRise(p.insns, 0, k, m);
        }
      }
    }
  }

  /** A stream that decodes and passes the check can only be run from instruction to instruction. */
  lemma DecodedRunsAreSafe(bytes: seq<Byte>, run: seq<nat>, j: nat)
    requires Decode(bytes).Success? && |bytes| <= STREAM_LIMIT && Accepted(Decode(bytes).value)
    requires IsRun(Decode(bytes).value.insns, run) && j < |run|
    ensures run[j] in Starts(Decode(bytes).value.insns) && run[j] <= |bytes| - HEADER_LEN
  {
    var p := Decode(bytes).value;
    DecodedAccountsForEveryByte(bytes);
    RunStaysOnInstructions(p, run, j);
    StartsUpToEnd(p.insns, run[j]);
    EndIsLaidEnd(p.insns, 0);
  }

  lemma StartsUpToEnd(insns: seq<(nat, Insn)>, a: nat)
    requires Laid(insns, 0) && a in Starts(insns)
    ensures a <= End(insns)
  {
    if a != End(insns) {
      var k :| 0 <= k < |insns| && insns[k].0 == a;
      if k < |insns| - 1 {
        OffsetsRise(insns, 0, k, |insns| - 1);
      }
    }
  }

  lemma {:induction false} EndIsLaidEnd(insns: seq<(nat, Insn)>, at: nat)
    requires Laid(insns, at) && insns != []
    ensures End(insns) == EndOf(insns, at)
    decreases |insns|
  {
    if |insns| > 1 {
      EndIsLaidEnd(insns[1..], at + Width(insns[0].1));
      assert insns[1..][|insns| - 2] == insns[|insns| - 1];
    } else {
      assert insns[1..] == [];
    }
  }
}
