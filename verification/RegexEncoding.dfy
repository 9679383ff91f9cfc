/** The writer of regex bytecode, and that the decoder undoes it.

    An instruction is its opcode and a list of fields, each of a width and a value. The writer lays
    the fields out; a reader "holds" a list when it finds the fields one after the other. Decoding is
    first related to holding a list, and writing to that. */
module RegexEncoding {
  import opened Options
  import opened Bytes
  import opened RegexBytecode

  /** Operand fields in stream order, each `width` bytes wide. */
  datatype Fields = Nil | Cons(width: nat, value: nat, rest: Fields) {
    /** Every value fits its field. */
    predicate Fit() {
      Cons? ==> value < Pow256(width) && rest.Fit()
    }

    function Size(): nat {
      if Nil? then 0 else width + rest.Size()
    }

    function Encode(): (s: seq<Byte>)
      ensures |s| == Size()
    {
      if Nil? then [] else LeBytes(value, width) + rest.Encode()
    }
  }

  function Field(width: nat, value: nat): Fields {
    Cons(width, value, Nil)
  }

  function Flag(b: bool): nat {
    if b then 1 else 0
  }

  function TextFields(cs: seq<nat>): Fields {
    if cs == [] then Nil else Cons(1, cs[0], TextFields(cs[1..]))
  }

  function RangeFields(rs: seq<(nat, nat)>): Fields {
    if rs == [] then Nil else Cons(4, rs[0].0, Cons(4, rs[0].1, RangeFields(rs[1..])))
  }

  function ClassBits(b: Bracket): nat {
    Flag(b.negate) + 2 * b.positive + 16 * b.negative
  }

  function BracketFields(b: Bracket): Fields {
    Cons(4, |b.ranges|, Cons(1, ClassBits(b), RangeFields(b.ranges)))
  }

  function Opcode(i: Insn): nat {
    match i
    case Goal => 0
    case LeftAnchor => 1
    case RightAnchor => 2
    case MatchAny => 3
    case U16MatchAny => 4
    case MatchAnyButNewline => 5
    case U16MatchAnyButNewline => 6
    case MatchChar8(_) => 7
    case MatchChar16(_) => 8
    case U16MatchChar32(_) => 9
    case MatchNChar8(_) => 10
    case MatchNCharICase8(_) => 11
    case MatchCharICase8(_) => 12
    case MatchCharICase16(_) => 13
    case U16MatchCharICase32(_) => 14
    case Alternation(_, _, _) => 15
    case Jump32(_) => 16
    case BracketInsn(_) => 17
    case U16BracketInsn(_) => 18
    case BeginMarked(_) => 19
    case EndMarked(_) => 20
    case BackRef(_) => 21
    case WordBoundary(_) => 22
    case Lookaround(_, _, _, _, _, _) => 23
    case BeginLoop(_, _, _, _, _, _, _, _) => 24
    case EndLoop(_) => 25
    case BeginSimpleLoop(_, _) => 26
    case EndSimpleLoop(_) => 27
    case Width1Loop(_, _, _, _, _) => 28
  }

  /** The operands of an instruction as they follow its opcode. */
  function OperandFields(i: Insn): Fields {
    match i
    case Goal | LeftAnchor | RightAnchor | MatchAny | U16MatchAny | MatchAnyButNewline | U16MatchAnyButNewline => Nil
    case MatchChar8(c) => Field(1, c)
    case MatchChar16(c) => Field(2, c)
    case U16MatchChar32(c) => Field(4, c)
    case MatchNChar8(cs) => Cons(1, |cs|, TextFields(cs))
    case MatchNCharICase8(cs) => Cons(1, |cs|, TextFields(cs))
    case MatchCharICase8(c) => Field(1, c)
    case MatchCharICase16(c) => Field(2, c)
    case U16MatchCharICase32(c) => Field(4, c)
    case Alternation(s, p, q) => Cons(4, s, Cons(1, p, Field(1, q)))
    case Jump32(t) => Field(4, t)
    case BracketInsn(b) => BracketFields(b)
    case U16BracketInsn(b) => BracketFields(b)
    case BeginMarked(g) => Field(2, g)
    case EndMarked(g) => Field(2, g)
    case BackRef(g) => Field(2, g)
    case WordBoundary(invert) => Field(1, Flag(invert))
    case Lookaround(invert, forwards, constraints, begin, end, continuation) =>
      Cons(1, Flag(invert), Cons(1, Flag(forwards), Cons(1, constraints,
        Cons(2, begin, Cons(2, end, Field(4, continuation))))))
    case BeginLoop(id, min, max, begin, end, greedy, constraints, notTaken) =>
      LoopHeadFields(id, min, max,
        Cons(2, begin, Cons(2, end, Cons(1, Flag(greedy), Cons(1, constraints, Field(4, notTaken))))))
    case EndLoop(t) => Field(4, t)
    case BeginSimpleLoop(constraints, notTaken) => Cons(1, constraints, Field(4, notTaken))
    case EndSimpleLoop(t) => Field(4, t)
    case Width1Loop(id, min, max, greedy, notTaken) =>
      LoopHeadFields(id, min, max, Cons(1, Flag(greedy), Field(4, notTaken)))
  }

  function LoopHeadFields(id: nat, min: nat, max: nat, rest: Fields): Fields {
    Cons(4, id, Cons(4, min, Cons(4, max, rest)))
  }

  /** Operands a Hermes instruction can hold: each fits its field, classes are three bits. */
  predicate InRange(i: Insn) {
    && OperandFields(i).Fit()
    && (i.BracketInsn? || i.U16BracketInsn? ==> i.bracket.positive < 8 && i.bracket.negative < 8)
  }

  function AllFields(i: Insn): Fields {
    Cons(1, Opcode(i), OperandFields(i))
  }

  function EncodeInsn(i: Insn): seq<Byte> {
    AllFields(i).Encode()
  }

  function EncodeInsns(insns: seq<(nat, Insn)>): seq<Byte> {
    if insns == [] then [] else EncodeInsn(insns[0].1) + EncodeInsns(insns[1..])
  }

  function EncodeHeader(h: Header): (s: seq<Byte>)
    ensures |s| == HEADER_LEN
  {
    LeBytes(h.markedCount, 2) + LeBytes(h.loopCount, 2) + LeBytes(h.syntaxFlags, 1) + LeBytes(h.constraints, 1)
  }

  function Encode(p: Program): seq<Byte> {
    EncodeHeader(p.header) + EncodeInsns(p.insns)
  }

  // ---------- Reading fields back

  /** The reader finds the fields one after the other. */
  ghost predicate Holds(rd: FieldReader, at: nat, fs: Fields)
    decreases fs
  {
    fs.Cons? ==> rd(at, fs.width) == Success(fs.value) && Holds(rd, at + fs.width, fs.rest)
  }

  lemma {:induction false} EncodedHolds(bytes: seq<Byte>, at: nat, fs: Fields)
    requires At(bytes, at, fs.Encode()) && fs.Fit()
    ensures Holds(FieldsOf(bytes), at, fs)
    decreases fs
  {
    if fs.Cons? {
      var s := LeBytes(fs.value, fs.width);
      AtConcat(bytes, at, s, fs.rest.Encode());
      LeRoundTrip(fs.value, fs.width);
      assert FieldsOf(bytes)(at, fs.width) == Success(fs.value);
      EncodedHolds(bytes, at + fs.width, fs.rest);
    }
  }

  lemma Peel(rd: FieldReader, at: nat, w: nat, v: nat, rest: Fields)
    requires Holds(rd, at, Cons(w, v, rest))
    ensures rd(at, w) == Success(v) && Holds(rd, at + w, rest)
  {
  }

  lemma {:induction false} TextHolds(rd: FieldReader, at: nat, cs: seq<nat>)
    requires Holds(rd, at, TextFields(cs))
    ensures ReadMany(rd, at, 1, |cs|) == Success(cs)
    decreases |cs|
  {
    if cs != [] {
      Peel(rd, at, 1, cs[0], TextFields(cs[1..]));
      TextHolds(rd, at + 1, cs[1..]);
      assert [cs[0]] + cs[1..] == cs;
    }
  }

  lemma {:induction false} RangesHold(rd: FieldReader, at: nat, rs: seq<(nat, nat)>)
    requires Holds(rd, at, RangeFields(rs))
    ensures ReadRanges(rd, at, |rs|) == Success(rs)
    decreases |rs|
  {
    if rs != [] {
      Peel(rd, at, 4, rs[0].0, Cons(4, rs[0].1, RangeFields(rs[1..])));
      Peel(rd, at + 4, 4, rs[0].1, RangeFields(rs[1..]));
      RangesHold(rd, at + 8, rs[1..]);
      assert [rs[0]] + rs[1..] == rs;
    }
  }

  lemma ClassBitsSplit(b: Bracket)
    requires b.positive < 8 && b.negative < 8
    ensures var bits := ClassBits(b);
            (bits % 2 != 0) == b.negate && bits / 2 % 8 == b.positive && bits / 16 % 8 == b.negative
  {
  }

  lemma BracketHolds(rd: FieldReader, at: nat, b: Bracket)
    requires Holds(rd, at, BracketFields(b)) && b.positive < 8 && b.negative < 8
    ensures ReadBracket(rd, at) == Success(b)
  {
    Peel(rd, at, 4, |b.ranges|, Cons(1, ClassBits(b), RangeFields(b.ranges)));
    Peel(rd, at + 4, 1, ClassBits(b), RangeFields(b.ranges));
    RangesHold(rd, at + 5, b.ranges);
    ClassBitsSplit(b);
  }

  lemma LookaroundHolds(rd: FieldReader, at: nat, i: Insn)
    requires i.Lookaround? && Holds(rd, at, OperandFields(i))
    ensures ReadLookaround(rd, at) == Success(i)
  {
    var f := OperandFields(i);
    Peel(rd, at, 1, f.value, f.rest);
    Peel(rd, at + 1, 1, f.rest.value, f.rest.rest);
    Peel(rd, at + 2, 1, i.constraints, f.rest.rest.rest);
    Peel(rd, at + 3, 2, i.mexpBegin, Cons(2, i.mexpEnd, Field(4, i.continuation)));
    Peel(rd, at + 5, 2, i.mexpEnd, Field(4, i.continuation));
    Peel(rd, at + 7, 4, i.continuation, Nil);
  }

  lemma LoopHeadHolds(rd: FieldReader, at: nat, id: nat, min: nat, max: nat, rest: Fields)
    requires Holds(rd, at, LoopHeadFields(id, min, max, rest))
    ensures ReadLoopHead(rd, at) == Success((id, min, max)) && Holds(rd, at + 12, rest)
  {
    Peel(rd, at, 4, id, Cons(4, min, Cons(4, max, rest)));
    Peel(rd, at + 4, 4, min, Cons(4, max, rest));
    Peel(rd, at + 8, 4, max, rest);
  }

  lemma BeginLoopHolds(rd: FieldReader, at: nat, i: Insn)
    requires i.BeginLoop? && Holds(rd, at, OperandFields(i))
    ensures ReadBeginLoop(rd, at) == Success(i)
  {
    var last := Field(4, i.notTaken);
    var afterEnd := Cons(1, Flag(i.greedy), Cons(1, i.constraints, last));
    LoopHeadHolds(rd, at, i.loopId, i.min, i.max, Cons(2, i.mexpBegin, Cons(2, i.mexpEnd, afterEnd)));
    Peel(rd, at + 12, 2, i.mexpBegin, Cons(2, i.mexpEnd, afterEnd));
    Peel(rd, at + 14, 2, i.mexpEnd, afterEnd);
    Peel(rd, at + 16, 1, Flag(i.greedy), Cons(1, i.constraints, last));
    Peel(rd, at + 17, 1, i.constraints, last);
    Peel(rd, at + 18, 4, i.notTaken, Nil);
  }

  lemma Width1LoopHolds(rd: FieldReader, at: nat, i: Insn)
    requires i.Width1Loop? && Holds(rd, at, OperandFields(i))
    ensures ReadWidth1Loop(rd, at) == Success(i)
  {
    var last := Field(4, i.notTaken);
    LoopHeadHolds(rd, at, i.loopId, i.min, i.max, Cons(1, Flag(i.greedy), last));
    Peel(rd, at + 12, 1, Flag(i.greedy), last);
    Peel(rd, at + 13, 4, i.notTaken, Nil);
  }

  lemma AlternationHolds(rd: FieldReader, at: nat, i: Insn)
    requires i.Alternation? && Holds(rd, at, OperandFields(i))
    ensures ReadAlternation(rd, at) == Success(i)
  {
    var last := Field(1, i.secondaryConstraints);
    Peel(rd, at, 4, i.secondary, Cons(1, i.primaryConstraints, last));
    Peel(rd, at + 4, 1, i.primaryConstraints, last);
    Peel(rd, at + 5, 1, i.secondaryConstraints, Nil);
  }

  lemma SimpleLoopHolds(rd: FieldReader, at: nat, i: Insn)
    requires i.BeginSimpleLoop? && Holds(rd, at, OperandFields(i))
    ensures ReadBeginSimpleLoop(rd, at) == Success(i)
  {
    Peel(rd, at, 1, i.constraints, Field(4, i.notTaken));
    Peel(rd, at + 1, 4, i.notTaken, Nil);
  }

  lemma TextInsnHolds(rd: FieldReader, at: nat, cs: seq<nat>)
    requires Holds(rd, at, Cons(1, |cs|, TextFields(cs)))
    ensures ReadText(rd, at) == Success(cs)
  {
    Peel(rd, at, 1, |cs|, TextFields(cs));
    TextHolds(rd, at + 1, cs);
  }

  lemma SingleHolds(rd: FieldReader, at: nat, i: Insn)
    requires IsSingle(Opcode(i)) && Holds(rd, at, OperandFields(i))
    ensures rd(at, SingleWidth(Opcode(i))).Success?
    ensures Single(Opcode(i), rd(at, SingleWidth(Opcode(i))).value) == i
  {
    var f := OperandFields(i);
    Peel(rd, at, f.width, f.value, Nil);
  }

  /** The operands written for an instruction read back as that instruction. */
  lemma OperandsRoundTrip(rd: FieldReader, at: nat, i: Insn, offset: nat)
    requires InRange(i) && Holds(rd, at, OperandFields(i))
    ensures Operands(rd, Opcode(i), at, offset) == Success(i)
  {
    if IsPlain(Opcode(i)) {
    } else if IsSingle(Opcode(i)) {
      SingleHolds(rd, at, i);
    } else {
      GroupedOperandsRoundTrip(rd, at, i, offset);
    }
  }

  lemma GroupedOperandsRoundTrip(rd: FieldReader, at: nat, i: Insn, offset: nat)
    requires !IsPlain(Opcode(i)) && !IsSingle(Opcode(i))
    requires InRange(i) && Holds(rd, at, OperandFields(i))
    ensures Operands(rd, Opcode(i), at, offset) == Success(i)
  {
    match i
    case MatchNChar8(cs) => TextInsnHolds(rd, at, cs);
    case MatchNCharICase8(cs) => TextInsnHolds(rd, at, cs);
    case BracketInsn(b) => BracketHolds(rd, at, b);
    case U16BracketInsn(b) => BracketHolds(rd, at, b);
    case _ => RecordOperandsRoundTrip(rd, at, i, offset);
  }

  lemma RecordOperandsRoundTrip(rd: FieldReader, at: nat, i: Insn, offset: nat)
    requires i.Alternation? || i.WordBoundary? || i.Lookaround? || i.BeginLoop? || i.BeginSimpleLoop? || i.Width1Loop?
    requires Holds(rd, at, OperandFields(i))
    ensures Operands(rd, Opcode(i), at, offset) == Success(i)
  {
    match i
    case Alternation(_, _, _) => AlternationHolds(rd, at, i);
    case WordBoundary(invert) => Peel(rd, at, 1, Flag(invert), Nil);
    case Lookaround(_, _, _, _, _, _) => LookaroundHolds(rd, at, i);
    case BeginLoop(_, _, _, _, _, _, _, _) => BeginLoopHolds(rd, at, i);
    case BeginSimpleLoop(_, _) => SimpleLoopHolds(rd, at, i);
    case Width1Loop(_, _, _, _, _) => Width1LoopHolds(rd, at, i);
  }

  /** An instruction written anywhere in a stream decodes to itself there. */
  lemma InsnRoundTrip(bytes: seq<Byte>, at: nat, i: Insn)
    requires InRange(i) && At(bytes, at, EncodeInsn(i))
    ensures InsnAt(FieldsOf(bytes), at) == Success(i)
  {
    EncodedHolds(bytes, at, AllFields(i));
    Peel(FieldsOf(bytes), at, 1, Opcode(i), OperandFields(i));
    OperandsRoundTrip(FieldsOf(bytes), at + 1, i, Offset(at));
  }

  lemma {:induction false} TextSize(cs: seq<nat>)
    ensures TextFields(cs).Size() == |cs|
  {
    if cs != [] {
      TextSize(cs[1..]);
    }
  }

  lemma {:induction false} RangeSize(rs: seq<(nat, nat)>)
    ensures RangeFields(rs).Size() == 8 * |rs|
  {
    if rs != [] {
      RangeSize(rs[1..]);
      var inner := Cons(4, rs[0].1, RangeFields(rs[1..]));
      assert inner.Size() == 4 + 8 * |rs[1..]|;
    }
  }

  lemma Size2(w: nat, v: nat, x: nat, u: nat, rest: Fields)
    ensures Cons(w, v, Cons(x, u, rest)).Size() == w + x + rest.Size()
  {
    assert Cons(x, u, rest).Size() == x + rest.Size();
  }

  lemma Size3(w: nat, v: nat, x: nat, u: nat, y: nat, t: nat, rest: Fields)
    ensures Cons(w, v, Cons(x, u, Cons(y, t, rest))).Size() == w + x + y + rest.Size()
  {
    Size2(x, u, y, t, rest);
  }

  lemma SizeOne(w: nat, v: nat)
    ensures Field(w, v).Size() == w
  {
  }

  lemma SingleSize(i: Insn)
    requires IsSingle(Opcode(i))
    ensures OperandFields(i).Size() + 1 == Width(i)
  {
    SizeOne(OperandFields(i).width, OperandFields(i).value);
  }

  lemma BracketSize(b: Bracket)
    ensures BracketFields(b).Size() == 5 + 8 * |b.ranges|
  {
    Size2(4, |b.ranges|, 1, ClassBits(b), RangeFields(b.ranges));
    RangeSize(b.ranges);
  }

  lemma TextInsnSize(cs: seq<nat>)
    ensures Cons(1, |cs|, TextFields(cs)).Size() == 1 + |cs|
  {
    TextSize(cs);
  }

  lemma LookaroundSize(i: Insn)
    requires i.Lookaround?
    ensures OperandFields(i).Size() == 11
  {
    var half := Cons(2, i.mexpBegin, Cons(2, i.mexpEnd, Field(4, i.continuation)));
    Size3(2, i.mexpBegin, 2, i.mexpEnd, 4, i.continuation, Nil);
    Size3(1, Flag(i.invert), 1, Flag(i.forwards), 1, i.constraints, half);
  }

  lemma BeginLoopSize(i: Insn)
    requires i.BeginLoop?
    ensures OperandFields(i).Size() == 22
  {
    var tail := Cons(1, Flag(i.greedy), Cons(1, i.constraints, Field(4, i.notTaken)));
    Size3(1, Flag(i.greedy), 1, i.constraints, 4, i.notTaken, Nil);
    Size2(2, i.mexpBegin, 2, i.mexpEnd, tail);
    Size3(4, i.loopId, 4, i.min, 4, i.max, Cons(2, i.mexpBegin, Cons(2, i.mexpEnd, tail)));
  }

  lemma Width1LoopSize(i: Insn)
    requires i.Width1Loop?
    ensures OperandFields(i).Size() == 17
  {
    Size2(1, Flag(i.greedy), 4, i.notTaken, Nil);
    Size3(4, i.loopId, 4, i.min, 4, i.max, Cons(1, Flag(i.greedy), Field(4, i.notTaken)));
  }

  lemma GroupedSize(i: Insn)
    requires !IsPlain(Opcode(i)) && !IsSingle(Opcode(i))
    ensures OperandFields(i).Size() + 1 == Width(i)
  {
    match i
    case MatchNChar8(cs) => TextInsnSize(cs);
    case MatchNCharICase8(cs) => TextInsnSize(cs);
    case Alternation(s, p, q) => Size3(4, s, 1, p, 1, q, Nil);
    case BracketInsn(b) => BracketSize(b);
    case U16BracketInsn(b) => BracketSize(b);
    case WordBoundary(invert) => SizeOne(1, Flag(invert));
    case Lookaround(_, _, _, _, _, _) => LookaroundSize(i);
    case BeginLoop(_, _, _, _, _, _, _, _) => BeginLoopSize(i);
    case BeginSimpleLoop(constraints, notTaken) => Size2(1, constraints, 4, notTaken, Nil);
    case Width1Loop(_, _, _, _, _) => Width1LoopSize(i);
  }

  /** The width function agrees with the bytes written. */
  lemma EncodedWidth(i: Insn)
    ensures |EncodeInsn(i)| == Width(i)
  {
    assert AllFields(i).Size() == 1 + OperandFields(i).Size();
    if IsSingle(Opcode(i)) {
      SingleSize(i);
    } else if !IsPlain(Opcode(i)) {
      GroupedSize(i);
    }
  }

  // ---------- Whole programs

  /** Each instruction's offset is the previous one plus its width, from `at` on. */
  predicate Laid(insns: seq<(nat, Insn)>, at: nat) {
    insns != [] ==> insns[0].0 == at && Laid(insns[1..], at + Width(insns[0].1))
  }

  /** Where a list of instructions that starts at `at` ends. */
  function EndOf(insns: seq<(nat, Insn)>, at: nat): nat {
    if insns == [] then at else EndOf(insns[1..], at + Width(insns[0].1))
  }

  predicate AllInRange(insns: seq<(nat, Insn)>) {
    insns != [] ==> InRange(insns[0].1) && AllInRange(insns[1..])
  }

  predicate HeaderInRange(h: Header) {
    h.markedCount < 0x1_0000 && h.loopCount < 0x1_0000 && h.syntaxFlags < 0x100 && h.constraints < 0x100
  }

  const STREAM_LIMIT: nat := TWO32

  lemma {:induction false} EncodedLength(insns: seq<(nat, Insn)>, at: nat)
    ensures EndOf(insns, at) == at + |EncodeInsns(insns)|
  {
    if insns != [] {
      EncodedWidth(insns[0].1);
      EncodedLength(insns[1..], at + Width(insns[0].1));
    }
  }

  lemma OffsetExact(at: nat)
    requires at < STREAM_LIMIT
    ensures Offset(at) == at
  {
  }

  /** The instructions follow one another from `at`. */
  ghost predicate DecodesAt(rd: FieldReader, at: nat, insns: seq<(nat, Insn)>)
    decreases |insns|
  {
    insns != [] ==> InsnAt(rd, at) == Success(insns[0].1) && DecodesAt(rd, at + Width(insns[0].1), insns[1..])
  }

  lemma FirstInsn(bytes: seq<Byte>, at: nat, i: Insn, rest: seq<Byte>)
    requires InRange(i) && At(bytes, at, EncodeInsn(i) + rest)
    ensures InsnAt(FieldsOf(bytes), at) == Success(i)
    ensures At(bytes, at + Width(i), rest)
  {
    AtConcat(bytes, at, EncodeInsn(i), rest);
    EncodedWidth(i);
    InsnRoundTrip(bytes, at, i);
  }

  lemma {:induction false} EncodedDecodes(bytes: seq<Byte>, at: nat, insns: seq<(nat, Insn)>)
    requires AllInRange(insns) && At(bytes, at, EncodeInsns(insns))
    ensures DecodesAt(FieldsOf(bytes), at, insns)
    decreases |insns|
  {
    if insns != [] {
      FirstInsn(bytes, at, insns[0].1, EncodeInsns(insns[1..]));
      EncodedDecodes(bytes, at + Width(insns[0].1), insns[1..]);
    }
  }

  lemma {:induction false} DecodesInsns(rd: FieldReader, len: nat, at: nat, insns: seq<(nat, Insn)>)
    requires DecodesAt(rd, at, insns) && Laid(insns, at) && EndOf(insns, at) == len <= STREAM_LIMIT
    ensures InsnsFrom(rd, len, at) == Success(insns)
    decreases |insns|
  {
    if insns != [] {
      var i := insns[0].1;
      EndAfter(insns[1..], at + Width(i));
      WidthPositive(i);
      OffsetExact(at);
      DecodesInsns(rd, len, at + Width(i), insns[1..]);
      OneInsnMore(rd, len, at, i, insns[1..]);
      assert [insns[0]] + insns[1..] == insns;
    }
  }

  lemma {:induction false} EndAfter(insns: seq<(nat, Insn)>, at: nat)
    ensures EndOf(insns, at) >= at
    decreases |insns|
  {
    if insns != [] {
      EndAfter(insns[1..], at + Width(insns[0].1));
    }
  }

  lemma OneInsnMore(rd: FieldReader, len: nat, at: nat, i: Insn, rest: seq<(nat, Insn)>)
    requires at < len && InsnAt(rd, at) == Success(i)
    requires InsnsFrom(rd, len, at + Width(i)) == Success(rest)
    ensures InsnsFrom(rd, len, at) == Success([(Offset(at), i)] + rest)
  {
    WidthPositive(i);
  }

  lemma HeaderRoundTrip(h: Header, rest: seq<Byte>)
    requires HeaderInRange(h)
    ensures HeaderOf(EncodeHeader(h) + rest) == h
  {
    var bytes := EncodeHeader(h) + rest;
    assert bytes[0..2] == LeBytes(h.markedCount, 2);
    assert bytes[2..4] == LeBytes(h.loopCount, 2);
    assert bytes[4] == LeBytes(h.syntaxFlags, 1)[0] && bytes[5] == LeBytes(h.constraints, 1)[0];
    TwoByteField(h.markedCount);
    TwoByteField(h.loopCount);
  }

  lemma TwoByteField(v: nat)
    requires v < 0x1_0000
    ensures LeValue(LeBytes(v, 2)) == v
  {
    assert Pow256(1) == 256 && Pow256(2) == 0x1_0000;
    LeRoundTrip(v, 2);
  }

  lemma StreamRoundTrip(insns: seq<(nat, Insn)>)
    requires AllInRange(insns) && Laid(insns, 0) && EndOf(insns, 0) <= STREAM_LIMIT
    ensures InsnsFrom(FieldsOf(EncodeInsns(insns)), |EncodeInsns(insns)|, 0) == Success(insns)
  {
    var stream := EncodeInsns(insns);
    EncodedLength(insns, 0);
    assert At(stream, 0, stream);
    EncodedDecodes(stream, 0, insns);
    DecodesInsns(FieldsOf(stream), |stream|, 0, insns);
  }

  lemma DecodeParts(bytes: seq<Byte>, header: Header, stream: seq<Byte>, insns: seq<(nat, Insn)>)
    requires |bytes| >= HEADER_LEN && HeaderOf(bytes) == header && bytes[HEADER_LEN..] == stream
    requires InsnsFrom(FieldsOf(stream), |stream|, 0) == Success(insns)
    ensures Decode(bytes) == Success(Program(header, insns))
  {
  }

  /** Decoding what was encoded gives back every in-range program. */
  lemma ProgramRoundTrip(p: Program)
    requires HeaderInRange(p.header) && AllInRange(p.insns) && Laid(p.insns, 0)
    requires EndOf(p.insns, 0) <= STREAM_LIMIT
    ensures Decode(Encode(p)) == Success(p)
  {
    var stream := EncodeInsns(p.insns);
    HeaderRoundTrip(p.header, stream);
    assert Encode(p)[HEADER_LEN..] == stream;
    StreamRoundTrip(p.insns);
    DecodeParts(Encode(p), p.header, stream, p.insns);
  }

  // ---------- The opcode table

  /** Each kind of instruction is read from its own opcode, the 29 of them numbered without a gap. */
  ghost predicate FromOpcode(op: nat, i: Insn) {
    && (i.Goal? <==> op == 0) && (i.LeftAnchor? <==> op == 1) && (i.RightAnchor? <==> op == 2)
    && (i.MatchAny? <==> op == 3) && (i.U16MatchAny? <==> op == 4)
    && (i.MatchAnyButNewline? <==> op == 5) && (i.U16MatchAnyButNewline? <==> op == 6)
    && (i.MatchChar8? <==> op == 7) && (i.MatchChar16? <==> op == 8) && (i.U16MatchChar32? <==> op == 9)
    && (i.MatchNChar8? <==> op == 10) && (i.MatchNCharICase8? <==> op == 11)
    && (i.MatchCharICase8? <==> op == 12) && (i.MatchCharICase16? <==> op == 13)
    && (i.U16MatchCharICase32? <==> op == 14) && (i.Alternation? <==> op == 15) && (i.Jump32? <==> op == 16)
    && (i.BracketInsn? <==> op == 17) && (i.U16BracketInsn? <==> op == 18)
    && (i.BeginMarked? <==> op == 19) && (i.EndMarked? <==> op == 20) && (i.BackRef? <==> op == 21)
    && (i.WordBoundary? <==> op == 22) && (i.Lookaround? <==> op == 23) && (i.BeginLoop? <==> op == 24)
    && (i.EndLoop? <==> op == 25) && (i.BeginSimpleLoop? <==> op == 26) && (i.EndSimpleLoop? <==> op == 27)
    && (i.Width1Loop? <==> op == 28)
  }

  lemma NumbersExactly(i: Insn)
    ensures FromOpcode(Opcode(i), i)
  {
  }

  lemma OperandsOfOpcode(rd: FieldReader, op: nat, at: nat, offset: nat)
    requires Operands(rd, op, at, offset).Success?
    ensures op < 29 && Opcode(Operands(rd, op, at, offset).value) == op
  {
  }

  /** An instruction is read from the opcode of its kind, and a byte that is no opcode is reported with
      the place it stands at. */
  lemma OpcodesExactly(rd: FieldReader, at: nat, op: nat)
    requires rd(at, 1) == Success(op)
    ensures op >= 29 ==> InsnAt(rd, at) == Failure(UnknownOpcode(op, at % 0x1_0000_0000))
    ensures InsnAt(rd, at).Success? ==> op < 29 && FromOpcode(op, InsnAt(rd, at).value)
  {
    if InsnAt(rd, at).Success? {
      OperandsOfOpcode(rd, op, at + 1, Offset(at));
      NumbersExactly(InsnAt(rd, at).value);
    }
  }
}
