/** Which regex byte strings the writer gives back byte for byte.

    A decoder that reads any non-zero byte as true, and looks at seven bits of a class byte, forgets
    the rest. A stream is canonical when there is nothing to forget; exactly then encoding undoes
    decoding. */
module RegexCanonical {
  import opened Options
  import opened Bytes
  import opened RegexBytecode
  import opened RegexEncoding
  import opened RegexLayout

  /** The byte at `at` is 0 or 1. */
  predicate FlagByte(rd: FieldReader, at: nat) {
    rd(at, 1).Success? && rd(at, 1).value <= 1
  }

  /** The byte at `at` leaves its top bit clear. */
  predicate ClassByte(rd: FieldReader, at: nat) {
    rd(at, 1).Success? && rd(at, 1).value < 128
  }

  /** The operands of opcode `op` from `at` on hold nothing the decoder forgets. */
  predicate CanonicalOperands(rd: FieldReader, op: nat, at: nat) {
    match op
    case 17 => ClassByte(rd, at + 4)
    case 18 => ClassByte(rd, at + 4)
    case 22 => FlagByte(rd, at)
    case 23 => FlagByte(rd, at) && FlagByte(rd, at + 1)
    case 24 => FlagByte(rd, at + 16)
    case 28 => FlagByte(rd, at + 12)
    case _ => true
  }

  /** Every instruction from `at` to `len` is canonical. */
  predicate CanonicalFrom(rd: FieldReader, len: nat, at: nat)
    decreases if at < len then len - at else 0
  {
    at >= len ||
    match InsnAt(rd, at)
    case Failure(_) => false
    case Success(i) =>
      WidthPositive(i);
      CanonicalOperands(rd, rd(at, 1).value, at + 1) && CanonicalFrom(rd, len, at + Width(i))
  }

  predicate Canonical(bytes: seq<Byte>) {
    |bytes| >= HEADER_LEN && CanonicalFrom(FieldsOf(bytes[HEADER_LEN..]), |bytes| - HEADER_LEN, 0)
  }

  // ---------- Fields found are fields written

  lemma LowByte(low: nat, high: nat)
    requires low < 256
    ensures (low + 256 * high) % 256 == low && (low + 256 * high) / 256 == high
  {
  }

  lemma {:induction false} LeBytesOf(s: seq<Byte>)
    ensures LeBytes(LeValue(s), |s|) == s
  {
    if s != [] {
      var low, high := s[0], LeValue(s[1..]);
      LeBytesOf(s[1..]);
      LowByte(low, high);
      assert [low] + s[1..] == s;
    }
  }

  lemma {:induction false} HeldIsWritten(bytes: seq<Byte>, at: nat, fs: Fields)
    requires at <= |bytes| && Holds(FieldsOf(bytes), at, fs)
    ensures At(bytes, at, fs.Encode())
    decreases fs
  {
    if fs.Cons? {
      LeBytesOf(bytes[at..at + fs.width]);
      HeldIsWritten(bytes, at + fs.width, fs.rest);
      AtConcat(bytes, at, LeBytes(fs.value, fs.width), fs.rest.Encode());
    }
  }

  lemma Join(rd: FieldReader, at: nat, w: nat, v: nat, rest: Fields)
    ensures Holds(rd, at, Cons(w, v, rest)) <==> rd(at, w) == Success(v) && Holds(rd, at + w, rest)
  {
  }

  lemma JoinTwo(rd: FieldReader, at: nat, w: nat, v: nat, x: nat, u: nat, rest: Fields)
    ensures Holds(rd, at, Cons(w, v, Cons(x, u, rest))) <==>
            rd(at, w) == Success(v) && rd(at + w, x) == Success(u) && Holds(rd, at + w + x, rest)
  {
    Join(rd, at, w, v, Cons(x, u, rest));
    Join(rd, at + w, x, u, rest);
  }

  lemma {:induction false} TextIsHeld(rd: FieldReader, at: nat, n: nat)
    requires ReadMany(rd, at, 1, n).Success?
    ensures |ReadMany(rd, at, 1, n).value| == n && Holds(rd, at, TextFields(ReadMany(rd, at, 1, n).value))
    decreases n
  {
    if n > 0 {
      TextIsHeld(rd, at + 1, n - 1);
      var cs, rest := ReadMany(rd, at, 1, n).value, ReadMany(rd, at + 1, 1, n - 1).value;
      assert cs[1..] == rest;
      Join(rd, at, 1, cs[0], TextFields(rest));
    }
  }

  lemma {:induction false} RangesAreHeld(rd: FieldReader, at: nat, n: nat)
    requires ReadRanges(rd, at, n).Success?
    ensures |ReadRanges(rd, at, n).value| == n && Holds(rd, at, RangeFields(ReadRanges(rd, at, n).value))
    decreases n
  {
    if n > 0 {
      RangesAreHeld(rd, at + 8, n - 1);
      var rs, rest := ReadRanges(rd, at, n).value, ReadRanges(rd, at + 8, n - 1).value;
      assert rs[1..] == rest;
      JoinTwo(rd, at, 4, rs[0].0, 4, rs[0].1, RangeFields(rest));
    }
  }

  lemma FlagKept(v: nat)
    ensures Flag(v != 0) == v <==> v <= 1
  {
  }

  lemma ClassKept(bits: nat)
    requires bits < 256
    ensures Flag(bits % 2 != 0) + 2 * (bits / 2 % 8) + 16 * (bits / 16 % 8) == bits <==> bits < 128
  {
    assert bits == bits % 2 + 2 * (bits / 2 % 8) + 16 * (bits / 16);
  }

  lemma TextInsnHeld(rd: FieldReader, at: nat)
    requires ReadText(rd, at).Success?
    ensures var cs := ReadText(rd, at).value; Holds(rd, at, Cons(1, |cs|, TextFields(cs)))
  {
    TextIsHeld(rd, at + 1, rd(at, 1).value);
    var cs := ReadText(rd, at).value;
    Join(rd, at, 1, |cs|, TextFields(cs));
  }

  lemma BracketHeld(rd: FieldReader, len: nat, at: nat)
    requires Bounded(rd, len) && ReadBracket(rd, at).Success?
    ensures Holds(rd, at, BracketFields(ReadBracket(rd, at).value)) <==> ClassByte(rd, at + 4)
  {
    var b, bits := ReadBracket(rd, at).value, rd(at + 4, 1).value;
    RangesAreHeld(rd, at + 5, rd(at, 4).value);
    ByteSize();
    ClassKept(bits);
    JoinTwo(rd, at, 4, |b.ranges|, 1, ClassBits(b), RangeFields(b.ranges));
  }

  lemma AlternationHeld(rd: FieldReader, at: nat)
    requires ReadAlternation(rd, at).Success?
    ensures Holds(rd, at, OperandFields(ReadAlternation(rd, at).value))
  {
    var i := ReadAlternation(rd, at).value;
    JoinTwo(rd, at, 4, i.secondary, 1, i.primaryConstraints, Field(1, i.secondaryConstraints));
    Join(rd, at + 5, 1, i.secondaryConstraints, Nil);
  }

  lemma LookaroundHeld(rd: FieldReader, at: nat)
    requires ReadLookaround(rd, at).Success?
    ensures Holds(rd, at, OperandFields(ReadLookaround(rd, at).value)) <==> FlagByte(rd, at) && FlagByte(rd, at + 1)
  {
    var i := ReadLookaround(rd, at).value;
    var last := Field(4, i.continuation);
    var ends := Cons(2, i.mexpBegin, Cons(2, i.mexpEnd, last));
    FlagKept(rd(at, 1).value);
    FlagKept(rd(at + 1, 1).value);
    JoinTwo(rd, at, 1, Flag(i.invert), 1, Flag(i.forwards), Cons(1, i.constraints, ends));
    Join(rd, at + 2, 1, i.constraints, ends);
    JoinTwo(rd, at + 3, 2, i.mexpBegin, 2, i.mexpEnd, last);
    Join(rd, at + 7, 4, i.continuation, Nil);
  }

  lemma LoopHeadHeld(rd: FieldReader, at: nat, rest: Fields)
    requires ReadLoopHead(rd, at).Success?
    ensures var (id, min, max) := ReadLoopHead(rd, at).value;
            Holds(rd, at, LoopHeadFields(id, min, max, rest)) <==> Holds(rd, at + 12, rest)
  {
    var (id, min, max) := ReadLoopHead(rd, at).value;
    JoinTwo(rd, at, 4, id, 4, min, Cons(4, max, rest));
    Join(rd, at + 8, 4, max, rest);
  }

  lemma BeginLoopHeld(rd: FieldReader, at: nat)
    requires ReadBeginLoop(rd, at).Success?
    ensures Holds(rd, at, OperandFields(ReadBeginLoop(rd, at).value)) <==> FlagByte(rd, at + 16)
  {
    var i := ReadBeginLoop(rd, at).value;
    var last := Field(4, i.notTaken);
    var tail := Cons(1, Flag(i.greedy), Cons(1, i.constraints, last));
    FlagKept(rd(at + 16, 1).value);
    LoopHeadHeld(rd, at, Cons(2, i.mexpBegin, Cons(2, i.mexpEnd, tail)));
    JoinTwo(rd, at + 12, 2, i.mexpBegin, 2, i.mexpEnd, tail);
    JoinTwo(rd, at + 16, 1, Flag(i.greedy), 1, i.constraints, last);
    Join(rd, at + 18, 4, i.notTaken, Nil);
  }

  lemma Width1LoopHeld(rd: FieldReader, at: nat)
    requires ReadWidth1Loop(rd, at).Success?
    ensures Holds(rd, at, OperandFields(ReadWidth1Loop(rd, at).value)) <==> FlagByte(rd, at + 12)
  {
    var i := ReadWidth1Loop(rd, at).value;
    FlagKept(rd(at + 12, 1).value);
    LoopHeadHeld(rd, at, Cons(1, Flag(i.greedy), Field(4, i.notTaken)));
    JoinTwo(rd, at + 12, 1, Flag(i.greedy), 4, i.notTaken, Nil);
  }

  lemma SimpleLoopHeld(rd: FieldReader, at: nat)
    requires ReadBeginSimpleLoop(rd, at).Success?
    ensures Holds(rd, at, OperandFields(ReadBeginSimpleLoop(rd, at).value))
  {
    var i := ReadBeginSimpleLoop(rd, at).value;
    JoinTwo(rd, at, 1, i.constraints, 4, i.notTaken, Nil);
  }

  lemma SingleHeld(rd: FieldReader, op: nat, at: nat)
    requires IsSingle(op) && rd(at, SingleWidth(op)).Success?
    ensures Holds(rd, at, OperandFields(Single(op, rd(at, SingleWidth(op)).value)))
  {
    var v := rd(at, SingleWidth(op)).value;
    assert OperandFields(Single(op, v)) == Field(SingleWidth(op), v);
    Join(rd, at, SingleWidth(op), v, Nil);
  }

  lemma BoundaryHeld(rd: FieldReader, at: nat)
    requires rd(at, 1).Success?
    ensures Holds(rd, at, Field(1, Flag(rd(at, 1).value != 0))) <==> FlagByte(rd, at)
  {
    FlagKept(rd(at, 1).value);
    Join(rd, at, 1, Flag(rd(at, 1).value != 0), Nil);
  }

  /** What was decoded is found as the writer would write it exactly when the operands are canonical. */
  ghost predicate HeldWhenCanonical(rd: FieldReader, op: nat, at: nat, i: Insn) {
    Opcode(i) == op && (Holds(rd, at, OperandFields(i)) <==> CanonicalOperands(rd, op, at))
  }

  lemma OperandsHeld(rd: FieldReader, len: nat, op: nat, at: nat, offset: nat)
    requires Bounded(rd, len) && Operands(rd, op, at, offset).Success?
    ensures HeldWhenCanonical(rd, op, at, Operands(rd, op, at, offset).value)
  {
    if IsPlain(op) {
    } else if IsSingle(op) {
      SingleHeld(rd, op, at);
    } else if op in {10, 11, 15, 26} {
      SteadyOperandsHeld(rd, op, at, offset);
    } else {
      FlaggedOperandsHeld(rd, len, op, at, offset);
    }
  }

  /** Operands of which nothing is forgotten. */
  lemma SteadyOperandsHeld(rd: FieldReader, op: nat, at: nat, offset: nat)
    requires op in {10, 11, 15, 26} && Operands(rd, op, at, offset).Success?
    ensures HeldWhenCanonical(rd, op, at, Operands(rd, op, at, offset).value)
  {
    if op == 15 {
      AlternationHeld(rd, at);
    } else if op == 26 {
      SimpleLoopHeld(rd, at);
    } else {
      TextInsnHeld(rd, at);
    }
  }

  /** Operands with flag or class bytes. */
  lemma FlaggedOperandsHeld(rd: FieldReader, len: nat, op: nat, at: nat, offset: nat)
    requires !IsPlain(op) && !IsSingle(op) && op !in {10, 11, 15, 26}
    requires Bounded(rd, len) && Operands(rd, op, at, offset).Success?
    ensures HeldWhenCanonical(rd, op, at, Operands(rd, op, at, offset).value)
  {
    if op == 17 || op == 18 {
      BracketHeld(rd, len, at);
    } else if op == 22 {
      BoundaryHeld(rd, at);
    } else if op == 23 {
      LookaroundHeld(rd, at);
    } else if op == 24 {
      BeginLoopHeld(rd, at);
    } else {
      Width1LoopHeld(rd, at);
    }
  }

  lemma OpcodeRead(rd: FieldReader, at: nat, i: Insn)
    requires InsnAt(rd, at) == Success(i)
    ensures rd(at, 1) == Success(Opcode(i))
  {
  }

  /** One instruction stands in the stream as the writer would write it exactly when it is canonical. */
  lemma InsnWritten(bytes: seq<Byte>, at: nat, i: Insn)
    requires InsnAt(FieldsOf(bytes), at) == Success(i)
    ensures WrittenWhenCanonical(bytes, FieldsOf(bytes), at, i)
  {
    var rd := FieldsOf(bytes);
    FieldsBounded(bytes);
    OperandsHeld(rd, |bytes|, rd(at, 1).value, at + 1, Offset(at));
    Join(rd, at, 1, Opcode(i), OperandFields(i));
    HeldOrWritten(bytes, at, i);
  }

  lemma HeldOrWritten(bytes: seq<Byte>, at: nat, i: Insn)
    requires at <= |bytes| && InsnAt(FieldsOf(bytes), at) == Success(i)
    ensures At(bytes, at, EncodeInsn(i)) <==> Holds(FieldsOf(bytes), at, AllFields(i))
  {
    FieldsBounded(bytes);
    InsnWithin(FieldsOf(bytes), |bytes|, at);
    ByteSize();
    if At(bytes, at, EncodeInsn(i)) {
      EncodedHolds(bytes, at, AllFields(i));
    }
    if Holds(FieldsOf(bytes), at, AllFields(i)) {
      HeldIsWritten(bytes, at, AllFields(i));
    }
  }

  // ---------- Whole entries

  lemma FirstOfMany(bytes: seq<Byte>, at: nat, i: Insn, rest: seq<Byte>)
    ensures At(bytes, at, EncodeInsn(i) + rest) <==> At(bytes, at, EncodeInsn(i)) && At(bytes, at + Width(i), rest)
  {
    AtConcat(bytes, at, EncodeInsn(i), rest);
    EncodedWidth(i);
  }

  /** Instruction `i` at `at` stands as written exactly when it is canonical. */
  ghost predicate WrittenWhenCanonical(bytes: seq<Byte>, rd: FieldReader, at: nat, i: Insn) {
    At(bytes, at, EncodeInsn(i)) <==> CanonicalOperands(rd, Opcode(i), at + 1)
  }

  ghost predicate AllWrittenWhenCanonical(bytes: seq<Byte>, rd: FieldReader, at: nat, insns: seq<(nat, Insn)>)
    decreases |insns|
  {
    insns != [] ==>
      && WrittenWhenCanonical(bytes, rd, at, insns[0].1)
      && AllWrittenWhenCanonical(bytes, rd, at + Width(insns[0].1), insns[1..])
  }

  predicate CanonicalInsns(rd: FieldReader, at: nat, insns: seq<(nat, Insn)>)
    decreases |insns|
  {
    insns != [] ==>
      CanonicalOperands(rd, Opcode(insns[0].1), at + 1) && CanonicalInsns(rd, at + Width(insns[0].1), insns[1..])
  }

  /** Whatever instruction the reader finds stands as written exactly when it is canonical. */
  ghost predicate InsnsWritten(bytes: seq<Byte>, rd: FieldReader) {
    forall at: nat, i: Insn :: InsnAt(rd, at) == Success(i) ==> WrittenWhenCanonical(bytes, rd, at, i)
  }

  lemma FieldsAreWritten(bytes: seq<Byte>)
    ensures InsnsWritten(bytes, FieldsOf(bytes))
  {
    forall at: nat, i: Insn | InsnAt(FieldsOf(bytes), at) == Success(i)
      ensures WrittenWhenCanonical(bytes, FieldsOf(bytes), at, i)
    {
      InsnWritten(bytes, at, i);
    }
  }

  lemma FirstWritten(bytes: seq<Byte>, rd: FieldReader, at: nat, insns: seq<(nat, Insn)>)
    requires InsnsWritten(bytes, rd) && insns != [] && DecodesAt(rd, at, insns)
    ensures WrittenWhenCanonical(bytes, rd, at, insns[0].1) && DecodesAt(rd, at + Width(insns[0].1), insns[1..])
  {
  }

  lemma {:induction false} DecodedInsnsWritten(bytes: seq<Byte>, rd: FieldReader, at: nat, insns: seq<(nat, Insn)>)
    requires InsnsWritten(bytes, rd) && DecodesAt(rd, at, insns)
    ensures AllWrittenWhenCanonical(bytes, rd, at, insns)
    decreases |insns|
  {
    if insns != [] {
      FirstWritten(bytes, rd, at, insns);
      DecodedInsnsWritten(bytes, rd, at + Width(insns[0].1), insns[1..]);
    }
  }

  lemma {:induction false} StreamWritten(bytes: seq<Byte>, rd: FieldReader, at: nat, insns: seq<(nat, Insn)>)
    requires AllWrittenWhenCanonical(bytes, rd, at, insns) && EndOf(insns, at) <= |bytes|
    ensures At(bytes, at, EncodeInsns(insns)) <==> CanonicalInsns(rd, at, insns)
    decreases |insns|
  {
    if insns != [] {
      FirstOfMany(bytes, at, insns[0].1, EncodeInsns(insns[1..]));
      StreamWritten(bytes, rd, at + Width(insns[0].1), insns[1..]);
    }
  }

  /** One step of the walk over the fields. */
  lemma WalkOne(rd: FieldReader, len: nat, at: nat, i: Insn)
    requires InsnAt(rd, at) == Success(i) && at < len
    ensures CanonicalFrom(rd, len, at) <==> CanonicalOperands(rd, Opcode(i), at + 1) && CanonicalFrom(rd, len, at + Width(i))
  {
    WidthPositive(i);
    OpcodeRead(rd, at, i);
  }

  lemma {:induction false} WalkIsList(rd: FieldReader, len: nat, at: nat, insns: seq<(nat, Insn)>)
    requires DecodesAt(rd, at, insns) && EndOf(insns, at) == len
    ensures CanonicalFrom(rd, len, at) <==> CanonicalInsns(rd, at, insns)
    decreases |insns|
  {
    if insns != [] {
      var i := insns[0].1;
      WidthPositive(i);
      EndAfter(insns[1..], at + Width(i));
      WalkOne(rd, len, at, i);
      WalkIsList(rd, len, at + Width(i), insns[1..]);
    }
  }

  lemma HeaderKept(bytes: seq<Byte>)
    requires |bytes| >= HEADER_LEN
    ensures EncodeHeader(HeaderOf(bytes)) == bytes[..HEADER_LEN]
  {
    LeBytesOf(bytes[0..2]);
    LeBytesOf(bytes[2..4]);
    assert LeBytes(bytes[4], 1) == [bytes[4]] && LeBytes(bytes[5], 1) == [bytes[5]];
    assert bytes[..6] == bytes[0..2] + bytes[2..4] + [bytes[4]] + [bytes[5]];
  }

  lemma WholeStream(a: seq<Byte>, b: seq<Byte>)
    requires |a| == |b|
    ensures At(a, 0, b) <==> a == b
  {
    assert a[0..|b|] == a;
  }

  lemma StreamUndone(stream: seq<Byte>)
    requires InsnsFrom(FieldsOf(stream), |stream|, 0).Success? && |stream| <= STREAM_LIMIT
    ensures EncodeInsns(InsnsFrom(FieldsOf(stream), |stream|, 0).value) == stream <==>
            CanonicalFrom(FieldsOf(stream), |stream|, 0)
  {
    var insns := InsnsFrom(FieldsOf(stream), |stream|, 0).value;
    FieldsBounded(stream);
    DecodedLaid(FieldsOf(stream), |stream|, 0);
    ListUndone(stream, insns);
  }

  lemma ListUndone(stream: seq<Byte>, insns: seq<(nat, Insn)>)
    requires DecodesAt(FieldsOf(stream), 0, insns) && EndOf(insns, 0) == |stream|
    ensures EncodeInsns(insns) == stream <==> CanonicalFrom(FieldsOf(stream), |stream|, 0)
  {
    FieldsAreWritten(stream);
    DecodedInsnsWritten(stream, FieldsOf(stream), 0, insns);
    StreamWritten(stream, FieldsOf(stream), 0, insns);
    WalkIsList(FieldsOf(stream), |stream|, 0, insns);
    EncodedLength(insns, 0);
    WholeStream(stream, EncodeInsns(insns));
  }

  lemma SplitHeader(bytes: seq<Byte>, h: seq<Byte>, written: seq<Byte>)
    requires |bytes| >= HEADER_LEN && h == bytes[..HEADER_LEN]
    ensures h + written == bytes <==> written == bytes[HEADER_LEN..]
  {
    assert (h + written)[HEADER_LEN..] == written;
  }

  /** Encoding undoes decoding byte for byte if and only if the entry is canonical. */
  lemma EncodeUndoesDecode(bytes: seq<Byte>)
    requires Decode(bytes).Success? && |bytes| <= STREAM_LIMIT
    ensures Encode(Decode(bytes).value) == bytes <==> Canonical(bytes)
  {
    HeaderKept(bytes);
    StreamUndone(bytes[HEADER_LEN..]);
    SplitHeader(bytes, EncodeHeader(HeaderOf(bytes)), EncodeInsns(Decode(bytes).value.insns));
  }

  // ---------- What gets lost

  lemma OneByte(s: seq<Byte>, k: nat)
    requires k < |s|
    ensures FieldsOf(s)(k, 1) == Success(s[k])
  {
    assert s[k..k + 1] == [s[k]];
    assert LeValue([s[k]]) == s[k] + 256 * LeValue([]);
  }

  lemma OneInsnStream(rd: FieldReader, len: nat, i: Insn)
    requires InsnAt(rd, 0) == Success(i) && Width(i) == len
    ensures InsnsFrom(rd, len, 0) == Success([(0, i)])
    ensures CanonicalFrom(rd, len, 0) <==> CanonicalOperands(rd, rd(0, 1).value, 1)
  {
    WidthPositive(i);
    OneInsnMore(rd, len, 0, i, []);
    assert [(0, i)] + [] == [(0, i)];
  }

  /** The six header bytes of an entry without groups, loops and flags. */
  const PLAIN_HEADER: seq<Byte> := [0, 0, 0, 0, 0, 0]

  lemma EntryOf(stream: seq<Byte>, i: Insn)
    requires InsnAt(FieldsOf(stream), 0) == Success(i) && Width(i) == |stream|
    ensures Decode(PLAIN_HEADER + stream).Success? && Decode(PLAIN_HEADER + stream).value.insns == [(0, i)]
    ensures Canonical(PLAIN_HEADER + stream) <==> CanonicalOperands(FieldsOf(stream), FieldsOf(stream)(0, 1).value, 1)
  {
    OneInsnStream(FieldsOf(stream), |stream|, i);
    assert (PLAIN_HEADER + stream)[HEADER_LEN..] == stream;
  }

  lemma BoundaryRead(rd: FieldReader, v: nat)
    requires rd(0, 1) == Success(22) && rd(1, 1) == Success(v)
    ensures InsnAt(rd, 0) == Success(WordBoundary(v != 0))
  {
    assert Operands(rd, 22, 1, 0) == Success(WordBoundary(v != 0));
  }

  lemma BoundaryNotCanonical(rd: FieldReader, v: nat)
    requires rd(1, 1) == Success(v) && v > 1
    ensures !CanonicalOperands(rd, 22, 1)
  {
  }

  /** A flag byte above 1 decodes as true and is written back as 1. */
  lemma FlagByteIsLost(v: Byte)
    requires v > 1
    ensures var bytes := PLAIN_HEADER + [22, v];
            Decode(bytes).Success? && Encode(Decode(bytes).value) != bytes
  {
    var stream: seq<Byte> := [22, v];
    OneByte(stream, 0);
    OneByte(stream, 1);
    BoundaryRead(FieldsOf(stream), v);
    BoundaryNotCanonical(FieldsOf(stream), v);
    EntryOf(stream, WordBoundary(true));
    EncodeUndoesDecode(PLAIN_HEADER + stream);
  }

  lemma BracketRead(rd: FieldReader, v: nat)
    requires rd(0, 1) == Success(17) && rd(1, 4) == Success(0) && rd(5, 1) == Success(v)
    ensures InsnAt(rd, 0) == Success(BracketInsn(Bracket(v % 2 != 0, v / 2 % 8, v / 16 % 8, [])))
  {
    assert ReadRanges(rd, 6, 0) == Success([]);
    assert ReadBracket(rd, 1) == Success(Bracket(v % 2 != 0, v / 2 % 8, v / 16 % 8, []));
  }

  lemma NoRanges(s: seq<Byte>)
    requires |s| >= 5 && s[1..5] == [0, 0, 0, 0]
    ensures FieldsOf(s)(1, 4) == Success(0)
  {
    assert LeBytes(0, 4) == [0, 0, 0, 0];
    assert Pow256(4) > 0;
    LeRoundTrip(0, 4);
  }

  function ClassStream(v: Byte): seq<Byte> {
    [17, 0, 0, 0, 0, v]
  }

  lemma ClassStreamReads(v: Byte)
    ensures var rd := FieldsOf(ClassStream(v)); rd(0, 1) == Success(17) && rd(1, 4) == Success(0) && rd(5, 1) == Success(v)
  {
    OneByte(ClassStream(v), 0);
    NoRanges(ClassStream(v));
    OneByte(ClassStream(v), 5);
  }

  lemma NotClass(rd: FieldReader, v: nat)
    requires rd(5, 1) == Success(v) && v >= 128
    ensures !CanonicalOperands(rd, 17, 1)
  {
  }

  /** The top bit of a bracket's class byte is not looked at and is written back clear. */
  lemma ClassBitIsLost(v: Byte)
    requires v >= 128
    ensures var bytes := PLAIN_HEADER + ClassStream(v);
            Decode(bytes).Success? && Encode(Decode(bytes).value) != bytes
  {
    var i := BracketInsn(Bracket(v % 2 != 0, v / 2 % 8, v / 16 % 8, []));
    ClassStreamReads(v);
    BracketRead(FieldsOf(ClassStream(v)), v);
    NotClass(FieldsOf(ClassStream(v)), v);
    EntryOf(ClassStream(v), i);
    EncodeUndoesDecode(PLAIN_HEADER + ClassStream(v));
  }
}
