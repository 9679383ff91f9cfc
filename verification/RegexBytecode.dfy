/** Regex bytecode: packed instructions, one opcode byte and little-endian fields each. */
module RegexBytecode {
  import opened Options
  import opened Bytes

  datatype Header = Header(markedCount: nat, loopCount: nat, syntaxFlags: nat, constraints: nat)

  const HEADER_LEN: nat := 6

  datatype Bracket = Bracket(negate: bool, positive: nat, negative: nat, ranges: seq<(nat, nat)>)

  datatype Insn =
    | Goal
    | LeftAnchor
    | RightAnchor
    | MatchAny
    | U16MatchAny
    | MatchAnyButNewline
    | U16MatchAnyButNewline
    | MatchChar8(c: nat)
    | MatchChar16(c: nat)
    | U16MatchChar32(c: nat)
    | MatchNChar8(chars: seq<nat>)
    | MatchNCharICase8(chars: seq<nat>)
    | MatchCharICase8(c: nat)
    | MatchCharICase16(c: nat)
    | U16MatchCharICase32(c: nat)
    | Alternation(secondary: nat, primaryConstraints: nat, secondaryConstraints: nat)
    | Jump32(target: nat)
    | BracketInsn(bracket: Bracket)
    | U16BracketInsn(bracket: Bracket)
    | BeginMarked(group: nat)
    | EndMarked(group: nat)
    | BackRef(group: nat)
    | WordBoundary(invert: bool)
    | Lookaround(invert: bool, forwards: bool, constraints: nat, mexpBegin: nat, mexpEnd: nat, continuation: nat)
    | BeginLoop(loopId: nat, min: nat, max: nat, mexpBegin: nat, mexpEnd: nat, greedy: bool, constraints: nat, notTaken: nat)
    | EndLoop(target: nat)
    | BeginSimpleLoop(constraints: nat, notTaken: nat)
    | EndSimpleLoop(target: nat)
    | Width1Loop(loopId: nat, min: nat, max: nat, greedy: bool, notTaken: nat)

  datatype Program = Program(header: Header, insns: seq<(nat, Insn)>)

  datatype Error =
    | ShortHeader
    | PastEnd(at: nat)
    | UnknownOpcode(op: nat, offset: nat)
    | BadJump(at: nat, target: nat)
    | BadGroup(at: nat, group: nat)
    | BadLoop(at: nat, loop: nat)
    | NoGoal

  /** Bytes an instruction takes, its opcode included. */
  function Width(i: Insn): nat {
    match i
    case Goal | LeftAnchor | RightAnchor | MatchAny | U16MatchAny | MatchAnyButNewline | U16MatchAnyButNewline => 1
    case MatchChar8(_) | MatchCharICase8(_) | WordBoundary(_) => 2
    case MatchChar16(_) | MatchCharICase16(_) | BeginMarked(_) | EndMarked(_) | BackRef(_) => 3
    case U16MatchChar32(_) | U16MatchCharICase32(_) | Jump32(_) | EndLoop(_) | EndSimpleLoop(_) => 5
    case MatchNChar8(cs) => 2 + |cs|
    case MatchNCharICase8(cs) => 2 + |cs|
    case Alternation(_, _, _) => 7
    case BracketInsn(b) => 6 + 8 * |b.ranges|
    case U16BracketInsn(b) => 6 + 8 * |b.ranges|
    case Lookaround(_, _, _, _, _, _) => 12
    case BeginLoop(_, _, _, _, _, _, _, _) => 23
    case BeginSimpleLoop(_, _) => 6
    case Width1Loop(_, _, _, _, _) => 18
  }

  // ---------- Fields

  function Pow256(w: nat): (p: nat)
    ensures p > 0
  {
    if w == 0 then 1 else 256 * Pow256(w - 1)
  }

  function LeValue(s: seq<Byte>): nat {
    if s == [] then 0 else s[0] + 256 * LeValue(s[1..])
  }

  function LeBytes(v: nat, w: nat): (s: seq<Byte>)
    ensures |s| == w
  {
    if w == 0 then [] else [v % 256] + LeBytes(v / 256, w - 1)
  }

  lemma {:induction false} LeRoundTrip(v: nat, w: nat)
    requires v < Pow256(w)
    ensures LeValue(LeBytes(v, w)) == v
  {
    if w > 0 {
      LeRoundTrip(v / 256, w - 1);
      assert LeBytes(v, w)[1..] == LeBytes(v / 256, w - 1);
    }
  }

  lemma {:induction false} LeBound(s: seq<Byte>)
    ensures LeValue(s) < Pow256(|s|)
  {
    if s != [] {
      LeBound(s[1..]);
    }
  }

  /** Reads `width` bytes at a position. */
  type FieldReader = (nat, nat) -> Result<nat, Error>

  function FieldsOf(bytes: seq<Byte>): FieldReader {
    (at: nat, width: nat) =>
      if at + width <= |bytes| then Success(LeValue(bytes[at..at + width])) else Failure(PastEnd(at))
  }

  /** `n` fields of one width in a row. */
  function ReadMany(rd: FieldReader, at: nat, width: nat, n: nat): Result<seq<nat>, Error>
    decreases n
  {
    if n == 0 then Success([])
    else
      var v :- rd(at, width);
      var rest :- ReadMany(rd, at + width, width, n - 1);
      Success([v] + rest)
  }

  function ReadRanges(rd: FieldReader, at: nat, n: nat): Result<seq<(nat, nat)>, Error>
    decreases n
  {
    if n == 0 then Success([])
    else
      var lo :- rd(at, 4);
      var hi :- rd(at + 4, 4);
      var rest :- ReadRanges(rd, at + 8, n - 1);
      Success([(lo, hi)] + rest)
  }

  function ReadBracket(rd: FieldReader, at: nat): Result<Bracket, Error> {
    var count :- rd(at, 4);
    var bits :- rd(at + 4, 1);
    var ranges :- ReadRanges(rd, at + 5, count);
    Success(Bracket(bits % 2 != 0, bits / 2 % 8, bits / 16 % 8, ranges))
  }

  function ReadText(rd: FieldReader, at: nat): Result<seq<nat>, Error> {
    var n :- rd(at, 1);
    ReadMany(rd, at + 1, 1, n)
  }

  /** The instructions whose operands are a single integer, by opcode: width and builder. */
  predicate IsSingle(op: nat) {
    op in {7, 8, 9, 12, 13, 14, 16, 19, 20, 21, 25, 27}
  }

  function SingleWidth(op: nat): nat
    requires IsSingle(op)
  {
    if op == 7 || op == 12 then 1
    else if op in {8, 13, 19, 20, 21} then 2
    else 4
  }

  function Single(op: nat, v: nat): Insn
    requires IsSingle(op)
  {
    match op
    case 7 => MatchChar8(v)
    case 8 => MatchChar16(v)
    case 9 => U16MatchChar32(v)
    case 12 => MatchCharICase8(v)
    case 13 => MatchCharICase16(v)
    case 14 => U16MatchCharICase32(v)
    case 16 => Jump32(v)
    case 19 => BeginMarked(v)
    case 20 => EndMarked(v)
    case 21 => BackRef(v)
    case 25 => EndLoop(v)
    case _ => EndSimpleLoop(v)
  }

  predicate IsPlain(op: nat) {
    op < 7
  }

  function Plain(op: nat): Insn
    requires IsPlain(op)
  {
    [Goal, LeftAnchor, RightAnchor, MatchAny, U16MatchAny, MatchAnyButNewline, U16MatchAnyButNewline][op]
  }

  function ReadAlternation(rd: FieldReader, at: nat): Result<Insn, Error> {
    var s :- rd(at, 4);
    var p :- rd(at + 4, 1);
    var q :- rd(at + 5, 1);
    Success(Alternation(s, p, q))
  }

  /** Two group numbers: the first of a range and the one behind its last. */
  function ReadGroupRange(rd: FieldReader, at: nat): Result<(nat, nat), Error> {
    var begin :- rd(at, 2);
    var end :- rd(at + 2, 2);
    Success((begin, end))
  }

  function ReadLookaround(rd: FieldReader, at: nat): Result<Insn, Error> {
    var invert :- rd(at, 1);
    var forwards :- rd(at + 1, 1);
    var constraints :- rd(at + 2, 1);
    var (begin, end) :- ReadGroupRange(rd, at + 3);
    var continuation :- rd(at + 7, 4);
    Success(Lookaround(invert != 0, forwards != 0, constraints, begin, end, continuation))
  }

  /** Loop id, minimum and maximum count: how both counted loops start. */
  function ReadLoopHead(rd: FieldReader, at: nat): Result<(nat, nat, nat), Error> {
    var id :- rd(at, 4);
    var min :- rd(at + 4, 4);
    var max :- rd(at + 8, 4);
    Success((id, min, max))
  }

  function ReadBeginLoop(rd: FieldReader, at: nat): Result<Insn, Error> {
    var (id, min, max) :- ReadLoopHead(rd, at);
    var (begin, end) :- ReadGroupRange(rd, at + 12);
    var greedy :- rd(at + 16, 1);
    var constraints :- rd(at + 17, 1);
    var notTaken :- rd(at + 18, 4);
    Success(BeginLoop(id, min, max, begin, end, greedy != 0, constraints, notTaken))
  }

  function ReadBeginSimpleLoop(rd: FieldReader, at: nat): Result<Insn, Error> {
    var constraints :- rd(at, 1);
    var notTaken :- rd(at + 1, 4);
    Success(BeginSimpleLoop(constraints, notTaken))
  }

  function ReadWidth1Loop(rd: FieldReader, at: nat): Result<Insn, Error> {
    var (id, min, max) :- ReadLoopHead(rd, at);
    var greedy :- rd(at + 12, 1);
    var notTaken :- rd(at + 13, 4);
    Success(Width1Loop(id, min, max, greedy != 0, notTaken))
  }

  /** The operands of opcode `op`, read from `at`; the opcode itself sits at `offset`. */
  function Operands(rd: FieldReader, op: nat, at: nat, offset: nat): Result<Insn, Error> {
    if IsPlain(op) then Success(Plain(op))
    else if IsSingle(op) then
      var v :- rd(at, SingleWidth(op));
      Success(Single(op, v))
    else if op == 10 || op == 11 then
      var cs :- ReadText(rd, at);
      Success(if op == 10 then MatchNChar8(cs) else MatchNCharICase8(cs))
    else if op == 15 then ReadAlternation(rd, at)
    else if op == 17 || op == 18 then
      var b :- ReadBracket(rd, at);
      Success(if op == 17 then BracketInsn(b) else U16BracketInsn(b))
    else if op == 22 then
      var invert :- rd(at, 1);
      Success(WordBoundary(invert != 0))
    else if op == 23 then ReadLookaround(rd, at)
    else if op == 24 then ReadBeginLoop(rd, at)
    else if op == 26 then ReadBeginSimpleLoop(rd, at)
    else if op == 28 then ReadWidth1Loop(rd, at)
    else Failure(UnknownOpcode(op, offset))
  }

  function InsnAt(rd: FieldReader, at: nat): Result<Insn, Error> {
    var op :- rd(at, 1);
    Operands(rd, op, at + 1, Offset(at))
  }

  /** Offsets are kept in 32 bits. */
  function Offset(at: nat): nat {
    at % TWO32
  }

  lemma WidthPositive(i: Insn)
    ensures Width(i) > 0
  {
  }

  /** All instructions from `at` to `len`, each with its offset. */
  function InsnsFrom(rd: FieldReader, len: nat, at: nat): Result<seq<(nat, Insn)>, Error>
    decreases if at < len then len - at else 0
  {
    if at >= len then Success([])
    else
      var i :- InsnAt(rd, at);
      WidthPositive(i);
      var rest :- InsnsFrom(rd, len, at + Width(i));
      Success([(Offset(at), i)] + rest)
  }

  function HeaderOf(bytes: seq<Byte>): Header
    requires |bytes| >= HEADER_LEN
  {
    Header(LeValue(bytes[0..2]), LeValue(bytes[2..4]), bytes[4], bytes[5])
  }

  function Decode(bytes: seq<Byte>): Result<Program, Error> {
    if |bytes| < HEADER_LEN then Failure(ShortHeader)
    else
      var insns :- InsnsFrom(FieldsOf(bytes[HEADER_LEN..]), |bytes| - HEADER_LEN, 0);
      Success(Program(HeaderOf(bytes), insns))
  }

  // ---------- The decoder

  class Reader {
    const bytes: seq<Byte>
    var at: nat

    ghost predicate Valid()
      reads this
    {
      at <= |bytes|
    }

    constructor (bytes: seq<Byte>)
      ensures Valid() && this.bytes == bytes && at == 0
    {
      this.bytes := bytes;
      at := 0;
    }

    /** The next `n` bytes as a little-endian value; a failed read does not move. */
    method Take(n: nat) returns (r: Result<nat, Error>)
      requires Valid()
      modifies this
      ensures Valid() && r == FieldsOf(bytes)(old(at), n)
      ensures at == if r.Success? then old(at) + n else old(at)
    {
      var end := at + n;
      if end > |bytes| {
        return Failure(PastEnd(at));
      }
      var b := bytes[at..end];
      at := end;
      return Success(LeValue(b));
    }
  }

  lemma NothingYet<T>(rest: Result<seq<T>, Error>)
    ensures rest == if rest.Success? then Success([] + rest.value) else rest
  {
    if rest.Success? {
      assert [] + rest.value == rest.value;
    }
  }

  method DecodeText(r: Reader) returns (res: Result<seq<nat>, Error>)
    requires r.Valid()
    modifies r
    ensures r.Valid() && res == ReadText(FieldsOf(r.bytes), old(r.at))
    ensures res.Success? ==> r.at == old(r.at) + 1 + |res.value|
  {
    ghost var rd, start := FieldsOf(r.bytes), r.at;
    var n :- r.Take(1);
    var chars: seq<nat> := [];
    NothingYet(ReadMany(rd, start + 1, 1, n));
    for i := 0 to n
      invariant r.Valid() && rd == FieldsOf(r.bytes) && r.at == start + 1 + i && |chars| == i
      invariant ManySoFar(rd, start + 1, n, r.at, n - i, chars)
    {
      OneMoreChar(rd, start + 1, n, r.at, n - i, chars);
      var c :- r.Take(1);
      chars := chars + [c];
    }
    assert chars + [] == chars;
    return Success(chars);
  }

  /** `chars` read so far and `left` more from `at` make up all of the text. */
  ghost predicate ManySoFar(rd: FieldReader, start: nat, n: nat, at: nat, left: nat, chars: seq<nat>) {
    var all, rest := ReadMany(rd, start, 1, n), ReadMany(rd, at, 1, left);
    all == if rest.Success? then Success(chars + rest.value) else rest
  }

  lemma OneMoreChar(rd: FieldReader, start: nat, n: nat, at: nat, left: nat, chars: seq<nat>)
    requires left > 0 && ManySoFar(rd, start, n, at, left, chars)
    ensures rd(at, 1).Failure? ==> ReadMany(rd, start, 1, n) == rd(at, 1).PropagateFailure()
    ensures rd(at, 1).Success? ==> ManySoFar(rd, start, n, at + 1, left - 1, chars + [rd(at, 1).value])
  {
    var rest := ReadMany(rd, at + 1, 1, left - 1);
    if rd(at, 1).Success? && rest.Success? {
      assert chars + ([rd(at, 1).value] + rest.value) == chars + [rd(at, 1).value] + rest.value;
    }
  }

  ghost predicate RangesSoFar(rd: FieldReader, start: nat, n: nat, at: nat, left: nat, ranges: seq<(nat, nat)>) {
    var all, rest := ReadRanges(rd, start, n), ReadRanges(rd, at, left);
    all == if rest.Success? then Success(ranges + rest.value) else rest
  }

  lemma OneMoreRange(rd: FieldReader, start: nat, n: nat, at: nat, left: nat, ranges: seq<(nat, nat)>)
    requires left > 0 && RangesSoFar(rd, start, n, at, left, ranges)
    ensures rd(at, 4).Failure? ==> ReadRanges(rd, start, n) == rd(at, 4).PropagateFailure()
    ensures rd(at, 4).Success? && rd(at + 4, 4).Failure? ==> ReadRanges(rd, start, n) == rd(at + 4, 4).PropagateFailure()
    ensures rd(at, 4).Success? && rd(at + 4, 4).Success? ==>
              RangesSoFar(rd, start, n, at + 8, left - 1, ranges + [(rd(at, 4).value, rd(at + 4, 4).value)])
  {
    var rest := ReadRanges(rd, at + 8, left - 1);
    if rd(at, 4).Success? && rd(at + 4, 4).Success? && rest.Success? {
      var pair := [(rd(at, 4).value, rd(at + 4, 4).value)];
      assert ranges + (pair + rest.value) == ranges + pair + rest.value;
    }
  }

  method DecodeRanges(r: Reader, count: nat) returns (res: Result<seq<(nat, nat)>, Error>)
    requires r.Valid()
    modifies r
    ensures r.Valid() && res == ReadRanges(FieldsOf(r.bytes), old(r.at), count)
    ensures res.Success? ==> r.at == old(r.at) + 8 * count && |res.value| == count
  {
    ghost var rd, start := FieldsOf(r.bytes), r.at;
    var ranges: seq<(nat, nat)> := [];
    NothingYet(ReadRanges(rd, start, count));
    for i := 0 to count
      invariant r.Valid() && rd == FieldsOf(r.bytes) && r.at == start + 8 * i && |ranges| == i
      invariant RangesSoFar(rd, start, count, r.at, count - i, ranges)
    {
      OneMoreRange(rd, start, count, r.at, count - i, ranges);
      var lo :- r.Take(4);
      var hi :- r.Take(4);
      ranges := ranges + [(lo, hi)];
    }
    assert ranges + [] == ranges;
    return Success(ranges);
  }

  method DecodeBracket(r: Reader) returns (res: Result<Bracket, Error>)
    requires r.Valid()
    modifies r
    ensures r.Valid() && res == ReadBracket(FieldsOf(r.bytes), old(r.at))
    ensures res.Success? ==> r.at == old(r.at) + 5 + 8 * |res.value.ranges|
  {
    var count :- r.Take(4);
    var bits :- r.Take(1);
    var ranges :- DecodeRanges(r, count);
    return Success(Bracket(bits % 2 != 0, bits / 2 % 8, bits / 16 % 8, ranges));
  }

  method DecodeAlternation(r: Reader) returns (res: Result<Insn, Error>)
    requires r.Valid()
    modifies r
    ensures r.Valid() && res == ReadAlternation(FieldsOf(r.bytes), old(r.at))
    ensures res.Success? ==> r.at + 1 == old(r.at) + Width(res.value)
  {
    var s :- r.Take(4);
    var p :- r.Take(1);
    var q :- r.Take(1);
    return Success(Alternation(s, p, q));
  }

  method DecodeGroupRange(r: Reader) returns (res: Result<(nat, nat), Error>)
    requires r.Valid()
    modifies r
    ensures r.Valid() && res == ReadGroupRange(FieldsOf(r.bytes), old(r.at))
    ensures res.Success? ==> r.at == old(r.at) + 4
  {
    var begin :- r.Take(2);
    var end :- r.Take(2);
    return Success((begin, end));
  }

  method DecodeLookaround(r: Reader) returns (res: Result<Insn, Error>)
    requires r.Valid()
    modifies r
    ensures r.Valid() && res == ReadLookaround(FieldsOf(r.bytes), old(r.at))
    ensures res.Success? ==> r.at + 1 == old(r.at) + Width(res.value)
  {
    var invert :- r.Take(1);
    var forwards :- r.Take(1);
    var constraints :- r.Take(1);
    var groups :- DecodeGroupRange(r);
    var continuation :- r.Take(4);
    return Success(Lookaround(invert != 0, forwards != 0, constraints, groups.0, groups.1, continuation));
  }

  method DecodeLoopHead(r: Reader) returns (res: Result<(nat, nat, nat), Error>)
    requires r.Valid()
    modifies r
    ensures r.Valid() && res == ReadLoopHead(FieldsOf(r.bytes), old(r.at))
    ensures res.Success? ==> r.at == old(r.at) + 12
  {
    var id :- r.Take(4);
    var min :- r.Take(4);
    var max :- r.Take(4);
    return Success((id, min, max));
  }

  method DecodeBeginLoop(r: Reader) returns (res: Result<Insn, Error>)
    requires r.Valid()
    modifies r
    ensures r.Valid() && res == ReadBeginLoop(FieldsOf(r.bytes), old(r.at))
    ensures res.Success? ==> r.at + 1 == old(r.at) + Width(res.value)
  {
    var head :- DecodeLoopHead(r);
    var groups :- DecodeGroupRange(r);
    var greedy :- r.Take(1);
    var constraints :- r.Take(1);
    var notTaken :- r.Take(4);
    return Success(BeginLoop(head.0, head.1, head.2, groups.0, groups.1, greedy != 0, constraints, notTaken));
  }

  method DecodeBeginSimpleLoop(r: Reader) returns (res: Result<Insn, Error>)
    requires r.Valid()
    modifies r
    ensures r.Valid() && res == ReadBeginSimpleLoop(FieldsOf(r.bytes), old(r.at))
    ensures res.Success? ==> r.at + 1 == old(r.at) + Width(res.value)
  {
    var constraints :- r.Take(1);
    var notTaken :- r.Take(4);
    return Success(BeginSimpleLoop(constraints, notTaken));
  }

  method DecodeWidth1Loop(r: Reader) returns (res: Result<Insn, Error>)
    requires r.Valid()
    modifies r
    ensures r.Valid() && res == ReadWidth1Loop(FieldsOf(r.bytes), old(r.at))
    ensures res.Success? ==> r.at + 1 == old(r.at) + Width(res.value)
  {
    var head :- DecodeLoopHead(r);
    var greedy :- r.Take(1);
    var notTaken :- r.Take(4);
    return Success(Width1Loop(head.0, head.1, head.2, greedy != 0, notTaken));
  }

  lemma SingleWidths(op: nat, v: nat)
    requires IsSingle(op)
    ensures Width(Single(op, v)) == 1 + SingleWidth(op)
  {
  }

  lemma PlainWidths(op: nat)
    requires IsPlain(op)
    ensures Width(Plain(op)) == 1
  {
  }

  /** The operands of one opcode; the cursor ends exactly the instruction's width past its start. */
  method DecodeOperands(r: Reader, op: nat, offset: nat) returns (res: Result<Insn, Error>)
    requires r.Valid()
    modifies r
    ensures r.Valid() && res == Operands(FieldsOf(r.bytes), op, old(r.at), offset)
    ensures res.Success? ==> r.at + 1 == old(r.at) + Width(res.value)
  {
    if IsPlain(op) {
      PlainWidths(op);
      return Success(Plain(op));
    } else if IsSingle(op) {
      var v :- r.Take(SingleWidth(op));
      SingleWidths(op, v);
      return Success(Single(op, v));
    } else if op == 10 || op == 11 {
      var cs :- DecodeText(r);
      return Success(if op == 10 then MatchNChar8(cs) else MatchNCharICase8(cs));
    } else if op == 15 {
      res := DecodeAlternation(r);
    } else if op == 17 || op == 18 {
      var b :- DecodeBracket(r);
      return Success(if op == 17 then BracketInsn(b) else U16BracketInsn(b));
    } else if op == 22 {
      var invert :- r.Take(1);
      return Success(WordBoundary(invert != 0));
    } else if op == 23 {
      res := DecodeLookaround(r);
    } else if op == 24 {
      res := DecodeBeginLoop(r);
    } else if op == 26 {
      res := DecodeBeginSimpleLoop(r);
    } else if op == 28 {
      res := DecodeWidth1Loop(r);
    } else {
      return Failure(UnknownOpcode(op, offset));
    }
  }

  method DecodeInsn(r: Reader) returns (res: Result<Insn, Error>)
    requires r.Valid()
    modifies r
    ensures r.Valid() && res == InsnAt(FieldsOf(r.bytes), old(r.at))
    ensures res.Success? ==> r.at == old(r.at) + Width(res.value)
  {
    var offset := Offset(r.at);
    var op :- r.Take(1);
    res := DecodeOperands(r, op, offset);
  }

  /** `whole` is what comes of reading on from `at` with `insns` read already. */
  ghost predicate InsnsSoFar(whole: Result<seq<(nat, Insn)>, Error>, rd: FieldReader, len: nat, at: nat, insns: seq<(nat, Insn)>) {
    var rest := InsnsFrom(rd, len, at);
    whole == if rest.Success? then Success(insns + rest.value) else rest
  }

  lemma OneMoreInsn(whole: Result<seq<(nat, Insn)>, Error>, rd: FieldReader, len: nat, at: nat, insns: seq<(nat, Insn)>, read: Result<Insn, Error>)
    requires at < len && InsnsSoFar(whole, rd, len, at, insns) && read == InsnAt(rd, at)
    ensures read.Failure? ==> whole == read.PropagateFailure()
    ensures read.Success? ==> InsnsSoFar(whole, rd, len, at + Width(read.value), insns + [(Offset(at), read.value)])
  {
    if read.Success? {
      var i := read.value;
      WidthPositive(i);
      var rest := InsnsFrom(rd, len, at + Width(i));
      if rest.Success? {
        assert insns + ([(Offset(at), i)] + rest.value) == insns + [(Offset(at), i)] + rest.value;
      }
    }
  }

  lemma NoInsnYet(rd: FieldReader, len: nat)
    ensures InsnsSoFar(InsnsFrom(rd, len, 0), rd, len, 0, [])
  {
    NothingYet(InsnsFrom(rd, len, 0));
  }

  lemma AllInsnsRead(whole: Result<seq<(nat, Insn)>, Error>, rd: FieldReader, len: nat, at: nat, insns: seq<(nat, Insn)>)
    requires at >= len && InsnsSoFar(whole, rd, len, at, insns)
    ensures whole == Success(insns)
  {
    assert insns + [] == insns;
  }

  /** One round of the decoding loop: an instruction joins the list, or decoding fails as a whole. */
  method DecodeNext(r: Reader, insns: seq<(nat, Insn)>, ghost whole: Result<seq<(nat, Insn)>, Error>)
    returns (res: Result<seq<(nat, Insn)>, Error>)
    requires r.Valid() && r.at < |r.bytes|
    requires InsnsSoFar(whole, FieldsOf(r.bytes), |r.bytes|, r.at, insns)
    modifies r
    ensures r.Valid()
    ensures res.Failure? ==> whole == res
    ensures res.Success? ==> r.at > old(r.at) && InsnsSoFar(whole, FieldsOf(r.bytes), |r.bytes|, r.at, res.value)
  {
    var at := r.at;
    var insn := DecodeInsn(r);
    OneMoreInsn(whole, FieldsOf(r.bytes), |r.bytes|, at, insns, insn);
    if insn.Failure? {
      return insn.PropagateFailure();
    }
    WidthPositive(insn.value);
    return Success(insns + [(Offset(at), insn.value)]);
  }

  method DecodeInsns(r: Reader) returns (res: Result<seq<(nat, Insn)>, Error>)
    requires r.Valid() && r.at == 0
    modifies r
    ensures res == InsnsFrom(FieldsOf(r.bytes), |r.bytes|, 0)
  {
    ghost var whole := InsnsFrom(FieldsOf(r.bytes), |r.bytes|, 0);
    var insns: seq<(nat, Insn)> := [];
    NoInsnYet(FieldsOf(r.bytes), |r.bytes|);
    while r.at < |r.bytes|
      invariant r.Valid() && InsnsSoFar(whole, FieldsOf(r.bytes), |r.bytes|, r.at, insns)
      decreases |r.bytes| - r.at
    {
      insns :- DecodeNext(r, insns, whole);
    }
    AllInsnsRead(whole, FieldsOf(r.bytes), |r.bytes|, r.at, insns);
    return Success(insns);
  }

  /** Decodes a whole entry: every byte belongs to the header or to an instruction. */
  method DecodeRegex(bytes: seq<Byte>) returns (res: Result<Program, Error>)
    ensures res == Decode(bytes)
  {
    if |bytes| < HEADER_LEN {
      return Failure(ShortHeader);
    }
    var header := HeaderOf(bytes);
    var r := new Reader(bytes[HEADER_LEN..]);
    var insns :- DecodeInsns(r);
    return Success(Program(header, insns));
  }
}
