/** What a successful decode of regex bytecode guarantees about offsets and operands.

    Of the reader only this is used: what it returns lies before the end of the stream and fits the
    width asked for. From that, every instruction ends within the stream and its operands are in
    range, so a decoded program is one the writer could have written. */
module RegexLayout {
  import opened Options
  import opened Bytes
  import opened RegexBytecode
  import opened RegexEncoding

  /** Whatever the reader returns lies before `len` and fits the width asked for. */
  ghost predicate Bounded(rd: FieldReader, len: nat) {
    forall at: nat, w: nat :: rd(at, w).Success? ==> at + w <= len && rd(at, w).value < Pow256(w)
  }

  lemma FieldsBounded(bytes: seq<Byte>)
    ensures Bounded(FieldsOf(bytes), |bytes|)
  {
    forall at: nat, w: nat | FieldsOf(bytes)(at, w).Success?
      ensures at + w <= |bytes| && FieldsOf(bytes)(at, w).value < Pow256(w)
    {
      LeBound(bytes[at..at + w]);
    }
  }

  lemma {:induction false} TextWithin(rd: FieldReader, len: nat, at: nat, n: nat)
    requires Bounded(rd, len) && at <= len && ReadMany(rd, at, 1, n).Success?
    ensures var cs := ReadMany(rd, at, 1, n).value;
            |cs| == n && at + n <= len && TextFields(cs).Fit()
    decreases n
  {
    if n > 0 {
      TextWithin(rd, len, at + 1, n - 1);
      var cs := ReadMany(rd, at, 1, n).value;
      assert cs[1..] == ReadMany(rd, at + 1, 1, n - 1).value;
    }
  }

  lemma {:induction false} RangesWithin(rd: FieldReader, len: nat, at: nat, n: nat)
    requires Bounded(rd, len) && at <= len && ReadRanges(rd, at, n).Success?
    ensures var rs := ReadRanges(rd, at, n).value;
            |rs| == n && at + 8 * n <= len && RangeFields(rs).Fit()
    decreases n
  {
    if n > 0 {
      RangesWithin(rd, len, at + 8, n - 1);
      var rs := ReadRanges(rd, at, n).value;
      assert rs[1..] == ReadRanges(rd, at + 8, n - 1).value;
      assert RangeFields(rs).rest.Fit();
    }
  }

  /** The instruction lies before `len`, counted from its operands, and its operands fit. */
  ghost predicate Within(i: Insn, at: nat, len: nat) {
    at + Width(i) <= len + 1 && InRange(i)
  }

  lemma TextInsnWithin(rd: FieldReader, len: nat, at: nat)
    requires Bounded(rd, len) && ReadText(rd, at).Success?
    ensures var cs := ReadText(rd, at).value;
            at + 1 + |cs| <= len && Cons(1, |cs|, TextFields(cs)).Fit()
  {
    TextWithin(rd, len, at + 1, rd(at, 1).value);
  }

  lemma ByteSize()
    ensures Pow256(1) == 256
  {
  }

  lemma BracketWithin(rd: FieldReader, len: nat, at: nat)
    requires Bounded(rd, len) && ReadBracket(rd, at).Success?
    ensures var b := ReadBracket(rd, at).value;
            at + 5 + 8 * |b.ranges| <= len && BracketFields(b).Fit() && b.positive < 8 && b.negative < 8
  {
    RangesWithin(rd, len, at + 5, rd(at, 4).value);
    ByteSize();
    var b := ReadBracket(rd, at).value;
    assert ClassBits(b) < 256;
    assert Cons(1, ClassBits(b), RangeFields(b.ranges)).Fit();
  }

  lemma LookaroundWithin(rd: FieldReader, len: nat, at: nat)
    requires Bounded(rd, len) && ReadLookaround(rd, at).Success?
    ensures Within(ReadLookaround(rd, at).value, at, len)
  {
    var i := ReadLookaround(rd, at).value;
    ByteSize();
    var half := Cons(2, i.mexpBegin, Cons(2, i.mexpEnd, Field(4, i.continuation)));
    FitThree(2, i.mexpBegin, 2, i.mexpEnd, 4, i.continuation, Nil);
    FitThree(1, Flag(i.invert), 1, Flag(i.forwards), 1, i.constraints, half);
  }

  lemma FitOne(w: nat, v: nat)
    ensures Field(w, v).Fit() <==> v < Pow256(w)
  {
  }

  lemma FitThree(w: nat, v: nat, x: nat, u: nat, y: nat, t: nat, rest: Fields)
    ensures Cons(w, v, Cons(x, u, Cons(y, t, rest))).Fit() <==>
            (v < Pow256(w) && u < Pow256(x) && t < Pow256(y) && rest.Fit())
  {
    assert Cons(x, u, Cons(y, t, rest)).Fit() <==> (u < Pow256(x) && Cons(y, t, rest).Fit());
  }

  lemma FitTwo(w: nat, v: nat, x: nat, u: nat, rest: Fields)
    ensures Cons(w, v, Cons(x, u, rest)).Fit() <==> (v < Pow256(w) && u < Pow256(x) && rest.Fit())
  {
    assert Cons(x, u, rest).Fit() <==> (u < Pow256(x) && rest.Fit());
  }

  lemma LoopHeadWithin(rd: FieldReader, len: nat, at: nat, rest: Fields)
    requires Bounded(rd, len) && ReadLoopHead(rd, at).Success? && rest.Fit()
    ensures var (id, min, max) := ReadLoopHead(rd, at).value;
            LoopHeadFields(id, min, max, rest).Fit()
  {
    var (id, min, max) := ReadLoopHead(rd, at).value;
    FitThree(4, id, 4, min, 4, max, rest);
  }

  lemma BeginLoopWithin(rd: FieldReader, len: nat, at: nat)
    requires Bounded(rd, len) && ReadBeginLoop(rd, at).Success?
    ensures Within(ReadBeginLoop(rd, at).value, at, len)
  {
    var i := ReadBeginLoop(rd, at).value;
    ByteSize();
    var tail := Cons(1, Flag(i.greedy), Cons(1, i.constraints, Field(4, i.notTaken)));
    FitThree(1, Flag(i.greedy), 1, i.constraints, 4, i.notTaken, Nil);
    FitTwo(2, i.mexpBegin, 2, i.mexpEnd, tail);
    LoopHeadWithin(rd, len, at, Cons(2, i.mexpBegin, Cons(2, i.mexpEnd, tail)));
  }

  lemma Width1LoopWithin(rd: FieldReader, len: nat, at: nat)
    requires Bounded(rd, len) && ReadWidth1Loop(rd, at).Success?
    ensures Within(ReadWidth1Loop(rd, at).value, at, len)
  {
    var i := ReadWidth1Loop(rd, at).value;
    ByteSize();
    FitTwo(1, Flag(i.greedy), 4, i.notTaken, Nil);
    LoopHeadWithin(rd, len, at, Cons(1, Flag(i.greedy), Field(4, i.notTaken)));
  }

  lemma AlternationWithin(rd: FieldReader, len: nat, at: nat)
    requires Bounded(rd, len) && ReadAlternation(rd, at).Success?
    ensures Within(ReadAlternation(rd, at).value, at, len)
  {
    var i := ReadAlternation(rd, at).value;
    FitThree(4, i.secondary, 1, i.primaryConstraints, 1, i.secondaryConstraints, Nil);
  }

  lemma SimpleLoopWithin(rd: FieldReader, len: nat, at: nat)
    requires Bounded(rd, len) && ReadBeginSimpleLoop(rd, at).Success?
    ensures Within(ReadBeginSimpleLoop(rd, at).value, at, len)
  {
    var i := ReadBeginSimpleLoop(rd, at).value;
    FitTwo(1, i.constraints, 4, i.notTaken, Nil);
  }

  lemma SingleWithin(len: nat, at: nat, op: nat, v: nat)
    requires IsSingle(op) && at + SingleWidth(op) <= len && v < Pow256(SingleWidth(op))
    ensures Within(Single(op, v), at, len)
  {
    FitOne(SingleWidth(op), v);
    assert OperandFields(Single(op, v)) == Field(SingleWidth(op), v);
    SingleWidths(op, v);
  }

  lemma BoundaryWithin(len: nat, at: nat, invert: bool)
    requires at + 1 <= len
    ensures Within(WordBoundary(invert), at, len)
  {
    ByteSize();
  }

  lemma OperandsWithin(rd: FieldReader, len: nat, op: nat, at: nat, offset: nat)
    requires Bounded(rd, len) && at <= len && Operands(rd, op, at, offset).Success?
    ensures Within(Operands(rd, op, at, offset).value, at, len)
  {
    if IsPlain(op) {
    } else if IsSingle(op) {
      SingleWithin(len, at, op, rd(at, SingleWidth(op)).value);
    } else if op == 10 || op == 11 {
      TextInsnWithin(rd, len, at);
    } else if op == 15 {
      AlternationWithin(rd, len, at);
    } else if op == 17 || op == 18 {
      BracketWithin(rd, len, at);
    } else if op == 22 {
      BoundaryWithin(len, at, rd(at, 1).value != 0);
    } else if op == 23 {
      LookaroundWithin(rd, len, at);
    } else if op == 24 {
      BeginLoopWithin(rd, len, at);
    } else if op == 26 {
      SimpleLoopWithin(rd, len, at);
    } else {
      Width1LoopWithin(rd, len, at);
    }
  }

  lemma InsnWithin(rd: FieldReader, len: nat, at: nat)
    requires Bounded(rd, len) && InsnAt(rd, at).Success?
    ensures at + Width(InsnAt(rd, at).value) <= len && InRange(InsnAt(rd, at).value)
  {
    OperandsWithin(rd, len, rd(at, 1).value, at + 1, Offset(at));
  }

  /** A whole stream read from `at`: contiguous, in range, and ending at the end of the stream. */
  ghost predicate WellLaid(rd: FieldReader, len: nat, at: nat, insns: seq<(nat, Insn)>) {
    Laid(insns, at) && EndOf(insns, at) == len && AllInRange(insns) && DecodesAt(rd, at, insns)
  }

  lemma {:induction false} DecodedLaid(rd: FieldReader, len: nat, at: nat)
    requires Bounded(rd, len) && at <= len <= STREAM_LIMIT && InsnsFrom(rd, len, at).Success?
    ensures WellLaid(rd, len, at, InsnsFrom(rd, len, at).value)
    decreases len - at
  {
    if at < len {
      var i := InsnAt(rd, at).value;
      WidthPositive(i);
      InsnWithin(rd, len, at);
      DecodedLaid(rd, len, at + Width(i));
      OffsetExact(at);
      PrependLaid(rd, len, at, i, InsnsFrom(rd, len, at + Width(i)).value);
    }
  }

  lemma PrependLaid(rd: FieldReader, len: nat, at: nat, i: Insn, rest: seq<(nat, Insn)>)
    requires InsnAt(rd, at) == Success(i) && InRange(i) && WellLaid(rd, len, at + Width(i), rest)
    ensures WellLaid(rd, len, at, [(at, i)] + rest)
  {
    var insns := [(at, i)] + rest;
    assert insns[0] == (at, i) && insns[1..] == rest;
    assert Laid(insns, at) && AllInRange(insns) && EndOf(insns, at) == len;
    assert DecodesAt(rd, at, insns);
  }

  lemma {:induction false} LaidTail(rd: FieldReader, len: nat, at: nat, insns: seq<(nat, Insn)>, k: nat)
    requires WellLaid(rd, len, at, insns) && k < |insns|
    ensures WellLaid(rd, len, insns[k].0, insns[k..])
    ensures k > 0 ==> insns[k].0 == insns[k - 1].0 + Width(insns[k - 1].1)
    decreases k
  {
    if k == 0 {
      assert insns[0..] == insns;
    } else {
      LaidTail(rd, len, at + Width(insns[0].1), insns[1..], k - 1);
      assert insns[1..][k - 1..] == insns[k..];
    }
  }

  /** The decoder accounts for every byte: offsets start at 0, each is the previous one plus its
      width, the last instruction ends at the end, and every operand is in range. */
  lemma DecodedAccountsForEveryByte(bytes: seq<Byte>)
    requires Decode(bytes).Success? && |bytes| <= STREAM_LIMIT
    ensures var p := Decode(bytes).value;
            && HeaderInRange(p.header) && AllInRange(p.insns)
            && Laid(p.insns, 0) && EndOf(p.insns, 0) == |bytes| - HEADER_LEN
  {
    var stream := bytes[HEADER_LEN..];
    FieldsBounded(stream);
    DecodedLaid(FieldsOf(stream), |stream|, 0);
    LeBound(bytes[0..2]);
    LeBound(bytes[2..4]);
    assert Pow256(1) == 256 && Pow256(2) == 0x1_0000;
  }

  /** Writing a decoded program out gives as many bytes, and they decode to the same program. */
  lemma DecodedReencodes(bytes: seq<Byte>)
    requires Decode(bytes).Success? && |bytes| <= STREAM_LIMIT
    ensures var p := Decode(bytes).value;
            |Encode(p)| == |bytes| && Decode(Encode(p)) == Success(p)
  {
    var p := Decode(bytes).value;
    DecodedAccountsForEveryByte(bytes);
    EncodedLength(p.insns, 0);
    ProgramRoundTrip(p);
  }

  /** Decoding from any listed offset gives the rest of the program. */
  lemma DecodesFromEveryOffset(bytes: seq<Byte>, k: nat)
    requires Decode(bytes).Success? && |bytes| <= STREAM_LIMIT && k < |Decode(bytes).value.insns|
    ensures var insns, stream := Decode(bytes).value.insns, bytes[HEADER_LEN..];
            && InsnsFrom(FieldsOf(stream), |stream|, insns[k].0) == Success(insns[k..])
            && (k > 0 ==> insns[k].0 == insns[k - 1].0 + Width(insns[k - 1].1))
  {
    var insns, stream := Decode(bytes).value.insns, bytes[HEADER_LEN..];
    FieldsBounded(stream);
    DecodedLaid(FieldsOf(stream), |stream|, 0);
    LaidTail(FieldsOf(stream), |stream|, 0, insns, k);
    DecodesInsns(FieldsOf(stream), |stream|, insns[k].0, insns[k..]);
  }
}
