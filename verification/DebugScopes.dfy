/** The debug string table and the scope descriptors that name into it by byte offset. */
module DebugScopes {
  import opened Options
  import opened Bytes
  import opened Leb128

  // ---------- Well-formed UTF-8 (table 3-7 of the Unicode Standard)

  predicate Between(b: Byte, lo: int, hi: int) {
    lo <= b <= hi
  }

  function SecondByteRange(lead: Byte): (int, int) {
    if lead == 0xE0 then (0xA0, 0xBF)
    else if lead == 0xED then (0x80, 0x9F)
    else if lead == 0xF0 then (0x90, 0xBF)
    else if lead == 0xF4 then (0x80, 0x8F)
    else (0x80, 0xBF)
  }

  function SequenceLength(lead: Byte): nat {
    if lead < 0x80 then 1
    else if Between(lead, 0xC2, 0xDF) then 2
    else if Between(lead, 0xE0, 0xEF) then 3
    else if Between(lead, 0xF0, 0xF4) then 4
    else 0
  }

  predicate ValidUtf8(s: seq<Byte>) {
    s == [] ||
    var n := SequenceLength(s[0]);
    && 0 < n <= |s|
    && (n > 1 ==> var (lo, hi) := SecondByteRange(s[0]); Between(s[1], lo, hi))
    && (n > 2 ==> Between(s[2], 0x80, 0xBF))
    && (n > 3 ==> Between(s[3], 0x80, 0xBF))
    && ValidUtf8(s[n..])
  }

  // ---------- The string table

  /** A signed length and that many bytes, at the start of `tail`. */
  function NameIn(tail: seq<Byte>): Option<seq<Byte>> {
    match Sleb(tail, 0)
    case Err(_, _) => None
    case Ok(len, next) =>
      if len < 0 || next + len > |tail| then None
      else if ValidUtf8(tail[next..next + len]) then Some(tail[next..next + len])
      else None
  }

  /** The name a byte offset into the table refers to. */
  function NameAtOffset(table: seq<Byte>, offset: int): Option<seq<Byte>> {
    if offset < 0 || offset > |table| then None else NameIn(table[offset..])
  }

  method ResolveName(table: seq<Byte>, offset: int) returns (name: Option<seq<Byte>>)
    ensures name == NameAtOffset(table, offset)
  {
    if offset < 0 || offset > |table| {
      return None;
    }
    var reader := new ByteReader(table[offset..]);
    var length := reader.ReadSleb128();
    if length.Err? || length.value < 0 {
      return None;
    }
    var bytes := reader.ReadExact(length.value);
    if bytes.Err? {
      return None;
    }
    return if ValidUtf8(bytes.value) then Some(bytes.value) else None;
  }

  lemma PrefixedProgress(data: seq<Byte>, pos: nat)
    requires pos <= |data|
    ensures PrefixedString(data, pos).Ok? ==> pos < PrefixedString(data, pos).next <= |data|
  {
  }

  /** The strings filling the region from `pos` on, up to the first that does not read. */
  function Strings(data: seq<Byte>, pos: nat): seq<seq<Byte>>
    requires pos <= |data|
    decreases |data| - pos
  {
    if pos == |data| then []
    else
      PrefixedProgress(data, pos);
      match PrefixedString(data, pos)
      case Err(_, _) => []
      case Ok(s, next) => [s] + Strings(data, next)
  }

  method ParseStringTable(data: seq<Byte>) returns (strings: seq<seq<Byte>>)
    ensures strings == Strings(data, 0)
  {
    strings := [];
    var reader := new ByteReader(data);
    while reader.Remaining() > 0
      invariant reader.Valid() && reader.data == data
      invariant strings + Strings(data, reader.pos) == Strings(data, 0)
      decreases |data| - reader.pos
    {
      PrefixedProgress(data, reader.pos);
      ghost var before, p := strings, reader.pos;
      var r := reader.ReadLengthPrefixedString();
      match r
      case Ok(s, next) =>
        strings := strings + [s];
        assert before + ([s] + Strings(data, next)) == strings + Strings(data, next);
      case Err(_, _) =>
        assert strings + [] == strings;
        return;
    }
    assert strings + [] == strings;
  }

  // ---------- Writing a table

  function Prefixed(s: seq<Byte>): seq<Byte> {
    EncodeSleb(|s|) + s
  }

  function WriteTable(names: seq<seq<Byte>>): seq<Byte> {
    if names == [] then [] else Prefixed(names[0]) + WriteTable(names[1..])
  }

  /** Where the `k`-th string of a table starts. */
  function StartOf(names: seq<seq<Byte>>, k: nat): nat
    requires k <= |names|
  {
    if k == 0 then 0 else |Prefixed(names[0])| + StartOf(names[1..], k - 1)
  }

  predicate Short(s: seq<Byte>) {
    |s| < TWO63
  }

  lemma PrefixedFrom(data: seq<Byte>, pos: nat, s: seq<Byte>, next: nat)
    requires pos <= |data| && Uleb(data, pos) == Ok(|s|, next) && At(data, next, s)
    ensures PrefixedString(data, pos) == Ok(s, next + |s|)
  {
  }

  lemma PrefixedReads(data: seq<Byte>, pos: nat, s: seq<Byte>)
    requires Short(s) && At(data, pos, Prefixed(s))
    ensures pos <= |data| && PrefixedString(data, pos) == Ok(s, pos + |Prefixed(s)|)
    ensures Sleb(data, pos) == Ok(|s|, pos + |EncodeSleb(|s|)|)
    ensures At(data, pos + |EncodeSleb(|s|)|, s)
  {
    var next := pos + |EncodeSleb(|s|)|;
    AtConcat(data, pos, EncodeSleb(|s|), s);
    assert Uleb(data, pos) == Ok(|s|, next) by {
      UlebReadsSigned(data, pos, |s|);
    }
    assert Sleb(data, pos) == Ok(|s|, next) by {
      SlebRoundTrip(data, pos, |s|);
    }
    PrefixedFrom(data, pos, s, next);
  }

  lemma {:induction false} NameAt(data: seq<Byte>, pos: nat, names: seq<seq<Byte>>, k: nat)
    requires k < |names| && At(data, pos, WriteTable(names))
    ensures At(data, pos + StartOf(names, k), Prefixed(names[k]))
    decreases k
  {
    AtConcat(data, pos, Prefixed(names[0]), WriteTable(names[1..]));
    if k > 0 {
      NameAt(data, pos + |Prefixed(names[0])|, names[1..], k - 1);
    }
  }

  lemma StringsStep(data: seq<Byte>, pos: nat, s: seq<Byte>, next: nat, rest: seq<seq<Byte>>)
    requires pos < next <= |data| && PrefixedString(data, pos) == Ok(s, next)
    requires Strings(data, next) == rest
    ensures Strings(data, pos) == [s] + rest
  {
  }

  lemma TableSplit(data: seq<Byte>, pos: nat, names: seq<seq<Byte>>)
    requires names != [] && At(data, pos, WriteTable(names)) && pos + |WriteTable(names)| == |data|
    ensures At(data, pos, Prefixed(names[0]))
    ensures At(data, pos + |Prefixed(names[0])|, WriteTable(names[1..]))
    ensures pos < pos + |Prefixed(names[0])| <= |data|
    ensures pos + |Prefixed(names[0])| + |WriteTable(names[1..])| == |data|
  {
    AtConcat(data, pos, Prefixed(names[0]), WriteTable(names[1..]));
  }

  /** The table parser recovers the strings in order. */
  lemma {:induction false} TableRoundTrip(data: seq<Byte>, pos: nat, names: seq<seq<Byte>>)
    requires forall s :: s in names ==> Short(s)
    requires At(data, pos, WriteTable(names)) && pos + |WriteTable(names)| == |data|
    ensures pos <= |data| && Strings(data, pos) == names
    decreases |names|
  {
    if names != [] {
      var s := names[0];
      assert s in names;
      TableSplit(data, pos, names);
      var next := pos + |Prefixed(s)|;
      TableRoundTrip(data, next, names[1..]);
      assert PrefixedString(data, pos) == Ok(s, next) by {
        PrefixedReads(data, pos, s);
      }
      StringsStep(data, pos, s, next, names[1..]);
      assert names == [s] + names[1..];
    }
  }

  lemma NameInReads(tail: seq<Byte>, s: seq<Byte>)
    requires Short(s) && ValidUtf8(s) && At(tail, 0, Prefixed(s))
    ensures NameIn(tail) == Some(s)
  {
    PrefixedReads(tail, 0, s);
  }

  /** A reference to a string's start resolves to that string, whatever follows the table. */
  lemma NameRoundTrip(table: seq<Byte>, names: seq<seq<Byte>>, k: nat)
    requires k < |names| && Short(names[k]) && ValidUtf8(names[k])
    requires At(table, 0, WriteTable(names))
    ensures NameAtOffset(table, StartOf(names, k)) == Some(names[k])
  {
    var at, w := StartOf(names, k), Prefixed(names[k]);
    NameAt(table, 0, names, k);
    var tail := table[at..];
    assert tail[0..|w|] == table[at..at + |w|];
    NameInReads(tail, names[k]);
  }

  /** Reading one string at the same place with a signed and with an unsigned length:
      they agree exactly when the length's last byte leaves the sign bit clear, or the
      length fills all ten bytes. */
  lemma LengthsAgree(data: seq<Byte>, pos: nat)
    requires pos <= |data| < TWO63 && Uleb(data, pos).Ok?
    requires Uleb(data, pos).value <= |data|
    ensures Sleb(data, pos).Ok? && Sleb(data, pos).next == Uleb(data, pos).next
    ensures var next := Uleb(data, pos).next;
      if data[next - 1] < 64 || next - pos == MAX_LEB_BYTES then Sleb(data, pos).value == Uleb(data, pos).value
      else Sleb(data, pos).value < 0
  {
    var s := data[pos..Uleb(data, pos).next];
    var low, negative := LowValue(s), s[|s| - 1] % 128 >= 64;
    assert Uleb(data, pos).value == low % TWO64 && Sleb(data, pos).value == Wrap64(SignedValue(s));
    SignedFromLow(s);
    if |s| < MAX_LEB_BYTES {
      LowValueBound(s);
      ShortPower(|s|);
      ShortLengths(low, Pow128(|s|), negative, SignedValue(s));
    } else {
      Powers();
      LongLengths(low, negative, SignedValue(s));
    }
  }

  lemma ShortPower(n: nat)
    requires n <= 9
    ensures Pow128(n) <= TWO63
  {
    SevenBits(n);
    HighBits(n);
  }

  lemma ShortLengths(low: nat, p: nat, negative: bool, signed: int)
    requires low < p <= TWO63 && signed == low - (if negative then p else 0)
    ensures if negative then Wrap64(signed) < 0 else Wrap64(signed) == low % TWO64
  {
  }

  lemma LongLengths(low: nat, negative: bool, signed: int)
    requires signed == low - (if negative then 64 * TWO64 else 0) && low % TWO64 < TWO63
    ensures Wrap64(signed) == low % TWO64
  {
    LongSigned(low, negative);
  }

  lemma {:induction false} RunShifts(data: seq<Byte>, pos: nat, k: nat)
    requires pos + k <= |data|
    ensures Run(data[pos..], k) == Run(data, pos + k)
    decreases |data| - pos - k
  {
    if pos + k < |data| && Continues(data[pos + k]) {
      RunShifts(data, pos, k + 1);
    }
  }

  /** Reading at the start of a tail is reading where the tail starts. */
  lemma SlebShifts(data: seq<Byte>, pos: nat)
    requires pos <= |data| && Sleb(data, pos).Ok?
    ensures var r := Sleb(data, pos); Sleb(data[pos..], 0) == Ok(r.value, r.next - pos)
  {
    var n := Run(data, pos);
    RunShifts(data, pos, 0);
    assert data[pos..][0..n + 1] == data[pos..pos + n + 1];
  }

  /** A signed length read back decides which bytes the name is looked for in. */
  lemma NameByLength(data: seq<Byte>, pos: nat, len: int, next: nat)
    requires pos <= next <= |data| && Sleb(data, pos) == Ok(len, next)
    ensures len < 0 ==> NameAtOffset(data, pos) == None
    ensures 0 <= len && next + len <= |data| ==>
              NameAtOffset(data, pos) == if ValidUtf8(data[next..next + len]) then Some(data[next..next + len]) else None
  {
    SlebShifts(data, pos);
    if 0 <= len && next + len <= |data| {
      assert data[pos..][next - pos..next - pos + len] == data[next..next + len];
    }
  }

  /** Looking a string up by its offset finds what the table parser reads there if and only if the
      string is valid UTF-8 and its length's last byte leaves the sign bit clear (or is the tenth). */
  lemma NamesAgree(data: seq<Byte>, pos: nat)
    requires pos <= |data| < TWO63 && PrefixedString(data, pos).Ok?
    ensures var s, next := PrefixedString(data, pos).value, Uleb(data, pos).next;
      NameAtOffset(data, pos) == Some(s) <==> ValidUtf8(s) && (data[next - 1] < 64 || next - pos == MAX_LEB_BYTES)
  {
    var len, next := Uleb(data, pos).value, Uleb(data, pos).next;
    LengthsAgree(data, pos);
    NameByLength(data, pos, Sleb(data, pos).value, next);
    assert PrefixedString(data, pos).value == data[next..next + len];
  }

  /** A table whose only length is the unsigned one-byte 64 parses as one string, but
      that string cannot be reached by its offset. */
  lemma UnsignedLengthUnreachable(name: seq<Byte>)
    requires |name| == 64
    ensures Strings([64] + name, 0) == [name]
    ensures NameAtOffset([64] + name, 0) == None
  {
    var table: seq<Byte> := [64] + name;
    OneByteLength(table);
    assert At(table, 1, name);
    PrefixedFrom(table, 0, name, 1);
    StringsStep(table, 0, name, 65, []);
    assert [name] + [] == [name];
    NameByLength(table, 0, -64, 1);
  }

  /** The byte 64 is sixty-four as an unsigned length and minus sixty-four as a signed one. */
  lemma OneByteLength(data: seq<Byte>)
    requires data != [] && data[0] == 64
    ensures Uleb(data, 0) == Ok(64, 1) && Sleb(data, 0) == Ok(-64, 1)
  {
    assert Run(data, 0) == 0;
    assert data[0..1] == [64];
    assert LowValue([64]) == 64 && SignedValue([64]) == -64;
  }

  // ---------- Scope descriptors

  datatype ScopeDescriptor = ScopeDescriptor(
    offset: nat,
    parent: Option<nat>,
    flags: nat,
    names: seq<seq<Byte>>)

  type Reader = nat -> Read<int>

  /** Reads stay inside the first `len` positions and a successful one moves on. */
  ghost predicate Progress(rd: Reader, len: nat) {
    forall p: nat :: p <= len ==> ProgressAt(rd, len, p)
  }

  ghost predicate ProgressAt(rd: Reader, len: nat, p: nat) {
    p <= rd(p).next <= len && (rd(p).Ok? ==> p < rd(p).next)
  }

  lemma SlebProgress(data: seq<Byte>)
    ensures Progress(SlebReader(data), |data|)
  {
  }

  function NameOrEmpty(table: seq<Byte>, offset: int): seq<Byte> {
    match NameAtOffset(table, offset)
    case Some(name) => name
    case None => []
  }

  /** Up to `count` name references, stopping at the first that does not read. */
  ghost function Names(rd: Reader, pos: nat, count: nat, table: seq<Byte>): (seq<seq<Byte>>, nat)
    decreases count
  {
    if count == 0 then ([], pos)
    else
      match rd(pos)
      case Err(_, next) => ([], next)
      case Ok(offset, next) =>
        var rest := Names(rd, next, count - 1, table);
        ([NameOrEmpty(table, offset)] + rest.0, rest.1)
  }

  lemma {:induction false} NamesProgress(rd: Reader, len: nat, pos: nat, count: nat, table: seq<Byte>)
    requires Progress(rd, len) && pos <= len
    ensures pos <= Names(rd, pos, count, table).1 <= len
    decreases count
  {
    assert ProgressAt(rd, len, pos);
    if count > 0 && rd(pos).Ok? {
      NamesProgress(rd, len, rd(pos).next, count - 1, table);
    }
  }

  /** No parent is written as a negative value or as all ones. */
  function ParentOf(raw: int): Option<nat> {
    if raw < 0 || raw >= TWO32 - 1 then None else Some(raw)
  }

  datatype ReadScope = Malformed | Scope(d: ScopeDescriptor, next: nat)

  ghost function OneScope(rd: Reader, len: nat, pos: nat, offset: nat, table: seq<Byte>): ReadScope {
    match rd(pos)
    case Err(_, _) => Malformed
    case Ok(parent, afterParent) =>
      match rd(afterParent)
      case Err(_, _) => Malformed
      case Ok(flags, afterFlags) =>
        match rd(afterFlags)
        case Err(_, _) => Malformed
        case Ok(count, afterCount) =>
          if !(0 <= count <= len - afterCount) then Malformed
          else
            var r := Names(rd, afterCount, count, table);
            Scope(ScopeDescriptor(offset, ParentOf(parent), flags % TWO32, r.0), r.1)
  }

  lemma ScopeProgress(rd: Reader, len: nat, pos: nat, offset: nat, table: seq<Byte>)
    requires Progress(rd, len) && pos <= len
    ensures var r := OneScope(rd, len, pos, offset, table); r.Scope? ==> pos < r.next <= len
  {
    assert ProgressAt(rd, len, pos);
    if rd(pos).Ok? {
      var p := rd(pos).next;
      assert ProgressAt(rd, len, p);
      if rd(p).Ok? {
        var q := rd(p).next;
        assert ProgressAt(rd, len, q);
        if rd(q).Ok? && 0 <= rd(q).value {
          NamesProgress(rd, len, rd(q).next, rd(q).value, table);
        }
      }
    }
  }

  /** A 32-bit running offset, moved by the bytes from `pos` to `next`. */
  function NextOffset(offset: nat, pos: nat, next: nat): nat {
    (offset + (next - pos)) % TWO32
  }

  /** The descriptors of the region from `pos` on; `offset` is where the next one is said to start. */
  ghost function Scopes(rd: Reader, len: nat, pos: nat, offset: nat, table: seq<Byte>): seq<ScopeDescriptor>
    requires Progress(rd, len) && pos <= len
    decreases len - pos
  {
    if pos == len then []
    else
      ScopeProgress(rd, len, pos, offset, table);
      var r := OneScope(rd, len, pos, offset, table);
      if r.Malformed? then []
      else [r.d] + Scopes(rd, len, r.next, NextOffset(offset, pos, r.next), table)
  }

  ghost function ScopesOf(data: seq<Byte>, table: seq<Byte>): seq<ScopeDescriptor> {
    SlebProgress(data);
    Scopes(SlebReader(data), |data|, 0, 0, table)
  }

  /** The names read so far and those still to come make up all of them. */
  ghost predicate NamesSoFar(rd: Reader, start: nat, count: nat, table: seq<Byte>, pos: nat, left: nat, names: seq<seq<Byte>>) {
    var all, rest := Names(rd, start, count, table), Names(rd, pos, left, table);
    all == (names + rest.0, rest.1)
  }

  lemma OneMoreName(rd: Reader, start: nat, count: nat, table: seq<Byte>, pos: nat, left: nat, names: seq<seq<Byte>>)
    requires left > 0 && NamesSoFar(rd, start, count, table, pos, left, names)
    ensures rd(pos).Err? ==> Names(rd, start, count, table) == (names, rd(pos).next)
    ensures rd(pos).Ok? ==>
              NamesSoFar(rd, start, count, table, rd(pos).next, left - 1, names + [NameOrEmpty(table, rd(pos).value)])
  {
    if rd(pos).Ok? {
      var rest := Names(rd, rd(pos).next, left - 1, table).0;
      assert names + ([NameOrEmpty(table, rd(pos).value)] + rest) == names + [NameOrEmpty(table, rd(pos).value)] + rest;
    } else {
      assert names + [] == names;
    }
  }

  method ReadNames(reader: ByteReader, count: nat, table: seq<Byte>) returns (names: seq<seq<Byte>>)
    requires reader.Valid()
    modifies reader
    ensures reader.Valid()
    ensures (names, reader.pos) == Names(SlebReader(reader.data), old(reader.pos), count, table)
  {
    ghost var rd, start := SlebReader(reader.data), reader.pos;
    names := [];
    assert [] + Names(rd, start, count, table).0 == Names(rd, start, count, table).0;
    for i := 0 to count
      invariant reader.Valid() && rd == SlebReader(reader.data)
      invariant NamesSoFar(rd, start, count, table, reader.pos, count - i, names)
    {
      OneMoreName(rd, start, count, table, reader.pos, count - i, names);
      ghost var here := reader.pos;
      var r := reader.ReadSleb128();
      assert rd(here) == r;
      if r.Err? {
        return;
      }
      var name := ResolveName(table, r.value);
      names := names + [if name.Some? then name.value else []];
    }
    assert names + [] == names;
  }

  method ReadDescriptor(reader: ByteReader, offset: nat, table: seq<Byte>) returns (r: ReadScope)
    requires reader.Valid()
    modifies reader
    ensures reader.Valid()
    ensures r == OneScope(SlebReader(reader.data), |reader.data|, old(reader.pos), offset, table)
    ensures r.Scope? ==> reader.pos == r.next
  {
    ghost var rd := SlebReader(reader.data);
    ghost var p0 := reader.pos;
    var parent := reader.ReadSleb128();
    assert rd(p0) == parent;
    if parent.Err? {
      return Malformed;
    }
    ghost var p1 := reader.pos;
    var flags := reader.ReadSleb128();
    assert rd(p1) == flags;
    if flags.Err? {
      return Malformed;
    }
    ghost var p2 := reader.pos;
    var count := reader.ReadSleb128();
    assert rd(p2) == count;
    if count.Err? {
      return Malformed;
    }
    if !(0 <= count.value <= reader.Remaining()) {
      return Malformed;
    }
    var names := ReadNames(reader, count.value, table);
    return Scope(ScopeDescriptor(offset, ParentOf(parent.value), flags.value % TWO32, names), reader.pos);
  }

  lemma ScopesStep(rd: Reader, len: nat, pos: nat, offset: nat, table: seq<Byte>)
    requires Progress(rd, len) && pos < len
    ensures var r := OneScope(rd, len, pos, offset, table);
      if r.Malformed? then Scopes(rd, len, pos, offset, table) == []
      else
        && pos < r.next <= len
        && Scopes(rd, len, pos, offset, table) == [r.d] + Scopes(rd, len, r.next, NextOffset(offset, pos, r.next), table)
  {
    ScopeProgress(rd, len, pos, offset, table);
  }

  /** The descriptors found so far and those still to come make up all of them. */
  ghost predicate ScopesSoFar(rd: Reader, len: nat, table: seq<Byte>, pos: nat, offset: nat, found: seq<ScopeDescriptor>)
    requires Progress(rd, len) && pos <= len
  {
    Scopes(rd, len, 0, 0, table) == found + Scopes(rd, len, pos, offset, table)
  }

  lemma OneMoreScope(rd: Reader, len: nat, table: seq<Byte>, pos: nat, offset: nat, found: seq<ScopeDescriptor>, r: ReadScope)
    requires Progress(rd, len) && pos < len && ScopesSoFar(rd, len, table, pos, offset, found)
    requires r == OneScope(rd, len, pos, offset, table)
    ensures r.Malformed? ==> Scopes(rd, len, 0, 0, table) == found
    ensures r.Scope? ==> pos < r.next <= len
    ensures r.Scope? ==> ScopesSoFar(rd, len, table, r.next, NextOffset(offset, pos, r.next), found + [r.d])
  {
    ScopesStep(rd, len, pos, offset, table);
    if r.Malformed? {
      assert found + [] == found;
    } else {
      var rest := Scopes(rd, len, r.next, NextOffset(offset, pos, r.next), table);
      assert found + ([r.d] + rest) == found + [r.d] + rest;
    }
  }

  method ParseScopeDescriptors(data: seq<Byte>, table: seq<Byte>) returns (descriptors: seq<ScopeDescriptor>)
    ensures descriptors == ScopesOf(data, table)
  {
    SlebProgress(data);
    ghost var rd := SlebReader(data);
    descriptors := [];
    var reader := new ByteReader(data);
    var currentOffset: nat := 0;
    assert [] + Scopes(rd, |data|, 0, 0, table) == Scopes(rd, |data|, 0, 0, table);
    while reader.Remaining() > 0
      invariant reader.Valid() && reader.data == data
      invariant ScopesSoFar(rd, |data|, table, reader.pos, currentOffset, descriptors)
      decreases |data| - reader.pos
    {
      var startPos := reader.pos;
      var r := ReadDescriptor(reader, currentOffset, table);
      OneMoreScope(rd, |data|, table, startPos, currentOffset, descriptors, r);
      if r.Malformed? {
        return;
      }
      descriptors := descriptors + [r.d];
      currentOffset := NextOffset(currentOffset, startPos, reader.pos);
    }
    assert descriptors + [] == descriptors;
  }

  // ---------- Writing a region

  datatype Record = Record(parent: int, flags: int, nameOffsets: seq<int>)

  function RecordFields(r: Record): seq<int> {
    [r.parent, r.flags, |r.nameOffsets|] + r.nameOffsets
  }

  function WriteRecord(r: Record): seq<Byte> {
    EncodeAll(RecordFields(r))
  }

  function WriteScopes(rs: seq<Record>): seq<Byte> {
    if rs == [] then [] else WriteRecord(rs[0]) + WriteScopes(rs[1..])
  }

  /** Where the `k`-th record of a region starts. */
  function RecordStart(rs: seq<Record>, k: nat): nat
    requires k <= |rs|
  {
    if k == 0 then 0 else |WriteRecord(rs[0])| + RecordStart(rs[1..], k - 1)
  }

  function ResolveAll(offsets: seq<int>, table: seq<Byte>): (r: seq<seq<Byte>>)
    ensures |r| == |offsets| && forall i :: 0 <= i < |r| ==> r[i] == NameOrEmpty(table, offsets[i])
  {
    if offsets == [] then [] else [NameOrEmpty(table, offsets[0])] + ResolveAll(offsets[1..], table)
  }

  function DescriptorOf(r: Record, offset: nat, table: seq<Byte>): ScopeDescriptor {
    ScopeDescriptor(offset, ParentOf(r.parent), r.flags % TWO32, ResolveAll(r.nameOffsets, table))
  }

  function Descriptors(rs: seq<Record>, offset: nat, table: seq<Byte>): seq<ScopeDescriptor> {
    if rs == [] then []
    else [DescriptorOf(rs[0], offset, table)] + Descriptors(rs[1..], offset + |WriteRecord(rs[0])|, table)
  }

  lemma {:induction false} NamesRead(rd: Reader, pos: nat, offsets: seq<int>, table: seq<Byte>, end: nat)
    requires Carries(rd, pos, offsets, end)
    ensures Names(rd, pos, |offsets|, table) == (ResolveAll(offsets, table), end)
    decreases |offsets|
  {
    if offsets != [] {
      NamesRead(rd, rd(pos).next, offsets[1..], table, end);
    }
  }

  lemma CarriesHead(rd: Reader, pos: nat, v: int, rest: seq<int>, end: nat)
    requires Carries(rd, pos, [v] + rest, end)
    ensures rd(pos).Ok? && rd(pos).value == v && Carries(rd, rd(pos).next, rest, end)
  {
    assert ([v] + rest)[1..] == rest;
  }

  lemma {:induction false} CarriesLength(rd: Reader, len: nat, pos: nat, vs: seq<int>, end: nat)
    requires Progress(rd, len) && pos <= len && Carries(rd, pos, vs, end)
    ensures pos + |vs| <= end <= len
    decreases |vs|
  {
    if vs != [] {
      assert ProgressAt(rd, len, pos);
      CarriesLength(rd, len, rd(pos).next, vs[1..], end);
    }
  }

  lemma RecordReads(rd: Reader, len: nat, pos: nat, r: Record, offset: nat, table: seq<Byte>, end: nat)
    requires Progress(rd, len) && pos <= len
    requires Carries(rd, pos, RecordFields(r), end)
    ensures OneScope(rd, len, pos, offset, table) == Scope(DescriptorOf(r, offset, table), end)
  {
    var names := r.nameOffsets;
    assert RecordFields(r) == [r.parent] + ([r.flags] + ([|names|] + names));
    CarriesHead(rd, pos, r.parent, [r.flags] + ([|names|] + names), end);
    var p1 := rd(pos).next;
    CarriesHead(rd, p1, r.flags, [|names|] + names, end);
    var p2 := rd(p1).next;
    CarriesHead(rd, p2, |names|, names, end);
    var p3 := rd(p2).next;
    assert ProgressAt(rd, len, pos) && ProgressAt(rd, len, p1) && ProgressAt(rd, len, p2);
    CarriesLength(rd, len, p3, names, end);
    NamesRead(rd, p3, names, table, end);
  }

  predicate Encodable(r: Record) {
    AllInt64(RecordFields(r))
  }

  lemma RecordSplit(data: seq<Byte>, pos: nat, rs: seq<Record>)
    requires rs != [] && Encodable(rs[0])
    requires At(data, pos, WriteScopes(rs)) && pos + |WriteScopes(rs)| == |data|
    ensures var end := pos + |WriteRecord(rs[0])|;
      && Carries(SlebReader(data), pos, RecordFields(rs[0]), end)
      && At(data, end, WriteScopes(rs[1..])) && end + |WriteScopes(rs[1..])| == |data|
      && pos < end <= |data|
  {
    AtConcat(data, pos, WriteRecord(rs[0]), WriteScopes(rs[1..]));
    EncodedCarries(data, pos, RecordFields(rs[0]));
    EncodeAllLength(RecordFields(rs[0]));
  }

  lemma ScopeRead(rd: Reader, len: nat, pos: nat, r: Record, table: seq<Byte>, end: nat)
    requires Progress(rd, len) && pos < end <= len < TWO32 && Carries(rd, pos, RecordFields(r), end)
    ensures Scopes(rd, len, pos, pos, table) == [DescriptorOf(r, pos, table)] + Scopes(rd, len, end, end, table)
  {
    RecordReads(rd, len, pos, r, pos, table, end);
    ScopesStep(rd, len, pos, pos, table);
  }

  /** Parsing a written region gives every record back, each at the offset where it was written. */
  lemma {:induction false} ScopesRoundTrip(data: seq<Byte>, pos: nat, rs: seq<Record>, table: seq<Byte>)
    requires forall r :: r in rs ==> Encodable(r)
    requires At(data, pos, WriteScopes(rs)) && pos + |WriteScopes(rs)| == |data| < TWO32
    ensures Progress(SlebReader(data), |data|)
    ensures pos <= |data| && Scopes(SlebReader(data), |data|, pos, pos, table) == Descriptors(rs, pos, table)
    decreases |rs|
  {
    SlebProgress(data);
    if rs != [] {
      var end := pos + |WriteRecord(rs[0])|;
      assert rs[0] in rs;
      RecordSplit(data, pos, rs);
      ScopeRead(SlebReader(data), |data|, pos, rs[0], table, end);
      ScopesRoundTrip(data, end, rs[1..], table);
    }
  }

  lemma {:induction false} DescriptorAt(rs: seq<Record>, offset: nat, table: seq<Byte>, k: nat)
    requires k < |rs|
    ensures |Descriptors(rs, offset, table)| == |rs|
    ensures Descriptors(rs, offset, table)[k] == DescriptorOf(rs[k], offset + RecordStart(rs, k), table)
    decreases |rs|
  {
    if k > 0 {
      DescriptorAt(rs[1..], offset + |WriteRecord(rs[0])|, table, k - 1);
    } else if |rs| > 1 {
      DescriptorAt(rs[1..], offset + |WriteRecord(rs[0])|, table, 0);
    }
  }

  lemma {:induction false} StartsGrow(rs: seq<Record>, j: nat, k: nat)
    requires j < k <= |rs|
    ensures RecordStart(rs, j) < RecordStart(rs, k)
    decreases k
  {
    EncodeAllLength(RecordFields(rs[0]));
    if j > 0 {
      StartsGrow(rs[1..], j - 1, k - 1);
    }
  }

  lemma OffsetAt(rs: seq<Record>, table: seq<Byte>, k: nat)
    requires k < |rs|
    ensures |Descriptors(rs, 0, table)| == |rs| && Descriptors(rs, 0, table)[k].offset == RecordStart(rs, k)
  {
    DescriptorAt(rs, 0, table, k);
  }

  lemma OffsetsDistinct(rs: seq<Record>, table: seq<Byte>, ds: seq<ScopeDescriptor>, k: nat)
    requires ds == Descriptors(rs, 0, table) && k < |rs| == |ds|
    ensures forall j :: 0 <= j < k ==> ds[j].offset != ds[k].offset
  {
    OffsetAt(rs, table, k);
    forall j | 0 <= j < k ensures ds[j].offset != ds[k].offset {
      OffsetAt(rs, table, j);
      StartsGrow(rs, j, k);
    }
  }

  // ---------- Variable maps

  ghost function VariableMap(names: seq<seq<Byte>>): map<nat, seq<Byte>> {
    map i: nat | i < |names| && names[i] != [] :: names[i]
  }

  /** The names of the first descriptor at the given offset, keyed by position, empty ones left out. */
  method BuildVariableMap(descriptors: seq<ScopeDescriptor>, functionScope: Option<nat>)
    returns (vars: map<nat, seq<Byte>>)
    ensures functionScope.None? ==> vars == map[]
    ensures functionScope.Some? && (forall d :: d in descriptors ==> d.offset != functionScope.value) ==> vars == map[]
    ensures forall k | 0 <= k < |descriptors| && functionScope == Some(descriptors[k].offset) &&
              (forall j :: 0 <= j < k ==> descriptors[j].offset != descriptors[k].offset) ::
              vars == VariableMap(descriptors[k].names)
  {
    vars := map[];
    if functionScope.None? {
      return;
    }
    var i := 0;
    while i < |descriptors| && descriptors[i].offset != functionScope.value
      invariant i <= |descriptors|
      invariant forall j :: 0 <= j < i ==> descriptors[j].offset != functionScope.value
    {
      i := i + 1;
    }
    if i < |descriptors| {
      var names := descriptors[i].names;
      for n := 0 to |names|
        invariant vars == VariableMap(names[..n])
      {
        VariableMapSnoc(names, n);
        if names[n] != [] {
          vars := vars[n := names[n]];
        }
      }
      assert names[..|names|] == names;
    }
  }

  lemma VariableMapSnoc(names: seq<seq<Byte>>, n: nat)
    requires n < |names|
    ensures VariableMap(names[..n + 1]) ==
            if names[n] == [] then VariableMap(names[..n]) else VariableMap(names[..n])[n := names[n]]
  {
    var shorter, longer := names[..n], names[..n + 1];
    assert forall i :: 0 <= i < n ==> longer[i] == shorter[i];
  }

  /** The record's name references are the starts of the given strings. */
  predicate Refers(r: Record, names: seq<seq<Byte>>, indices: seq<nat>) {
    |r.nameOffsets| == |indices| &&
    forall i :: 0 <= i < |indices| ==> indices[i] < |names| && r.nameOffsets[i] == StartOf(names, indices[i])
  }

  ghost function NamesFor(names: seq<seq<Byte>>, indices: seq<nat>): map<nat, seq<Byte>>
    requires forall i :: 0 <= i < |indices| ==> indices[i] < |names|
  {
    map i: nat | i < |indices| && names[indices[i]] != [] :: names[indices[i]]
  }

  lemma NamesResolve(r: Record, names: seq<seq<Byte>>, indices: seq<nat>, table: seq<Byte>, offset: nat)
    requires forall s :: s in names ==> Short(s) && ValidUtf8(s)
    requires At(table, 0, WriteTable(names)) && Refers(r, names, indices)
    ensures VariableMap(DescriptorOf(r, offset, table).names) == NamesFor(names, indices)
  {
    var resolved := DescriptorOf(r, offset, table).names;
    forall i | 0 <= i < |indices| ensures resolved[i] == names[indices[i]] {
      assert names[indices[i]] in names;
      NameRoundTrip(table, names, indices[i]);
    }
    assert |resolved| == |indices|;
  }

  lemma RegionRoundTrip(rs: seq<Record>, table: seq<Byte>)
    requires (forall r :: r in rs ==> Encodable(r)) && |WriteScopes(rs)| < TWO32
    ensures ScopesOf(WriteScopes(rs), table) == Descriptors(rs, 0, table)
  {
    var data := WriteScopes(rs);
    assert data[0..|data|] == data;
    ScopesRoundTrip(data, 0, rs, table);
  }

  /** Of descriptors listed in written order, the `k`-th is found by its own offset and
      its variable map holds the strings its references were written for. */
  ghost predicate Resolves(ds: seq<ScopeDescriptor>, k: nat, at: nat, names: map<nat, seq<Byte>>) {
    && k < |ds| && ds[k].offset == at
    && (forall j :: 0 <= j < k ==> ds[j].offset != at)
    && VariableMap(ds[k].names) == names
  }

  lemma WrittenResolves(rs: seq<Record>, k: nat, names: seq<seq<Byte>>, indices: seq<nat>, table: seq<Byte>)
    requires k < |rs|
    requires forall s :: s in names ==> Short(s) && ValidUtf8(s)
    requires At(table, 0, WriteTable(names)) && Refers(rs[k], names, indices)
    ensures Resolves(Descriptors(rs, 0, table), k, RecordStart(rs, k), NamesFor(names, indices))
  {
    var ds := Descriptors(rs, 0, table);
    OffsetAt(rs, table, k);
    OffsetsDistinct(rs, table, ds, k);
    assert VariableMap(ds[k].names) == NamesFor(names, indices) by {
      DescriptorAt(rs, 0, table, k);
      NamesResolve(rs[k], names, indices, table, RecordStart(rs, k));
    }
  }

  /** End to end: after parsing a written region, looking up the place a record was
      written finds that record's names. */
  lemma VariablesRoundTrip(rs: seq<Record>, k: nat, names: seq<seq<Byte>>, indices: seq<nat>, table: seq<Byte>)
    requires k < |rs| && (forall r :: r in rs ==> Encodable(r)) && |WriteScopes(rs)| < TWO32
    requires forall s :: s in names ==> Short(s) && ValidUtf8(s)
    requires At(table, 0, WriteTable(names)) && Refers(rs[k], names, indices)
    ensures Resolves(ScopesOf(WriteScopes(rs), table), k, RecordStart(rs, k), NamesFor(names, indices))
  {
    RegionRoundTrip(rs, table);
    WrittenResolves(rs, k, names, indices, table);
  }

  /** What a descriptor says of its record: where it starts, no parent for a negative one or for all
      ones, the low 32 bits of the flags, and a name for each reference. */
  ghost predicate SaysFields(d: ScopeDescriptor, r: Record, at: nat, table: seq<Byte>) {
    && d.offset == at
    && (forall v: nat :: d.parent == Some(v) <==> r.parent == v && v < 0xffff_ffff)
    && d.flags == r.flags % 0x1_0000_0000
    && |d.names| == |r.nameOffsets|
    && forall i :: 0 <= i < |d.names| ==> NameSaid(d.names[i], table, r.nameOffsets[i])
  }

  ghost predicate NameSaid(name: seq<Byte>, table: seq<Byte>, offset: int) {
    name == match NameAtOffset(table, offset) case Some(n) => n case None => []
  }

  lemma DescriptorSaysFields(r: Record, offset: nat, table: seq<Byte>)
    ensures SaysFields(DescriptorOf(r, offset, table), r, offset, table)
  {
  }

  ghost predicate AllSayFields(ds: seq<ScopeDescriptor>, rs: seq<Record>, table: seq<Byte>) {
    |ds| == |rs| && forall k :: 0 <= k < |rs| ==> SaysFields(ds[k], rs[k], RecordStart(rs, k), table)
  }

  lemma DescriptorsSayFields(rs: seq<Record>, table: seq<Byte>)
    ensures AllSayFields(Descriptors(rs, 0, table), rs, table)
  {
    if rs != [] {
      DescriptorAt(rs, 0, table, 0);
    }
    forall k | 0 <= k < |rs| ensures SaysFields(Descriptors(rs, 0, table)[k], rs[k], RecordStart(rs, k), table) {
      DescriptorAt(rs, 0, table, k);
      DescriptorSaysFields(rs[k], RecordStart(rs, k), table);
    }
  }

  lemma RecordsSayFields(rs: seq<Record>, table: seq<Byte>)
    requires (forall r :: r in rs ==> Encodable(r)) && |WriteScopes(rs)| < 0x1_0000_0000
    ensures AllSayFields(ScopesOf(WriteScopes(rs), table), rs, table)
  {
    RegionRoundTrip(rs, table);
    DescriptorsSayFields(rs, table);
  }
}
