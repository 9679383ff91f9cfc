/** String table entries: a flag, a 23-bit offset and an 8-bit length in one word, and a table of
    records for the strings that do not fit. */
module SmallStrings {
  import opened Bytes
  import opened Options

  const OFFSET_LIMIT: nat := 0x80_0000
  const LENGTH_OVERFLOW: nat := 0xff

  type Word = x: int | 0 <= x < TWO32

  datatype Entry = Entry(isUtf16: bool, offset: Word, length: Word)

  function Flag(b: bool): nat {
    if b then 1 else 0
  }

  /** The fields of a word: one bit, 23 bits, eight bits, low end first. */
  function Decode(raw: Word): Entry {
    Entry(raw % 2 != 0, raw / 2 % OFFSET_LIMIT, raw / 0x100_0000)
  }

  /** Shifting drops the length's high bits and masking the offset's, so the fields never overlap. */
  function Encode(e: Entry): Word {
    e.length % 0x100 * 0x100_0000 + e.offset % OFFSET_LIMIT * 2 + Flag(e.isUtf16)
  }

  /** The same packing with the machine's own shifts, masks and ors. */
  lemma PackedBits(flag: bv32, offset: bv32, length: bv32)
    requires flag <= 1
    ensures (length << 24) | ((offset & 0x7f_ffff) << 1) | flag
         == (length & 0xff) * 0x100_0000 + (offset & 0x7f_ffff) * 2 + flag
  {
  }

  /** And the unpacking: the low bit, the 23 bits above it and the top eight. */
  lemma UnpackedBits(raw: bv32)
    ensures raw & 1 == raw % 2 && (raw >> 1) & 0x7f_ffff == raw / 2 % 0x80_0000 && raw >> 24 == raw / 0x100_0000
  {
  }

  function OverflowIndex(e: Entry): Option<nat> {
    if e.length == LENGTH_OVERFLOW then Some(e.offset) else None
  }

  type Record = (Word, Word)

  /** The offset and length an entry stands for. */
  function Resolve(e: Entry, overflow: seq<Record>): Option<Record> {
    match OverflowIndex(e)
    case Some(i) => if i < |overflow| then Some(overflow[i]) else None
    case None => Some((e.offset, e.length))
  }

  predicate NeedsRecord(offset: Word, length: Word) {
    !(offset < OFFSET_LIMIT && length < LENGTH_OVERFLOW)
  }

  /** The entry for a string, and whether a record has to be appended for it. */
  function ForString(isUtf16: bool, offset: Word, length: Word, nextRecord: Word): (Entry, bool) {
    if NeedsRecord(offset, length) then (Entry(isUtf16, nextRecord, LENGTH_OVERFLOW), true)
    else (Entry(isUtf16, offset, length), false)
  }

  /** Every word is an entry: unpacking and packing again gives it back. */
  lemma EncodeDecode(raw: Word)
    ensures Encode(Decode(raw)) == raw
  {
    var high, rest := raw / 0x100_0000, raw % 0x100_0000;
    assert raw == high * 0x100_0000 + rest && high < 0x100;
    assert raw / 2 == high * OFFSET_LIMIT + rest / 2 && rest / 2 < OFFSET_LIMIT;
    Split23(high, rest / 2);
    assert rest == rest / 2 * 2 + raw % 2;
  }

  lemma Split23(q: nat, r: nat)
    requires r < OFFSET_LIMIT
    ensures (q * OFFSET_LIMIT + r) % OFFSET_LIMIT == r && (q * OFFSET_LIMIT + r) / OFFSET_LIMIT == q
  {
  }

  lemma Split24(q: nat, r: nat)
    requires r < 0x100_0000
    ensures (q * 0x100_0000 + r) % 0x100_0000 == r && (q * 0x100_0000 + r) / 0x100_0000 == q
  {
  }

  lemma SplitFlag(q: nat, r: nat)
    requires r < 2
    ensures (q * 2 + r) % 2 == r && (q * 2 + r) / 2 == q
  {
  }

  /** What packing keeps: the low 23 bits of the offset and the low eight of the length. */
  lemma DecodeEncode(e: Entry)
    ensures Decode(Encode(e)) == Entry(e.isUtf16, e.offset % OFFSET_LIMIT, e.length % 0x100)
  {
    var length, offset, flag := e.length % 0x100, e.offset % OFFSET_LIMIT, Flag(e.isUtf16);
    var raw := Encode(e);
    Split24(length, offset * 2 + flag);
    assert raw / 0x100_0000 == length;
    assert raw == (length * OFFSET_LIMIT + offset) * 2 + flag;
    SplitFlag(length * OFFSET_LIMIT + offset, flag);
    Split23(length, offset);
  }

  // ---------- Building a table

  datatype Stored = Stored(isUtf16: bool, offset: Word, length: Word) {
    predicate Overflows() {
      NeedsRecord(offset, length)
    }
  }

  /** The records of the strings that do not fit, in table order. */
  function Records(strings: seq<Stored>): seq<Record> {
    if strings == [] then []
    else
      var n := |strings| - 1;
      var before := Records(strings[..n]);
      if strings[n].Overflows() then before + [(strings[n].offset, strings[n].length)] else before
  }

  /** The word laid out for string `k`. */
  function Small(strings: seq<Stored>, k: nat): Word
    requires k < |strings|
  {
    var s := strings[k];
    Encode(ForString(s.isUtf16, s.offset, s.length, |Records(strings[..k])| % TWO32).0)
  }

  /** Lays the strings out: a word for each, a record whenever one is asked for. */
  method LayOut(strings: seq<Stored>) returns (small: seq<Word>, overflow: seq<Record>)
    ensures |small| == |strings| && forall k :: 0 <= k < |small| ==> small[k] == Small(strings, k)
    ensures overflow == Records(strings)
  {
    small, overflow := [], [];
    for i := 0 to |strings|
      invariant |small| == i && forall k :: 0 <= k < i ==> small[k] == Small(strings, k)
      invariant overflow == Records(strings[..i])
    {
      assert strings[..i + 1][..i] == strings[..i];
      var s := strings[i];
      var (entry, needsRecord) := ForString(s.isUtf16, s.offset, s.length, |overflow| % TWO32);
      if needsRecord {
        overflow := overflow + [(s.offset, s.length)];
      }
      small := small + [Encode(entry)];
    }
    assert strings[..|strings|] == strings;
  }

  /** The record a string gets stands behind those of the strings before it. */
  lemma {:induction false} RecordPlace(strings: seq<Stored>, k: nat)
    requires k < |strings| && strings[k].Overflows()
    ensures var j := |Records(strings[..k])|;
            j < |Records(strings)| && Records(strings)[j] == (strings[k].offset, strings[k].length)
    decreases |strings|
  {
    var n := |strings| - 1;
    if k < n {
      RecordPlace(strings[..n], k);
      assert strings[..n][..k] == strings[..k];
    }
  }

  lemma LowBits(j: nat)
    ensures j % TWO32 % OFFSET_LIMIT == j % OFFSET_LIMIT && j % OFFSET_LIMIT <= j
  {
    var q := j / TWO32;
    assert j == q * TWO32 + j % TWO32 && TWO32 == 512 * OFFSET_LIMIT;
    var r := j % TWO32;
    var t := r / OFFSET_LIMIT;
    assert r == t * OFFSET_LIMIT + r % OFFSET_LIMIT;
    assert j == (q * 512 + t) * OFFSET_LIMIT + r % OFFSET_LIMIT;
    Split23(q * 512 + t, r % OFFSET_LIMIT);
  }

  /** A string that fits resolves to itself; one that does not resolves to the record at the low 23
      bits of its record's number. */
  lemma ResolvesTo(strings: seq<Stored>, k: nat)
    requires k < |strings|
    ensures var s, e, records := strings[k], Decode(Small(strings, k)), Records(strings);
            var j := |Records(strings[..k])|;
            && e.isUtf16 == s.isUtf16
            && (!s.Overflows() ==> Resolve(e, records) == Some((s.offset, s.length)))
            && (s.Overflows() ==> j < |records| && Resolve(e, records) == Some(records[j % OFFSET_LIMIT]))
  {
    var s, j := strings[k], |Records(strings[..k])|;
    var e := ForString(s.isUtf16, s.offset, s.length, j % TWO32).0;
    DecodeEncode(e);
    if s.Overflows() {
      RecordPlace(strings, k);
      LowBits(j);
      assert Decode(Small(strings, k)) == Entry(s.isUtf16, j % OFFSET_LIMIT, LENGTH_OVERFLOW);
    }
  }

  /** The entry of string `k` stands for the string's own offset and length. */
  predicate Faithful(strings: seq<Stored>, k: nat)
    requires k < |strings|
  {
    Resolve(Decode(Small(strings, k)), Records(strings)) == Some((strings[k].offset, strings[k].length))
  }

  /** Every entry of a table resolves to its own string while 23 bits can number the records. */
  lemma TableResolves(strings: seq<Stored>, k: nat)
    requires k < |strings| && |Records(strings)| <= OFFSET_LIMIT
    ensures Faithful(strings, k)
  {
    ResolvesTo(strings, k);
    if strings[k].Overflows() {
      RecordPlace(strings, k);
      SmallNumber(|Records(strings[..k])|);
    }
  }

  lemma SmallNumber(j: nat)
    requires j < OFFSET_LIMIT
    ensures j % OFFSET_LIMIT == j
  {
  }

  /** When no two records are alike, exactly the strings whose record number fits 23 bits resolve
      to themselves; all of them do if and only if there are at most 2^23 records. */
  lemma DistinctRecordsResolve(strings: seq<Stored>, k: nat)
    requires k < |strings|
    requires forall i, j :: 0 <= i < j < |Records(strings)| ==> Records(strings)[i] != Records(strings)[j]
    ensures Faithful(strings, k) <==> !strings[k].Overflows() || |Records(strings[..k])| < OFFSET_LIMIT
  {
    ResolvesTo(strings, k);
    if strings[k].Overflows() {
      var j := |Records(strings[..k])|;
      RecordPlace(strings, k);
      LowBits(j);
      if j % OFFSET_LIMIT < j {
        assert Records(strings)[j % OFFSET_LIMIT] != Records(strings)[j];
        if j < OFFSET_LIMIT {
          SmallNumber(j);
        }
      }
    }
  }

  /** Past 2^23 distinct records some string is lost: the first one whose number does not fit. */
  lemma {:induction false} LostPastLimit(strings: seq<Stored>) returns (k: nat)
    requires |Records(strings)| > OFFSET_LIMIT
    requires forall i, j :: 0 <= i < j < |Records(strings)| ==> Records(strings)[i] != Records(strings)[j]
    ensures k < |strings| && !Faithful(strings, k)
  {
    k := FirstPastLimit(strings);
    DistinctRecordsResolve(strings, k);
  }

  lemma {:induction false} FirstPastLimit(strings: seq<Stored>) returns (k: nat)
    requires |Records(strings)| > OFFSET_LIMIT
    ensures k < |strings| && strings[k].Overflows() && |Records(strings[..k])| == OFFSET_LIMIT
    decreases |strings|
  {
    var n := |strings| - 1;
    if |Records(strings[..n])| > OFFSET_LIMIT {
      k := FirstPastLimit(strings[..n]);
      assert strings[..n][..k] == strings[..k];
    } else {
      k := n;
    }
  }

  /** Among distinct records, a string's entry stands for it exactly when its offset is below 2^23 and its
      length below 255, or when fewer than 2^23 strings ahead of it needed a record; its flag is always
      its own. */
  lemma ResolvesExactly(strings: seq<Stored>, k: nat)
    requires k < |strings|
    requires forall i, j :: 0 <= i < j < |Records(strings)| ==> Records(strings)[i] != Records(strings)[j]
    ensures Faithful(strings, k) <==>
            (strings[k].offset < 0x80_0000 && strings[k].length < 255) || |Records(strings[..k])| < 0x80_0000
    ensures Decode(Small(strings, k)).isUtf16 == strings[k].isUtf16
  {
    DistinctRecordsResolve(strings, k);
    var s := strings[k];
    DecodeEncode(ForString(s.isUtf16, s.offset, s.length, |Records(strings[..k])| % TWO32).0);
  }
}
