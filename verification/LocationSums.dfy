/** What each location of a parsed stream says, as sums of the deltas that were written. */
module LocationSums {
  import opened Options
  import opened Bytes
  import opened Leb128
  import opened DebugLocations

  function AddressSum(es: seq<Entry>): int {
    if es == [] then 0 else es[0].address + AddressSum(es[1..])
  }

  /** Entries that move the address alone leave the line where it is. */
  function LineSum(es: seq<Entry>): int {
    if es == [] then 0 else (if es[0].ModernGap? then 0 else es[0].line) + LineSum(es[1..])
  }

  function ColumnSum(es: seq<Entry>): int {
    if es == [] then 0 else (if es[0].ModernGap? then 0 else es[0].column) + ColumnSum(es[1..])
  }

  /** How many of the entries give a location. */
  function Located(es: seq<Entry>): nat {
    if es == [] then 0 else (if es[0].ModernGap? then 0 else 1) + Located(es[1..])
  }

  /** A sum as it is reported: zero for a negative one, else its low 32 bits. */
  predicate Reported(v: nat, sum: int) {
    if sum < 0 then v == 0 else v == sum % 0x1_0000_0000
  }

  /** The location says this address, line and column. */
  predicate Says(loc: SourceLocation, address: int, line: int, column: int) {
    Reported(loc.bytecodeOffset, address) && Reported(loc.line, line) && Reported(loc.column, column)
  }

  /** The scope is given for entries of the older layout with one in 32 bits, and for no others. */
  predicate ScopeSaid(loc: SourceLocation, e: Entry) {
    if e.LegacyEntry? && 0 <= e.scope < 0x1_0000_0000 then loc.scopeOffset == Some(e.scope) else loc.scopeOffset == None
  }

  lemma {:induction false} SumsCounted(c: Cursor, es: seq<Entry>)
    ensures |Sums(c, es)| == Located(es)
    decreases |es|
  {
    if es != [] {
      SumsCounted(After(c, es[0]), es[1..]);
    }
  }

  lemma FirstSays(c: Cursor, e: Entry)
    requires !e.ModernGap?
    ensures |LocationsOf(c, e)| == 1
    ensures var loc := LocationsOf(c, e)[0];
            Says(loc, c.address + e.address, c.line + e.line, c.column + e.column) && ScopeSaid(loc, e)
  {
  }

  lemma SumsOfFirst(es: seq<Entry>)
    requires es != [] && !es[0].ModernGap?
    ensures var done := es[..1]; AddressSum(done) == es[0].address && LineSum(done) == es[0].line && ColumnSum(done) == es[0].column
    ensures Located(es[..0]) == 0
  {
    assert es[..1][1..] == [] && es[..0] == [];
  }

  lemma SumsFromNext(c: Cursor, es: seq<Entry>, k: nat)
    requires 0 < k < |es|
    ensures var next, done, rest := After(c, es[0]), es[..k + 1], es[1..][..k];
            && c.address + AddressSum(done) == next.address + AddressSum(rest)
            && c.line + LineSum(done) == next.line + LineSum(rest)
            && c.column + ColumnSum(done) == next.column + ColumnSum(rest)
            && Located(es[..k]) == Located(es[1..][..k - 1]) + if es[0].ModernGap? then 0 else 1
  {
    assert es[..k][1..] == es[1..][..k - 1] && es[..k + 1][1..] == es[1..][..k];
  }

  lemma {:induction false} SumAt(c: Cursor, es: seq<Entry>, k: nat)
    requires k < |es| && !es[k].ModernGap?
    ensures Located(es[..k]) < |Sums(c, es)|
    ensures var loc, done := Sums(c, es)[Located(es[..k])], es[..k + 1];
            && Says(loc, c.address + AddressSum(done), c.line + LineSum(done), c.column + ColumnSum(done))
            && ScopeSaid(loc, es[k])
    decreases |es|
  {
    if k == 0 {
      FirstSays(c, es[0]);
      SumsOfFirst(es);
    } else {
      SumAt(After(c, es[0]), es[1..], k - 1);
      SumsFromNext(c, es, k);
      SumsRest(c, es, Located(es[1..][..k - 1]));
    }
  }

  lemma SumsRest(c: Cursor, es: seq<Entry>, j: nat)
    requires es != [] && j < |Sums(After(c, es[0]), es[1..])|
    ensures var i := j + if es[0].ModernGap? then 0 else 1;
            i < |Sums(c, es)| && Sums(c, es)[i] == Sums(After(c, es[0]), es[1..])[j]
  {
  }

  /** How many entries are read. */
  function ReadOf(es: seq<Entry>): (n: nat)
    ensures n <= |es| && n <= 100_000
  {
    if |es| <= 100_000 then |es| else 100_000
  }

  lemma ReadAreLimited(es: seq<Entry>)
    ensures Limited(es, ENTRY_LIMIT) == es[..ReadOf(es)]
  {
    assert es[..|es|] == es;
  }

  /** Parsing a written stream, of at most the first 100000 entries: the opening location says the line
      and the column written first, at address 0 and without a scope; then there is one location for each
      entry that has one, saying the sums of the deltas up to it. */
  lemma LocationsSaySums(data: seq<Byte>, offset: nat, enc: StreamEncoding,
                         functionIndex: int, line: int, column: int, env: int, es: seq<Entry>)
    requires IsInt64(functionIndex) && IsInt64(env)
    requires forall e :: e in es ==> Writable(e, enc)
    requires SumsInRange(Cursor(0, line, column), es)
    requires At(data, offset, WriteStream(enc, functionIndex, line, column, env, es))
    ensures Stream(data, offset, enc).Some?
    ensures var locations, read := Stream(data, offset, enc).value, es[..ReadOf(es)];
            && |locations| == 1 + Located(read)
            && Says(locations[0], 0, line, column) && locations[0].scopeOffset == None
            && forall k :: 0 <= k < |read| && !read[k].ModernGap? ==> EntrySays(locations, read, k, line, column)
  {
    var c, read := Cursor(0, line, column), es[..ReadOf(es)];
    StreamRoundTrip(data, offset, enc, functionIndex, line, column, env, es);
    ReadAreLimited(es);
    SumsCounted(c, read);
    forall k | 0 <= k < |read| && !read[k].ModernGap?
      ensures EntrySays([c.Location(None)] + Sums(c, read), read, k, line, column)
    {
      SumAt(c, read, k);
    }
  }

  /** Where the location of entry `k` is listed it says the sums of the first `k + 1` entries' deltas. */
  predicate EntrySays(locations: seq<SourceLocation>, read: seq<Entry>, k: nat, line: int, column: int)
    requires k < |read|
  {
    var at, done := 1 + Located(read[..k]), read[..k + 1];
    && at < |locations| && Says(locations[at], AddressSum(done), line + LineSum(done), column + ColumnSum(done))
    && ScopeSaid(locations[at], read[k])
  }
}
