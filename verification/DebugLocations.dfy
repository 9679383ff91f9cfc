/** Source-location streams: a prologue, then entries of signed deltas until an address delta of -1.
    The older layout has all fields in every entry; the newer one packs the presence of the later
    fields into the line delta and has entries that move the address alone. */
module DebugLocations {
  import opened Options
  import opened Bytes
  import opened Leb128

  datatype StreamEncoding = Legacy | Modern

  datatype SourceLocation = SourceLocation(bytecodeOffset: nat, line: nat, column: nat, scopeOffset: Option<nat>)

  /** More entries than this are not read. */
  const ENTRY_LIMIT: nat := 100_000

  /** A negative value becomes zero, any other keeps its low 32 bits. */
  function ToU32(v: int): nat {
    if v < 0 then 0 else v % TWO32
  }

  function TryU32(v: int): Option<nat> {
    if 0 <= v < TWO32 then Some(v) else None
  }

  /** The running position. Additions wrap in 64 bits. */
  datatype Cursor = Cursor(address: int, line: int, column: int) {
    function Advance(delta: int): Cursor {
      this.(address := Wrap64(address + delta))
    }

    function Move(lineDelta: int, columnDelta: int): Cursor {
      this.(line := Wrap64(line + lineDelta), column := Wrap64(column + columnDelta))
    }

    function Location(scope: Option<nat>): SourceLocation {
      SourceLocation(ToU32(address), ToU32(line), ToU32(column), scope)
    }
  }

  // ---------- Decoding

  /** What follows an address delta. */
  datatype Step =
    | Stop
    | NoLocation(next: nat)
    | Moved(lineDelta: int, columnDelta: int, scope: Option<nat>, next: nat)

  type Reader = nat -> Read<int>

  function Skip(rd: Reader, pos: nat, present: bool): Option<nat> {
    if !present then Some(pos)
    else match rd(pos)
      case Ok(_, next) => Some(next)
      case Err(_, _) => None
  }

  function LegacyStep(rd: Reader, pos: nat): Step {
    var l := rd(pos);
    var c := rd(l.next);
    var scope := rd(c.next);
    var env := rd(scope.next);
    if !(l.Ok? && c.Ok? && scope.Ok? && env.Ok?) then Stop
    else
      match Skip(rd, env.next, l.value % 2 == 1)
      case None => Stop
      case Some(next) => Moved(l.value / 2, c.value, TryU32(scope.value), next)
  }

  function ModernStep(rd: Reader, pos: nat): Step {
    match rd(pos)
    case Err(_, _) => Stop
    case Ok(l, afterLine) =>
      if l % 2 == 0 then NoLocation(afterLine)
      else
        match rd(afterLine)
        case Err(_, _) => Stop
        case Ok(c, afterColumn) =>
          match Skip(rd, afterColumn, l / 2 % 2 == 1)
          case None => Stop
          case Some(afterStatement) =>
            match Skip(rd, afterStatement, l / 4 % 2 == 1)
            case None => Stop
            case Some(next) => Moved(l / 8, c, None, next)
  }

  function StepAt(rd: Reader, pos: nat, enc: StreamEncoding): Step {
    if enc.Legacy? then LegacyStep(rd, pos) else ModernStep(rd, pos)
  }

  /** The cursor after an entry, the location it gives, if any, and where it ends. */
  datatype ReadEntry = End | Entered(c: Cursor, locations: seq<SourceLocation>, next: nat)

  function OneEntry(rd: Reader, pos: nat, enc: StreamEncoding, c: Cursor): ReadEntry {
    match rd(pos)
    case Err(_, _) => End
    case Ok(delta, next) =>
      if delta == -1 then End
      else
        match StepAt(rd, next, enc)
        case Stop => End
        case NoLocation(after) => Entered(c.Advance(delta), [], after)
        case Moved(l, col, scope, after) =>
          var moved := c.Advance(delta).Move(l, col);
          Entered(moved, [moved.Location(scope)], after)
  }

  /** The locations of the entries from `pos` on, reading at most `left` of them. */
  function Entries(rd: Reader, pos: nat, enc: StreamEncoding, left: nat, c: Cursor): seq<SourceLocation>
    decreases left
  {
    if left == 0 then []
    else
      match OneEntry(rd, pos, enc, c)
      case End => []
      case Entered(c', locations, next) => locations + Entries(rd, next, enc, left - 1, c')
  }

  /** The prologue: function index, line, column and, in the newer layout, an environment index. */
  function Prologue(rd: Reader, enc: StreamEncoding): Option<(Cursor, nat)> {
    var f := rd(0);
    var l := rd(f.next);
    var c := rd(l.next);
    if !(f.Ok? && l.Ok? && c.Ok?) then None
    else
      match Skip(rd, c.next, enc.Modern?)
      case None => None
      case Some(next) => Some((Cursor(0, l.value, c.value), next))
  }

  /** The prologue's location and those of at most `limit` entries. */
  function StreamOf(rd: Reader, enc: StreamEncoding, limit: nat): Option<seq<SourceLocation>> {
    match Prologue(rd, enc)
    case None => None
    case Some((c, next)) => Some([c.Location(None)] + Entries(rd, next, enc, limit, c))
  }

  /** The locations of the stream at `offset`; nothing when the prologue cannot be read. */
  function Stream(data: seq<Byte>, offset: nat, enc: StreamEncoding): Option<seq<SourceLocation>> {
    if offset > |data| then None else StreamOf(SlebReader(data[offset..]), enc, ENTRY_LIMIT)
  }

  // ---------- The parser

  method Next(reader: ByteReader) returns (r: Read<int>)
    requires reader.Valid()
    modifies reader
    ensures reader.Valid() && reader.pos == r.next
    ensures r == SlebReader(reader.data)(old(reader.pos))
  {
    r := reader.ReadSleb128();
  }

  method ReadStep(reader: ByteReader, enc: StreamEncoding) returns (s: Step)
    requires reader.Valid()
    modifies reader
    ensures reader.Valid() && s == StepAt(SlebReader(reader.data), old(reader.pos), enc)
    ensures s.NoLocation? || s.Moved? ==> reader.pos == s.next
  {
    match enc
    case Legacy =>
      var l := Next(reader);
      var c := Next(reader);
      var scope := Next(reader);
      var env := Next(reader);
      if !(l.Ok? && c.Ok? && scope.Ok? && env.Ok?) {
        return Stop;
      }
      var lineDelta := l.value;
      if lineDelta % 2 == 1 {
        var statement := Next(reader);
        if statement.Err? {
          return Stop;
        }
      }
      lineDelta := lineDelta / 2;
      return Moved(lineDelta, c.value, TryU32(scope.value), reader.pos);
    case Modern =>
      var l := Next(reader);
      if l.Err? {
        return Stop;
      }
      var lineDelta := l.value;
      if lineDelta % 2 == 0 {
        return NoLocation(reader.pos);
      }
      var c := Next(reader);
      if c.Err? {
        return Stop;
      }
      if lineDelta / 2 % 2 == 1 {
        var statement := Next(reader);
        if statement.Err? {
          return Stop;
        }
      }
      if lineDelta / 4 % 2 == 1 {
        var env := Next(reader);
        if env.Err? {
          return Stop;
        }
      }
      lineDelta := lineDelta / 8;
      return Moved(lineDelta, c.value, None, reader.pos);
  }

  method ReadPrologue(reader: ByteReader, enc: StreamEncoding) returns (r: Option<Cursor>)
    requires reader.Valid() && reader.pos == 0
    modifies reader
    ensures reader.Valid()
    ensures match Prologue(SlebReader(reader.data), enc)
            case None => r == None
            case Some((c, next)) => r == Some(c) && reader.pos == next
  {
    var functionIndex := Next(reader);
    if functionIndex.Err? {
      return None;
    }
    var line := Next(reader);
    if line.Err? {
      return None;
    }
    var column := Next(reader);
    if column.Err? {
      return None;
    }
    if enc == Modern {
      var env := Next(reader);
      if env.Err? {
        return None;
      }
    }
    return Some(Cursor(0, line.value, column.value));
  }

  /** One entry: moves the cursor and adds its location, or reports that the stream is over. */
  method TakeEntry(reader: ByteReader, enc: StreamEncoding, c0: Cursor, out0: seq<SourceLocation>)
    returns (done: bool, c: Cursor, out: seq<SourceLocation>)
    requires reader.Valid()
    modifies reader
    ensures reader.Valid()
    ensures match OneEntry(SlebReader(reader.data), old(reader.pos), enc, c0)
            case End => done && out == out0
            case Entered(c', locations, next) => !done && c == c' && out == out0 + locations && reader.pos == next
  {
    c, out := c0, out0;
    var delta := Next(reader);
    if delta.Err? || delta.value == -1 {
      return true, c, out;
    }
    c := c.Advance(delta.value);
    var step := ReadStep(reader, enc);
    match step
    case Stop => return true, c, out;
    case NoLocation(_) => return false, c, out;
    case Moved(l, col, scope, _) =>
      c := c.Move(l, col);
      out := out + [c.Location(scope)];
      return false, c, out;
  }

  /** The locations read so far and those still to be read. */
  ghost function Whole(out: seq<SourceLocation>, rd: Reader, pos: nat, enc: StreamEncoding, left: nat, c: Cursor): seq<SourceLocation> {
    out + Entries(rd, pos, enc, left, c)
  }

  lemma EntryTaken(goal: seq<SourceLocation>, out: seq<SourceLocation>, rd: Reader, pos: nat, enc: StreamEncoding, left: nat, c: Cursor)
    requires left > 0 && Whole(out, rd, pos, enc, left, c) == goal
    ensures var e := OneEntry(rd, pos, enc, c);
      && (e.End? ==> out == goal)
      && (e.Entered? ==> Whole(out + e.locations, rd, e.next, enc, left - 1, e.c) == goal)
  {
    var e := OneEntry(rd, pos, enc, c);
    if e.End? {
      assert out + [] == out;
    } else {
      var rest := Entries(rd, e.next, enc, left - 1, e.c);
      assert out + (e.locations + rest) == (out + e.locations) + rest;
    }
  }

  lemma NoneLeft(goal: seq<SourceLocation>, out: seq<SourceLocation>, rd: Reader, pos: nat, enc: StreamEncoding, left: nat, c: Cursor)
    requires left == 0 && Whole(out, rd, pos, enc, left, c) == goal
    ensures out == goal
  {
    assert out + [] == out;
  }

  /** The reader gives the integers of these bytes. */
  ghost predicate Delivers(rd: Reader, data: seq<Byte>) {
    forall pos: nat {:trigger SlebReader(data)(pos)} :: rd(pos) == SlebReader(data)(pos)
  }

  lemma StepDelivered(rd: Reader, data: seq<Byte>, pos: nat, enc: StreamEncoding)
    requires Delivers(rd, data)
    ensures StepAt(rd, pos, enc) == StepAt(SlebReader(data), pos, enc)
  {
  }

  lemma EntryDelivered(rd: Reader, data: seq<Byte>, pos: nat, enc: StreamEncoding, c: Cursor)
    requires Delivers(rd, data)
    ensures OneEntry(rd, pos, enc, c) == OneEntry(SlebReader(data), pos, enc, c)
  {
    StepDelivered(rd, data, SlebReader(data)(pos).next, enc);
  }

  /** One round of the entry loop. */
  method ParseEntry(reader: ByteReader, enc: StreamEncoding, c0: Cursor, out0: seq<SourceLocation>,
                    ghost rd: Reader, ghost goal: seq<SourceLocation>, ghost left: nat)
    returns (done: bool, c: Cursor, out: seq<SourceLocation>)
    requires reader.Valid() && left > 0 && Delivers(rd, reader.data)
    requires Whole(out0, rd, reader.pos, enc, left, c0) == goal
    modifies reader
    ensures reader.Valid()
    ensures done ==> out == goal
    ensures !done ==> Whole(out, rd, reader.pos, enc, left - 1, c) == goal
  {
    EntryTaken(goal, out0, rd, reader.pos, enc, left, c0);
    EntryDelivered(rd, reader.data, reader.pos, enc, c0);
    done, c, out := TakeEntry(reader, enc, c0, out0);
  }

  /** The entries from the cursor on, up to the stop mark, a failed read or the limit. */
  method ParseEntries(reader: ByteReader, enc: StreamEncoding, start: Cursor, first: seq<SourceLocation>, limit: nat,
                      ghost rd: Reader, ghost goal: seq<SourceLocation>)
    returns (out: seq<SourceLocation>)
    requires reader.Valid() && Delivers(rd, reader.data)
    requires Whole(first, rd, reader.pos, enc, limit, start) == goal
    modifies reader
    ensures out == goal
  {
    var c, guard := start, 0;
    out := first;
    while true
      invariant reader.Valid() && guard <= limit
      invariant Whole(out, rd, reader.pos, enc, limit - guard, c) == goal
      decreases limit - guard
    {
      guard := guard + 1;
      if guard > limit {
        NoneLeft(goal, out, rd, reader.pos, enc, 0, c);
        return;
      }
      var done;
      done, c, out := ParseEntry(reader, enc, c, out, rd, goal, limit - guard + 1);
      if done {
        return;
      }
    }
  }

  method ParseStream(data: seq<Byte>, enc: StreamEncoding, limit: nat) returns (r: Option<seq<SourceLocation>>)
    ensures r == StreamOf(SlebReader(data), enc, limit)
  {
    ghost var rd := SlebReader(data);
    var reader := new ByteReader(data);
    var start := ReadPrologue(reader, enc);
    if start.None? {
      return None;
    }
    var first := [start.value.Location(None)];
    var out := ParseEntries(reader, enc, start.value, first, limit, rd, first + Entries(rd, reader.pos, enc, limit, start.value));
    return Some(out);
  }

  method ParseLocationStream(data: seq<Byte>, offset: nat, enc: StreamEncoding) returns (r: Option<seq<SourceLocation>>)
    ensures r == Stream(data, offset, enc)
  {
    if offset > |data| {
      return None;
    }
    r := ParseStream(data[offset..], enc, ENTRY_LIMIT);
  }

  // ---------- The writer

  datatype Entry =
    | LegacyEntry(address: int, line: int, column: int, scope: int, env: int, statement: Option<int>)
    | ModernEntry(address: int, line: int, column: int, statement: Option<int>, envDelta: Option<int>)
    | ModernGap(address: int, marker: int)  // no location: only the address moves

  function Flag(o: Option<int>, bit: int): int {
    if o.Some? then bit else 0
  }

  function Listed(o: Option<int>): seq<int> {
    match o
    case None => []
    case Some(v) => [v]
  }

  /** The line field of an entry: the delta above its marker bits. */
  function LineField(e: Entry): int {
    match e
    case LegacyEntry(_, l, _, _, _, s) => 2 * l + Flag(s, 1)
    case ModernEntry(_, l, _, s, v) => 8 * l + Flag(v, 4) + Flag(s, 2) + 1
    case ModernGap(_, m) => 2 * m
  }

  /** The values an entry is written as, in order. */
  function Fields(e: Entry): seq<int> {
    match e
    case LegacyEntry(a, _, c, scope, env, s) => [a, LineField(e), c, scope, env] + Listed(s)
    case ModernEntry(a, _, c, s, v) => [a, LineField(e), c] + Listed(s) + Listed(v)
    case ModernGap(a, _) => [a, LineField(e)]
  }

  function AllFields(es: seq<Entry>): seq<int> {
    if es == [] then [-1] else Fields(es[0]) + AllFields(es[1..])
  }

  function StreamFields(enc: StreamEncoding, functionIndex: int, line: int, column: int, env: int, es: seq<Entry>): seq<int> {
    [functionIndex, line, column] + (if enc.Modern? then [env] else []) + AllFields(es)
  }

  function WriteStream(enc: StreamEncoding, functionIndex: int, line: int, column: int, env: int, es: seq<Entry>): seq<Byte> {
    EncodeAll(StreamFields(enc, functionIndex, line, column, env, es))
  }

  /** An entry a writer can emit: every field is a 64-bit value and the address delta is not the terminator. */
  predicate Writable(e: Entry, enc: StreamEncoding) {
    && (e.LegacyEntry? <==> enc.Legacy?)
    && e.address != -1 && AllInt64(Fields(e))
  }

  // ---------- Running sums

  /** The cursor after an entry, added up exactly. A gap moves the address alone. */
  function After(c: Cursor, e: Entry): Cursor {
    if e.ModernGap? then c.(address := c.address + e.address)
    else Cursor(c.address + e.address, c.line + e.line, c.column + e.column)
  }

  function ScopeOf(e: Entry): Option<nat> {
    if e.LegacyEntry? then TryU32(e.scope) else None
  }

  function Sums(c: Cursor, es: seq<Entry>): seq<SourceLocation>
    decreases |es|
  {
    if es == [] then []
    else
      var next := After(c, es[0]);
      LocationsOf(c, es[0]) + Sums(next, es[1..])
  }

  predicate InRange(c: Cursor) {
    IsInt64(c.address) && IsInt64(c.line) && IsInt64(c.column)
  }

  /** No running total leaves 64 bits. */
  predicate SumsInRange(c: Cursor, es: seq<Entry>)
    decreases |es|
  {
    InRange(c) && (es != [] ==> SumsInRange(After(c, es[0]), es[1..]))
  }

  // ---------- Round trip

  lemma CarriesNext(rd: Reader, pos: nat, vs: seq<int>, end: nat)
    requires vs != [] && Carries(rd, pos, vs, end)
    ensures rd(pos).Ok? && rd(pos).value == vs[0] && Carries(rd, rd(pos).next, vs[1..], end)
  {
  }

  lemma SkipListed(rd: Reader, pos: nat, o: Option<int>, rest: seq<int>, end: nat)
    requires Carries(rd, pos, Listed(o) + rest, end)
    ensures Skip(rd, pos, o.Some?).Some? && Carries(rd, Skip(rd, pos, o.Some?).value, rest, end)
  {
    match o
    case None =>
      assert [] + rest == rest;
    case Some(v) =>
      assert ([v] + rest)[1..] == rest;
  }

  lemma LegacyStepReads(rd: Reader, pos: nat, e: Entry, end: nat)
    requires e.LegacyEntry? && Carries(rd, pos, Fields(e)[1..], end)
    ensures LegacyStep(rd, pos) == Moved(e.line, e.column, TryU32(e.scope), end)
  {
    var s := Listed(e.statement);
    assert Fields(e)[1..] == [LineField(e)] + ([e.column] + ([e.scope] + ([e.env] + s)));
    CarriesNext(rd, pos, [LineField(e)] + ([e.column] + ([e.scope] + ([e.env] + s))), end);
    var p1 := rd(pos).next;
    CarriesNext(rd, p1, [e.column] + ([e.scope] + ([e.env] + s)), end);
    var p2 := rd(p1).next;
    CarriesNext(rd, p2, [e.scope] + ([e.env] + s), end);
    var p3 := rd(p2).next;
    CarriesNext(rd, p3, [e.env] + s, end);
    assert s + [] == s;
    SkipListed(rd, rd(p3).next, e.statement, [], end);
  }

  lemma ModernBits(l: int, s: Option<int>, v: Option<int>)
    ensures var f := 8 * l + Flag(v, 4) + Flag(s, 2) + 1;
      f % 2 == 1 && (f / 2 % 2 == 1 <==> s.Some?) && (f / 4 % 2 == 1 <==> v.Some?) && f / 8 == l
  {
    LowBits(l, if s.Some? then 1 else 0, if v.Some? then 1 else 0);
  }

  lemma LowBits(l: int, a: nat, b: nat)
    requires a < 2 && b < 2
    ensures var f := 8 * l + 4 * b + 2 * a + 1;
      f % 2 == 1 && f / 2 % 2 == a && f / 4 % 2 == b && f / 8 == l
  {
    var f := 8 * l + 4 * b + 2 * a + 1;
    assert f / 2 == 4 * l + 2 * b + a;
    assert f / 4 == 2 * l + b;
  }

  lemma ModernStepReads(rd: Reader, pos: nat, e: Entry, end: nat)
    requires e.ModernEntry? && Carries(rd, pos, Fields(e)[1..], end)
    ensures ModernStep(rd, pos) == Moved(e.line, e.column, None, end)
  {
    ModernBits(e.line, e.statement, e.envDelta);
    var s, v := Listed(e.statement), Listed(e.envDelta);
    assert Fields(e)[1..] == [LineField(e)] + ([e.column] + (s + v));
    CarriesNext(rd, pos, [LineField(e)] + ([e.column] + (s + v)), end);
    var p1 := rd(pos).next;
    CarriesNext(rd, p1, [e.column] + (s + v), end);
    var p2 := rd(p1).next;
    SkipListed(rd, p2, e.statement, v, end);
    assert v + [] == v;
    SkipListed(rd, Skip(rd, p2, e.statement.Some?).value, e.envDelta, [], end);
  }

  lemma GapReads(rd: Reader, pos: nat, e: Entry, end: nat)
    requires e.ModernGap? && Carries(rd, pos, Fields(e)[1..], end)
    ensures ModernStep(rd, pos) == NoLocation(end)
  {
    var field := Fields(e)[1];
    assert Fields(e)[1..] == [field] && field % 2 == 0;
    assert [field][1..] == [];
    CarriesNext(rd, pos, [field], end);
  }

  lemma StepReads(rd: Reader, pos: nat, enc: StreamEncoding, e: Entry, end: nat)
    requires (e.LegacyEntry? <==> enc.Legacy?) && Carries(rd, pos, Fields(e)[1..], end)
    ensures StepAt(rd, pos, enc) == if e.ModernGap? then NoLocation(end) else Moved(e.line, e.column, ScopeOf(e), end)
  {
    match e
    case LegacyEntry(_, _, _, _, _, _) => LegacyStepReads(rd, pos, e, end);
    case ModernEntry(_, _, _, _, _) => ModernStepReads(rd, pos, e, end);
    case ModernGap(_, _) => GapReads(rd, pos, e, end);
  }

  lemma WrapInRange(v: int)
    requires IsInt64(v)
    ensures Wrap64(v) == v
  {
  }

  lemma CursorsAgree(c: Cursor, e: Entry)
    requires InRange(c) && InRange(After(c, e))
    ensures e.ModernGap? ==> c.Advance(e.address) == After(c, e)
    ensures !e.ModernGap? ==> c.Advance(e.address).Move(e.line, e.column) == After(c, e)
  {
    WrapInRange(c.address + e.address);
    if !e.ModernGap? {
      WrapInRange(c.line + e.line);
      WrapInRange(c.column + e.column);
    }
  }

  function LocationsOf(c: Cursor, e: Entry): seq<SourceLocation> {
    if e.ModernGap? then [] else [After(c, e).Location(ScopeOf(e))]
  }

  /** Reading one written entry moves the cursor by its deltas. */
  lemma EntryReads(rd: Reader, pos: nat, enc: StreamEncoding, c: Cursor, e: Entry, end: nat)
    requires Writable(e, enc) && InRange(c) && InRange(After(c, e))
    requires Carries(rd, pos, Fields(e), end)
    ensures OneEntry(rd, pos, enc, c) == Entered(After(c, e), LocationsOf(c, e), end)
  {
    CarriesNext(rd, pos, Fields(e), end);
    StepReads(rd, rd(pos).next, enc, e, end);
    CursorsAgree(c, e);
  }

  function Limited(es: seq<Entry>, left: nat): seq<Entry> {
    if |es| <= left then es else es[..left]
  }

  lemma LimitedRest(es: seq<Entry>, left: nat)
    requires es != [] && left > 0
    ensures Limited(es, left) != [] && Limited(es, left)[0] == es[0]
    ensures Limited(es, left)[1..] == Limited(es[1..], left - 1)
  {
  }

  /** Decoding written entries gives their running sums, up to the limit. */
  lemma {:induction false} EntriesRoundTrip(rd: Reader, pos: nat, enc: StreamEncoding, left: nat, c: Cursor, es: seq<Entry>, end: nat)
    requires Carries(rd, pos, AllFields(es), end)
    requires forall e :: e in es ==> Writable(e, enc)
    requires SumsInRange(c, es)
    ensures Entries(rd, pos, enc, left, c) == Sums(c, Limited(es, left))
    decreases left
  {
    if left == 0 {
      assert Limited(es, left) == [];
    } else if es == [] {
      CarriesNext(rd, pos, [-1], end);
    } else {
      var e, rest := es[0], es[1..];
      assert e in es;
      CarriesSplit(rd, pos, Fields(e), AllFields(rest), end);
      var mid :| Carries(rd, pos, Fields(e), mid) && Carries(rd, mid, AllFields(rest), end);
      EntryReads(rd, pos, enc, c, e, mid);
      EntriesRoundTrip(rd, mid, enc, left - 1, After(c, e), rest, end);
      LimitedRest(es, left);
    }
  }

  lemma PrologueReads(rd: Reader, enc: StreamEncoding, functionIndex: int, line: int, column: int, env: int, rest: seq<int>, end: nat)
    requires Carries(rd, 0, [functionIndex, line, column] + (if enc.Modern? then [env] else []) + rest, end)
    ensures Prologue(rd, enc).Some?
    ensures var (c, next) := Prologue(rd, enc).value; c == Cursor(0, line, column) && Carries(rd, next, rest, end)
  {
    var o := if enc.Modern? then Some(env) else None;
    var tail := Listed(o) + rest;
    assert [functionIndex, line, column] + (if enc.Modern? then [env] else []) + rest
        == [functionIndex] + ([line] + ([column] + tail));
    CarriesNext(rd, 0, [functionIndex] + ([line] + ([column] + tail)), end);
    var p1 := rd(0).next;
    CarriesNext(rd, p1, [line] + ([column] + tail), end);
    var p2 := rd(p1).next;
    CarriesNext(rd, p2, [column] + tail, end);
    SkipListed(rd, rd(p2).next, o, rest, end);
  }

  lemma {:induction false} FieldsFit(es: seq<Entry>, enc: StreamEncoding)
    requires forall e :: e in es ==> Writable(e, enc)
    ensures AllInt64(AllFields(es))
  {
    if es != [] {
      assert es[0] in es;
      FieldsFit(es[1..], enc);
    }
  }

  /** Parsing a written stream, at any offset and before any trailing bytes, gives the
      prologue location and the running sums of the first entries. */
  lemma StreamRoundTrip(data: seq<Byte>, offset: nat, enc: StreamEncoding,
                        functionIndex: int, line: int, column: int, env: int, es: seq<Entry>)
    requires IsInt64(functionIndex) && IsInt64(env)
    requires forall e :: e in es ==> Writable(e, enc)
    requires SumsInRange(Cursor(0, line, column), es)
    requires At(data, offset, WriteStream(enc, functionIndex, line, column, env, es))
    ensures var c := Cursor(0, line, column);
      Stream(data, offset, enc) == Some([c.Location(None)] + Sums(c, Limited(es, ENTRY_LIMIT)))
  {
    var tail, vs := data[offset..], StreamFields(enc, functionIndex, line, column, env, es);
    assert tail[0..|EncodeAll(vs)|] == data[offset..offset + |EncodeAll(vs)|];
    FieldsFit(es, enc);
    EncodedCarries(tail, 0, vs);
    FieldsRoundTrip(SlebReader(tail), enc, functionIndex, line, column, env, es, ENTRY_LIMIT, |EncodeAll(vs)|);
  }

  /** The same for any reader that reads the stream's fields in a row. */
  lemma FieldsRoundTrip(rd: Reader, enc: StreamEncoding, functionIndex: int, line: int, column: int, env: int, es: seq<Entry>, limit: nat, end: nat)
    requires forall e :: e in es ==> Writable(e, enc)
    requires SumsInRange(Cursor(0, line, column), es)
    requires Carries(rd, 0, StreamFields(enc, functionIndex, line, column, env, es), end)
    ensures var c := Cursor(0, line, column);
      StreamOf(rd, enc, limit) == Some([c.Location(None)] + Sums(c, Limited(es, limit)))
  {
    PrologueReads(rd, enc, functionIndex, line, column, env, AllFields(es), end);
    var (c, next) := Prologue(rd, enc).value;
    EntriesRoundTrip(rd, next, enc, limit, c, es, end);
  }
}
