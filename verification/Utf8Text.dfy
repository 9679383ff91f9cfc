/** Well-formed UTF-8 is the bytes of a text of Unicode scalar values (RFC 3629, section 3). */
module Utf8Text {
  import opened Bytes
  import opened DebugScopes

  ghost predicate IsScalar(c: nat) {
    c < 0xD800 || 0xE000 <= c < 0x11_0000
  }

  /** A byte of the form 10xxxxxx, and the six bits it carries. */
  ghost predicate Trails(b: Byte) {
    0x80 <= b < 0xC0
  }

  /** `u` is the scalar value `c` in the fewest bytes that hold it. */
  ghost predicate Spells(u: seq<Byte>, c: nat) {
    && IsScalar(c)
    && match |u|
       case 1 => c < 0x80 && c == u[0]
       case 2 => 0x80 <= c < 0x800 && Trails(u[1]) && c == 64 * (u[0] as int - 0xC0) + (u[1] as int - 0x80)
       case 3 => 0x800 <= c < 0x1_0000 && Trails(u[1]) && Trails(u[2])
                 && c == 4096 * (u[0] as int - 0xE0) + 64 * (u[1] as int - 0x80) + (u[2] as int - 0x80)
       case 4 => 0x1_0000 <= c && Trails(u[1]) && Trails(u[2]) && Trails(u[3])
                 && c == 262144 * (u[0] as int - 0xF0) + 4096 * (u[1] as int - 0x80) + 64 * (u[2] as int - 0x80) + (u[3] as int - 0x80)
       case _ => false
  }

  ghost predicate StartsWith(s: seq<Byte>, n: nat, c: nat) {
    n <= |s| && Spells(s[..n], c)
  }

  /** `s` is the text `cs`, one value after the other. */
  ghost predicate IsText(s: seq<Byte>, cs: seq<nat>) {
    if cs == [] then s == []
    else exists n :: 0 < n <= |s| && StartsWith(s, n, cs[0]) && IsText(s[n..], cs[1..])
  }

  /** `s` is the UTF-8 form of some scalar values. */
  ghost predicate SomeText(s: seq<Byte>) {
    exists cs :: IsText(s, cs)
  }

  /** The sequence at the start of `s` is `n` well-formed bytes. */
  ghost predicate WellFormedStart(s: seq<Byte>, n: nat) {
    && s != [] && n == SequenceLength(s[0]) && 0 < n <= |s|
    && (n > 1 ==> var (lo, hi) := SecondByteRange(s[0]); Between(s[1], lo, hi))
    && (n > 2 ==> Between(s[2], 0x80, 0xBF))
    && (n > 3 ==> Between(s[3], 0x80, 0xBF))
  }

  lemma SpellingIsWellFormed(s: seq<Byte>, n: nat, c: nat)
    requires 0 < n && StartsWith(s, n, c)
    ensures WellFormedStart(s, n)
  {
    var u := s[..n];
    assert forall i :: 0 <= i < n ==> u[i] == s[i];
  }

  /** The value a well-formed sequence stands for. */
  ghost function ValueOf(u: seq<Byte>): int
    requires u != []
  {
    match |u|
    case 1 => u[0]
    case 2 => 64 * (u[0] as int - 0xC0) + (u[1] as int - 0x80)
    case 3 => 4096 * (u[0] as int - 0xE0) + 64 * (u[1] as int - 0x80) + (u[2] as int - 0x80)
    case _ => 262144 * (u[0] as int - 0xF0) + 4096 * (u[1] as int - 0x80) + 64 * (u[2] as int - 0x80) + (if |u| > 3 then u[3] as int - 0x80 else 0)
  }

  lemma WellFormedSpells(s: seq<Byte>, n: nat)
    requires WellFormedStart(s, n)
    ensures ValueOf(s[..n]) >= 0 && StartsWith(s, n, ValueOf(s[..n]))
  {
    var u := s[..n];
    assert forall i :: 0 <= i < n ==> u[i] == s[i];
  }

  lemma {:induction false} TextIsValid(s: seq<Byte>, cs: seq<nat>)
    requires IsText(s, cs)
    ensures ValidUtf8(s)
    decreases |cs|
  {
    if cs != [] {
      var n :| 0 < n <= |s| && StartsWith(s, n, cs[0]) && IsText(s[n..], cs[1..]);
      SpellingIsWellFormed(s, n, cs[0]);
      TextIsValid(s[n..], cs[1..]);
    }
  }

  lemma {:induction false} ValidIsText(s: seq<Byte>) returns (cs: seq<nat>)
    requires ValidUtf8(s)
    ensures IsText(s, cs)
  {
    if s == [] {
      cs := [];
    } else {
      var n := SequenceLength(s[0]);
      WellFormedSpells(s, n);
      var rest := ValidIsText(s[n..]);
      cs := [ValueOf(s[..n])] + rest;
      assert StartsWith(s, n, cs[0]) && cs[1..] == rest;
    }
  }

  /** Bytes are accepted as text exactly when they are the text of some scalar values. */
  lemma ValidExactly(s: seq<Byte>)
    ensures ValidUtf8(s) <==> SomeText(s)
  {
    if ValidUtf8(s) {
      var cs := ValidIsText(s);
      assert SomeText(s);
    }
    if SomeText(s) {
      var cs :| IsText(s, cs);
      TextIsValid(s, cs);
    }
  }

  /** No two scalar values are spelled alike, and no spelling is the start of another: a text is read
      in one way only. */
  lemma {:induction false} OneText(s: seq<Byte>, cs: seq<nat>, ds: seq<nat>)
    requires IsText(s, cs) && IsText(s, ds)
    ensures cs == ds
    decreases |cs|
  {
    if cs != [] && ds != [] {
      var n :| 0 < n <= |s| && StartsWith(s, n, cs[0]) && IsText(s[n..], cs[1..]);
      var m :| 0 < m <= |s| && StartsWith(s, m, ds[0]) && IsText(s[m..], ds[1..]);
      SpellingIsWellFormed(s, n, cs[0]);
      SpellingIsWellFormed(s, m, ds[0]);
      assert n == m;
      OneText(s[n..], cs[1..], ds[1..]);
      assert cs == [cs[0]] + cs[1..] && ds == [ds[0]] + ds[1..];
    }
  }
}
