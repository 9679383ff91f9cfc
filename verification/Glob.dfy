/** Name globs, matched by splitting on stars and searching greedily. */
module Glob {
  import opened Options

  function Lower(c: char): char {
    if 'A' <= c <= 'Z' then (c as int + 32) as char else c
  }

  function LowerAll(s: string): (r: string)
    ensures |r| == |s| && forall i :: 0 <= i < |s| ==> r[i] == Lower(s[i])
  {
    seq(|s|, i requires 0 <= i < |s| => Lower(s[i]))
  }

  /** What a glob means, one pattern character at a time. */
  ghost predicate Matches(pattern: string, text: string)
    decreases |pattern|
  {
    if pattern == [] then text == []
    else if pattern[0] == '*' then exists k :: 0 <= k <= |text| && Matches(pattern[1..], text[k..])
    else text != [] && Lower(pattern[0]) == Lower(text[0]) && Matches(pattern[1..], text[1..])
  }

  lemma {:induction false} MatchesFolded(pattern: string, text: string)
    ensures Matches(LowerAll(pattern), LowerAll(text)) <==> Matches(pattern, text)
    decreases |pattern|
  {
    if pattern != [] {
      var p, t := LowerAll(pattern), LowerAll(text);
      assert p[1..] == LowerAll(pattern[1..]);
      if pattern[0] == '*' {
        forall k | 0 <= k <= |text| ensures Matches(p[1..], t[k..]) <==> Matches(pattern[1..], text[k..]) {
          assert t[k..] == LowerAll(text[k..]);
          MatchesFolded(pattern[1..], text[k..]);
        }
      } else if text != [] {
        assert t[1..] == LowerAll(text[1..]);
        MatchesFolded(pattern[1..], text[1..]);
      }
    }
  }

  /** `d` is the small letter of the capital `c`. */
  predicate IsCapitalOf(c: char, d: char) {
    'A' <= c <= 'Z' && d as int == c as int + 32
  }

  /** `t` is `s` with some capitals written small. */
  predicate SomeWrittenSmall(s: string, t: string) {
    |s| == |t| && forall i :: 0 <= i < |s| ==> t[i] == s[i] || IsCapitalOf(s[i], t[i])
  }

  /** Writing capitals of the pattern or the text small, any of them, changes no match. */
  lemma {:induction false} CaseIsIgnored(pattern: string, text: string, pattern': string, text': string)
    requires SomeWrittenSmall(pattern, pattern') && SomeWrittenSmall(text, text')
    ensures Matches(pattern, text) <==> Matches(pattern', text')
    decreases |pattern|
  {
    if pattern != [] {
      var p, p' := pattern[1..], pattern'[1..];
      assert SomeWrittenSmall(p, p');
      assert pattern'[0] == pattern[0] || IsCapitalOf(pattern[0], pattern'[0]);
      if pattern[0] == '*' {
        forall k | 0 <= k <= |text|
          ensures Matches(p, text[k..]) <==> Matches(p', text'[k..])
        {
          assert SomeWrittenSmall(text[k..], text'[k..]);
          CaseIsIgnored(p, text[k..], p', text'[k..]);
        }
      } else if text != [] {
        assert SomeWrittenSmall(text[1..], text'[1..]);
        assert text'[0] == text[0] || IsCapitalOf(text[0], text'[0]);
        CaseIsIgnored(p, text[1..], p', text'[1..]);
      }
    }
  }

  /** Nothing but case is ignored: a character other than the star matches itself and the same letter
      in the other case, and nothing else. */
  lemma OneCharExactly(c: char, text: string)
    requires c != '*'
    ensures Matches([c], text) <==> |text| == 1 && (text[0] == c || IsCapitalOf(c, text[0]) || IsCapitalOf(text[0], c))
  {
    assert [c][1..] == [];
  }

  // ---------- Splitting on stars

  function Split(p: string): (parts: seq<string>)
    ensures parts != []
  {
    if p == [] then [""]
    else
      var rest := Split(p[1..]);
      if p[0] == '*' then [""] + rest else [[p[0]] + rest[0]] + rest[1..]
  }

  ghost predicate IsFolded(s: string) {
    forall i :: 0 <= i < |s| ==> Lower(s[i]) == s[i]
  }

  /** The parts occur in order without overlap, the first at the very start and the last at the very end. */
  ghost predicate PartsMatch(parts: seq<string>, t: string)
    requires parts != []
    decreases |parts|, 0
  {
    if |parts| == 1 then t == parts[0]
    else parts[0] <= t && PartsMatchLater(parts[1..], t[|parts[0]|..])
  }

  /** The parts match some suffix of `t`. */
  ghost predicate PartsMatchLater(parts: seq<string>, t: string)
    requires parts != []
    decreases |parts|, 1
  {
    exists k :: 0 <= k <= |t| && PartsMatch(parts, t[k..])
  }

  lemma PushFront(c: char, rest: seq<string>, t: string)
    requires rest != []
    ensures PartsMatch([[c] + rest[0]] + rest[1..], t) <==> t != [] && t[0] == c && PartsMatch(rest, t[1..])
  {
    var parts := [[c] + rest[0]] + rest[1..];
    assert parts[1..] == rest[1..];
    if |rest| > 1 {
      assert [c] + rest[0] <= t <==> t != [] && t[0] == c && rest[0] <= t[1..];
      if [c] + rest[0] <= t {
        assert t[1..][|rest[0]|..] == t[|parts[0]|..];
      }
    } else {
      assert t == [c] + rest[0] <==> t != [] && t[0] == c && t[1..] == rest[0];
    }
  }

  lemma {:induction false} SplitMeaning(p: string, t: string)
    requires IsFolded(p) && IsFolded(t)
    ensures Matches(p, t) <==> PartsMatch(Split(p), t)
    decreases |p|
  {
    if p != [] {
      var rest := Split(p[1..]);
      assert IsFolded(p[1..]);
      if p[0] == '*' {
        assert Split(p)[1..] == rest && t[0..] == t;
        forall k | 0 <= k <= |t| ensures Matches(p[1..], t[k..]) <==> PartsMatch(rest, t[k..]) {
          SplitMeaning(p[1..], t[k..]);
        }
      } else {
        PushFront(p[0], rest, t);
        if t != [] {
          SplitMeaning(p[1..], t[1..]);
        }
      }
    }
  }

  // ---------- Greedy search

  /** Leftmost occurrence of `part` in `t`. */
  function Find(t: string, part: string): (r: Option<nat>)
    ensures r.Some? ==> r.value + |part| <= |t|
  {
    if part <= t then Some(0)
    else if t == [] then None
    else match Find(t[1..], part)
      case None => None
      case Some(i) => Some(i + 1)
  }

  lemma {:induction false} FindSpec(t: string, part: string)
    ensures Find(t, part).Some? ==> part <= t[Find(t, part).value..]
    ensures forall k :: 0 <= k <= |t| && part <= t[k..] ==> Find(t, part).Some? && Find(t, part).value <= k
  {
    if !(part <= t) && t != [] {
      FindSpec(t[1..], part);
      if Find(t[1..], part).Some? {
        var i := Find(t[1..], part).value;
        assert t[1..][i..] == t[i + 1..];
      }
      forall k | 0 <= k <= |t| && part <= t[k..] ensures Find(t, part).Some? && Find(t, part).value <= k {
        assert t[0..] == t;
        assert t[1..][k - 1..] == t[k..];
      }
    }
  }

  function EndsWith(t: string, part: string): bool {
    |part| <= |t| && t[|t| - |part|..] == part
  }

  lemma LaterMonotone(parts: seq<string>, t: string, i: nat, j: nat)
    requires parts != [] && i <= j <= |t|
    requires PartsMatchLater(parts, t[j..])
    ensures PartsMatchLater(parts, t[i..])
  {
    var right, left := t[j..], t[i..];
    var k :| 0 <= k <= |right| && PartsMatch(parts, right[k..]);
    assert right[k..] == left[j - i + k..];
  }

  lemma MatchAt(parts: seq<string>, t: string, k: nat)
    requires |parts| > 1 && k + |parts[0]| <= |t| && parts[0] <= t[k..]
    ensures PartsMatch(parts, t[k..]) <==> PartsMatchLater(parts[1..], t[k + |parts[0]|..])
  {
    assert t[k..][|parts[0]|..] == t[k + |parts[0]|..];
  }

  /** Where the parts from the leftmost occurrence of the first one still have to fit. */
  ghost predicate FitsAfterLeftmost(parts: seq<string>, t: string)
    requires |parts| > 1
  {
    var found := Find(t, parts[0]);
    found.Some? && PartsMatchLater(parts[1..], t[found.value + |parts[0]|..])
  }

  lemma FirstOccurs(parts: seq<string>, t: string, k: nat)
    requires |parts| > 1 && k <= |t| && PartsMatch(parts, t[k..])
    ensures k + |parts[0]| <= |t| && parts[0] <= t[k..]
    ensures PartsMatchLater(parts[1..], t[k + |parts[0]|..])
  {
    MatchAt(parts, t, k);
  }

  lemma NoneBefore(t: string, part: string, k: nat)
    requires k <= |t| && part <= t[k..]
    ensures Find(t, part).Some? && Find(t, part).value <= k
  {
    FindSpec(t, part);
  }

  lemma LeftmostLosesNothing(parts: seq<string>, t: string, k: nat)
    requires |parts| > 1 && k <= |t| && PartsMatch(parts, t[k..])
    ensures FitsAfterLeftmost(parts, t)
  {
    FirstOccurs(parts, t, k);
    NoneBefore(t, parts[0], k);
    LaterMonotone(parts[1..], t, Find(t, parts[0]).value + |parts[0]|, k + |parts[0]|);
  }

  /** Taking the leftmost occurrence of a middle part loses nothing: whatever later
      occurrence a match used, the rest of the match is still to the right of it. */
  lemma LeftmostSuffices(parts: seq<string>, t: string)
    requires |parts| > 1
    ensures PartsMatchLater(parts, t) <==> FitsAfterLeftmost(parts, t)
  {
    if k :| 0 <= k <= |t| && PartsMatch(parts, t[k..]) {
      LeftmostLosesNothing(parts, t, k);
    }
    if FitsAfterLeftmost(parts, t) {
      FindSpec(t, parts[0]);
      MatchAt(parts, t, Find(t, parts[0]).value);
    }
  }

  lemma LastAtEnd(part: string, t: string)
    ensures PartsMatchLater([part], t) <==> EndsWith(t, part)
  {
    if k :| 0 <= k <= |t| && PartsMatch([part], t[k..]) {
      assert k == |t| - |part|;
    }
    if EndsWith(t, part) {
      assert PartsMatch([part], t[|t| - |part|..]);
    }
  }

  lemma EmptyPart(parts: seq<string>, t: string)
    requires parts != [] && parts[0] == ""
    ensures |parts| == 1 ==> PartsMatchLater(parts, t)
    ensures |parts| > 1 ==> (PartsMatchLater(parts, t) <==> PartsMatchLater(parts[1..], t))
  {
    assert t[0..] == t;
    if |parts| == 1 {
      assert PartsMatch(parts, t[|t|..]);
    } else {
      LeftmostSuffices(parts, t);
    }
  }

  /** Whether the parts from `i` on can still be placed in the text from `pos` on. */
  ghost predicate Remaining(parts: seq<string>, i: nat, txt: string, pos: nat)
    requires i <= |parts| && parts != [] && pos <= |txt|
  {
    if i == |parts| then true
    else if i == 0 then pos == 0 && PartsMatch(parts, txt)
    else PartsMatchLater(parts[i..], txt[pos..])
  }

  lemma SkipPart(parts: seq<string>, i: nat, txt: string, pos: nat)
    requires i < |parts| && |parts| > 1 && pos <= |txt| && parts[i] == "" && (i == 0 ==> pos == 0)
    ensures Remaining(parts, i, txt, pos) <==> Remaining(parts, i + 1, txt, pos)
  {
    assert txt[0..] == txt;
    if i > 0 {
      EmptyPart(parts[i..], txt[pos..]);
      if i + 1 < |parts| {
        assert parts[i..][1..] == parts[i + 1..];
      }
    }
  }

  lemma FirstPart(parts: seq<string>, txt: string)
    requires |parts| > 1
    ensures Remaining(parts, 0, txt, 0) <==> parts[0] <= txt && Remaining(parts, 1, txt, |parts[0]|)
  {
  }

  lemma MiddlePart(parts: seq<string>, i: nat, txt: string, pos: nat)
    requires 0 < i < |parts| - 1 && pos <= |txt|
    ensures Find(txt[pos..], parts[i]).None? ==> !Remaining(parts, i, txt, pos)
    ensures Find(txt[pos..], parts[i]).Some? ==>
              var after := pos + Find(txt[pos..], parts[i]).value + |parts[i]|;
              (Remaining(parts, i, txt, pos) <==> Remaining(parts, i + 1, txt, after))
  {
    var t := txt[pos..];
    LeftmostSuffices(parts[i..], t);
    assert parts[i..][0] == parts[i] && parts[i..][1..] == parts[i + 1..];
    var found := Find(t, parts[i]);
    if found.Some? {
      assert t[found.value + |parts[i]|..] == txt[pos + found.value + |parts[i]|..];
    }
  }

  lemma LastPart(parts: seq<string>, txt: string, pos: nat)
    requires |parts| > 1 && pos <= |txt|
    ensures Remaining(parts, |parts| - 1, txt, pos) <==> EndsWith(txt[pos..], parts[|parts| - 1])
  {
    assert parts[|parts| - 1..] == [parts[|parts| - 1]];
    LastAtEnd(parts[|parts| - 1], txt[pos..]);
  }

  lemma SplitDecides(pattern: string, text: string)
    ensures Matches(pattern, text) <==> PartsMatch(Split(LowerAll(pattern)), LowerAll(text))
  {
    MatchesFolded(pattern, text);
    SplitMeaning(LowerAll(pattern), LowerAll(text));
  }

  lemma {:induction false} NoStar(p: string)
    requires |Split(p)| == 1
    ensures Split(p)[0] == p
  {
    if p != [] {
      NoStar(p[1..]);
    }
  }

  /** Accepts a text exactly when it matches the pattern. */
  method GlobMatch(pattern: string, text: string) returns (matched: bool)
    ensures matched <==> Matches(pattern, text)
  {
    var pat := LowerAll(pattern);
    var txt := LowerAll(text);
    var parts := Split(pat);
    SplitDecides(pattern, text);
    if |parts| == 1 {
      NoStar(pat);
      return pat == txt;
    }
    var pos: nat := 0;
    for i := 0 to |parts|
      invariant pos <= |txt| && (i == 0 ==> pos == 0)
      invariant Matches(pattern, text) <==> Remaining(parts, i, txt, pos)
    {
      var part := parts[i];
      if part == "" {
        SkipPart(parts, i, txt, pos);
        continue;
      }
      if i == 0 {
        FirstPart(parts, txt);
        assert txt[pos..] == txt;
        if !(part <= txt[pos..]) {
          return false;
        }
        pos := pos + |part|;
      } else if i == |parts| - 1 {
        LastPart(parts, txt, pos);
        return EndsWith(txt[pos..], part);
      } else {
        MiddlePart(parts, i, txt, pos);
        match Find(txt[pos..], part)
        case Some(found) => pos := pos + found + |part|;
        case None => return false;
      }
    }
    return true;
  }
}
