/** Maps from ids to sets, a missing id standing for the empty set, and the measure
    that bounds how often the sets of a fixed-point iteration can grow. */
module SetMaps {
  function Get<T>(m: map<nat, set<T>>, b: nat): set<T> {
    if b in m then m[b] else {}
  }

  lemma GetAfterUpdate<T>(m: map<nat, set<T>>, m': map<nat, set<T>>, b: nat, s: set<T>)
    requires m' == m[b := s]
    ensures Get(m', b) == s
    ensures forall x: nat :: x != b ==> Get(m', x) == Get(m, x)
  {
  }

  /** How many members of `all` the sets at `ids` still lack. */
  ghost function Slack<T>(ids: seq<nat>, all: set<T>, m: map<nat, set<T>>): nat {
    if ids == [] then 0 else |all - Get(m, ids[0])| + Slack(ids[1..], all, m)
  }

  lemma FewerLeft<T>(all: set<T>, s: set<T>, t: set<T>)
    requires s <= t <= all
    ensures |all - t| <= |all - s|
    ensures s != t ==> |all - t| < |all - s|
  {
    assert all - s == (all - t) + (t - s);
    if s != t {
      assert t - s != {};
    }
  }

  lemma {:induction false} GrowthLowersSlack<T>(ids: seq<nat>, all: set<T>, m: map<nat, set<T>>, m': map<nat, set<T>>, b: nat)
    requires forall x: nat :: x != b ==> Get(m', x) == Get(m, x)
    requires Get(m, b) <= Get(m', b) <= all
    ensures Slack(ids, all, m') <= Slack(ids, all, m)
    ensures b in ids && Get(m, b) != Get(m', b) ==> Slack(ids, all, m') < Slack(ids, all, m)
  {
    FewerLeft(all, Get(m, b), Get(m', b));
    if ids != [] {
      GrowthLowersSlack(ids[1..], all, m, m', b);
      assert ids == [ids[0]] + ids[1..];
    }
  }
}
