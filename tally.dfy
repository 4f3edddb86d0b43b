/** `SELECT key, COUNT(*) … GROUP BY key` turned into a dictionary, and the sum of
    that dictionary's values, over the keys of the rows a query selected. */
module Tally {

  /** How many of the selected rows have key `t`. */
  function Occurrences(ts: seq<string>, t: string): nat
  {
    if ts == [] then 0
    else Occurrences(ts[..|ts| - 1], t) + (if ts[|ts| - 1] == t then 1 else 0)
  }

  /** The distinct keys, in the order in which they first appear. */
  function Distinct(ts: seq<string>): (ks: seq<string>)
    ensures forall t :: t in ks <==> t in ts
    ensures forall i, j :: 0 <= i < j < |ks| ==> ks[i] != ks[j]
  {
    if ts == [] then []
    else
      var ks := Distinct(ts[..|ts| - 1]);
      var last := ts[|ts| - 1];
      assert ts == ts[..|ts| - 1] + [last];
      if last in ks then ks else ks + [last]
  }

  /** The grouped counts as a dictionary: one entry per key that occurs. */
  function Count(ts: seq<string>): (m: map<string, nat>)
    ensures forall t :: t in m <==> t in ts
    ensures forall t :: t in m ==> m[t] == Occurrences(ts, t) && m[t] > 0
  {
    OccurrencesPositive(ts);
    map t | t in ts :: Occurrences(ts, t)
  }

  lemma {:induction false} OccurrencesPositive(ts: seq<string>)
    ensures forall t :: t in ts <==> Occurrences(ts, t) > 0
  {
    if ts != [] {
      OccurrencesPositive(ts[..|ts| - 1]);
      assert ts == ts[..|ts| - 1] + [ts[|ts| - 1]];
    }
  }

  /** Python's `sum(d.values())`, taking the values in the order of `keys`. */
  function SumValues(keys: seq<string>, m: map<string, nat>): nat
    requires forall k :: k in keys ==> k in m
  {
    if keys == [] then 0 else SumValues(keys[..|keys| - 1], m) + m[keys[|keys| - 1]]
  }

  /** The counts of all groups add up to the number of selected rows. */
  lemma {:induction false} SumOfCounts(ts: seq<string>)
    ensures SumValues(Distinct(ts), Count(ts)) == |ts|
  {
    if ts != [] {
      var p := ts[..|ts| - 1];
      var x := ts[|ts| - 1];
      SumOfCounts(p);
      var ks := Distinct(p);
      var m, m' := Count(p), Count(ts);
      forall k | k in ks ensures m'[k] == m[k] + (if k == x then 1 else 0) {
        assert ts[..|ts| - 1] == p;
      }
      if x in ks {
        SumBump(ks, m, m', x);
      } else {
        SumAgree(ks, m, m');
        assert ts[..|ts| - 1] == p;
        assert Occurrences(p, x) == 0 by { OccurrencesPositive(p); }
        assert Distinct(ts) == ks + [x];
        assert (ks + [x])[..|ks|] == ks;
      }
    }
  }

  /** Raising the value of one listed key by one raises the sum by one. */
  lemma {:induction false} SumBump(ks: seq<string>, m: map<string, nat>, m': map<string, nat>, x: string)
    requires forall k :: k in ks ==> k in m && k in m'
    requires forall i, j :: 0 <= i < j < |ks| ==> ks[i] != ks[j]
    requires forall k :: k in ks ==> m'[k] == m[k] + (if k == x then 1 else 0)
    requires x in ks
    ensures SumValues(ks, m') == SumValues(ks, m) + 1
  {
    var p := ks[..|ks| - 1];
    var last := ks[|ks| - 1];
    assert forall k :: k in p ==> k in ks;
    if last == x {
      assert x !in p;
      SumAgree(p, m, m');
    } else {
      assert x in p;
      SumBump(p, m, m', x);
    }
  }

  /** Two dictionaries that agree on the listed keys have the same sum over them. */
  lemma {:induction false} SumAgree(ks: seq<string>, m: map<string, nat>, m': map<string, nat>)
    requires forall k :: k in ks ==> k in m && k in m' && m[k] == m'[k]
    ensures SumValues(ks, m) == SumValues(ks, m')
  {
    if ks != [] {
      assert forall k :: k in ks[..|ks| - 1] ==> k in ks;
      SumAgree(ks[..|ks| - 1], m, m');
    }
  }
}
