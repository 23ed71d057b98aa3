/** Letter tallies shared by the query side (the key's per-character counts)
    and the index side (the per-key `letters` map): how often each character
    occurs, the sum of a tally, and the multiset a tally stands for. */
module LetterCounts {

  /** How often each character occurs in `s`; only characters that occur are
      keys, so every count is at least one. */
  function Counts(s: seq<char>): (m: map<char, nat>)
    ensures m.Keys == set c | c in s
    ensures forall c :: c in m ==> 1 <= m[c] == multiset(s)[c]
  {
    map c | c in s :: multiset(s)[c]
  }

  /** The sum of all values of a tally. */
  ghost function Sum(m: map<char, int>): int
    decreases m.Keys
  {
    if m == map[] then 0
    else
      var c :| c in m;
      m[c] + Sum(m - {c})
  }

  /** The sum does not depend on which key is taken out first. */
  lemma {:induction false} SumRemove(m: map<char, int>, c: char)
    requires c in m
    ensures Sum(m) == m[c] + Sum(m - {c})
    decreases m.Keys
  {
    var d :| d in m && Sum(m) == m[d] + Sum(m - {d});
    if d != c {
      SumRemove(m - {d}, c);
      SumRemove(m - {c}, d);
      assert m - {d} - {c} == m - {c} - {d};
    }
  }

  /** Replacing (or adding) one entry changes the sum by the difference. */
  lemma SumUpdate(m: map<char, int>, c: char, v: int)
    ensures Sum(m[c := v]) == v + Sum(m - {c})
    ensures c in m ==> Sum(m[c := v]) == Sum(m) - m[c] + v
    ensures c !in m ==> Sum(m[c := v]) == Sum(m) + v
  {
    SumRemove(m[c := v], c);
    assert m[c := v] - {c} == m - {c};
    if c in m {
      SumRemove(m, c);
    } else {
      assert m - {c} == m;
    }
  }

  /** The counts of a string add up to its length. */
  lemma {:induction false} CountsSum(s: seq<char>)
    ensures Sum(Counts(s)) == |s|
  {
    if s == [] {
      assert Counts(s) == map[];
    } else {
      var p, x := s[..|s| - 1], s[|s| - 1];
      assert s == p + [x];
      CountsSum(p);
      var before := Counts(p);
      var v := if x in before then before[x] + 1 else 1;
      assert Counts(s) == before[x := v] by {
        assert multiset(s) == multiset(p) + multiset{x};
        forall c | c in s ensures c in before[x := v] && Counts(s)[c] == before[x := v][c] {
          if c != x {
            assert c in p by {
              var i :| 0 <= i < |s| && s[i] == c;
              assert i < |p| && p[i] == c;
            }
          }
        }
      }
      SumUpdate(before, x, v);
    }
  }

  /** The multiset a letter map stands for: each character as many times as
      its (positive) count says. */
  ghost function Bag(m: map<char, int>): (b: multiset<char>)
    ensures forall c :: b[c] == if c in m && m[c] > 0 then m[c] else 0
    decreases m.Keys
  {
    if m == map[] then multiset{}
    else
      var c :| c in m;
      Bag(m - {c})[c := if m[c] > 0 then m[c] else 0]
  }

  /** The tally of a string stands for exactly its multiset of characters. */
  lemma BagOfCounts(s: seq<char>)
    ensures Bag(Counts(s)) == multiset(s)
  {
    forall c ensures Bag(Counts(s))[c] == multiset(s)[c] {
      if c !in s {
        assert multiset(s)[c] == 0;
      }
    }
  }

  /** A tally with no negative count stands for a multiset of that many
      characters. */
  lemma {:induction false} BagSize(m: map<char, int>)
    requires forall c :: c in m ==> m[c] >= 0
    ensures |Bag(m)| == Sum(m)
    decreases m.Keys
  {
    if m != map[] {
      var c :| c in m;
      SumRemove(m, c);
      BagSize(m - {c});
      assert Bag(m) == Bag(m - {c})[c := m[c]];
    }
  }
}
