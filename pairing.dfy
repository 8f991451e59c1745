/** The matchup generator's pure half: every unordered pair of roster names in
    round-robin order, and the filter that drops the pairs of the excluded
    name. */
module Pairing {

  /** A pairing of two entries, referred to by name. */
  datatype Matchup = Matchup(item1: string, item2: string)

  /** The pairs of `first` with each later name, in order. */
  function Row(first: string, later: seq<string>): (r: seq<Matchup>)
    ensures |r| == |later|
  {
    if later == [] then [] else [Matchup(first, later[0])] + Row(first, later[1..])
  }

  /** The k-th pair of a row pairs `first` with the k-th later name. */
  lemma {:induction false} RowAt(first: string, later: seq<string>, k: nat)
    requires k < |later|
    ensures Row(first, later)[k] == Matchup(first, later[k])
  {
    if k > 0 {
      RowAt(first, later[1..], k - 1);
    }
  }

  /** All pairs `(names[i], names[j])` with `i < j`, ordered by `i` and then
      by `j`: the order in which the nested loops of the generator emit them. */
  function AllPairs(names: seq<string>): seq<Matchup>
  {
    if names == [] then [] else Row(names[0], names[1..]) + AllPairs(names[1..])
  }

  predicate Distinct(names: seq<string>)
  {
    forall i, j :: 0 <= i < j < |names| ==> names[i] != names[j]
  }

  predicate NoDuplicates(ms: seq<Matchup>)
  {
    forall a, b :: 0 <= a < b < |ms| ==> ms[a] != ms[b]
  }

  /** n entries give n·(n-1)/2 pairs. */
  lemma {:induction false} AllPairsCount(names: seq<string>)
    ensures |AllPairs(names)| == |names| * (|names| - 1) / 2
  {
    if names != [] {
      AllPairsCount(names[1..]);
      var n := |names|;
      assert |AllPairs(names)| == (n - 1) + (n - 1) * (n - 2) / 2;
      assert (n - 1) + (n - 1) * (n - 2) / 2 == (2 * (n - 1) + (n - 1) * (n - 2)) / 2;
      assert 2 * (n - 1) + (n - 1) * (n - 2) == n * (n - 1);
    }
  }

  /** Every pair `i < j` is generated. */
  lemma {:induction false} AllPairsComplete(names: seq<string>, i: nat, j: nat)
    requires i < j < |names|
    ensures Matchup(names[i], names[j]) in AllPairs(names)
  {
    if i == 0 {
      RowAt(names[0], names[1..], j - 1);
    } else {
      AllPairsComplete(names[1..], i - 1, j - 1);
    }
  }

  /** Every generated pair is some `(names[i], names[j])` with `i < j`. */
  lemma {:induction false} AllPairsSound(names: seq<string>, m: Matchup)
    requires m in AllPairs(names)
    ensures exists i, j :: 0 <= i < j < |names| && m == Matchup(names[i], names[j])
    ensures m.item1 in names && m.item2 in names
  {
    if m in Row(names[0], names[1..]) {
      var k :| 0 <= k < |names| - 1 && Row(names[0], names[1..])[k] == m;
      RowAt(names[0], names[1..], k);
      assert m == Matchup(names[0], names[k + 1]);
    } else {
      assert m in AllPairs(names[1..]);
      AllPairsSound(names[1..], m);
      var i, j :| 0 <= i < j < |names| - 1 && m == Matchup(names[1..][i], names[1..][j]);
      assert m == Matchup(names[i + 1], names[j + 1]);
    }
  }

  /** With distinct names no pair repeats and no pair matches a name with
      itself: every pair `i < j` appears exactly once. */
  lemma {:induction false} AllPairsUnique(names: seq<string>)
    requires Distinct(names)
    ensures NoDuplicates(AllPairs(names))
    ensures forall m :: m in AllPairs(names) ==> m.item1 != m.item2
  {
    if names != [] {
      var row, rest := Row(names[0], names[1..]), AllPairs(names[1..]);
      AllPairsUnique(names[1..]);
      forall m | m in rest ensures m.item1 != names[0] && m.item1 != m.item2 {
        AllPairsSound(names[1..], m);
      }
      forall m | m in row ensures m.item1 == names[0] && m.item1 != m.item2 {
        var k :| 0 <= k < |row| && row[k] == m;
        RowAt(names[0], names[1..], k);
      }
      assert AllPairs(names) == row + rest;
      forall a, b | 0 <= a < b < |row + rest| ensures (row + rest)[a] != (row + rest)[b] {
        if b < |row| {
          RowAt(names[0], names[1..], a);
          RowAt(names[0], names[1..], b);
        } else if a >= |row| {
          assert (row + rest)[a] == rest[a - |row|] && (row + rest)[b] == rest[b - |row|];
        } else {
          assert (row + rest)[b] in rest;
        }
      }
      forall m | m in row + rest ensures m.item1 != m.item2 {
        assert m in row || m in rest;
      }
    }
  }

  /** A pair survives the filter when neither side is the excluded name. */
  predicate Keeps(m: Matchup, selectedUser: string)
  {
    m.item1 != selectedUser && m.item2 != selectedUser
  }

  /** The matchups that do not involve `selectedUser`, in their original
      relative order. */
  function FilterMatchups(ms: seq<Matchup>, selectedUser: string): (r: seq<Matchup>)
    ensures |r| <= |ms|
    ensures forall m :: m in r <==> m in ms && Keeps(m, selectedUser)
  {
    if ms == [] then []
    else if Keeps(ms[0], selectedUser) then [ms[0]] + FilterMatchups(ms[1..], selectedUser)
    else FilterMatchups(ms[1..], selectedUser)
  }

  /** Filtering a concatenation filters each part: surviving pairs keep their
      relative order. */
  lemma {:induction false} FilterAppend(a: seq<Matchup>, b: seq<Matchup>, selectedUser: string)
    ensures FilterMatchups(a + b, selectedUser)
         == FilterMatchups(a, selectedUser) + FilterMatchups(b, selectedUser)
  {
    if a != [] {
      assert (a + b)[0] == a[0] && (a + b)[1..] == a[1..] + b;
      FilterAppend(a[1..], b, selectedUser);
    } else {
      assert a + b == b;
    }
  }

  /** A list none of whose pairs involves the excluded name is left as it is. */
  lemma {:induction false} FilterKeepsAll(ms: seq<Matchup>, selectedUser: string)
    requires forall m :: m in ms ==> Keeps(m, selectedUser)
    ensures FilterMatchups(ms, selectedUser) == ms
  {
    if ms != [] {
      FilterKeepsAll(ms[1..], selectedUser);
    }
  }

  /** The roster with one name taken out. */
  function Without(names: seq<string>, x: string): (r: seq<string>)
    ensures forall y :: y in r <==> y in names && y != x
  {
    if names == [] then []
    else if names[0] == x then Without(names[1..], x)
    else [names[0]] + Without(names[1..], x)
  }

  lemma {:induction false} FilterRow(first: string, later: seq<string>, x: string)
    requires first != x
    ensures FilterMatchups(Row(first, later), x) == Row(first, Without(later, x))
  {
    if later != [] {
      FilterRow(first, later[1..], x);
      assert Row(first, later)[1..] == Row(first, later[1..]);
    }
  }

  lemma {:induction false} FilterRowOfExcluded(later: seq<string>, x: string)
    ensures FilterMatchups(Row(x, later), x) == []
  {
    if later != [] {
      FilterRowOfExcluded(later[1..], x);
      assert Row(x, later)[1..] == Row(x, later[1..]);
    }
  }

  /** Excluding a name from all pairs gives exactly all pairs of the roster
      without that name, in the same order. */
  lemma {:induction false} FilterAllPairs(names: seq<string>, x: string)
    ensures FilterMatchups(AllPairs(names), x) == AllPairs(Without(names, x))
  {
    if names != [] {
      var row, rest := Row(names[0], names[1..]), AllPairs(names[1..]);
      FilterAppend(row, rest, x);
      FilterAllPairs(names[1..], x);
      if names[0] == x {
        FilterRowOfExcluded(names[1..], x);
      } else {
        FilterRow(names[0], names[1..], x);
        var w := Without(names, x);
        assert w == [names[0]] + Without(names[1..], x);
        assert w[0] == names[0] && w[1..] == Without(names[1..], x);
      }
    }
  }

  /** Excluding a name nobody has keeps every pair. */
  lemma ExcludingAnAbsentName(names: seq<string>, x: string)
    requires x !in names
    ensures FilterMatchups(AllPairs(names), x) == AllPairs(names)
  {
    forall m | m in AllPairs(names) ensures Keeps(m, x) {
      AllPairsSound(names, m);
    }
    FilterKeepsAll(AllPairs(names), x);
  }

  lemma {:induction false} WithoutDistinctMember(names: seq<string>, k: nat)
    requires Distinct(names) && k < |names|
    ensures |Without(names, names[k])| == |names| - 1
    ensures Distinct(Without(names, names[k]))
  {
    var x := names[k];
    if k == 0 {
      WithoutAbsent(names[1..], x);
    } else {
      WithoutDistinctMember(names[1..], k - 1);
      assert names[0] !in Without(names[1..], x);
    }
  }

  lemma {:induction false} WithoutAbsent(names: seq<string>, x: string)
    requires x !in names
    ensures Without(names, x) == names
  {
    if names != [] {
      WithoutAbsent(names[1..], x);
    }
  }

  /** Excluding one of n distinct names leaves (n-1)·(n-2)/2 pairs, each of
      them exactly once. */
  lemma ExcludingAMemberCount(names: seq<string>, k: nat)
    requires Distinct(names) && k < |names|
    ensures |FilterMatchups(AllPairs(names), names[k])| == (|names| - 1) * (|names| - 2) / 2
    ensures NoDuplicates(FilterMatchups(AllPairs(names), names[k]))
  {
    FilterAllPairs(names, names[k]);
    WithoutDistinctMember(names, k);
    AllPairsCount(Without(names, names[k]));
    AllPairsUnique(Without(names, names[k]));
  }
}
