/** `get_search_terms_for` (bargein.py:66-72): every combination of 2 up to
    `min(L, 3)` of an item's L keywords, in `itertools.combinations` order,
    each joined with single spaces. Combinations are modelled as strictly
    increasing index tuples and then mapped to keyword strings. */
module Terms {
  import opened PyStr
  import opened Listing

  /** `t` picks indices from `lo..n-1` in strictly increasing order. */
  ghost predicate Ascending(t: seq<nat>, lo: nat, n: nat)
  {
    && (forall i :: 0 <= i < |t| ==> lo <= t[i] < n)
    && (forall i, j :: 0 <= i < j < |t| ==> t[i] < t[j])
  }

  /** Lexicographic order on index tuples. */
  ghost predicate LexLess(a: seq<nat>, b: seq<nat>)
    decreases |a|
  {
    |a| > 0 && |b| > 0 && (a[0] < b[0] || (a[0] == b[0] && LexLess(a[1..], b[1..])))
  }

  /** The order in which the terms come out: by size, then lexicographically. */
  ghost predicate TupleBefore(a: seq<nat>, b: seq<nat>)
  {
    |a| < |b| || (|a| == |b| && LexLess(a, b))
  }

  /** Every tuple in `ts` has a size in `rmin..rmax` and ascends within `lo..n-1`. */
  ghost predicate AllAscending(ts: seq<seq<nat>>, rmin: nat, rmax: nat, lo: nat, n: nat)
  {
    forall i :: 0 <= i < |ts| ==> rmin <= |ts[i]| <= rmax && Ascending(ts[i], lo, n)
  }

  ghost predicate LexSorted(ts: seq<seq<nat>>)
  {
    forall i, j :: 0 <= i < j < |ts| ==> LexLess(ts[i], ts[j])
  }

  ghost predicate InTupleOrder(ts: seq<seq<nat>>)
  {
    forall i, j :: 0 <= i < j < |ts| ==> TupleBefore(ts[i], ts[j])
  }

  ghost predicate Occurs(t: seq<nat>, ts: seq<seq<nat>>)
  {
    exists i :: 0 <= i < |ts| && ts[i] == t
  }

  lemma {:induction false} LexLessIrreflexive(a: seq<nat>, b: seq<nat>)
    requires LexLess(a, b)
    ensures a != b
    decreases |a|
  {
    if a == b {
      assert a[0] == b[0];
      LexLessIrreflexive(a[1..], b[1..]);
    }
  }

  function Prepend(x: nat, ts: seq<seq<nat>>): (r: seq<seq<nat>>)
    ensures |r| == |ts| && forall i :: 0 <= i < |ts| ==> r[i] == [x] + ts[i]
  {
    seq(|ts|, i requires 0 <= i < |ts| => [x] + ts[i])
  }

  /** `combinations(range(lo, n), r)`: the r-element index tuples from `lo..n-1`,
      in lexicographic order. Those starting with `lo` come first. */
  function Combos(lo: nat, n: nat, r: nat): seq<seq<nat>>
    decreases n - lo
  {
    if r == 0 then [[]]
    else if lo >= n then []
    else Prepend(lo, Combos(lo + 1, n, r - 1)) + Combos(lo + 1, n, r)
  }

  /** Every tuple produced has size `r` and ascends within `lo..n-1`. */
  lemma {:induction false} CombosAscending(lo: nat, n: nat, r: nat)
    ensures AllAscending(Combos(lo, n, r), r, r, lo, n)
    decreases n - lo
  {
    if r > 0 && lo < n {
      var first, rest := Combos(lo + 1, n, r - 1), Combos(lo + 1, n, r);
      var p := Prepend(lo, first);
      var cs := Combos(lo, n, r);
      assert cs == p + rest;
      CombosAscending(lo + 1, n, r - 1);
      CombosAscending(lo + 1, n, r);
      forall i | 0 <= i < |cs| ensures |cs[i]| == r && Ascending(cs[i], lo, n) {
        if i < |p| {
          assert cs[i] == [lo] + first[i];
        } else {
          assert cs[i] == rest[i - |p|];
        }
      }
    }
  }

  /** Every tuple of the right size and range is produced. */
  lemma {:induction false} CombosComplete(lo: nat, n: nat, t: seq<nat>)
    requires Ascending(t, lo, n)
    ensures Occurs(t, Combos(lo, n, |t|))
    decreases n - lo
  {
    if |t| > 0 {
      var r := |t|;
      assert lo <= t[0] < n;
      if t[0] == lo {
        var tail := t[1..];
        assert Ascending(tail, lo + 1, n) by {
          forall i | 0 <= i < |tail| ensures lo + 1 <= tail[i] {
            assert t[0] < t[i + 1];
          }
        }
        CombosComplete(lo + 1, n, tail);
        var first := Combos(lo + 1, n, r - 1);
        var i :| 0 <= i < |first| && first[i] == tail;
        assert t == [lo] + tail;
        assert Combos(lo, n, r)[i] == t;
      } else {
        assert Ascending(t, lo + 1, n) by {
          forall i | 0 <= i < |t| ensures lo + 1 <= t[i] {
            if i > 0 { assert t[0] < t[i]; }
          }
        }
        CombosComplete(lo + 1, n, t);
        var first, rest := Combos(lo + 1, n, r - 1), Combos(lo + 1, n, r);
        var i :| 0 <= i < |rest| && rest[i] == t;
        assert Combos(lo, n, r)[|first| + i] == t;
      }
    } else {
      assert Combos(lo, n, 0)[0] == t;
    }
  }

  /** The tuples come out in strictly increasing lexicographic order. */
  lemma {:induction false} CombosSorted(lo: nat, n: nat, r: nat)
    ensures LexSorted(Combos(lo, n, r))
    decreases n - lo
  {
    if r > 0 && lo < n {
      var first, rest := Combos(lo + 1, n, r - 1), Combos(lo + 1, n, r);
      var p := Prepend(lo, first);
      var cs := Combos(lo, n, r);
      assert cs == p + rest;
      CombosSorted(lo + 1, n, r - 1);
      CombosSorted(lo + 1, n, r);
      CombosAscending(lo + 1, n, r);
      forall i, j | 0 <= i < j < |cs| ensures LexLess(cs[i], cs[j]) {
        if j < |p| {
          assert cs[i][1..] == first[i] && cs[j][1..] == first[j];
        } else if i >= |p| {
          assert cs[i] == rest[i - |p|] && cs[j] == rest[j - |p|];
        } else {
          assert cs[j] == rest[j - |p|];
        }
      }
    }
  }

  /** Binomial coefficient, by Pascal's rule. */
  function Choose(m: nat, k: nat): nat
  {
    if k == 0 then 1
    else if m == 0 then 0
    else Choose(m - 1, k - 1) + Choose(m - 1, k)
  }

  lemma {:induction false} CombosCount(lo: nat, n: nat, r: nat)
    ensures |Combos(lo, n, r)| == Choose(if lo <= n then n - lo else 0, r)
    decreases n - lo
  {
    if r > 0 && lo < n {
      CombosCount(lo + 1, n, r - 1);
      CombosCount(lo + 1, n, r);
    }
  }

  lemma {:induction false} ChooseOne(m: nat)
    ensures Choose(m, 1) == m
  {
    if m > 0 { ChooseOne(m - 1); }
  }

  /** C(m, 2) = m(m-1)/2 */
  lemma {:induction false} ChooseTwo(m: nat)
    ensures 2 * Choose(m, 2) == m * (m - 1)
  {
    if m > 0 {
      ChooseOne(m - 1);
      ChooseTwo(m - 1);
    }
  }

  /** C(m, 3) = m(m-1)(m-2)/6 */
  lemma {:induction false} ChooseThree(m: nat)
    ensures 6 * Choose(m, 3) == m * (m - 1) * (m - 2)
  {
    if m > 0 {
      var k := m - 1;
      ChooseTwo(k);
      ChooseThree(k);
      var p := k * (k - 1);
      assert Choose(m, 3) == Choose(k, 2) + Choose(k, 3);
      assert 6 * Choose(k, 2) == 3 * p;
      assert 6 * Choose(k, 3) == p * (k - 2);
      Distribute(p, 3, k - 2);
      Reassociate(m, k, k - 1);
    }
  }

  lemma Distribute(p: int, a: int, b: int)
    ensures p * a + p * b == p * (a + b)
  {
  }

  lemma Reassociate(a: int, b: int, c: int)
    ensures a * b * c == (b * c) * a
  {
  }

  /** The largest combination size: `len(keywords)` capped at 3. */
  function MaxSize(len: nat): (r: nat)
    ensures r <= 3 && r <= len && (len <= 3 ==> r == len) && (len > 3 ==> r == 3)
  {
    if len <= 3 then len else 3
  }

  /** The tuples of sizes `r..hi` over `n` indices, size by size. */
  function TuplesFrom(n: nat, r: nat, hi: nat): seq<seq<nat>>
    decreases hi + 1 - r
  {
    if r > hi then [] else Combos(0, n, r) + TuplesFrom(n, r + 1, hi)
  }

  /** `for i in range(2, length + 1): for term in combinations(keywords, r=i)`,
      as index tuples. */
  function IndexTuples(n: nat): seq<seq<nat>>
  {
    TuplesFrom(n, 2, MaxSize(n))
  }

  lemma {:induction false} TuplesFromAscending(n: nat, r: nat, hi: nat)
    ensures AllAscending(TuplesFrom(n, r, hi), r, hi, 0, n)
    decreases hi + 1 - r
  {
    if r <= hi {
      var cs, rest := Combos(0, n, r), TuplesFrom(n, r + 1, hi);
      var ts := TuplesFrom(n, r, hi);
      assert ts == cs + rest;
      CombosAscending(0, n, r);
      TuplesFromAscending(n, r + 1, hi);
      forall i | 0 <= i < |ts| ensures r <= |ts[i]| <= hi && Ascending(ts[i], 0, n) {
        if i < |cs| {
          assert ts[i] == cs[i];
        } else {
          assert ts[i] == rest[i - |cs|];
        }
      }
    }
  }

  lemma {:induction false} TuplesFromComplete(n: nat, r: nat, hi: nat, t: seq<nat>)
    requires r <= |t| <= hi && Ascending(t, 0, n)
    ensures Occurs(t, TuplesFrom(n, r, hi))
    decreases hi + 1 - r
  {
    var cs := Combos(0, n, r);
    assert TuplesFrom(n, r, hi) == cs + TuplesFrom(n, r + 1, hi);
    if |t| == r {
      CombosComplete(0, n, t);
      var i :| 0 <= i < |cs| && cs[i] == t;
      assert TuplesFrom(n, r, hi)[i] == t;
    } else {
      TuplesFromComplete(n, r + 1, hi, t);
      var rest := TuplesFrom(n, r + 1, hi);
      var i :| 0 <= i < |rest| && rest[i] == t;
      assert TuplesFrom(n, r, hi)[|cs| + i] == t;
    }
  }

  lemma {:induction false} TuplesFromOrdered(n: nat, r: nat, hi: nat)
    ensures InTupleOrder(TuplesFrom(n, r, hi))
    decreases hi + 1 - r
  {
    if r <= hi {
      var cs, rest := Combos(0, n, r), TuplesFrom(n, r + 1, hi);
      assert TuplesFrom(n, r, hi) == cs + rest;
      CombosSorted(0, n, r);
      CombosAscending(0, n, r);
      TuplesFromOrdered(n, r + 1, hi);
      TuplesFromAscending(n, r + 1, hi);
      OrderedConcat(cs, rest, r);
    }
  }

  /** Equal-size tuples in lexicographic order followed by larger tuples in
      tuple order are in tuple order. */
  lemma OrderedConcat(cs: seq<seq<nat>>, rest: seq<seq<nat>>, r: nat)
    requires LexSorted(cs) && forall i :: 0 <= i < |cs| ==> |cs[i]| == r
    requires InTupleOrder(rest) && forall i :: 0 <= i < |rest| ==> |rest[i]| > r
    ensures InTupleOrder(cs + rest)
  {
    var ts := cs + rest;
    forall i, j | 0 <= i < j < |ts| ensures TupleBefore(ts[i], ts[j]) {
      if j < |cs| {
        assert ts[i] == cs[i] && ts[j] == cs[j];
      } else if i >= |cs| {
        assert ts[i] == rest[i - |cs|] && ts[j] == rest[j - |cs|];
      } else {
        assert ts[i] == cs[i] && ts[j] == rest[j - |cs|];
      }
    }
  }

  /** Number of terms for L keywords: C(L,2), plus C(L,3) when L >= 3. */
  function TermCount(len: nat): nat
  {
    if len < 2 then 0
    else if len == 2 then Choose(2, 2)
    else Choose(len, 2) + Choose(len, 3)
  }

  lemma IndexTuplesCount(n: nat)
    ensures |IndexTuples(n)| == TermCount(n)
  {
    CombosCount(0, n, 2);
    CombosCount(0, n, 3);
    if n >= 2 {
      assert IndexTuples(n) == Combos(0, n, 2) + TuplesFrom(n, 3, MaxSize(n));
      if n >= 3 {
        assert TuplesFrom(n, 3, MaxSize(n)) == Combos(0, n, 3) + TuplesFrom(n, 4, 3);
      }
    }
  }

  /** The keywords at the indices of `t`, in order. */
  function Pick(words: seq<string>, t: seq<nat>): (ws: seq<string>)
    requires forall i :: 0 <= i < |t| ==> t[i] < |words|
    ensures |ws| == |t| && forall i :: 0 <= i < |t| ==> ws[i] == words[t[i]]
  {
    seq(|t|, i requires 0 <= i < |t| => words[t[i]])
  }

  /** `get_search_terms_for(item)`, collected into a sequence. */
  function SearchTermsFor(item: Item): (terms: seq<string>)
  {
    var ts := IndexTuples(|item.terms|);
    TuplesFromAscending(|item.terms|, 2, MaxSize(|item.terms|));
    seq(|ts|, i requires 0 <= i < |ts| => Join(" ", Pick(item.terms, ts[i])))
  }

  /** What the expansion yields, completely: one term per index tuple of size 2
      or 3 over the keywords, each tuple exactly once, ordered by size and then
      lexicographically; C(L,2) + C(L,3) terms (C(2,2) for L = 2, none below 2). */
  lemma SearchTermsEnumerate(item: Item)
    ensures |SearchTermsFor(item)| == |IndexTuples(|item.terms|)| == TermCount(|item.terms|)
    ensures |item.terms| < 2 ==> SearchTermsFor(item) == []
    ensures AllAscending(IndexTuples(|item.terms|), 2, 3, 0, |item.terms|)
    ensures forall i :: 0 <= i < |SearchTermsFor(item)| ==>
      SearchTermsFor(item)[i] == Join(" ", Pick(item.terms, IndexTuples(|item.terms|)[i]))
    ensures forall t :: (|t| == 2 || |t| == 3) && Ascending(t, 0, |item.terms|) ==>
      Occurs(t, IndexTuples(|item.terms|))
    ensures InTupleOrder(IndexTuples(|item.terms|))
  {
    var kw, ts := item.terms, IndexTuples(|item.terms|);
    IndexTuplesCount(|kw|);
    TuplesFromOrdered(|kw|, 2, MaxSize(|kw|));
    TuplesFromAscending(|kw|, 2, MaxSize(|kw|));
    forall t | (|t| == 2 || |t| == 3) && Ascending(t, 0, |kw|)
      ensures exists i :: 0 <= i < |ts| && ts[i] == t
    {
      if |t| == 3 { assert t[0] < t[1] < t[2]; } else { assert t[0] < t[1]; }
      TuplesFromComplete(|kw|, 2, MaxSize(|kw|), t);
    }
  }

  /** No index tuple is produced twice. */
  lemma IndexTuplesDistinct(n: nat)
    ensures forall i, j :: 0 <= i < j < |IndexTuples(n)| ==> IndexTuples(n)[i] != IndexTuples(n)[j]
  {
    var ts := IndexTuples(n);
    TuplesFromOrdered(n, 2, MaxSize(n));
    forall i, j | 0 <= i < j < |ts| ensures ts[i] != ts[j] {
      if |ts[i]| == |ts[j]| { LexLessIrreflexive(ts[i], ts[j]); }
    }
  }

  lemma IndexTuplesOfThree()
    ensures IndexTuples(3) == [[0, 1], [0, 2], [1, 2], [0, 1, 2]]
  {
    assert [2] + [] == [2] && [1] + [] == [1] && [1] + [2] == [1, 2];
    assert [0] + [1] == [0, 1] && [0] + [2] == [0, 2] && [0] + [1, 2] == [0, 1, 2];
    assert Prepend(2, [[]]) == [[2]];
    assert Combos(2, 3, 1) == [[2]];
    assert Prepend(1, [[]]) == [[1]];
    assert Combos(1, 3, 1) == [[1], [2]];
    assert Combos(2, 3, 2) == [];
    assert Prepend(1, [[2]]) == [[1, 2]];
    assert Combos(1, 3, 2) == [[1, 2]];
    assert Prepend(0, [[1], [2]]) == [[0, 1], [0, 2]];
    assert Combos(0, 3, 2) == [[0, 1], [0, 2], [1, 2]];
    assert Combos(1, 3, 3) == [];
    assert Prepend(0, [[1, 2]]) == [[0, 1, 2]];
    assert Combos(0, 3, 3) == [[0, 1, 2]];
    assert TuplesFrom(3, 4, 3) == [];
  }

  /** Three keywords give the three pairs and then the triple. */
  lemma ThreeKeywords(item: Item)
    requires item.terms == ["bike", "road", "red"]
    ensures SearchTermsFor(item) == ["bike road", "bike red", "road red", "bike road red"]
  {
    var kw, terms := item.terms, SearchTermsFor(item);
    IndexTuplesOfThree();
    PicksOfThree(kw);
    JoinExamples();
    assert |terms| == 4;
    assert terms[0] == "bike road";
    assert terms[1] == "bike red";
    assert terms[2] == "road red";
    assert terms[3] == "bike road red";
  }

  lemma PicksOfThree(kw: seq<string>)
    requires kw == ["bike", "road", "red"]
    ensures Pick(kw, [0, 1]) == ["bike", "road"]
    ensures Pick(kw, [0, 2]) == ["bike", "red"]
    ensures Pick(kw, [1, 2]) == ["road", "red"]
    ensures Pick(kw, [0, 1, 2]) == ["bike", "road", "red"]
  {
  }

  lemma JoinExamples()
    ensures Join(" ", ["bike", "road"]) == "bike road"
    ensures Join(" ", ["bike", "red"]) == "bike red"
    ensures Join(" ", ["road", "red"]) == "road red"
    ensures Join(" ", ["bike", "road", "red"]) == "bike road red"
    ensures Join(" ", ["x", "x"]) == "x x"
  {
    assert ["bike", "road"][1..] == ["road"];
    assert ["bike", "red"][1..] == ["red"];
    assert ["road", "red"][1..] == ["red"];
    assert ["bike", "road", "red"][1..] == ["road", "red"];
    assert ["x", "x"][1..] == ["x"];
  }

  /** The terms are distinct as index tuples but not as strings: a repeated
      keyword repeats a term. */
  lemma RepeatedKeywordRepeatsTerm(item: Item)
    requires item.terms == ["x", "x", "x"]
    ensures |SearchTermsFor(item)| == 4
    ensures SearchTermsFor(item)[0] == SearchTermsFor(item)[1] == "x x"
  {
    var kw := item.terms;
    IndexTuplesOfThree();
    assert Pick(kw, [0, 1]) == ["x", "x"];
    assert Pick(kw, [0, 2]) == ["x", "x"];
    JoinExamples();
  }
}
