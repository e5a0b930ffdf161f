/**
 * Finite sums over sets and sequences of cells, used to state the
 * accumulator loops of the metrics (perimeter, endpoint count) as values.
 */
module Sums {
  import opened Grid

  /** The sum of f over a finite set of cells (order-independent, see SumRemove). */
  ghost function Sum(t: set<Cell>, f: Cell -> int): int
    decreases t
  {
    if t == {} then 0 else var c :| c in t; f(c) + Sum(t - {c}, f)
  }

  /** Any member can be taken out first. */
  lemma {:induction false} SumRemove(t: set<Cell>, f: Cell -> int, c: Cell)
    requires c in t
    ensures Sum(t, f) == f(c) + Sum(t - {c}, f)
    decreases t
  {
    var d :| d in t && Sum(t, f) == f(d) + Sum(t - {d}, f);
    if d != c {
      SumRemove(t - {d}, f, c);
      SumRemove(t - {c}, f, d);
      assert t - {d} - {c} == t - {c} - {d};
    }
  }

  lemma SumInsert(t: set<Cell>, f: Cell -> int, c: Cell)
    requires c !in t
    ensures Sum(t + {c}, f) == f(c) + Sum(t, f)
  {
    SumRemove(t + {c}, f, c);
    assert t + {c} - {c} == t;
  }

  lemma {:induction false} SumCongruent(t: set<Cell>, f: Cell -> int, g: Cell -> int)
    requires forall c :: c in t ==> f(c) == g(c)
    ensures Sum(t, f) == Sum(t, g)
    decreases t
  {
    if t != {} {
      var c :| c in t;
      SumRemove(t, f, c);
      SumRemove(t, g, c);
      SumCongruent(t - {c}, f, g);
    }
  }

  /** Sum is additive: if h = f + g pointwise on t, then so are the sums. */
  lemma {:induction false} SumAdd(t: set<Cell>, f: Cell -> int, g: Cell -> int, h: Cell -> int)
    requires forall c :: c in t ==> h(c) == f(c) + g(c)
    ensures Sum(t, h) == Sum(t, f) + Sum(t, g)
    decreases t
  {
    if t != {} {
      var c :| c in t;
      SumRemove(t, f, c);
      SumRemove(t, g, c);
      SumRemove(t, h, c);
      SumAdd(t - {c}, f, g, h);
    }
  }

  /** Members where f vanishes can be dropped. */
  lemma {:induction false} SumSupport(t: set<Cell>, a: set<Cell>, f: Cell -> int)
    requires forall c :: c in t && c !in a ==> f(c) == 0
    ensures Sum(t, f) == Sum(t * a, f)
    decreases t
  {
    if t != {} {
      var c :| c in t;
      SumRemove(t, f, c);
      SumSupport(t - {c}, a, f);
      if c in a {
        SumRemove(t * a, f, c);
        assert (t - {c}) * a == t * a - {c};
      } else {
        assert (t - {c}) * a == t * a;
      }
    }
  }

  /** A sum of values in 0..1 lies in 0..|t|. */
  lemma {:induction false} SumOfFlags(t: set<Cell>, f: Cell -> int)
    requires forall c :: c in t ==> 0 <= f(c) <= 1
    ensures 0 <= Sum(t, f) <= |t|
    decreases t
  {
    if t != {} {
      var c :| c in t;
      SumRemove(t, f, c);
      SumOfFlags(t - {c}, f);
    }
  }

  /** The 0/1 indicator of membership in a. */
  function Indicator(a: set<Cell>): Cell -> int {
    c => if c in a then 1 else 0
  }

  /** Taking c out of t takes its indicator out of |t * a|. */
  lemma IndicatorStep(t: set<Cell>, a: set<Cell>, c: Cell)
    requires c in t
    ensures |t * a| == |(t - {c}) * a| + Indicator(a)(c)
  {
    var r := t - {c};
    if c in a {
      assert t * a == r * a + {c} && c !in r * a;
    } else {
      assert t * a == r * a;
    }
  }

  lemma {:induction false} SumIndicator(t: set<Cell>, a: set<Cell>)
    ensures Sum(t, Indicator(a)) == |t * a|
    decreases t
  {
    if t != {} {
      var c :| c in t;
      SumRemove(t, Indicator(a), c);
      SumIndicator(t - {c}, a);
      IndicatorStep(t, a, c);
    }
  }

  // ---------------------------------------------------------------------------
  // Sequences

  predicate Distinct(s: seq<Cell>) {
    forall i, j :: 0 <= i < j < |s| ==> s[i] != s[j]
  }

  function Elements(s: seq<Cell>): set<Cell> {
    set i | 0 <= i < |s| :: s[i]
  }

  /** The sum of f over a sequence, taken front to back. */
  function SeqSum(s: seq<Cell>, f: Cell -> int): int {
    if s == [] then 0 else SeqSum(s[..|s| - 1], f) + f(s[|s| - 1])
  }

  /** How many entries of s lie in a. */
  function CountIn(s: seq<Cell>, a: set<Cell>): nat {
    if s == [] then 0 else CountIn(s[..|s| - 1], a) + (if s[|s| - 1] in a then 1 else 0)
  }

  /** Extending a prefix by one entry adds that entry's membership. */
  lemma CountInPrefix(s: seq<Cell>, j: int, a: set<Cell>)
    requires 0 <= j < |s|
    ensures CountIn(s[..j + 1], a) == CountIn(s[..j], a) + (if s[j] in a then 1 else 0)
  {
    assert s[..j + 1][..j] == s[..j];
  }

  lemma {:induction false} SeqSumIsSum(s: seq<Cell>, f: Cell -> int)
    requires Distinct(s)
    ensures SeqSum(s, f) == Sum(Elements(s), f)
  {
    if s != [] {
      var init, last := s[..|s| - 1], s[|s| - 1];
      SeqSumIsSum(init, f);
      DistinctSnoc(s);
      SumInsert(Elements(init), f, last);
    }
  }

  lemma {:induction false} CountInIsCard(s: seq<Cell>, a: set<Cell>)
    requires Distinct(s)
    ensures CountIn(s, a) == |Elements(s) * a|
  {
    if s != [] {
      var init, last := s[..|s| - 1], s[|s| - 1];
      CountInIsCard(init, a);
      DistinctSnoc(s);
      if last in a {
        assert Elements(s) * a == Elements(init) * a + {last};
      } else {
        assert Elements(s) * a == Elements(init) * a;
      }
    }
  }

  /** Taking c out of the unvisited rest of s adds it to the visited part. */
  lemma ScanStep(s: set<Cell>, rest: set<Cell>, c: Cell)
    requires c in rest && rest <= s
    ensures c !in s - rest && s - (rest - {c}) == (s - rest) + {c} && rest - {c} <= s
    ensures |rest - {c}| < |rest|
  {
  }

  lemma CardSubset(a: set<Cell>, b: set<Cell>)
    requires a <= b
    ensures |a| <= |b|
  {
    assert b == a + (b - a);
  }

  lemma ElementsSnoc(s: seq<Cell>, c: Cell)
    ensures Elements(s + [c]) == Elements(s) + {c}
  {
    var t := s + [c];
    forall v | v in Elements(t) ensures v in Elements(s) + {c} {
      var i :| 0 <= i < |t| && t[i] == v;
      if i < |s| { assert s[i] == v; }
    }
    forall v | v in Elements(s) ensures v in Elements(t) {
      var i :| 0 <= i < |s| && s[i] == v;
      assert t[i] == v;
    }
    assert t[|s|] == c;
  }

  /** A duplicate-free sequence is its duplicate-free front followed by a new last entry. */
  lemma DistinctSnoc(s: seq<Cell>)
    requires Distinct(s) && s != []
    ensures Distinct(s[..|s| - 1]) && s[|s| - 1] !in Elements(s[..|s| - 1])
    ensures Elements(s) == Elements(s[..|s| - 1]) + {s[|s| - 1]}
  {
    var init := s[..|s| - 1];
    assert s == init + [s[|s| - 1]];
    ElementsSnoc(init, s[|s| - 1]);
    forall v | v in Elements(init) ensures v != s[|s| - 1] {
      var i :| 0 <= i < |init| && init[i] == v;
      assert s[i] == v;
    }
  }

  /** A duplicate-free sequence has as many entries as elements. */
  lemma {:induction false} DistinctCard(s: seq<Cell>)
    requires Distinct(s)
    ensures |Elements(s)| == |s|
  {
    if s != [] {
      var init := s[..|s| - 1];
      DistinctCard(init);
      ElementsSnoc(init, s[|s| - 1]);
      assert init + [s[|s| - 1]] == s;
      assert s[|s| - 1] !in Elements(init);
    }
  }
}
