/**
 * Python's ordering of `str` keys, and `sorted(d.items())` for a dictionary
 * whose keys are strings (the reports of `StatsHandler`).
 *
 * Python compares strings lexicographically by code point, and a proper
 * prefix sorts before the longer string.
 */
module KeyOrder {

  /** One `(key, total)` pair of a report. */
  type Item = (string, int)

  /** `a < b` on Python strings. */
  predicate Below(a: string, b: string)
  {
    if a == [] then b != []
    else if b == [] then false
    else a[0] < b[0] || (a[0] == b[0] && Below(a[1..], b[1..]))
  }

  lemma {:induction false} BelowIrreflexive(a: string)
    ensures !Below(a, a)
  {
    if a != [] {
      BelowIrreflexive(a[1..]);
    }
  }

  lemma {:induction false} BelowAsymmetric(a: string, b: string)
    ensures Below(a, b) ==> !Below(b, a)
  {
    if a != [] && b != [] && a[0] == b[0] {
      BelowAsymmetric(a[1..], b[1..]);
    }
  }

  lemma {:induction false} BelowTransitive(a: string, b: string, c: string)
    requires Below(a, b) && Below(b, c)
    ensures Below(a, c)
  {
    if a != [] && a[0] == b[0] && b[0] == c[0] {
      BelowTransitive(a[1..], b[1..], c[1..]);
    }
  }

  lemma {:induction false} BelowTotal(a: string, b: string)
    requires a != b
    ensures Below(a, b) || Below(b, a)
  {
    if a != [] && b != [] && a[0] == b[0] {
      assert a == [a[0]] + a[1..] && b == [b[0]] + b[1..];
      BelowTotal(a[1..], b[1..]);
    }
  }

  /** Every non-empty finite set of strings has a least element. */
  lemma {:induction false} LeastExists(s: set<string>)
    requires s != {}
    ensures exists m :: m in s && forall x :: x in s && x != m ==> Below(m, x)
    decreases |s|
  {
    var x :| x in s;
    var rest := s - {x};
    if rest == {} {
      assert s == {x};
    } else {
      LeastExists(rest);
      var m :| m in rest && forall y :: y in rest && y != m ==> Below(m, y);
      BelowTotal(x, m);
      if Below(x, m) {
        forall y | y in s && y != x
          ensures Below(x, y)
        {
          if y != m {
            BelowTransitive(x, m, y);
          }
        }
      } else {
        assert forall y :: y in s && y != m ==> Below(m, y);
      }
    }
  }

  /** The least key of a non-empty set; it is unique, so this is deterministic. */
  function Least(s: set<string>): (m: string)
    requires s != {}
    ensures m in s
    ensures forall x :: x in s && x != m ==> Below(m, x)
  {
    LeastExists(s);
    AllAsymmetric();
    var m :| m in s && forall x :: x in s && x != m ==> Below(m, x);
    m
  }

  lemma AllAsymmetric()
    ensures forall a, b :: Below(a, b) ==> !Below(b, a)
  {
    forall a, b
      ensures Below(a, b) ==> !Below(b, a)
    {
      BelowAsymmetric(a, b);
    }
  }

  /** The keys of a report, strictly ascending (so also pairwise distinct). */
  ghost predicate ItemsAscending(items: seq<Item>)
  {
    forall i, j :: 0 <= i < j < |items| ==> Below(items[i].0, items[j].0)
  }

  /**
   * `sorted(d.items())`: the pairs of `d` in ascending key order, each
   * exactly once. Keys are distinct, so Python's tuple comparison never
   * looks at the totals.
   */
  function SortedItems(d: map<string, int>): (items: seq<Item>)
    ensures |items| == |d|
    ensures forall k, v :: (k, v) in items <==> k in d && d[k] == v
    ensures ItemsAscending(items)
    decreases |d|
  {
    if d == map[] then []
    else
      var k := Least(d.Keys);
      var rest := d - {k};
      assert |rest| == |d| - 1 by {
        assert rest.Keys == d.Keys - {k};
      }
      [(k, d[k])] + SortedItems(rest)
  }

  /**
   * A report is determined by its pairs: two strictly ascending sequences
   * holding the same pairs are the same sequence.
   */
  lemma {:induction false} AscendingItemsUnique(xs: seq<Item>, ys: seq<Item>)
    requires ItemsAscending(xs) && ItemsAscending(ys)
    requires forall p :: p in xs <==> p in ys
    ensures xs == ys
  {
    if xs != [] {
      assert xs[0] in xs;
    }
    if ys != [] {
      assert ys[0] in ys;
    }
    if xs != [] && ys != [] {
      AllAsymmetric();
      assert xs[0] == ys[0] by {
        assert xs[0] in ys && ys[0] in xs;
      }
      forall p
        ensures p in xs[1..] <==> p in ys[1..]
      {
        if p in xs[1..] {
          var i :| 1 <= i < |xs| && xs[i] == p;
          assert Below(xs[0].0, p.0);
          BelowIrreflexive(p.0);
          assert p != ys[0];
          assert p in ys;
        }
        if p in ys[1..] {
          var i :| 1 <= i < |ys| && ys[i] == p;
          assert Below(ys[0].0, p.0);
          BelowIrreflexive(p.0);
          assert p != xs[0];
          assert p in xs;
        }
      }
      AscendingItemsUnique(xs[1..], ys[1..]);
      assert xs == [xs[0]] + xs[1..] && ys == [ys[0]] + ys[1..];
    }
  }
}
