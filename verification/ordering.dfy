/** What a `Sort` does to the rows: a permutation of them, in the order of the keys, rows of equal
    keys in the order they came. */
module Ordering {
  import opened Options
  import opened Bound
  import opened Evaluation
  import opened Relational

  function Ord(sem: Sem, c: Option<nat>, a: Value, b: Value): int {
    sem.order(c, a, b)
  }

  /** The comparison of two values is a total preorder under every collation. */
  ghost predicate OrderLaws(sem: Sem) {
    (forall c, a, b :: (Ord(sem, c, a, b) < 0) == (Ord(sem, c, b, a) > 0))
    && (forall c, a, b, d :: Ord(sem, c, a, b) <= 0 && Ord(sem, c, b, d) <= 0 ==> Ord(sem, c, a, d) <= 0)
  }

  /** The keys of a `Sort`: the collation and the direction of each. */
  datatype Keying = Keying(colls: seq<Option<nat>>, desc: seq<bool>)

  function OrderBetween(sem: Sem, k: Keying, a: Row, b: Row): int {
    KeyOrder(sem, k.colls, k.desc, a, b)
  }

  lemma OrderOfLaws(sem: Sem, c: Option<nat>, a: Value, b: Value, d: Value)
    requires OrderLaws(sem)
    ensures (OrderOf(sem, c, a, b) < 0) == (OrderOf(sem, c, b, a) > 0)
    ensures OrderOf(sem, c, a, a) == 0
    ensures OrderOf(sem, c, a, b) <= 0 && OrderOf(sem, c, b, d) <= 0 ==> OrderOf(sem, c, a, d) <= 0
    ensures OrderOf(sem, c, a, b) < 0 && OrderOf(sem, c, b, d) <= 0 ==> OrderOf(sem, c, a, d) < 0
    ensures OrderOf(sem, c, a, b) <= 0 && OrderOf(sem, c, b, d) < 0 ==> OrderOf(sem, c, a, d) < 0
  {
    assert (Ord(sem, c, a, a) < 0) == (Ord(sem, c, a, a) > 0);
    assert (Ord(sem, c, a, b) < 0) == (Ord(sem, c, b, a) > 0) && (Ord(sem, c, b, a) < 0) == (Ord(sem, c, a, b) > 0);
    assert (Ord(sem, c, b, d) < 0) == (Ord(sem, c, d, b) > 0) && (Ord(sem, c, d, b) < 0) == (Ord(sem, c, b, d) > 0);
    assert (Ord(sem, c, a, d) < 0) == (Ord(sem, c, d, a) > 0) && (Ord(sem, c, d, a) < 0) == (Ord(sem, c, a, d) > 0);
    assert Ord(sem, c, a, b) <= 0 && Ord(sem, c, b, d) <= 0 ==> Ord(sem, c, a, d) <= 0;
    assert Ord(sem, c, d, a) <= 0 && Ord(sem, c, a, b) <= 0 ==> Ord(sem, c, d, b) <= 0;
    assert Ord(sem, c, b, d) <= 0 && Ord(sem, c, d, a) <= 0 ==> Ord(sem, c, b, a) <= 0;
  }

  /** Rows of keys of one length compare as a total preorder. */
  lemma {:induction false} CompareFlips(sem: Sem, colls: seq<Option<nat>>, desc: seq<bool>, a: Row, b: Row)
    requires OrderLaws(sem) && |a| == |b|
    ensures (KeyOrder(sem, colls, desc, a, b) < 0) == (KeyOrder(sem, colls, desc, b, a) > 0)
    ensures (KeyOrder(sem, colls, desc, a, b) == 0) == (KeyOrder(sem, colls, desc, b, a) == 0)
    decreases |a|
  {
    if |a| > 0 && |colls| > 0 && |desc| > 0 {
      OrderOfLaws(sem, colls[0], a[0], b[0], a[0]);
      OrderOfLaws(sem, colls[0], b[0], a[0], b[0]);
      CompareFlips(sem, colls[1..], desc[1..], a[1..], b[1..]);
    }
  }

  lemma {:induction false} CompareTransitive(sem: Sem, colls: seq<Option<nat>>, desc: seq<bool>, a: Row, b: Row, d: Row)
    requires OrderLaws(sem) && |a| == |b| == |d|
    requires KeyOrder(sem, colls, desc, a, b) <= 0 && KeyOrder(sem, colls, desc, b, d) <= 0
    ensures KeyOrder(sem, colls, desc, a, d) <= 0
    decreases |a|
  {
    if |a| > 0 && |colls| > 0 && |desc| > 0 {
      OrderOfLaws(sem, colls[0], a[0], b[0], d[0]);
      OrderOfLaws(sem, colls[0], d[0], b[0], a[0]);
      OrderOfLaws(sem, colls[0], b[0], a[0], d[0]);
      OrderOfLaws(sem, colls[0], b[0], d[0], a[0]);
      OrderOfLaws(sem, colls[0], a[0], d[0], b[0]);
      if OrderOf(sem, colls[0], a[0], b[0]) == 0 && OrderOf(sem, colls[0], b[0], d[0]) == 0 {
        CompareTransitive(sem, colls[1..], desc[1..], a[1..], b[1..], d[1..]);
      }
    }
  }

  // ----- a stable sort -----

  /** The keys all have one length. */
  predicate OneWidth(ks: seq<Row>, w: nat) {
    forall i :: 0 <= i < |ks| ==> |ks[i]| == w
  }

  /** `x` may stand before `y`: its key comes first, or is equal and `x` came first. */
  predicate Precedes(sem: Sem, k: Keying, ks: seq<Row>, x: nat, y: nat)
    requires x < |ks| && y < |ks|
  {
    var o := OrderBetween(sem, k, ks[x], ks[y]);
    o < 0 || (o == 0 && x < y)
  }

  /** The indices stand in the order of their keys, ties in the order they came. */
  predicate StablySorted(sem: Sem, k: Keying, ks: seq<Row>, perm: seq<nat>) {
    Below(perm, |ks|) && forall i, j :: 0 <= i < j < |perm| ==> Precedes(sem, k, ks, perm[i], perm[j])
  }

  /** `perm` is the indices below `n`, each once. */
  predicate Permutation(perm: seq<nat>, n: nat) {
    |perm| == n && Below(perm, n) && forall i, j :: 0 <= i < j < |perm| ==> perm[i] != perm[j]
  }

  predicate OneOf(perm: seq<nat>, v: nat) {
    exists y :: 0 <= y < |perm| && perm[y] == v
  }

  /** What an insertion holds was there, or is what was inserted. */
  lemma {:induction false} InsertHolds(sem: Sem, k: Keying, ks: seq<Row>, perm: seq<nat>, i: nat, x: nat)
    requires i < |ks| && Below(perm, |ks|) && x < |Insert(sem, k.colls, k.desc, ks, perm, i)|
    ensures var v := Insert(sem, k.colls, k.desc, ks, perm, i)[x]; v == i || OneOf(perm, v)
    decreases |perm|
  {
    if perm != [] && OrderBetween(sem, k, ks[perm[|perm| - 1]], ks[i]) > 0 {
      var front := perm[..|perm| - 1];
      if x < |perm| {
        InsertHolds(sem, k, ks, front, i, x);
        var v := Insert(sem, k.colls, k.desc, ks, front, i)[x];
        if v != i {
          var y :| 0 <= y < |front| && front[y] == v;
          assert perm[y] == v;
        }
      } else {
        assert OneOf(perm, perm[|perm| - 1]);
      }
    }
  }

  lemma {:induction false} InsertSorts(sem: Sem, k: Keying, ks: seq<Row>, w: nat, perm: seq<nat>, i: nat)
    requires OrderLaws(sem) && OneWidth(ks, w) && i < |ks|
    requires StablySorted(sem, k, ks, perm) && Below(perm, i)
    ensures StablySorted(sem, k, ks, Insert(sem, k.colls, k.desc, ks, perm, i))
    decreases |perm|
  {
    if perm != [] {
      var front, last := perm[..|perm| - 1], perm[|perm| - 1];
      CompareFlips(sem, k.colls, k.desc, ks[last], ks[i]);
      if OrderBetween(sem, k, ks[last], ks[i]) > 0 {
        InsertSorts(sem, k, ks, w, front, i);
        var inner := Insert(sem, k.colls, k.desc, ks, front, i);
        forall x | 0 <= x < |inner| ensures Precedes(sem, k, ks, inner[x], last) {
          InsertHolds(sem, k, ks, front, i, x);
          if inner[x] != i {
            var y :| 0 <= y < |front| && front[y] == inner[x];
            assert Precedes(sem, k, ks, perm[y], perm[|perm| - 1]);
          }
        }
      } else {
        forall x | 0 <= x < |perm| ensures Precedes(sem, k, ks, perm[x], i) {
          if x < |perm| - 1 {
            assert Precedes(sem, k, ks, perm[x], last);
            CompareTransitive(sem, k.colls, k.desc, ks[perm[x]], ks[last], ks[i]);
          }
        }
      }
    }
  }

  lemma {:induction false} InsertPermutes(sem: Sem, k: Keying, ks: seq<Row>, perm: seq<nat>, i: nat)
    requires i < |ks| && Below(perm, i)
    requires forall x, y :: 0 <= x < y < |perm| ==> perm[x] != perm[y]
    ensures var r := Insert(sem, k.colls, k.desc, ks, perm, i);
            |r| == |perm| + 1 && Below(r, i + 1) && forall x, y :: 0 <= x < y < |r| ==> r[x] != r[y]
    decreases |perm|
  {
    if perm != [] {
      var front := perm[..|perm| - 1];
      InsertPermutes(sem, k, ks, front, i);
      var inner := Insert(sem, k.colls, k.desc, ks, front, i);
      forall x | 0 <= x < |inner| ensures inner[x] != perm[|perm| - 1] { InsertHolds(sem, k, ks, front, i, x); }
    }
  }

  lemma {:induction false} OrderPermutes(sem: Sem, k: Keying, ks: seq<Row>, n: nat)
    requires n <= |ks|
    ensures Permutation(Order(sem, k.colls, k.desc, ks, n), n)
    decreases n
  {
    if n > 0 {
      OrderPermutes(sem, k, ks, n - 1);
      InsertPermutes(sem, k, ks, Order(sem, k.colls, k.desc, ks, n - 1), n - 1);
    }
  }

  lemma OrderIsBelow(sem: Sem, k: Keying, ks: seq<Row>, n: nat)
    requires n <= |ks|
    ensures Below(Order(sem, k.colls, k.desc, ks, n), n)
  {
    OrderPermutes(sem, k, ks, n);
  }

  lemma OrderStep(sem: Sem, k: Keying, ks: seq<Row>, w: nat, n: nat, before: seq<nat>, after: seq<nat>)
    requires OrderLaws(sem) && OneWidth(ks, w) && n < |ks| && StablySorted(sem, k, ks, before)
    requires before == Order(sem, k.colls, k.desc, ks, n) && after == Insert(sem, k.colls, k.desc, ks, before, n)
    ensures StablySorted(sem, k, ks, after)
  {
    OrderIsBelow(sem, k, ks, n);
    InsertSorts(sem, k, ks, w, before, n);
  }

  lemma {:induction false} OrderSorts(sem: Sem, k: Keying, ks: seq<Row>, w: nat, n: nat)
    requires OrderLaws(sem) && OneWidth(ks, w) && n <= |ks|
    ensures StablySorted(sem, k, ks, Order(sem, k.colls, k.desc, ks, n))
    decreases n
  {
    if n > 0 {
      OrderSorts(sem, k, ks, w, n - 1);
      OrderStep(sem, k, ks, w, n - 1, Order(sem, k.colls, k.desc, ks, n - 1), Order(sem, k.colls, k.desc, ks, n));
    }
  }

  /** A `Sort` is a stable sort: its order is a permutation of the rows, sorted on the keys, and
      rows whose keys compare equal keep the order they came in. */
  lemma OrderIsStableSort(sem: Sem, k: Keying, ks: seq<Row>, w: nat, n: nat)
    requires OrderLaws(sem) && OneWidth(ks, w) && n <= |ks|
    ensures Permutation(Order(sem, k.colls, k.desc, ks, n), n)
    ensures StablySorted(sem, k, ks, Order(sem, k.colls, k.desc, ks, n))
  {
    OrderPermutes(sem, k, ks, n);
    OrderSorts(sem, k, ks, w, n);
  }

  /** There is one such order: a stable sort leaves no choice. */
  lemma {:induction false} StableSortIsUnique(sem: Sem, k: Keying, ks: seq<Row>, w: nat, p: seq<nat>, q: seq<nat>)
    requires OrderLaws(sem) && OneWidth(ks, w)
    requires StablySorted(sem, k, ks, p) && StablySorted(sem, k, ks, q)
    requires |p| == |q| && (forall x :: x in p <==> x in q)
    ensures p == q
    decreases |p|
  {
    if p != [] {
      HeadsAgree(sem, k, ks, w, p, q);
      Irreflexive(sem, k, ks, w, p);
      Irreflexive(sem, k, ks, w, q);
      forall x ensures x in p[1..] <==> x in q[1..] {
        TailHolds(p, x);
        TailHolds(q, x);
      }
      StableSortIsUnique(sem, k, ks, w, p[1..], q[1..]);
      assert p == [p[0]] + p[1..] && q == [q[0]] + q[1..];
    }
  }

  lemma TailHolds(p: seq<nat>, x: nat)
    requires p != [] && forall i, j :: 0 <= i < j < |p| ==> p[i] != p[j]
    ensures x in p[1..] <==> x in p && x != p[0]
  {
    if x in p && x != p[0] {
      var i :| 0 <= i < |p| && p[i] == x;
      assert p[1..][i - 1] == x;
    }
  }

  lemma Irreflexive(sem: Sem, k: Keying, ks: seq<Row>, w: nat, p: seq<nat>)
    requires OrderLaws(sem) && OneWidth(ks, w) && StablySorted(sem, k, ks, p)
    ensures forall i, j :: 0 <= i < j < |p| ==> p[i] != p[j]
  {
    forall i, j | 0 <= i < j < |p| ensures p[i] != p[j] {
      assert Precedes(sem, k, ks, p[i], p[j]);
      CompareFlips(sem, k.colls, k.desc, ks[p[i]], ks[p[j]]);
    }
  }

  lemma HeadsAgree(sem: Sem, k: Keying, ks: seq<Row>, w: nat, p: seq<nat>, q: seq<nat>)
    requires OrderLaws(sem) && OneWidth(ks, w) && p != [] && q != []
    requires StablySorted(sem, k, ks, p) && StablySorted(sem, k, ks, q) && (forall x :: x in p <==> x in q)
    ensures p[0] == q[0]
  {
    assert p[0] in q && q[0] in p;
    var i :| 0 <= i < |q| && q[i] == p[0];
    var j :| 0 <= j < |p| && p[j] == q[0];
    if i > 0 && j > 0 {
      assert Precedes(sem, k, ks, q[0], q[i]) && Precedes(sem, k, ks, p[0], p[j]);
      CompareFlips(sem, k.colls, k.desc, ks[p[0]], ks[q[0]]);
    }
  }

  /** A permutation reaches every index. */
  lemma {:induction false} PermutationReaches(perm: seq<nat>, n: nat, x: nat)
    requires Permutation(perm, n) && x < n
    ensures exists j :: 0 <= j < |perm| && perm[j] == x
    decreases n
  {
    if forall j :: 0 <= j < |perm| ==> perm[j] != x {
      var renumbered := seq(n - 1, j requires 0 <= j < n - 1 => if perm[j] > x then perm[j] - 1 else perm[j]);
      var last := if perm[n - 1] > x then perm[n - 1] - 1 else perm[n - 1];
      assert Permutation(renumbered, n - 1);
      assert forall j :: 0 <= j < |renumbered| ==> renumbered[j] != last;
      PermutationReaches(renumbered, n - 1, last);
    }
  }

  /** Any stable sort of the rows is the order the evaluation puts them in. */
  lemma StableSortIsOrder(sem: Sem, k: Keying, ks: seq<Row>, w: nat, perm: seq<nat>)
    requires OrderLaws(sem) && OneWidth(ks, w) && Permutation(perm, |ks|) && StablySorted(sem, k, ks, perm)
    ensures perm == Order(sem, k.colls, k.desc, ks, |ks|)
  {
    var order := Order(sem, k.colls, k.desc, ks, |ks|);
    OrderIsStableSort(sem, k, ks, w, |ks|);
    forall x: nat ensures x in perm <==> x in order {
      if x < |ks| {
        PermutationReaches(perm, |ks|, x);
        PermutationReaches(order, |ks|, x);
      }
    }
    StableSortIsUnique(sem, k, ks, w, perm, order);
  }
}
