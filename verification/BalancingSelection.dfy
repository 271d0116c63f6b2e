/** Which cells of one section are balanced: the candidates above the threshold, ordered by
    falling voltage, taken greedily so that no two neighbours are on. A section may have any
    number of cells. */
module BalancingSelection {

  /** Cell i lies more than diff above the lowest cell. */
  predicate Candidate(v: seq<real>, vMin: real, diff: real, i: nat)
    requires i < |v|
  {
    v[i] - vMin > diff
  }

  /** Higher voltage first; among equals the lower cell number first. */
  predicate Precedes(v: seq<real>, a: nat, b: nat)
    requires a < |v| && b < |v|
  {
    v[a] > v[b] || (v[a] == v[b] && a < b)
  }

  ghost predicate InRange(v: seq<real>, list: seq<nat>) {
    forall k :: 0 <= k < |list| ==> list[k] < |v|
  }

  ghost predicate Ordered(v: seq<real>, list: seq<nat>)
    requires InRange(v, list)
  {
    forall j, k :: 0 <= j < k < |list| ==> Precedes(v, list[j], list[k])
  }

  /** The list holds exactly the candidates among the first n cells, in order. */
  ghost predicate ListsCandidates(v: seq<real>, vMin: real, diff: real, n: nat, list: seq<nat>)
    requires n <= |v|
  {
    && (forall c :: c in list ==> c < n)
    && (forall c: nat :: c < n ==> (c in list <==> Candidate(v, vMin, diff, c)))
    && InRange(v, list)
    && Ordered(v, list)
  }

  /** Order and contents leave one possible list. */
  lemma {:induction false} OrderedListUnique(v: seq<real>, p: seq<nat>, q: seq<nat>)
    requires InRange(v, p) && Ordered(v, p)
    requires InRange(v, q) && Ordered(v, q)
    requires forall c :: c in p <==> c in q
    ensures p == q
    decreases |p|
  {
    if p == [] {
      assert forall k :: 0 <= k < |q| ==> q[k] in q;
    } else {
      assert p[0] in q && q != [];
      assert q[0] in p;
      assert p[0] == q[0];
      forall c ensures c in p[1..] <==> c in q[1..] {
        assert c in p <==> c == p[0] || c in p[1..];
        assert c in q <==> c == q[0] || c in q[1..];
      }
      OrderedListUnique(v, p[1..], q[1..]);
    }
  }

  /** Cell i inserted behind every entry that is not lower than it. */
  function Insert(v: seq<real>, list: seq<nat>, i: nat): seq<nat>
    requires i < |v| && forall k :: 0 <= k < |list| ==> list[k] < |v|
  {
    if list == [] || v[list[|list| - 1]] >= v[i] then list + [i]
    else Insert(v, list[..|list| - 1], i) + [list[|list| - 1]]
  }

  lemma {:induction false} InsertAt(v: seq<real>, list: seq<nat>, i: nat, j: nat)
    requires i < |v| && j <= |list|
    requires forall k :: 0 <= k < |list| ==> list[k] < |v|
    requires j > 0 ==> v[list[j - 1]] >= v[i]
    requires forall k :: j <= k < |list| ==> v[list[k]] < v[i]
    ensures Insert(v, list, i) == list[..j] + [i] + list[j..]
    decreases |list|
  {
    if j < |list| {
      var front := list[..|list| - 1];
      InsertAt(v, front, i, j);
      assert front[..j] == list[..j];
      assert list[j..] == front[j..] + [list[|list| - 1]];
    } else {
      assert list[..j] == list;
    }
  }

  /** Where the new cell goes. */
  function Slot(v: seq<real>, list: seq<nat>, i: nat): (j: nat)
    requires i < |v| && forall k :: 0 <= k < |list| ==> list[k] < |v|
    ensures j <= |list|
    ensures j > 0 ==> v[list[j - 1]] >= v[i]
    ensures j < |list| ==> v[list[j]] < v[i]
  {
    if list == [] || v[list[|list| - 1]] >= v[i] then |list| else Slot(v, list[..|list| - 1], i)
  }

  lemma SplicedOrder(v: seq<real>, list: seq<nat>, i: nat, j: nat, r: seq<nat>)
    requires i < |v| && j <= |list| && InRange(v, list) && Ordered(v, list)
    requires forall k :: 0 <= k < |list| ==> list[k] < i
    requires forall k :: 0 <= k < j ==> v[list[k]] >= v[i]
    requires forall k :: j <= k < |list| ==> v[list[k]] < v[i]
    requires r == list[..j] + [i] + list[j..]
    ensures InRange(v, r) && Ordered(v, r)
  {
    forall k | 0 <= k < |r| ensures r[k] < |v| {
      if k > j { assert r[k] == list[k - 1]; }
    }
    forall a, b | 0 <= a < b < |r| ensures Precedes(v, r[a], r[b]) {
      var a' := if a < j then a else a - 1;
      var b' := if b < j then b else b - 1;
      assert (a == j || r[a] == list[a']) && (b == j || r[b] == list[b']);
      if a != j && b != j { assert Precedes(v, list[a'], list[b']); }
    }
  }

  lemma SlotSplits(v: seq<real>, list: seq<nat>, i: nat)
    requires i < |v| && InRange(v, list) && Ordered(v, list)
    ensures forall k :: 0 <= k < Slot(v, list, i) ==> v[list[k]] >= v[i]
    ensures forall k :: Slot(v, list, i) <= k < |list| ==> v[list[k]] < v[i]
  {
    var j := Slot(v, list, i);
    forall k | j <= k < |list| ensures v[list[k]] < v[i] {
      if k > j { assert Precedes(v, list[j], list[k]); }
    }
    forall k | 0 <= k < j ensures v[list[k]] >= v[i] {
      if k < j - 1 { assert Precedes(v, list[k], list[j - 1]); }
    }
  }

  lemma SplicedMembers(list: seq<nat>, i: nat, j: nat, c: nat)
    requires j <= |list|
    ensures c in list[..j] + [i] + list[j..] <==> c == i || c in list
  {
    assert list == list[..j] + list[j..];
  }

  lemma InsertKeepsOrder(v: seq<real>, vMin: real, diff: real, list: seq<nat>, i: nat)
    requires i < |v| && ListsCandidates(v, vMin, diff, i, list)
    requires Candidate(v, vMin, diff, i)
    ensures ListsCandidates(v, vMin, diff, i + 1, Insert(v, list, i))
  {
    var j := Slot(v, list, i);
    SlotSplits(v, list, i);
    InsertAt(v, list, i, j);
    var r := Insert(v, list, i);
    assert InRange(v, r) && Ordered(v, r) by {
      assert forall k :: 0 <= k < |list| ==> list[k] in list;
      SplicedOrder(v, list, i, j, r);
    }
    forall c: nat ensures c in r <==> c == i || c in list { SplicedMembers(list, i, j, c); }
  }

  /** The sorted candidates among the first n cells. */
  function Sorted(v: seq<real>, vMin: real, diff: real, n: nat): (list: seq<nat>)
    requires n <= |v|
    ensures ListsCandidates(v, vMin, diff, n, list)
  {
    if n == 0 then []
    else
      var list := Sorted(v, vMin, diff, n - 1);
      if Candidate(v, vMin, diff, n - 1) then
        InsertKeepsOrder(v, vMin, diff, list, n - 1);
        Insert(v, list, n - 1)
      else list
  }

  predicate Free(c: nat, chosen: set<nat>) {
    c + 1 !in chosen && (c == 0 || c - 1 !in chosen)
  }

  /** One pass over the list: a cell is taken unless a neighbour already was. */
  function Greedy(list: seq<nat>, chosen: set<nat>): set<nat> {
    if list == [] then chosen
    else Greedy(list[1..], if Free(list[0], chosen) then chosen + {list[0]} else chosen)
  }

  /** The cells that are balanced. */
  function Chosen(v: seq<real>, vMin: real, diff: real): set<nat> {
    Greedy(Sorted(v, vMin, diff, |v|), {})
  }

  ghost predicate NoNeighbours(s: set<nat>) {
    forall c: nat :: c in s ==> c + 1 !in s
  }

  ghost predicate OnlyCandidates(v: seq<real>, vMin: real, diff: real, s: set<nat>) {
    forall c: nat :: c in s ==> c < |v| && Candidate(v, vMin, diff, c)
  }

  predicate Adjacent(c: nat, d: nat) {
    c + 1 == d || d + 1 == c
  }

  /** c has a chosen neighbour that comes before it. */
  ghost predicate Blocked(v: seq<real>, s: set<nat>, c: nat)
    requires c < |v|
  {
    exists g: nat :: g in s && g < |v| && Adjacent(g, c) && Precedes(v, g, c)
  }

  /** No two neighbours, only candidates, and every candidate left out is blocked. */
  ghost predicate StableSelection(v: seq<real>, vMin: real, diff: real, s: set<nat>) {
    && OnlyCandidates(v, vMin, diff, s)
    && NoNeighbours(s)
    && forall c: nat :: c < |v| && Candidate(v, vMin, diff, c) && c !in s ==> Blocked(v, s, c)
  }

  lemma BlockedGrows(v: seq<real>, s: set<nat>, t: set<nat>, c: nat)
    requires c < |v| && s <= t && Blocked(v, s, c)
    ensures Blocked(v, t, c)
  {
    var g: nat :| g in s && g < |v| && Adjacent(g, c) && Precedes(v, g, c);
    assert g in t;
  }

  /** A listed cell that is not free is blocked by one taken before. */
  lemma NotFreeIsBlocked(v: seq<real>, list: seq<nat>, k: nat, chosen: set<nat>)
    requires InRange(v, list) && Ordered(v, list) && k < |list|
    requires chosen <= set j | 0 <= j < k :: list[j]
    requires !Free(list[k], chosen)
    ensures Blocked(v, chosen, list[k])
  {
    var c := list[k];
    var g: nat := if c + 1 in chosen then c + 1 else c - 1;
    assert g in chosen && Adjacent(g, c);
    var j :| 0 <= j < k && list[j] == g;
    assert Precedes(v, list[j], list[k]);
  }

  lemma {:induction false} GreedyStep(v: seq<real>, vMin: real, diff: real, list: seq<nat>, k: nat, chosen: set<nat>)
    requires ListsCandidates(v, vMin, diff, |v|, list) && k <= |list|
    requires chosen <= set j | 0 <= j < k :: list[j]
    requires NoNeighbours(chosen)
    requires forall j :: 0 <= j < k && list[j] !in chosen ==> Blocked(v, chosen, list[j])
    ensures StableSelection(v, vMin, diff, Greedy(list[k..], chosen))
    decreases |list| - k
  {
    hide Precedes, Candidate;
    if k == |list| {
      assert list[k..] == [];
      assert forall j :: 0 <= j < |list| ==> list[j] in list;
    } else {
      var c := list[k];
      assert list[k..][1..] == list[k + 1..];
      var next := if Free(c, chosen) then chosen + {c} else chosen;
      forall j | 0 <= j < k + 1 && list[j] !in next ensures Blocked(v, next, list[j]) {
        if j == k { NotFreeIsBlocked(v, list, k, chosen); } else { BlockedGrows(v, chosen, next, list[j]); }
      }
      GreedyStep(v, vMin, diff, list, k + 1, next);
    }
  }

  /** The greedy pass makes a stable selection. */
  lemma ChosenIsStable(v: seq<real>, vMin: real, diff: real)
    ensures StableSelection(v, vMin, diff, Chosen(v, vMin, diff))
  {
    var list := Sorted(v, vMin, diff, |v|);
    assert list[0..] == list;
    GreedyStep(v, vMin, diff, list, 0, {});
  }

  /** A listed cell that is not chosen has a chosen neighbour earlier in the list. */
  lemma EarlierBlocker(v: seq<real>, vMin: real, diff: real, list: seq<nat>, s: set<nat>, k: nat) returns (j: nat)
    requires ListsCandidates(v, vMin, diff, |v|, list) && k < |list|
    requires StableSelection(v, vMin, diff, s) && list[k] !in s
    ensures j < k && list[j] in s && Adjacent(list[j], list[k])
  {
    var c := list[k];
    assert c in list;
    assert Blocked(v, s, c);
    var g: nat :| g in s && g < |v| && Adjacent(g, c) && Precedes(v, g, c);
    assert g in list;
    j :| 0 <= j < |list| && list[j] == g;
    assert !Precedes(v, c, g);
  }

  lemma {:induction false} StableAgree(v: seq<real>, vMin: real, diff: real, list: seq<nat>, s: set<nat>, t: set<nat>,
                                       k: nat)
    requires ListsCandidates(v, vMin, diff, |v|, list) && k < |list|
    requires StableSelection(v, vMin, diff, s) && StableSelection(v, vMin, diff, t)
    ensures list[k] in s <==> list[k] in t
    decreases k
  {
    var c := list[k];
    assert c in list;
    if (c in s) != (c in t) {
      var other := if c in s then t else s;
      var j := EarlierBlocker(v, vMin, diff, list, other, k);
      StableAgree(v, vMin, diff, list, s, t, j);
    }
  }

  /** There is one stable selection, so being stable says exactly which cells are balanced. */
  lemma StableSelectionUnique(v: seq<real>, vMin: real, diff: real, s: set<nat>)
    ensures StableSelection(v, vMin, diff, s) <==> s == Chosen(v, vMin, diff)
  {
    ChosenIsStable(v, vMin, diff);
    if StableSelection(v, vMin, diff, s) {
      var t := Chosen(v, vMin, diff);
      var list := Sorted(v, vMin, diff, |v|);
      forall c: nat ensures c in s <==> c in t {
        if c in s || c in t {
          assert c in list;
          var k :| 0 <= k < |list| && list[k] == c;
          StableAgree(v, vMin, diff, list, s, t, k);
        }
      }
    }
  }

  /** No further candidate can be added, and a candidate that no cell precedes is balanced. */
  lemma ChosenIsMaximal(v: seq<real>, vMin: real, diff: real, c: nat)
    requires c < |v| && Candidate(v, vMin, diff, c)
    ensures c !in Chosen(v, vMin, diff) ==> !NoNeighbours(Chosen(v, vMin, diff) + {c})
    ensures c !in Chosen(v, vMin, diff) ==>
              exists g: nat :: g in Chosen(v, vMin, diff) && g < |v| && Adjacent(g, c) && v[g] >= v[c]
    ensures (forall d: nat :: d < |v| && d != c && Candidate(v, vMin, diff, d) ==> Precedes(v, c, d))
            ==> c in Chosen(v, vMin, diff)
  {
    ChosenIsStable(v, vMin, diff);
    var s := Chosen(v, vMin, diff);
    if c !in s {
      assert Blocked(v, s, c);
      var g: nat :| g in s && g < |v| && Adjacent(g, c) && Precedes(v, g, c);
      assert g in s + {c} && c in s + {c};
      assert Candidate(v, vMin, diff, g) && !Precedes(v, c, g);
    }
  }

  // ---------- how good the greedy choice is ----------

  /** Total excess over the lowest cell, summed over the members of s among the first n cells. */
  ghost function Excess(v: seq<real>, vMin: real, s: set<nat>, n: nat): real
    requires n <= |v|
  {
    if n == 0 then 0.0
    else Excess(v, vMin, s, n - 1) + if n - 1 in s then v[n - 1] - vMin else 0.0
  }

  /** What the n-th cell of s, when not chosen itself, may still borrow from its right neighbour. */
  ghost predicate Borrows(v: seq<real>, g: set<nat>, s: set<nat>, n: nat)
    requires n <= |v|
  {
    0 < n < |v| && n - 1 in s && n - 1 !in g && n in g && v[n] >= v[n - 1]
  }

  lemma {:induction false} ExchangePrefix(v: seq<real>, vMin: real, diff: real, g: set<nat>, s: set<nat>, n: nat)
    requires n <= |v|
    requires StableSelection(v, vMin, diff, g)
    requires OnlyCandidates(v, vMin, diff, s) && NoNeighbours(s)
    requires forall c: nat :: c < |v| && Candidate(v, vMin, diff, c) ==> v[c] >= vMin
    ensures n > 0 && n - 1 in g ==>
              2.0 * Excess(v, vMin, g, n) - Excess(v, vMin, s, n) >= v[n - 1] - vMin
    ensures if Borrows(v, g, s, n)
            then 2.0 * Excess(v, vMin, g, n) - Excess(v, vMin, s, n) >= vMin - v[n]
            else 2.0 * Excess(v, vMin, g, n) >= Excess(v, vMin, s, n)
    decreases n
  {
    if n > 0 {
      var c: nat := n - 1;
      ExchangePrefix(v, vMin, diff, g, s, n - 1);
      if c in s {
        assert forall d: nat :: d + 1 == c ==> d !in s;
        if c !in g {
          assert Blocked(v, g, c);
          var b: nat :| b in g && b < |v| && Adjacent(b, c) && Precedes(v, b, c);
        }
      }
    }
  }

  /** The greedy choice is worth at least half of any other choice of candidates without
      neighbours, as long as no candidate lies below vMin. That holds for every threshold of zero
      or more, and for every threshold when vMin is the lowest of these cells. */
  lemma GreedyIsHalfOptimal(v: seq<real>, vMin: real, diff: real, s: set<nat>)
    requires forall c: nat :: c < |v| && Candidate(v, vMin, diff, c) ==> v[c] >= vMin
    requires OnlyCandidates(v, vMin, diff, s) && NoNeighbours(s)
    ensures 2.0 * Excess(v, vMin, Chosen(v, vMin, diff), |v|) >= Excess(v, vMin, s, |v|)
  {
    ChosenIsStable(v, vMin, diff);
    ExchangePrefix(v, vMin, diff, Chosen(v, vMin, diff), s, |v|);
  }

  /** For every negative threshold an unconnected cell, which does not count for vMin, breaks the
      bound: it is taken, and costs. */
  lemma HalfOptimalNeedsThreshold(diff: real)
    requires diff < 0.0
    ensures var v, vMin := [0.5], 0.5 - diff / 2.0;
            2.0 * Excess(v, vMin, Chosen(v, vMin, diff), 1) < Excess(v, vMin, {}, 1)
  {
    var v, vMin := [0.5], 0.5 - diff / 2.0;
    var g: set<nat> := {0};
    assert StableSelection(v, vMin, diff, g);
    StableSelectionUnique(v, vMin, diff, g);
    assert Excess(v, vMin, g, 0) == 0.0;
  }

  /** One half cannot be improved: three cells, the middle one barely the highest. */
  lemma HalfIsTight(e: real)
    requires 0.0 < e <= 1.0
    ensures var v := [2.0, 2.0 + e, 2.0];
            && Chosen(v, 1.0, 0.5) == {1}
            && OnlyCandidates(v, 1.0, 0.5, {0, 2}) && NoNeighbours({0, 2})
            && Excess(v, 1.0, {0, 2}, 3) == 2.0
            && Excess(v, 1.0, Chosen(v, 1.0, 0.5), 3) == 1.0 + e
  {
    var v := [2.0, 2.0 + e, 2.0];
    var g: set<nat> := {1};
    assert StableSelection(v, 1.0, 0.5, g) by {
      assert Precedes(v, 1, 0) && Adjacent(1, 0) && 1 in g;
      assert Blocked(v, g, 0);
      assert Precedes(v, 1, 2) && Adjacent(1, 2);
      assert Blocked(v, g, 2);
    }
    StableSelectionUnique(v, 1.0, 0.5, g);
    var s: set<nat> := {0, 2};
    assert Excess(v, 1.0, s, 1) == 1.0;
    assert Excess(v, 1.0, s, 2) == 1.0;
    assert Excess(v, 1.0, g, 1) == 0.0;
    assert Excess(v, 1.0, g, 2) == 1.0 + e;
  }
}
