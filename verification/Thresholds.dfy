/** Tables of fixed settings, searched from the top for the highest entry that is not above the
    request. */
module Thresholds {

  /** The last entry that is not above x; entry 0 when all are. */
  function LargestBelow(table: seq<nat>, x: int): (k: nat)
    ensures table != [] ==> k < |table|
    ensures forall j :: k < j < |table| ==> table[j] > x
    ensures table != [] ==> table[k] <= x || (k == 0 && table[0] > x)
  {
    if |table| <= 1 then 0
    else if table[|table| - 1] <= x then |table| - 1
    else LargestBelow(table[..|table| - 1], x)
  }

  ghost predicate Increasing(table: seq<nat>) {
    forall i, j :: 0 <= i < j < |table| ==> table[i] < table[j]
  }

  /** Asking for an entry of the table selects that entry. */
  lemma SameEntry(table: seq<nat>, k: nat)
    requires Increasing(table) && k < |table|
    ensures LargestBelow(table, table[k]) == k
  {
    var again := LargestBelow(table, table[k]);
  }

  /** The downward loop of the drivers; entry 0 is never compared. */
  method SearchDown(table: seq<nat>, x: int) returns (k: nat)
    requires table != []
    ensures k == LargestBelow(table, x)
  {
    k := 0;
    var i := |table| - 1;
    while i > 0
      invariant 0 <= i < |table| && k == 0
      invariant LargestBelow(table, x) == LargestBelow(table[..i + 1], x)
    {
      assert table[..i + 1][..i] == table[..i];
      if x >= table[i] {
        k := i;
        break;
      }
      i := i - 1;
    }
  }
}
