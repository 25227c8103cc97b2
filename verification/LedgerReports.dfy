/** What a refused ledger request reports (tools/go-arena-seed-ledger.ts). */
module LedgerReports {
  import opened SeedLedger
  import opened Wrappers

  lemma {:induction false} FoundIsFirst(values: seq<int>, wanted: set<int>, k: nat)
    requires k < |values| && values[k] in wanted && forall j | 0 <= j < k :: values[j] !in wanted
    ensures Find(values, wanted) == Some(values[k])
  {
    if 0 < k {
      FoundIsFirst(values[1..], wanted, k - 1);
    }
  }

  /** The longer list, the second of two equally long ones. */
  function Longer(left: seq<int>, right: seq<int>): seq<int> {
    if |right| < |left| then left else right
  }

  /** The value reported is the one that both lists hold and that comes first in the longer list. */
  lemma ReportedValueIsFirst(left: seq<int>, right: seq<int>, k: nat)
    requires k < |Longer(left, right)|
    requires Longer(left, right)[k] in left && Longer(left, right)[k] in right
    requires forall j | 0 <= j < k :: Longer(left, right)[j] !in left || Longer(left, right)[j] !in right
    ensures FirstOverlap(left, right) == Some(Longer(left, right)[k])
  {
    var longer, shorter := Longer(left, right), if |right| < |left| then right else left;
    var wanted := set v | v in shorter;
    assert forall j | 0 <= j < k :: longer[j] in longer;
    FoundIsFirst(longer, wanted, k);
  }
}
