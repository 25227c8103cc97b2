/** Money attributed by source (sim/world.ts). Amounts are exact reals. */
module MoneyLedger {
  import opened Collections

  datatype MoneySource =
    | Bladeburner | Casino | Class | CodingContract | Corporation | Crime | Gang | GangExpenses | Hacking | Hacknet
    | HacknetExpenses | Hospitalization | Infiltration | Sleeves | Stock | Work | Servers | Other | Augmentations

  /** A source that is absent has been attributed nothing. */
  datatype Ledger = Ledger(amounts: map<MoneySource, real>, total: real)

  function Empty(): Ledger { Ledger(map[], 0.0) }

  function Amount(ledger: Ledger, source: MoneySource): real {
    if source in ledger.amounts then ledger.amounts[source] else 0.0
  }

  function Itself(): real -> real { (x: real) => x }

  /** The total is the sum of the sources. */
  ghost predicate Adds(ledger: Ledger) {
    ledger.total == MapSum(ledger.amounts, Itself())
  }

  function Credit(ledger: Ledger, source: MoneySource, amount: real): Ledger {
    Ledger(ledger.amounts[source := Amount(ledger, source) + amount], ledger.total + amount)
  }

  /** `amount` was attributed to `source` and to the total, and nothing to any other source. */
  ghost predicate Moved(before: Ledger, after: Ledger, source: MoneySource, amount: real) {
    && after.total == before.total + amount
    && Amount(after, source) == Amount(before, source) + amount
    && forall other | other != source :: Amount(after, other) == Amount(before, other)
  }

  lemma NothingMoved(ledger: Ledger, source: MoneySource)
    ensures Moved(ledger, ledger, source, 0.0)
  {
  }

  lemma CreditMoves(ledger: Ledger, source: MoneySource, amount: real)
    ensures Moved(ledger, Credit(ledger, source, amount), source, amount)
    ensures Amount(ledger, source) == if source in ledger.amounts then ledger.amounts[source] else 0.0
  {
  }

  /** A credit moves its own source and the total by the same amount, and no other source. */
  lemma CreditAdds(ledger: Ledger, source: MoneySource, amount: real)
    requires Adds(ledger)
    ensures Adds(Credit(ledger, source, amount)) && Moved(ledger, Credit(ledger, source, amount), source, amount)
  {
    hide Moved, Amount;
    CreditMoves(ledger, source, amount);
    var others := ledger.amounts - {source};
    assert others[source := Amount(ledger, source) + amount] == Credit(ledger, source, amount).amounts;
    SumWith(others, Itself(), source, Amount(ledger, source) + amount);
    if source in ledger.amounts {
      SumWithout(ledger.amounts, Itself(), source);
    } else {
      assert others == ledger.amounts;
    }
  }

  lemma EmptyAdds()
    ensures Adds(Empty())
  {
  }
}
