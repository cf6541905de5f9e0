/**
 * The tracker's ledger: transaction records, newest first, and the totals derived from them.
 * Every total is recomputed from the list on each read by filtering on a record's type and
 * summing the amounts left to right, in the same order as the component does on every render.
 */
module Ledger {
  import Text

  /** A record's `type`: the two options of the type selector. */
  datatype Kind = Income | Expense

  /** A record `{id, description, amount, type}`. */
  datatype Transaction = Transaction(id: int, description: string, amount: real, kind: Kind)

  /** What admission guarantees of a record: a positive amount and a non-empty, already trimmed description. */
  predicate WellFormed(t: Transaction) {
    t.amount > 0.0 && t.description != [] && Text.IsTrimmed(t.description)
  }

  /** The ledger invariant: every record is well formed. */
  predicate LedgerValid(ts: seq<Transaction>) {
    forall i :: 0 <= i < |ts| ==> WellFormed(ts[i])
  }

  /** No two records share an id. */
  predicate UniqueIds(ts: seq<Transaction>) {
    forall i, j :: 0 <= i < j < |ts| ==> ts[i].id != ts[j].id
  }

  predicate HasId(ts: seq<Transaction>, id: int) {
    exists i :: 0 <= i < |ts| && ts[i].id == id
  }

  // ---------------------------------------------------------------- filter

  /** The two tests the component filters the list by: a record's type, and every id but one. */
  datatype Criterion = KindIs(kind: Kind) | IdIsNot(id: int)

  predicate Keeps(c: Criterion, t: Transaction) {
    match c
    case KindIs(k) => t.kind == k
    case IdIsNot(id) => t.id != id
  }

  /** Array.prototype.filter: the records that pass `c`, in their original order. */
  function Filter(ts: seq<Transaction>, c: Criterion): seq<Transaction>
  {
    if ts == [] then [] else (if Keeps(c, ts[0]) then [ts[0]] else []) + Filter(ts[1..], c)
  }

  /** What survives a filter is exactly what was there and passes it; nothing is added. */
  lemma {:induction false} FilterMembers(ts: seq<Transaction>, c: Criterion)
    ensures |Filter(ts, c)| <= |ts|
    ensures forall i :: 0 <= i < |Filter(ts, c)| ==> Filter(ts, c)[i] in ts && Keeps(c, Filter(ts, c)[i])
    ensures forall i :: 0 <= i < |ts| && Keeps(c, ts[i]) ==> ts[i] in Filter(ts, c)
  {
    if ts != [] {
      FilterMembers(ts[1..], c);
      var head := if Keeps(c, ts[0]) then [ts[0]] else [];
      var r := Filter(ts, c);
      assert r == head + Filter(ts[1..], c);
      forall i | 0 <= i < |r| ensures r[i] in ts && Keeps(c, r[i]) {
        if i >= |head| {
          assert r[i] == Filter(ts[1..], c)[i - |head|];
        }
      }
      forall i | 0 <= i < |ts| && Keeps(c, ts[i]) ensures ts[i] in r {
        if i > 0 {
          assert ts[i] == ts[1..][i - 1];
        }
      }
    }
  }

  /** Filtering a concatenation filters each part and keeps them in order: filter preserves order. */
  lemma {:induction false} FilterConcat(a: seq<Transaction>, b: seq<Transaction>, c: Criterion)
    ensures Filter(a + b, c) == Filter(a, c) + Filter(b, c)
  {
    if a == [] {
      assert a + b == b;
    } else {
      var head := if Keeps(c, a[0]) then [a[0]] else [];
      assert (a + b)[0] == a[0];
      assert (a + b)[1..] == a[1..] + b;
      calc {
        Filter(a + b, c);
        head + Filter(a[1..] + b, c);
        { FilterConcat(a[1..], b, c); }
        head + (Filter(a[1..], c) + Filter(b, c));
        (head + Filter(a[1..], c)) + Filter(b, c);
        Filter(a, c) + Filter(b, c);
      }
    }
  }

  /** Nothing is dropped when every record passes. */
  lemma {:induction false} FilterKeepsAll(ts: seq<Transaction>, c: Criterion)
    requires forall i :: 0 <= i < |ts| ==> Keeps(c, ts[i])
    ensures Filter(ts, c) == ts
  {
    if ts != [] {
      FilterKeepsAll(ts[1..], c);
    }
  }

  /** Everything that survives a filter passes it, so filtering again changes nothing. */
  lemma FilterIdempotent(ts: seq<Transaction>, c: Criterion)
    ensures Filter(Filter(ts, c), c) == Filter(ts, c)
  {
    FilterMembers(ts, c);
    FilterKeepsAll(Filter(ts, c), c);
  }

  // ---------------------------------------------------------------- totals

  /** `reduce((sum, t) => sum + t.amount, 0)`: the amounts added from the first record to the last. */
  function Sum(ts: seq<Transaction>): real
  {
    if ts == [] then 0.0 else Sum(ts[..|ts| - 1]) + ts[|ts| - 1].amount
  }

  /** The sum of a concatenation is the sum of its parts. */
  lemma {:induction false} SumConcat(a: seq<Transaction>, b: seq<Transaction>)
    ensures Sum(a + b) == Sum(a) + Sum(b)
  {
    if b == [] {
      assert a + b == a;
    } else {
      var c := a + b;
      assert c[..|c| - 1] == a + b[..|b| - 1];
      SumConcat(a, b[..|b| - 1]);
    }
  }

  /** Positive amounts add up to a non-negative sum, positive when there is at least one. */
  lemma {:induction false} SumOfPositives(ts: seq<Transaction>)
    requires forall i :: 0 <= i < |ts| ==> ts[i].amount > 0.0
    ensures Sum(ts) >= 0.0
    ensures ts != [] ==> Sum(ts) > 0.0
  {
    if ts != [] {
      SumOfPositives(ts[..|ts| - 1]);
    }
  }

  /** `totalIncome`: the sum over the income records. */
  function TotalIncome(ts: seq<Transaction>): real {
    Sum(Filter(ts, KindIs(Income)))
  }

  /** `totalExpenses`: the sum over the expense records. */
  function TotalExpenses(ts: seq<Transaction>): real {
    Sum(Filter(ts, KindIs(Expense)))
  }

  /** `balance`: income less expenses. */
  function Balance(ts: seq<Transaction>): real
  {
    TotalIncome(ts) - TotalExpenses(ts)
  }

  /** A record's contribution to the balance: its amount, negated for an expense. */
  function Signed(t: Transaction): real {
    if t.kind == Income then t.amount else -t.amount
  }

  /** An independent definition of the balance: the signed amounts summed in one pass. */
  function SignedSum(ts: seq<Transaction>): real {
    if ts == [] then 0.0 else Signed(ts[0]) + SignedSum(ts[1..])
  }

  /** The total of kind `k` over a list with `t` in front: `t`'s amount counts only if `t` is of kind `k`. */
  lemma PrependKindSum(t: Transaction, ts: seq<Transaction>, k: Kind)
    ensures Sum(Filter([t] + ts, KindIs(k))) == (if t.kind == k then t.amount else 0.0) + Sum(Filter(ts, KindIs(k)))
  {
    FilterConcat([t], ts, KindIs(k));
    var head := Filter([t], KindIs(k));
    assert head == if t.kind == k then [t] else [];
    SumConcat(head, Filter(ts, KindIs(k)));
    assert Sum([t]) == t.amount by {
      assert [t][..0] == [];
    }
  }

  /** Putting one record in front of the list raises the total of its own kind by its amount and leaves the other total alone. */
  lemma PrependTotals(t: Transaction, ts: seq<Transaction>)
    ensures t.kind == Income ==>
      TotalIncome([t] + ts) == t.amount + TotalIncome(ts) && TotalExpenses([t] + ts) == TotalExpenses(ts)
    ensures t.kind == Expense ==>
      TotalExpenses([t] + ts) == t.amount + TotalExpenses(ts) && TotalIncome([t] + ts) == TotalIncome(ts)
  {
    PrependKindSum(t, ts, Income);
    PrependKindSum(t, ts, Expense);
  }

  /** The balance the component shows equals the one-pass signed sum, for every ledger. */
  lemma {:induction false} BalanceIsSignedSum(ts: seq<Transaction>)
    ensures Balance(ts) == SignedSum(ts)
  {
    if ts == [] {
    } else {
      assert ts == [ts[0]] + ts[1..];
      PrependTotals(ts[0], ts[1..]);
      BalanceIsSignedSum(ts[1..]);
    }
  }

  /** Every record is either income or expense, so the two totals together are the sum of all amounts. */
  lemma {:induction false} TotalsPartitionSum(ts: seq<Transaction>)
    ensures TotalIncome(ts) + TotalExpenses(ts) == Sum(ts)
  {
    if ts != [] {
      var init, last := ts[..|ts| - 1], ts[|ts| - 1];
      assert ts == init + [last];
      TotalsPartitionSum(init);
      FilterConcat(init, [last], KindIs(Income));
      FilterConcat(init, [last], KindIs(Expense));
      SumConcat(Filter(init, KindIs(Income)), Filter([last], KindIs(Income)));
      SumConcat(Filter(init, KindIs(Expense)), Filter([last], KindIs(Expense)));
      assert Sum([last]) == last.amount by {
        assert [last][..0] == [];
      }
    }
  }

  /** Both totals are non-negative on a valid ledger. */
  lemma TotalsNonNegative(ts: seq<Transaction>)
    requires LedgerValid(ts)
    ensures TotalIncome(ts) >= 0.0 && TotalExpenses(ts) >= 0.0
  {
    var inc, exp := Filter(ts, KindIs(Income)), Filter(ts, KindIs(Expense));
    FilterMembers(ts, KindIs(Income));
    FilterMembers(ts, KindIs(Expense));
    SumOfPositives(inc);
    SumOfPositives(exp);
  }

  // ---------------------------------------------------------------- add and remove

  /** The admitted record goes in front: `[record, ...prev]`. */
  function Prepend(t: Transaction, ts: seq<Transaction>): (r: seq<Transaction>)
    ensures |r| == |ts| + 1 && r[0] == t && r[1..] == ts
  {
    [t] + ts
  }

  /** Adding a well-formed record keeps the ledger valid. */
  lemma PrependValid(t: Transaction, ts: seq<Transaction>)
    requires WellFormed(t) && LedgerValid(ts)
    ensures LedgerValid(Prepend(t, ts))
  {
  }

  /** An id not yet in the ledger keeps the ids distinct; one that is already there breaks it. */
  lemma PrependUnique(t: Transaction, ts: seq<Transaction>)
    requires UniqueIds(ts)
    ensures UniqueIds(Prepend(t, ts)) <==> !HasId(ts, t.id)
  {
    var r := Prepend(t, ts);
    if HasId(ts, t.id) {
      var j :| 0 <= j < |ts| && ts[j].id == t.id;
      assert r[0].id == r[j + 1].id;
    }
  }

  /** `prev.filter((t) => t.id !== id)`. */
  function Remove(ts: seq<Transaction>, id: int): seq<Transaction>
  {
    Filter(ts, IdIsNot(id))
  }

  /** Deleting an id keeps exactly the records with another id: none of them is lost, none is left with that id. */
  lemma RemoveMembers(ts: seq<Transaction>, id: int)
    ensures forall t :: t in Remove(ts, id) <==> t in ts && t.id != id
  {
    FilterMembers(ts, IdIsNot(id));
  }

  /** Removal works record by record, so the records kept stay in their original order. */
  lemma RemoveConcat(a: seq<Transaction>, b: seq<Transaction>, id: int)
    ensures Remove(a + b, id) == Remove(a, id) + Remove(b, id)
  {
    FilterConcat(a, b, IdIsNot(id));
  }

  /** Removing an id no record carries changes nothing. */
  lemma RemoveAbsent(ts: seq<Transaction>, id: int)
    requires !HasId(ts, id)
    ensures Remove(ts, id) == ts
  {
    FilterKeepsAll(ts, IdIsNot(id));
  }

  /** Deleting the same id twice is deleting it once. */
  lemma RemoveIdempotent(ts: seq<Transaction>, id: int)
    ensures Remove(Remove(ts, id), id) == Remove(ts, id)
  {
    FilterIdempotent(ts, IdIsNot(id));
  }

  /** Removal keeps the ledger valid and its ids distinct. */
  lemma RemovePreserves(ts: seq<Transaction>, id: int)
    ensures LedgerValid(ts) ==> LedgerValid(Remove(ts, id))
    ensures UniqueIds(ts) ==> UniqueIds(Remove(ts, id))
  {
    FilterMembers(ts, IdIsNot(id));
    if UniqueIds(ts) {
      RemoveUnique(ts, id);
    }
  }

  /** The induction behind RemovePreserves: removal keeps distinct ids distinct. */
  lemma {:induction false} RemoveUnique(ts: seq<Transaction>, id: int)
    requires UniqueIds(ts)
    ensures UniqueIds(Remove(ts, id))
  {
    if ts != [] {
      var rest := Remove(ts[1..], id);
      RemoveUnique(ts[1..], id);
      if ts[0].id != id {
        var r := Remove(ts, id);
        assert r == [ts[0]] + rest;
        FilterMembers(ts[1..], IdIsNot(id));
        forall i, j | 0 <= i < j < |r| ensures r[i].id != r[j].id {
          assert r[j] == rest[j - 1];
          if i == 0 {
            var k :| 0 <= k < |ts[1..]| && ts[1..][k] == rest[j - 1];
            assert ts[k + 1] == r[j];
          } else {
            assert r[i] == rest[i - 1];
          }
        }
      } else {
        assert Remove(ts, id) == rest;
      }
    }
  }

  /** With distinct ids, deleting a present id removes exactly one record. */
  lemma {:induction false} RemoveOne(ts: seq<Transaction>, id: int)
    requires UniqueIds(ts) && HasId(ts, id)
    ensures |Remove(ts, id)| == |ts| - 1
  {
    assert ts == [ts[0]] + ts[1..];
    RemoveConcat([ts[0]], ts[1..], id);
    if ts[0].id == id {
      assert Remove([ts[0]], id) == [];
      assert !HasId(ts[1..], id);
      RemoveAbsent(ts[1..], id);
    } else {
      assert Remove([ts[0]], id) == [ts[0]];
      var k :| 0 <= k < |ts| && ts[k].id == id;
      assert ts[1..][k - 1].id == id;
      RemoveOne(ts[1..], id);
    }
  }

  /** Deleting a record just added under a fresh id restores the ledger, and with it every total. */
  lemma RemoveUndoesPrepend(t: Transaction, ts: seq<Transaction>)
    requires !HasId(ts, t.id)
    ensures Remove(Prepend(t, ts), t.id) == ts
  {
    RemoveConcat([t], ts, t.id);
    assert Remove([t], t.id) == [];
    RemoveAbsent(ts, t.id);
  }
}
