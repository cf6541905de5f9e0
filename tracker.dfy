/**
 * The ExpenseTracker component's state and its two event handlers. The five state cells
 * become the fields of one object; each handler runs to completion as one method call.
 */
module Tracker {
  import Text
  import Numbers
  import opened Wrappers
  import opened Ledger

  const DescriptionRequired: string := "Description is required."
  const PositiveAmount: string := "Enter a positive amount."

  /** The amount text is admitted when parseFloat reads a number greater than zero from it. */
  predicate PositiveAmountText(amount: string) {
    match Numbers.ParseFloat(amount)
    case Some(v) => v > 0.0
    case None => false
  }

  /**
   * What submitting the form yields: the record `handleAdd` would put in front of the list,
   * or the message it would show. The description is checked first.
   */
  function Validate(description: string, amount: string, kind: Kind, id: int): (r: Result<Transaction, string>)
    ensures Text.Trim(description) == [] ==> r == Failure(DescriptionRequired)
    ensures Text.Trim(description) != [] && !PositiveAmountText(amount) ==> r == Failure(PositiveAmount)
    ensures r.Success? <==> Text.Trim(description) != [] && PositiveAmountText(amount)
    ensures r.Success? ==>
      && WellFormed(r.value)
      && r.value.id == id && r.value.kind == kind
      && r.value.description == Text.Trim(description)
      && Numbers.ParseFloat(amount) == Some(r.value.amount)
  {
    var trimmed := Text.Trim(description);
    if trimmed == [] then Failure(DescriptionRequired)
    else
      var parsed := Numbers.ParseFloat(amount);
      if amount == [] || parsed.None? || parsed.value <= 0.0 then Failure(PositiveAmount)
      else
        Success(Transaction(id, trimmed, parsed.value, kind))
  }

  class ExpenseTracker {
    var transactions: seq<Transaction>
    var description: string
    var amount: string
    /** The selected `type` of the next record. */
    var kind: Kind
    var error: string

    ghost predicate Valid()
      reads this
    {
      LedgerValid(transactions)
    }

    /** The initial state: no records, an empty form with Income selected, no message. */
    constructor ()
      ensures Valid()
      ensures transactions == [] && description == "" && amount == "" && kind == Income && error == ""
    {
      transactions := [];
      description := "";
      amount := "";
      kind := Income;
      error := "";
    }

    /**
     * `handleAdd`, with `now` standing for Date.now(), which becomes the new record's id.
     * The body keeps the handler's own if/else, checks in the same order; `Validate` is its
     * specification, and the postcondition ties the two together.
     */
    method Add(now: int)
      requires Valid()
      modifies this
      ensures Valid()
      ensures kind == old(kind)
      ensures match Validate(old(description), old(amount), old(kind), now)
        case Failure(message) =>
          && error == message
          && transactions == old(transactions)
          && description == old(description) && amount == old(amount)
        case Success(t) =>
          && error == ""
          && transactions == Prepend(t, old(transactions))
          && description == "" && amount == ""
    {
      var trimmed := Text.Trim(description);
      if trimmed == [] {
        error := DescriptionRequired;
      } else {
        var parsed := Numbers.ParseFloat(amount);
        if amount == [] || parsed.None? || parsed.value <= 0.0 {
          error := PositiveAmount;
        } else {
          var t := Transaction(now, trimmed, parsed.value, kind);
          PrependValid(t, transactions);
          error := "";
          transactions := Prepend(t, transactions);
          description := "";
          amount := "";
        }
      }
    }

    /** `handleDelete`: every record with this id leaves the list; the form and the message stay. */
    method Delete(id: int)
      requires Valid()
      modifies this
      ensures Valid()
      ensures transactions == Remove(old(transactions), id)
      ensures forall t :: t in transactions <==> t in old(transactions) && t.id != id
      ensures !HasId(old(transactions), id) ==> transactions == old(transactions)
      ensures description == old(description) && amount == old(amount)
      ensures kind == old(kind) && error == old(error)
    {
      RemovePreserves(transactions, id);
      RemoveMembers(transactions, id);
      if !HasId(transactions, id) {
        RemoveAbsent(transactions, id);
      }
      transactions := Remove(transactions, id);
    }
  }

  // ---------------------------------------------------------------- submissions
  // What a submission of the form yields, by the shape of its two texts, and the figures of
  // a short session: a salary of 1000, a coffee of 4.5, and the coffee deleted again.

  /** A clean description and a positive parsed amount are admitted as they are. */
  lemma AdmitsClean(description: string, amount: string, v: real, kind: Kind, id: int)
    requires description != [] && Text.IsTrimmed(description)
    requires Numbers.ParseFloat(amount) == Some(v) && v > 0.0
    ensures Validate(description, amount, kind, id) == Success(Transaction(id, description, v, kind))
  {
    Text.TrimmedIff(description);
  }

  /** A positive whole amount typed as its numeral, such as "1000", is admitted with a clean description. */
  lemma AdmitsWhole(description: string, n: nat, kind: Kind, id: int)
    requires description != [] && Text.IsTrimmed(description) && n > 0
    ensures Validate(description, Numbers.NatText(n), kind, id) == Success(Transaction(id, description, n as real, kind))
  {
    Numbers.ParseNatText(n);
    AdmitsClean(description, Numbers.NatText(n), n as real, kind, id);
  }

  /** An amount with a point, such as "4.5", is admitted with the value of its digits when that value is positive. */
  lemma AdmitsDecimal(description: string, whole: string, fraction: string, kind: Kind, id: int)
    requires description != [] && Text.IsTrimmed(description)
    requires whole != [] && Numbers.AllDigits(whole) && Numbers.AllDigits(fraction)
    requires Numbers.Decimal(whole, fraction) > 0.0
    ensures Validate(description, whole + ['.'] + fraction, kind, id)
         == Success(Transaction(id, description, Numbers.Decimal(whole, fraction), kind))
  {
    Numbers.ParseDecimal(whole, fraction, []);
    assert whole + ['.'] + fraction + [] == whole + ['.'] + fraction;
    AdmitsClean(description, whole + ['.'] + fraction, Numbers.Decimal(whole, fraction), kind, id);
  }

  /** A description of nothing but white space is refused with its own message whatever the amount says. */
  lemma BlankDescriptionRefused(description: string, amount: string, kind: Kind, id: int)
    requires forall i :: 0 <= i < |description| ==> Text.IsSpace(description[i])
    ensures Validate(description, amount, kind, id) == Failure(DescriptionRequired)
  {
    Text.TrimEmptyIff(description);
  }

  /** An amount without a digit, such as "abc" or "", is refused once the description is there. */
  lemma NoDigitRefused(description: string, amount: string, kind: Kind, id: int)
    requires Text.Trim(description) != []
    requires forall i :: 0 <= i < |amount| ==> !Numbers.IsDigit(amount[i])
    ensures Validate(description, amount, kind, id) == Failure(PositiveAmount)
  {
    Numbers.NoDigitNoNumber(amount);
  }

  /** A minus sign in front of the amount, as in "-5", is refused once the description is there: it is never positive. */
  lemma NegativeRefused(description: string, amount: string, kind: Kind, id: int)
    requires Text.Trim(description) != []
    requires Text.TrimOffset(amount) < |amount| && amount[Text.TrimOffset(amount)] == '-'
    ensures Validate(description, amount, kind, id) == Failure(PositiveAmount)
  {
    Numbers.MinusNeverPositive(amount);
  }

  /** The totals shown after a salary of 1000 is entered into an empty tracker. */
  lemma SalaryFigures(salary: Transaction)
    requires salary.amount == 1000.0 && salary.kind == Income
    ensures TotalIncome([salary]) == 1000.0 && TotalExpenses([salary]) == 0.0 && Balance([salary]) == 1000.0
  {
    assert TotalIncome([salary] + []) == 1000.0 && TotalExpenses([salary] + []) == 0.0 by {
      PrependTotals(salary, []);
    }
    assert [salary] + [] == [salary];
  }

  /** The totals shown after a coffee of 4.5 is put in front of the salary. */
  lemma SessionFigures(salary: Transaction, coffee: Transaction)
    requires salary.amount == 1000.0 && salary.kind == Income
    requires coffee.amount == 4.5 && coffee.kind == Expense
    ensures TotalIncome([coffee, salary]) == 1000.0 && TotalExpenses([coffee, salary]) == 4.5
    ensures Balance([coffee, salary]) == 995.5
  {
    assert TotalIncome([coffee] + [salary]) == 1000.0 && TotalExpenses([coffee] + [salary]) == 4.5 by {
      SalaryFigures(salary);
      PrependTotals(coffee, [salary]);
    }
    assert [coffee] + [salary] == [coffee, salary];
  }

  /** Deleting the coffee again leaves only the salary, and the totals fall back to 1000 and 0. */
  lemma SessionDelete(salary: Transaction, coffee: Transaction)
    requires salary.amount == 1000.0 && salary.kind == Income && coffee.id != salary.id
    ensures Remove([coffee, salary], coffee.id) == [salary]
    ensures TotalIncome(Remove([coffee, salary], coffee.id)) == 1000.0
    ensures TotalExpenses(Remove([coffee, salary], coffee.id)) == 0.0
  {
    assert [coffee, salary] == Prepend(coffee, [salary]);
    RemoveUndoesPrepend(coffee, [salary]);
    SalaryFigures(salary);
  }
}
