/**
 * The equipment stock ledger: for each item, the number of units not on
 * loan (`quantity`) and the flag shown to borrowers (`availability_status`).
 * The controller changes an item only through Reserve and Release.
 */
module Ledger {
  import opened Wrappers

  type EquipId = nat

  /** A number of units moved by one loan; request validation demands `min:1`. */
  type Amount = n: nat | 1 <= n witness 1

  /** `availability_status`: Available is stored as 'tersedia', Unavailable as 'dipinjam'. */
  datatype Availability = Available | Unavailable

  datatype Equipment = Equipment(quantity: nat, availability: Availability)

  /** The flag agrees with the count: 'tersedia' exactly when some unit is free. */
  predicate Consistent(eq: Equipment)
  {
    eq.availability == Available <==> eq.quantity > 0
  }

  /**
   * Taking `amount` units for a new loan: refused (None) when fewer units are
   * free, otherwise the count drops by exactly `amount` and the flag is
   * recomputed from what is left.
   */
  function Reserve(eq: Equipment, amount: Amount): (r: Option<Equipment>)
    ensures r.None? <==> eq.quantity < amount
    ensures r.Some? ==> r.value.quantity + amount == eq.quantity
    ensures r.Some? ==> Consistent(r.value)
    ensures r.Some? ==> (r.value.availability == Unavailable <==> eq.quantity == amount)
  {
    if eq.quantity < amount then None
    else
      var left := eq.quantity - amount;
      Some(Equipment(left, if left == 0 then Unavailable else Available))
  }

  /**
   * Giving `amount` units back: the count rises by exactly `amount` and the
   * item is marked 'tersedia', which is then always consistent with the count.
   */
  function Release(eq: Equipment, amount: Amount): (r: Equipment)
    ensures r.quantity == eq.quantity + amount
    ensures r.quantity > 0 && Consistent(r)
  {
    Equipment(eq.quantity + amount, Available)
  }

  /** Releasing what was just reserved restores a consistent item exactly. */
  lemma ReleaseUndoesReserve(eq: Equipment, amount: Amount)
    requires Consistent(eq) && amount <= eq.quantity
    ensures Reserve(eq, amount).Some?
    ensures Release(Reserve(eq, amount).value, amount) == eq
  {
  }
}
