/**
 * Borrowing and borrower records, the amount a record gives back to stock,
 * the total still on loan per item, and the lookup of a borrower by `nim`.
 */
module Records {
  import opened Wrappers
  import opened Ledger

  type UserId = nat
  type BorrowingId = nat
  type BorrowerId = nat

  /** A calendar date or timestamp; only stored and compared for equality here. */
  type Date = nat

  /**
   * NotFound is a 404 (missing record). Invalid is a failed request
   * validation rule, answered with a redirect back or a 422. InsufficientStock
   * is the 'Stok alat tidak mencukupi.' validation error. Forbidden is a 403.
   */
  datatype Error = NotFound | Invalid | InsufficientStock | Forbidden

  /** `status`: OnLoan is stored as 'dipinjam', Returned as 'dikembalikan'. */
  datatype Status = OnLoan | Returned

  datatype Borrower = Borrower(nim: string, name: string, contact: string)

  /**
   * One row of `borrowings`. `jumlah` is nullable: the Borrowing model does
   * not list it as mass-assignable, so a row created through mass assignment
   * keeps it NULL, and every release falls back to one unit.
   */
  datatype Borrowing = Borrowing(
    user: UserId,
    borrower: BorrowerId,
    equipment: EquipId,
    jumlah: Option<Amount>,
    letter: Option<string>,
    borrowDate: Date,
    returnDate: Option<Date>,
    status: Status)

  /** The units a release gives back: `jumlah ?? 1`. */
  function ReleaseAmount(b: Borrowing): Amount
  {
    b.jumlah.GetOr(1)
  }

  /**
   * Whether an `update` from `prev` to `next` gives stock back: only on a
   * change into 'dikembalikan' from anything else.
   */
  predicate ReleasesOnUpdate(prev: Status, next: Status)
  {
    prev != Returned && next == Returned
  }

  /** PHP truthiness of a nullable string: NULL, "" and "0" are false. */
  predicate Truthy(s: Option<string>)
  {
    s.Some? && s.value != "" && s.value != "0"
  }

  /** The row `store` means to create: on loan, with `jumlah` persisted. */
  function NewBorrowing(user: UserId, borrower: BorrowerId, e: EquipId, jumlah: Amount,
                        letter: Option<string>, borrowDate: Date): (b: Borrowing)
    ensures b.status == OnLoan && b.returnDate == None
    ensures b.equipment == e && b.user == user && b.borrower == borrower
    ensures b.jumlah == Some(jumlah) && b.letter == letter && b.borrowDate == borrowDate
    ensures ReleaseAmount(b) == jumlah
  {
    Borrowing(user, borrower, e, Some(jumlah), letter, borrowDate, None, OnLoan)
  }

  /**
   * The row `store` actually creates: mass assignment silently discards
   * `jumlah`, which the model's fillable list omits, so the column stays NULL.
   */
  function NewBorrowingAsWritten(user: UserId, borrower: BorrowerId, e: EquipId, jumlah: Amount,
                                 letter: Option<string>, borrowDate: Date): (b: Borrowing)
    ensures b.status == OnLoan && b.equipment == e
    ensures b.jumlah == None
    ensures ReleaseAmount(b) == 1
  {
    Borrowing(user, borrower, e, None, letter, borrowDate, None, OnLoan)
  }

  /**
   * As written, borrowing `jumlah` >= 2 units and returning them leaves the
   * item short by `jumlah - 1` units: stock is lost on every such loan.
   */
  lemma DroppedJumlahLosesStock(eq: Equipment, user: UserId, borrower: BorrowerId, e: EquipId,
                                jumlah: Amount, letter: Option<string>, borrowDate: Date)
    requires 2 <= jumlah <= eq.quantity
    ensures Reserve(eq, jumlah).Some?
    ensures var b := NewBorrowingAsWritten(user, borrower, e, jumlah, letter, borrowDate);
            Release(Reserve(eq, jumlah).value, ReleaseAmount(b)).quantity == eq.quantity - jumlah + 1
    ensures var b := NewBorrowingAsWritten(user, borrower, e, jumlah, letter, borrowDate);
            Release(Reserve(eq, jumlah).value, ReleaseAmount(b)).quantity < eq.quantity
  {
  }

  /** With `jumlah` persisted, borrowing and returning restores the item exactly. */
  lemma ReturnRestoresStock(eq: Equipment, user: UserId, borrower: BorrowerId, e: EquipId,
                            jumlah: Amount, letter: Option<string>, borrowDate: Date)
    requires Consistent(eq) && jumlah <= eq.quantity
    ensures Reserve(eq, jumlah).Some?
    ensures var b := NewBorrowing(user, borrower, e, jumlah, letter, borrowDate);
            Release(Reserve(eq, jumlah).value, ReleaseAmount(b)) == eq
  {
    ReleaseUndoesReserve(eq, jumlah);
  }

  /** What row `k` holds back from item `e`: its release amount while on loan, else nothing. */
  function Share(loans: map<BorrowingId, Borrowing>, k: BorrowingId, e: EquipId): nat
  {
    if k in loans && loans[k].equipment == e && loans[k].status == OnLoan
    then ReleaseAmount(loans[k]) else 0
  }

  /** The units of item `e` held by loans with an id below `n`. */
  function Outstanding(loans: map<BorrowingId, Borrowing>, e: EquipId, n: nat): nat
  {
    if n == 0 then 0 else Outstanding(loans, e, n - 1) + Share(loans, n - 1, e)
  }

  /**
   * Changing one row changes the sum by exactly that row's change of share
   * (and not at all when the row lies beyond the range summed).
   */
  lemma {:induction false} OutstandingPointwise(m: map<BorrowingId, Borrowing>, m': map<BorrowingId, Borrowing>,
                                                k: BorrowingId, e: EquipId, n: nat)
    requires forall j :: j != k ==> Share(m', j, e) == Share(m, j, e)
    ensures Outstanding(m', e, n) == Outstanding(m, e, n) + (if k < n then Share(m', k, e) - Share(m, k, e) else 0)
  {
    if n > 0 {
      OutstandingPointwise(m, m', k, e, n - 1);
    }
  }

  /** No borrower with an id below `bound` has this `nim`. */
  predicate NoneWithNim(people: map<BorrowerId, Borrower>, nim: string, bound: nat)
  {
    forall k :: k in people && k < bound ==> people[k].nim != nim
  }

  /**
   * `firstOrCreate` lookup: the first (lowest-id) borrower below `n` with this
   * `nim`, or None when there is none.
   */
  function FindByNim(people: map<BorrowerId, Borrower>, nim: string, n: nat): (r: Option<BorrowerId>)
    ensures r.Some? ==> r.value < n && r.value in people && people[r.value].nim == nim
    ensures r.Some? ==> NoneWithNim(people, nim, r.value)
    ensures r.None? ==> NoneWithNim(people, nim, n)
  {
    if n == 0 then None
    else match FindByNim(people, nim, n - 1)
      case Some(k) => Some(k)
      case None => if n - 1 in people && people[n - 1].nim == nim then Some(n - 1) else None
  }

  /** A borrower created under a fresh id `n` is the one found on the next lookup. */
  lemma FindsCreatedBorrower(people: map<BorrowerId, Borrower>, n: nat, who: Borrower)
    requires forall k :: k in people ==> k < n
    requires FindByNim(people, who.nim, n).None?
    ensures FindByNim(people[n := who], who.nim, n + 1) == Some(n)
  {
  }
}
