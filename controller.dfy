/**
 * The borrowing lifecycle: the state the borrowing controller reads and
 * writes (equipment, borrowings, borrowers) and its four mutating actions.
 * Each database transaction is one atomic method: a failure inside it leaves
 * everything the transaction touched as it was.
 */
module Controller {
  import opened Wrappers
  import opened Ledger
  import opened Records

  class Lab {
    var equipment: map<EquipId, Equipment>
    var borrowings: map<BorrowingId, Borrowing>
    var borrowers: map<BorrowerId, Borrower>
    /** The auto-increment counters of the two tables rows are created in. */
    var nextBorrowingId: nat
    var nextBorrowerId: nat
    /** Each item's total owned stock: its free units plus its units on loan. */
    ghost var total: map<EquipId, int>

    /** Every id in use was issued by its table's counter. */
    ghost predicate Valid()
      reads this
    {
      && (forall k :: k in borrowings ==> k < nextBorrowingId)
      && (forall k :: k in borrowers ==> k < nextBorrowerId)
    }

    /** Conservation: free units plus units held by open loans is each item's total. */
    ghost predicate Conserved()
      reads this
    {
      forall e :: e in equipment ==>
        e in total && equipment[e].quantity + Outstanding(borrowings, e, nextBorrowingId) == total[e]
    }

    /** Every item's availability flag agrees with its count. */
    predicate AllConsistent()
      reads this
    {
      forall e :: e in equipment ==> Consistent(equipment[e])
    }

    /** The store as it stands before the first loan. */
    constructor (inventory: map<EquipId, Equipment>)
      ensures Valid() && Conserved()
      ensures equipment == inventory && borrowings == map[] && borrowers == map[]
      ensures nextBorrowingId == 0 && nextBorrowerId == 0
      ensures total == map e | e in inventory :: inventory[e].quantity
    {
      equipment := inventory;
      borrowings := map[];
      borrowers := map[];
      nextBorrowingId := 0;
      nextBorrowerId := 0;
      total := map e | e in inventory :: inventory[e].quantity;
    }

    /**
     * `Borrower::firstOrCreate` on `nim`: the first borrower with that `nim`
     * is reused unchanged (name and contact are not updated); only when there
     * is none is a new borrower created under a fresh id.
     */
    method ResolveBorrower(nim: string, name: string, contact: string) returns (id: BorrowerId)
      requires Valid()
      modifies this
      ensures Valid()
      ensures equipment == old(equipment) && borrowings == old(borrowings)
      ensures nextBorrowingId == old(nextBorrowingId) && total == old(total)
      ensures id in borrowers && borrowers[id].nim == nim
      ensures FindByNim(borrowers, nim, nextBorrowerId) == Some(id)
      ensures var found := FindByNim(old(borrowers), nim, old(nextBorrowerId));
              if found.Some? then
                id == found.value && borrowers == old(borrowers) && nextBorrowerId == old(nextBorrowerId)
              else
                && id == old(nextBorrowerId) && id !in old(borrowers)
                && borrowers == old(borrowers)[id := Borrower(nim, name, contact)]
                && nextBorrowerId == id + 1
    {
      var found := FindByNim(borrowers, nim, nextBorrowerId);
      if found.Some? {
        id := found.value;
      } else {
        id := nextBorrowerId;
        FindsCreatedBorrower(borrowers, id, Borrower(nim, name, contact));
        borrowers := borrowers[id := Borrower(nim, name, contact)];
        nextBorrowerId := nextBorrowerId + 1;
      }
    }

    /**
     * `store`: request validation rejects an unknown `equipment_id` (the
     * `exists` rule, a validation error) before anything is written.
     * Otherwise resolve the borrower (outside the transaction, so it
     * persists even when the loan is refused), then in one transaction
     * refuse when fewer than `jumlah` units are free, or create the loan and
     * take its units from the item. `borrower` is the resolved borrower,
     * None when validation rejected the request.
     */
    method Store(user: UserId, nim: string, name: string, contact: string, e: EquipId,
                 jumlah: Amount, letter: Option<string>, borrowDate: Date)
      returns (r: Result<BorrowingId, Error>, borrower: Option<BorrowerId>)
      requires Valid()
      modifies this
      ensures Valid() && total == old(total)
      ensures e !in old(equipment) ==>
                && r == Err(Invalid) && borrower == None
                && borrowers == old(borrowers) && nextBorrowerId == old(nextBorrowerId)
      ensures e in old(equipment) ==> borrower.Some?
      ensures borrower.Some? ==>
                var who := borrower.value;
                && who in borrowers && borrowers[who].nim == nim
                && NoneWithNim(old(borrowers), nim, who)
                && (who in old(borrowers) ==>
                      borrowers == old(borrowers) && nextBorrowerId == old(nextBorrowerId))
                && (who !in old(borrowers) ==>
                      && who == old(nextBorrowerId) && nextBorrowerId == who + 1
                      && borrowers == old(borrowers)[who := Borrower(nim, name, contact)]
                      && NoneWithNim(old(borrowers), nim, old(nextBorrowerId)))
      ensures e in old(equipment) && old(equipment)[e].quantity < jumlah ==> r == Err(InsufficientStock)
      ensures r.Ok? <==> e in old(equipment) && jumlah <= old(equipment)[e].quantity
      ensures r.Err? ==> equipment == old(equipment) && borrowings == old(borrowings)
      ensures r.Err? ==> nextBorrowingId == old(nextBorrowingId)
      ensures r.Ok? ==>
                && borrower.Some? && r.value == old(nextBorrowingId) && r.value !in old(borrowings)
                && borrowings == old(borrowings)[r.value := NewBorrowing(user, borrower.value, e, jumlah, letter, borrowDate)]
                && nextBorrowingId == r.value + 1
      ensures r.Ok? ==>
                && e in equipment && equipment.Keys == old(equipment).Keys
                && equipment[e].quantity + jumlah == old(equipment)[e].quantity
                && (equipment[e].availability == Unavailable <==> equipment[e].quantity == 0)
                && (forall x :: x in equipment && x != e ==> equipment[x] == old(equipment)[x])
      ensures old(Conserved()) ==> Conserved()
      ensures old(AllConsistent()) ==> AllConsistent()
    {
      if e !in equipment {
        return Err(Invalid), None;
      }
      var who := ResolveBorrower(nim, name, contact);
      borrower := Some(who);
      var taken := Reserve(equipment[e], jumlah);
      if taken.None? {
        return Err(InsufficientStock), borrower;
      }
      ghost var before := borrowings;
      var id := nextBorrowingId;
      borrowings := borrowings[id := NewBorrowing(user, who, e, jumlah, letter, borrowDate)];
      nextBorrowingId := nextBorrowingId + 1;
      equipment := equipment[e := taken.value];
      forall x | x in equipment
        ensures Outstanding(borrowings, x, nextBorrowingId)
                == Outstanding(before, x, id) + (if x == e then jumlah as nat else 0)
      {
        OutstandingPointwise(before, borrowings, id, x, id);
      }
      r := Ok(id);
    }

    /**
     * `update`: write the new status and return date; when that moves the
     * loan into 'dikembalikan' from anything else, give its units back in the
     * same transaction (404, and nothing written, when the item is gone).
     * A move back from 'dikembalikan' to 'dipinjam' takes no units.
     */
    method Update(id: BorrowingId, status: Status, returnDate: Option<Date>) returns (r: Outcome<Error>)
      requires Valid()
      modifies this
      ensures Valid() && total == old(total)
      ensures borrowers == old(borrowers) && nextBorrowerId == old(nextBorrowerId)
      ensures nextBorrowingId == old(nextBorrowingId)
      ensures id !in old(borrowings) ==> r == Fail(NotFound)
      ensures id in old(borrowings) ==>
                (r.Fail? <==> ReleasesOnUpdate(old(borrowings)[id].status, status)
                              && old(borrowings)[id].equipment !in old(equipment))
      ensures r.Fail? ==> r.error == NotFound && equipment == old(equipment) && borrowings == old(borrowings)
      ensures r.Pass? ==>
                var b := old(borrowings)[id];
                && borrowings == old(borrowings)[id := b.(status := status, returnDate := returnDate)]
                && equipment == if ReleasesOnUpdate(b.status, status)
                                then old(equipment)[b.equipment := Release(old(equipment)[b.equipment], ReleaseAmount(b))]
                                else old(equipment)
      ensures old(Conserved()) && !(id in old(borrowings) && old(borrowings)[id].status == Returned && status == OnLoan)
              ==> Conserved()
      ensures old(Conserved()) && id in old(borrowings) && old(borrowings)[id].status == Returned && status == OnLoan
              && old(borrowings)[id].equipment in equipment
              ==> !Conserved()
      ensures old(AllConsistent()) ==> AllConsistent()
    {
      if id !in borrowings {
        return Fail(NotFound);
      }
      var b := borrowings[id];
      var releases := ReleasesOnUpdate(b.status, status);
      if releases && b.equipment !in equipment {
        return Fail(NotFound);
      }
      ghost var before := borrowings;
      borrowings := borrowings[id := b.(status := status, returnDate := returnDate)];
      if releases {
        equipment := equipment[b.equipment := Release(equipment[b.equipment], ReleaseAmount(b))];
      }
      forall x | x in equipment
        ensures Outstanding(borrowings, x, nextBorrowingId)
                == Outstanding(before, x, nextBorrowingId) + Share(borrowings, id, x) - Share(before, id, x)
      {
        OutstandingPointwise(before, borrowings, id, x, nextBorrowingId);
      }
      r := Pass;
    }

    /**
     * `returnEquipment`: a loan already 'dikembalikan' is left alone;
     * otherwise mark it returned at `now` and give its units back, in one
     * transaction (404, and nothing written, when the item is gone).
     */
    method ReturnEquipment(id: BorrowingId, now: Date) returns (r: Outcome<Error>)
      requires Valid()
      modifies this
      ensures Valid() && total == old(total)
      ensures borrowers == old(borrowers) && nextBorrowerId == old(nextBorrowerId)
      ensures nextBorrowingId == old(nextBorrowingId)
      ensures id !in old(borrowings) ==> r == Fail(NotFound)
      ensures id in old(borrowings) && old(borrowings)[id].status == Returned ==>
                r == Pass && equipment == old(equipment) && borrowings == old(borrowings)
      ensures id in old(borrowings) && old(borrowings)[id].status == OnLoan ==>
                (r.Fail? <==> old(borrowings)[id].equipment !in old(equipment))
      ensures r.Fail? ==> r.error == NotFound && equipment == old(equipment) && borrowings == old(borrowings)
      ensures r.Pass? && old(borrowings)[id].status == OnLoan ==>
                var b := old(borrowings)[id];
                && borrowings == old(borrowings)[id := b.(status := Returned, returnDate := Some(now))]
                && equipment == old(equipment)[b.equipment := Release(old(equipment)[b.equipment], ReleaseAmount(b))]
      ensures r.Pass? ==> borrowings[id].status == Returned
      ensures old(Conserved()) ==> Conserved()
      ensures old(AllConsistent()) ==> AllConsistent()
    {
      if id !in borrowings {
        return Fail(NotFound);
      }
      var b := borrowings[id];
      if b.status == Returned {
        return Pass;
      }
      if b.equipment !in equipment {
        return Fail(NotFound);
      }
      ghost var before := borrowings;
      borrowings := borrowings[id := b.(status := Returned, returnDate := Some(now))];
      equipment := equipment[b.equipment := Release(equipment[b.equipment], ReleaseAmount(b))];
      forall x | x in equipment
        ensures Outstanding(borrowings, x, nextBorrowingId)
                == Outstanding(before, x, nextBorrowingId) - Share(before, id, x)
      {
        OutstandingPointwise(before, borrowings, id, x, nextBorrowingId);
      }
      r := Pass;
    }

    /**
     * `destroy`: in one transaction, give the units back when the loan is
     * still 'dipinjam' (404, and nothing deleted, when the item is gone),
     * then delete the row. The result is the letter path to remove from disk
     * once the transaction has committed, when one is recorded.
     */
    method Destroy(id: BorrowingId) returns (r: Result<Option<string>, Error>)
      requires Valid()
      modifies this
      ensures Valid() && total == old(total)
      ensures borrowers == old(borrowers) && nextBorrowerId == old(nextBorrowerId)
      ensures nextBorrowingId == old(nextBorrowingId)
      ensures id !in old(borrowings) ==> r == Err(NotFound)
      ensures id in old(borrowings) ==>
                (r.Err? <==> old(borrowings)[id].status == OnLoan && old(borrowings)[id].equipment !in old(equipment))
      ensures r.Err? ==> r.error == NotFound && equipment == old(equipment) && borrowings == old(borrowings)
      ensures r.Ok? ==>
                var b := old(borrowings)[id];
                && borrowings == old(borrowings) - {id}
                && r.value == (if Truthy(b.letter) then b.letter else None)
                && equipment == if b.status == OnLoan
                                then old(equipment)[b.equipment := Release(old(equipment)[b.equipment], ReleaseAmount(b))]
                                else old(equipment)
      ensures old(Conserved()) ==> Conserved()
      ensures old(AllConsistent()) ==> AllConsistent()
    {
      if id !in borrowings {
        return Err(NotFound);
      }
      var b := borrowings[id];
      if b.status == OnLoan {
        if b.equipment !in equipment {
          return Err(NotFound);
        }
        equipment := equipment[b.equipment := Release(equipment[b.equipment], ReleaseAmount(b))];
      }
      ghost var before := borrowings;
      borrowings := borrowings - {id};
      forall x | x in equipment
        ensures Outstanding(borrowings, x, nextBorrowingId)
                == Outstanding(before, x, nextBorrowingId) - Share(before, id, x)
      {
        OutstandingPointwise(before, borrowings, id, x, nextBorrowingId);
      }
      r := Ok(if Truthy(b.letter) then b.letter else None);
    }
  }

  /**
   * One borrower, one item with five units: borrow two, borrow three (none
   * left), and a third request for one unit is refused with nothing changed.
   */
  method BorrowScenario() returns (lab: Lab)
    ensures fresh(lab) && lab.Valid() && lab.Conserved() && lab.AllConsistent()
    ensures lab.equipment == map[1 := Equipment(0, Unavailable)] && lab.total == map[1 := 5]
    ensures lab.borrowings.Keys == {0, 1} && lab.nextBorrowingId == 2
    ensures lab.borrowings[0].status == OnLoan && lab.borrowings[0].equipment == 1
    ensures ReleaseAmount(lab.borrowings[0]) == 2
    ensures lab.borrowings[1].status == OnLoan && lab.borrowings[1].equipment == 1
    ensures ReleaseAmount(lab.borrowings[1]) == 3 && lab.borrowings[1].letter == Some("request_letters/a.pdf")
  {
    lab := new Lab(map[1 := Equipment(5, Available)]);
    assert lab.AllConsistent();
    var first, _ := lab.Store(10, "2201001", "Sari", "0811", 1, 2, None, 1);
    assert first == Ok(0) && lab.equipment[1] == Equipment(3, Available);
    var second, _ := lab.Store(10, "2201001", "Sari", "0811", 1, 3, Some("request_letters/a.pdf"), 1);
    assert second == Ok(1) && lab.equipment[1] == Equipment(0, Unavailable);
    var third, _ := lab.Store(10, "2201001", "Sari", "0811", 1, 1, None, 2);
    assert third == Err(InsufficientStock);
  }

  /**
   * Continuing the borrowing scenario: returning the first loan twice gives
   * its two units back once, and deleting the open loan gives back the other
   * three and hands over its letter path for removal.
   */
  method ReturnScenario()
  {
    var lab := BorrowScenario();
    var back := lab.ReturnEquipment(0, 3);
    assert back == Pass && lab.equipment[1] == Equipment(2, Available);
    var again := lab.ReturnEquipment(0, 4);
    assert again == Pass && lab.equipment[1] == Equipment(2, Available);
    var gone := lab.Destroy(1);
    assert gone == Ok(Some("request_letters/a.pdf")) && lab.equipment[1] == Equipment(5, Available);
    assert lab.Conserved() && lab.AllConsistent();
  }
}
