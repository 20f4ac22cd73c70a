/**
 * Who may see which borrowing: the row filters of the listing pages and the
 * ownership guards of the detail and letter pages.
 */
module Access {
  import opened Wrappers
  import opened Records

  /** `role`: 'admin' or anything else (the seeded accounts use 'user'). */
  datatype Role = Admin | Member

  /** The authenticated user on whose behalf a page is requested. */
  datatype Caller = Caller(id: UserId, role: Role)

  /** The guard shared by `show` and `letter`: an admin, or the row's owner. */
  predicate MayAccess(c: Caller, b: Borrowing)
  {
    c.role == Admin || b.user == c.id
  }

  /**
   * `index`: every row for an admin, only the caller's own rows otherwise;
   * that is, exactly the rows the detail guard lets this caller open.
   */
  function Index(c: Caller, rows: map<BorrowingId, Borrowing>): (r: map<BorrowingId, Borrowing>)
    ensures forall k :: k in r <==> k in rows && MayAccess(c, rows[k])
    ensures forall k :: k in r ==> r[k] == rows[k]
    ensures c.role != Admin ==> forall k :: k in r ==> r[k].user == c.id
  {
    if c.role == Admin then rows
    else map k | k in rows && rows[k].user == c.id :: rows[k]
  }

  /** `my`: the caller's own rows, whatever the caller's role. */
  function My(c: Caller, rows: map<BorrowingId, Borrowing>): (r: map<BorrowingId, Borrowing>)
    ensures forall k :: k in r <==> k in rows && rows[k].user == c.id
    ensures forall k :: k in r ==> r[k] == rows[k]
  {
    map k | k in rows && rows[k].user == c.id :: rows[k]
  }

  /** For a non-admin the two listings coincide; an admin's own rows are among all rows. */
  lemma IndexAndMy(c: Caller, rows: map<BorrowingId, Borrowing>)
    ensures c.role != Admin ==> Index(c, rows) == My(c, rows)
    ensures c.role == Admin ==> Index(c, rows) == rows
    ensures My(c, rows).Keys <= Index(c, rows).Keys
  {
  }

  /** `show`: 404 for a missing row (route binding), 403 unless admin or owner. */
  function Show(c: Caller, rows: map<BorrowingId, Borrowing>, id: BorrowingId): (r: Result<Borrowing, Error>)
    ensures id !in rows ==> r == Err(NotFound)
    ensures id in rows && !MayAccess(c, rows[id]) ==> r == Err(Forbidden)
    ensures r.Ok? <==> id in rows && MayAccess(c, rows[id])
    ensures r.Ok? ==> r.value == rows[id]
  {
    if id !in rows then Err(NotFound)
    else if !MayAccess(c, rows[id]) then Err(Forbidden)
    else Ok(rows[id])
  }

  /**
   * `letter`: 404 for a missing row, then 403 unless admin or owner, then 404
   * when no letter path is recorded or the file is not on disk (`stored`);
   * otherwise the path whose file is sent.
   */
  function Letter(c: Caller, rows: map<BorrowingId, Borrowing>, id: BorrowingId, stored: set<string>)
    : (r: Result<string, Error>)
    ensures id !in rows ==> r == Err(NotFound)
    ensures id in rows && !MayAccess(c, rows[id]) ==> r == Err(Forbidden)
    ensures id in rows && MayAccess(c, rows[id]) && !Truthy(rows[id].letter) ==> r == Err(NotFound)
    ensures id in rows && MayAccess(c, rows[id]) && Truthy(rows[id].letter) && rows[id].letter.value !in stored
            ==> r == Err(NotFound)
    ensures r.Ok? <==> id in rows && MayAccess(c, rows[id]) && Truthy(rows[id].letter)
                       && rows[id].letter.value in stored
    ensures r.Ok? ==> rows[id].letter == Some(r.value)
  {
    if id !in rows then Err(NotFound)
    else if !MayAccess(c, rows[id]) then Err(Forbidden)
    else if !Truthy(rows[id].letter) then Err(NotFound)
    else if rows[id].letter.value !in stored then Err(NotFound)
    else Ok(rows[id].letter.value)
  }

  /** A row is listed by `index` exactly when `show` opens it for the same caller. */
  lemma IndexAgreesWithShow(c: Caller, rows: map<BorrowingId, Borrowing>, id: BorrowingId)
    ensures id in Index(c, rows) <==> Show(c, rows, id).Ok?
  {
  }

  /** A non-admin never obtains, by any of the four pages, a row owned by someone else. */
  lemma NoForeignRows(c: Caller, rows: map<BorrowingId, Borrowing>, id: BorrowingId, stored: set<string>)
    requires c.role != Admin
    requires id in rows && rows[id].user != c.id
    ensures id !in Index(c, rows) && id !in My(c, rows)
    ensures Show(c, rows, id) == Err(Forbidden)
    ensures Letter(c, rows, id, stored) == Err(Forbidden)
  {
  }
}
