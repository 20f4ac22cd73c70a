# Borrowing lifecycle and stock ledger of SmartDigiLab

SmartDigiLab tracks laboratory equipment on loan. Logged-in users borrow an
item (`store`). Administrators edit a loan's status (`update`), mark it
returned (`returnEquipment`) or delete it (`destroy`). Each item has a count
of free units (`quantity`) and a flag (`availability_status`, either
`tersedia` or `dipinjam`). Each of the four actions runs in one database
transaction that keeps the flag and the count in step with the loans. The
model covers that logic in `app/Http/Controllers/BorrowingController.php`,
together with the row filters and ownership guards of the listing, detail and
letter pages.

- `wrappers.dfy`: `Option` (a nullable column, with `GetOr` for PHP's `??`),
  `Result` and `Outcome` for actions that abort.
- `ledger.dfy`: one item's count and flag. `Reserve` takes units for a new
  loan. `Release` gives units back. The controller repeats the `Release` step
  verbatim in three places.
- `records.dfy`: borrowing and borrower rows. It holds `ReleaseAmount`
  (`jumlah ?? 1`), the sum `Outstanding` of units held by open loans, the
  first-match lookup `FindByNim`, and the row that `store` creates.
- `access.dfy`: the `index`, `my`, `show` and `letter` pages as pure functions
  of the caller and the rows.
- `controller.dfy`: class `Lab`. It holds the equipment, borrowing and borrower
  tables as maps, plus their auto-increment counters. Each transaction is one
  atomic `modifies this` method. When one fails, the rows it touched are left
  as they were. A ghost map `total` records each item's owned stock.
  `Conserved()` states that free units plus units on open loans equal that
  total. `Store`, `ReturnEquipment` and `Destroy` preserve it. `Update`
  preserves it too, except on a move from `dikembalikan` back to `dipinjam`.
  There, while the loan's item still exists, the contract proves conservation
  breaks: the loan is open again, but no units are taken. `BorrowScenario` and `ReturnScenario` are client methods.
  They take one item with five units through borrow 2, borrow 3, a refused
  borrow of 1, a repeated return, and a delete.

Where the intended design and the code differ, the model follows the code,
with one exception: `Store` keeps `jumlah` on the row it creates (see
"## Findings"), where the code as written loses it. Otherwise:

- A returned loan is meant to be final. `update` nonetheless accepts
  `dikembalikan → dipinjam` and takes no stock.
- `status = dikembalikan` is meant to hold exactly when a return date is set.
  `update` writes whatever status and date it is given, so the model does not
  claim this.
- `store` resolves the borrower before its transaction opens. A request that
  is refused for lack of stock therefore still creates the borrower.

## Model

| member | source | states |
|---|---|---|
| `Ledger.Reserve` | app/Http/Controllers/BorrowingController.php:76-95 | Refused exactly when fewer than `jumlah` units are free. Otherwise the count drops by exactly `jumlah` and stays non-negative. The flag becomes `dipinjam` exactly when nothing is left, so it agrees with the count. |
| `Ledger.Release` | app/Http/Controllers/BorrowingController.php:143-145 | The count rises by exactly the amount released. The item is then `tersedia` with a positive count, so flag and count agree. |
| `Ledger.ReleaseUndoesReserve` | app/Http/Controllers/BorrowingController.php:94-96 | Reserving and then releasing the same amount restores a consistent item exactly. |
| `Records.NewBorrowing` | app/Http/Controllers/BorrowingController.php:83-91 | The row `store` means to create is on loan, has no return date, and belongs to the caller, the borrower and the item. A later release gives back exactly its `jumlah`. |
| `Records.NewBorrowingAsWritten` | app/Models/Borrowing.php:10-18 | The row mass assignment actually stores lacks `jumlah`, so every later release gives back one unit. |
| `Records.DroppedJumlahLosesStock` | app/Http/Controllers/BorrowingController.php:213 | As written, borrowing `jumlah >= 2` units and returning them leaves the item `jumlah - 1` units short. |
| `Records.ReturnRestoresStock` | app/Http/Controllers/BorrowingController.php:94-95 | With `jumlah` persisted, borrowing and returning restores the item exactly. |
| `Records.FindByNim` | app/Http/Controllers/BorrowingController.php:65-66 | Finds a borrower with the given `nim` when one exists. It is the first (lowest id) such borrower. None means no borrower has that `nim`. |
| `Records.FindsCreatedBorrower` | app/Http/Controllers/BorrowingController.php:65-71 | A borrower created under a fresh id is the one the next lookup by the same `nim` returns, so resolution is idempotent. |
| `Access.Index` | app/Http/Controllers/BorrowingController.php:21-26 | A row is listed exactly when the caller is an admin or owns it. A non-admin sees only rows with their own `user_id`. Listed rows are unaltered. |
| `Access.My` | app/Http/Controllers/BorrowingController.php:189-192 | Lists exactly the caller's own rows, whatever the caller's role. |
| `Access.IndexAndMy` | app/Http/Controllers/BorrowingController.php:24-26 | For a non-admin, `index` and `my` list the same rows. An admin's `index` lists everything, including their own rows. |
| `Access.Show` | app/Http/Controllers/BorrowingController.php:106-110 | A missing row gives 404. A caller who is neither admin nor owner gets 403. Any other caller gets the row itself. |
| `Access.Letter` | app/Http/Controllers/BorrowingController.php:222-236 | Checks run in this order: 404 for a missing row, 403 unless admin or owner, then 404 if the letter path is falsy (NULL, "" or "0") or its file is absent. Otherwise it returns the row's recorded path. |
| `Access.IndexAgreesWithShow` | app/Http/Controllers/BorrowingController.php:108 | A row appears in `index` exactly when `show` opens it for the same caller. |
| `Access.NoForeignRows` | app/Http/Controllers/BorrowingController.php:224-226 | A non-admin gets no row owned by someone else from any of `index`, `my`, `show` or `letter`. |
| `Controller.Lab.ResolveBorrower` | app/Http/Controllers/BorrowingController.php:65-71 | Reuses the first borrower with the `nim` unchanged, or else creates one under a fresh id. Either way, the next lookup finds the returned id. No other table changes. |
| `Controller.Lab.Store` | app/Http/Controllers/BorrowingController.php:47-97 | An unknown `equipment_id` fails the `exists` validation rule (a validation error, not a 404) before anything is written, borrowers included. Too little stock gives a stock error: no loan is created and no equipment changes, but the borrower has already been resolved (reused, or created under the next borrower id). On success exactly one new `dipinjam` row with the given `jumlah` is created under a fresh id. That item's count falls by exactly `jumlah` and its flag is `dipinjam` exactly when the count reaches 0. Other items do not change. Conservation and flag consistency are preserved. |
| `Controller.Lab.Update` | app/Http/Controllers/BorrowingController.php:129-147 | Writes the new status and return date. Only a move into `dikembalikan` from another status gives back `jumlah ?? 1` units and sets `tersedia`. That case fails with 404, writing nothing, if the item is gone. Every other transition leaves equipment untouched. Conservation is preserved except on `dikembalikan → dipinjam`, where it is shown to break. |
| `Controller.Lab.ReturnEquipment` | app/Http/Controllers/BorrowingController.php:200-216 | On a returned loan it changes nothing. Otherwise it marks the loan returned at `now` and gives back `jumlah ?? 1` units once, with flag `tersedia`. It fails with 404, writing nothing, if the item is gone. Afterwards the loan is returned, so a second call is a no-op. Conservation is preserved. |
| `Controller.Lab.Destroy` | app/Http/Controllers/BorrowingController.php:156-173 | Deletes the row. If the loan was still `dipinjam`, its units come back and the item becomes `tersedia`, or the call fails with 404 (nothing deleted) if the item is gone. A returned loan leaves equipment unchanged. Returns the letter path to remove after commit, only when truthy. Conservation is preserved. |

## Findings

| source | as written | input that shows it | evidently intended | confidence | as-written member | corrected member |
|---|---|---|---|---|---|---|
| app/Models/Borrowing.php:10-18 | `jumlah` is not fillable, so `Borrowing::create` (BorrowingController.php:83-91) silently drops it. The column stays NULL, and each release (lines 143, 163, 213) gives back `jumlah ?? 1` = 1 unit. | Item with `quantity` 5. Store with `jumlah` 3 leaves 2. Returning that loan leaves 3, not 5. | `jumlah` is stored, so a return gives back what the loan took. | medium, not executed. It assumes Eloquent's default mass-assignment guarding, which is configured outside these files. It also assumes the `jumlah` column is nullable with no default. The migration that adds it is not part of this model; a NOT NULL column without a default would make the insert fail instead. | `Records.DroppedJumlahLosesStock` | `Records.ReturnRestoresStock` |

`Controller.Lab.Store` builds its row with the corrected `Records.NewBorrowing`.
The conservation proofs rest on that.

## Left out

- Locking and concurrency: `lockForUpdate` and `DB::transaction` are modelled only as atomic methods. Interleavings and the unlocked borrower race are not modelled.
- File storage: the upload at line 61 is the `letter` parameter of `Store`. `Destroy` returns the path it would delete after commit. `Letter` receives the set of stored paths and returns the path instead of streaming the file.
- Authentication and routing: the caller is always authenticated, so the guest branch of `Auth::user()?->role` is not modelled. The admin-only middleware on `show`, `update`, `destroy` and `returnEquipment` (routes/web.php:35-49) is not modelled. `update`, `destroy` and `returnEquipment` take no caller. `Access.Show` takes one but models only the controller's own guard (BorrowingController.php:108-110). Non-admins cannot reach the `show` route at all (routes/web.php:45), so `Access.IndexAgreesWithShow` describes the controller method, not the route.
- Request validation: `jumlah >= 1` is the type `Amount`. The string rules on name, nim, contact and date are not checked. An unknown `equipment_id` fails the `exists:equipment,id` rule and is reported as the validation error `Invalid` before the borrower is resolved. The `findOrFail` at line 74 can then fail only after a concurrent delete, which is not modelled.
- Controller.Lab.Update: the case where `return_date` is absent from the request, which leaves the stored date alone, is not modelled. The date is always written.
- Records.FindByNim: matches `nim` by exact string equality and picks the lowest id. The source's `firstOrCreate` lookup follows the database collation, which may ignore case and trailing spaces. Its `first()` has no `orderBy`, so which row wins is the model's choice. The schema's unique index on `nim` is not carried as an invariant.
- Pagination, `created_at` ordering, `now()` (a parameter of `ReturnEquipment`), flash messages, redirects and views, including the `create`, `edit` and `success` pages.
- Equipment name and code, and timestamps: they play no part in the logic.
- `AuthController`, the seeders and the migration: they are outside the borrowing logic.
