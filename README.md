# Marketplace points ledger and item store

This project models the back end of the macro marketplace: the FastAPI
server in `marketplace_server.py`. The server keeps four SQLite tables:

- `users`: id, password hash and point balance;
- `tokens`: bearer tokens with an expiry;
- `items`: published archives with price, author and download counter;
- `transactions`: one row per paid purchase.

Six endpoints read and change these tables:

- `register` creates an account with 100 points;
- `login` issues a token and drops the user's older tokens;
- `get_points` returns the balance of the token's user;
- `list_items` lists the items of one type;
- `upload_item` publishes an archive and credits the seller a tenth of the price;
- `download_item` is a purchase. Authors download their own items for free.
  A paid purchase moves the price from the buyer to the seller and is
  logged. Every successful download bumps the item's counter.

The model is one Dafny class, `Server.Marketplace`. The tables are its fields:
`users` and `tokens` are maps keyed like their primary keys, `items` and
`transactions` are sequences in insertion order, and `nextItemId` is the
AUTOINCREMENT counter. Each endpoint is a method that rewrites the fields.
Its contract names every error case and says that an error leaves
everything unchanged. On success it gives the whole new state. The pure table
operations live in modules of their own:

- `Rows`: the row datatypes;
- `Accounts`: balances, the transfer of a purchase, the upload bonus, and the
  total of all balances;
- `Catalog`: lookup by id, the price a buyer pays, the listing;
- `Auth`: the `Authorization` header and the token table.

The object invariant `Valid()` (the predicate `Server.Consistent`) says:

- balances are never negative;
- every token, item author and logged buyer is a registered user;
- item ids are increasing and below the next id;
- only paid purchases are logged.

Every endpoint keeps this invariant. Since a seller always has a row, a paid
purchase conserves the total of all points (`DownloadItem`, with
`Accounts.TransferTotal`).

Inputs the server takes from its environment are parameters of the model:

- the SHA-256 password hash: `Register` and `Login` receive the hash;
- the random token and its expiry time: `Login` receives both;
- the clock: `now`, compared with a token's expiry and stored as an item's
  creation time;
- the result of base64-decoding the uploaded archive: `None` when decoding
  failed.

## Model

| member | source | states |
|---|---|---|
| Accounts.PointsAfterSet | marketplace_server.py:135-148 | reading a balance back after an update gives the new value for an existing user; for an unknown user, and for every other user, the old reading (0 when there is no row) |
| Accounts.SetPoints | marketplace_server.py:143-148 | an update keeps the set of users, changes only the named user's points, and changes no row when that user is unknown |
| Accounts.TotalSetPoints | marketplace_server.py:143-148 | overwriting one existing balance changes the total of all points by exactly the difference |
| Accounts.TotalInsert | marketplace_server.py:164-166 | inserting a new user row raises the total by that row's balance |
| Accounts.TransferEffect | marketplace_server.py:341-346 | in a paid purchase between two different users the buyer loses the price, the seller (if registered) gains it, and every other balance is unchanged |
| Accounts.TransferTotal | marketplace_server.py:341-346 | the two updates of a paid purchase conserve the total when the seller has a row; when the seller has none, the price leaves circulation |
| Accounts.Bonus | marketplace_server.py:287 | the bonus is a tenth of the price, truncated toward zero: 10*b <= price < 10*b + 10 for prices of zero or more, and b <= 0 for negative prices |
| Accounts.BonusPositive | marketplace_server.py:287-288 | a bonus is paid exactly when the price is at least 10 |
| Accounts.Credit | marketplace_server.py:286-290 | the bonus step raises only the seller's balance, and only when the bonus is positive and the seller has a row; it keeps the set of users, every other user's row, and the seller's password hash |
| Accounts.TotalCredit | marketplace_server.py:286-290 | the bonus step raises the total by the bonus when it is paid and leaves it alone otherwise |
| Catalog.FindItem | marketplace_server.py:319-324 | the lookup returns the position of the first row with the requested id, and returns nothing exactly when no row has that id |
| Catalog.FindItemUnique | marketplace_server.py:44 | when ids increase along the table, the row found is the one carrying the id |
| Catalog.FindAppended | marketplace_server.py:273-293 | an item appended under a fresh id is found at the end of the table |
| Catalog.DownloadedKeepsLookup | marketplace_server.py:352-353 | bumping one row's download counter leaves every lookup by id answering as before |
| Catalog.ListingExact | marketplace_server.py:229-247 | a summary is listed for type t exactly when some row of type t has that summary (both directions) |
| Catalog.ListingTyped | marketplace_server.py:229-234 | every listed summary has the requested type |
| Auth.RemoveAll | marketplace_server.py:215 | removing every occurrence of the scheme never lengthens the string and keeps only characters of the original |
| Auth.RemoveAllFree | marketplace_server.py:215 | a string with no occurrence of the scheme is returned unchanged |
| Auth.BearerToken | marketplace_server.py:212-215 | no token is read exactly when the header is missing or does not start with "Bearer "; otherwise the token is the header with every occurrence removed, and it is at least 7 characters shorter than the header |
| Auth.BearerRoundTrip | marketplace_server.py:190 | a header made of "Bearer " and a token with no space gives back exactly that token; the URL-safe tokens of line 190 have no space |
| Auth.RemoveAllInner | marketplace_server.py:215 | when neither side holds a space, an occurrence of the scheme between them is dropped as well, because every occurrence ends in a space |
| Auth.BearerRemovesEveryOccurrence | marketplace_server.py:212-215 | the header "Bearer " + a + "Bearer " + b gives the token a + b when a and b hold no space: `replace` drops every occurrence, not only the leading one |
| Auth.LiveAfterLogin | marketplace_server.py:193-198 | after a login's delete and insert, the new token names the user until its expiry, the user's older tokens are refused, every other token answers the check as before, and the new token is the only one naming the user |
| Server.ConsistentAfterUpload | marketplace_server.py:273-290 | appending an item under the next id by a registered author, and then paying the bonus, keeps the table invariant |
| Server.ConsistentAfterCharge | marketplace_server.py:335-350 | a transfer from a buyer who can afford the price to a different seller, logged under an existing item id, keeps the table invariant |
| Server.Marketplace.constructor | marketplace_server.py:26-80 | the database starts with four empty tables and the id counter at 1, and satisfies the invariant |
| Server.Marketplace.Authorize | marketplace_server.py:212-219 | a request whose token is live and names a non-empty user is accepted for that user, and only such a request is; a missing or malformed header fails with MissingCredentials, and an unknown or expired token or the empty user id with InvalidToken; no other error occurs; under the invariant the user is registered |
| Server.Marketplace.UpdateUserPoints | marketplace_server.py:143-148 | only the users table changes, as SetPoints says |
| Server.Marketplace.Publish | marketplace_server.py:273-290 | the item row is appended under the next id, the counter advances, the seller is credited the bonus only when it is positive, the other tables are unchanged, and the invariant is kept |
| Server.Marketplace.Charge | marketplace_server.py:341-350 | the buyer is debited and the seller credited as Transfer says, exactly one transaction (buyer, item, price) is appended, items and tokens are unchanged, and the invariant is kept |
| Server.Marketplace.Register | marketplace_server.py:151-171 | an existing id fails with every table unchanged; otherwise exactly one user with 100 points is added, nothing else changes, and the total rises by 100 |
| Server.Marketplace.Login | marketplace_server.py:173-207 | an unknown user or wrong hash fails with no change; a token already held by another user fails with no change; otherwise the user's old tokens are removed, exactly one new token is theirs, other users' tokens are untouched, and the returned points are the stored balance |
| Server.Marketplace.GetPoints | marketplace_server.py:209-222 | an unauthorised request fails with the authorisation error; otherwise it returns the user's stored balance, which is never negative |
| Server.Marketplace.ListItems | marketplace_server.py:224-250 | the loop collects exactly the listing of the requested type, in table order |
| Server.Marketplace.UploadItem | marketplace_server.py:252-301 | authorisation and decode failures change nothing; otherwise one item is appended under the next id with author the token's user, description defaulting to "" and price to 0, the seller receives the bonus only when it is positive, the new id is findable, and the total rises by exactly the paid bonus |
| Server.Marketplace.DownloadItem | marketplace_server.py:303-365 | authorisation failure, an unknown id and a balance below the effective price change nothing; otherwise only the bought item's counter rises by one; when the price is positive the buyer loses it, the seller gains it and one transaction (buyer, item, price) is appended; the total of all points is conserved |
| Server.LoginThenCheckBalance | marketplace_server.py:180-222 | after a successful login, asking for the balance with the issued token returns the balance login reported, except for the empty user id, which is refused |
| Server.PublishThenFetch | marketplace_server.py:252-365 | an author who downloads the item just published gets the same archive back, pays nothing, and adds no transaction, and the item's counter is 1 |

## Left out

- SQLite connections, cursors, commits and SQL text: each table is a map or a sequence, and each endpoint runs as one sequential step.
- `upload_item` and `download_item` change points through separate connections, outside the transaction that inserts the item or bumps the counter (lines 289-290, 342-346). The model treats these writes as taking effect in order. It does not model SQLite locking between the connections. In `upload_item` the INSERT (line 273) opens a write transaction on `conn` that stays open until the commit at line 292. The bonus UPDATE at line 290 runs on a second connection, so SQLite would presumably make it wait for that lock and then fail with "database is locked". The exception would leave the item uncommitted, so every upload that earns a bonus would fail. This reading is not executed, and the model does not capture it: `UploadItem` succeeds and pays the bonus.
- `ORDER BY created_at DESC` in `list_items` (line 233): `ListItems` returns the matching rows in table order.
- SHA-256 in `hash_password` (line 122): the endpoints receive the hash, not the password.
- Token randomness (`secrets.token_urlsafe`, line 190): `Login` receives the token.
- Token expiry (line 191): `Login` receives the expiry time. The model does not compute "today at 23:59:59" from a local clock. It also does not model that SQLite compares that text with its own UTC clock text as strings (line 128). Expiry is an ordered `Time`.
- Base64 (lines 266 and 359): the upload receives the decoded archive, or `None` when decoding failed. The download returns the raw bytes.
- Metadata: only `description` and `price` are read. Other keys, `json.dumps` (line 283), non-integer prices and a `null` description are not modelled.
- Accounts.Bonus: `int(price * 0.1)` is modelled as exact truncation of price/10. It does not model floating-point rounding for very large prices.
- Integers are unbounded. SQLite's 64-bit `INTEGER` overflow is not modelled.
- Creation timestamps of `users` and `transactions`, and the ids of `transactions`, are not modelled.
- Server.Consistent: the invariant only bounds a transaction's item id below the next id. It does not claim a foreign key (line 65).
- FastAPI routing, CORS middleware, Pydantic request models, the default `item_type="macro"` query parameter and the exact HTTP status codes and messages (lines 86-113 and the `HTTPException` texts). Errors are reduced to one `Error` value per kind.
- The Streamlit admin UI (lines 371-650): among other things, its manual balance override and item deletion. Item deletion (line 616) keeps the invariant. The manual override (lines 577-582) does not: its `number_input` has no lower bound, so it can store a negative balance, and no endpoint model allows that.
- Uvicorn start-up and the background server thread (lines 656-691).
