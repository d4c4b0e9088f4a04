/** The rows of the marketplace database: one datatype per table row,
    and the values the server treats as opaque (password hashes, tokens,
    clock readings, archive bytes). */
module Rows {

  datatype Option<+T> = None | Some(value: T) {
    /** The value, or `default` when there is none (Python's `dict.get(key, default)`). */
    function GetOr(default: T): T {
      if Some? then value else default
    }
  }

  type UserId = string
  type Token = string
  /** A clock reading; only its order matters. */
  type Time = int
  /** Archive bytes, after base64 decoding; never inspected. */
  type Bytes = seq<bv8>

  /** Points credited to every newly registered account. */
  const InitialPoints: int := 100

  /** A row of `users`: the stored password hash and the point balance. */
  datatype User = User(passwordHash: string, points: int)

  /** A row of `tokens`, keyed by the token itself. */
  datatype TokenRow = TokenRow(userId: UserId, expiresAt: Time)

  /** The two metadata keys the server reads; `None` is an absent key. */
  datatype Metadata = Metadata(description: Option<string>, price: Option<int>)

  /** A row of `items` without its id. */
  datatype Item = Item(
    itemType: string,
    name: string,
    author: UserId,
    description: string,
    price: int,
    zipData: Bytes,
    metadata: Metadata,
    createdAt: Time,
    downloadCount: nat)

  datatype ItemRow = ItemRow(id: int, item: Item)

  /** A row of `transactions` without its id. */
  datatype Transaction = Transaction(buyer: UserId, itemId: int, price: int)

  /** What the item listing reports of one row: everything but the archive and the metadata. */
  datatype Summary = Summary(
    id: int,
    itemType: string,
    name: string,
    author: UserId,
    description: string,
    price: int,
    downloadCount: nat,
    createdAt: Time)
}
