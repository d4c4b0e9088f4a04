/** The `users` table as a map from user id to row: reading and writing a
    balance, the transfer a paid download performs, the upload bonus, and
    the total of all balances with the lemmas that track it. */
module Accounts {
  import opened Rows

  /** The login query: a row for `u` with exactly this password hash. */
  predicate PasswordMatches(users: map<UserId, User>, u: UserId, passwordHash: string) {
    u in users && users[u].passwordHash == passwordHash
  }

  /** get_user_points: the balance of `u`, or 0 when `u` has no row. */
  function PointsOf(users: map<UserId, User>, u: UserId): int {
    if u in users then users[u].points else 0
  }

  /** update_user_points: `UPDATE users SET points = p WHERE user_id = u`,
      which matches no row when `u` is unknown. */
  function SetPoints(users: map<UserId, User>, u: UserId, p: int): (r: map<UserId, User>)
    ensures r.Keys == users.Keys
    ensures u in users ==> r[u] == users[u].(points := p)
    ensures forall v :: v in users && v != u ==> r[v] == users[v]
  {
    if u in users then users[u := users[u].(points := p)] else users
  }

  /** Reading a balance after writing one. */
  lemma PointsAfterSet(users: map<UserId, User>, u: UserId, p: int, v: UserId)
    ensures PointsOf(SetPoints(users, u, p), v) == if v == u && u in users then p else PointsOf(users, v)
  {
  }

  /** The two writes of a paid download: debit the buyer, then read the
      seller's balance and credit it. */
  function Transfer(users: map<UserId, User>, buyer: UserId, seller: UserId, price: int): map<UserId, User> {
    var debited := SetPoints(users, buyer, PointsOf(users, buyer) - price);
    SetPoints(debited, seller, PointsOf(debited, seller) + price)
  }

  /** Who gains and loses what in a transfer between two different users. */
  lemma TransferEffect(users: map<UserId, User>, buyer: UserId, seller: UserId, price: int, v: UserId)
    requires buyer in users && buyer != seller
    ensures Transfer(users, buyer, seller, price).Keys == users.Keys
    ensures PointsOf(Transfer(users, buyer, seller, price), v) ==
      if v == buyer then PointsOf(users, buyer) - price
      else if v == seller && seller in users then PointsOf(users, seller) + price
      else PointsOf(users, v)
  {
  }

  /** int(price * 0.1): a tenth of the price, truncated toward zero. */
  function Bonus(price: int): (b: int)
    ensures 0 <= price ==> 0 <= 10 * b <= price < 10 * b + 10
    ensures price < 0 ==> 10 * b - 10 < price <= 10 * b <= 0
  {
    if price >= 0 then price / 10 else -((-price) / 10)
  }

  /** The bonus step of an upload: `u` is credited `bonus` only when it is positive. */
  function Credit(users: map<UserId, User>, u: UserId, bonus: int): (r: map<UserId, User>)
    ensures r.Keys == users.Keys
    ensures PointsOf(r, u) == if bonus > 0 && u in users then PointsOf(users, u) + bonus else PointsOf(users, u)
    ensures forall v :: v != u ==> PointsOf(r, v) == PointsOf(users, v)
    ensures forall v :: v in users && v != u ==> r[v] == users[v]
    ensures u in users ==> r[u].passwordHash == users[u].passwordHash
  {
    if bonus > 0 then SetPoints(users, u, PointsOf(users, u) + bonus) else users
  }

  /** A credit raises the total by the bonus when it is paid. */
  lemma TotalCredit(users: map<UserId, User>, u: UserId, bonus: int)
    requires u in users
    ensures Total(Credit(users, u, bonus)) == Total(users) + (if bonus > 0 then bonus else 0)
  {
    if bonus > 0 {
      TotalSetPoints(users, u, PointsOf(users, u) + bonus);
    }
  }

  /** Only prices of at least 10 earn the seller a bonus. */
  lemma BonusPositive(price: int)
    ensures Bonus(price) > 0 <==> price >= 10
  {
  }

  /** The sum of the balances of the users in `keys`. */
  ghost function SumOver(users: map<UserId, User>, keys: set<UserId>): int
    decreases keys
  {
    if keys == {} then 0
    else
      var u :| u in keys;
      PointsOf(users, u) + SumOver(users, keys - {u})
  }

  /** All points in circulation. */
  ghost function Total(users: map<UserId, User>): int {
    SumOver(users, users.Keys)
  }

  /** Any member of `keys` can be taken out of the sum first. */
  lemma {:induction false} SumOverRemove(users: map<UserId, User>, keys: set<UserId>, k: UserId)
    requires k in keys
    ensures SumOver(users, keys) == PointsOf(users, k) + SumOver(users, keys - {k})
    decreases keys
  {
    var u :| u in keys && SumOver(users, keys) == PointsOf(users, u) + SumOver(users, keys - {u});
    if u != k {
      SumOverRemove(users, keys - {u}, k);
      SumOverRemove(users, keys - {k}, u);
      assert keys - {u} - {k} == keys - {k} - {u};
    }
  }

  /** The sum depends only on the balances of the users in `keys`. */
  lemma {:induction false} SumOverFrame(a: map<UserId, User>, b: map<UserId, User>, keys: set<UserId>)
    requires forall v :: v in keys ==> PointsOf(a, v) == PointsOf(b, v)
    ensures SumOver(a, keys) == SumOver(b, keys)
    decreases keys
  {
    if keys != {} {
      var u :| u in keys && SumOver(a, keys) == PointsOf(a, u) + SumOver(a, keys - {u});
      SumOverRemove(b, keys, u);
      SumOverFrame(a, b, keys - {u});
    }
  }

  /** Overwriting one existing balance changes the total by the difference. */
  lemma TotalSetPoints(users: map<UserId, User>, u: UserId, p: int)
    requires u in users
    ensures Total(SetPoints(users, u, p)) == Total(users) - users[u].points + p
  {
    var after := SetPoints(users, u, p);
    SumOverRemove(users, users.Keys, u);
    SumOverRemove(after, users.Keys, u);
    forall v | v in users.Keys - {u} ensures PointsOf(after, v) == PointsOf(users, v) {
      PointsAfterSet(users, u, p, v);
    }
    SumOverFrame(after, users, users.Keys - {u});
  }

  /** Adding a new row adds its balance to the total. */
  lemma TotalInsert(users: map<UserId, User>, u: UserId, row: User)
    requires u !in users
    ensures Total(users[u := row]) == Total(users) + row.points
  {
    var after := users[u := row];
    assert after.Keys == users.Keys + {u};
    SumOverRemove(after, after.Keys, u);
    assert after.Keys - {u} == users.Keys;
    SumOverFrame(after, users, users.Keys);
  }

  /** A transfer between two different users conserves the total when the
      seller has a row; otherwise the price leaves circulation. */
  lemma TransferTotal(users: map<UserId, User>, buyer: UserId, seller: UserId, price: int)
    requires buyer in users && buyer != seller
    ensures Total(Transfer(users, buyer, seller, price)) ==
      if seller in users then Total(users) else Total(users) - price
  {
    var debited := SetPoints(users, buyer, PointsOf(users, buyer) - price);
    TotalSetPoints(users, buyer, PointsOf(users, buyer) - price);
    if seller in users {
      TotalSetPoints(debited, seller, PointsOf(debited, seller) + price);
    }
  }
}
