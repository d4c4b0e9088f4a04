/** The marketplace back end: the four database tables as fields of one
    object, and one method per HTTP endpoint that reads or rewrites them. */
module Server {
  import opened Rows
  import opened Accounts
  import opened Catalog
  import opened Auth

  /** The errors the endpoints raise, with the HTTP status each carries. */
  datatype Error =
    | MissingCredentials            // 401: no Authorization header, or not "Bearer ..."
    | InvalidToken                  // 401: token unknown, expired, or naming the empty user id
    | DuplicateUser                 // 400: register with a user id already taken
    | WrongCredentials              // 401: login with an unknown user or a wrong password
    | TokenConflict                 // the new token is already another user's (PRIMARY KEY violation)
    | BadArchive                    // 400: the archive is not valid base64
    | ItemNotFound                  // 404: no item with that id
    | InsufficientPoints(needed: int, held: int)  // 400

  datatype Result<+T> = Ok(value: T) | Err(error: Error)

  /** The body of a successful login. */
  datatype Session = Session(token: Token, points: int, userId: UserId)
  /** The body of a successful upload. */
  datatype Upload = Upload(itemId: int, points: int)
  /** The body of a successful download. */
  datatype Download = Download(zipData: Bytes, points: int)

  /** The invariant of the tables: balances are never negative; every
      token, item author and buyer is a registered user; item ids are
      increasing and below the next id; only paid purchases are logged. */
  ghost predicate Consistent(users: map<UserId, User>, tokens: map<Token, TokenRow>, items: seq<ItemRow>,
                             transactions: seq<Transaction>, nextItemId: int)
  {
    1 <= nextItemId &&
    (forall u :: u in users ==> users[u].points >= 0) &&
    (forall t :: t in tokens ==> tokens[t].userId in users) &&
    (forall k :: 0 <= k < |items| ==> 1 <= items[k].id < nextItemId && items[k].item.author in users) &&
    (forall j, k :: 0 <= j < k < |items| ==> items[j].id < items[k].id) &&
    (forall j :: 0 <= j < |transactions| ==>
       transactions[j].buyer in users && 1 <= transactions[j].itemId < nextItemId && transactions[j].price > 0)
  }

  /** An upload by a registered author, with its bonus, keeps the invariant. */
  lemma ConsistentAfterUpload(users: map<UserId, User>, tokens: map<Token, TokenRow>, items: seq<ItemRow>,
                              transactions: seq<Transaction>, nextItemId: int, row: ItemRow, bonus: int)
    requires Consistent(users, tokens, items, transactions, nextItemId)
    requires row.id == nextItemId && row.item.author in users
    ensures Consistent(Credit(users, row.item.author, bonus), tokens, items + [row], transactions, nextItemId + 1)
  {
  }

  /** Counting a download keeps the invariant. */
  lemma ConsistentDownloaded(users: map<UserId, User>, tokens: map<Token, TokenRow>, items: seq<ItemRow>,
                             transactions: seq<Transaction>, nextItemId: int, k: nat)
    requires Consistent(users, tokens, items, transactions, nextItemId)
    requires k < |items|
    ensures Consistent(users, tokens, items[k := Downloaded(items[k])], transactions, nextItemId)
  {
  }

  /** A paid purchase keeps the invariant: the transfer goes from a buyer
      who can afford it to a different seller, and the purchase is logged
      under an existing id. */
  lemma ConsistentAfterCharge(users: map<UserId, User>, tokens: map<Token, TokenRow>, items: seq<ItemRow>,
                              transactions: seq<Transaction>, nextItemId: int,
                              buyer: UserId, seller: UserId, price: int, itemId: int)
    requires Consistent(users, tokens, items, transactions, nextItemId)
    requires buyer in users && buyer != seller && 0 < price <= PointsOf(users, buyer)
    requires 1 <= itemId < nextItemId
    ensures Consistent(Transfer(users, buyer, seller, price), tokens, items,
                       transactions + [Transaction(buyer, itemId, price)], nextItemId)
  {
  }

  class Marketplace {
    var users: map<UserId, User>
    var tokens: map<Token, TokenRow>
    var items: seq<ItemRow>
    var transactions: seq<Transaction>
    /** The id the next uploaded item receives (AUTOINCREMENT). */
    var nextItemId: int

    /** What every endpoint keeps true of the tables. */
    ghost predicate Valid()
      reads this
    {
      Consistent(users, tokens, items, transactions, nextItemId)
    }

    /** init_db: four empty tables. */
    constructor ()
      ensures Valid()
      ensures users == map[] && tokens == map[] && items == [] && transactions == [] && nextItemId == 1
    {
      users, tokens, items, transactions, nextItemId := map[], map[], [], [], 1;
    }

    /** The check `get_points`, `upload_item` and `download_item` open with:
        the header must carry the scheme, and the token left after removing
        it must be live. `if not user_id` also turns away the empty user id. */
    function Authorize(header: Option<string>, now: Time): (r: Result<UserId>)
      reads this
      ensures r.Err? ==> r.error == MissingCredentials || r.error == InvalidToken
      ensures r == Err(MissingCredentials) <==> BearerToken(header).None?
      ensures r.Ok? ==> r.value != "" && BearerToken(header).Some? &&
                        LiveUser(tokens, BearerToken(header).value, now) == Some(r.value)
      ensures BearerToken(header).Some? && LiveUser(tokens, BearerToken(header).value, now).Some? &&
              LiveUser(tokens, BearerToken(header).value, now).value != "" ==>
                r == Ok(LiveUser(tokens, BearerToken(header).value, now).value)
      ensures Valid() && r.Ok? ==> r.value in users
    {
      match BearerToken(header)
      case None => Err(MissingCredentials)
      case Some(t) =>
        match LiveUser(tokens, t, now)
        case None => Err(InvalidToken)
        case Some(u) => if u == "" then Err(InvalidToken) else Ok(u)
    }

    /** update_user_points. */
    method UpdateUserPoints(u: UserId, p: int)
      modifies this
      ensures users == SetPoints(old(users), u, p)
      ensures tokens == old(tokens) && items == old(items)
      ensures transactions == old(transactions) && nextItemId == old(nextItemId)
    {
      users := SetPoints(users, u, p);
    }

    /** POST /api/register. */
    method Register(userId: UserId, passwordHash: string) returns (r: Result<()>)
      requires Valid()
      modifies this
      ensures Valid()
      ensures userId in old(users) ==> r == Err(DuplicateUser) && unchanged(this)
      ensures userId !in old(users) ==>
        && r == Ok(())
        && users == old(users)[userId := User(passwordHash, InitialPoints)]
        && tokens == old(tokens) && items == old(items)
        && transactions == old(transactions) && nextItemId == old(nextItemId)
        && Total(users) == Total(old(users)) + InitialPoints
    {
      if userId in users {
        return Err(DuplicateUser);
      }
      TotalInsert(users, userId, User(passwordHash, InitialPoints));
      users := users[userId := User(passwordHash, InitialPoints)];
      r := Ok(());
    }

    /** POST /api/login: replaces all of the user's tokens by `token`, which
        stays live until `expiresAt`. */
    method Login(userId: UserId, passwordHash: string, token: Token, expiresAt: Time) returns (r: Result<Session>)
      requires Valid()
      modifies this
      ensures Valid()
      ensures !PasswordMatches(old(users), userId, passwordHash) ==> r == Err(WrongCredentials) && unchanged(this)
      ensures PasswordMatches(old(users), userId, passwordHash) && token in RevokeAll(old(tokens), userId) ==>
        r == Err(TokenConflict) && unchanged(this)
      ensures PasswordMatches(old(users), userId, passwordHash) && token !in RevokeAll(old(tokens), userId) ==>
        && r == Ok(Session(token, old(users)[userId].points, userId))
        && tokens == RevokeAll(old(tokens), userId)[token := TokenRow(userId, expiresAt)]
        && users == old(users) && items == old(items)
        && transactions == old(transactions) && nextItemId == old(nextItemId)
      ensures r.Ok? ==> r.value.points == PointsOf(users, userId)
      ensures r.Ok? ==> token in tokens && forall t :: t in tokens ==> (tokens[t].userId == userId <==> t == token)
      ensures r.Ok? ==> forall t :: t in old(tokens) && old(tokens)[t].userId != userId ==>
        t in tokens && tokens[t] == old(tokens)[t]
    {
      if !(userId in users && users[userId].passwordHash == passwordHash) {
        return Err(WrongCredentials);
      }
      var points := users[userId].points;
      var remaining := RevokeAll(tokens, userId);
      if token in remaining {
        // The INSERT fails and the uncommitted DELETE is rolled back with it.
        return Err(TokenConflict);
      }
      tokens := remaining[token := TokenRow(userId, expiresAt)];
      r := Ok(Session(token, points, userId));
    }

    /** GET /api/points. */
    method GetPoints(header: Option<string>, now: Time) returns (r: Result<int>)
      requires Valid()
      ensures Authorize(header, now).Err? ==> r == Err(Authorize(header, now).error)
      ensures Authorize(header, now).Ok? ==> r == Ok(PointsOf(users, Authorize(header, now).value))
      ensures r.Ok? ==> r.value >= 0
    {
      var auth := Authorize(header, now);
      if auth.Err? {
        return Err(auth.error);
      }
      r := Ok(PointsOf(users, auth.value));
    }

    /** GET /api/items: the rows of one type, collected one by one. */
    method ListItems(itemType: string) returns (r: seq<Summary>)
      ensures r == Listing(items, itemType)
    {
      r := [];
      var i := 0;
      while i < |items|
        invariant 0 <= i <= |items|
        invariant r == Listing(items[..i], itemType)
      {
        var row := items[i];
        assert items[..i + 1][..i] == items[..i];
        if row.item.itemType == itemType {
          r := r + [Summarize(row)];
        }
        i := i + 1;
      }
      assert items[..i] == items;
    }

    /** The writes of a successful upload (lines 273-290): the new row,
        then the seller's bonus when it is positive. */
    method Publish(row: ItemRow, bonus: int)
      requires Valid()
      requires row.id == nextItemId && row.item.author in users
      modifies this
      ensures Valid()
      ensures items == old(items) + [row] && nextItemId == old(nextItemId) + 1
      ensures users == Credit(old(users), row.item.author, bonus)
      ensures tokens == old(tokens) && transactions == old(transactions)
    {
      ConsistentAfterUpload(users, tokens, items, transactions, nextItemId, row, bonus);
      items := items + [row];
      nextItemId := nextItemId + 1;
      if bonus > 0 {
        var current := PointsOf(users, row.item.author);
        UpdateUserPoints(row.item.author, current + bonus);
      }
    }

    /** POST /api/upload: `zip` is the decoded archive, `None` when the
        base64 text did not decode. The seller gets a tenth of the price. */
    method UploadItem(header: Option<string>, itemType: string, name: string, zip: Option<Bytes>,
                      metadata: Metadata, now: Time) returns (r: Result<Upload>)
      requires Valid()
      modifies this
      ensures Valid()
      ensures old(Authorize(header, now)).Err? ==> r == Err(old(Authorize(header, now)).error) && unchanged(this)
      ensures old(Authorize(header, now)).Ok? && zip.None? ==> r == Err(BadArchive) && unchanged(this)
      ensures old(Authorize(header, now)).Ok? && zip.Some? ==>
        var seller := old(Authorize(header, now)).value;
        var price := metadata.price.GetOr(0);
        var row := ItemRow(old(nextItemId), Item(itemType, name, seller, metadata.description.GetOr(""),
                                                 price, zip.value, metadata, now, 0));
        && r == Ok(Upload(old(nextItemId), PointsOf(users, seller)))
        && items == old(items) + [row]
        && nextItemId == old(nextItemId) + 1
        && users == Credit(old(users), seller, Bonus(price))
        && tokens == old(tokens) && transactions == old(transactions)
      ensures r.Ok? ==> FindItem(items, r.value.itemId) == Some(|items| - 1)
      ensures r.Ok? ==> Total(users) == Total(old(users)) + (if Bonus(metadata.price.GetOr(0)) > 0 then Bonus(metadata.price.GetOr(0)) else 0)
    {
      var auth := Authorize(header, now);
      if auth.Err? {
        return Err(auth.error);
      }
      if zip.None? {
        return Err(BadArchive);
      }
      var seller := auth.value;
      var price := metadata.price.GetOr(0);
      var id := nextItemId;
      var row := ItemRow(id, Item(itemType, name, seller, metadata.description.GetOr(""), price, zip.value, metadata, now, 0));
      FindAppended(items, row);
      TotalCredit(users, seller, Bonus(price));
      Publish(row, Bonus(price));
      r := Ok(Upload(id, PointsOf(users, seller)));
    }

    /** The writes of a paid purchase (lines 341-350): debit the buyer,
        credit the seller, log the purchase. */
    method Charge(buyer: UserId, seller: UserId, price: int, itemId: int)
      requires Valid()
      requires buyer in users && buyer != seller && 0 < price <= PointsOf(users, buyer)
      requires 1 <= itemId < nextItemId
      modifies this
      ensures Valid()
      ensures users == Transfer(old(users), buyer, seller, price)
      ensures transactions == old(transactions) + [Transaction(buyer, itemId, price)]
      ensures tokens == old(tokens) && items == old(items) && nextItemId == old(nextItemId)
    {
      ConsistentAfterCharge(users, tokens, items, transactions, nextItemId, buyer, seller, price, itemId);
      var current := PointsOf(users, buyer);
      UpdateUserPoints(buyer, current - price);
      var sellerPoints := PointsOf(users, seller);
      UpdateUserPoints(seller, sellerPoints + price);
      transactions := transactions + [Transaction(buyer, itemId, price)];
    }

    /** POST /api/download: a purchase. Authors pay nothing; a paid purchase
        moves the price from buyer to seller and is logged; every successful
        download bumps the item's counter. */
    method DownloadItem(header: Option<string>, itemId: int, now: Time) returns (r: Result<Download>)
      requires Valid()
      modifies this
      ensures Valid()
      ensures old(Authorize(header, now)).Err? ==> r == Err(old(Authorize(header, now)).error) && unchanged(this)
      ensures old(Authorize(header, now)).Ok? && FindItem(old(items), itemId).None? ==>
        r == Err(ItemNotFound) && unchanged(this)
      ensures old(Authorize(header, now)).Ok? && FindItem(old(items), itemId).Some? ==>
        var buyer := old(Authorize(header, now)).value;
        var k := FindItem(old(items), itemId).value;
        var item := old(items)[k].item;
        var price := PriceFor(item, buyer);
        var balance := PointsOf(old(users), buyer);
        if balance < price then
          r == Err(InsufficientPoints(price, balance)) && unchanged(this)
        else
          && r == Ok(Download(item.zipData, PointsOf(users, buyer)))
          && items == old(items)[k := Downloaded(old(items)[k])]
          && (price > 0 ==> users == Transfer(old(users), buyer, item.author, price)
                            && PointsOf(users, buyer) == balance - price
                            && PointsOf(users, item.author) == PointsOf(old(users), item.author) + price
                            && transactions == old(transactions) + [Transaction(buyer, itemId, price)])
          && (price <= 0 ==> users == old(users) && transactions == old(transactions))
          && tokens == old(tokens) && nextItemId == old(nextItemId)
      ensures r.Ok? ==> Total(users) == Total(old(users))
    {
      var auth := Authorize(header, now);
      if auth.Err? {
        return Err(auth.error);
      }
      var buyer := auth.value;
      var found := FindItem(items, itemId);
      if found.None? {
        return Err(ItemNotFound);
      }
      var k := found.value;
      var row := items[k];
      var price := row.item.price;
      if row.item.author == buyer {
        price := 0;
      }
      var current := PointsOf(users, buyer);
      if current < price {
        return Err(InsufficientPoints(price, current));
      }
      if price > 0 {
        TransferTotal(users, buyer, row.item.author, price);
        TransferEffect(users, buyer, row.item.author, price, buyer);
        TransferEffect(users, buyer, row.item.author, price, row.item.author);
        Charge(buyer, row.item.author, price, itemId);
      }
      ConsistentDownloaded(users, tokens, items, transactions, nextItemId, k);
      items := items[k := Downloaded(row)];
      r := Ok(Download(row.item.zipData, PointsOf(users, buyer)));
    }
  }

  /** A client that logs in and then asks for its balance with the token it
      was given sees the balance login reported; a user whose id is the
      empty string is turned away even though the login succeeded. */
  method LoginThenCheckBalance(m: Marketplace, userId: UserId, passwordHash: string, token: Token,
                               expiresAt: Time, now: Time) returns (session: Result<Session>, balance: Result<int>)
    requires m.Valid()
    requires ' ' !in token && now < expiresAt
    modifies m
    ensures m.Valid()
    ensures session.Ok? && userId != "" ==> balance == Ok(session.value.points)
    ensures session.Ok? && userId == "" ==> balance == Err(InvalidToken)
  {
    session := m.Login(userId, passwordHash, token, expiresAt);
    if session.Err? {
      return session, Err(session.error);
    }
    BearerRoundTrip(token);
    balance := m.GetPoints(Some(Scheme + token), now);
  }

  /** An author who publishes an item and downloads it straight away gets
      the same archive back, pays nothing, and is the item's one download. */
  method PublishThenFetch(m: Marketplace, header: Option<string>, itemType: string, name: string, zip: Bytes,
                          metadata: Metadata, now: Time) returns (published: Result<Upload>, fetched: Result<Download>)
    requires m.Valid()
    modifies m
    ensures m.Valid()
    ensures published.Ok? ==> fetched.Ok? && fetched.value == Download(zip, published.value.points)
    ensures published.Ok? ==> |m.items| > 0 && m.items[|m.items| - 1].item.downloadCount == 1
    ensures published.Ok? ==> m.transactions == old(m.transactions)
  {
    ghost var auth := m.Authorize(header, now);
    published := m.UploadItem(header, itemType, name, Some(zip), metadata, now);
    if published.Err? {
      return published, Err(published.error);
    }
    ghost var k := |m.items| - 1;
    assert m.Authorize(header, now) == auth;
    assert m.items[k].item.author == auth.value && m.items[k].item.zipData == zip;
    assert PriceFor(m.items[k].item, auth.value) == 0;
    fetched := m.DownloadItem(header, published.value.itemId, now);
  }
}
