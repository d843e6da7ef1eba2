/** The hand-off from the storefront page to the bot: the deep link the page builds, read back
    by the bot's `/start` handling, and the order request the page posts, checked by the
    bot's HTTP validation. */
module Flow {
  import opened Wrappers
  import opened Strings
  import opened Js
  import opened Catalog
  import opened Orders
  import opened Storefront

  /** The decimal text of an integer holds no `_` and no space. */
  lemma DecimalHasNoSeparator(n: int)
    ensures '_' !in Decimal(n) && ' ' !in Decimal(n)
  {
    var ds := NatToDecimal(if n < 0 then -n else n);
    assert forall i :: 0 <= i < |ds| ==> ds[i] != '_' && ds[i] != ' ';
  }

  /** `/start <param>` carries `param` as the start parameter when it holds no space. */
  lemma {:induction false} StartParamOfCommand(param: string)
    requires ' ' !in param
    ensures StartParam("/start " + param) == Some(param)
  {
    assert "/start " + param == "/start" + [' '] + param;
    SplitFirst("/start", ' ', param);
    SplitNone(param, ' ');
  }

  /** The link the page builds after the API created an order, `order_<order id>_<token>`,
      reaches the bot as a request for the PAINTING whose id is the order id, with the token
      intact. */
  lemma {:induction false} ApiLinkReadsOrderIdAsPaintingId(orderId: int, token: string)
    requires IsHexToken(token)
    ensures ParseStartParam(ApiStartParam(orderId, token)) == StartRequest(Number(orderId), Some(token))
  {
    var a := Decimal(orderId);
    DecimalHasNoSeparator(orderId);
    HexTokenHasNoSeparator(token);
    assert ApiStartParam(orderId, token) == "order_" + a + "_" + token + [];
    ParseOrderWithToken(a, token, []);
    assert a + [] == a;
    ParseIntOfDecimal(orderId, []);
  }

  /** The link the page builds without the API, `order_<painting id>`, reaches the bot as a
      request for that painting, with no token. */
  lemma {:induction false} FallbackLinkReadsPaintingId(paintingId: int)
    ensures ParseStartParam(FallbackStartParam(paintingId)) == StartRequest(Number(paintingId), None)
  {
    var a := Decimal(paintingId);
    DecimalHasNoSeparator(paintingId);
    ParseOrderWithoutToken(a);
    assert a + [] == a;
    ParseIntOfDecimal(paintingId, []);
  }

  /** What the bot decides for a start parameter that names the number `id` as the painting:
      no painting outside the catalog's id range, and otherwise the painting with that id. */
  lemma {:induction false} DecideById(orders: map<int, Order>, lastId: int, param: string, id: int)
    requires ParseStartParam(param).paintingId == Number(id)
    ensures Decide(orders, lastId, param).NoPainting? <==> !IsCatalogId(id)
    ensures !Decide(orders, lastId, param).NoPainting? ==> Decide(orders, lastId, param).painting == Paintings[id - 1]
  {
    FindByIdExact(Number(id));
  }

  /** What the bot decides for the page's API link, whatever painting was selected: no
      painting once the order id leaves the catalog's id range, and otherwise the catalog
      painting whose id equals the order id. */
  lemma {:induction false} ApiLinkDecision(orders: map<int, Order>, lastId: int, orderId: int, token: string)
    requires IsHexToken(token)
    ensures Decide(orders, lastId, ApiStartParam(orderId, token)).NoPainting? <==> !IsCatalogId(orderId)
    ensures !Decide(orders, lastId, ApiStartParam(orderId, token)).NoPainting? ==>
      Decide(orders, lastId, ApiStartParam(orderId, token)).painting == Paintings[orderId - 1]
  {
    ApiLinkReadsOrderIdAsPaintingId(orderId, token);
    DecideById(orders, lastId, ApiStartParam(orderId, token), orderId);
  }

  /** Both links the page builds are single words, so `/start <link>` hands the whole link to
      the start-parameter parsing. */
  lemma {:induction false} LinksAreOneWord(orderId: int, token: string, paintingId: int)
    requires IsHexToken(token)
    ensures StartParam("/start " + ApiStartParam(orderId, token)) == Some(ApiStartParam(orderId, token))
    ensures StartParam("/start " + FallbackStartParam(paintingId)) == Some(FallbackStartParam(paintingId))
  {
    DecimalHasNoSeparator(orderId);
    DecimalHasNoSeparator(paintingId);
    assert forall i :: 0 <= i < |token| ==> token[i] != ' ';
    var api := ApiStartParam(orderId, token);
    assert api == "order_" + Decimal(orderId) + "_" + token;
    assert ' ' !in api;
    StartParamOfCommand(api);
    StartParamOfCommand(FallbackStartParam(paintingId));
  }

  /** The request the page builds for a mapped catalog row carries the row's id, title and
      price: the price text `<price>₽` reads back as the price. */
  lemma {:induction false} RequestOfRow(userId: Value, p: Painting)
    ensures RequestFor(userId, ToItem(p)) == CreateRequest(userId, Number(p.id), Str(p.title), Number(p.price))
  {
    ParseIntOfDecimal(p.price, "₽");
  }

  /** A request naming a painting that the id lookup finds, with a truthy user id, a title and
      a price, is accepted for that painting. */
  lemma {:induction false} RequestValidatesAs(userId: Value, p: Painting)
    requires Truthy(userId) && p.id != 0 && p.title != "" && p.price != 0
    requires FindById(Number(p.id)) == Some(p)
    ensures ValidateCreate(userId, Number(p.id), Str(p.title), Number(p.price)) == Accepted(p)
  {
    assert Truthy(Number(p.id)) && Truthy(Str(p.title)) && Truthy(Number(p.price));
  }

  /** The request the page posts for a catalog painting, with a truthy user id, passes the
      bot's validation and names that painting. */
  lemma {:induction false} PageRequestAccepted(userId: Value, k: int)
    requires Truthy(userId) && 0 <= k < |Paintings|
    ensures var r := RequestFor(userId, ToItem(Paintings[k]));
      ValidateCreate(r.userId, r.paintingId, r.paintingTitle, r.price) == Accepted(Paintings[k])
  {
    CatalogShape();
    var p := Paintings[k];
    FindByIdExact(Number(p.id));
    RequestOfRow(userId, p);
    RequestValidatesAs(userId, p);
  }
}
