/** The order bot (bot.js) as one object: the `orders` table, the per-chat `userStates`
    dictionary and the log of notices sent to the administrator, changed in place by the chat
    handlers (`/start` deep links, the painting keyboard, the inline buttons), the HTTP API
    and the payment webhook. Each handler runs as one atomic step. */
module Bot {
  import opened Wrappers
  import opened Strings
  import opened Js
  import opened Catalog
  import opened Orders

  /** The administrator chat used when none is configured. */
  const PlaceholderAdmin: string := "your_admin_id"
  /** The site address used when none is configured. */
  const DefaultSiteUrl: string := "http://127.0.0.1:8080"

  /** The chat buttons the message handler reacts to. */
  const OrderButton: string := "💳 Оформить заказ"
  const OtherButton: string := "🎨 Выбрать другую"
  const BackButton: string := "🔙 Назад"

  /** Where an order or a payment confirmation came from. */
  datatype Channel = MiniApp | Chat | Api

  /** A message sent to the administrator chat. */
  datatype Notice = NewOrder(orderId: int, via: Channel, token: string) | PaymentConfirmed(orderId: int, via: Channel)

  /** The reply to `/start`: the greeting, the painting-not-found message, the card of an order
      that already carries the link's token, or the card of a newly created order. */
  datatype StartReply =
    | Greeting
    | PaintingNotFound
    | ExistingOrder(orderId: int, title: string, price: int, status: string, link: string, token: string)
    | OrderCreated(orderId: int, title: string, price: int, link: string, token: string)

  /** The reply to an inline button. */
  datatype CallbackReply = NotFoundOrNotYours | AlreadyPaid(orderId: int) | Confirmed | OrdersList(list: OrdersReply) | NoReply

  /** The answers of the HTTP API. */
  datatype CreateResponse = BadRequest | PaintingMissing | Created(orderId: int, paymentLink: string, token: string)
  datatype PaidResponse = PaidOk | PaidNotFound
  datatype StatusResponse = StatusNotFound | StatusOk(status: string)

  /** `userStates` after a message that mentions the painting `chosen`, if any. */
  function Remembered(states: map<int, Selection>, chatId: int, chosen: Option<Painting>): map<int, Selection> {
    match chosen
    case Some(p) => states[chatId := SelectionOf(p)]
    case None => states
  }

  /** The order button pressed by a chat whose remembered painting is a catalog id. */
  predicate Ordering(states: map<int, Selection>, chatId: int, text: string) {
    text == OrderButton && chatId in states && IsCatalogId(states[chatId].paintingId)
  }

  /** `userStates` after the message handler: the remembered painting, forgotten again once
      it is ordered or the chat presses "choose another" or "back". */
  function StatesAfterMessage(states: map<int, Selection>, chatId: int, text: string, chosen: Option<Painting>): map<int, Selection> {
    var remembered := Remembered(states, chatId, chosen);
    var afterOrder := if Ordering(remembered, chatId, text) then remembered - {chatId} else remembered;
    if text == OtherButton || text == BackButton then afterOrder - {chatId} else afterOrder
  }

  /** A message changes at most the sending chat's entry of `userStates`. */
  lemma MessageTouchesOnlyItsChat(states: map<int, Selection>, chatId: int, text: string, chosen: Option<Painting>)
    ensures var after := StatesAfterMessage(states, chatId, text, chosen);
      forall c :: c != chatId ==> (c in after <==> c in states) && (c in after ==> after[c] == states[c])
  {
  }

  class OrderBot {
    const adminChatId: string
    const siteUrl: string
    /** The catalog imported from the shared data module. */
    const catalog: seq<Painting>
    var orders: map<int, Order>
    var lastId: int
    var userStates: map<int, Selection>
    var notices: seq<Notice>

    predicate Valid()
      reads this
    {
      TableValid(orders, lastId) && adminChatId != ""
    }

    /** `process.env.X || default` for the administrator chat and the site address. */
    constructor(adminEnv: string, siteEnv: string)
      ensures Valid()
      ensures adminChatId == (if adminEnv == "" then PlaceholderAdmin else adminEnv)
      ensures siteUrl == (if siteEnv == "" then DefaultSiteUrl else siteEnv)
      ensures catalog == Paintings
      ensures orders == map[] && lastId == 0 && userStates == map[] && notices == []
    {
      catalog := Paintings;
      adminChatId := if adminEnv == "" then PlaceholderAdmin else adminEnv;
      siteUrl := if siteEnv == "" then DefaultSiteUrl else siteEnv;
      orders := map[];
      lastId := 0;
      userStates := map[];
      notices := [];
    }

    /** The notice a chat path sends about a new order: none while the administrator is the
        placeholder. The HTTP paths and the paid button only test that the setting is
        non-empty, which it always is. */
    function ChatNotice(n: Notice): (r: seq<Notice>)
      ensures r == [] || r == [n]
      ensures r == [n] <==> adminChatId != PlaceholderAdmin
    {
      if adminChatId != PlaceholderAdmin then [n] else []
    }

    /** `INSERT INTO orders (...) VALUES (?, ?, ?, ?, 'new', ?)`: a new row under the next id. */
    method Insert(userId: Value, paintingId: Value, title: Value, price: Value, token: string) returns (id: int)
      requires Valid()
      modifies this
      ensures Valid()
      ensures id == old(lastId) + 1 && lastId == id
      ensures forall k :: k in old(orders) ==> k < id
      ensures orders == old(orders)[id := Order(id, userId, paintingId, title, price, StatusNew, Null, token)]
      ensures userStates == old(userStates) && notices == old(notices)
      ensures Preserves(old(orders), orders)
    {
      lastId := lastId + 1;
      id := lastId;
      orders := orders[id := Order(id, userId, paintingId, title, price, StatusNew, Null, token)];
    }

    /** The effect of the deep-link handler for `param`, decided on the state before it. */
    twostate predicate MiniAppStep(chatId: int, param: string, freshToken: string, reply: StartReply)
      reads this
    {
      var d := Decide(old(orders), old(lastId), param);
      match d
      case NoPainting =>
        reply == PaintingNotFound
        && orders == old(orders) && lastId == old(lastId) && notices == old(notices)
      case Existing(id, p, t) =>
        reply == ExistingOrder(id, p.title, p.price, StatusLabel(Undefined),
                               PaymentLink(siteUrl, id, Str(p.title), Number(p.price)), t)
        && orders == old(orders) && lastId == old(lastId) && notices == old(notices)
      case Create(p, t) =>
        var id := old(lastId) + 1;
        var token := OrderToken(t, freshToken);
        lastId == id
        && orders == old(orders)[id := Order(id, Number(chatId), Number(p.id), Str(p.title), Number(p.price),
                                             StatusNew, Null, token)]
        && notices == old(notices) + ChatNotice(NewOrder(id, MiniApp, token))
        && reply == OrderCreated(id, p.title, p.price, PaymentLink(siteUrl, id, Str(p.title), Number(p.price)), token)
    }

    /** `/start [param]`: a parameter containing `_` is a deep link from the site; anything
        else is answered with the greeting. */
    method Start(chatId: int, text: string, freshToken: string) returns (reply: StartReply)
      requires Valid() && IsHexToken(freshToken)
      requires Includes(text, "/start")
      modifies this
      ensures Valid() && Preserves(old(orders), orders) && userStates == old(userStates)
      ensures !IsOrderLink(text) ==> reply == Greeting && unchanged(this)
      ensures IsOrderLink(text) ==> MiniAppStep(chatId, StartParam(text).value, freshToken, reply)
    {
      var param := StartParam(text);
      if param.Some? && '_' in param.value {
        reply := MiniAppOrder(chatId, param.value, freshToken);
      } else {
        reply := Greeting;
      }
    }

    /** `handleMiniAppOrder`: an unknown painting changes nothing; a non-empty token some row
        already carries shows that row and changes nothing; otherwise one row is created. */
    method MiniAppOrder(chatId: int, param: string, freshToken: string) returns (reply: StartReply)
      requires Valid() && IsHexToken(freshToken)
      modifies this
      ensures Valid() && Preserves(old(orders), orders) && userStates == old(userStates)
      ensures MiniAppStep(chatId, param, freshToken, reply)
    {
      var req := ParseStartParam(param);
      var painting := FindById(req.paintingId);
      if painting.None? {
        return PaintingNotFound;
      }
      var p := painting.value;
      if req.token.Some? && req.token.value != "" {
        var owner := TokenOwner(orders, req.token.value, 1, lastId);
        if owner.Some? {
          var id := owner.value;
          return ExistingOrder(id, p.title, p.price, StatusLabel(Undefined),
                               PaymentLink(siteUrl, id, Str(p.title), Number(p.price)), req.token.value);
        }
        reply := CreateOrderFromMiniApp(chatId, p, req.token, freshToken);
      } else {
        reply := CreateOrderFromMiniApp(chatId, p, None, freshToken);
      }
    }

    /** `createOrderFromMiniApp`: a `new` row for the chat with the catalog painting's id,
        title and price, and the link's token or a fresh one. */
    method CreateOrderFromMiniApp(chatId: int, p: Painting, token: Option<string>, freshToken: string)
      returns (reply: StartReply)
      requires Valid() && IsHexToken(freshToken)
      modifies this
      ensures Valid() && Preserves(old(orders), orders) && userStates == old(userStates)
      ensures lastId == old(lastId) + 1
      ensures orders == old(orders)[lastId := Order(lastId, Number(chatId), Number(p.id), Str(p.title), Number(p.price),
                                                    StatusNew, Null, OrderToken(token, freshToken))]
      ensures notices == old(notices) + ChatNotice(NewOrder(lastId, MiniApp, OrderToken(token, freshToken)))
      ensures reply == OrderCreated(lastId, p.title, p.price,
                                    PaymentLink(siteUrl, lastId, Str(p.title), Number(p.price)), OrderToken(token, freshToken))
    {
      var orderToken := OrderToken(token, freshToken);
      var id := Insert(Number(chatId), Number(p.id), Str(p.title), Number(p.price), orderToken);
      notices := notices + ChatNotice(NewOrder(id, MiniApp, orderToken));
      reply := OrderCreated(id, p.title, p.price, PaymentLink(siteUrl, id, Str(p.title), Number(p.price)), orderToken);
    }

    /** The message handler: a text naming a painting's short title remembers that painting
        for the chat; the order button with a remembered painting creates the order; the
        "choose another" and "back" buttons forget the chat's painting. */
    method Message(chatId: int, text: string, freshToken: string) returns (created: Option<int>)
      requires Valid() && IsHexToken(freshToken)
      modifies this
      ensures Valid() && Preserves(old(orders), orders)
      ensures userStates == StatesAfterMessage(old(userStates), chatId, text, PaintingMentioned(catalog, text))
      ensures var states := Remembered(old(userStates), chatId, PaintingMentioned(catalog, text));
        && (Ordering(states, chatId, text) ==>
              var sel := states[chatId];
              created == Some(lastId) && lastId == old(lastId) + 1
              && orders == old(orders)[lastId := Order(lastId, Number(chatId), Number(sel.paintingId),
                                                       Str(sel.paintingTitle), Number(sel.price),
                                                       StatusNew, Null, freshToken)]
              && notices == old(notices) + ChatNotice(NewOrder(lastId, Chat, freshToken)))
        && (!Ordering(states, chatId, text) ==>
              created == None && orders == old(orders) && lastId == old(lastId) && notices == old(notices))
    {
      Remember(chatId, text);
      ghost var remembered := userStates;
      created := OrderButtonPressed(chatId, text, freshToken);
      ghost var afterOrder := userStates;
      assert afterOrder == if Ordering(remembered, chatId, text) then remembered - {chatId} else remembered;
      if text == OtherButton || text == BackButton {
        userStates := userStates - {chatId};
      }
    }

    /** The order button: a chat with a remembered catalog painting orders it and forgets it;
        any other text changes nothing. */
    method OrderButtonPressed(chatId: int, text: string, freshToken: string) returns (created: Option<int>)
      requires Valid() && IsHexToken(freshToken)
      modifies this
      ensures Valid() && Preserves(old(orders), orders)
      ensures Ordering(old(userStates), chatId, text) ==>
        var sel := old(userStates)[chatId];
        && created == Some(lastId) && lastId == old(lastId) + 1
        && orders == old(orders)[lastId := Order(lastId, Number(chatId), Number(sel.paintingId),
                                                 Str(sel.paintingTitle), Number(sel.price),
                                                 StatusNew, Null, freshToken)]
        && notices == old(notices) + ChatNotice(NewOrder(lastId, Chat, freshToken))
        && userStates == old(userStates) - {chatId}
      ensures !Ordering(old(userStates), chatId, text) ==> created == None && unchanged(this)
    {
      created := None;
      if text == OrderButton && chatId in userStates {
        created := CreateOrder(chatId, userStates[chatId], freshToken);
      }
    }

    /** A message naming a painting's short title remembers that painting for the chat. */
    method Remember(chatId: int, text: string)
      modifies this
      ensures userStates == Remembered(old(userStates), chatId, PaintingMentioned(catalog, text))
      ensures orders == old(orders) && lastId == old(lastId) && notices == old(notices)
    {
      var chosen := PaintingMentioned(catalog, text);
      if chosen.Some? {
        userStates := userStates[chatId := SelectionOf(chosen.value)];
      }
    }

    /** `createOrder`: for a remembered painting still in the catalog, a `new` row with the
        remembered id, title and price and a fresh token; the chat's painting is forgotten. */
    method CreateOrder(chatId: int, sel: Selection, freshToken: string) returns (created: Option<int>)
      requires Valid() && IsHexToken(freshToken)
      modifies this
      ensures Valid() && Preserves(old(orders), orders)
      ensures !IsCatalogId(sel.paintingId) ==> created == None && unchanged(this)
      ensures IsCatalogId(sel.paintingId) ==>
        created == Some(lastId) && lastId == old(lastId) + 1
        && orders == old(orders)[lastId := Order(lastId, Number(chatId), Number(sel.paintingId), Str(sel.paintingTitle),
                                                 Number(sel.price), StatusNew, Null, freshToken)]
        && notices == old(notices) + ChatNotice(NewOrder(lastId, Chat, freshToken))
        && userStates == old(userStates) - {chatId}
    {
      FindByNumber(sel.paintingId);
      if FindById(Number(sel.paintingId)).None? {
        return None;
      }
      var id := Insert(Number(chatId), Number(sel.paintingId), Str(sel.paintingTitle), Number(sel.price), freshToken);
      notices := notices + ChatNotice(NewOrder(id, Chat, freshToken));
      userStates := userStates - {chatId};
      created := Some(id);
    }

    /** The inline buttons. `paid_<n>` marks order `n` paid when it belongs to the chat and is
        not paid yet, and tells the administrator; `my_orders` lists the chat's orders. */
    method Callback(chatId: int, data: string) returns (reply: CallbackReply)
      requires Valid()
      modifies this
      ensures Valid() && Preserves(old(orders), orders)
      ensures userStates == old(userStates) && lastId == old(lastId)
      ensures StartsWith(data, "paid_") ==> PaidButtonStep(chatId, ParseInt(data[5..]), reply)
      ensures data == "my_orders" ==> reply == OrdersList(MyOrders(chatId)) && unchanged(this)
      ensures !StartsWith(data, "paid_") && data != "my_orders" ==> reply == NoReply && unchanged(this)
    {
      if StartsWith(data, "paid_") {
        assert data[0] == 'p' && data != "my_orders";
        reply := PaidButton(chatId, ParseInt(data[5..]));
      } else if data == "my_orders" {
        reply := OrdersList(MyOrders(chatId));
      } else {
        reply := NoReply;
      }
    }

    /** The effect of the `paid_` button naming order `n`, decided on the state before it. */
    twostate predicate PaidButtonStep(chatId: int, n: Value, reply: CallbackReply)
      reads this
    {
      var row := RowFor(old(orders), n);
      && ((row.None? || row.value.userId != Number(chatId)) ==> reply == NotFoundOrNotYours && unchanged(this))
      && (row.Some? && row.value.userId == Number(chatId) && row.value.status == StatusPaid ==>
            reply == AlreadyPaid(row.value.id) && unchanged(this))
      && (row.Some? && row.value.userId == Number(chatId) && row.value.status != StatusPaid ==>
            reply == Confirmed
            && orders == old(orders)[row.value.id := row.value.(status := StatusPaid)]
            && notices == old(notices) + [PaymentConfirmed(row.value.id, Chat)])
    }

    /** `paid_<n>`: order `n` becomes paid when it belongs to the chat and is not paid yet, and
        the administrator is told; otherwise nothing changes. */
    method PaidButton(chatId: int, n: Value) returns (reply: CallbackReply)
      requires Valid()
      modifies this
      ensures Valid() && Preserves(old(orders), orders)
      ensures userStates == old(userStates) && lastId == old(lastId)
      ensures PaidButtonStep(chatId, n, reply)
    {
      var row := RowFor(orders, n);
      if row.None? || row.value.userId != Number(chatId) {
        return NotFoundOrNotYours;
      }
      var o := row.value;
      if o.status == StatusPaid {
        return AlreadyPaid(o.id);
      }
      MarkPaidPreserves(orders, o.id, Null);
      orders := orders[o.id := o.(status := StatusPaid)];
      notices := notices + [PaymentConfirmed(o.id, Chat)];
      reply := Confirmed;
    }

    /** "My orders": the chat's rows, newest first, each with its status emoji. */
    function MyOrders(chatId: int): (r: OrdersReply)
      requires Valid()
      reads this
      ensures r.NoOrders? <==> forall id :: id in orders ==> orders[id].userId != Number(chatId)
      ensures r.OrderList? ==>
        (forall k :: 0 <= k < |r.entries| ==>
           r.entries[k].id in orders && orders[r.entries[k].id].userId == Number(chatId)
           && r.entries[k].status == orders[r.entries[k].id].status
           && r.entries[k].emoji == StatusEmoji(r.entries[k].status)
           && r.entries[k].title == orders[r.entries[k].id].paintingTitle
           && r.entries[k].price == orders[r.entries[k].id].price)
        && (forall k, l :: 0 <= k < l < |r.entries| ==> r.entries[k].id > r.entries[l].id)
        && (forall id :: id in orders && orders[id].userId == Number(chatId) ==>
              exists k :: 0 <= k < |r.entries| && r.entries[k].id == id)
    {
      var ids := OrderIdsOf(orders, Number(chatId), 1, lastId);
      OrderIdsOfTable(orders, lastId, Number(chatId));
      Listing(orders, ids)
    }

    /** `POST /api/order/create`: 400 when a field is falsy, 404 when the painting id is not a
        catalog id, otherwise a `new` row with the fields as SQLite stores them and a fresh
        token, and a notice to the administrator. */
    method ApiCreate(userId: Value, paintingId: Value, title: Value, price: Value, freshToken: string)
      returns (resp: CreateResponse)
      requires Valid() && IsHexToken(freshToken)
      modifies this
      ensures Valid() && Preserves(old(orders), orders) && userStates == old(userStates)
      ensures ValidateCreate(userId, paintingId, title, price).MissingFields? ==> resp == BadRequest && unchanged(this)
      ensures ValidateCreate(userId, paintingId, title, price).UnknownPainting? ==> resp == PaintingMissing && unchanged(this)
      ensures ValidateCreate(userId, paintingId, title, price).Accepted? ==>
        lastId == old(lastId) + 1
        && orders == old(orders)[lastId := Order(lastId, IntegerColumn(userId), paintingId, TextColumn(title),
                                                 IntegerColumn(price), StatusNew, Null, freshToken)]
        && notices == old(notices) + [NewOrder(lastId, Api, freshToken)]
        && resp == Created(lastId, PaymentLink(siteUrl, lastId, title, price), freshToken)
    {
      var check := ValidateCreate(userId, paintingId, title, price);
      if check.MissingFields? {
        return BadRequest;
      }
      if check.UnknownPainting? {
        return PaintingMissing;
      }
      resp := InsertApiOrder(userId, paintingId, title, price, freshToken);
    }

    /** The accepted path of `POST /api/order/create`: the row, the notice and the answer. */
    method InsertApiOrder(userId: Value, paintingId: Value, title: Value, price: Value, freshToken: string)
      returns (resp: CreateResponse)
      requires Valid()
      modifies this
      ensures Valid() && Preserves(old(orders), orders) && userStates == old(userStates)
      ensures lastId == old(lastId) + 1
      ensures orders == old(orders)[lastId := Order(lastId, IntegerColumn(userId), paintingId, TextColumn(title),
                                                    IntegerColumn(price), StatusNew, Null, freshToken)]
      ensures notices == old(notices) + [NewOrder(lastId, Api, freshToken)]
      ensures resp == Created(lastId, PaymentLink(siteUrl, lastId, title, price), freshToken)
    {
      var id := Insert(IntegerColumn(userId), paintingId, TextColumn(title), IntegerColumn(price), freshToken);
      notices := notices + [NewOrder(id, Api, freshToken)];
      resp := Created(id, PaymentLink(siteUrl, id, title, price), freshToken);
    }

    /** `POST /api/order/:id/paid`: 404 when no row has that id; otherwise the row becomes
        `paid` whatever its status, and the administrator is told. */
    method ApiMarkPaid(idParam: string) returns (resp: PaidResponse)
      requires Valid()
      modifies this
      ensures Valid() && Preserves(old(orders), orders)
      ensures userStates == old(userStates) && lastId == old(lastId)
      ensures resp == PaidNotFound <==> RowFor(old(orders), Str(idParam)).None?
      ensures resp == PaidNotFound ==> unchanged(this)
      ensures resp == PaidOk ==>
        var id := SqlInteger(idParam).value;
        orders == old(orders)[id := old(orders)[id].(status := StatusPaid)]
        && notices == old(notices) + [PaymentConfirmed(id, Api)]
      ensures resp == PaidOk ==> ApiStatus(idParam) == StatusOk(StatusPaid)
    {
      var row := RowFor(orders, Str(idParam));
      if row.None? {
        return PaidNotFound;
      }
      var id := SqlInteger(idParam).value;
      MarkPaidPreserves(orders, id, Null);
      orders := orders[id := orders[id].(status := StatusPaid)];
      notices := notices + [PaymentConfirmed(id, Api)];
      resp := PaidOk;
    }

    /** `GET /api/order/:id/status`. */
    function ApiStatus(idParam: string): (r: StatusResponse)
      reads this
      ensures r.StatusOk? <==> SqlInteger(idParam).Some? && SqlInteger(idParam).value in orders
      ensures r.StatusOk? ==> r.status == orders[SqlInteger(idParam).value].status
    {
      match RowFor(orders, Str(idParam))
      case None => StatusNotFound
      case Some(o) => StatusOk(o.status)
    }

    /** `GET /api/order/:id`: the whole row, or none (404). */
    function ApiOrder(idParam: string): (r: Option<Order>)
      reads this
      ensures r.Some? <==> SqlInteger(idParam).Some? && SqlInteger(idParam).value in orders
      ensures r.Some? ==> r.value == orders[SqlInteger(idParam).value]
    {
      RowFor(orders, Str(idParam))
    }

    /** `POST /webhook/payment`: a successful payment whose description names an existing
        order marks it paid and records the payment id; a notification the handler cannot read
        fails with status 500; everything else changes nothing and is answered 200. */
    method PaymentWebhook(body: WebhookBody) returns (status: int)
      requires Valid()
      modifies this
      ensures Valid() && Preserves(old(orders), orders)
      ensures userStates == old(userStates) && lastId == old(lastId) && notices == old(notices)
      ensures status == 500 <==> WebhookActionOf(body).Fail?
      ensures status == 200 <==> !WebhookActionOf(body).Fail?
      ensures !WebhookActionOf(body).MarkPaid? ==> unchanged(this)
      ensures WebhookActionOf(body).MarkPaid? ==>
        var a := WebhookActionOf(body);
        var row := RowFor(old(orders), Str(a.orderRef));
        && (row.None? ==> orders == old(orders))
        && (row.Some? ==> orders == old(orders)[row.value.id := row.value.(status := StatusPaid, paymentId := TextColumn(a.paymentId))])
    {
      var action := WebhookActionOf(body);
      if action.Fail? {
        return 500;
      }
      if action.MarkPaid? {
        var row := RowFor(orders, Str(action.orderRef));
        if row.Some? {
          var o := row.value;
          MarkPaidPreserves(orders, o.id, TextColumn(action.paymentId));
          orders := orders[o.id := o.(status := StatusPaid, paymentId := TextColumn(action.paymentId))];
        }
      }
      status := 200;
    }
  }
}
