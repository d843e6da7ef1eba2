/** The pure half of the bot (bot.js): the rows of the `orders` table, how SQLite stores and
    matches the values bound into its statements, the start parameter of a deep link, the
    payment link, the order reference a payment description carries, the decision the
    deep-link handler takes, and the "my orders" listing. The class in module `Bot` applies
    these to its state. */
module Orders {
  import opened Wrappers
  import opened Strings
  import opened Js
  import opened Uri
  import opened Catalog

  // ---------------------------------------------------------------- rows

  /** The statuses the code writes; other ones may be set by hand in the database. */
  const StatusNew: string := "new"
  const StatusPaid: string := "paid"

  /** A row of the `orders` table. Two columns are not kept: `user_name`, which the code
      always inserts as NULL, and `created_at`, the insertion time. Both are read back by
      the order API's `SELECT *` and the date by the "my orders" listing; the model keeps
      neither, and `created_at` order is represented by the id order. */
  datatype Order = Order(
    id: int,
    userId: Value,
    paintingId: Value,
    paintingTitle: Value,
    price: Value,
    status: string,
    paymentId: Value,
    token: string)

  /** The orders table: rows by id, plus the last id the AUTOINCREMENT sequence handed out. */
  predicate TableValid(orders: map<int, Order>, lastId: int) {
    lastId >= 0 &&
    forall id :: id in orders ==> 1 <= id <= lastId && orders[id].id == id
  }

  /** What a step may do to the table: rows are never deleted, the columns fixed at insertion
      (owner, painting, title, price, token) never change, and a paid order stays paid. */
  predicate Preserves(before: map<int, Order>, after: map<int, Order>) {
    forall id :: id in before ==>
      id in after &&
      after[id].id == before[id].id &&
      after[id].userId == before[id].userId &&
      after[id].paintingId == before[id].paintingId &&
      after[id].paintingTitle == before[id].paintingTitle &&
      after[id].price == before[id].price &&
      after[id].token == before[id].token &&
      (before[id].status == StatusPaid ==> after[id].status == StatusPaid)
  }

  /** Marking a row paid, with or without a payment id, preserves the table. */
  lemma MarkPaidPreserves(orders: map<int, Order>, id: int, paymentId: Value)
    requires id in orders
    ensures Preserves(orders, orders[id := orders[id].(status := StatusPaid)])
    ensures Preserves(orders, orders[id := orders[id].(status := StatusPaid, paymentId := paymentId)])
  {
  }

  // ---------------------------------------------------------------- SQLite values

  /** The characters SQLite's numeric conversion skips around a number: space and `\t` to `\r`. */
  predicate IsSqlSpace(c: char) {
    c == ' ' || '\t' <= c <= '\r'
  }

  /** `s` without its leading spaces. */
  function TrimStart(s: string): (r: string)
    ensures |r| <= |s|
    decreases |s|
  {
    if |s| > 0 && IsSqlSpace(s[0]) then TrimStart(s[1..]) else s
  }

  /** `TrimStart` keeps the longest suffix that does not start with a space. */
  lemma {:induction false} TrimStartKeeps(s: string)
    ensures var r := TrimStart(s);
      r == s[|s| - |r|..] && (|r| > 0 ==> !IsSqlSpace(r[0]))
      && forall k :: 0 <= k < |s| - |r| ==> IsSqlSpace(s[k])
    decreases |s|
  {
    if |s| > 0 && IsSqlSpace(s[0]) {
      TrimStartKeeps(s[1..]);
      var r := TrimStart(s);
      assert s[1..][|s| - 1 - |r|..] == s[|s| - |r|..];
      forall k | 1 <= k < |s| - |r| ensures IsSqlSpace(s[k]) {
        assert s[k] == s[1..][k - 1];
      }
    }
  }

  /** `s` without its trailing spaces. */
  function TrimEnd(s: string): (r: string)
    ensures |r| <= |s|
    decreases |s|
  {
    if |s| > 0 && IsSqlSpace(s[|s| - 1]) then TrimEnd(s[..|s| - 1]) else s
  }

  /** `TrimEnd` keeps the longest prefix that does not end with a space. */
  lemma {:induction false} TrimEndKeeps(s: string)
    ensures var r := TrimEnd(s);
      r == s[..|r|] && (|r| > 0 ==> !IsSqlSpace(r[|r| - 1]))
      && forall k :: |r| <= k < |s| ==> IsSqlSpace(s[k])
    decreases |s|
  {
    if |s| > 0 && IsSqlSpace(s[|s| - 1]) {
      TrimEndKeeps(s[..|s| - 1]);
      var r := TrimEnd(s);
      assert s[..|s| - 1][..|r|] == s[..|r|];
      forall k | |r| <= k < |s| - 1 ensures IsSqlSpace(s[k]) {
        assert s[k] == s[..|s| - 1][k];
      }
    }
  }

  /** `s` without the spaces at either end. */
  function TrimSpaces(s: string): (r: string)
    ensures |r| <= |s|
  {
    TrimEnd(TrimStart(s))
  }

  /** How SQLite reads a text value as an integer when it meets an INTEGER column: spaces
      around it are skipped, and what is left is an optional sign followed by decimal digits.
      Real-form text such as `5.0` is not read as an integer here. */
  function SqlInteger(s: string): (r: Option<int>)
    ensures r.Some? ==> |s| > 0
    ensures (|s| > 0 && AllDigitsIn(s, 10)) ==> r == Some(DigitsValue(s, 10))
  {
    SignedDigits(TrimSpaces(s))
  }

  /** An optional sign followed by decimal digits, read as an integer. */
  function SignedDigits(t: string): (r: Option<int>)
    ensures r.Some? ==> |t| > 0
    ensures (|t| > 0 && AllDigitsIn(t, 10)) ==> r == Some(DigitsValue(t, 10))
  {
    if |t| > 1 && (t[0] == '-' || t[0] == '+') && AllDigitsIn(t[1..], 10) then
      var m := DigitsValue(t[1..], 10);
      Some(if t[0] == '-' then -(m as int) else m)
    else if |t| > 0 && AllDigitsIn(t, 10) then Some(DigitsValue(t, 10))
    else None
  }

  /** Spaces before a text that does not start with one are all that `TrimStart` removes. */
  lemma {:induction false} TrimStartPadded(pre: string, t: string)
    requires forall k :: 0 <= k < |pre| ==> IsSqlSpace(pre[k])
    requires |t| > 0 && !IsSqlSpace(t[0])
    ensures TrimStart(pre + t) == t
  {
    if |pre| == 0 {
      assert pre + t == t;
    } else {
      assert (pre + t)[0] == pre[0];
      assert (pre + t)[1..] == pre[1..] + t;
      TrimStartPadded(pre[1..], t);
    }
  }

  /** Spaces after a text that does not end with one are all that `TrimEnd` removes. */
  lemma {:induction false} TrimEndPadded(t: string, post: string)
    requires forall k :: 0 <= k < |post| ==> IsSqlSpace(post[k])
    requires |t| > 0 && !IsSqlSpace(t[|t| - 1])
    ensures TrimEnd(t + post) == t
  {
    if |post| == 0 {
      assert t + post == t;
    } else {
      var s := t + post;
      assert s[|s| - 1] == post[|post| - 1];
      assert s[..|s| - 1] == t + post[..|post| - 1];
      TrimEndPadded(t, post[..|post| - 1]);
    }
  }

  /** The rendering of an integer, with any spaces around it, is read back as that integer. */
  lemma SqlIntegerPadded(n: int, pre: string, post: string)
    requires forall k :: 0 <= k < |pre| ==> IsSqlSpace(pre[k])
    requires forall k :: 0 <= k < |post| ==> IsSqlSpace(post[k])
    ensures SqlInteger(pre + Decimal(n) + post) == Some(n)
  {
    var d := Decimal(n);
    var m: nat := if n < 0 then -n else n;
    var digits := NatToDecimal(m);
    assert d == (if n < 0 then "-" else "") + digits;
    assert d[|d| - 1] == digits[|digits| - 1];
    assert (d + post)[0] == d[0];
    assert pre + d + post == pre + (d + post);
    TrimStartPadded(pre, d + post);
    TrimEndPadded(d, post);
    assert TrimSpaces(pre + d + post) == d;
    DigitsValueOfDecimal(m);
    if n < 0 {
      assert d[1..] == digits;
    }
  }

  /** The rendering of an integer is read back as that integer. */
  lemma SqlIntegerOfDecimal(n: int)
    ensures SqlInteger(Decimal(n)) == Some(n)
  {
    SqlIntegerPadded(n, "", "");
    assert "" + Decimal(n) + "" == Decimal(n);
  }

  /** The row id a value bound to `WHERE id = ?` selects, if any: a number selects itself,
      a boolean 1 or 0, a text its integer reading; NaN, null and undefined select nothing. */
  function BoundId(v: Value): (r: Option<int>)
    ensures v.Number? ==> r == Some(v.n)
    ensures (v.Undefined? || v.Null? || v.NaN?) ==> r.None?
  {
    match v
    case Number(n) => Some(n)
    case Bool(b) => Some(if b then 1 else 0)
    case Str(s) => SqlInteger(s)
    case _ => None
  }

  /** The row with the id that `v` selects. */
  function RowFor(orders: map<int, Order>, v: Value): (r: Option<Order>)
    ensures r.Some? <==> BoundId(v).Some? && BoundId(v).value in orders
    ensures r.Some? ==> r.value == orders[BoundId(v).value]
  {
    var id := BoundId(v);
    if id.Some? && id.value in orders then Some(orders[id.value]) else None
  }

  /** The `paid_<id>` button sent with an order leads back to that order's row. */
  lemma {:induction false} PaidButtonSelectsOrder(orders: map<int, Order>, id: int)
    ensures var data := "paid_" + Decimal(id);
      RowFor(orders, ParseInt(data[5..])) == (if id in orders then Some(orders[id]) else None)
  {
    var data := "paid_" + Decimal(id);
    assert data[5..] == Decimal(id) + [];
    ParseIntOfDecimal(id, []);
  }

  /** The value an INTEGER column stores for a bound value: undefined and NaN become NULL,
      booleans 1 and 0, an integer-looking text its integer. */
  function IntegerColumn(v: Value): (r: Value)
    ensures v.Number? || v.Null? ==> r == v
    ensures r != Undefined && r != NaN
  {
    match v
    case Undefined => Null
    case NaN => Null
    case Bool(b) => Number(if b then 1 else 0)
    case Str(s) => if SqlInteger(s).Some? then Number(SqlInteger(s).value) else v
    case _ => v
  }

  /** The value a TEXT column stores for a bound value: numbers and booleans become their
      text, undefined and NaN become NULL. */
  function TextColumn(v: Value): (r: Value)
    ensures r.Str? || r.Null?
    ensures v.Str? ==> r == v
    ensures v.Number? ==> r == Str(Decimal(v.n))
  {
    match v
    case Undefined => Null
    case NaN => Null
    case Null => Null
    case Bool(b) => Str(if b then "1" else "0")
    case Number(n) => Str(Decimal(n))
    case Str(_) => v
  }

  // ---------------------------------------------------------------- start parameter

  /** `text.split(' ')[1]`: the word after `/start`, if there is one. */
  function StartParam(text: string): (r: Option<string>)
    ensures r.Some? ==> ' ' !in r.value
    ensures r.None? <==> ' ' !in text
  {
    var words := Split(text, ' ');
    if |words| >= 2 then Some(words[1]) else None
  }

  /** The deep-link path runs only for a parameter that exists and contains `_`. */
  predicate IsOrderLink(text: string) {
    StartParam(text).Some? && '_' in StartParam(text).value
  }

  /** What a start parameter asks for: the painting id `parseInt` read, and the token. */
  datatype StartRequest = StartRequest(paintingId: Value, token: Option<string>)

  /** `handleMiniAppOrder`'s parsing: `order_<id>_<token>`, `order_<id>`, or the older
      `<id>_<price>`. Only the third `_`-separated segment is the token. */
  function ParseStartParam(param: string): (r: StartRequest)
    ensures r.paintingId.Number? || r.paintingId.NaN?
    ensures r.token.Some? ==> '_' !in r.token.value
    ensures !StartsWith(param, "order_") ==> r.token.None?
  {
    if StartsWith(param, "order_") then
      var parts := Split(param, '_');
      assert param[5] == '_';
      StartRequest(ParseInt(parts[1]), if |parts| >= 3 then Some(parts[2]) else None)
    else
      StartRequest(ParseInt(Split(param, '_')[0]), None)
  }

  /** The segments of `order_<a>_<tail>` are `order`, `a`, then those of `tail`. */
  lemma {:induction false} OrderSegments(param: string, a: string, tail: string)
    requires '_' !in a
    requires param == "order" + ['_'] + (a + ['_'] + tail)
    ensures Split(param, '_') == ["order", a] + Split(tail, '_')
  {
    SplitFirst("order", '_', a + ['_'] + tail);
    SplitFirst(a, '_', tail);
  }

  /** The first segment of `b + rest` is `b` when `rest` is empty or starts a new segment. */
  lemma {:induction false} FirstSegment(b: string, rest: string)
    requires '_' !in b
    requires rest == [] || rest[0] == '_'
    ensures Split(b + rest, '_')[0] == b
  {
    if rest == [] {
      assert b + rest == b;
      SplitNone(b, '_');
    } else {
      assert b + rest == b + ['_'] + rest[1..];
      SplitFirst(b, '_', rest[1..]);
    }
  }

  /** `order_<a>_<b>...`: the painting id is `parseInt(a)` and the token is `b`, whatever
      follows it. */
  lemma {:induction false} ParseOrderWithToken(a: string, b: string, rest: string)
    requires '_' !in a && '_' !in b
    requires rest == [] || rest[0] == '_'
    ensures ParseStartParam("order_" + a + "_" + b + rest) == StartRequest(ParseInt(a), Some(b))
  {
    var param := "order_" + a + "_" + b + rest;
    var tail := b + rest;
    assert param == "order" + ['_'] + (a + ['_'] + tail);
    assert StartsWith(param, "order_");
    OrderSegments(param, a, tail);
    FirstSegment(b, rest);
    var parts := Split(param, '_');
    assert parts[1] == a && parts[2] == b;
  }

  /** `order_<a>`: the painting id is `parseInt(a)`, with no token. */
  lemma {:induction false} ParseOrderWithoutToken(a: string)
    requires '_' !in a
    ensures ParseStartParam("order_" + a) == StartRequest(ParseInt(a), None)
  {
    var param := "order_" + a;
    assert param[..6] == "order_";
    SplitNone(a, '_');
    assert param == "order" + ['_'] + a;
    SplitFirst("order", '_', a);
  }

  /** Any other parameter: the painting id is `parseInt` of the text before the first `_`. */
  lemma {:induction false} ParseLegacy(a: string, rest: string)
    requires '_' !in a
    requires !StartsWith(a + "_" + rest, "order_")
    ensures ParseStartParam(a + "_" + rest) == StartRequest(ParseInt(a), None)
  {
    SplitFirst(a, '_', rest);
  }

  // ---------------------------------------------------------------- payment link

  /** The site URL with one trailing `/` removed. */
  function BaseUrl(siteUrl: string): (r: string)
    ensures siteUrl == r || siteUrl == r + "/"
    ensures EndsWith(siteUrl, "/") <==> siteUrl == r + "/"
  {
    if EndsWith(siteUrl, "/") then siteUrl[..|siteUrl| - 1] else siteUrl
  }

  /** `generatePaymentLink(orderId, title, price)`. */
  function PaymentLink(siteUrl: string, orderId: int, title: Value, price: Value): string {
    BaseUrl(siteUrl) + "/payment.html?order=" + Decimal(orderId)
      + "&title=" + EncodeURIComponent(ToString(title)) + "&price=" + ToString(price)
  }

  /** An encoded title holds neither `&` nor `=`, so it cannot end its query field early. */
  lemma EncodedIsOneField(s: string)
    ensures '&' !in EncodeURIComponent(s) && '=' !in EncodeURIComponent(s)
  {
    var enc := EncodeURIComponent(s);
    assert forall i :: 0 <= i < |enc| ==> enc[i] != '&' && enc[i] != '=';
  }

  /** The link is the base URL, `/payment.html?order=`, the order id, the encoded title and the
      price. The title field holds no `&` and decodes back to the title, and `parseInt` of what
      follows `order=` reads back the order id. */
  lemma PaymentLinkFields(siteUrl: string, orderId: int, title: Value, price: Value)
    ensures var t := Decimal(orderId) + "&title=" + EncodeURIComponent(ToString(title)) + "&price=" + ToString(price);
      PaymentLink(siteUrl, orderId, title, price) == BaseUrl(siteUrl) + "/payment.html?order=" + t
      && ParseInt(t) == Number(orderId)
    ensures '&' !in EncodeURIComponent(ToString(title)) && '=' !in EncodeURIComponent(ToString(title))
    ensures DecodeURIComponent(EncodeURIComponent(ToString(title))) == Some(ToString(title))
  {
    var enc := EncodeURIComponent(ToString(title));
    EncodedIsOneField(ToString(title));
    DecodeEncode(ToString(title));
    var rest := "&title=" + enc + "&price=" + ToString(price);
    assert rest[0] == '&' && !IsDigitIn('&', 10);
    ParseIntOfDecimal(orderId, rest);
    LinkRegroup(BaseUrl(siteUrl), "/payment.html?order=", Decimal(orderId), "&title=", enc, "&price=", ToString(price));
  }

  /** Regrouping the seven pieces of a payment link around the text after `order=`. */
  lemma LinkRegroup(a: string, b: string, c: string, d: string, e: string, f: string, g: string)
    ensures a + b + c + d + e + f + g == a + b + (c + d + e + f + g)
    ensures c + d + e + f + g == c + (d + e + f + g)
  {
  }

  /** A slash at the end of the site URL never doubles the one before `payment.html`. */
  lemma PaymentLinkIgnoresTrailingSlash(siteUrl: string, orderId: int, title: Value, price: Value)
    requires !EndsWith(siteUrl, "/")
    ensures PaymentLink(siteUrl + "/", orderId, title, price) == PaymentLink(siteUrl, orderId, title, price)
  {
    assert EndsWith(siteUrl + "/", "/");
    assert (siteUrl + "/")[..|siteUrl|] == siteUrl;
  }

  // ---------------------------------------------------------------- payment webhook

  /** The text `/Заказ #(\d+)/` looks for in a payment description. */
  const OrderMarker: string := "Заказ #"

  /** At position `i` of `s` the marker starts and a digit follows it: a place where the
      regular expression matches. */
  ghost predicate RefAt(s: string, i: int) {
    OccursAt(s, OrderMarker, i) && i + |OrderMarker| < |s| && IsDecimalDigit(s[i + |OrderMarker|])
  }

  /** The digits `s.match(/Заказ #(\d+)/)?.[1]` captures: at the leftmost match, every digit
      that follows the marker. */
  function OrderRef(s: string): (r: Option<string>)
    decreases |s|
    ensures r.Some? ==> |r.value| >= 1 && AllDigitsIn(r.value, 10)
  {
    if |s| == 0 then None
    else if StartsWith(s, OrderMarker) && |s| > |OrderMarker| && IsDecimalDigit(s[|OrderMarker|]) then
      Some(TakeDigits(s[|OrderMarker|..], 10))
    else OrderRef(s[1..])
  }

  /** The expression captures something exactly when the marker followed by a digit occurs
      somewhere in the description. */
  lemma {:induction false} OrderRefIffMatch(s: string)
    ensures OrderRef(s).Some? <==> exists i :: RefAt(s, i)
    decreases |s|
  {
    if |s| == 0 {
      assert forall i :: !RefAt(s, i);
    } else if StartsWith(s, OrderMarker) && |s| > |OrderMarker| && IsDecimalDigit(s[|OrderMarker|]) {
      assert RefAt(s, 0);
    } else {
      OrderRefIffMatch(s[1..]);
      if OrderRef(s).Some? {
        var i :| RefAt(s[1..], i);
        assert RefAt(s, i + 1);
      } else {
        assert !RefAt(s, 0);
        forall i | 1 <= i && RefAt(s, i) ensures RefAt(s[1..], i - 1) {
          assert s[1..][i - 1 .. i - 1 + |OrderMarker|] == s[i .. i + |OrderMarker|];
        }
      }
    }
  }

  /** `Заказ #<n>` at the start of a description is a match capturing the digits of `n`. */
  lemma {:induction false} OrderRefAtStart(s: string, n: nat, rest: string)
    requires s == OrderMarker + (NatToDecimal(n) + rest)
    requires rest == [] || !IsDecimalDigit(rest[0])
    ensures OrderRef(s) == Some(NatToDecimal(n))
  {
    assert s[..|OrderMarker|] == OrderMarker;
    assert s[|OrderMarker|..] == NatToDecimal(n) + rest;
    assert IsDigitIn(s[|OrderMarker|], 10);
    assert rest == [] || !IsDigitIn(rest[0], 10);
    TakeDigitsOfDigits(NatToDecimal(n), rest, 10);
  }

  /** A description without the marker's first letter before `Заказ #<n>` refers to order `n`. */
  lemma OrderRefOfDescription(pre: string, n: nat, rest: string)
    requires 'З' !in pre
    requires rest == [] || !IsDecimalDigit(rest[0])
    ensures OrderRef(pre + OrderMarker + NatToDecimal(n) + rest) == Some(NatToDecimal(n))
  {
    var t := OrderMarker + (NatToDecimal(n) + rest);
    AppendAssoc(pre, OrderMarker, NatToDecimal(n), rest);
    OrderRefAfter(pre, t);
    OrderRefAtStart(t, n, rest);
  }

  /** A prefix without the marker's first letter does not change what is captured. */
  lemma {:induction false} OrderRefAfter(pre: string, t: string)
    requires 'З' !in pre
    ensures OrderRef(pre + t) == OrderRef(t)
    decreases |pre|
  {
    if |pre| > 0 {
      assert (pre + t)[0] == pre[0] && (pre + t)[1..] == pre[1..] + t;
      assert 'З' !in pre[1..];
      OrderRefAfter(pre[1..], t);
      OrderRefSkip(pre + t, pre[1..] + t);
    } else {
      assert pre + t == t;
    }
  }

  lemma AppendAssoc(a: string, b: string, c: string, d: string)
    ensures a + b + c + d == a + (b + (c + d))
  {
  }

  /** A description whose first character is not the marker's first letter matches where
      its remainder does. */
  lemma OrderRefSkip(s: string, t: string)
    requires |s| > 0 && s[0] != 'З' && s[1..] == t
    ensures OrderRef(s) == OrderRef(t)
  {
    assert !StartsWith(s, OrderMarker);
  }

  /** The `object` of a payment notification: its `description` and `id`. A notification
      whose `object` is missing or null has `payment == None`. */
  datatype PaymentObject = PaymentObject(description: Value, id: Value)
  datatype WebhookBody = WebhookBody(event: Value, payment: Option<PaymentObject>)

  /** What the webhook does with a notification: fail with a TypeError (answered 500), ignore
      it, or mark the order whose id the captured digits give as paid with the payment's id. */
  datatype WebhookAction = Fail | Ignore | MarkPaid(orderRef: string, paymentId: Value)

  /** The webhook's reading of a notification. Reading `description` of a missing object, or
      calling `match` on a description that is neither a string nor null/undefined, throws. */
  function WebhookActionOf(body: WebhookBody): (r: WebhookAction)
    ensures (body.event == Str("payment.succeeded") && body.payment.Some?
             && body.payment.value.description.Str? && OrderRef(body.payment.value.description.s).Some?) ==>
      r == MarkPaid(OrderRef(body.payment.value.description.s).value, body.payment.value.id)
    ensures r.MarkPaid? ==>
      (body.event == Str("payment.succeeded") && body.payment.Some?
       && body.payment.value.description.Str?
       && OrderRef(body.payment.value.description.s) == Some(r.orderRef)
       && r.paymentId == body.payment.value.id)
    ensures body.event != Str("payment.succeeded") ==> r == Ignore
    ensures r.Fail? <==>
      (body.event == Str("payment.succeeded") &&
       (body.payment.None? || !(body.payment.value.description.Str? || body.payment.value.description.Undefined?
                                || body.payment.value.description.Null?)))
  {
    if body.event != Str("payment.succeeded") then Ignore
    else if body.payment.None? then Fail
    else
      match body.payment.value.description
      case Undefined => Ignore
      case Null => Ignore
      case Str(s) =>
        (match OrderRef(s)
         case Some(d) => MarkPaid(d, body.payment.value.id)
         case None => Ignore)
      case _ => Fail
  }

  /** A payment notification for `Заказ #<n>` marks order `n` paid. */
  lemma WebhookMarksOrder(pre: string, n: nat, rest: string, paymentId: Value)
    requires 'З' !in pre
    requires rest == [] || !IsDecimalDigit(rest[0])
    ensures var body := WebhookBody(Str("payment.succeeded"),
                                    Some(PaymentObject(Str(pre + OrderMarker + NatToDecimal(n) + rest), paymentId)));
      WebhookActionOf(body) == MarkPaid(NatToDecimal(n), paymentId)
      && BoundId(Str(WebhookActionOf(body).orderRef)) == Some(n)
  {
    OrderRefOfDescription(pre, n, rest);
    SqlIntegerOfDecimal(n);
  }

  // ---------------------------------------------------------------- token lookup

  /** `SELECT id FROM orders WHERE token = ?` over the ids `lo..hi`: the lowest id whose row
      carries `token`. */
  function TokenOwner(orders: map<int, Order>, token: string, lo: int, hi: int): (r: Option<int>)
    decreases hi - lo
    ensures r.Some? ==> lo <= r.value <= hi && r.value in orders && orders[r.value].token == token
    ensures r.Some? ==> forall id :: lo <= id < r.value && id in orders ==> orders[id].token != token
    ensures r.None? <==> forall id :: lo <= id <= hi && id in orders ==> orders[id].token != token
  {
    if hi < lo then None
    else if lo in orders && orders[lo].token == token then Some(lo)
    else TokenOwner(orders, token, lo + 1, hi)
  }

  // ---------------------------------------------------------------- the deep-link handler

  /** What `handleMiniAppOrder` decides for a start parameter: the painting is unknown; a row
      already carries the link's token; or a row is to be created with the link's token (when
      it has a non-empty one) or a fresh one. */
  datatype MiniAppDecision =
    | NoPainting
    | Existing(orderId: int, painting: Painting, token: string)
    | Create(painting: Painting, linkToken: Option<string>)

  function Decide(orders: map<int, Order>, lastId: int, param: string): (d: MiniAppDecision)
    ensures d.NoPainting? <==> FindById(ParseStartParam(param).paintingId).None?
    ensures !d.NoPainting? ==> Some(d.painting) == FindById(ParseStartParam(param).paintingId)
    ensures d.Existing? ==>
      (ParseStartParam(param).token == Some(d.token) && d.token != ""
       && d.orderId in orders && orders[d.orderId].token == d.token)
    ensures d.Create? && d.linkToken.Some? ==>
      (ParseStartParam(param).token == d.linkToken && d.linkToken.value != ""
       && forall id :: 1 <= id <= lastId && id in orders ==> orders[id].token != d.linkToken.value)
    ensures d.Create? && d.linkToken.None? ==> ParseStartParam(param).token in {None, Some("")}
  {
    var req := ParseStartParam(param);
    var p := FindById(req.paintingId);
    if p.None? then NoPainting
    else if req.token.Some? && req.token.value != "" then
      match TokenOwner(orders, req.token.value, 1, lastId)
      case Some(id) => Existing(id, p.value, req.token.value)
      case None => Create(p.value, req.token)
    else Create(p.value, None)
  }

  /** `token || crypto.randomBytes(8).toString('hex')`. */
  function OrderToken(token: Option<string>, freshToken: string): (r: string)
    ensures token.Some? && token.value != "" ==> r == token.value
    ensures token.None? || token.value == "" ==> r == freshToken
  {
    if token.Some? && token.value != "" then token.value else freshToken
  }

  /** What `crypto.randomBytes(8).toString('hex')` yields: sixteen lower-case hex digits. */
  predicate IsHexToken(t: string) {
    |t| == 16 && forall i :: 0 <= i < |t| ==> ('0' <= t[i] <= '9' || 'a' <= t[i] <= 'f')
  }

  /** A fresh token holds no `_`, so the link `order_<id>_<token>` carries all of it. */
  lemma HexTokenHasNoSeparator(t: string)
    requires IsHexToken(t)
    ensures '_' !in t && t != ""
  {
    assert forall i :: 0 <= i < |t| ==> t[i] != '_';
  }

  /** Opening the same token link twice creates one order: once a row with the link's token
      has been inserted under the next id, the link finds that row. */
  lemma {:induction false} TokenLinkIdempotent(orders: map<int, Order>, lastId: int, param: string, row: Order)
    requires TableValid(orders, lastId)
    requires Decide(orders, lastId, param).Create?
    requires Decide(orders, lastId, param).linkToken.Some?
    requires row.id == lastId + 1 && row.token == Decide(orders, lastId, param).linkToken.value
    ensures var d := Decide(orders, lastId, param);
      Decide(orders[lastId + 1 := row], lastId + 1, param) == Existing(lastId + 1, d.painting, d.linkToken.value)
  {
    var d := Decide(orders, lastId, param);
    TokenOwnerAfterInsert(orders, lastId, d.linkToken.value, row);
  }

  /** A row inserted under the next id with a token no earlier row carries is the one the
      lookup finds. */
  lemma TokenOwnerAfterInsert(orders: map<int, Order>, lastId: int, t: string, row: Order)
    requires TableValid(orders, lastId)
    requires forall id :: 1 <= id <= lastId && id in orders ==> orders[id].token != t
    requires row.id == lastId + 1 && row.token == t
    ensures TokenOwner(orders[lastId + 1 := row], t, 1, lastId + 1) == Some(lastId + 1)
  {
    var after := orders[lastId + 1 := row];
    forall id | 1 <= id <= lastId && id in after ensures after[id].token != t {
      assert id in orders && after[id] == orders[id];
    }
    TokenOwnerSkips(after, t, 1, lastId + 1);
  }

  /** When no row before `hi` carries the token and row `hi` does, the lookup finds `hi`. */
  lemma {:induction false} TokenOwnerSkips(orders: map<int, Order>, token: string, lo: int, hi: int)
    requires lo <= hi && hi in orders && orders[hi].token == token
    requires forall id :: lo <= id < hi && id in orders ==> orders[id].token != token
    ensures TokenOwner(orders, token, lo, hi) == Some(hi)
  {
    var r := TokenOwner(orders, token, lo, hi);
    assert r.Some?;
    assert r.value == hi;
  }

  /** What the reply about an existing order shows as its status. The lookup selects only the
      id, so the status it reads is undefined. */
  function StatusLabel(status: Value): (r: string)
    ensures status == Str(StatusNew) ==> r == "⏳ Ожидает оплаты"
    ensures status == Str(StatusPaid) ==> r == "✅ Оплачен"
    ensures status != Str(StatusNew) && status != Str(StatusPaid) ==> r == ToString(status)
  {
    if status == Str(StatusNew) then "⏳ Ожидает оплаты"
    else if status == Str(StatusPaid) then "✅ Оплачен"
    else ToString(status)
  }

  /** The status shown for an existing order is the text `undefined`, whatever the row's
      status is. */
  lemma ExistingOrderShowsUndefined()
    ensures StatusLabel(Undefined) == "undefined"
  {
  }

  // ---------------------------------------------------------------- chat selection

  /** What `userStates[chatId]` remembers about the painting being ordered. */
  datatype Selection = Selection(paintingId: int, paintingTitle: string, price: int)

  /** `paintings.find(p => text.includes(p.title))`: the first painting of `catalog` whose
      short title the message contains. */
  function PaintingMentioned(catalog: seq<Painting>, text: string): (r: Option<Painting>)
    ensures r.Some? ==> r.value in catalog && Includes(text, r.value.title)
    ensures r.None? <==> forall i :: 0 <= i < |catalog| ==> !Includes(text, catalog[i].title)
    ensures r.Some? ==> exists i :: (0 <= i < |catalog| && catalog[i] == r.value
      && forall j :: 0 <= j < i ==> !Includes(text, catalog[j].title))
  {
    Find(catalog, (p: Painting) => Includes(text, p.title))
  }

  /** The state kept for a chosen painting. */
  function SelectionOf(p: Painting): Selection {
    Selection(p.id, p.title, p.price)
  }

  // ---------------------------------------------------------------- HTTP create

  /** The outcome of validating `/api/order/create`. */
  datatype CreateCheck = MissingFields | UnknownPainting | Accepted(painting: Painting)

  function ValidateCreate(userId: Value, paintingId: Value, title: Value, price: Value): (r: CreateCheck)
    ensures r.MissingFields? <==> !(Truthy(userId) && Truthy(paintingId) && Truthy(title) && Truthy(price))
    ensures r.UnknownPainting? <==> !r.MissingFields? && FindById(paintingId).None?
    ensures r.Accepted? ==>
      (paintingId == Number(r.painting.id) && IsCatalogId(r.painting.id)
       && r.painting == Paintings[r.painting.id - 1])
  {
    if !(Truthy(userId) && Truthy(paintingId) && Truthy(title) && Truthy(price)) then MissingFields
    else
      match FindById(paintingId)
      case None => UnknownPainting
      case Some(p) =>
        FindByIdExact(paintingId);
        Accepted(p)
  }

  /** A request for a catalog painting passes validation exactly when it names an id 1..11 as
      a number and its other fields are truthy; a numeric string never does. */
  lemma ValidateCreateAccepts(userId: Value, paintingId: Value, title: Value, price: Value)
    requires Truthy(userId) && Truthy(title) && Truthy(price)
    ensures ValidateCreate(userId, paintingId, title, price).Accepted? <==> paintingId.Number? && 1 <= paintingId.n <= 11
    ensures paintingId.Str? ==> !ValidateCreate(userId, paintingId, title, price).Accepted?
  {
    FindByIdExact(paintingId);
  }

  // ---------------------------------------------------------------- "my orders"

  /** `SELECT * FROM orders WHERE user_id = ? ORDER BY created_at DESC` over the ids `lo..hi`:
      the ids of `user`'s rows, newest first. */
  function OrderIdsOf(orders: map<int, Order>, user: Value, lo: int, hi: int): (r: seq<int>)
    decreases hi - lo
    ensures forall k :: 0 <= k < |r| ==> lo <= r[k] <= hi && r[k] in orders && orders[r[k]].userId == user
    ensures forall k, l :: 0 <= k < l < |r| ==> r[k] > r[l]
    ensures forall id :: lo <= id <= hi && id in orders && orders[id].userId == user ==> id in r
  {
    if hi < lo then []
    else if hi in orders && orders[hi].userId == user then [hi] + OrderIdsOf(orders, user, lo, hi - 1)
    else OrderIdsOf(orders, user, lo, hi - 1)
  }

  /** Over a valid table the scan of `1..lastId` finds every row of the user. */
  lemma OrderIdsOfTable(orders: map<int, Order>, lastId: int, user: Value)
    requires TableValid(orders, lastId)
    ensures forall id :: id in orders && orders[id].userId == user ==> id in OrderIdsOf(orders, user, 1, lastId)
    ensures OrderIdsOf(orders, user, 1, lastId) == [] <==> forall id :: id in orders ==> orders[id].userId != user
  {
    var ids := OrderIdsOf(orders, user, 1, lastId);
    if ids != [] {
      assert ids[0] in orders && orders[ids[0]].userId == user;
    }
  }

  /** `statusEmoji[order.status] || '⏳'`. */
  function StatusEmoji(status: string): (r: string)
    ensures r == "⏳" <==> status !in {"paid", "in_progress", "completed", "cancelled"}
  {
    match status
    case "new" => "⏳"
    case "paid" => "✅"
    case "in_progress" => "🎨"
    case "completed" => "📦"
    case "cancelled" => "❌"
    case _ => "⏳"
  }

  /** One line of the listing: `#id - emoji status`, then the title and the price. */
  datatype Listed = Listed(id: int, emoji: string, status: string, title: Value, price: Value)

  /** The reply to "my orders": none yet, or the listed rows. */
  datatype OrdersReply = NoOrders | OrderList(entries: seq<Listed>)

  function Listing(orders: map<int, Order>, ids: seq<int>): (r: OrdersReply)
    requires forall k :: 0 <= k < |ids| ==> ids[k] in orders
    ensures r.NoOrders? <==> ids == []
    ensures r.OrderList? ==> |r.entries| == |ids| && forall k :: 0 <= k < |ids| ==>
      r.entries[k].id == orders[ids[k]].id && r.entries[k].status == orders[ids[k]].status
      && r.entries[k].emoji == StatusEmoji(orders[ids[k]].status)
      && r.entries[k].title == orders[ids[k]].paintingTitle && r.entries[k].price == orders[ids[k]].price
  {
    if ids == [] then NoOrders
    else OrderList(seq(|ids|, k requires 0 <= k < |ids| =>
      var o := orders[ids[k]];
      Listed(o.id, StatusEmoji(o.status), o.status, o.paintingTitle, o.price)))
  }
}
