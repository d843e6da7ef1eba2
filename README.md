# FlexyFrame ordering core in Dafny

FlexyFrame sells printed paintings. A storefront page lists the paintings, a Telegram bot
takes orders, and a small HTTP API and a payment webhook update the orders. This project
models the core of that flow and proves properties of it:

- **Catalog** (`data.js`): the eleven paintings, lookup by id with strict equality, lookup
  by short or full title, and the image path used by the browser and by the server.
- **Orders** (the pure parts of `bot.js`):
  - the order row and its table with auto-increment ids;
  - how the `/start` parameter is read: `order_<id>_<token>`, `order_<id>`, or the older
    `<id>_<price>`;
  - the token lookup that makes a deep link idempotent;
  - the payment link, built with `encodeURIComponent`;
  - the webhook's `Заказ #<n>` reference;
  - validation of `POST /api/order/create`;
  - the "my orders" listing and the status emoji table;
  - how SQLite stores and compares the values the handlers bind.
- **Bot** (`bot.js`): a class holding the `orders` table, the per-chat `userStates`
  selection and the log of administrator notices. Its methods are the `/start` handler, the
  deep-link handler, the two order-creating paths, the chat message handler, the inline
  buttons, the HTTP endpoints and the payment webhook.
- **Storefront** (`script.js`): a class holding the page state (`paintings`, `apiAvailable`,
  `selectedPainting`, `isLoading`, the touch coordinates). It covers:
  - the API row mapping and the fallback list;
  - toggle selection;
  - wrap-around previous/next navigation and swipes;
  - the loading guard;
  - the order hand-off that builds the deep link;
  - the header that hides while scrolling down.
- **Flow**: the page's deep links as the bot parses them, and the page's order request as the
  bot validates it.

JavaScript values are modelled by `Js.Value` (undefined, null, booleans, integers, NaN and
strings), with `parseInt`, `String()` and truthiness written out. The model keeps two
behaviours of the source as they are:

- The storefront puts the created **order id** in the slot of the deep link that the bot
  reads as the **painting id** (`Flow.ApiLinkReadsOrderIdAsPaintingId`).
- The "existing order" card reads a `status` column that its query never selected, so it
  shows the text `undefined` as the status (`Orders.ExistingOrderShowsUndefined`).

The payment webhook ends with `res.status(200).send('OK')` (bot.js:835), but that line is
not reached when reading the description throws (bot.js:827): a successful payment without
an `object`, or with a description that is neither a string nor null/undefined. Express then
answers 500, and so does the model (`Bot.OrderBot.PaymentWebhook`).

## Model

| member | source | states |
|---|---|---|
| Catalog.CatalogShape | data.js:4-97 | the catalog holds 11 paintings, with ids 1..11 in list order, each costing 4200 and each with a non-empty title |
| Catalog.FindById | data.js:131-133 | a painting is found exactly when the id is strictly equal (`===`) to a catalog id, and the one found carries that id |
| Catalog.FindIdIn | data.js:131-133 | scanning a list for an id finds a painting that carries that id and is in the list; none iff no painting of the list carries it |
| Catalog.FindByNumber | data.js:131-133 | a number finds a painting iff it is a catalog id 1..11 |
| Catalog.FindByIdExact | data.js:131-133 | lookup succeeds iff the id is the number 1..11, and then yields the painting at position id-1; a numeric string never matches |
| Catalog.FindByTitle | data.js:136-138 | the first painting whose short or full title equals the text; none iff no painting has it |
| Catalog.TitlesDistinct | data.js:4-97 | no two paintings share a title or full title |
| Catalog.FindByOwnTitle | data.js:136-138 | every painting is found again by its own short title and by its own full title |
| Catalog.ServerCandidates | data.js:108-121 | the server tries the painting's file, then its title with .jpg, .png and .jpeg, all under the category folder |
| Catalog.ImagePath | data.js:100-128 | in the browser the path is `category/file`; on the server it is the first candidate on disk, or the logo when there is none |
| Catalog.ImagePathAgrees | data.js:100-128 | when the painting's own file exists, server and browser resolve the same path, and the server always yields an existing file or the logo |
| Strings.Split | bot.js:137 | `split` returns at least one part, no part holds the separator, the parts joined back give the input, and there is one part iff the separator is absent |
| Strings.SplitFirst | bot.js:137 | splitting `a + sep + b` yields `a` followed by the parts of `b` |
| Js.ParseIntOfDecimal | bot.js:773 | reading back the decimal text of any integer gives that integer, whatever non-digit follows it |
| Js.FindIndex | script.js:1006 | `findIndex` returns the first index that satisfies the predicate, or -1 iff none does |
| Uri.EncodeURIComponent | bot.js:668 | the output uses only unreserved characters and `%` followed by upper-case hex digits |
| Uri.DecodeEncode | bot.js:668 | decoding the encoding of any string gives the string back |
| Uri.EncodeUnreservedIsIdentity | bot.js:668 | a string of unreserved characters is left unchanged |
| Uri.OverlongRefused | bot.js:668 | the decoder that checks the round trip refuses the overlong form `%C0%80`, as `decodeURIComponent` does |
| Orders.MarkPaidPreserves | bot.js:830 | marking an existing row paid and setting its payment id preserves the table |
| Orders.SqlIntegerOfDecimal | bot.js:542 | the decimal text of any integer is read by SQLite as that integer |
| Orders.SqlIntegerPadded | bot.js:540-542 | the decimal text of any integer with spaces (space, `\t` to `\r`) before or after it is read by SQLite as that integer, so `" 5"` selects row 5 |
| Orders.TrimStartKeeps | bot.js:542 | the leading spaces SQLite skips are exactly those before the first other character |
| Orders.TrimEndKeeps | bot.js:542 | the trailing spaces SQLite skips are exactly those after the last other character |
| Orders.RowFor | bot.js:775 | `WHERE id = ?` selects a row iff the bound value denotes an id in the table, and then that row; a number denotes itself |
| Orders.PaidButtonSelectsOrder | bot.js:773 | the `paid_<id>` button of an order selects that order's row again |
| Orders.IntegerColumn | bot.js:45-49 | an INTEGER column keeps numbers and null as they are and never stores undefined or NaN |
| Orders.TextColumn | bot.js:46-52 | a TEXT column stores text or null: text as it is, and a number as its decimal text |
| Orders.StartParam | bot.js:82 | the word after `/start` exists iff the text holds a space, and it holds no space |
| Orders.ParseStartParam | bot.js:130-147 | the painting id is a number or NaN; only an `order_` parameter yields a token, and a token never holds `_` |
| Orders.ParseOrderWithToken | bot.js:135-143 | `order_<a>_<b>...` yields painting id `parseInt(a)` and token `b` |
| Orders.ParseOrderWithoutToken | bot.js:135-143 | `order_<a>` yields painting id `parseInt(a)` and no token |
| Orders.ParseLegacy | bot.js:144-147 | any other `<a>_<rest>` yields painting id `parseInt(a)` and no token |
| Orders.BaseUrl | bot.js:667 | at most one trailing `/` is removed from the site URL, and it is removed iff there is one |
| Orders.PaymentLinkFields | bot.js:666-671 | about `Orders.PaymentLink`, the model of `generatePaymentLink`: the link is the base URL, `/payment.html?order=` and then the order id, `&title=`, the encoded title, `&price=` and the price; `parseInt` of the text after `order=` reads back the order id; the encoded title holds no `&` or `=`, and it decodes to the title |
| Orders.PaymentLinkIgnoresTrailingSlash | bot.js:666-671 | a site URL with or without a trailing `/` gives the same link |
| Orders.OrderRef | bot.js:827 | what `/Заказ #(\d+)/` captures is a non-empty run of decimal digits |
| Orders.OrderRefIffMatch | bot.js:827 | the reference exists iff the marker followed by a digit occurs somewhere |
| Orders.OrderRefOfDescription | bot.js:827 | a description `pre + "Заказ #" + n + rest`, with no `З` in `pre` and no digit starting `rest`, yields the decimal text of `n` |
| Orders.OrderRefAfter | bot.js:827 | text before the marker that holds no `З` does not change what is captured |
| Orders.WebhookActionOf | bot.js:824-836 | the handler fails iff the payment succeeded and the object is missing or its description is neither a string nor null/undefined; it marks an order paid, with the payment's id, exactly when the payment succeeded and its string description holds a reference, and the order is the one that reference names; other events are ignored |
| Orders.WebhookMarksOrder | bot.js:824-836 | a successful payment whose description names order `n` marks paid, with the payment's id, the reference that selects row `n` |
| Orders.TokenOwner | bot.js:164 | the lowest id in the range whose row carries the token; none iff no such row |
| Orders.TokenOwnerAfterInsert | bot.js:164 | after a row with a token no earlier row has is inserted under the next id, the lookup finds that row |
| Orders.Decide | bot.js:130-220 | no painting iff the parsed id matches no catalog painting; an existing order only for a non-empty token that the order carries; a new order with the link's token only when no row has it |
| Orders.TokenLinkIdempotent | bot.js:161-220 | opening the same token link again after the order was created finds that order instead of creating a second one |
| Orders.OrderToken | bot.js:225 | the link's token when it is non-empty, else the fresh random token |
| Orders.HexTokenHasNoSeparator | bot.js:225 | a 16-hex-digit token holds no `_` and is not empty |
| Orders.StatusLabel | bot.js:179 | `new` shows "awaiting payment", `paid` shows "paid", and any other value is shown as its own text |
| Orders.ExistingOrderShowsUndefined | bot.js:164-179 | the existing-order card, whose query did not select `status`, always shows the text `undefined` |
| Orders.PaintingMentioned | bot.js:383 | the first catalog painting whose short title occurs in the text; none iff no title occurs |
| Orders.ValidateCreate | bot.js:568-579 | 400 iff a field is falsy; 404 iff all are truthy but the painting id matches no catalog id strictly; otherwise the painting with that id |
| Orders.ValidateCreateAccepts | bot.js:568-579 | with truthy other fields, a request is accepted iff the painting id is the number 1..11; a numeric string is always refused |
| Orders.OrderIdsOf | bot.js:723 | exactly the ids of the user's rows in the range, in strictly decreasing order (newest first) |
| Orders.OrderIdsOfTable | bot.js:723 | the user's list is empty iff no row belongs to the user |
| Orders.StatusEmoji | bot.js:737-746 | the emoji is ⏳ exactly for `new` and for every status outside the table |
| Orders.Listing | bot.js:728-750 | no rows gives the "no orders" reply; otherwise one entry per id, in order, with the row's id, its status, that status's emoji, its painting title and its price |
| Bot.OrderBot.constructor | bot.js:12-13 | an empty environment value falls back to the placeholder admin chat and the local site URL; the table starts empty |
| Bot.OrderBot.ChatNotice | bot.js:284 | the chat paths notify the administrator iff it is not the placeholder |
| Bot.OrderBot.Insert | bot.js:228-229 | the row goes under the next id with status `new` and no payment id; the rest of the table is unchanged |
| Bot.OrderBot.Start | bot.js:71-127 | a parameter holding `_` runs the deep-link handler; any other `/start` replies with the greeting and changes nothing |
| Bot.OrderBot.MiniAppOrder | bot.js:130-220 | for an unknown painting: not-found and no change; for a token some row carries: that order's card and no change; otherwise a new order, carrying the link's token when there is one |
| Bot.OrderBot.CreateOrderFromMiniApp | bot.js:223-302 | appends a `new` row for the chat with the painting's id, title and price and the given or fresh token, notifies the administrator unless it is the placeholder, and replies with the payment link |
| Bot.OrderBot.Message | bot.js:378-445 | a text naming a painting remembers it for the chat; "order" with a remembered catalog painting then creates exactly one order from it and forgets it, and otherwise the table and notices are unchanged; "other" and "back" forget the chat's painting |
| Bot.MessageTouchesOnlyItsChat | bot.js:378-445 | a message changes no other chat's entry of `userStates` |
| Bot.OrderBot.Remember | bot.js:383-386 | the chat's selection becomes the first painting named in the text, if any; nothing else changes |
| Bot.OrderBot.OrderButtonPressed | bot.js:417-420 | the order button with a remembered catalog painting creates one order from it and forgets it; otherwise nothing changes |
| Bot.OrderBot.CreateOrder | bot.js:448-535 | creates a `new` row from the selection when its painting id is in the catalog, with a fresh token, and otherwise changes nothing |
| Bot.OrderBot.Callback | bot.js:763-807 | `paid_` buttons go to the paid-button step with `parseInt` of the rest; `my_orders` lists the chat's orders; anything else is ignored and changes nothing |
| Bot.OrderBot.PaidButton | bot.js:772-800 | not-found and no change unless row `n` belongs to the chat; already-paid and no change for a paid row; otherwise the row becomes paid and the administrator is told |
| Bot.OrderBot.MyOrders | bot.js:722-760 | no orders iff no row belongs to the chat; otherwise the chat's rows, newest first, each with its status, status emoji, painting title and price |
| Bot.OrderBot.ApiCreate | bot.js:568-616 | 400 or 404 changes nothing; otherwise it stores a `new` row with the values as SQLite's columns keep them, notifies the administrator, and returns the id, the payment link and the token |
| Bot.OrderBot.InsertApiOrder | bot.js:581-615 | the accepted request becomes a `new` row under the next id, the administrator is told, and the answer carries the id, the payment link and the token |
| Bot.OrderBot.ApiMarkPaid | bot.js:619-649 | 404 iff no row has the id; otherwise that row becomes paid, and the status endpoint then reports `paid` |
| Bot.OrderBot.ApiStatus | bot.js:540-551 | the status of the row whose id the parameter denotes, or 404 iff there is none |
| Bot.OrderBot.ApiOrder | bot.js:554-565 | the whole row whose id the parameter denotes, or 404 iff there is none |
| Bot.OrderBot.PaymentWebhook | bot.js:824-836 | answers 500 iff the body makes the handler throw, else 200; a referenced existing order becomes paid with the payment id, and nothing else changes |
| Storefront.ToItem | script.js:11-18 | the item copies id, title, category and badge; its price is `<price>₽` and its image is the browser image path |
| Storefront.ToItems | script.js:11-18 | the mapping is applied row by row, in order |
| Storefront.IndexOfId | script.js:1006 | the first index whose item has the id, or -1 iff no item has it |
| Storefront.ItemWithId | script.js:353 | the first item with the id; none iff no item has it |
| Storefront.NextSelection | script.js:1040-1075 | the item after the selected one, the first item after the last one or when the selected item is not in the list, and no change without a selection or with an empty list |
| Storefront.PrevSelection | script.js:1003-1038 | the item before the selected one, the last item before the first one or when the selected item is not in the list, and no change without a selection or with an empty list |
| Storefront.IndexOfOwnId | script.js:1006 | with distinct ids, the item at position i is found at position i |
| Storefront.NextThenPrev | script.js:1003-1075 | with distinct ids, next then previous gives back the selected item, and so does previous then next |
| Storefront.SwipeOf | script.js:988-1000 | a move left by more than 50px is "next", a move right by more than 50px is "previous", and anything else is a tap; the three cases exclude each other |
| Storefront.RequestFor | script.js:795-800 | the request names the item's id and title, and its price is `parseInt` of the price text |
| Storefront.Page.constructor | script.js:2-3 | no paintings, the API unavailable, nothing selected, not loading |
| Storefront.Page.LoadPaintings | script.js:6-111 | an API answer gives the mapped rows and marks the API available; otherwise the fallback list is used and the flag is left as it was |
| Storefront.Page.ShowLoading | script.js:150-163 | does nothing while loading; otherwise sets the loading flag |
| Storefront.Page.HideLoading | script.js:165-172 | clears the loading flag and nothing else |
| Storefront.Page.SelectPainting | script.js:351-381 | an unknown id keeps the selection and ends loading; the selected id clears the selection; any other id becomes the selection |
| Storefront.Page.NavigateToNext | script.js:1040-1075 | the selection becomes its next item |
| Storefront.Page.NavigateToPrevious | script.js:1003-1038 | the selection becomes its previous item |
| Storefront.Page.TouchStart | script.js:976-978 | records where the touch started and changes nothing else: not the end point, the list, the selection or the loading flag |
| Storefront.Page.TouchEnd | script.js:981-984 | records the end point and then moves the selection as the swipe says |
| Storefront.Page.HandleSwipe | script.js:988-1000 | a left swipe moves to the next item, a right swipe to the previous one, and a tap changes nothing |
| Storefront.Page.ProceedToOrder | script.js:720-756 | the order dialog opens iff a painting is selected; the selection is kept |
| Storefront.Page.OpenTelegramBot | script.js:771-879 | without a selection nothing happens; with the API, it posts the request and, in a browser, opens `order_<order id>_<token>`, or keeps the selection on an error; without the API a browser opens `order_<painting id>`; inside the Telegram Mini App both paths close the Mini App and open no link; on success the selection is cleared, and loading is over at the end |
| Storefront.Header.OnScroll | script.js:1130-1163 | at a scroll offset of at most 200px the header shows; at more than 200px, scrolling down hides it and scrolling up leaves it; the last offset is recorded, and a hidden header implies a last offset of more than 200px |
| Flow.StartParamOfCommand | bot.js:82 | `/start <p>` carries `p` as the start parameter when `p` holds no space |
| Flow.ApiLinkReadsOrderIdAsPaintingId | script.js:807 | the page's `order_<order id>_<token>` reaches the bot as a request for the painting whose id equals the order id, with the token intact |
| Flow.FallbackLinkReadsPaintingId | script.js:838 | the page's `order_<painting id>` reaches the bot as a request for that painting, with no token |
| Flow.DecideById | bot.js:139-160 | a start parameter naming the number `id` finds no painting iff `id` is outside 1..11, and otherwise the painting with that id |
| Flow.ApiLinkDecision | bot.js:139-160 | for the page's token link the bot finds no painting iff the order id is outside 1..11, and otherwise picks the painting whose id equals the order id |
| Flow.LinksAreOneWord | script.js:807-808 | both links the page builds reach the deep-link parsing whole |
| Flow.RequestOfRow | script.js:795-800 | the page's request for a mapped catalog row carries the row's id, title and price; the price text reads back as the price |
| Flow.RequestValidatesAs | bot.js:568-579 | a request with a truthy user id that names a painting the lookup finds, with its title and price, is accepted for that painting |
| Flow.PageRequestAccepted | script.js:795-800 | the page's request for a catalog painting, with a truthy user id, passes the API's validation and names that painting |

## Left out

- Telegram I/O is not modelled: messages, photos with their text fallback, keyboards, the
  greeting and help texts, and deleting the `/start` message. Replies are datatypes, and
  administrator messages are an appended log of notices.
- The `users` table upsert in `/start` is left out. Nothing the core computes reads it.
- SQLite runs its callbacks asynchronously and can report errors. Each handler is modelled as
  one atomic step that succeeds, so interleavings and database errors are not captured.
- SQLite type affinity is modelled only for integers and integer text. Fractional numbers
  are not modelled, because `Js.Value` holds integer numbers only. JavaScript number
  precision is not modelled either: integers are unbounded, whereas JavaScript loses
  precision above 2^53, and `String()` writes numbers of 1e21 or more in exponent form.
- `ORDER BY created_at DESC` is modelled as descending id, because rows are inserted with
  increasing ids and timestamps. The model puts the newer id first even for rows inserted
  within the same second, where SQLite leaves the order among equal `created_at` values
  unspecified.
- The token lookup (`SELECT id ... WHERE token = ?` without `ORDER BY`) is modelled as
  returning the lowest matching id.
- The menu router's buttons other than "my orders" only send texts, so they are left out
  (choose painting, mini app link, how it works, about).
- Checking that the bot token is set at start-up is left out. It is process set-up, not
  behaviour of the core.
- The bot's handlers are modelled one by one. The library hands every text message to all
  of them: a Telegram text message is `Bot.OrderBot.Message`, plus `Bot.OrderBot.MyOrders`
  for the "my orders" button, followed by `Bot.OrderBot.Start` when the text contains
  `/start`. So a `/start` text that names a painting both remembers it and greets. That
  composition is not stated as one operation.
- Bot.OrderBot.Message: only text messages are modelled. A message without text makes
  the source's `text.includes` throw, and the model does not capture that.
- Orders.StatusEmoji: looking up inherited object keys such as `constructor` in the emoji
  table is not modelled. Such a status gets ⏳ here.
- The second webhook server on port 3000 is not modelled separately. It runs the same
  handler as `Bot.OrderBot.PaymentWebhook`.
- Static file serving is left out, and so are `path.join` normalisation and `__dirname`
  in the server image path. `Catalog.ImagePath` takes the set of existing files as a
  parameter. Its browser branch (data.js:124-127) is modelled as written. A page without a
  module loader would throw a `ReferenceError` at `require('path')` (data.js:101-102) before
  reaching that branch; the storefront never calls this function.
- The storefront's user-id fallback is a parameter of `Storefront.Page.OpenTelegramBot`.
  It is left out because it reads `localStorage`, the clock and `Math.random`.
- The `fetch` answers are parameters of the storefront methods, and so is whether the page
  runs inside the Telegram Mini App (`inMiniApp`, the presence of `window.Telegram.WebApp`).
  Inside the Mini App the page only closes itself; the 1.5 second delay before it closes
  is left out. The DOM, notifications, modals, the fullscreen gallery, timers, animations
  and lazy loading are left out.
- Orders.SqlInteger: SQLite also reads real-form text such as `5.0` or `5e0` as the integer
  5 when the conversion loses nothing, and text beyond 64 bits as a real. The model reads
  only an optional sign and digits, with spaces around them, so `WHERE id = '5.0'` selects
  no row here but row 5 in SQLite, and an INTEGER column keeps such text as text.
- Bot.OrderBot.ApiCreate: a JSON body can carry an unpaired surrogate in `painting_title`
  (`"\ud800"`). It is truthy, so the request passes the field check (bot.js:570) and the
  row is inserted. Then `encodeURIComponent` throws a URIError inside the insert callback
  (bot.js:592, 670): no answer is sent and the exception is uncaught. Strings here hold
  Unicode scalar values only, so that input and its outcome are not modelled.
- Bot.OrderBot.ApiOrder: the answer is the modelled row, which drops two columns that
  `SELECT *` returns: `user_name`, always NULL, and `created_at`, the insertion time taken
  from the database clock. For the same reason the "my orders" listing
  (`Bot.OrderBot.MyOrders`) leaves out each order's `📅` date line.
- Storefront.FallbackItems: the fallback list is written out as the page writes it. That it
  equals the API mapping of the catalog is not proved, because comparing the two literal
  lists is beyond the solver's resource limit.
- Storefront.Page.OpenTelegramBot: the order id and token returned by the API are taken as
  an integer and a string. Their `${...}` rendering of other JSON values is not modelled.
- Storefront.Page.OpenTelegramBot: a failed API call leaves the selection in place and loading
  ends. The "open Telegram manually" confirmation after it is not modelled.
