/** The storefront page (script.js): the list of paintings the page shows, the selected
    painting with toggle-select, wrap-around previous/next navigation and swipes, the loading
    flag, the order hand-off to the bot, and the header that hides while scrolling down. */
module Storefront {
  import opened Wrappers
  import opened Js
  import opened Catalog

  /** A painting as the page keeps it: the price is display text and the image a URL. */
  datatype Item = Item(id: int, title: string, category: string, price: string, image: string, badge: Option<string>)

  /** The row mapping applied to `/api/paintings`: price text `<price>₽`, image URL
      `category/file`. */
  function ToItem(p: Painting): (it: Item)
    ensures it.id == p.id && it.title == p.title && it.category == p.category && it.badge == p.badge
    ensures it.price == Decimal(p.price) + "₽"
    ensures it.image == ImagePath(p, true, {})
  {
    Item(p.id, p.title, p.category, Decimal(p.price) + "₽", p.category + "/" + p.file, p.badge)
  }

  function ToItems(ps: seq<Painting>): (items: seq<Item>)
    ensures |items| == |ps| && forall i :: 0 <= i < |ps| ==> items[i] == ToItem(ps[i])
  {
    seq(|ps|, i requires 0 <= i < |ps| => ToItem(ps[i]))
  }

  /** The list the page falls back to when the API cannot be reached, written out as the
      page writes it (the same eleven paintings as the catalog). */
  const FallbackItems: seq<Item> := [
    Item(1, "Аркейн Триумвират", "Аркейн", "4200₽", "Аркейн/Аркейн Триумвират Заводского Города.jpg", Some("Хит")),
    Item(2, "Глитч-Давид", "Давид", "4200₽", "Давид/Глитч-Давид Рождение в цифровом хаосе.jpg", Some("Новинка")),
    Item(3, "Цифровая Древность", "Давид", "4200₽", "Давид/Цифровая Древность Голубой Давид.jpg", None),
    Item(4, "Железный Человек", "Железный Человек", "4200₽", "Железный Человек/Железный Человек Перерыв на обед.jpg", None),
    Item(5, "Мысли в облаках", "Земфира", "4200₽", "Земфира/Мысли в облаках.jpg", None),
    Item(6, "КэнтоНанами", "Магическая битва", "4200₽", "Магическая битва/КэнтоНанами.png", Some("Хит")),
    Item(7, "Скрудж Макдак", "Скрудж", "4200₽", "Скрудж/Скрудж Макдак Граффити-Миллиардер.jpg", None),
    Item(8, "Танос Император", "Танос", "4200₽", "Танос/Танос Император Бесконечности.jpg", None),
    Item(9, "Геймерский Энерджи", "Live", "4200₽", "Live/Геймерский Энерджи Граффити на контроллере.jpg", Some("Хит")),
    Item(10, "Ночной Волк", "Live", "4200₽", "Live/Ночной Волк Мастер звуков.jpg", None),
    Item(11, "Примат Премиум", "Live", "4200₽", "Live/Примат Премиум Король улицы.jpg", None)
  ]

  // ---------------------------------------------------------------- navigation

  /** `paintings.findIndex(p => p.id === id)`. */
  function IndexOfId(items: seq<Item>, id: int): (r: int)
    ensures -1 <= r < |items|
    ensures r >= 0 ==> items[r].id == id && forall j :: 0 <= j < r ==> items[j].id != id
    ensures r == -1 <==> forall j :: 0 <= j < |items| ==> items[j].id != id
  {
    FindIndex(items, (it: Item) => it.id == id)
  }

  /** `paintings.find(p => p.id === id)`. */
  function ItemWithId(items: seq<Item>, id: int): (r: Option<Item>)
    ensures r.None? <==> IndexOfId(items, id) == -1
    ensures r.Some? ==> r.value == items[IndexOfId(items, id)]
  {
    var k := IndexOfId(items, id);
    if k < 0 then None else Some(items[k])
  }

  /** The selection after `navigateToNext`: the painting after the selected one, the first
      after the last one (or when the selected one is not in the list); unchanged with no
      selection or an empty list. */
  function NextSelection(items: seq<Item>, sel: Option<Item>): (r: Option<Item>)
    ensures sel.None? || |items| == 0 ==> r == sel
    ensures sel.Some? && |items| > 0 ==>
      var k := IndexOfId(items, sel.value.id);
      r == Some(if 0 <= k < |items| - 1 then items[k + 1] else items[0])
  {
    if sel.None? then sel
    else
      var k := IndexOfId(items, sel.value.id);
      var next := if k < |items| - 1 then k + 1 else 0;
      if next < |items| then Some(items[next]) else sel
  }

  /** The selection after `navigateToPrevious`: the painting before the selected one, the
      last before the first one (or when the selected one is not in the list); unchanged with
      no selection or an empty list. */
  function PrevSelection(items: seq<Item>, sel: Option<Item>): (r: Option<Item>)
    ensures sel.None? || |items| == 0 ==> r == sel
    ensures sel.Some? && |items| > 0 ==>
      var k := IndexOfId(items, sel.value.id);
      r == Some(if k > 0 then items[k - 1] else items[|items| - 1])
  {
    if sel.None? then sel
    else
      var k := IndexOfId(items, sel.value.id);
      var prev := if k > 0 then k - 1 else |items| - 1;
      if 0 <= prev then Some(items[prev]) else sel
  }

  /** No two items share an id. */
  predicate DistinctIds(items: seq<Item>) {
    forall i, j :: 0 <= i < j < |items| ==> items[i].id != items[j].id
  }

  /** With distinct ids, the index of the item at position `i` is `i`. */
  lemma IndexOfOwnId(items: seq<Item>, i: int)
    requires DistinctIds(items) && 0 <= i < |items|
    ensures IndexOfId(items, items[i].id) == i
  {
    var k := IndexOfId(items, items[i].id);
    assert k != -1;
  }

  /** Next then previous comes back to the painting one started from, and so does previous
      then next, when the ids are distinct and the selection is one of the list's items. */
  lemma NextThenPrev(items: seq<Item>, i: int)
    requires DistinctIds(items) && 0 <= i < |items|
    ensures PrevSelection(items, NextSelection(items, Some(items[i]))) == Some(items[i])
    ensures NextSelection(items, PrevSelection(items, Some(items[i]))) == Some(items[i])
  {
    IndexOfOwnId(items, i);
    var n := if i < |items| - 1 then i + 1 else 0;
    IndexOfOwnId(items, n);
    var p := if i > 0 then i - 1 else |items| - 1;
    IndexOfOwnId(items, p);
  }

  // ---------------------------------------------------------------- swipes

  /** How far a touch has to travel, in pixels, to count as a swipe. */
  const SwipeThreshold: int := 50

  datatype Swipe = Left | Right | Tap

  /** A swipe to the left beyond the threshold goes to the next painting, one to the right
      to the previous one; a shorter movement does nothing. */
  function SwipeOf(startX: int, endX: int): (s: Swipe)
    ensures s == Left <==> endX < startX - SwipeThreshold
    ensures s == Right <==> endX > startX + SwipeThreshold
    ensures s == Tap <==> -SwipeThreshold <= endX - startX <= SwipeThreshold
  {
    if endX < startX - SwipeThreshold then Left
    else if endX > startX + SwipeThreshold then Right
    else Tap
  }

  // ---------------------------------------------------------------- order hand-off

  /** The bot address the deep links open. */
  const BotStartUrl: string := "https://t.me/flexyframe_bot?start="

  /** The body `openTelegramBot` posts to `/api/order/create`. */
  datatype CreateRequest = CreateRequest(userId: Value, paintingId: Value, paintingTitle: Value, price: Value)

  /** The request for a selected item; the price is `parseInt` of its price text. */
  function RequestFor(userId: Value, it: Item): (r: CreateRequest)
    ensures r.paintingId == Number(it.id) && r.paintingTitle == Str(it.title) && r.userId == userId
    ensures r.price == ParseInt(it.price)
  {
    CreateRequest(userId, Number(it.id), Str(it.title), ParseInt(it.price))
  }

  /** The start parameter with the API: `order_<order_id>_<token>`. */
  function ApiStartParam(orderId: int, token: string): string {
    "order_" + Decimal(orderId) + "_" + token
  }

  /** The start parameter without the API: `order_<painting id>`. */
  function FallbackStartParam(paintingId: int): string {
    "order_" + Decimal(paintingId)
  }

  /** What `openTelegramBot` did: nothing without a selection; in a browser, open the bot
      with a link; inside the Telegram Mini App, close the Mini App without opening any link;
      or fail when the API answered with an error. The request is the one posted first when
      the API is available. */
  datatype OpenOutcome =
    | NoSelection
    | Opened(request: Option<CreateRequest>, url: string)
    | ClosedMiniApp(request: Option<CreateRequest>)
    | Failed(sent: CreateRequest)

  class Page {
    var paintings: seq<Item>
    var apiAvailable: bool
    var selected: Option<Item>
    var isLoading: bool
    var touchStartX: int
    var touchEndX: int

    constructor()
      ensures paintings == [] && !apiAvailable && selected == None && !isLoading
      ensures touchStartX == 0 && touchEndX == 0
    {
      paintings := [];
      apiAvailable := false;
      selected := None;
      isLoading := false;
      touchStartX := 0;
      touchEndX := 0;
    }

    /** `loadPaintingsData`: the mapped API rows when the API answers, the fallback list
        otherwise; only an answer marks the API available. */
    method LoadPaintings(response: Option<seq<Painting>>)
      modifies this
      ensures response.Some? ==> paintings == ToItems(response.value) && apiAvailable
      ensures response.None? ==> paintings == FallbackItems && apiAvailable == old(apiAvailable)
      ensures selected == old(selected) && isLoading == old(isLoading)
      ensures touchStartX == old(touchStartX) && touchEndX == old(touchEndX)
    {
      if response.Some? {
        paintings := ToItems(response.value);
        apiAvailable := true;
      } else {
        paintings := FallbackItems;
      }
    }

    /** `showLoading`: does nothing while loading, else raises the flag. */
    method ShowLoading()
      modifies this
      ensures isLoading
      ensures old(isLoading) ==> unchanged(this)
      ensures paintings == old(paintings) && apiAvailable == old(apiAvailable) && selected == old(selected)
      ensures touchStartX == old(touchStartX) && touchEndX == old(touchEndX)
    {
      if isLoading {
        return;
      }
      isLoading := true;
    }

    /** `hideLoading`: lowers the flag. */
    method HideLoading()
      modifies this
      ensures !isLoading
      ensures paintings == old(paintings) && apiAvailable == old(apiAvailable) && selected == old(selected)
      ensures touchStartX == old(touchStartX) && touchEndX == old(touchEndX)
    {
      isLoading := false;
    }

    /** `selectPainting(id)`: an id not in the list leaves the selection and ends any
        loading (the error handler hides the indicator); the selected id clears the
        selection; any other id becomes the selection. */
    method SelectPainting(id: int)
      modifies this
      ensures paintings == old(paintings) && apiAvailable == old(apiAvailable)
      ensures touchStartX == old(touchStartX) && touchEndX == old(touchEndX)
      ensures ItemWithId(paintings, id).None? ==> selected == old(selected) && !isLoading
      ensures ItemWithId(paintings, id).Some? ==> isLoading == old(isLoading)
      ensures ItemWithId(paintings, id).Some? && old(selected).Some? && old(selected).value.id == id ==> selected == None
      ensures ItemWithId(paintings, id).Some? && !(old(selected).Some? && old(selected).value.id == id) ==>
        selected == ItemWithId(paintings, id)
    {
      var painting := ItemWithId(paintings, id);
      if painting.None? {
        HideLoading();
        return;
      }
      if selected.Some? && selected.value.id == id {
        selected := None;
        return;
      }
      selected := painting;
    }

    /** `navigateToNext`. */
    method NavigateToNext()
      modifies this
      ensures selected == NextSelection(old(paintings), old(selected))
      ensures paintings == old(paintings) && apiAvailable == old(apiAvailable) && isLoading == old(isLoading)
      ensures touchStartX == old(touchStartX) && touchEndX == old(touchEndX)
    {
      if selected.None? {
        return;
      }
      var currentIndex := IndexOfId(paintings, selected.value.id);
      var nextIndex := if currentIndex < |paintings| - 1 then currentIndex + 1 else 0;
      if nextIndex < |paintings| {
        selected := Some(paintings[nextIndex]);
      }
    }

    /** `navigateToPrevious`. */
    method NavigateToPrevious()
      modifies this
      ensures selected == PrevSelection(old(paintings), old(selected))
      ensures paintings == old(paintings) && apiAvailable == old(apiAvailable) && isLoading == old(isLoading)
      ensures touchStartX == old(touchStartX) && touchEndX == old(touchEndX)
    {
      if selected.None? {
        return;
      }
      var currentIndex := IndexOfId(paintings, selected.value.id);
      var prevIndex := if currentIndex > 0 then currentIndex - 1 else |paintings| - 1;
      if 0 <= prevIndex {
        selected := Some(paintings[prevIndex]);
      }
    }

    /** The `touchstart` listener. */
    method TouchStart(x: int)
      modifies this
      ensures touchStartX == x && touchEndX == old(touchEndX)
      ensures paintings == old(paintings) && apiAvailable == old(apiAvailable)
      ensures selected == old(selected) && isLoading == old(isLoading)
    {
      touchStartX := x;
    }

    /** The `touchend` listener: records the end point and handles the swipe. */
    method TouchEnd(x: int)
      modifies this
      ensures touchEndX == x && touchStartX == old(touchStartX)
      ensures SwipeOf(touchStartX, x) == Left ==> selected == NextSelection(old(paintings), old(selected))
      ensures SwipeOf(touchStartX, x) == Right ==> selected == PrevSelection(old(paintings), old(selected))
      ensures SwipeOf(touchStartX, x) == Tap ==> selected == old(selected)
      ensures paintings == old(paintings) && apiAvailable == old(apiAvailable) && isLoading == old(isLoading)
    {
      touchEndX := x;
      HandleSwipe();
    }

    /** `handleSwipe`: the two tests run one after the other, and at most one of them holds. */
    method HandleSwipe()
      modifies this
      ensures SwipeOf(touchStartX, touchEndX) == Left ==> selected == NextSelection(old(paintings), old(selected))
      ensures SwipeOf(touchStartX, touchEndX) == Right ==> selected == PrevSelection(old(paintings), old(selected))
      ensures SwipeOf(touchStartX, touchEndX) == Tap ==> selected == old(selected)
      ensures paintings == old(paintings) && apiAvailable == old(apiAvailable) && isLoading == old(isLoading)
      ensures touchStartX == old(touchStartX) && touchEndX == old(touchEndX)
    {
      if touchEndX < touchStartX - SwipeThreshold {
        NavigateToNext();
      }
      if touchEndX > touchStartX + SwipeThreshold {
        NavigateToPrevious();
      }
    }

    /** `proceedToOrder`: without a selection only an error is shown; with one the
        confirmation opens and the selection is kept. */
    method ProceedToOrder() returns (confirming: bool)
      modifies this
      ensures confirming <==> old(selected).Some?
      ensures unchanged(this)
    {
      confirming := selected.Some?;
    }

    /** `openTelegramBot`. With the API, `userId` is the id the page sends and `response` the
        order id and token the API answered, or none when it answered with an error.
        `inMiniApp` says whether `window.Telegram.WebApp` is present. Without a selection
        nothing happens; an error keeps the selection; every other path clears it. Only a
        browser opens the deep link; the Mini App is closed instead. The loading flag is down
        at the end whenever a selection existed. */
    method OpenTelegramBot(userId: Value, response: Option<(int, string)>, inMiniApp: bool) returns (outcome: OpenOutcome)
      modifies this
      ensures paintings == old(paintings) && apiAvailable == old(apiAvailable)
      ensures touchStartX == old(touchStartX) && touchEndX == old(touchEndX)
      ensures old(selected).None? ==> outcome == NoSelection && unchanged(this)
      ensures old(selected).Some? ==> !isLoading
      ensures old(selected).Some? && apiAvailable && response.None? ==>
        outcome == Failed(RequestFor(userId, old(selected).value)) && selected == old(selected)
      ensures old(selected).Some? && apiAvailable && response.Some? && !inMiniApp ==>
        outcome == Opened(Some(RequestFor(userId, old(selected).value)),
                          BotStartUrl + ApiStartParam(response.value.0, response.value.1))
        && selected == None
      ensures old(selected).Some? && apiAvailable && response.Some? && inMiniApp ==>
        outcome == ClosedMiniApp(Some(RequestFor(userId, old(selected).value))) && selected == None
      ensures old(selected).Some? && !apiAvailable && !inMiniApp ==>
        outcome == Opened(None, BotStartUrl + FallbackStartParam(old(selected).value.id)) && selected == None
      ensures old(selected).Some? && !apiAvailable && inMiniApp ==>
        outcome == ClosedMiniApp(None) && selected == None
      ensures outcome.Opened? ==> !inMiniApp
    {
      if selected.None? {
        return NoSelection;
      }
      ShowLoading();
      var it := selected.value;
      if apiAvailable {
        var request := RequestFor(userId, it);
        if response.None? {
          HideLoading();
          return Failed(request);
        }
        var url := BotStartUrl + ApiStartParam(response.value.0, response.value.1);
        HideLoading();
        outcome := if inMiniApp then ClosedMiniApp(Some(request)) else Opened(Some(request), url);
      } else {
        var url := BotStartUrl + FallbackStartParam(it.id);
        HideLoading();
        outcome := if inMiniApp then ClosedMiniApp(None) else Opened(None, url);
      }
      selected := None;
    }
  }

  // ---------------------------------------------------------------- header

  /** Scroll offsets of more than this many pixels may hide the header. */
  const ScrollThreshold: int := 200

  /** The header's scroll listener: its own `lastScroll` and whether the header is hidden. */
  class Header {
    var lastScroll: int
    var hidden: bool

    /** A hidden header was last seen at an offset of more than the threshold. */
    predicate Valid()
      reads this
    {
      hidden ==> lastScroll > ScrollThreshold
    }

    constructor()
      ensures Valid() && lastScroll == 0 && !hidden
    {
      lastScroll := 0;
      hidden := false;
    }

    /** One animation frame after a scroll to `current`: at an offset of at most the threshold
        the header shows; at more than it, moving down hides it and moving up leaves it as it
        was. */
    method OnScroll(current: int)
      requires Valid()
      modifies this
      ensures Valid()
      ensures lastScroll == current
      ensures current <= ScrollThreshold ==> !hidden
      ensures current > ScrollThreshold && current > old(lastScroll) ==> hidden
      ensures current > ScrollThreshold && current <= old(lastScroll) ==> hidden == old(hidden)
    {
      if current > ScrollThreshold {
        if current > lastScroll {
          hidden := true;
        }
      } else {
        hidden := false;
      }
      lastScroll := current;
    }
  }
}
