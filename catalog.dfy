/** The painting catalog shared by the bot and the site: a fixed list of eleven paintings,
    lookups by id and by title, and the resolution of a painting's image path. */
module Catalog {
  import opened Wrappers
  import opened Js

  datatype Painting = Painting(
    id: int,
    title: string,
    fullTitle: string,
    category: string,
    price: int,
    file: string,
    badge: Option<string>)

  const Paintings: seq<Painting> := [
    Painting(1, "Аркейн Триумвират", "Аркейн Триумвират Заводского Города", "Аркейн", 4200,
      "Аркейн Триумвират Заводского Города.jpg", Some("Хит")),
    Painting(2, "Глитч-Давид", "Глитч-Давид Рождение в цифровом хаосе", "Давид", 4200,
      "Глитч-Давид Рождение в цифровом хаосе.jpg", Some("Новинка")),
    Painting(3, "Цифровая Древность", "Цифровая Древность Голубой Давид", "Давид", 4200,
      "Цифровая Древность Голубой Давид.jpg", None),
    Painting(4, "Железный Человек", "Железный Человек Перерыв на обед", "Железный Человек", 4200,
      "Железный Человек Перерыв на обед.jpg", None),
    Painting(5, "Мысли в облаках", "Мысли в облаках", "Земфира", 4200,
      "Мысли в облаках.jpg", None),
    Painting(6, "КэнтоНанами", "КэнтоНанами", "Магическая битва", 4200,
      "КэнтоНанами.png", Some("Хит")),
    Painting(7, "Скрудж Макдак", "Скрудж Макдак Граффити-Миллиардер", "Скрудж", 4200,
      "Скрудж Макдак Граффити-Миллиардер.jpg", None),
    Painting(8, "Танос Император", "Танос Император Бесконечности", "Танос", 4200,
      "Танос Император Бесконечности.jpg", None),
    Painting(9, "Геймерский Энерджи", "Геймерский Энерджи Граффити на контроллере", "Live", 4200,
      "Геймерский Энерджи Граффити на контроллере.jpg", Some("Хит")),
    Painting(10, "Ночной Волк", "Ночной Волк Мастер звуков", "Live", 4200,
      "Ночной Волк Мастер звуков.jpg", None),
    Painting(11, "Примат Премиум", "Примат Премиум Король улицы", "Live", 4200,
      "Примат Премиум Король улицы.jpg", None)
  ]

  /** The catalog's ids run 1..11 in list order, every painting costs 4200 and has a title. */
  lemma CatalogShape()
    ensures |Paintings| == 11
    ensures forall i :: 0 <= i < |Paintings| ==> Paintings[i].id == i + 1 && Paintings[i].price == 4200
    ensures forall i :: 0 <= i < |Paintings| ==> Paintings[i].title != ""
  {
  }

  /** `findPaintingById(id)`: the first painting whose id is strictly equal (`===`) to `id`. */
  function FindById(id: Value): (r: Option<Painting>)
    ensures r.Some? ==> id == Number(r.value.id) && exists i :: 0 <= i < |Paintings| && Paintings[i] == r.value
    ensures r.None? <==> forall i :: 0 <= i < |Paintings| ==> id != Number(Paintings[i].id)
  {
    FindIdIn(Paintings, id)
  }

  /** `ps.find(p => p.id === id)`, scanning from the front. */
  function FindIdIn(ps: seq<Painting>, id: Value): (r: Option<Painting>)
    ensures r.Some? ==> id == Number(r.value.id) && exists i :: 0 <= i < |ps| && ps[i] == r.value
    ensures r.None? <==> forall i :: 0 <= i < |ps| ==> id != Number(ps[i].id)
  {
    if |ps| == 0 then None
    else if Number(ps[0].id) == id then Some(ps[0])
    else
      var r := FindIdIn(ps[1..], id);
      assert r.Some? ==> r.value in ps[1..];
      r
  }

  /** The ids the catalog holds. */
  predicate IsCatalogId(id: int) {
    1 <= id <= 11
  }

  /** Exactly the numbers 1..11 name a painting, and each names the painting with that id;
      every other value (NaN, a numeric string, undefined, ...) finds nothing. */
  lemma FindByIdExact(id: Value)
    ensures FindById(id).Some? <==> id.Number? && 1 <= id.n <= 11
    ensures FindById(id).Some? ==> FindById(id).value == Paintings[id.n - 1]
  {
    CatalogShape();
    if id.Number? && 1 <= id.n <= 11 {
      assert id == Number(Paintings[id.n - 1].id);
    }
  }

  /** A number names a painting exactly when it is a catalog id. */
  lemma FindByNumber(n: int)
    ensures FindById(Number(n)).Some? <==> IsCatalogId(n)
  {
    FindByIdExact(Number(n));
  }

  /** The first painting of `ps` whose title or full title is `t`. */
  function FindTitleIn(ps: seq<Painting>, t: string): (r: Option<Painting>)
    ensures r.Some? ==> r.value in ps && (r.value.title == t || r.value.fullTitle == t)
    ensures r.Some? ==> exists i :: 0 <= i < |ps| && ps[i] == r.value && FirstTitleIn(ps, t, i)
    ensures r.None? <==> forall i :: 0 <= i < |ps| ==> ps[i].title != t && ps[i].fullTitle != t
  {
    Find(ps, (p: Painting) => p.title == t || p.fullTitle == t)
  }

  /** `findPaintingByTitle(t)`: the first painting whose title or full title is `t`. */
  function FindByTitle(t: string): (r: Option<Painting>)
    ensures r.Some? ==> r.value.title == t || r.value.fullTitle == t
    ensures r.Some? ==> exists i :: 0 <= i < |Paintings| && Paintings[i] == r.value && FirstWithTitle(t, i)
    ensures r.None? <==> forall i :: 0 <= i < |Paintings| ==> Paintings[i].title != t && Paintings[i].fullTitle != t
  {
    FindTitleIn(Paintings, t)
  }

  /** No painting's title or full title is also the title or full title of an earlier painting. */
  lemma TitlesDistinct()
    ensures forall i, j :: 0 <= j < i < |Paintings| ==>
      Paintings[j].title != Paintings[i].title && Paintings[j].fullTitle != Paintings[i].title
      && Paintings[j].title != Paintings[i].fullTitle && Paintings[j].fullTitle != Paintings[i].fullTitle
  {
  }

  /** No painting before position `i` carries `t` as its title or full title. */
  ghost predicate FirstWithTitle(t: string, i: int)
    requires 0 <= i <= |Paintings|
  {
    FirstTitleIn(Paintings, t, i)
  }

  ghost predicate FirstTitleIn(ps: seq<Painting>, t: string, i: int)
    requires 0 <= i <= |ps|
  {
    forall j :: 0 <= j < i ==> ps[j].title != t && ps[j].fullTitle != t
  }

  lemma FoundAt(t: string, i: int)
    requires 0 <= i < |Paintings|
    requires Paintings[i].title == t || Paintings[i].fullTitle == t
    requires FirstWithTitle(t, i)
    ensures FindByTitle(t) == Some(Paintings[i])
  {
    var r := FindByTitle(t);
    var k :| 0 <= k < |Paintings| && Paintings[k] == r.value && FirstWithTitle(t, k);
    assert k == i;
  }

  /** Every painting is found again by its own title and by its own full title. */
  lemma FindByOwnTitle(i: int)
    requires 0 <= i < |Paintings|
    ensures FindByTitle(Paintings[i].title) == Some(Paintings[i])
    ensures FindByTitle(Paintings[i].fullTitle) == Some(Paintings[i])
  {
    TitlesDistinct();
    FoundAt(Paintings[i].title, i);
    FoundAt(Paintings[i].fullTitle, i);
  }

  /** Where the logo lives, used when no image file of a painting exists on disk. */
  const LogoPath: string := "ЛОГОТИП/Logo.png"

  /** The paths tried on the server, in order: the painting's own file, then its short title
      with the extensions `.jpg`, `.png` and `.jpeg`, all under its category folder. */
  function ServerCandidates(p: Painting): (r: seq<string>)
    ensures |r| == 4 && r[0] == p.category + "/" + p.file
    ensures forall k :: 1 <= k < 4 ==> r[k] == p.category + "/" + p.title + [".jpg", ".png", ".jpeg"][k - 1]
  {
    [p.category + "/" + p.file,
     p.category + "/" + p.title + ".jpg",
     p.category + "/" + p.title + ".png",
     p.category + "/" + p.title + ".jpeg"]
  }

  /** `getPaintingImagePath(p)`: in the browser the URL `category/file`; on the server the first
      candidate present in `existing` (the files on disk), or the logo when none is. */
  function ImagePath(p: Painting, inBrowser: bool, existing: set<string>): (r: string)
    ensures inBrowser ==> r == p.category + "/" + p.file
    ensures !inBrowser ==>
      (exists k :: 0 <= k < 4 && r == ServerCandidates(p)[k] && r in existing &&
        forall m :: 0 <= m < k ==> ServerCandidates(p)[m] !in existing) ||
      (r == LogoPath && forall k :: 0 <= k < 4 ==> ServerCandidates(p)[k] !in existing)
  {
    if inBrowser then p.category + "/" + p.file
    else
      var c := ServerCandidates(p);
      var k := FindIndex(c, (path: string) => path in existing);
      if k < 0 then LogoPath else c[k]
  }

  /** When the painting's own file is on disk, the server resolves the same path the browser
      requests; the server never fails, falling back to the logo. */
  lemma ImagePathAgrees(p: Painting, existing: set<string>)
    ensures p.category + "/" + p.file in existing ==>
      ImagePath(p, false, existing) == ImagePath(p, true, existing)
    ensures ImagePath(p, false, existing) in existing || ImagePath(p, false, existing) == LogoPath
  {
  }
}
