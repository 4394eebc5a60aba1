/** The product catalog: a constant table the stock ledger and the pages read. */
module Catalog {
  import opened Wrappers
  import Seqs

  datatype Category = Plushie | Sticker | Book | Accessory | Homegoods {
    /** The category tag as the pages compare and search it. */
    function Name(): string {
      match this
      case Plushie => "plushie"
      case Sticker => "sticker"
      case Book => "book"
      case Accessory => "accessory"
      case Homegoods => "homegoods"
    }
  }

  /** A catalog entry; an absent optional `featured` flag reads as false. */
  datatype Product = Product(
    id: string,
    name: string,
    englishName: string,
    koreanName: string,
    description: string,
    price: int,
    image: string,
    category: Category,
    characterId: Option<string>,
    inStock: bool,
    stock: int,
    featured: bool)

  const Products: seq<Product> := [
    Product(
      id := "lambie-plush",
      name := "Lambie Plushie",
      englishName := "Lambie Plushie",
      koreanName := "램비 인형",
      description := "눈물이 많은 우리 램비 친구! 부드러운 양털 소재로 포근하게 안아줄 수 있어요.",
      price := 35000,
      image := "/products/lambie-plush.jpg",
      category := Plushie,
      characterId := Some("lamb"),
      inStock := true,
      stock := 28,
      featured := true),
    Product(
      id := "ari-plush",
      name := "Ari Plushie",
      englishName := "Ari Plushie",
      koreanName := "아리 인형",
      description := "용감한 척하지만 사실은 귀여운 아리! 폭신한 갈기가 매력 포인트예요.",
      price := 35000,
      image := "/products/ari-plush.jpg",
      category := Plushie,
      characterId := Some("lion"),
      inStock := true,
      stock := 42,
      featured := true),
    Product(
      id := "davi-plush",
      name := "Davi Plushie",
      englishName := "Davi Plushie",
      koreanName := "다비 인형",
      description := "용기의 조약돌을 품은 귀여운 다람쥐 다비! 미니 사이즈로 가방에 달아보세요.",
      price := 32000,
      image := "/products/davi-plush.jpg",
      category := Plushie,
      characterId := Some("squirrel"),
      inStock := true,
      stock := 35,
      featured := false),
    Product(
      id := "coco-plush",
      name := "Coco Plushie",
      englishName := "Coco Plushie",
      koreanName := "코코 인형",
      description := "늘 졸린 코코 곰돌이! 초콜릿 향기가 나는 담요와 함께해요.",
      price := 38000,
      image := "/products/coco-plush.jpg",
      category := Plushie,
      characterId := Some("bear"),
      inStock := true,
      stock := 19,
      featured := true),
    Product(
      id := "character-sticker-set",
      name := "Character Sticker Set",
      englishName := "Character Sticker Set",
      koreanName := "캐릭터 스티커 세트",
      description := "리틀 나사렛 친구들이 한 세트에! 다이어리, 노트북을 꾸며보세요.",
      price := 12000,
      image := "/products/sticker-set.jpg",
      category := Sticker,
      characterId := None,
      inStock := true,
      stock := 47,
      featured := false),
    Product(
      id := "story-book",
      name := "Little Nazareth Story Book",
      englishName := "Little Nazareth Story Book",
      koreanName := "리틀 나사렛 스토리북",
      description := "친구들의 따뜻한 이야기가 담긴 그림책. 잠들기 전 읽기 좋아요.",
      price := 18000,
      image := "/products/story-book.jpg",
      category := Book,
      characterId := None,
      inStock := true,
      stock := 23,
      featured := true),
    Product(
      id := "coco-blanket",
      name := "Coco Blanket",
      englishName := "Coco Blanket",
      koreanName := "코코 담요",
      description := "코코처럼 포근한 담요! 초콜릿 브라운 색상으로 따뜻해요.",
      price := 45000,
      image := "/products/coco-blanket.jpg",
      category := Homegoods,
      characterId := Some("bear"),
      inStock := true,
      stock := 12,
      featured := false),
    Product(
      id := "character-cushion",
      name := "Character Cushion",
      englishName := "Character Cushion",
      koreanName := "캐릭터 쿠션",
      description := "좋아하는 친구를 골라 쿠션으로! 소파나 침대를 꾸며보세요.",
      price := 28000,
      image := "/products/character-cushion.jpg",
      category := Homegoods,
      characterId := None,
      inStock := true,
      stock := 31,
      featured := false),
    Product(
      id := "character-keychain",
      name := "Character Keychain",
      englishName := "Character Keychain",
      koreanName := "캐릭터 키링",
      description := "귀여운 아크릴 키링! 가방이나 열쇠에 달아보세요.",
      price := 8000,
      image := "/products/keychain.jpg",
      category := Accessory,
      characterId := None,
      inStock := true,
      stock := 45,
      featured := false),
    Product(
      id := "eco-bag",
      name := "Little Nazareth Eco Bag",
      englishName := "Little Nazareth Eco Bag",
      koreanName := "리틀 나사렛 에코백",
      description := "친구들이 그려진 튼튼한 에코백. 장바구니로 활용하기 좋아요.",
      price := 15000,
      image := "/products/eco-bag.jpg",
      category := Accessory,
      characterId := None,
      inStock := true,
      stock := 38,
      featured := false)
  ]

  /** `products.find((p) => p.id === id)`. */
  function FindProduct(id: string): (r: Option<Product>)
    ensures r.Some? ==> r.value in Products && r.value.id == id
    ensures r.None? <==> forall i :: 0 <= i < |Products| ==> Products[i].id != id
  {
    Seqs.Find(Products, (p: Product) => p.id == id)
  }

  /** No two products in the list share an id. */
  ghost predicate UniqueIds(ps: seq<Product>) {
    forall i, j :: 0 <= i < j < |ps| ==> ps[i].id != ps[j].id
  }

  /** The catalog's ids are distinct and every seeded stock is non-negative. */
  lemma CatalogWellFormed()
    ensures UniqueIds(Products)
    ensures forall i :: 0 <= i < |Products| ==> Products[i].stock >= 0 && Products[i].price > 0
  {
  }

  /** Taking a subsequence cannot introduce a repeated id. */
  lemma {:induction false} SubsequenceKeepsUnique(a: seq<Product>, b: seq<Product>)
    requires Seqs.IsSubsequence(a, b) && UniqueIds(b)
    ensures UniqueIds(a)
    decreases |b|
  {
    if a != [] && b != [] {
      assert UniqueIds(b[1..]);
      if a[0] == b[0] {
        SubsequenceKeepsUnique(a[1..], b[1..]);
        Seqs.SubsequenceMembers(a[1..], b[1..]);
        forall j | 0 < j < |a| ensures a[0].id != a[j].id {
          assert a[1..][j - 1] == a[j];
          var k :| 0 <= k < |b[1..]| && b[1..][k] == a[j];
          assert b[k + 1] == a[j];
        }
      } else {
        SubsequenceKeepsUnique(a, b[1..]);
      }
    }
  }
}
