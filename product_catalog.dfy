/** The static product catalog of src/lib/db.ts: the `Product` record type
    and the ordered constant list `products`. */
module ProductCatalog {

  /** One catalog record. TypeScript's `number` prices are modelled as reals,
      so that "whole number" is a property of the data rather than of the type. */
  datatype Product = Product(
    keywords: seq<string>,
    name: string,
    category: string,
    description: string,
    condition: string,
    buyerPrice: real,
    sellerPrice: real)

  /** The constant `products` array, in declaration order. */
  const Products: seq<Product> :=
    [
      // iPhones
      Product(["iphone-x"], "iPhone X", "Electronics",
        "A revolutionary smartphone with a stunning all-screen display.",
        "Good", 250.0, 200.0),
      Product(["iphone-11"], "iPhone 11", "Electronics",
        "A powerful smartphone with a dual-camera system.",
        "Like New", 400.0, 350.0),
      Product(["iphone-11-pro", "iphone 11 pro"], "iPhone 11 Pro", "Electronics",
        "A transformative triple\U{2011}camera system that adds tons of capability without complexity.",
        "Like New", 450.0, 400.0),
      Product(["iphone-11-pro-max", "iphone 11 pro max"], "iPhone 11 Pro Max", "Electronics",
        "The first iPhone to be called Pro Max, with a larger display and even longer battery life.",
        "Like New", 500.0, 450.0),
      Product(["iphone-12"], "iPhone 12", "Electronics",
        "Experience super-fast 5G and the A14 Bionic chip.",
        "Like New", 500.0, 450.0),
      Product(["iphone-12-pro", "iphone 12 pro"], "iPhone 12 Pro", "Electronics",
        "A huge leap forward, with 5G speed, A14 Bionic, and a Pro camera system.",
        "New", 600.0, 550.0),
      Product(["iphone-13"], "iPhone 13", "Electronics",
        "The most advanced dual-camera system ever on iPhone.",
        "New", 650.0, 600.0),
      Product(["iphone-14"], "iPhone 14", "Electronics",
        "A new, larger 6.7-inch size joins the popular 6.1-inch design.",
        "New", 800.0, 750.0),
      Product(["iphone-15"], "iPhone 15", "Electronics",
        "Features Dynamic Island, a 48MP Main camera, and USB-C.",
        "New", 950.0, 900.0),
      // Samsung S-Series
      Product(["samsung-s20", "s20"], "Samsung Galaxy S20", "Electronics",
        "The phone to make your world bigger.",
        "Good", 300.0, 250.0),
      Product(["samsung-s21", "s21"], "Samsung Galaxy S21", "Electronics",
        "The epic-in-every-way smartphone.",
        "Like New", 450.0, 400.0),
      Product(["samsung-s22", "s22"], "Samsung Galaxy S22", "Electronics",
        "The phone that makes everyday epic.",
        "New", 600.0, 550.0),
      Product(["samsung-s23", "s23"], "Samsung Galaxy S23", "Electronics",
        "Capture the night, even in low light.",
        "New", 750.0, 700.0),
      // Samsung A-Series
      Product(["samsung-a52", "a52"], "Samsung Galaxy A52", "Electronics",
        "Awesome screen, awesome camera, long-lasting battery life.",
        "Good", 200.0, 150.0),
      Product(["samsung-a72", "a72"], "Samsung Galaxy A72", "Electronics",
        "A phone with a powerful camera and a large screen.",
        "Like New", 300.0, 250.0),
      // Nike Shoes
      Product(["nike-air-force-1", "air force 1"], "Nike Air Force 1", "Shoes",
        "The radiance lives on in the b-ball original.",
        "Like New", 80.0, 60.0),
      Product(["nike-dunk-low", "dunk low"], "Nike Dunk Low", "Shoes",
        "A streetwear staple and a skateboarding classic.",
        "New", 120.0, 100.0),
      Product(["nike-air-max-97", "air max 97"], "Nike Air Max 97", "Shoes",
        "Push your style full speed ahead.",
        "Good", 150.0, 120.0),
      // Adidas Shoes
      Product(["adidas-superstar", "superstar"], "Adidas Superstar", "Shoes",
        "The authentic low top with the shell toe.",
        "Like New", 70.0, 50.0),
      Product(["adidas-stan-smith", "stan smith"], "Adidas Stan Smith", "Shoes",
        "An international icon of clean, crisp style.",
        "Good", 60.0, 45.0),
      Product(["adidas-ultraboost", "ultraboost"], "Adidas Ultraboost", "Shoes",
        "High-performance running shoes with a responsive feel.",
        "New", 180.0, 150.0)
    ]

  /** The conditions the catalog uses. */
  const Conditions: seq<string> := ["New", "Like New", "Good"]

  /** The categories the catalog uses. */
  const Categories: seq<string> := ["Electronics", "Shoes"]

  /** A price that is a whole number of currency units. */
  predicate IsWhole(x: real) {
    x.Floor as real == x
  }

  /** What every catalog entry satisfies: it has a keyword, buying from the
      customer costs more than the resale price and both are positive, and
      its condition and category come from the fixed vocabularies. */
  predicate WellFormed(p: Product) {
    && |p.keywords| > 0
    && p.buyerPrice > p.sellerPrice > 0.0
    && IsWhole(p.buyerPrice) && IsWhole(p.sellerPrice)
    && p.condition in Conditions
    && p.category in Categories
  }

  /** No two entries of the list share a name. */
  predicate NamesDistinct(db: seq<Product>) {
    forall i, j :: 0 <= i < j < |db| ==> db[i].name != db[j].name
  }

  lemma CatalogSize()
    ensures |Products| == 21
  {
  }

  lemma CatalogHasKeywords()
    ensures forall i :: 0 <= i < |Products| ==> |Products[i].keywords| > 0
  {
  }

  lemma CatalogPricesOrdered()
    ensures forall i :: 0 <= i < |Products| ==> Products[i].buyerPrice > Products[i].sellerPrice > 0.0
  {
  }

  /** The distinct price values that occur in the catalog, ascending. */
  const PriceValues: seq<real> :=
    [45.0, 50.0, 60.0, 70.0, 80.0, 100.0, 120.0, 150.0, 180.0, 200.0, 250.0, 300.0,
     350.0, 400.0, 450.0, 500.0, 550.0, 600.0, 650.0, 700.0, 750.0, 800.0, 900.0, 950.0]

  lemma PriceValuesWhole()
    ensures forall i :: 0 <= i < |PriceValues| ==> IsWhole(PriceValues[i])
  {
  }

  lemma CatalogPricesListed()
    ensures forall i :: 0 <= i < |Products| ==> Products[i].buyerPrice in PriceValues && Products[i].sellerPrice in PriceValues
  {
  }

  lemma CatalogPricesWhole()
    ensures forall i :: 0 <= i < |Products| ==> IsWhole(Products[i].buyerPrice) && IsWhole(Products[i].sellerPrice)
  {
    PriceValuesWhole();
    CatalogPricesListed();
  }

  lemma CatalogVocabularies()
    ensures forall i :: 0 <= i < |Products| ==> Products[i].condition in Conditions && Products[i].category in Categories
  {
  }

  /** Every catalog entry is well formed. */
  lemma CatalogWellFormed()
    ensures forall i :: 0 <= i < |Products| ==> WellFormed(Products[i])
  {
    CatalogHasKeywords();
    CatalogPricesOrdered();
    CatalogPricesWhole();
    CatalogVocabularies();
  }

  /** Names identify catalog entries. */
  lemma CatalogNamesDistinct()
    ensures NamesDistinct(Products)
  {
    IPhoneNamesDistinct();
    SamsungNamesDistinct();
    ShoeNamesDistinct();
  }

  /** The nine iPhones (entries 0-8) have names unlike every later entry. */
  lemma IPhoneNamesDistinct()
    ensures forall i, j :: 0 <= i < 9 && i < j < |Products| ==> Products[i].name != Products[j].name
  {
  }

  /** The six Samsung phones (entries 9-14) have names unlike every later entry. */
  lemma SamsungNamesDistinct()
    ensures forall i, j :: 9 <= i < 15 && i < j < |Products| ==> Products[i].name != Products[j].name
  {
  }

  /** The six shoes (entries 15-20) have pairwise different names. */
  lemma ShoeNamesDistinct()
    ensures forall i, j :: 15 <= i < j < |Products| ==> Products[i].name != Products[j].name
  {
  }
}
