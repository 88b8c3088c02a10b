/** The search of backend/search.py run against the catalog of src/lib/db.ts:
    the normal forms of the catalog keywords, and the consequence that every
    keyword finds its own entry. */
module CatalogSearch {
  import opened TextNormalize
  import opened ProductCatalog
  import opened ProductSearch

  /** `k` has no upper-case letter and no `.`, and `t` is `k` with its
      separators replaced by spaces; stated character by character. */
  predicate Spelled(k: string, t: string) {
    && |k| == |t|
    && forall i :: 0 <= i < |k| ==>
         !IsUpper(k[i]) && k[i] != '.' && t[i] == (if IsSeparator(k[i]) then ' ' else k[i])
  }

  /** The normal form of every catalog keyword, entry by entry and keyword by
      keyword. */
  const NormalizedKeywords: seq<seq<string>> :=
    [
      ["iphone x"],
      ["iphone 11"],
      ["iphone 11 pro", "iphone 11 pro"],
      ["iphone 11 pro max", "iphone 11 pro max"],
      ["iphone 12"],
      ["iphone 12 pro", "iphone 12 pro"],
      ["iphone 13"],
      ["iphone 14"],
      ["iphone 15"],
      ["samsung s20", "s20"],
      ["samsung s21", "s21"],
      ["samsung s22", "s22"],
      ["samsung s23", "s23"],
      ["samsung a52", "a52"],
      ["samsung a72", "a72"],
      ["nike air force 1", "air force 1"],
      ["nike dunk low", "dunk low"],
      ["nike air max 97", "air max 97"],
      ["adidas superstar", "superstar"],
      ["adidas stan smith", "stan smith"],
      ["adidas ultraboost", "ultraboost"]
    ]

  /** A keyword spelled as a normalised string is its own query: the
      extension step leaves it alone and normalisation yields that string. */
  lemma SpelledNormalForm(k: string, t: string)
    requires Spelled(k, t) && IsNormalized(t)
    ensures LowerAll(k) == k && '.' !in k
    ensures StripExtension(k) == k
    ensures NormalizedQuery(k) == t
  {
    assert LowerAll(k) == k;
    assert SeparatorsToSpaces(k) == t;
    NormalizeWithoutDeletions(k);
  }

  // The spellings and shapes of the catalogue keywords, group by group
  // (iPhones, Samsung S-series, Samsung A-series, Nike, adidas). Each group's
  // facts are split into numbered lemmas of a few keywords each, so that no
  // single proof about the literal data grows too large for the solver.

  lemma IPhoneSpellings1()
    ensures Spelled("iphone-x", "iphone x")
    ensures Spelled("iphone-11", "iphone 11")
    ensures Spelled("iphone-11-pro", "iphone 11 pro")
    ensures Spelled("iphone 11 pro", "iphone 11 pro")
  {
  }

  lemma IPhoneSpellings2()
    ensures Spelled("iphone-11-pro-max", "iphone 11 pro max")
    ensures Spelled("iphone 11 pro max", "iphone 11 pro max")
    ensures Spelled("iphone-12", "iphone 12")
    ensures Spelled("iphone-12-pro", "iphone 12 pro")
  {
  }

  lemma IPhoneSpellings3()
    ensures Spelled("iphone 12 pro", "iphone 12 pro")
    ensures Spelled("iphone-13", "iphone 13")
    ensures Spelled("iphone-14", "iphone 14")
    ensures Spelled("iphone-15", "iphone 15")
  {
  }

  lemma IPhoneNormalForms1()
    ensures IsNormalized("iphone x")
    ensures IsNormalized("iphone 11")
    ensures IsNormalized("iphone 11 pro")
    ensures IsNormalized("iphone 11 pro max")
    ensures IsNormalized("iphone 12")
  {
  }

  lemma IPhoneNormalForms2()
    ensures IsNormalized("iphone 12 pro")
    ensures IsNormalized("iphone 13")
    ensures IsNormalized("iphone 14")
    ensures IsNormalized("iphone 15")
  {
  }

  lemma SamsungSSpellings1()
    ensures Spelled("samsung-s20", "samsung s20")
    ensures Spelled("s20", "s20")
    ensures Spelled("samsung-s21", "samsung s21")
    ensures Spelled("s21", "s21")
  {
  }

  lemma SamsungSSpellings2()
    ensures Spelled("samsung-s22", "samsung s22")
    ensures Spelled("s22", "s22")
    ensures Spelled("samsung-s23", "samsung s23")
    ensures Spelled("s23", "s23")
  {
  }

  lemma SamsungSNormalForms1()
    ensures IsNormalized("samsung s20")
    ensures IsNormalized("s20")
    ensures IsNormalized("samsung s21")
    ensures IsNormalized("s21")
    ensures IsNormalized("samsung s22")
  {
  }

  lemma SamsungSNormalForms2()
    ensures IsNormalized("s22")
    ensures IsNormalized("samsung s23")
    ensures IsNormalized("s23")
  {
  }

  lemma SamsungASpellings()
    ensures Spelled("samsung-a52", "samsung a52")
    ensures Spelled("a52", "a52")
    ensures Spelled("samsung-a72", "samsung a72")
    ensures Spelled("a72", "a72")
  {
  }

  lemma SamsungANormalForms()
    ensures IsNormalized("samsung a52")
    ensures IsNormalized("a52")
    ensures IsNormalized("samsung a72")
    ensures IsNormalized("a72")
  {
  }

  lemma NikeSpellings1()
    ensures Spelled("nike-air-force-1", "nike air force 1")
    ensures Spelled("air force 1", "air force 1")
    ensures Spelled("nike-dunk-low", "nike dunk low")
    ensures Spelled("dunk low", "dunk low")
  {
  }

  lemma NikeSpellings2()
    ensures Spelled("nike-air-max-97", "nike air max 97")
    ensures Spelled("air max 97", "air max 97")
  {
  }

  lemma NikeNormalForms1()
    ensures IsNormalized("nike air force 1")
    ensures IsNormalized("air force 1")
    ensures IsNormalized("nike dunk low")
    ensures IsNormalized("dunk low")
    ensures IsNormalized("nike air max 97")
  {
  }

  lemma NikeNormalForms2()
    ensures IsNormalized("air max 97")
  {
  }

  lemma AdidasSpellings1()
    ensures Spelled("adidas-superstar", "adidas superstar")
    ensures Spelled("superstar", "superstar")
    ensures Spelled("adidas-stan-smith", "adidas stan smith")
    ensures Spelled("stan smith", "stan smith")
  {
  }

  lemma AdidasSpellings2()
    ensures Spelled("adidas-ultraboost", "adidas ultraboost")
    ensures Spelled("ultraboost", "ultraboost")
  {
  }

  lemma AdidasNormalForms1()
    ensures IsNormalized("adidas superstar")
    ensures IsNormalized("superstar")
    ensures IsNormalized("adidas stan smith")
    ensures IsNormalized("stan smith")
    ensures IsNormalized("adidas ultraboost")
  {
  }

  lemma AdidasNormalForms2()
    ensures IsNormalized("ultraboost")
  {
  }

  /** Every keyword of entries `lo` to `hi - 1` is spelled as its listed
      normal form, and that form is normalised. */
  predicate FormsListed(lo: nat, hi: nat)
    requires lo <= hi <= |Products| && |NormalizedKeywords| == |Products|
  {
    forall i, j :: lo <= i < hi && 0 <= j < |Products[i].keywords| ==>
      j < |NormalizedKeywords[i]| &&
      Spelled(Products[i].keywords[j], NormalizedKeywords[i][j]) && IsNormalized(NormalizedKeywords[i][j])
  }

  /** The iPhones (entries 0-8). */
  lemma IPhoneFormsListed()
    ensures |NormalizedKeywords| == |Products| && FormsListed(0, 9)
  {
    IPhoneSpellings1();
    IPhoneSpellings2();
    IPhoneSpellings3();
    IPhoneNormalForms1();
    IPhoneNormalForms2();
  }

  /** The Samsung S-series phones (entries 9-12). */
  lemma SamsungSFormsListed()
    ensures |NormalizedKeywords| == |Products| && FormsListed(9, 13)
  {
    SamsungSSpellings1();
    SamsungSSpellings2();
    SamsungSNormalForms1();
    SamsungSNormalForms2();
  }

  /** The Samsung A-series phones (entries 13-14). */
  lemma SamsungAFormsListed()
    ensures |NormalizedKeywords| == |Products| && FormsListed(13, 15)
  {
    SamsungASpellings();
    SamsungANormalForms();
  }

  /** The Nike shoes (entries 15-17). */
  lemma NikeFormsListed()
    ensures |NormalizedKeywords| == |Products| && FormsListed(15, 18)
  {
    NikeSpellings1();
    NikeSpellings2();
    NikeNormalForms1();
    NikeNormalForms2();
  }

  /** The Adidas shoes (entries 18-20). */
  lemma AdidasFormsListed()
    ensures |NormalizedKeywords| == |Products| && FormsListed(18, 21)
  {
    AdidasSpellings1();
    AdidasSpellings2();
    AdidasNormalForms1();
    AdidasNormalForms2();
  }

  /** Every catalog keyword is spelled as its listed normal form, and that
      form is normalised. */
  lemma CatalogFormsListed()
    ensures |NormalizedKeywords| == |Products| && FormsListed(0, |Products|)
  {
    IPhoneFormsListed();
    SamsungSFormsListed();
    SamsungAFormsListed();
    NikeFormsListed();
    AdidasFormsListed();
  }

  /** The normal forms listed for entry `i`, with `lo <= i < hi`, differ from
      those of every later entry. */
  predicate FormsDistinct(lo: nat, hi: nat)
    requires lo <= hi <= |NormalizedKeywords|
  {
    forall i, i', j, j' ::
      lo <= i < hi && i < i' < |NormalizedKeywords| && 0 <= j < |NormalizedKeywords[i]| && 0 <= j' < |NormalizedKeywords[i']| ==>
        NormalizedKeywords[i][j] != NormalizedKeywords[i'][j']
  }

  lemma EarlyIPhoneFormsDistinct()
    ensures |NormalizedKeywords| == 21 && FormsDistinct(0, 5)
  {
  }

  lemma LateIPhoneFormsDistinct()
    ensures |NormalizedKeywords| == 21 && FormsDistinct(5, 9)
  {
  }

  lemma SamsungFormsDistinct()
    ensures |NormalizedKeywords| == 21 && FormsDistinct(9, 15)
  {
  }

  lemma ShoeFormsDistinct()
    ensures |NormalizedKeywords| == 21 && FormsDistinct(15, 21)
  {
  }

  /** No normal form is listed for two different entries. */
  lemma CatalogFormsDistinct()
    ensures |NormalizedKeywords| == 21 && FormsDistinct(0, 21)
  {
    EarlyIPhoneFormsDistinct();
    LateIPhoneFormsDistinct();
    SamsungFormsDistinct();
    ShoeFormsDistinct();
  }

  /** The normal form of keyword `j` of entry `i`, and what follows from it. */
  lemma KeywordNormalForm(i: nat, j: nat)
    requires i < |Products| && j < |Products[i].keywords|
    ensures |NormalizedKeywords| == |Products| && j < |NormalizedKeywords[i]|
    ensures LowerAll(Products[i].keywords[j]) == Products[i].keywords[j]
    ensures '.' !in Products[i].keywords[j]
    ensures StripExtension(Products[i].keywords[j]) == Products[i].keywords[j]
    ensures Normalize(Products[i].keywords[j]) == NormalizedKeywords[i][j]
    ensures NormalizedQuery(Products[i].keywords[j]) == NormalizedKeywords[i][j]
  {
    CatalogFormsListed();
    SpelledNormalForm(Products[i].keywords[j], NormalizedKeywords[i][j]);
  }

  /** Catalog keywords are already lower-case and contain no `.`, so a
      keyword used as a query loses nothing to the extension step. */
  lemma CatalogKeywordsLowercase()
    ensures forall i, j :: 0 <= i < |Products| && 0 <= j < |Products[i].keywords| ==>
      LowerAll(Products[i].keywords[j]) == Products[i].keywords[j] && '.' !in Products[i].keywords[j]
  {
    forall i, j | 0 <= i < |Products| && 0 <= j < |Products[i].keywords|
      ensures LowerAll(Products[i].keywords[j]) == Products[i].keywords[j] && '.' !in Products[i].keywords[j]
    {
      KeywordNormalForm(i, j);
    }
  }

  /** Keywords of different entries never normalise to the same string. */
  lemma CatalogKeywordsDistinct()
    ensures forall i, i', j, j' ::
      0 <= i < |Products| && 0 <= i' < |Products| && i != i' &&
      0 <= j < |Products[i].keywords| && 0 <= j' < |Products[i'].keywords| ==>
        Normalize(Products[i].keywords[j]) != Normalize(Products[i'].keywords[j'])
  {
    forall i, i', j, j' |
      0 <= i < |Products| && 0 <= i' < |Products| && i != i' &&
      0 <= j < |Products[i].keywords| && 0 <= j' < |Products[i'].keywords|
      ensures Normalize(Products[i].keywords[j]) != Normalize(Products[i'].keywords[j'])
    {
      KeywordNormalForm(i, j);
      KeywordNormalForm(i', j');
      CatalogFormsDistinct();
    }
  }

  /** No listed normal form is empty. */
  lemma ListedFormsNonEmpty()
    ensures forall i, j :: 0 <= i < |NormalizedKeywords| && 0 <= j < |NormalizedKeywords[i]| ==>
      NormalizedKeywords[i][j] != []
  {
  }

  /** A query without words skips the subset pass, and its empty normal form
      is no catalog keyword's, so it finds nothing in the catalog. */
  lemma WordlessQueryFindsNothing(query: string)
    requires Words(NormalizedQuery(query)) == {}
    ensures FindProduct(query, Products) == None
  {
    QueryWordsEmpty(query);
    forall i | 0 <= i < |Products|
      ensures !ExactMatch(Products[i], NormalizedQuery(query))
    {
      forall k | k in Products[i].keywords
        ensures Normalize(k) != NormalizedQuery(query)
      {
        var j :| 0 <= j < |Products[i].keywords| && Products[i].keywords[j] == k;
        KeywordNormalForm(i, j);
        ListedFormsNonEmpty();
      }
    }
    NoMatchIsNone(query, Products);
  }

  /** A query whose normal form is that of a catalog keyword finds that
      keyword's entry, through the exact pass. */
  lemma CatalogQueryFindsEntry(query: string, i: nat, j: nat)
    requires i < |Products| && j < |Products[i].keywords|
    requires NormalizedQuery(query) == Normalize(Products[i].keywords[j])
    ensures FindProduct(query, Products) == Some(Products[i])
  {
    var nq := NormalizedQuery(query);
    KeywordNormalForm(i, j);
    assert ExactMatch(Products[i], nq) by { assert Products[i].keywords[j] in Products[i].keywords; }
    forall i' | 0 <= i' < i
      ensures !ExactMatch(Products[i'], nq)
    {
      forall k' | k' in Products[i'].keywords
        ensures Normalize(k') != nq
      {
        var j' :| 0 <= j' < |Products[i'].keywords| && Products[i'].keywords[j'] == k';
        KeywordNormalForm(i', j');
        CatalogFormsDistinct();
      }
    }
    ExactMatchWins(query, Products, i);
  }

  /** Searching the catalog for any of its keywords finds that keyword's own
      entry. */
  lemma CatalogKeywordFindsOwnEntry(i: nat, j: nat)
    requires i < |Products| && j < |Products[i].keywords|
    ensures FindProduct(Products[i].keywords[j], Products) == Some(Products[i])
  {
    KeywordNormalForm(i, j);
    CatalogQueryFindsEntry(Products[i].keywords[j], i, j);
  }

  /** A query whose normal form is listed for keyword `j` of entry `i` finds
      that entry. */
  lemma ListedFormFindsEntry(query: string, i: nat, j: nat)
    requires i < |Products| && j < |Products[i].keywords|
    requires i < |NormalizedKeywords| && j < |NormalizedKeywords[i]|
    requires NormalizedQuery(query) == NormalizedKeywords[i][j]
    ensures FindProduct(query, Products) == Some(Products[i])
  {
    KeywordNormalForm(i, j);
    CatalogQueryFindsEntry(query, i, j);
  }

  // The characters used by the keywords of each group of entries: the
  // iPhones, the Samsung phones, the Nike shoes and each adidas shoe.
  const IPhoneLetters: set<char> := {' ', '-', '1', '2', '3', '4', '5', 'a', 'e', 'h', 'i', 'm', 'n', 'o', 'p', 'r', 'x'}
  const SamsungLetters: set<char> := {'-', '0', '1', '2', '3', '5', '7', 'a', 'g', 'm', 'n', 's', 'u'}
  const NikeLetters: set<char> := {' ', '-', '1', '7', '9', 'a', 'c', 'd', 'e', 'f', 'i', 'k', 'l', 'm', 'n', 'o', 'r', 'u', 'w', 'x'}
  const SuperstarLetters: set<char> := {'-', 'a', 'd', 'e', 'i', 'p', 'r', 's', 't', 'u'}
  const StanSmithLetters: set<char> := {' ', '-', 'a', 'd', 'h', 'i', 'm', 'n', 's', 't'}
  const UltraboostLetters: set<char> := {'-', 'a', 'b', 'd', 'i', 'l', 'o', 'r', 's', 't', 'u'}

  /** Every character of a keyword of entries `lo` to `hi - 1` is in `letters`. */
  predicate LettersWithin(lo: nat, hi: nat, letters: set<char>)
    requires lo <= hi <= |Products|
  {
    forall i, j :: lo <= i < hi && 0 <= j < |Products[i].keywords| ==>
      forall c :: c in Products[i].keywords[j] ==> c in letters
  }

  lemma EarlyIPhoneLettersWithin()
    ensures |Products| == 21 && LettersWithin(0, 5, IPhoneLetters)
  {
  }

  lemma LateIPhoneLettersWithin()
    ensures |Products| == 21 && LettersWithin(5, 9, IPhoneLetters)
  {
  }

  lemma SamsungLettersWithin()
    ensures |Products| == 21 && LettersWithin(9, 15, SamsungLetters)
  {
  }

  lemma NikeLettersWithin()
    ensures |Products| == 21 && LettersWithin(15, 18, NikeLetters)
  {
  }

  lemma SuperstarLettersWithin()
    ensures |Products| == 21 && LettersWithin(18, 19, SuperstarLetters)
  {
  }

  lemma StanSmithLettersWithin()
    ensures |Products| == 21 && LettersWithin(19, 20, StanSmithLetters)
  {
  }

  lemma UltraboostLettersWithin()
    ensures |Products| == 21 && LettersWithin(20, 21, UltraboostLetters)
  {
  }

  /** An entry whose keywords only use `letters` lacks any word with a
      character outside `letters`. */
  lemma LacksOutsideLetters(i: nat, lo: nat, hi: nat, letters: set<char>, c: char, w: string)
    requires lo <= i < hi <= |Products| && LettersWithin(lo, hi, letters)
    requires c in w && c !in letters
    ensures Lacks(Products[i], w)
  {
    CatalogKeywordsLowercase();
    forall k | k in Products[i].keywords
      ensures c !in LowerAll(k)
    {
      var j :| 0 <= j < |Products[i].keywords| && Products[i].keywords[j] == k;
      assert LowerAll(k) == k;
    }
  }

  /** A word with, for each group, a character that group's keywords do not
      use cannot be spelled from the catalog. */
  lemma UnspellableByGroups(w: string, a: char, b: char, c: char, d: char, e: char, f: char)
    requires a in w && a !in IPhoneLetters
    requires b in w && b !in SamsungLetters
    requires c in w && c !in NikeLetters
    requires d in w && d !in SuperstarLetters
    requires e in w && e !in StanSmithLetters
    requires f in w && f !in UltraboostLetters
    ensures Unspellable(w, Products)
  {
    CatalogSize();
    forall i | 0 <= i < |Products|
      ensures Lacks(Products[i], w)
    {
      if i < 5 {
        EarlyIPhoneLettersWithin();
        LacksOutsideLetters(i, 0, 5, IPhoneLetters, a, w);
      } else if i < 9 {
        LateIPhoneLettersWithin();
        LacksOutsideLetters(i, 5, 9, IPhoneLetters, a, w);
      } else if i < 15 {
        SamsungLettersWithin();
        LacksOutsideLetters(i, 9, 15, SamsungLetters, b, w);
      } else if i < 18 {
        NikeLettersWithin();
        LacksOutsideLetters(i, 15, 18, NikeLetters, c, w);
      } else if i == 18 {
        SuperstarLettersWithin();
        LacksOutsideLetters(i, 18, 19, SuperstarLetters, d, w);
      } else if i == 19 {
        StanSmithLettersWithin();
        LacksOutsideLetters(i, 19, 20, StanSmithLetters, e, w);
      } else {
        UltraboostLettersWithin();
        LacksOutsideLetters(i, 20, 21, UltraboostLetters, f, w);
      }
    }
  }

  /** `photo`: no phone or Nike keyword has a `t`; Superstar has no `h`,
      Stan Smith and Ultraboost no `p`. */
  lemma PhotoUnspellable()
    ensures Unspellable("photo", Products)
  {
    UnspellableByGroups("photo", 't', 't', 't', 'h', 'p', 'p');
  }

  /** `front`: no keyword but a Nike one has an `f`, and no Nike keyword a `t`. */
  lemma FrontUnspellable()
    ensures Unspellable("front", Products)
  {
    UnspellableByGroups("front", 'f', 'f', 't', 'f', 'f', 'f');
  }

  /** `sneaker`: no iPhone or Nike keyword has an `s`, no Samsung keyword an
      `e` and no adidas keyword a `k`. */
  lemma SneakerUnspellable()
    ensures Unspellable("sneaker", Products)
  {
    UnspellableByGroups("sneaker", 's', 'e', 's', 'k', 'k', 'k');
  }

  /** `object`: no keyword at all has a `j`. */
  lemma ObjectUnspellable()
    ensures Unspellable("object", Products)
  {
    UnspellableByGroups("object", 'j', 'j', 'j', 'j', 'j', 'j');
  }

  /** A query with one of the words `photo`, `front`, `sneaker` or `object` finds
      nothing in the catalog, whatever its other words: each of them has a
      character that the keywords of any given entry do not use. */
  lemma ForeignWordFindsNothing(query: string, w: string)
    requires w in ["photo", "front", "sneaker", "object"]
    requires w in Words(NormalizedQuery(query))
    ensures FindProduct(query, Products) == None
  {
    if w == "photo" {
      PhotoUnspellable();
    } else if w == "front" {
      FrontUnspellable();
    } else if w == "sneaker" {
      SneakerUnspellable();
    } else {
      ObjectUnspellable();
    }
    UnspellableWordFindsNothing(query, w, Products);
  }

  // Example queries: the one documented with the finder, the example of the
  // normaliser's docstring, and a few other file names and labels.
  //
  // The single-fact lemmas below each state one fact about one literal query
  // (its stem, a word, its spelling up to separators, or its normalised
  // shape) and are combined by the lemmas after them. The facts are split
  // this way only so that no single proof about literal text grows too large
  // for the solver.

  lemma DocumentedQueryStem()
    ensures StripExtension("iphone+11-pro.jpg") == "iphone+11-pro"
  {
    assert "iphone+11-pro.jpg"[13] == '.';
  }

  lemma PhotoQueryStemAndWord()
    ensures StripExtension("iphone-15-photo.jpg") == "iphone-15-photo"
    ensures "photo" in Words("iphone 15 photo")
  {
    assert "iphone-15-photo.jpg"[15] == '.';
    assert "iphone 15 photo" == "iphone 15" + " " + "photo";
    LastWord("iphone 15", "photo");
  }

  lemma FrontQueryStemAndWord()
    ensures StripExtension("samsung-s23-front.png") == "samsung-s23-front"
    ensures "front" in Words("samsung s23 front")
  {
    assert "samsung-s23-front.png"[17] == '.';
    assert "samsung s23 front" == "samsung s23" + " " + "front";
    LastWord("samsung s23", "front");
  }

  lemma SneakerQueryStemAndWord()
    ensures StripExtension("AIR FORCE 1 SNEAKER") == "AIR FORCE 1 SNEAKER"
    ensures "sneaker" in Words("air force 1 sneaker")
  {
    assert '.' !in "AIR FORCE 1 SNEAKER";
    assert "air force 1 sneaker" == "air force 1" + " " + "sneaker";
    LastWord("air force 1", "sneaker");
  }

  lemma ObjectQueryStemAndWord()
    ensures StripExtension("random-object.jpg") == "random-object"
    ensures "object" in Words("random object")
  {
    assert "random-object.jpg"[13] == '.';
    assert "random object" == "random" + " " + "object";
    LastWord("random", "object");
  }

  lemma ObjectQuerySpelling()
    ensures SeparatorsToSpaces(LowerAll("random-object")) == "random object"
  {
  }

  lemma ObjectQueryShape()
    ensures IsNormalized("random object")
  {
  }

  lemma PhoneQuerySpellings()
    ensures SeparatorsToSpaces(LowerAll("iphone+11-pro")) == "iphone 11 pro"
    ensures SeparatorsToSpaces(LowerAll("iphone-15-photo")) == "iphone 15 photo"
    ensures SeparatorsToSpaces(LowerAll("samsung-s23-front")) == "samsung s23 front"
  {
  }

  lemma ShoeQuerySpelling()
    ensures SeparatorsToSpaces(LowerAll("AIR FORCE 1 SNEAKER")) == "air force 1 sneaker"
  {
  }

  lemma ExampleQueryShapes()
    ensures IsNormalized("iphone 11 pro")
    ensures IsNormalized("iphone 15 photo")
    ensures IsNormalized("samsung s23 front")
    ensures IsNormalized("air force 1 sneaker")
  {
  }

  lemma DocstringStem()
    ensures StripExtension("iPhone+11_Pro.jpg") == "iPhone+11_Pro"
  {
    assert "iPhone+11_Pro.jpg"[13] == '.';
  }

  lemma DocstringSpellings()
    ensures SeparatorsToSpaces(LowerAll("iPhone+11_Pro")) == "iphone 11 pro"
  {
  }

  lemma DocstringSpellingWithExtension()
    ensures SeparatorsToSpaces(LowerAll("iPhone+11_Pro.jpg")) == "iphone 11 pro jpg"
  {
  }

  lemma DocstringShapeWithExtension()
    ensures IsNormalized("iphone 11 pro jpg")
  {
  }

  /** The example of the `normalize_text` docstring: on its own, the
      normaliser keeps the extension as a last word `jpg`. */
  lemma DocstringExampleKeepsExtension(text: string)
    requires text == "iPhone+11_Pro.jpg"
    ensures Normalize(text) == "iphone 11 pro jpg"
  {
    DocstringSpellingWithExtension();
    DocstringShapeWithExtension();
    NormalizeWithoutDeletions(text);
  }

  /** The same text given to the finder loses its extension first, becomes
      `iphone 11 pro` and finds the iPhone 11 Pro. */
  lemma DocstringExampleAsQuery(query: string)
    requires query == "iPhone+11_Pro.jpg"
    ensures NormalizedQuery(query) == "iphone 11 pro"
    ensures FindProduct(query, Products) == Some(Products[2]) && Products[2].name == "iPhone 11 Pro"
  {
    DocstringStem();
    DocstringSpellings();
    ExampleQueryShapes();
    QueryNormalForm(query, "iPhone+11_Pro", "iphone 11 pro");
    IPhone11ProQuery(query);
  }

  /** Any query normalising to `iphone 11 pro` finds the iPhone 11 Pro. */
  lemma IPhone11ProQuery(query: string)
    requires NormalizedQuery(query) == "iphone 11 pro"
    ensures FindProduct(query, Products) == Some(Products[2]) && Products[2].name == "iPhone 11 Pro"
  {
    ListedFormFindsEntry(query, 2, 0);
  }

  /** The documented query `iphone+11-pro.jpg` loses its extension and finds
      the iPhone 11 Pro through the exact pass. */
  lemma DocumentedQueryFindsEntry(query: string)
    requires query == "iphone+11-pro.jpg"
    ensures NormalizedQuery(query) == "iphone 11 pro"
    ensures FindProduct(query, Products) == Some(Products[2]) && Products[2].name == "iPhone 11 Pro"
  {
    DocumentedQueryStem();
    PhoneQuerySpellings();
    ExampleQueryShapes();
    QueryNormalForm(query, "iphone+11-pro", "iphone 11 pro");
    IPhone11ProQuery(query);
  }

  /** A photo named after the iPhone 15 finds nothing: `photo` defeats both
      passes. */
  lemma PhotoQueryFindsNothing(query: string)
    requires query == "iphone-15-photo.jpg"
    ensures NormalizedQuery(query) == "iphone 15 photo"
    ensures FindProduct(query, Products) == None
  {
    PhotoQueryStemAndWord();
    PhoneQuerySpellings();
    ExampleQueryShapes();
    QueryNormalForm(query, "iphone-15-photo", "iphone 15 photo");
    ForeignWordFindsNothing(query, "photo");
  }

  /** A photo named after the Samsung Galaxy S23 finds nothing: `front`
      defeats both passes. */
  lemma FrontQueryFindsNothing(query: string)
    requires query == "samsung-s23-front.png"
    ensures NormalizedQuery(query) == "samsung s23 front"
    ensures FindProduct(query, Products) == None
  {
    FrontQueryStemAndWord();
    PhoneQuerySpellings();
    ExampleQueryShapes();
    QueryNormalForm(query, "samsung-s23-front", "samsung s23 front");
    ForeignWordFindsNothing(query, "front");
  }

  /** The upper-case label `AIR FORCE 1 SNEAKER` finds nothing: `sneaker`
      defeats both passes. */
  lemma SneakerQueryFindsNothing(query: string)
    requires query == "AIR FORCE 1 SNEAKER"
    ensures NormalizedQuery(query) == "air force 1 sneaker"
    ensures FindProduct(query, Products) == None
  {
    SneakerQueryStemAndWord();
    ShoeQuerySpelling();
    ExampleQueryShapes();
    QueryNormalForm(query, query, "air force 1 sneaker");
    ForeignWordFindsNothing(query, "sneaker");
  }

  /** A photo of something the catalog does not hold finds nothing: `object`
      defeats both passes. */
  lemma ObjectQueryFindsNothing(query: string)
    requires query == "random-object.jpg"
    ensures NormalizedQuery(query) == "random object"
    ensures FindProduct(query, Products) == None
  {
    ObjectQueryStemAndWord();
    ObjectQuerySpelling();
    ObjectQueryShape();
    QueryNormalForm(query, "random-object", "random object");
    ForeignWordFindsNothing(query, "object");
  }
}
