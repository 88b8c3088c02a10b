# SnapFind product lookup, modelled in Dafny

SnapFind lets a user photograph an item and get a price for it. Its
backend has a keyword finder that matches a query string, such as an
image file name, against a list of products. This project models two
things:

- the matching core of the Python backend, `normalize_text` and
  `find_product_by_query` in `backend/search.py`;
- the static catalogue of `src/lib/db.ts`, with its `Product` record and
  the 21-entry `products` list.

backend/app.py does not call the finder, and the finder's docstring
(backend/search.py:27-28) names a seed file, not src/lib/db.ts, as the
source of the products. Running the
Python finder against the TypeScript catalogue is this model's own
assumption. It is used only in `CatalogSearch`; the finder itself is
modelled for any product list.

It then proves properties of the normaliser, of the two-pass finder and
of the finder run against that catalogue.

Modules, one file each:

- `TextNormalize` (`text_normalize.dfy`): `normalize_text` as pure
  functions, one per step. The steps are lower-casing, separators
  `_ - + .` to spaces, deleting everything outside `[a-z0-9\s]`, and
  `' '.join(text.split())`. `Split` is Python's argument-less
  `str.split()`. `Join` is `str.join`.
- `ProductCatalog` (`product_catalog.dfy`): the `Product` datatype, the
  constant `Products` in declaration order, and the invariants the data
  keeps.
- `ProductSearch` (`product_search.dfy`): `find_product_by_query`.
  - `FindProduct` is the specification function.
  - `FindProductByQuery`, `ExactPass` and `SubsetPass` are the method
    and its two loops, in the source's loop structure.
    `FindProductByQuery` is proved equal to `FindProduct`. `ExactPass` is
    proved equal to `ExactPassIndex`, and `SubsetPass` to
    `SubsetPassIndex`: the `FirstIndex` scans that `FindProduct` is built
    on.
  - The exact pass scans products and then keywords, in order. It stops
    at the first keyword whose normal form equals the normalised query.
  - The subset pass runs only when the query has words. It stops at the
    first product whose joined, normalised keywords contain every query
    word.
- `CatalogSearch` (`catalog_search.dfy`): the finder against `Products`.
  - It holds the normal form of every catalogue keyword.
  - It proves that every keyword finds its own entry.
  - It works out example queries: the one documented with the finder
    (backend/search.py:26), the example of the normaliser's docstring
    (backend/search.py:8), and a few other file names and labels.

## What the finder does with some queries

- The finder compares the query's normal form with each keyword's normal
  form. Failing that, it looks for a
  product whose keyword words include every query word. A query without
  words skips the subset pass. It can then only match a keyword that also
  normalises to the empty string, and no catalogue keyword does
  (`WordlessQueryFindsNothing`).
- A query with a word that no entry's keywords can spell finds nothing in
  the catalogue, whatever its other words (`ForeignWordFindsNothing`).
  Each of these example names has such a word, and so finds nothing:
  - `iphone-15-photo.jpg`, which has `photo` (`PhotoQueryFindsNothing`);
  - `samsung-s23-front.png`, which has `front` (`FrontQueryFindsNothing`);
  - `AIR FORCE 1 SNEAKER`, which has `sneaker` (`SneakerQueryFindsNothing`);
  - `random-object.jpg`, which has `object` (`ObjectQueryFindsNothing`).

  This happens even though `iphone 15`, `samsung s23` and `air force 1`
  are the normal forms of catalogue keywords (`iphone-15`, `samsung-s23`,
  `air force 1`).
- The docstring of `normalize_text` (backend/search.py:8) says
  `"iPhone+11_Pro.jpg"` becomes `"iphone 11 pro"`. The normaliser alone
  yields `"iphone 11 pro jpg"` (`DocstringExampleKeepsExtension`). Only
  the finder, which drops the extension first, gets `"iphone 11 pro"`
  (`DocstringExampleAsQuery`).

## Model

| member | source | states |
|---|---|---|
| TextNormalize.IsWhitespace | backend/search.py:15-17 | definition, no contract of its own: the ASCII whitespace of `\s` and of `split()` (space, 9-13, 28-31); the split lemmas below cut at exactly these characters |
| TextNormalize.Lower | backend/search.py:11 | lower-casing moves `A`-`Z` 32 code points up, to `a`-`z`, and leaves every other character alone; the result is never upper-case |
| TextNormalize.LowerAll | backend/search.py:11 | definition, no contract of its own: `Lower` on every character, position by position; case-insensitivity is `NormalizeIgnoresCase` |
| TextNormalize.SeparatorsToSpaces | backend/search.py:13 | definition, no contract of its own: each of `_ - + .` becomes a space, every other character stays; its effect on the normal form is `BoundaryActsAsSpace` |
| TextNormalize.StripDisallowed | backend/search.py:15 | the deletion step keeps only characters of `[a-z0-9]` and whitespace, each taken from its input |
| TextNormalize.NormalizeIgnoresCase | backend/search.py:11 | texts that agree up to ASCII letter case have the same normal form |
| TextNormalize.OtherSymbolVanishes | backend/search.py:15 | a symbol other than a separator, letter, digit or whitespace is deleted without splitting the word around it |
| TextNormalize.BoundaryActsAsSpace | backend/search.py:13-17 | a separator `_ - + .` or a whitespace character has exactly the effect of a space on the normal form |
| TextNormalize.CleanedConcat | backend/search.py:11-15 | the three character-wise steps distribute over concatenation |
| TextNormalize.Split | backend/search.py:17 | definition, no contract of its own: argument-less `str.split()`; its properties are `SplitYieldsWords`, `SplitAtWhitespace`, `WholeWord` and `SplitJoinOfWords` |
| TextNormalize.SplitYieldsWords | backend/search.py:17 | `split()` yields non-empty words without whitespace, made of characters of its input |
| TextNormalize.SplitAtWhitespace | backend/search.py:17 | `split()` cuts at any whitespace character: the words of `a + w + b` are those of `a` followed by those of `b` |
| TextNormalize.WholeWord | backend/search.py:17 | a non-empty run without whitespace splits into itself alone |
| TextNormalize.Join | backend/search.py:17 | `' '.join` of no words is the empty string and of one word is that word; with `Split` it round-trips by `SplitJoinOfWords` and `JoinSplitOfNormalized` |
| TextNormalize.SplitJoinOfWords | backend/search.py:17 | splitting undoes joining non-empty whitespace-free words with single spaces |
| TextNormalize.JoinSplitOfNormalized | backend/search.py:17 | joining the words of a normalised string with single spaces gives the string back |
| TextNormalize.Normalize | backend/search.py:3-18 | definition, no contract of its own: the four steps in order; its properties are `NormalizeIsNormalized`, `NormalizeIdempotent`, `NormalizeIgnoresCase`, `BoundaryActsAsSpace` and `SplitOfNormalize` |
| TextNormalize.NormalizeIsNormalized | backend/search.py:3-18 | every normal form holds only `a-z`, `0-9` and single spaces, with no space at either end |
| TextNormalize.NormalizeWithoutDeletions | backend/search.py:11-17 | when lower-casing and replacing separators already gives that shape, the normal form is exactly that string |
| TextNormalize.NormalizedFixpoint | backend/search.py:3-18 | a string of the normalised shape is its own normal form |
| TextNormalize.NormalizeIdempotent | backend/search.py:3-18 | normalising a normal form changes nothing |
| TextNormalize.SplitOfNormalize | backend/search.py:17 | the normal form has exactly the words of the cleaned text |
| TextNormalize.SplitCleanedJoin | backend/search.py:53-55 | the words of keywords joined with spaces are exactly the words of the individual keywords |
| ProductSearch.StripExtension | backend/search.py:34 | the query loses its last `.` and what follows it, and nothing else; a query without `.` is unchanged |
| ProductSearch.StripExtensionOfName | backend/search.py:34 | stem + `.` + extension without `.` gives back the stem, even when the stem has `.`s of its own |
| ProductSearch.StripExtensionIgnoresCase | backend/search.py:34 | queries that agree up to case lose extensions of the same length |
| ProductSearch.NormalizedQuery | backend/search.py:34-35 | definition, no contract of its own: the extension is dropped, then the rest normalised; its properties are `QueryNormalForm` and `SearchIgnoresCase` |
| ProductSearch.QueryNormalForm | backend/search.py:34-35 | a query whose stem, lower-cased with separators replaced, is already normalised has that string as its normalised query |
| ProductSearch.Words | backend/search.py:47 | definition, no contract of its own: the set of `split()` words; `QueryWordsEmpty` ties it being empty to the normal form |
| ProductSearch.QueryWordsEmpty | backend/search.py:47-49 | the query has no words exactly when its normal form is empty |
| ProductSearch.ExactMatch | backend/search.py:39-41 | definition, no contract of its own: some keyword of the product normalises to the normalised query; `ExactMatchIsSubsetMatch` relates it to the subset test |
| ProductSearch.ProductWords | backend/search.py:53-55 | definition, no contract of its own: the words of the product's keywords joined with spaces and normalised; `ProductWordsOfKeywords` and `ProductWordLetters` describe it |
| ProductSearch.SubsetMatch | backend/search.py:56-58 | definition, no contract of its own: every query word is a product word |
| ProductSearch.FirstIndex | backend/search.py:38-60 | the scan stops at an element that satisfies the test, none before it does, and it finds nothing exactly when no element does |
| ProductSearch.FindProduct | backend/search.py:20-62 | the result is nothing or an element of the product list |
| ProductSearch.ExactPass | backend/search.py:38-43 | the nested keyword loop returns the position of the first product with a keyword whose normal form equals the normalised query, or nothing |
| ProductSearch.SubsetPass | backend/search.py:51-60 | the product loop returns the position of the first product whose keyword words contain all query words, or nothing |
| ProductSearch.FindProductByQuery | backend/search.py:20-62 | the method returns exactly what `FindProduct` specifies, so nothing or an element of the list |
| ProductSearch.ExactMatchWins | backend/search.py:38-43 | the first product with an exact keyword match is the result, whatever later products or the subset pass would give |
| ProductSearch.SubsetMatchWins | backend/search.py:47-60 | with no exact match anywhere and a query with words, the first subset match is the result |
| ProductSearch.NoMatchIsNone | backend/search.py:38-62 | nothing is found if and only if no product matches exactly and either the query has no words or no product contains them all |
| ProductSearch.ProductWordsOfKeywords | backend/search.py:53-55 | a product's word set is the union of the word sets of its keywords, each normalised on its own |
| ProductSearch.ExactMatchIsSubsetMatch | backend/search.py:38-58 | a product that matches exactly also passes the subset test |
| ProductSearch.ProductWordLetters | backend/search.py:53-55 | every character of a product word occurs in one of the product's lower-cased keywords |
| ProductSearch.UnspellableWordFindsNothing | backend/search.py:38-62 | a query word with, for every product, a character that product's keywords lack makes the search find nothing |
| ProductSearch.SearchIgnoresCase | backend/search.py:34-35 | queries that differ only in ASCII case find the same product |
| ProductSearch.LastWord | backend/search.py:47 | the word after the last space is one of the query's words |
| ProductCatalog.Product | src/lib/db.ts:2-10 | the record type, one field per `Product` field; TypeScript `number` prices are reals |
| ProductCatalog.Products | src/lib/db.ts:12-43 | the 21 records in declaration order; `CatalogSize` to `CatalogNamesDistinct` state what the data keeps |
| ProductCatalog.CatalogSize | src/lib/db.ts:12-43 | the catalogue has 21 entries |
| ProductCatalog.CatalogHasKeywords | src/lib/db.ts:14-42 | every entry has at least one keyword |
| ProductCatalog.CatalogPricesOrdered | src/lib/db.ts:14-42 | every entry's buyer price exceeds its seller price, which is positive |
| ProductCatalog.CatalogPricesWhole | src/lib/db.ts:14-42 | every price is a whole number |
| ProductCatalog.CatalogVocabularies | src/lib/db.ts:14-42 | conditions are `New`, `Like New` or `Good`, and categories are `Electronics` or `Shoes` |
| ProductCatalog.CatalogWellFormed | src/lib/db.ts:2-43 | every entry satisfies all of the above at once |
| ProductCatalog.CatalogNamesDistinct | src/lib/db.ts:14-42 | no two entries share a name |
| CatalogSearch.SpelledNormalForm | backend/search.py:11-17 | a keyword without capitals or `.`, spelled as a normalised string up to separators, is left alone by the extension step and normalises to that string |
| CatalogSearch.CatalogFormsListed | src/lib/db.ts:14-42 | every catalogue keyword is spelled as its listed normal form, and that form is normalised |
| CatalogSearch.CatalogFormsDistinct | src/lib/db.ts:14-42 | no normal form is listed for two entries |
| CatalogSearch.KeywordNormalForm | src/lib/db.ts:14-42 | each keyword is lower-case, has no `.`, survives the extension step, and normalises to its listed form |
| CatalogSearch.CatalogKeywordsLowercase | src/lib/db.ts:14-42 | every catalogue keyword is lower-case and contains no `.` |
| CatalogSearch.CatalogKeywordsDistinct | src/lib/db.ts:14-42 | keywords of different entries never normalise to the same string |
| CatalogSearch.CatalogQueryFindsEntry | backend/search.py:38-43 | a query with the normal form of some keyword finds that keyword's entry |
| CatalogSearch.CatalogKeywordFindsOwnEntry | backend/search.py:38-43 | searching for any catalogue keyword finds its own entry |
| CatalogSearch.ListedFormFindsEntry | backend/search.py:38-43 | a query whose normal form is listed for an entry finds that entry |
| CatalogSearch.ListedFormsNonEmpty | src/lib/db.ts:14-42 | no catalogue keyword's listed normal form is the empty string |
| CatalogSearch.WordlessQueryFindsNothing | backend/search.py:38-49 | a query without words finds nothing in the catalogue: the subset pass is skipped and no keyword normalises to the empty string |
| CatalogSearch.LacksOutsideLetters | src/lib/db.ts:14-42 | an entry whose keywords use only a given set of characters lacks every word with a character outside it |
| CatalogSearch.UnspellableByGroups | src/lib/db.ts:14-42 | a word with, for each catalogue group, a character that group's keywords never use can be spelled by no entry |
| CatalogSearch.PhotoUnspellable | src/lib/db.ts:14-42 | no entry's keywords can spell `photo` |
| CatalogSearch.FrontUnspellable | src/lib/db.ts:14-42 | no entry's keywords can spell `front` |
| CatalogSearch.SneakerUnspellable | src/lib/db.ts:14-42 | no entry's keywords can spell `sneaker` |
| CatalogSearch.ObjectUnspellable | src/lib/db.ts:14-42 | no entry's keywords can spell `object` |
| CatalogSearch.ForeignWordFindsNothing | backend/search.py:51-60 | any query with one of the words `photo`, `front`, `sneaker` or `object` finds nothing in the catalogue |
| CatalogSearch.IPhone11ProQuery | src/lib/db.ts:16 | any query normalising to `iphone 11 pro` finds the iPhone 11 Pro |
| CatalogSearch.DocumentedQueryFindsEntry | backend/search.py:26 | the documented query `iphone+11-pro.jpg` normalises to `iphone 11 pro` and finds the iPhone 11 Pro |
| CatalogSearch.DocstringExampleKeepsExtension | backend/search.py:8 | `normalize_text("iPhone+11_Pro.jpg")` is `iphone 11 pro jpg`, not the documented `iphone 11 pro` |
| CatalogSearch.DocstringExampleAsQuery | backend/search.py:34-35 | the same text as a finder query normalises to `iphone 11 pro` and finds the iPhone 11 Pro |
| CatalogSearch.PhotoQueryFindsNothing | backend/search.py:20-62 | `iphone-15-photo.jpg` normalises to `iphone 15 photo` and finds nothing |
| CatalogSearch.FrontQueryFindsNothing | backend/search.py:20-62 | `samsung-s23-front.png` normalises to `samsung s23 front` and finds nothing |
| CatalogSearch.SneakerQueryFindsNothing | backend/search.py:20-62 | `AIR FORCE 1 SNEAKER` normalises to `air force 1 sneaker` and finds nothing |
| CatalogSearch.ObjectQueryFindsNothing | backend/search.py:20-62 | `random-object.jpg` normalises to `random object` and finds nothing |

## Left out

- Unicode. `Lower` lower-cases `A`-`Z` only, and `IsWhitespace` is the ASCII
  part of Python's whitespace (space, 9-13, 28-31). Python's `str.lower()`
  maps a few non-ASCII characters to ASCII letters, such as the Kelvin
  sign to `k`, which step 3 then keeps. `split()` and `\s` also accept
  Unicode spaces, such as U+00A0. The model's step 3 deletes every
  non-ASCII character. So a Kelvin sign disappears instead of becoming
  `k`, and a Unicode space disappears and joins the words on either side:
  `a`, U+00A0, `b` normalises to `ab`, where Python gives `a b`.
- `product.get('keywords', [])`: a product without a `keywords` key is
  modelled by the record's `keywords` field being empty. The `Product`
  type of src/lib/db.ts always has the field. An empty list behaves as the
  missing key would.
- Object identity. The finder returns the product dictionary it found. The
  model returns an equal `Product` value, and the product list is an
  immutable sequence. "The list is never modified" therefore holds by
  construction and is not a separate contract.
- TypeScript `number` prices are modelled as `real`s. Floating point and
  the formatting of prices for display are not modelled.
- `description` is carried in the record, but no property concerns it.
- backend/app.py (the image-recognition endpoint, which returns only a
  count of detected objects), the seed scripts, the React pages and
  components, the choice between buyer and seller price, confidence
  scores, and the build configuration are not part of this model. The
  query and the product list are parameters of the finder.
