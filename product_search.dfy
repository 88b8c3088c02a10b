/** Keyword-based product lookup (`find_product_by_query` of backend/search.py). */
module ProductSearch {
  import opened TextNormalize
  import opened ProductCatalog

  datatype Option<T> = None | Some(value: T)

  /** `query.rsplit('.', 1)[0]`: everything before the last `.`, or the
      whole query when it has no `.`. */
  function StripExtension(query: string): (r: string)
    ensures '.' !in query ==> r == query
    ensures '.' in query ==> |r| < |query| && query[|r|] == '.' && '.' !in query[|r| + 1..]
    ensures r == query[..|r|]
    decreases |query|
  {
    if '.' !in query then query
    else if query[|query| - 1] == '.' then query[..|query| - 1]
    else
      var prefix := query[..|query| - 1];
      assert '.' in prefix by {
        var i :| 0 <= i < |query| && query[i] == '.';
        assert prefix[i] == '.';
      }
      StripExtension(prefix)
  }

  /** Only the last extension goes: a name made of a stem (which may hold
      `.`s of its own), a `.` and an extension without `.` gives back the
      stem. */
  lemma StripExtensionOfName(stem: string, ext: string)
    requires '.' !in ext
    ensures StripExtension(stem + "." + ext) == stem
  {
    var name := stem + "." + ext;
    assert name[|stem|] == '.';
    assert name[..|stem|] == stem;
  }

  /** The query as the finder compares it: extension dropped, then normalised. */
  function NormalizedQuery(query: string): string {
    Normalize(StripExtension(query))
  }

  /** Python's `set(text.split())`. */
  function Words(text: string): set<string> {
    set w | w in Split(text)
  }

  /** The exact test of the first pass: some keyword of `p` normalises to
      exactly the normalised query. A product without keywords has none. */
  predicate ExactMatch(p: Product, normalizedQuery: string) {
    exists k :: k in p.keywords && Normalize(k) == normalizedQuery
  }

  /** The words of a product's keywords, joined with spaces and normalised. */
  function ProductWords(p: Product): set<string> {
    Words(Normalize(Join(p.keywords, " ")))
  }

  /** The looser test of the second pass: every query word is a product word. */
  predicate SubsetMatch(p: Product, queryWords: set<string>) {
    queryWords <= ProductWords(p)
  }

  /** The index of the first element that satisfies `P`, scanning in order. */
  function FirstIndex<T>(s: seq<T>, P: T -> bool): (r: Option<nat>)
    ensures r.Some? ==> r.value < |s| && P(s[r.value]) && forall j :: 0 <= j < r.value ==> !P(s[j])
    ensures r.None? <==> forall j :: 0 <= j < |s| ==> !P(s[j])
  {
    if s == [] then None
    else if P(s[0]) then Some(0)
    else match FirstIndex(s[1..], P)
      case None => None
      case Some(i) => Some(i + 1)
  }

  /** The position the exact pass (backend/search.py lines 38-43) stops at. */
  function ExactPassIndex(productsDb: seq<Product>, normalizedQuery: string): Option<nat> {
    FirstIndex(productsDb, p => ExactMatch(p, normalizedQuery))
  }

  /** The position the subset pass (backend/search.py lines 51-60) stops at. */
  function SubsetPassIndex(productsDb: seq<Product>, queryWords: set<string>): Option<nat> {
    FirstIndex(productsDb, p => SubsetMatch(p, queryWords))
  }

  /** The exact pass stops at `i` when `i` is the first exact match. */
  lemma ExactPassIndexAt(productsDb: seq<Product>, normalizedQuery: string, i: nat)
    requires i < |productsDb| && ExactMatch(productsDb[i], normalizedQuery)
    requires forall j :: 0 <= j < i ==> !ExactMatch(productsDb[j], normalizedQuery)
    ensures ExactPassIndex(productsDb, normalizedQuery) == Some(i)
  {
  }

  /** The exact pass finds nothing when no product matches exactly. */
  lemma ExactPassIndexNone(productsDb: seq<Product>, normalizedQuery: string)
    requires forall j :: 0 <= j < |productsDb| ==> !ExactMatch(productsDb[j], normalizedQuery)
    ensures ExactPassIndex(productsDb, normalizedQuery) == None
  {
  }

  /** The subset pass stops at `i` when `i` is the first subset match. */
  lemma SubsetPassIndexAt(productsDb: seq<Product>, queryWords: set<string>, i: nat)
    requires i < |productsDb| && SubsetMatch(productsDb[i], queryWords)
    requires forall j :: 0 <= j < i ==> !SubsetMatch(productsDb[j], queryWords)
    ensures SubsetPassIndex(productsDb, queryWords) == Some(i)
  {
  }

  /** What `find_product_by_query(query, productsDb)` returns: the first
      product with an exact keyword match; failing that, and only when the
      query has words, the first product whose keyword words contain all of
      them; otherwise nothing. */
  function FindProduct(query: string, productsDb: seq<Product>): (r: Option<Product>)
    ensures r.None? || r.value in productsDb
  {
    var normalizedQuery := NormalizedQuery(query);
    match ExactPassIndex(productsDb, normalizedQuery)
    case Some(i) => Some(productsDb[i])
    case None =>
      var queryWords := Words(normalizedQuery);
      if queryWords == {} then None
      else match SubsetPassIndex(productsDb, queryWords)
        case Some(i) => Some(productsDb[i])
        case None => None
  }

  /** `find_product_by_query`: the two ordered passes, each stopping at its
      first hit. */
  method FindProductByQuery(query: string, productsDb: seq<Product>) returns (r: Option<Product>)
    ensures r == FindProduct(query, productsDb)
    ensures r.None? || r.value in productsDb
  {
    var queryWithoutExtension := StripExtension(query);
    var normalizedQuery := Normalize(queryWithoutExtension);

    var exact := ExactPass(productsDb, normalizedQuery);
    if exact.Some? {
      return Some(productsDb[exact.value]);
    }

    var queryWords := Words(normalizedQuery);
    if queryWords == {} {
      return None;
    }

    var subset := SubsetPass(productsDb, queryWords);
    if subset.Some? {
      return Some(productsDb[subset.value]);
    }
    return None;
  }

  /** The first loop: scan the products in order and, within each, its
      keywords in order, stopping at the first keyword whose normal form is
      the normalised query. */
  method ExactPass(productsDb: seq<Product>, normalizedQuery: string) returns (r: Option<nat>)
    ensures r == ExactPassIndex(productsDb, normalizedQuery)
  {
    for i := 0 to |productsDb|
      invariant forall j :: 0 <= j < i ==> !ExactMatch(productsDb[j], normalizedQuery)
    {
      var keywords := productsDb[i].keywords;
      for k := 0 to |keywords|
        invariant forall m :: 0 <= m < k ==> Normalize(keywords[m]) != normalizedQuery
      {
        var normalizedKeyword := Normalize(keywords[k]);
        if normalizedQuery == normalizedKeyword {
          assert ExactMatch(productsDb[i], normalizedQuery) by { assert keywords[k] in keywords; }
          ExactPassIndexAt(productsDb, normalizedQuery, i);
          return Some(i);
        }
      }
    }
    return None;
  }

  /** The second loop: scan the products in order, stopping at the first
      whose joined, normalised keywords contain every query word. */
  method SubsetPass(productsDb: seq<Product>, queryWords: set<string>) returns (r: Option<nat>)
    ensures r == SubsetPassIndex(productsDb, queryWords)
  {
    for i := 0 to |productsDb|
      invariant forall j :: 0 <= j < i ==> !SubsetMatch(productsDb[j], queryWords)
    {
      var allKeywordsStr := Join(productsDb[i].keywords, " ");
      var normalizedProductKeywords := Normalize(allKeywordsStr);
      var productWords := Words(normalizedProductKeywords);
      assert productWords == ProductWords(productsDb[i]);
      if queryWords <= productWords {
        SubsetPassIndexAt(productsDb, queryWords, i);
        return Some(i);
      }
    }
    return None;
  }

  /** Exact-match priority: the first product with an exact keyword match is
      the result, whatever the subset pass would have found. */
  lemma ExactMatchWins(query: string, productsDb: seq<Product>, i: nat)
    requires i < |productsDb| && ExactMatch(productsDb[i], NormalizedQuery(query))
    requires forall j :: 0 <= j < i ==> !ExactMatch(productsDb[j], NormalizedQuery(query))
    ensures FindProduct(query, productsDb) == Some(productsDb[i])
  {
    ExactPassIndexAt(productsDb, NormalizedQuery(query), i);
  }

  /** With no exact match anywhere and a query that has words, the first
      product whose keyword words contain every query word is the result. */
  lemma SubsetMatchWins(query: string, productsDb: seq<Product>, i: nat)
    requires forall j :: 0 <= j < |productsDb| ==> !ExactMatch(productsDb[j], NormalizedQuery(query))
    requires Words(NormalizedQuery(query)) != {}
    requires i < |productsDb| && SubsetMatch(productsDb[i], Words(NormalizedQuery(query)))
    requires forall j :: 0 <= j < i ==> !SubsetMatch(productsDb[j], Words(NormalizedQuery(query)))
    ensures FindProduct(query, productsDb) == Some(productsDb[i])
  {
    var normalizedQuery := NormalizedQuery(query);
    ExactPassIndexNone(productsDb, normalizedQuery);
    SubsetPassIndexAt(productsDb, Words(normalizedQuery), i);
  }

  /** No result exactly when neither pass finds a product; the subset pass
      is skipped for a query without words. */
  lemma NoMatchIsNone(query: string, productsDb: seq<Product>)
    ensures FindProduct(query, productsDb) == None <==>
      (forall j :: 0 <= j < |productsDb| ==> !ExactMatch(productsDb[j], NormalizedQuery(query))) &&
      (Words(NormalizedQuery(query)) == {} ||
       forall j :: 0 <= j < |productsDb| ==> !SubsetMatch(productsDb[j], Words(NormalizedQuery(query))))
  {
  }

  /** The query has no words exactly when its normal form is empty. */
  lemma QueryWordsEmpty(query: string)
    ensures Words(NormalizedQuery(query)) == {} <==> NormalizedQuery(query) == []
  {
    var t := NormalizedQuery(query);
    NormalizeIsNormalized(StripExtension(query));
    if t != [] {
      FirstWordOfNormalized(t);
      var n := WordEnd(t);
      if n < |t| {
        SplitAfterFirstWord(t);
      } else {
        assert t[..n] == t && t[n..] == [];
      }
      assert t[..n] in Words(t);
    } else {
      assert Split(t) == [];
      assert Words(t) == {};
    }
  }

  /** How two queries that agree up to ASCII case place their `.`s. */
  lemma StripExtensionIgnoresCase(a: string, b: string)
    requires |a| == |b| && forall i :: 0 <= i < |a| ==> Lower(a[i]) == Lower(b[i])
    ensures |StripExtension(a)| == |StripExtension(b)|
  {
    assert forall i :: 0 <= i < |a| ==> (a[i] == '.' <==> b[i] == '.');
  }

  /** Searching ignores ASCII letter case: queries that differ only in case
      find the same product. */
  lemma SearchIgnoresCase(a: string, b: string, productsDb: seq<Product>)
    requires |a| == |b| && forall i :: 0 <= i < |a| ==> Lower(a[i]) == Lower(b[i])
    ensures FindProduct(a, productsDb) == FindProduct(b, productsDb)
  {
    StripExtensionIgnoresCase(a, b);
    var ra, rb := StripExtension(a), StripExtension(b);
    assert forall i :: 0 <= i < |ra| ==> ra[i] == a[i] && rb[i] == b[i];
    NormalizeIgnoresCase(ra, rb);
  }

  /** The normal form of a query whose extension-free part already has the
      normalised shape once lower-cased and with separators replaced. */
  lemma QueryNormalForm(query: string, stem: string, t: string)
    requires StripExtension(query) == stem
    requires SeparatorsToSpaces(LowerAll(stem)) == t && IsNormalized(t)
    ensures NormalizedQuery(query) == t
  {
    NormalizeWithoutDeletions(stem);
  }

  /** The subset pass compares against the words of the product's keywords,
      each normalised on its own: joining the keywords with spaces merges no
      two keywords' words and adds none. */
  lemma ProductWordsOfKeywords(p: Product)
    ensures forall w :: w in ProductWords(p) <==> exists k :: k in p.keywords && w in Words(Normalize(k))
  {
    SplitOfNormalize(Join(p.keywords, " "));
    SplitCleanedJoin(p.keywords);
    forall k | k in p.keywords
      ensures Split(Normalize(k)) == Split(Cleaned(k))
    {
      SplitOfNormalize(k);
    }
  }

  /** An exact match is also a subset match: the query's words are then the
      words of one of the product's keywords. */
  lemma ExactMatchIsSubsetMatch(p: Product, normalizedQuery: string)
    requires ExactMatch(p, normalizedQuery)
    ensures SubsetMatch(p, Words(normalizedQuery))
  {
    ProductWordsOfKeywords(p);
  }

  /** Every character of a product word occurs in one of the product's
      keywords, lower-cased. */
  lemma ProductWordLetters(p: Product, w: string)
    requires w in ProductWords(p)
    ensures forall c :: c in w ==> exists k :: k in p.keywords && c in LowerAll(k)
  {
    ProductWordsOfKeywords(p);
    var k :| k in p.keywords && w in Words(Normalize(k));
    SplitOfNormalize(k);
    SplitYieldsWords(Cleaned(k));
    var u := LowerAll(k);
    forall c | c in w
      ensures c in u
    {
      assert c in SeparatorsToSpaces(u) && c != ' ';
      var i :| 0 <= i < |u| && SeparatorsToSpaces(u)[i] == c;
      assert u[i] == c;
    }
  }

  /** Some character of `w` occurs in none of the lower-cased keywords of `p`. */
  predicate Lacks(p: Product, w: string) {
    exists c :: c in w && forall k :: k in p.keywords ==> c !in LowerAll(k)
  }

  /** Every product of `productsDb` lacks a character of `w`. */
  predicate Unspellable(w: string, productsDb: seq<Product>) {
    forall i :: 0 <= i < |productsDb| ==> Lacks(productsDb[i], w)
  }

  /** A query with a word that no product's keywords can spell finds
      nothing: neither pass accepts a product that lacks one query word. */
  lemma UnspellableWordFindsNothing(query: string, w: string, productsDb: seq<Product>)
    requires w in Words(NormalizedQuery(query)) && Unspellable(w, productsDb)
    ensures FindProduct(query, productsDb) == None
  {
    var normalizedQuery := NormalizedQuery(query);
    forall i | 0 <= i < |productsDb|
      ensures !ExactMatch(productsDb[i], normalizedQuery) && !SubsetMatch(productsDb[i], Words(normalizedQuery))
    {
      if w in ProductWords(productsDb[i]) {
        ProductWordLetters(productsDb[i], w);
      }
      if ExactMatch(productsDb[i], normalizedQuery) {
        ExactMatchIsSubsetMatch(productsDb[i], normalizedQuery);
      }
    }
    NoMatchIsNone(query, productsDb);
  }

  /** The last word of a text is one of its words. */
  lemma LastWord(a: string, w: string)
    requires w != [] && forall i :: 0 <= i < |w| ==> !IsWhitespace(w[i])
    ensures w in Words(a + " " + w)
  {
    SplitAtWhitespace(a, ' ', w);
    WholeWord(w);
  }
}
