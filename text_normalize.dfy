/** Text normalisation used to compare search queries with product keywords
    (`normalize_text` of backend/search.py).

    Characters are Dafny `char`s; only their ASCII behaviour is modelled:
    lower-casing touches `A`-`Z` alone, and whitespace is the ASCII part of
    what Python's `str.split()` and the regex class `\s` treat as whitespace. */
module TextNormalize {

  /** ASCII whitespace as Python sees it: space, `\t \n \v \f \r` (9-13) and
      the separators 0x1C-0x1F. */
  predicate IsWhitespace(c: char) {
    c == ' ' || (9 <= c as int <= 13) || (28 <= c as int <= 31)
  }

  predicate IsUpper(c: char) {
    'A' <= c <= 'Z'
  }

  /** The characters the regex class `[a-z0-9]` accepts. */
  predicate IsLowerAlnum(c: char) {
    ('a' <= c <= 'z') || ('0' <= c <= '9')
  }

  /** The characters of the regex class `[\_\-\+\.]`. */
  predicate IsSeparator(c: char) {
    c == '_' || c == '-' || c == '+' || c == '.'
  }

  /** ASCII `str.lower()` on one character. */
  function Lower(c: char): (r: char)
    ensures !IsUpper(r)
    ensures IsUpper(c) ==> r as int == c as int + 32
    ensures !IsUpper(c) ==> r == c
  {
    if IsUpper(c) then (c as int + 32) as char else c
  }

  /** Step 1: `text.lower()`. */
  function LowerAll(s: string): string {
    seq(|s|, i requires 0 <= i < |s| => Lower(s[i]))
  }

  /** Step 2: `re.sub(r'[\_\-\+\.]', ' ', text)`. */
  function SeparatorsToSpaces(s: string): string {
    seq(|s|, i requires 0 <= i < |s| => if IsSeparator(s[i]) then ' ' else s[i])
  }

  /** Whether `re.sub(r'[^a-z0-9\s]', '', text)` keeps a character. */
  predicate IsKept(c: char) {
    IsLowerAlnum(c) || IsWhitespace(c)
  }

  /** Step 3: `re.sub(r'[^a-z0-9\s]', '', text)`: an order-preserving filter. */
  function StripDisallowed(s: string): (r: string)
    ensures forall c :: c in r ==> c in s && IsKept(c)
  {
    if s == [] then []
    else (if IsKept(s[0]) then [s[0]] else []) + StripDisallowed(s[1..])
  }

  /** Steps 1-3 together: the text just before it is split into words. */
  function Cleaned(s: string): string {
    StripDisallowed(SeparatorsToSpaces(LowerAll(s)))
  }

  /** Length of the leading run of non-whitespace characters. */
  function WordEnd(s: string): (n: nat)
    ensures n <= |s|
    ensures forall i :: 0 <= i < n ==> !IsWhitespace(s[i])
    ensures n < |s| ==> IsWhitespace(s[n])
  {
    if s == [] || IsWhitespace(s[0]) then 0 else 1 + WordEnd(s[1..])
  }

  /** Python's `str.split()` with no argument: the maximal runs of
      non-whitespace characters, in order. */
  function Split(s: string): seq<string>
    decreases |s|
  {
    if s == [] then []
    else if IsWhitespace(s[0]) then Split(s[1..])
    else
      var n := WordEnd(s);
      assert n > 0 by { assert !IsWhitespace(s[0]); }
      [s[..n]] + Split(s[n..])
  }

  /** Every word `Split` yields is non-empty, free of whitespace and made of
      characters of its input. */
  lemma {:induction false} SplitYieldsWords(s: string)
    ensures forall w :: w in Split(s) ==> w != [] && forall c :: c in w ==> c in s && !IsWhitespace(c)
    decreases |s|
  {
    if s != [] {
      if IsWhitespace(s[0]) {
        SplitYieldsWords(s[1..]);
      } else {
        var n := WordEnd(s);
        assert !IsWhitespace(s[0]);
        SplitYieldsWords(s[n..]);
        forall w | w in Split(s)
          ensures w != [] && forall c :: c in w ==> c in s && !IsWhitespace(c)
        {
          if w == s[..n] {
            assert w[0] == s[0];
            assert forall c :: c in w ==> c in s;
          } else {
            assert w in Split(s[n..]);
            assert forall c :: c in s[n..] ==> c in s;
          }
        }
      }
    }
  }

  /** Python's `sep.join(words)`. */
  function Join(words: seq<string>, sep: string): (r: string)
    ensures words == [] ==> r == []
    ensures |words| == 1 ==> r == words[0]
  {
    if |words| == 0 then []
    else if |words| == 1 then words[0]
    else words[0] + sep + Join(words[1..], sep)
  }

  /** The shape `normalize_text` promises: only `a-z`, `0-9` and single
      spaces, with no space at either end. */
  predicate IsNormalized(t: string) {
    && (forall i :: 0 <= i < |t| ==> IsLowerAlnum(t[i]) || t[i] == ' ')
    && (|t| > 0 ==> t[0] != ' ' && t[|t| - 1] != ' ')
    && (forall i, j {:trigger t[i], t[j]} :: 0 <= i < |t| && j == i + 1 && j < |t| ==> t[i] != ' ' || t[j] != ' ')
  }

  /** `normalize_text(text)`: lower-case, separators to spaces, drop every
      other character outside `[a-z0-9\s]`, then `' '.join(text.split())`. */
  function Normalize(s: string): string {
    Join(Split(Cleaned(s)), " ")
  }

  /** The output of `Normalize` has the promised shape. */
  lemma NormalizeIsNormalized(s: string)
    ensures IsNormalized(Normalize(s))
  {
    SplitYieldsWords(Cleaned(s));
    JoinOfLowerAlnumWords(Split(Cleaned(s)));
  }

  /** Joining non-empty words of `[a-z0-9]` with single spaces gives a
      normalised string. */
  lemma {:induction false} JoinOfLowerAlnumWords(words: seq<string>)
    requires forall w :: w in words ==> w != [] && forall c :: c in w ==> !IsWhitespace(c) && IsKept(c)
    ensures IsNormalized(Join(words, " "))
  {
    if |words| > 1 {
      var w, rest := words[0], Join(words[1..], " ");
      assert w in words;
      assert forall v :: v in words[1..] ==> v in words;
      JoinOfLowerAlnumWords(words[1..]);
      assert words[1] in words[1..];
      assert rest != [] by { JoinNonEmpty(words[1..], " "); }
      var t := w + " " + rest;
      assert Join(words, " ") == t;
      assert w[0] in w;
      forall i | 0 <= i < |t|
        ensures IsLowerAlnum(t[i]) || t[i] == ' '
      {
        if i < |w| { assert t[i] == w[i]; assert w[i] in w; }
        else if i > |w| { assert t[i] == rest[i - |w| - 1]; }
      }
      forall i, j | 0 <= i < |t| && j == i + 1 && j < |t|
        ensures t[i] != ' ' || t[j] != ' '
      {
        if i < |w| { assert t[i] == w[i]; assert w[i] in w; }
        else if i == |w| { assert t[i + 1] == rest[0]; }
        else { assert t[i] == rest[i - |w| - 1]; assert t[i + 1] == rest[i - |w|]; }
      }
      assert t[|t| - 1] == rest[|rest| - 1];
    } else if |words| == 1 {
      var w := words[0];
      assert w in words;
      assert forall i :: 0 <= i < |w| ==> w[i] in w;
    }
  }

  lemma {:induction false} JoinNonEmpty(words: seq<string>, sep: string)
    requires words != [] && words[0] != []
    ensures Join(words, sep) != []
  {
  }

  /** A normalised string splits into words that join back to it. */
  lemma {:induction false} JoinSplitOfNormalized(t: string)
    requires IsNormalized(t)
    ensures Join(Split(t), " ") == t
    decreases |t|
  {
    if t != [] {
      FirstWordOfNormalized(t);
      var n := WordEnd(t);
      if n == |t| {
        assert t[..n] == t && t[n..] == [];
      } else {
        JoinSplitOfNormalized(t[n + 1..]);
        JoinSplitStep(t);
      }
    }
  }

  /** If the text after the first word and its single following space
      joins back from its words, so does the whole text. */
  lemma JoinSplitStep(t: string)
    requires t != [] && !IsWhitespace(t[0]) && WordEnd(t) < |t| - 1
    requires t[WordEnd(t) + 1..] != [] && Join(Split(t[WordEnd(t) + 1..]), " ") == t[WordEnd(t) + 1..]
    requires t[WordEnd(t)] == ' '
    ensures Join(Split(t), " ") == t
  {
    var n := WordEnd(t);
    var t' := t[n + 1..];
    var rest := Split(t');
    SplitAfterFirstWord(t);
    assert rest != [] by { assert Join([], " ") == [] != t'; }
    JoinCons(t[..n], rest, " ");
    ReassembleAtSpace(t, n);
  }

  lemma ReassembleAtSpace(t: string, n: nat)
    requires n < |t| && t[n] == ' '
    ensures t[..n] + " " + t[n + 1..] == t
  {
  }

  lemma JoinCons(w: string, rest: seq<string>, sep: string)
    requires rest != []
    ensures Join([w] + rest, sep) == w + sep + Join(rest, sep)
  {
    assert ([w] + rest)[1..] == rest;
  }

  /** In a non-empty normalised string the first word is non-empty and is
      either all of it or followed by one space and a normalised rest. */
  lemma FirstWordOfNormalized(t: string)
    requires IsNormalized(t) && t != []
    ensures 0 < WordEnd(t)
    ensures WordEnd(t) < |t| ==> WordEnd(t) < |t| - 1 && t[WordEnd(t)] == ' ' && IsNormalized(t[WordEnd(t) + 1..])
  {
    var n := WordEnd(t);
    assert !IsWhitespace(t[0]);
    if n < |t| {
      assert t[n] == ' ' by { assert IsLowerAlnum(t[n]) || t[n] == ' '; }
      NormalizedAfterSpace(t, n);
    }
  }

  /** Splitting drops the whitespace character that ends the first word. */
  lemma SplitAfterFirstWord(t: string)
    requires t != [] && !IsWhitespace(t[0]) && WordEnd(t) < |t|
    ensures Split(t) == [t[..WordEnd(t)]] + Split(t[WordEnd(t) + 1..])
  {
    var n := WordEnd(t);
    assert Split(t) == [t[..n]] + Split(t[n..]);
    var r := t[n..];
    assert r != [] && IsWhitespace(r[0]);
    assert Split(r) == Split(r[1..]);
    assert r[1..] == t[n + 1..];
  }

  /** What follows a space of a normalised string is normalised. */
  lemma NormalizedAfterSpace(t: string, n: nat)
    requires IsNormalized(t) && n < |t| && t[n] == ' '
    ensures IsNormalized(t[n + 1..])
  {
    var t' := t[n + 1..];
    assert forall i :: 0 <= i < |t'| ==> t'[i] == t[n + 1 + i];
  }

  /** The filter of step 3 changes nothing when every character is kept. */
  lemma {:induction false} StripDisallowedKeepsAll(s: string)
    requires forall i :: 0 <= i < |s| ==> IsKept(s[i])
    ensures StripDisallowed(s) == s
  {
    if s != [] {
      StripDisallowedKeepsAll(s[1..]);
      assert s == [s[0]] + s[1..];
    }
  }

  /** When lower-casing and replacing separators already yields a normalised
      string, step 3 deletes nothing and `Normalize` returns that string. */
  lemma NormalizeWithoutDeletions(s: string)
    requires IsNormalized(SeparatorsToSpaces(LowerAll(s)))
    ensures Normalize(s) == SeparatorsToSpaces(LowerAll(s))
  {
    var u := SeparatorsToSpaces(LowerAll(s));
    StripDisallowedKeepsAll(u);
    JoinSplitOfNormalized(u);
  }

  /** A normalised string is its own normal form. */
  lemma NormalizedFixpoint(t: string)
    requires IsNormalized(t)
    ensures Normalize(t) == t
  {
    assert LowerAll(t) == t;
    assert SeparatorsToSpaces(t) == t;
    NormalizeWithoutDeletions(t);
  }

  /** Normalising twice is normalising once. */
  lemma NormalizeIdempotent(s: string)
    ensures Normalize(Normalize(s)) == Normalize(s)
  {
    NormalizeIsNormalized(s);
    NormalizedFixpoint(Normalize(s));
  }

  /** Texts that differ only in ASCII letter case normalise alike. */
  lemma NormalizeIgnoresCase(a: string, b: string)
    requires |a| == |b| && forall i :: 0 <= i < |a| ==> Lower(a[i]) == Lower(b[i])
    ensures Normalize(a) == Normalize(b)
  {
    assert LowerAll(a) == LowerAll(b);
  }

  /** Steps 1-3 work character by character, so they distribute over
      concatenation. */
  lemma CleanedConcat(x: string, y: string)
    ensures Cleaned(x + y) == Cleaned(x) + Cleaned(y)
  {
    assert LowerAll(x + y) == LowerAll(x) + LowerAll(y);
    assert SeparatorsToSpaces(LowerAll(x) + LowerAll(y)) == SeparatorsToSpaces(LowerAll(x)) + SeparatorsToSpaces(LowerAll(y));
    StripDisallowedConcat(SeparatorsToSpaces(LowerAll(x)), SeparatorsToSpaces(LowerAll(y)));
  }

  lemma {:induction false} StripDisallowedConcat(u: string, v: string)
    ensures StripDisallowed(u + v) == StripDisallowed(u) + StripDisallowed(v)
  {
    if u != [] {
      assert (u + v)[1..] == u[1..] + v;
      StripDisallowedConcat(u[1..], v);
    } else {
      assert u + v == v;
    }
  }

  /** A word cannot run past a whitespace character. */
  lemma {:induction false} WordEndBeforeWhitespace(a: string, r: string)
    requires r == [] || IsWhitespace(r[0])
    ensures WordEnd(a + r) == WordEnd(a)
  {
    if a == [] {
      assert a + r == r;
    } else if !IsWhitespace(a[0]) {
      assert (a + r)[1..] == a[1..] + r;
      WordEndBeforeWhitespace(a[1..], r);
    }
  }

  /** `str.split()` cuts at a whitespace character: the words on either side
      are the words of each side. */
  lemma {:induction false} SplitAtWhitespace(a: string, w: char, b: string)
    requires IsWhitespace(w)
    ensures Split(a + [w] + b) == Split(a) + Split(b)
    decreases |a|
  {
    var s := a + [w] + b;
    if a == [] {
      assert s[1..] == b;
    } else if IsWhitespace(a[0]) {
      assert s[1..] == a[1..] + [w] + b;
      SplitAtWhitespace(a[1..], w, b);
    } else {
      var n := WordEnd(a);
      WordEndBeforeWhitespace(a, [w] + b);
      assert s == a + ([w] + b);
      assert s[..n] == a[..n];
      if n == |a| {
        assert s[n..] == [w] + b;
        assert ([w] + b)[1..] == b;
        assert a[n..] == [];
      } else {
        assert s[n..] == a[n..] + [w] + b;
        SplitAtWhitespace(a[n..], w, b);
      }
    }
  }

  /** Separators `_ - + .` and whitespace split words alike: each acts
      exactly as a space would. */
  lemma BoundaryActsAsSpace(x: string, c: char, y: string)
    requires IsSeparator(c) || IsWhitespace(c)
    ensures Normalize(x + [c] + y) == Normalize(x + " " + y)
  {
    CleanedConcat(x + [c], y);
    CleanedConcat(x, [c]);
    CleanedConcat(x + " ", y);
    CleanedConcat(x, " ");
    var cc := Cleaned([c]);
    CleanedSingle(c);
    assert Cleaned(" ") == " " by { CleanedSingle(' '); }
    assert cc == [cc[0]];
    SplitAtWhitespace(Cleaned(x), cc[0], Cleaned(y));
    SplitAtWhitespace(Cleaned(x), ' ', Cleaned(y));
  }

  /** Any other character outside `a-z`, `0-9` and whitespace (after
      lower-casing) is deleted without splitting the word it sits in. */
  lemma OtherSymbolVanishes(x: string, c: char, y: string)
    requires !IsSeparator(c) && !IsKept(Lower(c))
    ensures Normalize(x + [c] + y) == Normalize(x + y)
  {
    CleanedConcat(x + [c], y);
    CleanedConcat(x, [c]);
    CleanedConcat(x, y);
    CleanedSingle(c);
    assert !IsSeparator(Lower(c));
    assert Cleaned([c]) == [];
    assert Cleaned(x + [c] + y) == Cleaned(x + y);
  }

  /** Steps 1-3 on a single character. */
  lemma CleanedSingle(c: char)
    ensures Cleaned([c]) ==
      var d := if IsSeparator(Lower(c)) then ' ' else Lower(c);
      if IsKept(d) then [d] else []
  {
    var d := if IsSeparator(Lower(c)) then ' ' else Lower(c);
    assert SeparatorsToSpaces(LowerAll([c])) == [d];
    assert [d][1..] == [];
    assert StripDisallowed([d]) == (if IsKept(d) then [d] else []) + StripDisallowed([]);
  }

  /** A non-empty run without whitespace is a single word. */
  lemma WholeWord(w: string)
    requires w != [] && forall i :: 0 <= i < |w| ==> !IsWhitespace(w[i])
    ensures Split(w) == [w]
  {
    assert WordEnd(w) == |w|;
    assert w[..|w|] == w && w[|w|..] == [];
  }

  /** Splitting undoes joining with single spaces, for words that are
      non-empty and free of whitespace. */
  lemma {:induction false} SplitJoinOfWords(words: seq<string>)
    requires forall w :: w in words ==> w != [] && forall c :: c in w ==> !IsWhitespace(c)
    ensures Split(Join(words, " ")) == words
  {
    if |words| > 0 {
      var w := words[0];
      assert w in words;
      assert forall i :: 0 <= i < |w| ==> w[i] in w;
      WholeWord(w);
      if |words| > 1 {
        var rest := Join(words[1..], " ");
        assert forall v :: v in words[1..] ==> v in words;
        SplitJoinOfWords(words[1..]);
        SplitAtWhitespace(w, ' ', rest);
        assert Join(words, " ") == w + [' '] + rest;
        assert words == [w] + words[1..];
      }
    }
  }

  /** `Normalize` has the words of its cleaned input: re-joining them with
      single spaces loses and adds none. */
  lemma SplitOfNormalize(s: string)
    ensures Split(Normalize(s)) == Split(Cleaned(s))
  {
    SplitYieldsWords(Cleaned(s));
    SplitJoinOfWords(Split(Cleaned(s)));
  }

  /** The words of texts joined with spaces are the words of the texts. */
  lemma {:induction false} SplitCleanedJoin(texts: seq<string>)
    ensures forall w :: w in Split(Cleaned(Join(texts, " "))) <==> exists x :: x in texts && w in Split(Cleaned(x))
  {
    if |texts| == 1 {
      assert texts[0] in texts;
    } else if |texts| > 1 {
      var x, rest := texts[0], Join(texts[1..], " ");
      SplitCleanedJoin(texts[1..]);
      CleanedConcat(x + " ", rest);
      CleanedConcat(x, " ");
      CleanedSingle(' ');
      assert Join(texts, " ") == x + " " + rest;
      assert Cleaned(Join(texts, " ")) == Cleaned(x) + [' '] + Cleaned(rest);
      SplitAtWhitespace(Cleaned(x), ' ', Cleaned(rest));
      assert x in texts;
      assert forall y :: y in texts ==> y == x || y in texts[1..];
      assert forall y :: y in texts[1..] ==> y in texts;
    } else {
      assert Join(texts, " ") == [];
      assert Cleaned([]) == [];
    }
  }
}
