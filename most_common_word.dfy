/** The word-frequency tool (cmd/most-common-word/main.go): the rows of all
    entries, their fields joined by spaces, are tokenized and tagged; each
    token is lower-cased and trimmed and is counted when its tag is one of the
    thirteen counted ones and the stop-word test does not flag it; the counts are
    printed most frequent first. The stop-word test is a parameter: as
    written it bisects the unsorted list and so lets most listed words
    through. */
module MostCommonWord {
  import opened Wrappers
  import Strings
  import opened Strconv
  import opened Reviews

  /** The `stopWords` literal in its own order, 379 entries: a list of 127
      English stop words written three times, with the last word of one copy
      and the first of the next fused into "nowi" at both seams. The literal
      is written here in twelve consecutive runs, which keeps indexing into it
      cheap to verify. */
  const StopWords: seq<string> :=
    StopWords01 + StopWords02 + StopWords03 + StopWords04 + StopWords05 + StopWords06
    + StopWords07 + StopWords08 + StopWords09 + StopWords10 + StopWords11 + StopWords12

  const StopWords01: seq<string> := [
    "i", "me", "my", "myself", "we", "our", "ours", "ourselves",
    "you", "your", "yours", "yourself", "yourselves", "he", "him", "his",
    "himself", "she", "her", "hers", "herself", "it", "its", "itself",
    "they", "them", "their", "theirs", "themselves", "what", "which", "who"
  ]

  const StopWords02: seq<string> := [
    "whom", "this", "that", "these", "those", "am", "is", "are",
    "was", "were", "be", "been", "being", "have", "has", "had",
    "having", "do", "does", "did", "doing", "a", "an", "the",
    "and", "but", "if", "or", "because", "as", "until", "while"
  ]

  const StopWords03: seq<string> := [
    "of", "at", "by", "for", "with", "about", "against", "between",
    "into", "through", "during", "before", "after", "above", "below", "to",
    "from", "up", "down", "in", "out", "on", "off", "over",
    "under", "again", "further", "then", "once", "here", "there", "when"
  ]

  const StopWords04: seq<string> := [
    "where", "why", "how", "all", "any", "both", "each", "few",
    "more", "most", "other", "some", "such", "no", "nor", "not",
    "only", "own", "same", "so", "than", "too", "very", "s",
    "t", "can", "will", "just", "don", "should", "nowi", "me"
  ]

  const StopWords05: seq<string> := [
    "my", "myself", "we", "our", "ours", "ourselves", "you", "your",
    "yours", "yourself", "yourselves", "he", "him", "his", "himself", "she",
    "her", "hers", "herself", "it", "its", "itself", "they", "them",
    "their", "theirs", "themselves", "what", "which", "who", "whom", "this"
  ]

  const StopWords06: seq<string> := [
    "that", "these", "those", "am", "is", "are", "was", "were",
    "be", "been", "being", "have", "has", "had", "having", "do",
    "does", "did", "doing", "a", "an", "the", "and", "but",
    "if", "or", "because", "as", "until", "while", "of", "at"
  ]

  const StopWords07: seq<string> := [
    "by", "for", "with", "about", "against", "between", "into", "through",
    "during", "before", "after", "above", "below", "to", "from", "up",
    "down", "in", "out", "on", "off", "over", "under", "again",
    "further", "then", "once", "here", "there", "when", "where", "why"
  ]

  const StopWords08: seq<string> := [
    "how", "all", "any", "both", "each", "few", "more", "most",
    "other", "some", "such", "no", "nor", "not", "only", "own",
    "same", "so", "than", "too", "very", "s", "t", "can",
    "will", "just", "don", "should", "nowi", "me", "my", "myself"
  ]

  const StopWords09: seq<string> := [
    "we", "our", "ours", "ourselves", "you", "your", "yours", "yourself",
    "yourselves", "he", "him", "his", "himself", "she", "her", "hers",
    "herself", "it", "its", "itself", "they", "them", "their", "theirs",
    "themselves", "what", "which", "who", "whom", "this", "that", "these"
  ]

  const StopWords10: seq<string> := [
    "those", "am", "is", "are", "was", "were", "be", "been",
    "being", "have", "has", "had", "having", "do", "does", "did",
    "doing", "a", "an", "the", "and", "but", "if", "or",
    "because", "as", "until", "while", "of", "at", "by", "for"
  ]

  const StopWords11: seq<string> := [
    "with", "about", "against", "between", "into", "through", "during", "before",
    "after", "above", "below", "to", "from", "up", "down", "in",
    "out", "on", "off", "over", "under", "again", "further", "then",
    "once", "here", "there", "when", "where", "why", "how", "all"
  ]

  const StopWords12: seq<string> := [
    "any", "both", "each", "few", "more", "most", "other", "some",
    "such", "no", "nor", "not", "only", "own", "same", "so",
    "than", "too", "very", "s", "t", "can", "will", "just",
    "don", "should", "now"
  ]

  /** Go's `a[h] >= x` on strings. */
  predicate AtLeast(a: string, x: string) {
    !Strings.Less(a, x)
  }

  /** The bisection of `sort.Search(len(a), func(i) a[i] >= x)` on the
      window `[lo, hi)`. Whatever the order of `a`, it lands at a boundary:
      if everything left of the window is below `x`, then so is everything
      left of the result, and if the element after the window is not below
      `x`, then neither is the element at the result. */
  function SearchFrom(a: seq<string>, x: string, lo: nat, hi: nat): (r: nat)
    requires lo <= hi <= |a|
    ensures lo <= r <= hi
    ensures (lo == 0 || Strings.Less(a[lo - 1], x)) ==> (r == 0 || Strings.Less(a[r - 1], x))
    ensures (hi == |a| || AtLeast(a[hi], x)) ==> (r == |a| || AtLeast(a[r], x))
    decreases hi - lo
  {
    if lo < hi then
      var h := (lo + hi) / 2;
      if !AtLeast(a[h], x) then SearchFrom(a, x, h + 1, hi) else SearchFrom(a, x, lo, h)
    else lo
  }

  /** `sort.SearchStrings(a, x)`: the loop of `sort.Search` with the
      predicate `a[i] >= x`. The result is a boundary of `a` for `x`: the
      element before it is below `x` and the element at it is not. */
  method SearchStrings(a: seq<string>, x: string) returns (n: nat)
    ensures n == SearchFrom(a, x, 0, |a|)
    ensures n <= |a|
    ensures n == 0 || Strings.Less(a[n - 1], x)
    ensures n == |a| || AtLeast(a[n], x)
  {
    var i, j := 0, |a|;
    while i < j
      invariant 0 <= i <= j <= |a|
      invariant SearchFrom(a, x, i, j) == SearchFrom(a, x, 0, |a|)
      decreases j - i
    {
      var h := (i + j) / 2;
      if !AtLeast(a[h], x) {
        i := h + 1;
      } else {
        j := h;
      }
    }
    n := i;
  }

  /** `isStopWord`: a word with an apostrophe is a stop word; otherwise
      the word is looked up by bisection in `stopWords`. A hit is always
      genuine, whatever the order of the list; on a sorted list the lookup
      finds exactly the listed words. */
  function IsStopWord(stopWords: seq<string>, tar: string): (r: bool)
    ensures '\'' in tar ==> r
    ensures r ==> '\'' in tar || tar in stopWords
    ensures Sorted(stopWords) ==> (r <==> '\'' in tar || tar in stopWords)
  {
    if '\'' in tar then true
    else
      var n := SearchFrom(stopWords, tar, 0, |stopWords|);
      SearchSorted(stopWords, tar);
      n < |stopWords| && stopWords[n] == tar
  }

  /** `isStopWord` as written: the lookup in `StopWords` as it stands in
      the source, unsorted. */
  function IsStopWordAsWritten(tar: string): bool {
    IsStopWord(StopWords, tar)
  }

  /** What `isStopWord` evidently means: the word has an apostrophe or is
      one of `StopWords`. */
  predicate ListedStopWord(tar: string) {
    '\'' in tar || tar in StopWords
  }

  /** The entries of `StopWords` that the search for "the" visits. */
  lemma StopWordsOnTheTrace()
    ensures |StopWords| == 379 && StopWords[55] == "the"
    ensures StopWords[189] == "while" && StopWords[94] == "there" && StopWords[47] == "had"
    ensures StopWords[71] == "between" && StopWords[83] == "in" && StopWords[89] == "again"
    ensures StopWords[92] == "once" && StopWords[93] == "here"
  {
  }

  /** The bisection for "the" in any 379-entry list holding those words at
      those places ends at index 94. */
  lemma SearchForThe(a: seq<string>)
    requires |a| == 379
    requires a[189] == "while" && a[94] == "there" && a[47] == "had" && a[71] == "between"
    requires a[83] == "in" && a[89] == "again" && a[92] == "once" && a[93] == "here"
    ensures SearchFrom(a, "the", 0, |a|) == 94
  {
    assert AtLeast("while", "the") && AtLeast("there", "the");
    assert Strings.Less("had", "the") && Strings.Less("between", "the") && Strings.Less("in", "the");
    assert Strings.Less("again", "the") && Strings.Less("once", "the") && Strings.Less("here", "the");
    assert SearchFrom(a, "the", 93, 94) == 94;
    assert SearchFrom(a, "the", 90, 94) == 94;
    assert SearchFrom(a, "the", 84, 94) == 94;
    assert SearchFrom(a, "the", 72, 94) == 94;
    assert SearchFrom(a, "the", 48, 94) == 94;
    assert SearchFrom(a, "the", 0, 94) == 94;
    assert SearchFrom(a, "the", 0, 189) == 94;
  }

  /** "the" is in the list, but the bisection for it ends at index 94,
      which holds "there". */
  lemma TheIsMissed()
    ensures "the" in StopWords && !IsStopWordAsWritten("the")
  {
    StopWordsOnTheTrace();
    SearchForThe(StopWords);
  }

  /** The entries of `StopWords` that the search for "very" visits. */
  lemma StopWordsOnTheVeryTrace()
    ensures |StopWords| == 379 && StopWords[118] == "very"
    ensures StopWords[189] == "while" && StopWords[94] == "there" && StopWords[142] == "himself"
    ensures StopWords[166] == "was" && StopWords[154] == "themselves" && StopWords[160] == "that"
    ensures StopWords[163] == "am" && StopWords[165] == "are"
  {
  }

  /** The bisection for "very" in any 379-entry list holding those words at
      those places ends at index 166. */
  lemma SearchForVery(a: seq<string>)
    requires |a| == 379
    requires a[189] == "while" && a[94] == "there" && a[142] == "himself" && a[166] == "was"
    requires a[154] == "themselves" && a[160] == "that" && a[163] == "am" && a[165] == "are"
    ensures SearchFrom(a, "very", 0, |a|) == 166
  {
    assert AtLeast("while", "very") && AtLeast("was", "very");
    assert Strings.Less("there", "very") && Strings.Less("himself", "very") && Strings.Less("themselves", "very");
    assert Strings.Less("that", "very") && Strings.Less("am", "very") && Strings.Less("are", "very");
    assert SearchFrom(a, "very", 164, 166) == 166;
    assert SearchFrom(a, "very", 161, 166) == 166;
    assert SearchFrom(a, "very", 155, 166) == 166;
    assert SearchFrom(a, "very", 143, 166) == 166;
    assert SearchFrom(a, "very", 143, 189) == 166;
    assert SearchFrom(a, "very", 95, 189) == 166;
    assert SearchFrom(a, "very", 0, 189) == 166;
  }

  lemma NormalizeVery()
    ensures Normalize("very") == "very"
  {
    Strings.ToLowerOfLower("very");
    Strings.TrimSpaceOfTrimmed("very");
  }

  /** "very" is in the list, but the bisection for it ends at index 166,
      which holds "was": as written, the adverb "very" is counted, while
      the evident meaning of the lookup never counts it. */
  lemma VeryIsCounted()
    ensures "very" in StopWords && ListedStopWord("very") && !IsStopWordAsWritten("very")
    ensures Occurrences([Token("very", "RB")], "very", IsStopWordAsWritten) == 1
    ensures Occurrences([Token("very", "RB")], "very", ListedStopWord) == 0
  {
    StopWordsOnTheVeryTrace();
    SearchForVery(StopWords);
    NormalizeVery();
  }

  /** Every ranking of the single token ("very", RB) under the lookup as
      written is the one entry `very` counted once, so the program prints
      `Word: very, Count: 1`. */
  lemma VeryIsReported(ranked: seq<CountSorted>)
    requires Ranking(ranked, [Token("very", "RB")], IsStopWordAsWritten)
    ensures ranked == [CountSorted("very", 1)]
    ensures Report(ranked) == "Word: very, Count: 1\n"
  {
    VeryIsCounted();
    VeryCountedOnce(ranked, IsStopWordAsWritten);
  }

  /** The corrected lookup ranks nothing for that same token. */
  lemma VeryIsNotReported(ranked: seq<CountSorted>)
    requires Ranking(ranked, [Token("very", "RB")], ListedStopWord)
    ensures ranked == []
  {
    VeryIsCounted();
    if ranked != [] {
      OnlyVeryCounted(ranked[0].text, ListedStopWord);
    }
  }

  /** A ranking of the single token ("very", RB) under a test that counts
      it is the one entry `very` counted once. */
  lemma VeryCountedOnce(ranked: seq<CountSorted>, stop: string -> bool)
    requires Ranking(ranked, [Token("very", "RB")], stop)
    requires Occurrences([Token("very", "RB")], "very", stop) == 1
    ensures ranked == [CountSorted("very", 1)]
    ensures Report(ranked) == "Word: very, Count: 1\n"
  {
    forall i | 0 <= i < |ranked|
      ensures ranked[i] == CountSorted("very", 1)
    {
      OnlyVeryCounted(ranked[i].text, stop);
    }
    var k :| 0 <= k < |ranked| && ranked[k].text == "very";
    AtMostOneEntryFor(ranked, "very");
    assert ranked == [CountSorted("very", 1)];
    ReportOfVery();
  }

  lemma ReportOfVery()
    ensures Report([CountSorted("very", 1)]) == "Word: very, Count: 1\n"
  {
    var c := [CountSorted("very", 1)];
    assert c[..0] == [];
    assert Strconv.Itoa(1) == "1" by {
      assert Strconv.NatToDecimal(1) == [Strconv.DigitChar(1)];
    }
    assert Report(c) == "" + ("Word: " + "very" + ", Count: " + "1") + "\n";
  }

  /** A list whose words are all different holds a given word at most
      once, so when every entry holds it the list has at most one entry. */
  lemma AtMostOneEntryFor(s: seq<CountSorted>, w: string)
    requires forall i, j :: 0 <= i < j < |s| ==> s[i].text != s[j].text
    requires forall i :: 0 <= i < |s| ==> s[i].text == w
    ensures |s| <= 1
  {
    if |s| > 1 {
      FirstTwoDiffer(s);
    }
  }

  lemma FirstTwoDiffer(s: seq<CountSorted>)
    requires |s| > 1
    requires forall i, j :: 0 <= i < j < |s| ==> s[i].text != s[j].text
    ensures s[0].text != s[1].text
  {
  }

  /** With the single token ("very", RB) only the word "very" can have a
      positive count. */
  lemma OnlyVeryCounted(w: string, stop: string -> bool)
    ensures Occurrences([Token("very", "RB")], w, stop) > 0 ==> w == "very"
  {
    var tokens := [Token("very", "RB")];
    NormalizeVery();
    assert tokens[..|tokens| - 1] == [];
    assert Occurrences(tokens, w, stop) == if Counted(tokens[0], stop) && Normalize("very") == w then 1 else 0;
  }

  /** Non-decreasing in Go's string order. */
  predicate Sorted(s: seq<string>) {
    forall i, j :: 0 <= i < j < |s| ==> AtLeast(s[j], s[i])
  }

  /** On a sorted list the bisection finds `x` exactly when `x` is there. */
  lemma SearchSorted(a: seq<string>, x: string)
    ensures Sorted(a) ==> var n := SearchFrom(a, x, 0, |a|); (n < |a| && a[n] == x) <==> x in a
  {
    var n := SearchFrom(a, x, 0, |a|);
    if Sorted(a) && x in a {
      var k :| 0 <= k < |a| && a[k] == x;
      // everything before `n` is below `x`, so `x` sits at or after `n`,
      if n > 0 {
        BelowBoundary(a, x, n);
      }
      Strings.LessIrreflexive(x);
      assert n <= k;
      // and there `x <= a[n] <= a[k] == x`
      assert AtLeast(a[n], x) && AtLeast(a[k], a[n]);
      Strings.LessTotal(a[n], x);
    }
  }

  /** In a sorted list everything before an element below `x` is below
      `x` as well. */
  lemma BelowBoundary(a: seq<string>, x: string, n: nat)
    requires Sorted(a) && 0 < n <= |a| && Strings.Less(a[n - 1], x)
    ensures forall i :: 0 <= i < n ==> Strings.Less(a[i], x)
  {
    forall i | 0 <= i < n
      ensures Strings.Less(a[i], x)
    {
      Strings.LessTotal(a[i], a[n - 1]);
      if Strings.Less(a[i], a[n - 1]) {
        Strings.LessTransitive(a[i], a[n - 1], x);
      }
    }
  }

  /** Inserts `x` into a sorted list before the first element not below it. */
  function Insert(x: string, s: seq<string>): (r: seq<string>)
    requires Sorted(s)
    ensures Sorted(r)
    ensures multiset(r) == multiset(s) + multiset{x}
  {
    if s == [] then [x]
    else if AtLeast(s[0], x) then
      InsertFront(x, s);
      [x] + s
    else
      var rest := Insert(x, s[1..]);
      assert s == [s[0]] + s[1..];
      InsertBehind(s[0], x, s[1..], rest);
      [s[0]] + rest
  }

  lemma InsertFront(x: string, s: seq<string>)
    requires Sorted(s) && s != [] && AtLeast(s[0], x)
    ensures Sorted([x] + s)
  {
    forall j | 0 < j < |s| + 1
      ensures AtLeast(([x] + s)[j], x)
    {
      var e := s[j - 1];
      Strings.LessTotal(s[0], e);
      if Strings.Less(s[0], e) && Strings.Less(e, x) {
        Strings.LessTransitive(s[0], e, x);
      }
    }
  }

  lemma InsertBehind(y: string, x: string, s: seq<string>, rest: seq<string>)
    requires Sorted([y] + s) && Strings.Less(y, x)
    requires Sorted(rest) && multiset(rest) == multiset(s) + multiset{x}
    ensures Sorted([y] + rest)
  {
    forall j | 0 <= j < |rest|
      ensures AtLeast(rest[j], y)
    {
      var e := rest[j];
      assert e in multiset(rest);
      if e == x {
        Strings.LessIrreflexive(x);
        if Strings.Less(x, y) {
          Strings.LessTransitive(x, y, x);
        }
      } else {
        assert e in multiset(s);
        var k :| 0 <= k < |s| && s[k] == e;
        assert ([y] + s)[0] == y && ([y] + s)[k + 1] == e;
      }
    }
  }

  /** The list in Go's string order, by insertion. */
  function SortStrings(s: seq<string>): (r: seq<string>)
    ensures Sorted(r)
    ensures multiset(r) == multiset(s)
  {
    if s == [] then []
    else
      assert s == [s[0]] + s[1..];
      Insert(s[0], SortStrings(s[1..]))
  }

  /** Sorting keeps exactly the same words. */
  lemma SortKeepsWords(s: seq<string>, tar: string)
    ensures tar in SortStrings(s) <==> tar in s
  {
    assert tar in SortStrings(s) <==> tar in multiset(SortStrings(s));
    assert tar in s <==> tar in multiset(s);
  }

  /** `sort.Strings(words)`, the start-up step of the corrected program
      (applied to `StopWords`): the same words, now in order. */
  method SortWords(words: seq<string>) returns (sorted: seq<string>)
    ensures Sorted(sorted)
    ensures forall w :: w in sorted <==> w in words
  {
    sorted := SortStrings(words);
    forall w | true
      ensures w in sorted <==> w in words
    {
      SortKeepsWords(words, w);
    }
  }

  /** The corrected start-up: `sort.Strings(stopWords)`, after which the
      lookup finds exactly the listed words. */
  method SortedStopWords() returns (stop: string -> bool)
    ensures forall w :: stop(w) == ListedStopWord(w)
  {
    var sorted := SortWords(StopWords);
    stop := w => IsStopWord(sorted, w);
  }

  /** The part-of-speech tags whose words are counted: adjectives,
      adverbs, particles, the verb forms other than VBP, and wh-adverbs. */
  const CountedTags: set<string> :=
    {"JJ", "JJR", "JJS", "RB", "RBR", "RBS", "RP", "VB", "VBD", "VBG", "VBN", "VBZ", "WRB"}

  /** `validTags`: the `switch` over the tags. */
  function ValidTag(tag: string): (ok: bool)
    ensures ok <==> tag in CountedTags
  {
    match tag
    case "JJ" => true
    case "JJR" => true
    case "JJS" => true
    case "RB" => true
    case "RBR" => true
    case "RBS" => true
    case "RP" => true
    case "VB" => true
    case "VBD" => true
    case "VBG" => true
    case "VBN" => true
    case "VBZ" => true
    case "WRB" => true
    case _ => false
  }

  /** A token of the tokenized review text: its text and its Penn Treebank
      tag. */
  datatype Token = Token(text: string, tag: string)

  /** The form in which a token is counted: lower-cased, then trimmed. */
  function Normalize(text: string): string {
    Strings.TrimSpace(Strings.ToLower(text))
  }

  /** A token is counted when the stop-word test `stop` does not flag its
      normalized text and its tag is a counted one. */
  predicate Counted(t: Token, stop: string -> bool) {
    var w := Normalize(t.text);
    !stop(w) && ValidTag(t.tag)
  }

  /** How often `w` is counted among `tokens`: the reference the map of
      counts is checked against. */
  function Occurrences(tokens: seq<Token>, w: string, stop: string -> bool): nat {
    if tokens == [] then 0
    else
      var t := tokens[|tokens| - 1];
      Occurrences(tokens[..|tokens| - 1], w, stop) + (if Counted(t, stop) && Normalize(t.text) == w then 1 else 0)
  }

  /** Two stop-word tests that agree on every word count the same. */
  lemma {:induction false} OccurrencesAgree(tokens: seq<Token>, w: string, f: string -> bool, g: string -> bool)
    requires forall x :: f(x) == g(x)
    ensures Occurrences(tokens, w, f) == Occurrences(tokens, w, g)
  {
    if tokens != [] {
      OccurrencesAgree(tokens[..|tokens| - 1], w, f, g);
    }
  }

  /** One pass of the counting loop: `count[text]++` when the token is
      counted, where a missing key counts as zero. */
  method CountToken(stop: string -> bool, count: map<string, int>, t: Token)
    returns (next: map<string, int>)
    ensures Counted(t, stop) ==>
      next == count[Normalize(t.text) := (if Normalize(t.text) in count then count[Normalize(t.text)] else 0) + 1]
    ensures !Counted(t, stop) ==> next == count
  {
    next := count;
    var text := Strings.TrimSpace(Strings.ToLower(t.text));
    if !stop(text) && ValidTag(t.tag) {
      var n := if text in count then count[text] else 0;
      next := count[text := n + 1];
    }
  }

  /** The counting loop of `main`. A word is a key exactly when it is
      counted at least once, and its value is how often it is counted. */
  method CountWords(stop: string -> bool, tokens: seq<Token>) returns (count: map<string, int>)
    ensures forall w :: w in count <==> Occurrences(tokens, w, stop) > 0
    ensures forall w :: w in count ==> count[w] == Occurrences(tokens, w, stop)
  {
    count := map[];
    for k := 0 to |tokens|
      invariant forall w :: w in count <==> Occurrences(tokens[..k], w, stop) > 0
      invariant forall w :: w in count ==> count[w] == Occurrences(tokens[..k], w, stop)
    {
      assert tokens[..k + 1][..k] == tokens[..k];
      count := CountToken(stop, count, tokens[k]);
    }
    assert tokens[..|tokens|] == tokens;
  }

  /** A normalized text is lower case and has no surrounding white space. */
  lemma NormalizedShape(text: string)
    ensures var w := Normalize(text);
      && (forall i :: 0 <= i < |w| ==> !('A' <= w[i] <= 'Z'))
      && (w != [] ==> !Strings.IsSpace(w[0]) && !Strings.IsSpace(w[|w| - 1]))
  {
    var lower := Strings.ToLower(text);
    var w := Strings.TrimSpace(lower);
    Strings.TrimSpaceIsSlice(lower);
    var start := |lower| - |Strings.TrimLeft(lower)|;
    forall i | 0 <= i < |w|
      ensures !('A' <= w[i] <= 'Z')
    {
      assert w[i] == lower[start + i];
    }
  }

  /** Every counted word is lower case, has no surrounding white space and
      is rejected by the stop-word test. With `isStopWord` as written that
      rules out an apostrophe; with the corrected lookup it also rules out
      every word of `StopWords`. */
  lemma {:induction false} CountedWordShape(tokens: seq<Token>, w: string, stop: string -> bool)
    requires Occurrences(tokens, w, stop) > 0
    ensures !stop(w)
    ensures forall i :: 0 <= i < |w| ==> !('A' <= w[i] <= 'Z')
    ensures w != [] ==> !Strings.IsSpace(w[0]) && !Strings.IsSpace(w[|w| - 1])
  {
    var t := tokens[|tokens| - 1];
    if Counted(t, stop) && Normalize(t.text) == w {
      NormalizedShape(t.text);
    } else {
      CountedWordShape(tokens[..|tokens| - 1], w, stop);
    }
  }

  /** One entry of `countsSorted`: a word and how often it was counted. */
  datatype CountSorted = CountSorted(text: string, count: int)

  /** The loop that copies the map into a slice. Go visits the keys in no
      fixed order; here each step takes any key not yet copied. Every key
      is copied once, with its count, and nothing else is. */
  method Collect(count: map<string, int>) returns (counts: seq<CountSorted>)
    ensures |counts| == |count|
    ensures forall i :: 0 <= i < |counts| ==> counts[i].text in count && counts[i].count == count[counts[i].text]
    ensures forall w :: w in count ==> exists i :: 0 <= i < |counts| && counts[i].text == w
    ensures forall i, j :: 0 <= i < j < |counts| ==> counts[i].text != counts[j].text
  {
    counts := [];
    var rest := count.Keys;
    while rest != {}
      invariant rest <= count.Keys
      invariant |counts| + |rest| == |count|
      invariant forall i :: 0 <= i < |counts| ==>
        counts[i].text in count && counts[i].text !in rest && counts[i].count == count[counts[i].text]
      invariant forall w :: w in count && w !in rest ==> exists i :: 0 <= i < |counts| && counts[i].text == w
      invariant forall i, j :: 0 <= i < j < |counts| ==> counts[i].text != counts[j].text
      decreases |rest|
    {
      var k :| k in rest;
      ghost var before := counts;
      counts := counts + [CountSorted(k, count[k])];
      forall w | w in count && w !in rest - {k}
        ensures exists i :: 0 <= i < |counts| && counts[i].text == w
      {
        if w == k {
          assert counts[|before|].text == w;
        } else {
          var i :| 0 <= i < |before| && before[i].text == w;
          assert counts[i].text == w;
        }
      }
      rest := rest - {k};
    }
  }

  /** `countsSorted.Less`: entry `i` goes before entry `j` when it was
      counted more often. When it holds, only the order `i, j` is
      non-increasing; when it does not, the order `j, i` is. */
  function Less(c: array<CountSorted>, i: int, j: int): (r: bool)
    requires 0 <= i < c.Length && 0 <= j < c.Length
    reads c
    ensures r ==> NonIncreasing([c[i], c[j]]) && !NonIncreasing([c[j], c[i]])
    ensures !r ==> NonIncreasing([c[j], c[i]])
  {
    var swapped := [c[j], c[i]];
    assert swapped[0].count == c[j].count && swapped[1].count == c[i].count;
    c[i].count > c[j].count
  }

  /** `countsSorted.Swap`: exchanges two entries in place. */
  method Swap(c: array<CountSorted>, i: int, j: int)
    requires 0 <= i < c.Length && 0 <= j < c.Length
    modifies c
    ensures c[..] == old(c[..])[i := old(c[j])][j := old(c[i])]
    ensures multiset(c[..]) == multiset(old(c[..]))
  {
    c[i], c[j] := c[j], c[i];
  }

  /** Most frequent first. */
  predicate NonIncreasing(s: seq<CountSorted>) {
    forall i, j :: 0 <= i < j < |s| ==> s[i].count >= s[j].count
  }

  /** `sort.Sort(counts)` with the `Less` and `Swap` above, done here by
      insertion: afterwards the entries are a permutation of what they were
      and run from the most to the least frequent. */
  method Sort(c: array<CountSorted>)
    modifies c
    ensures NonIncreasing(c[..])
    ensures multiset(c[..]) == multiset(old(c[..]))
  {
    var i := 0;
    while i < c.Length
      invariant 0 <= i <= c.Length
      invariant NonIncreasing(c[..i])
      invariant multiset(c[..]) == multiset(old(c[..]))
    {
      var j := i;
      while j > 0 && Less(c, j, j - 1)
        invariant 0 <= j <= i
        invariant forall a, b :: 0 <= a < b <= i && b != j ==> c[a].count >= c[b].count
        invariant multiset(c[..]) == multiset(old(c[..]))
      {
        Swap(c, j, j - 1);
        j := j - 1;
      }
      i := i + 1;
    }
  }

  /** The text of one report line, without its line break. */
  function Line(e: CountSorted): (line: string)
    ensures '\n' !in e.text ==> '\n' !in line
  {
    "Word: " + e.text + ", Count: " + Itoa(e.count)
  }

  /** What `countsSorted.String` builds: one line per entry, in order,
      each ended by a line break. */
  function Report(c: seq<CountSorted>): string {
    if c == [] then "" else Report(c[..|c| - 1]) + Line(c[|c| - 1]) + "\n"
  }

  /** `countsSorted.String`: the loop that writes the report into a
      builder. */
  method String(c: array<CountSorted>) returns (s: string)
    ensures s == Report(c[..])
  {
    s := "";
    for i := 0 to c.Length
      invariant s == Report(c[..i])
    {
      assert c[..i + 1][..i] == c[..i];
      var e := c[i];
      s := s + "Word: " + e.text + ", Count: " + Itoa(e.count) + "\n";
    }
    assert c[..c.Length] == c[..];
  }

  /** The lines of the report, without their line breaks. */
  function Lines(c: seq<CountSorted>): (lines: seq<string>)
    ensures |lines| == |c|
    ensures forall i :: 0 <= i < |c| ==> lines[i] == Line(c[i])
  {
    if c == [] then [] else Lines(c[..|c| - 1]) + [Line(c[|c| - 1])]
  }

  /** The report is the lines joined by line breaks, plus a final one. */
  lemma {:induction false} ReportIsJoin(c: seq<CountSorted>)
    requires c != []
    ensures Report(c) == Strings.Join(Lines(c), "\n") + "\n"
  {
    var init, last := c[..|c| - 1], Line(c[|c| - 1]);
    assert Lines(c) == Lines(init) + [last];
    assert Report(c) == Report(init) + last + "\n";
    if init == [] {
      assert Lines(c) == [last];
    } else {
      ReportIsJoin(init);
      var joined := Strings.Join(Lines(init), "\n");
      Strings.JoinSnoc(Lines(init), last, "\n");
      assert Report(c) == (joined + "\n") + last + "\n";
    }
  }

  /** When no counted word holds a line break, the report splits back at
      its line breaks into exactly one line per entry, in rank order, and
      the empty text after the last line break. */
  lemma ReportSplitsIntoLines(c: seq<CountSorted>)
    requires forall i :: 0 <= i < |c| ==> '\n' !in c[i].text
    ensures Strings.Split(Report(c), '\n') == Lines(c) + [""]
  {
    if c == [] {
      assert Lines(c) + [""] == [""];
    } else {
      var lines := Lines(c);
      LinesHaveNoBreak(c);
      Strings.SplitJoin(lines + [""], '\n');
      ReportIsJoin(c);
      Strings.JoinSnoc(lines, "", "\n");
      assert Strings.Join(lines + [""], "\n") == Report(c);
    }
  }

  /** The lines of a report, and the empty text after them, hold no line
      break when no counted word does. */
  lemma LinesHaveNoBreak(c: seq<CountSorted>)
    requires forall i :: 0 <= i < |c| ==> '\n' !in c[i].text
    ensures forall k :: 0 <= k < |c| + 1 ==> '\n' !in (Lines(c) + [""])[k]
  {
    var parts := Lines(c) + [""];
    forall k | 0 <= k < |parts|
      ensures '\n' !in parts[k]
    {
      if k < |c| {
        assert parts[k] == Line(c[k]);
      }
    }
  }

  /** The line `main` buffers for one entry before tokenizing: the row's
      fields joined by spaces and a line break; nothing when the entry has
      no row, that is, when its review text is blank. */
  function ProseLine(e: Entry): (line: string)
    ensures line == "" <==> e.TrimmedContent() == []
    ensures line != "" ==> line[|line| - 1] == '\n'
    ensures line != "" ==> |line| == Strings.TotalLength(e.QuickRow()) + 8
    ensures line != "" ==> line[..|e.QuickRow()[0]|] == e.QuickRow()[0]
    ensures line != "" ==> var r := e.QuickRow();
      line == r[0] + " " + r[1] + " " + r[2] + " " + r[3] + " " + r[4] + " " + r[5] + " " + r[6] + " " + r[7] + "\n"
  {
    var row := e.QuickRow();
    if |row| > 0 then SpacedLine(row); Strings.Join(row, " ") + "\n" else ""
  }

  /** An eight-field row joined by spaces and ended by a line break. */
  lemma SpacedLine(r: seq<string>)
    requires |r| == 8
    ensures var line := Strings.Join(r, " ") + "\n";
      && line[|line| - 1] == '\n'
      && |line| == Strings.TotalLength(r) + 8
      && line[..|r[0]|] == r[0]
      && line == r[0] + " " + r[1] + " " + r[2] + " " + r[3] + " " + r[4] + " " + r[5] + " " + r[6] + " " + r[7] + "\n"
  {
    Strings.JoinEight(r, " ");
  }

  /** The whole buffered text: the lines of the entries in order. */
  function ProseText(entries: seq<Entry>): string {
    if entries == [] then "" else ProseText(entries[..|entries| - 1]) + ProseLine(entries[|entries| - 1])
  }

  lemma ProseTextSnoc(entries: seq<Entry>, e: Entry)
    ensures ProseText(entries + [e]) == ProseText(entries) + ProseLine(e)
  {
    assert (entries + [e])[..|entries|] == entries;
  }

  /** The body of the buffering loop: append the entry's line, if any. */
  method WriteProseLine(buf: string, entry: Entry) returns (out: string)
    ensures out == buf + ProseLine(entry)
  {
    out := buf;
    if |entry.QuickRow()| > 0 {
      out := out + Strings.Join(entry.QuickRow(), " ") + "\n";
    }
  }

  /** The inner buffering loop over the entries of one page; `seen` are
      the entries of the earlier pages. */
  method WriteProsePage(text: string, entries: seq<Entry>, ghost seen: seq<Entry>) returns (text': string)
    requires text == ProseText(seen)
    ensures text' == ProseText(seen + entries)
  {
    text' := text;
    assert seen + entries[..0] == seen;
    for k := 0 to |entries|
      invariant text' == ProseText(seen + entries[..k])
    {
      AppendNext(seen, entries, k);
      ProseTextSnoc(seen + entries[..k], entries[k]);
      text' := WriteProseLine(text', entries[k]);
    }
    assert entries[..|entries|] == entries;
  }

  /** The buffering loop of `main`: every entry of every page, in order. */
  method ProseInput(pages: seq<IOSReviews>) returns (text: string)
    ensures text == ProseText(Entries(pages))
  {
    text := "";
    for p := 0 to |pages|
      invariant text == ProseText(Entries(pages[..p]))
    {
      assert pages[..p + 1][..p] == pages[..p];
      text := WriteProsePage(text, pages[p].feed.entry, Entries(pages[..p]));
    }
    assert pages[..|pages|] == pages;
  }

  /** What the printed ranking promises about `tokens`, for the stop-word
      test `stop`: most frequent first, every word once, each with the
      number of times it is counted, and every counted word present. */
  ghost predicate Ranking(ranked: seq<CountSorted>, tokens: seq<Token>, stop: string -> bool) {
    && NonIncreasing(ranked)
    && (forall i, j :: 0 <= i < j < |ranked| ==> ranked[i].text != ranked[j].text)
    && (forall i :: 0 <= i < |ranked| ==> ranked[i].count == Occurrences(tokens, ranked[i].text, stop) > 0)
    && (forall w :: Occurrences(tokens, w, stop) > 0 ==> exists i :: 0 <= i < |ranked| && ranked[i].text == w)
  }

  /** A ranking for one stop-word test is one for any test that agrees
      with it on every word. */
  lemma RankingAgree(ranked: seq<CountSorted>, tokens: seq<Token>, f: string -> bool, g: string -> bool)
    requires forall x :: f(x) == g(x)
    requires Ranking(ranked, tokens, f)
    ensures Ranking(ranked, tokens, g)
  {
    forall w | true
      ensures Occurrences(tokens, w, f) == Occurrences(tokens, w, g)
    {
      OccurrencesAgree(tokens, w, f, g);
    }
  }

  /** An entry found at two places of a list occurs in it at least twice. */
  lemma OccursTwice(t: seq<CountSorted>, i: nat, j: nat)
    requires i < j < |t| && t[i] == t[j]
    ensures multiset(t)[t[i]] >= 2
  {
    assert t == t[..j] + t[j..];
    assert t[..j][i] == t[i] && t[j..][0] == t[i];
  }

  /** In a list whose words are all different each entry occurs once. */
  lemma OccursOnce(s: seq<CountSorted>, a: nat)
    requires a < |s|
    requires forall i, j :: 0 <= i < j < |s| ==> s[i].text != s[j].text
    ensures multiset(s)[s[a]] == 1
  {
    assert s == s[..a] + [s[a]] + s[a + 1..];
    assert s[a] !in s[..a] && s[a] !in s[a + 1..];
  }

  /** A permutation of a list whose words are all different has all
      different words too. */
  lemma DistinctTexts(s: seq<CountSorted>, t: seq<CountSorted>)
    requires multiset(s) == multiset(t)
    requires forall i, j :: 0 <= i < j < |s| ==> s[i].text != s[j].text
    ensures forall i, j :: 0 <= i < j < |t| ==> t[i].text != t[j].text
  {
    forall i, j | 0 <= i < j < |t|
      ensures t[i].text != t[j].text
    {
      assert t[i] in multiset(s) && t[j] in multiset(s);
      var a :| 0 <= a < |s| && s[a] == t[i];
      var b :| 0 <= b < |s| && s[b] == t[j];
      OccursOnce(s, a);
      if t[i] == t[j] {
        OccursTwice(t, i, j);
      }
      assert a != b;
      assert s[a].text != s[b].text by {
        if a < b {
          assert s[a].text != s[b].text;
        } else {
          assert s[b].text != s[a].text;
        }
      }
    }
  }

  /** Sorting the collected counts yields a ranking. */
  lemma RankingOfPermutation(counts: seq<CountSorted>, ranked: seq<CountSorted>, tokens: seq<Token>, stop: string -> bool)
    requires multiset(ranked) == multiset(counts)
    requires NonIncreasing(ranked)
    requires forall i :: 0 <= i < |counts| ==> counts[i].count == Occurrences(tokens, counts[i].text, stop) > 0
    requires forall w :: Occurrences(tokens, w, stop) > 0 ==> exists i :: 0 <= i < |counts| && counts[i].text == w
    requires forall i, j :: 0 <= i < j < |counts| ==> counts[i].text != counts[j].text
    ensures Ranking(ranked, tokens, stop)
  {
    DistinctTexts(counts, ranked);
    forall i | 0 <= i < |ranked|
      ensures ranked[i].count == Occurrences(tokens, ranked[i].text, stop) > 0
    {
      assert ranked[i] in multiset(counts);
    }
    forall w | Occurrences(tokens, w, stop) > 0
      ensures exists i :: 0 <= i < |ranked| && ranked[i].text == w
    {
      var k :| 0 <= k < |counts| && counts[k].text == w;
      assert counts[k] in multiset(ranked);
    }
  }

  /** `main` after flag parsing, for the stop-word test `stop`: buffer the
      review rows, tokenize them (`tokenize` stands for the part-of-speech
      tagger; `None` is its error, on which the program exits without
      output), count, collect, sort, and print the report followed by
      `Println`'s line break. */
  method MostCommonWordsWith(pages: seq<IOSReviews>, tokenize: string -> Option<seq<Token>>, stop: string -> bool)
    returns (ranked: seq<CountSorted>, stdout: Option<string>)
    ensures tokenize(ProseText(Entries(pages))).None? ==> stdout == None
    ensures tokenize(ProseText(Entries(pages))).Some? ==>
      && Ranking(ranked, tokenize(ProseText(Entries(pages))).value, stop)
      && stdout == Some(Report(ranked) + "\n")
  {
    var text := ProseInput(pages);
    var doc := tokenize(text);
    if doc.None? {
      ranked, stdout := [], None;
      return;
    }
    var count := CountWords(stop, doc.value);
    var report;
    ranked, report := RankCounts(count, doc.value, stop);
    stdout := Some(report + "\n");
  }

  /** `main` as written: words are looked up in the unsorted `StopWords`. */
  method MostCommonWords(pages: seq<IOSReviews>, tokenize: string -> Option<seq<Token>>)
    returns (ranked: seq<CountSorted>, stdout: Option<string>)
    ensures tokenize(ProseText(Entries(pages))).None? ==> stdout == None
    ensures tokenize(ProseText(Entries(pages))).Some? ==>
      && Ranking(ranked, tokenize(ProseText(Entries(pages))).value, IsStopWordAsWritten)
      && stdout == Some(Report(ranked) + "\n")
  {
    ranked, stdout := MostCommonWordsWith(pages, tokenize, IsStopWordAsWritten);
  }

  /** `main` with the stop words sorted once at start-up: no word of
      `StopWords` and no word with an apostrophe is ever counted. */
  method MostCommonWordsSorted(pages: seq<IOSReviews>, tokenize: string -> Option<seq<Token>>)
    returns (ranked: seq<CountSorted>, stdout: Option<string>)
    ensures tokenize(ProseText(Entries(pages))).None? ==> stdout == None
    ensures tokenize(ProseText(Entries(pages))).Some? ==>
      && Ranking(ranked, tokenize(ProseText(Entries(pages))).value, ListedStopWord)
      && stdout == Some(Report(ranked) + "\n")
  {
    var stop := SortedStopWords();
    ranked, stdout := MostCommonWordsWith(pages, tokenize, stop);
    if tokenize(ProseText(Entries(pages))).Some? {
      RankingAgree(ranked, tokenize(ProseText(Entries(pages))).value, stop, ListedStopWord);
    }
  }

  /** The steps of `main` after counting: collect the counts, sort them and
      render the report. */
  method RankCounts(count: map<string, int>, ghost tokens: seq<Token>, ghost stop: string -> bool)
    returns (ranked: seq<CountSorted>, report: string)
    requires forall w :: w in count <==> Occurrences(tokens, w, stop) > 0
    requires forall w :: w in count ==> count[w] == Occurrences(tokens, w, stop)
    ensures Ranking(ranked, tokens, stop)
    ensures report == Report(ranked)
  {
    var counts := Collect(count);
    var c := new CountSorted[|counts|](i requires 0 <= i < |counts| => counts[i]);
    assert c[..] == counts;
    Sort(c);
    report := String(c);
    ranked := c[..];
    RankingOfPermutation(counts, ranked, tokens, stop);
  }
}
