/** Two concrete queries against a two-entry index: with the solver as the
    controller runs it, asking the same question twice gives two different
    answers because the first answer's bucket is an index entry's own list;
    with the copying solver it does not. */
module QueryExamples {
  import opened Wrappers
  import opened LetterCounts
  import opened Dictionary
  import opened Anagram

  /** The index file of the examples: `aet` (ate, eat, tea) and `amt`
      (mat, tam), both of length 3. */
  function ExampleSource(): seq<ImportEntry>
  {
    [ImportEntry("aet", Some(ImportItem(map['a' := 1, 'e' := 1, 't' := 1], ["ate", "eat", "tea"]))),
     ImportEntry("amt", Some(ImportItem(map['a' := 1, 'm' := 1, 't' := 1], ["mat", "tam"])))]
  }

  lemma ExampleLoadable()
    ensures Loadable(Some(ExampleSource())) == ExampleSource()
    ensures RunningMax(0, ExampleSource()) == 3
  {
    var src := ExampleSource();
    assert FirstNull(src, 2) == 2;
    assert src[..2] == src;
    assert src[..1][..0] == [];
  }

  lemma TameKey()
    ensures ValidKey(AsciiRules(), "tame")
    ensures Lower(AsciiRules(), "tame") == "tame"
    ensures Counts("tame").Keys == {'t', 'a', 'm', 'e'}
  {
    TameValid();
    TameLower();
    TameLetters();
  }

  lemma TameValid()
    ensures ValidKey(AsciiRules(), "tame")
  {
    var key := "tame";
    assert key[0] == 't' && key[1] == 'a' && key[2] == 'm' && key[3] == 'e';
  }

  lemma TameLower()
    ensures Lower(AsciiRules(), "tame") == "tame"
  {
    var low := Lower(AsciiRules(), "tame");
    assert low[0] == 't' && low[1] == 'a' && low[2] == 'm' && low[3] == 'e';
  }

  lemma TameLetters()
    ensures Counts("tame").Keys == {'t', 'a', 'm', 'e'}
  {
    var key := "tame";
    assert key == ['t', 'a', 'm', 'e'];
  }

  /** An entry made of three letters of `tame`, once each, passes the
      plain test for `tame`. */
  lemma TamePasses(x: DictionaryItem, p: char, q: char, r: char)
    requires p in "tame" && q in "tame" && r in "tame"
    requires x.letters == map[p := 1, q := 1, r := 1]
    ensures Formable(Counts("tame").Keys, Counts("tame"), x)
  {
    TameLetters();
  }

  /** Two passing candidates of the same key length `n` share one bucket,
      the first one's list, holding both word lists in order. */
  lemma TwoPassing(x0: DictionaryItem, x1: DictionaryItem, s0: seq<string>, s1: seq<string>,
                   keyLetters: set<char>, keyCounts: map<char, int>, n: int)
    requires keyLetters <= keyCounts.Keys
    requires Formable(keyLetters, keyCounts, x0) && Formable(keyLetters, keyCounts, x1)
    requires |x0.key| == n && |x1.key| == n
    ensures MatchedPairs([x0, x1], [s0, s1], keyLetters, keyCounts) == [(n, s0), (n, s1)]
    ensures Matched([x0, x1], keyLetters, keyCounts) == [x0, x1]
  {
    assert [x0, x1][..1] == [x0] && [s0, s1][..1] == [s0];
    assert [x0][..0] == [] && [s0][..0] == [];
    assert MatchedPairs([x0], [s0], keyLetters, keyCounts) == [] + [(n, s0)];
    assert Matched([x0], keyLetters, keyCounts) == [] + [x0];
  }

  lemma AccumulateTwo(n: int, s0: seq<string>, s1: seq<string>)
    ensures Accumulate([(n, s0), (n, s1)]) == map[n := s0 + s1]
  {
    var ps := [(n, s0), (n, s1)];
    assert ps[..1] == [(n, s0)] && ps[..1][..0] == [];
    assert Accumulate([(n, s0)]) == map[n := s0];
  }

  lemma FirstListsTwo(x0: DictionaryItem, x1: DictionaryItem, n: int)
    requires |x0.key| == n && |x1.key| == n
    ensures FirstLists([x0, x1]) == map[n := x0.words]
  {
    var sel := [x0, x1];
    var lens := set j | 0 <= j < |sel| :: |sel[j].key|;
    assert n in lens by {
      assert |sel[0].key| == n;
    }
    assert lens == {n};
    assert FirstWith(sel, n) == 0;
  }

  /** What a `GET /anagram?key=tame` expects of the example index, whatever
      its two lists hold at the time. */
  lemma ExampleExpected(c: AnagramController, x0: DictionaryItem, x1: DictionaryItem)
    requires c.dictionary.Valid() && c.rules == AsciiRules()
    requires c.dictionary.items == [x0, x1] && c.dictionary.maxKeyLength == 3
    requires x0.key == "aet" && x0.letters == map['a' := 1, 'e' := 1, 't' := 1]
    requires x1.key == "amt" && x1.letters == map['a' := 1, 'm' := 1, 't' := 1]
    ensures c.Expected("tame", false) == map[3 := x0.words.words + x1.words.words]
    ensures c.Owners("tame", false) == map[3 := x0.words]
  {
    TameKey();
    TamePasses(x0, 'a', 'e', 't');
    TamePasses(x1, 'a', 'm', 't');
    assert c.Candidates(4, false) == [x0, x1];
    var snap := Snapshot([x0, x1]);
    assert snap == [x0.words.words, x1.words.words];
    var keyCounts := Counts("tame");
    TwoPassing(x0, x1, x0.words.words, x1.words.words, keyCounts.Keys, keyCounts, 3);
    AccumulateTwo(3, x0.words.words, x1.words.words);
    FirstListsTwo(x0, x1, 3);
  }

  /** Loads the example index and builds a controller over it. */
  method ExampleController() returns (c: AnagramController, ghost x0: DictionaryItem, ghost x1: DictionaryItem)
    ensures fresh(c) && fresh(c.dictionary) && ExampleState(c, x0, x1)
    ensures x0.words.words == ["ate", "eat", "tea"] && x1.words.words == ["mat", "tam"]
    ensures fresh(x0.words) && fresh(x1.words)
  {
    var service := new DictionaryService();
    service.LoadDictionary(Some(ExampleSource()));
    ExampleLoadable();
    assert service.items[0..] == service.items;
    x0, x1 := service.items[0], service.items[1];
    assert service.items == [x0, x1];
    c := new AnagramController(service, AsciiRules());
  }

  /** The example index as `ExampleController` leaves it, whatever its
      two lists hold. */
  ghost predicate ExampleState(c: AnagramController, x0: DictionaryItem, x1: DictionaryItem)
    reads c, c.dictionary
  {
    ExampleIndex(c.dictionary, x0, x1) && c.rules == AsciiRules()
  }

  ghost predicate ExampleIndex(d: DictionaryService, x0: DictionaryItem, x1: DictionaryItem)
    reads d
  {
    && d.Valid() && d.loaded && d.items == [x0, x1] && d.maxKeyLength == 3
    && x0.key == "aet" && x0.letters == map['a' := 1, 'e' := 1, 't' := 1]
    && x1.key == "amt" && x1.letters == map['a' := 1, 'm' := 1, 't' := 1]
    && x0.words != x1.words
  }

  /** A response of one bucket, read from one list, is that list's words. */
  lemma OnlyBucket(b: map<int, seq<string>>, found: map<int, WordList>, w: WordList, s: seq<string>)
    requires found == map[3 := w] && b == Contents(found) && b == map[3 := s]
    ensures w.words == s
  {
    assert b[3] == found[3].words;
  }

  /** One `GET /anagram?key=tame`: the answer is both lists' words, and
      they are now the `aet` entry's words too. */
  method QueryTame(c: AnagramController, ghost x0: DictionaryItem, ghost x1: DictionaryItem) returns (resp: Response)
    requires ExampleState(c, x0, x1)
    modifies c.dictionary.Lists()
    ensures resp == Found(map[3 := old(x0.words.words) + old(x1.words.words)])
    ensures x0.words.words == old(x0.words.words) + old(x1.words.words)
    ensures x1.words.words == old(x1.words.words)
  {
    BeforeQuery(c, x0, x1);
    ghost var owners, w0, w1 := c.Owners("tame", false), x0.words.words, x1.words.words;
    resp := c.Get("tame");
    assert c.Owners("tame", false) == owners;
    OnlyBucket(resp.buckets, owners, x0.words, w0 + w1);
  }

  /** The example index before the query: the key is valid, the expected
      bucket holds both lists' words and the bucket's list is the `aet`
      entry's. */
  lemma BeforeQuery(c: AnagramController, x0: DictionaryItem, x1: DictionaryItem)
    requires ExampleState(c, x0, x1)
    ensures ValidKey(c.rules, "tame")
    ensures c.Expected("tame", false) == map[3 := x0.words.words + x1.words.words]
    ensures c.Owners("tame", false) == map[3 := x0.words]
    ensures x1.words in c.dictionary.Lists() && x1.words != x0.words
  {
    TameKey();
    ExampleExpected(c, x0, x1);
    assert c.dictionary.items[1] == x1;
  }

  /** The same query twice through the endpoint: the first answer's bucket
      is the `aet` entry's own list, so the second answer holds `mat` and
      `tam` twice. */
  method AliasingWitness() returns (first: Response, second: Response)
    ensures first == Found(map[3 := ["ate", "eat", "tea", "mat", "tam"]])
    ensures second == Found(map[3 := ["ate", "eat", "tea", "mat", "tam", "mat", "tam"]])
  {
    var c, x0, x1 := ExampleController();
    first := QueryTame(c, x0, x1);
    assert ["ate", "eat", "tea"] + ["mat", "tam"] == ["ate", "eat", "tea", "mat", "tam"];
    second := QueryTame(c, x0, x1);
    assert ["ate", "eat", "tea", "mat", "tam"] + ["mat", "tam"] == ["ate", "eat", "tea", "mat", "tam", "mat", "tam"];
  }

  /** The corrected endpoint on the example index: both lists' words. */
  method CopyTame(c: AnagramController, ghost x0: DictionaryItem, ghost x1: DictionaryItem) returns (resp: Response)
    requires ExampleState(c, x0, x1)
    ensures resp == Found(map[3 := x0.words.words + x1.words.words])
  {
    BeforeQuery(c, x0, x1);
    resp := c.GetWithCopies("tame", false);
  }

  /** The same query twice through the corrected endpoint: the same
      answer, and the index as it was loaded. */
  method CopyingWitness() returns (first: Response, second: Response)
    ensures first == second == Found(map[3 := ["ate", "eat", "tea", "mat", "tam"]])
  {
    var c, x0, x1 := ExampleController();
    first := CopyTame(c, x0, x1);
    second := CopyTame(c, x0, x1);
    assert ["ate", "eat", "tea"] + ["mat", "tam"] == ["ate", "eat", "tea", "mat", "tam"];
  }
}
