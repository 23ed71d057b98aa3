/** The offline index builder: groups a word list by each word's letters in
    sorted order, recording the letter counts of that key and the words in
    input order; keys keep the order in which they first occur, which is the
    order the index file lists them in. */
module IndexBuilder {
  import opened Wrappers
  import opened LetterCounts
  import opened Dictionary

  predicate Sorted(s: string)
  {
    forall i, j :: 0 <= i < j < |s| ==> s[i] <= s[j]
  }

  /** Putting a character in front of a sorted string that holds nothing
      smaller keeps it sorted. */
  lemma SortedCons(c: char, t: string)
    requires Sorted(t) && forall x :: x in t ==> c <= x
    ensures Sorted([c] + t)
  {
    var r := [c] + t;
    forall i, j | 0 <= i < j < |r| ensures r[i] <= r[j] {
      if i == 0 {
        assert r[j] == t[j - 1] && r[j] in t;
      } else {
        assert r[i] == t[i - 1] && r[j] == t[j - 1];
      }
    }
  }

  lemma SortedTail(s: string)
    requires Sorted(s) && s != []
    ensures Sorted(s[1..]) && forall x :: x in s[1..] ==> s[0] <= x
  {
    forall x | x in s[1..] ensures s[0] <= x {
      var i :| 0 <= i < |s[1..]| && s[1..][i] == x;
      assert s[i + 1] == x;
    }
  }

  /** Inserts `c` into a sorted string before the first character not
      smaller than it. */
  function Insert(c: char, s: string): (r: string)
    requires Sorted(s)
    ensures multiset(r) == multiset(s) + multiset{c}
    ensures Sorted(r)
  {
    if s == [] || c <= s[0] then
      InsertFront(c, s);
      [c] + s
    else
      SortedTail(s);
      var t := Insert(c, s[1..]);
      InsertBehind(c, s, t);
      [s[0]] + t
  }

  lemma InsertFront(c: char, s: string)
    requires Sorted(s) && (s == [] || c <= s[0])
    ensures multiset([c] + s) == multiset(s) + multiset{c}
    ensures Sorted([c] + s)
  {
    if s != [] {
      SortedTail(s);
    }
    SortedCons(c, s);
  }

  lemma InsertBehind(c: char, s: string, t: string)
    requires Sorted(s) && s != [] && s[0] < c
    requires Sorted(t) && multiset(t) == multiset(s[1..]) + multiset{c}
    ensures multiset([s[0]] + t) == multiset(s) + multiset{c}
    ensures Sorted([s[0]] + t)
  {
    SortedTail(s);
    assert s == [s[0]] + s[1..];
    forall x | x in t ensures s[0] <= x {
      assert x in multiset(t);
    }
    SortedCons(s[0], t);
  }

  /** The characters of `w` in ascending order (`''.join(sorted(word))`). */
  function SortChars(w: string): (r: string)
    ensures Sorted(r) && multiset(r) == multiset(w)
  {
    if w == [] then []
    else
      assert w == [w[0]] + w[1..];
      Insert(w[0], SortChars(w[1..]))
  }

  /** Two sorted strings with the same characters are the same string. */
  lemma {:induction false} SortedUnique(a: string, b: string)
    requires Sorted(a) && Sorted(b) && multiset(a) == multiset(b)
    ensures a == b
  {
    if a == [] {
      assert |b| == |multiset(b)| == 0;
    } else {
      assert |b| == |multiset(b)| == |a|;
      SameHead(a, b);
      SameTailBag(a, b);
      SortedTail(a);
      SortedTail(b);
      SortedUnique(a[1..], b[1..]);
      assert a == [a[0]] + a[1..] && b == [b[0]] + b[1..];
    }
  }

  /** Sorted strings with the same characters start with the same one,
      their least. */
  lemma SameHead(a: string, b: string)
    requires Sorted(a) && Sorted(b) && multiset(a) == multiset(b) && a != [] && b != []
    ensures a[0] == b[0]
  {
    assert a[0] in multiset(b) && b[0] in multiset(a);
    var i :| 0 <= i < |b| && b[i] == a[0];
    var j :| 0 <= j < |a| && a[j] == b[0];
  }

  lemma SameTailBag(a: string, b: string)
    requires multiset(a) == multiset(b) && a != [] && b != [] && a[0] == b[0]
    ensures multiset(a[1..]) == multiset(b[1..])
  {
    assert a == [a[0]] + a[1..] && b == [b[0]] + b[1..];
    assert multiset(a) == multiset([a[0]]) + multiset(a[1..]);
    assert multiset(b) == multiset([b[0]]) + multiset(b[1..]);
    forall x ensures multiset(a[1..])[x] == multiset(b[1..])[x] {
      assert multiset(a)[x] == multiset([a[0]])[x] + multiset(a[1..])[x];
      assert multiset(b)[x] == multiset([b[0]])[x] + multiset(b[1..])[x];
    }
  }

  /** Two words share a key exactly when they are anagrams of each other. */
  lemma SameKeyIffAnagram(v: string, w: string)
    ensures SortChars(v) == SortChars(w) <==> multiset(v) == multiset(w)
  {
    if multiset(v) == multiset(w) {
      SortedUnique(SortChars(v), SortChars(w));
    }
  }

  /** A non-empty sequence is its front followed by its last element. */
  lemma SplitLast<T>(s: seq<T>)
    requires s != []
    ensures s == s[..|s| - 1] + [s[|s| - 1]]
  {
  }

  lemma TakeOneMore<T>(s: seq<T>, i: int)
    requires 0 <= i < |s|
    ensures s[..i + 1] == s[..i] + [s[i]]
  {
  }

  lemma TakeAll<T>(s: seq<T>)
    ensures s[..|s|] == s
  {
  }

  /** One bucket of the index: the counts of its key's letters and its
      words. */
  datatype IndexEntry = IndexEntry(letters: map<char, nat>, words: seq<string>)

  /** The words of `ws` whose key is `k`, in input order. */
  function WordsWithKey(ws: seq<string>, k: string): seq<string>
  {
    if ws == [] then []
    else WordsWithKey(ws[..|ws| - 1], k) + if SortChars(ws[|ws| - 1]) == k then [ws[|ws| - 1]] else []
  }

  /** The keys of `ws`, each once, in order of first occurrence. */
  function KeyOrder(ws: seq<string>): (ks: seq<string>)
    ensures forall i, j :: 0 <= i < j < |ks| ==> ks[i] != ks[j]
  {
    if ws == [] then []
    else
      var ks := KeyOrder(ws[..|ws| - 1]);
      var k := SortChars(ws[|ws| - 1]);
      if k in ks then ks else ks + [k]
  }

  /** The keys of the words of `ws`. */
  function Keys(ws: seq<string>): set<string>
  {
    if ws == [] then {} else Keys(ws[..|ws| - 1]) + {SortChars(ws[|ws| - 1])}
  }

  /** Every key is the key of some word. */
  lemma {:induction false} KeyWitness(ws: seq<string>, k: string) returns (w: string)
    requires k in Keys(ws)
    ensures w in ws && SortChars(w) == k
  {
    if SortChars(ws[|ws| - 1]) == k {
      w := ws[|ws| - 1];
    } else {
      w := KeyWitness(ws[..|ws| - 1], k);
      assert w in ws[..|ws| - 1];
    }
  }

  /** Every word's key is a key. */
  lemma {:induction false} KeyOfWord(ws: seq<string>, w: string)
    requires w in ws
    ensures SortChars(w) in Keys(ws)
  {
    if ws[|ws| - 1] != w {
      SplitLast(ws);
      assert w in ws[..|ws| - 1];
      KeyOfWord(ws[..|ws| - 1], w);
    }
  }

  /** The ordered keys are exactly the words' keys. */
  lemma {:induction false} KeyOrderKeys(ws: seq<string>)
    ensures forall k :: k in KeyOrder(ws) <==> k in Keys(ws)
  {
    if ws != [] {
      KeyOrderKeys(ws[..|ws| - 1]);
    }
  }

  /** `m` with `w` appended to its key's bucket, the bucket being created
      first when the key is new. */
  function AddWord(m: map<string, IndexEntry>, w: string): map<string, IndexEntry>
  {
    var k := SortChars(w);
    if k in m then m[k := m[k].(words := m[k].words + [w])]
    else m[k := IndexEntry(Counts(k), [w])]
  }

  /** The index of `ws`: its words added one after another. */
  function Index(ws: seq<string>): map<string, IndexEntry>
  {
    if ws == [] then map[] else AddWord(Index(ws[..|ws| - 1]), ws[|ws| - 1])
  }

  /** What the index holds: one bucket per key of the input, with that
      key's letter counts and, in input order, exactly the words whose
      sorted letters are the key. */
  lemma {:induction false} IndexMeaning(ws: seq<string>)
    ensures forall k :: k in Index(ws) <==> k in Keys(ws)
    ensures forall k :: k in Index(ws) ==> Index(ws)[k] == IndexEntry(Counts(k), WordsWithKey(ws, k))
  {
    if ws != [] {
      var init, w := ws[..|ws| - 1], ws[|ws| - 1];
      IndexMeaning(init);
      var k := SortChars(w);
      forall k' | k' in Index(ws) ensures Index(ws)[k'] == IndexEntry(Counts(k'), WordsWithKey(ws, k')) {
        if k' != k {
          assert WordsWithKey(ws, k') == WordsWithKey(init, k') + [];
        } else if k !in Index(init) {
          WordsMissing(init, k);
          assert WordsWithKey(ws, k) == [] + [w];
        }
      }
    }
  }

  /** A key has a bucket exactly when it is listed. */
  lemma KeyListed(ws: seq<string>, k: string)
    ensures k in Index(ws) <==> k in KeyOrder(ws)
  {
    IndexMeaning(ws);
    KeyOrderKeys(ws);
  }

  lemma KeyOrderStep(ws: seq<string>, w: string)
    ensures KeyOrder(ws + [w]) == if SortChars(w) in KeyOrder(ws) then KeyOrder(ws) else KeyOrder(ws) + [SortChars(w)]
    ensures Index(ws + [w]) == AddWord(Index(ws), w)
  {
    assert (ws + [w])[..|ws|] == ws;
  }

  lemma {:induction false} WordsMissing(ws: seq<string>, k: string)
    requires k !in Keys(ws)
    ensures WordsWithKey(ws, k) == []
  {
    if ws != [] {
      WordsMissing(ws[..|ws| - 1], k);
    }
  }

  /** Creating an empty bucket for a new key and then appending to it is
      adding the word. */
  lemma AddWordInTwoSteps(m: map<string, IndexEntry>, w: string)
    ensures var k := SortChars(w);
            var m' := if k in m then m else m[k := IndexEntry(Counts(k), [])];
            m'[k := m'[k].(words := m'[k].words + [w])] == AddWord(m, w)
  {
    assert [] + [w] == [w];
  }

  /** Builds the index in one pass over the words, creating a bucket the
      first time a key is seen and appending each word to its bucket. */
  method CreateIndex(words: seq<string>) returns (index: map<string, IndexEntry>, order: seq<string>)
    ensures index == Index(words) && order == KeyOrder(words)
  {
    index, order := map[], [];
    for i := 0 to |words|
      invariant index == Index(words[..i]) && order == KeyOrder(words[..i])
    {
      var word := words[i];
      var sortedWord := SortChars(word);
      ghost var ws, before := words[..i], index;
      assert Index(ws + [word]) == AddWord(index, word)
          && KeyOrder(ws + [word]) == if sortedWord in index then order else order + [sortedWord] by {
        KeyOrderStep(ws, word);
        KeyListed(ws, sortedWord);
      }
      assert words[..i + 1] == ws + [word] by {
        TakeOneMore(words, i);
      }
      if sortedWord !in index {
        index := index[sortedWord := IndexEntry(Counts(sortedWord), [])];
        order := order + [sortedWord];
      }
      index := index[sortedWord := index[sortedWord].(words := index[sortedWord].words + [word])];
      AddWordInTwoSteps(before, word);
    }
    TakeAll(words);
  }

  /** A word's bucket holds it as often as the input does: every word is
      indexed, duplicates included. */
  lemma {:induction false} WordCountKept(ws: seq<string>, w: string)
    ensures multiset(WordsWithKey(ws, SortChars(w)))[w] == multiset(ws)[w]
  {
    if ws != [] {
      var init, last := ws[..|ws| - 1], ws[|ws| - 1];
      WordCountKept(init, w);
      SplitLast(ws);
      var tail := if SortChars(last) == SortChars(w) then [last] else [];
      assert WordsWithKey(ws, SortChars(w)) == WordsWithKey(init, SortChars(w)) + tail;
      assert multiset(ws)[w] == multiset(init)[w] + multiset([last])[w];
      assert multiset(WordsWithKey(ws, SortChars(w)))[w] == multiset(WordsWithKey(init, SortChars(w)))[w] + multiset(tail)[w];
    }
  }

  /** Every word of a bucket has the bucket's key as its sorted letters. */
  lemma {:induction false} BucketWordsHaveKey(ws: seq<string>, k: string)
    ensures forall v :: v in WordsWithKey(ws, k) ==> SortChars(v) == k && v in ws
  {
    if ws != [] {
      BucketWordsHaveKey(ws[..|ws| - 1], k);
    }
  }

  /** What the builder promises of its result. */
  lemma IndexProperties(words: seq<string>)
    ensures forall w :: w in words ==> SortChars(w) in Index(words) && w in Index(words)[SortChars(w)].words
    ensures forall k, v :: k in Index(words) && v in Index(words)[k].words ==> multiset(v) == multiset(k)
    ensures forall k :: k in Index(words) ==> Sorted(k) && Index(words)[k].words != []
    ensures forall k :: k in Index(words) ==>
              Index(words)[k].letters == Counts(k) && Sum(Index(words)[k].letters) == |k|
  {
    IndexMeaning(words);
    var index := Index(words);
    forall w | w in words
      ensures SortChars(w) in index && w in index[SortChars(w)].words
    {
      KeyOfWord(words, w);
      KeyOrderKeys(words);
      WordCountKept(words, w);
    }
    forall k, v | k in index && v in index[k].words
      ensures multiset(v) == multiset(k)
    {
      BucketWordsHaveKey(words, k);
    }
    forall k | k in index
      ensures Sorted(k) && index[k].words != []
    {
      KeyOrderKeys(words);
      var w := KeyWitness(words, k);
      WordCountKept(words, w);
    }
    forall k | k in index
      ensures Sum(index[k].letters) == |k|
    {
      CountsSum(k);
    }
  }

  /** The number of words over the buckets listed in `ks`. */
  function Total(index: map<string, IndexEntry>, ks: seq<string>): nat
  {
    if ks == [] then 0
    else (if ks[|ks| - 1] in index then |index[ks[|ks| - 1]].words| else 0) + Total(index, ks[..|ks| - 1])
  }

  /** Changing one bucket that occurs once in `ks` changes the total by
      the difference in its size. */
  lemma {:induction false} TotalUpdate(index: map<string, IndexEntry>, ks: seq<string>, k: string, e: IndexEntry)
    requires k in index
    requires forall i, j :: 0 <= i < j < |ks| ==> ks[i] != ks[j]
    ensures k in ks ==> Total(index[k := e], ks) == Total(index, ks) - |index[k].words| + |e.words|
    ensures k !in ks ==> Total(index[k := e], ks) == Total(index, ks)
  {
    if ks != [] {
      TotalUpdate(index, ks[..|ks| - 1], k, e);
    }
  }

  /** The buckets hold as many words as the input, across all keys. */
  lemma {:induction false} TotalWords(words: seq<string>)
    ensures Total(Index(words), KeyOrder(words)) == |words|
  {
    if words != [] {
      var init, w := words[..|words| - 1], words[|words| - 1];
      TotalWords(init);
      SplitLast(words);
      KeyOrderStep(init, w);
      KeyOrderKeys(init);
      IndexMeaning(init);
      var k, m := SortChars(w), Index(init);
      if k in m {
        TotalUpdate(m, KeyOrder(init), k, m[k].(words := m[k].words + [w]));
      } else {
        TotalNew(m, KeyOrder(init), k, IndexEntry(Counts(k), [w]));
      }
    }
  }

  /** A new bucket under a key not yet listed leaves the listed total
      alone, and listing it adds its size. */
  lemma TotalNew(index: map<string, IndexEntry>, ks: seq<string>, k: string, e: IndexEntry)
    requires k !in ks
    ensures Total(index[k := e], ks + [k]) == Total(index, ks) + |e.words|
  {
    assert (ks + [k])[..|ks|] == ks;
    TotalFresh(index, ks, k, e);
  }

  lemma {:induction false} TotalFresh(index: map<string, IndexEntry>, ks: seq<string>, k: string, e: IndexEntry)
    requires k !in ks
    ensures Total(index[k := e], ks) == Total(index, ks)
  {
    if ks != [] {
      TotalFresh(index, ks[..|ks| - 1], k, e);
    }
  }

  /** The index file as the service decodes it: one entry per key, in key
      order. */
  function Export(index: map<string, IndexEntry>, order: seq<string>): (es: seq<ImportEntry>)
    requires forall k :: k in order ==> k in index
    ensures |es| == |order|
    ensures forall j :: 0 <= j < |order| ==>
              es[j] == ImportEntry(order[j], Some(ImportItem(index[order[j]].letters, index[order[j]].words)))
  {
    seq(|order|, j requires 0 <= j < |order| =>
      ImportEntry(order[j], Some(ImportItem(index[order[j]].letters, index[order[j]].words))))
  }

  /** Loading a built index reads every entry, and each entry's letter
      counts add up to its key's length, so the service's stored length
      and the letters agree. */
  lemma ExportLoads(words: seq<string>)
    ensures forall k :: k in KeyOrder(words) <==> k in Index(words)
    ensures var es := Export(Index(words), KeyOrder(words));
            && Loadable(Some(es)) == es
            && forall j :: 0 <= j < |es| ==> Sum(es[j].value.value.letters) == |es[j].key|
  {
    KeyOrderKeys(words);
    IndexMeaning(words);
    var es := Export(Index(words), KeyOrder(words));
    LoadableStops(es, |es|);
    IndexProperties(words);
    forall j | 0 <= j < |es| ensures Sum(es[j].value.value.letters) == |es[j].key| {
      assert es[j].key in Index(words);
    }
  }
}
