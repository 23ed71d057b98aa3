/** The anagram matcher: key validation and counting, the two candidate
    tests (plain sub-multiset and wildcard), the length-keyed accumulation of
    the passing entries' word lists, and the two endpoints gated on the
    index's `loaded` flag. */
module Anagram {
  import opened Wrappers
  import opened LetterCounts
  import opened Dictionary

  /** The culture-dependent character rules the matcher relies on:
      `Char.IsLetter` and the per-character mapping of `String.ToLower`. */
  datatype TextRules = TextRules(isLetter: char -> bool, toLower: char -> char)

  /** The key check: every character is a letter or the wildcard `*`
      (vacuously true of the empty key). */
  predicate ValidKey(rules: TextRules, key: string)
  {
    forall i :: 0 <= i < |key| ==> rules.isLetter(key[i]) || key[i] == '*'
  }

  /** The lowered key: `ToLower` maps each character and keeps the length. */
  function Lower(rules: TextRules, key: string): (r: string)
    ensures |r| == |key|
    ensures forall i :: 0 <= i < |key| ==> r[i] == rules.toLower(key[i])
  {
    seq(|key|, i requires 0 <= i < |key| => rules.toLower(key[i]))
  }

  /** Counting the lowered key: the counts, wildcards included, add up to
      the key's length. */
  lemma KeyCountsSum(rules: TextRules, key: string)
    ensures Sum(Counts(Lower(rules, key))) == |key|
    ensures Counts(Lower(rules, key)).Keys == set i | 0 <= i < |key| :: rules.toLower(key[i])
  {
    var low := Lower(rules, key);
    CountsSum(low);
    forall c | c in low ensures exists i :: 0 <= i < |key| && c == rules.toLower(key[i]) {
      var i :| 0 <= i < |low| && low[i] == c;
    }
  }

  /** The plain test: every letter of the item occurs in the key, at least
      as often as in the item. */
  function CheckIfAnagram(keyLetters: set<char>, keyCounts: map<char, int>, item: DictionaryItem): bool
    requires keyLetters <= keyCounts.Keys
  {
    item.letters.Keys <= keyLetters && !exists l :: l in item.letters && item.letters[l] > keyCounts[l]
  }

  /** For a key's own tally, the plain test is exactly "the item's letters
      are a sub-multiset of the key's characters". */
  lemma CheckIfAnagramIsSubBag(k: string, item: DictionaryItem)
    requires forall c :: c in item.letters ==> item.letters[c] > 0
    ensures CheckIfAnagram(Counts(k).Keys, Counts(k), item) <==> Bag(item.letters) <= multiset(k)
  {
    var keyCounts := Counts(k);
    if CheckIfAnagram(keyCounts.Keys, keyCounts, item) {
      forall c ensures Bag(item.letters)[c] <= multiset(k)[c] {
        if c in item.letters {
          assert c in keyCounts;
        }
      }
    } else if Bag(item.letters) <= multiset(k) {
      forall c | c in item.letters ensures c in keyCounts && item.letters[c] <= keyCounts[c] {
        assert Bag(item.letters)[c] <= multiset(k)[c];
      }
      assert false;
    }
  }

  /** For an item built from a word, the plain test accepts exactly the
      words whose letters the key can supply. */
  lemma CheckIfAnagramOfWord(k: string, w: string, item: DictionaryItem)
    requires item.letters == Counts(w)
    ensures CheckIfAnagram(Counts(k).Keys, Counts(k), item) <==> multiset(w) <= multiset(k)
  {
    CheckIfAnagramIsSubBag(k, item);
    BagOfCounts(w);
  }

  function Min(a: int, b: int): int
  {
    if a <= b then a else b
  }

  /** Per shared letter, how many of the item's copies the key's own copies
      cover. */
  ghost function Overlap(shared: set<char>, keyCounts: map<char, int>, letters: map<char, int>): map<char, int>
    requires shared <= keyCounts.Keys && shared <= letters.Keys
  {
    map c | c in shared :: Min(keyCounts[c], letters[c])
  }

  /** Per letter of the item, how many of its copies the key's own copies
      do not cover. */
  ghost function Shortfall(keyCounts: map<char, int>, letters: map<char, int>): map<char, int>
  {
    map c | c in letters ::
      if c !in keyCounts then letters[c]
      else if keyCounts[c] >= letters[c] then 0
      else letters[c] - keyCounts[c]
  }

  /** The wildcard test: the item shares a letter with the key, and the
      covered copies plus the key's wildcards reach the item's length. */
  ghost predicate WildcardFits(keyLetters: set<char>, keyCounts: map<char, int>, item: DictionaryItem)
    requires keyLetters <= keyCounts.Keys && '*' in keyCounts
  {
    var shared := item.letters.Keys * keyLetters;
    shared != {} && Sum(Overlap(shared, keyCounts, item.letters)) + keyCounts['*'] >= item.length
  }

  /** Whether an item passes the matcher's test for a key's letters and
      counts: the plain test without `*`, the wildcard test with it. */
  ghost predicate Formable(keyLetters: set<char>, keyCounts: map<char, int>, item: DictionaryItem)
    requires keyLetters <= keyCounts.Keys
  {
    if '*' !in keyLetters then CheckIfAnagram(keyLetters, keyCounts, item)
    else WildcardFits(keyLetters, keyCounts, item)
  }

  /** The wildcard-aware test, summing the covered copies letter by letter
      over the shared letters. */
  method CheckIfAnagramWithWildcard(keyLetters: set<char>, keyCounts: map<char, int>, item: DictionaryItem)
    returns (ok: bool)
    requires keyLetters <= keyCounts.Keys
    ensures ok == Formable(keyLetters, keyCounts, item)
  {
    if '*' !in keyLetters {
      return CheckIfAnagram(keyLetters, keyCounts, item);
    }
    var intersection := item.letters.Keys * keyLetters;
    if |intersection| == 0 {
      return false;
    }
    var wildcardSum := 0;
    var rest := intersection;
    while rest != {}
      invariant rest <= intersection
      invariant wildcardSum + Sum(Overlap(rest, keyCounts, item.letters))
             == Sum(Overlap(intersection, keyCounts, item.letters))
      decreases |rest|
    {
      var letter :| letter in rest;
      SumRemove(Overlap(rest, keyCounts, item.letters), letter);
      assert Overlap(rest, keyCounts, item.letters) - {letter} == Overlap(rest - {letter}, keyCounts, item.letters);
      wildcardSum := wildcardSum + Min(keyCounts[letter], item.letters[letter]);
      rest := rest - {letter};
    }
    assert Overlap(rest, keyCounts, item.letters) == map[];
    ok := wildcardSum + keyCounts['*'] >= item.length;
  }

  /** Every copy of an item letter is either covered by the key or missing
      from it. */
  lemma {:induction false} OverlapPlusShortfall(keyCounts: map<char, int>, letters: map<char, int>)
    ensures Sum(letters)
         == Sum(Overlap(letters.Keys * keyCounts.Keys, keyCounts, letters)) + Sum(Shortfall(keyCounts, letters))
    decreases letters.Keys
  {
    if letters != map[] {
      var c :| c in letters;
      var rest := letters - {c};
      OverlapPlusShortfall(keyCounts, rest);
      SumRemove(letters, c);
      var sh := Shortfall(keyCounts, letters);
      SumRemove(sh, c);
      assert sh - {c} == Shortfall(keyCounts, rest);
      var ov := Overlap(letters.Keys * keyCounts.Keys, keyCounts, letters);
      if c in keyCounts {
        SumRemove(ov, c);
        assert ov - {c} == Overlap(rest.Keys * keyCounts.Keys, keyCounts, rest);
      } else {
        assert ov == Overlap(rest.Keys * keyCounts.Keys, keyCounts, rest);
      }
    }
  }

  /** Apart from the shared-letter rule the wildcard test is exact: for an
      item whose length is its letter total, it passes exactly when the
      item's copies the key does not cover are no more than the key's
      wildcards. */
  lemma WildcardIsShortfall(keyLetters: set<char>, keyCounts: map<char, int>, item: DictionaryItem)
    requires keyLetters == keyCounts.Keys && '*' in keyLetters
    requires item.length == Sum(item.letters)
    ensures Formable(keyLetters, keyCounts, item)
        <==> item.letters.Keys * keyLetters != {} && Sum(Shortfall(keyCounts, item.letters)) <= keyCounts['*']
  {
    OverlapPlusShortfall(keyCounts, item.letters);
  }

  /** Against a key's own tally, the shortfall counts the item letters the
      key's characters lack. */
  lemma ShortfallIsMissing(k: string, letters: map<char, int>)
    requires forall c :: c in letters ==> letters[c] >= 0
    ensures Sum(Shortfall(Counts(k), letters)) == |Bag(letters) - multiset(k)|
  {
    var sh := Shortfall(Counts(k), letters);
    BagSize(sh);
    forall c ensures Bag(sh)[c] == (Bag(letters) - multiset(k))[c] {
      if c in letters && c !in k {
        assert multiset(k)[c] == 0;
      }
    }
    assert Bag(sh) == Bag(letters) - multiset(k);
  }

  /** The key's characters with its wildcards taken out. */
  function RealLetters(k: string): (m: multiset<char>)
    ensures m <= multiset(k) && m['*'] == 0
    ensures forall c :: c != '*' ==> m[c] == multiset(k)[c]
  {
    multiset(k)['*' := 0]
  }

  lemma SubBagSize(a: multiset<char>, b: multiset<char>)
    requires a <= b
    ensures |a| <= |b|
  {
    assert b == a + (b - a);
  }

  /** What a wildcard key accepts, in terms of replacing each `*` by a
      letter: an accepted item shares a letter with the key, the letters it
      misses are no more than the wildcards, and so some choice of letters
      for the wildcards lets the key form it. */
  lemma WildcardAcceptsFillable(k: string, item: DictionaryItem)
    requires '*' in k
    requires forall c :: c in item.letters ==> item.letters[c] > 0
    requires '*' !in item.letters
    requires item.length == Sum(item.letters)
    requires Formable(Counts(k).Keys, Counts(k), item)
    ensures exists c :: c in item.letters && c in k
    ensures |Bag(item.letters) - multiset(k)| <= multiset(k)['*']
    ensures exists fill :: |fill| == multiset(k)['*'] && Bag(item.letters) <= RealLetters(k) + fill
  {
    WildcardIsShortfall(Counts(k).Keys, Counts(k), item);
    ShortfallIsMissing(k, item.letters);
    var c :| c in item.letters.Keys * Counts(k).Keys;
    var missing := Bag(item.letters) - multiset(k);
    assert Bag(item.letters) <= RealLetters(k) + missing;
    var fill := PaddedFill(missing, multiset(k)['*']);
    WithinLarger(Bag(item.letters), RealLetters(k), missing, fill);
  }

  /** The missing letters padded with wildcards up to `n` letters. */
  lemma PaddedFill(missing: multiset<char>, n: int) returns (fill: multiset<char>)
    requires |missing| <= n
    ensures |fill| == n && missing <= fill
  {
    fill := missing + multiset{}['*' := n - |missing|];
  }

  lemma WithinLarger(a: multiset<char>, base: multiset<char>, b: multiset<char>, c: multiset<char>)
    requires a <= base + b && b <= c
    ensures a <= base + c
  {
  }

  /** Conversely, an item sharing a letter with a wildcard key passes when
      some choice of letters for the wildcards lets the key form it. */
  lemma FillableIsAccepted(k: string, item: DictionaryItem, fill: multiset<char>)
    requires '*' in k
    requires forall c :: c in item.letters ==> item.letters[c] > 0
    requires '*' !in item.letters
    requires item.length == Sum(item.letters)
    requires exists c :: c in item.letters && c in k
    requires |fill| == multiset(k)['*'] && Bag(item.letters) <= RealLetters(k) + fill
    ensures Formable(Counts(k).Keys, Counts(k), item)
  {
    MissingWithinFill(k, item.letters, fill);
    SubBagSize(Bag(item.letters) - multiset(k), fill);
    ShortfallIsMissing(k, item.letters);
    WildcardIsShortfall(Counts(k).Keys, Counts(k), item);
    var c :| c in item.letters && c in k;
    assert c in item.letters.Keys * Counts(k).Keys;
  }

  /** Letters filled in for the wildcards must include every letter the key
      lacks. */
  lemma MissingWithinFill(k: string, letters: map<char, int>, fill: multiset<char>)
    requires '*' !in letters
    requires Bag(letters) <= RealLetters(k) + fill
    ensures Bag(letters) - multiset(k) <= fill
  {
    forall c ensures (Bag(letters) - multiset(k))[c] <= fill[c] {
      assert Bag(letters)[c] <= RealLetters(k)[c] + fill[c];
    }
  }

  /** With a wildcard key, an item sharing no letter with the key fails,
      however many wildcards the key has. */
  lemma NoSharedLetterRejected(keyLetters: set<char>, keyCounts: map<char, int>, item: DictionaryItem)
    requires keyLetters <= keyCounts.Keys && '*' in keyLetters
    requires forall c :: c in item.letters ==> c !in keyLetters
    ensures !Formable(keyLetters, keyCounts, item)
  {
    assert item.letters.Keys * keyLetters == {};
  }

  /** The key `ca*` accepts an entry for `cat` (two covered letters and one
      wildcard) and rejects one for `dog` (no shared letter). */
  lemma WildcardExamples(cat: DictionaryItem, dog: DictionaryItem)
    requires cat.letters == map['c' := 1, 'a' := 1, 't' := 1] && cat.length == 3
    requires dog.letters == map['d' := 1, 'o' := 1, 'g' := 1] && dog.length == 3
    ensures Formable(Counts("ca*").Keys, Counts("ca*"), cat)
    ensures !Formable(Counts("ca*").Keys, Counts("ca*"), dog)
  {
    var keyCounts := Counts("ca*");
    CountsOfCaStar();
    assert cat.letters.Keys * keyCounts.Keys == {'c', 'a'};
    assert Overlap({'c', 'a'}, keyCounts, cat.letters) == map['c' := 1, 'a' := 1];
    SumOfTwo('c', 'a', 1, 1);
    NoSharedLetterRejected(keyCounts.Keys, keyCounts, dog);
  }

  lemma CountsOfCaStar()
    ensures Counts("ca*") == map['c' := 1, 'a' := 1, '*' := 1]
  {
    var key := "ca*";
    assert key == ['c'] + ['a'] + ['*'];
    assert multiset(key) == multiset{'c', 'a', '*'};
  }

  lemma SumOfTwo(c: char, d: char, x: int, y: int)
    requires c != d
    ensures Sum(map[c := x, d := y]) == x + y
  {
    var m := map[c := x, d := y];
    SumRemove(m, c);
    assert m - {c} == map[d := y];
    SumRemove(map[d := y], d);
    assert map[d := y] - {d} == map[];
  }

  /** An entry whose own letters include `*` is outside the reading by
      replacement: the key `a**` accepts the letters `{a: 1, *: 3}` of
      length 4, yet no two letters put in for its wildcards let the key
      form three `*`s. */
  lemma StarEntryExample(item: DictionaryItem)
    requires item.letters == map['a' := 1, '*' := 3] && item.length == 4
    ensures Formable(Counts("a**").Keys, Counts("a**"), item)
    ensures forall fill :: |fill| == multiset("a**")['*'] ==> !(Bag(item.letters) <= RealLetters("a**") + fill)
  {
    var keyCounts := Counts("a**");
    CountsOfAStarStar();
    assert item.letters.Keys * keyCounts.Keys == {'a', '*'};
    assert Overlap({'a', '*'}, keyCounts, item.letters) == map['a' := 1, '*' := 2];
    SumOfTwo('a', '*', 1, 2);
    forall fill | |fill| == multiset("a**")['*']
      ensures !(Bag(item.letters) <= RealLetters("a**") + fill)
    {
      TooFewStars(Bag(item.letters), RealLetters("a**"), fill);
    }
  }

  lemma CountsOfAStarStar()
    ensures Counts("a**") == map['a' := 1, '*' := 2]
    ensures multiset("a**")['*'] == 2
  {
    var key := "a**";
    assert key == ['a'] + ['*'] + ['*'];
    assert multiset(key) == multiset{'a', '*', '*'};
  }

  /** A fill of `n` letters cannot supply more than `n` copies of `*`. */
  lemma TooFewStars(need: multiset<char>, base: multiset<char>, fill: multiset<char>)
    requires base['*'] == 0 && need['*'] > |fill|
    ensures !(need <= base + fill)
  {
    SubBagSize(multiset{}['*' := fill['*']], fill);
  }

  /** The entries of `cands` that pass the test, in candidate order. */
  ghost function Matched(cands: seq<DictionaryItem>, keyLetters: set<char>, keyCounts: map<char, int>)
    : (r: seq<DictionaryItem>)
    requires keyLetters <= keyCounts.Keys
    ensures |r| <= |cands|
    ensures forall j :: 0 <= j < |r| ==> r[j] in cands && Formable(keyLetters, keyCounts, r[j])
    ensures forall j :: 0 <= j < |cands| && Formable(keyLetters, keyCounts, cands[j]) ==> cands[j] in r
  {
    if cands == [] then []
    else
      var last := cands[|cands| - 1];
      Matched(cands[..|cands| - 1], keyLetters, keyCounts) + if Formable(keyLetters, keyCounts, last) then [last] else []
  }

  /** The same filter over (key length, words) pairs, with `snap[j]` the
      words of `cands[j]` when the query started. */
  ghost function MatchedPairs(cands: seq<DictionaryItem>, snap: seq<seq<string>>,
                              keyLetters: set<char>, keyCounts: map<char, int>): seq<(int, seq<string>)>
    requires |snap| == |cands| && keyLetters <= keyCounts.Keys
  {
    if cands == [] then []
    else
      var last := cands[|cands| - 1];
      MatchedPairs(cands[..|cands| - 1], snap[..|snap| - 1], keyLetters, keyCounts)
      + if Formable(keyLetters, keyCounts, last) then [(|last.key|, snap[|snap| - 1])] else []
  }

  /** The words each entry's list holds. */
  ghost function Snapshot(s: seq<DictionaryItem>): (r: seq<seq<string>>)
    reads ListsOf(s)
    ensures |r| == |s| && forall j :: 0 <= j < |s| ==> r[j] == s[j].words.words
  {
    if s == [] then [] else Snapshot(s[..|s| - 1]) + [s[|s| - 1].words.words]
  }

  /** Accumulation of (length, words) pairs in order: the first pair of a
      length creates its bucket, later ones append to it. */
  function Accumulate(ps: seq<(int, seq<string>)>): map<int, seq<string>>
  {
    if ps == [] then map[]
    else
      var m := Accumulate(ps[..|ps| - 1]);
      var (n, ws) := ps[|ps| - 1];
      if n in m then m[n := m[n] + ws] else m[n := ws]
  }

  /** Reference: the words of every pair of length `n`, concatenated in
      order. */
  function Bucket(ps: seq<(int, seq<string>)>, n: int): seq<string>
  {
    if ps == [] then [] else (if ps[0].0 == n then ps[0].1 else []) + Bucket(ps[1..], n)
  }

  lemma {:induction false} BucketAppend(ps: seq<(int, seq<string>)>, p: (int, seq<string>), n: int)
    ensures Bucket(ps + [p], n) == Bucket(ps, n) + if p.0 == n then p.1 else []
  {
    if ps == [] {
      assert [p][1..] == [];
    } else {
      assert (ps + [p])[1..] == ps[1..] + [p];
      BucketAppend(ps[1..], p, n);
    }
  }

  /** The accumulated map has a bucket for each length that occurs, and
      each bucket is the concatenation, in order, of the words of the pairs
      of that length: no sorting, no deduplication. */
  lemma {:induction false} AccumulateIsConcatenation(ps: seq<(int, seq<string>)>)
    ensures Accumulate(ps).Keys == set j | 0 <= j < |ps| :: ps[j].0
    ensures forall n :: n in Accumulate(ps) ==> Accumulate(ps)[n] == Bucket(ps, n)
  {
    if ps != [] {
      var init, p := ps[..|ps| - 1], ps[|ps| - 1];
      AccumulateIsConcatenation(init);
      assert ps == init + [p];
      forall n ensures Bucket(ps, n) == Bucket(init, n) + if p.0 == n then p.1 else [] {
        BucketAppend(init, p, n);
      }
      forall n | n !in Accumulate(init) ensures Bucket(init, n) == [] {
        BucketMissing(init, n);
      }
      assert Accumulate(ps).Keys == (set j | 0 <= j < |init| :: init[j].0) + {p.0};
    }
  }

  lemma {:induction false} BucketMissing(ps: seq<(int, seq<string>)>, n: int)
    requires forall j :: 0 <= j < |ps| ==> ps[j].0 != n
    ensures Bucket(ps, n) == []
  {
    if ps != [] {
      BucketMissing(ps[1..], n);
    }
  }

  /** The position of the first entry of key length `n` in `s`, or `|s|`. */
  function FirstWith(s: seq<DictionaryItem>, n: int): (k: nat)
    ensures k <= |s|
    ensures k < |s| ==> |s[k].key| == n
    ensures forall j :: 0 <= j < k ==> |s[j].key| != n
  {
    if s == [] then 0 else if |s[0].key| == n then 0 else 1 + FirstWith(s[1..], n)
  }

  /** The passing candidates among the first `i`, as entries and as
      (key length, words) pairs. */
  ghost predicate Filtered(cands: seq<DictionaryItem>, snap: seq<seq<string>>, i: nat,
                           keyLetters: set<char>, keyCounts: map<char, int>,
                           sel: seq<DictionaryItem>, pairs: seq<(int, seq<string>)>)
    requires |snap| == |cands| && keyLetters <= keyCounts.Keys
  {
    && i <= |cands|
    && sel == Matched(cands[..i], keyLetters, keyCounts)
    && pairs == MatchedPairs(cands[..i], snap[..i], keyLetters, keyCounts)
  }

  lemma FilteredStep(cands: seq<DictionaryItem>, snap: seq<seq<string>>, i: nat,
                     keyLetters: set<char>, keyCounts: map<char, int>,
                     sel: seq<DictionaryItem>, pairs: seq<(int, seq<string>)>)
    requires |snap| == |cands| && keyLetters <= keyCounts.Keys
    requires Filtered(cands, snap, i, keyLetters, keyCounts, sel, pairs) && i < |cands|
    ensures Formable(keyLetters, keyCounts, cands[i]) ==>
              Filtered(cands, snap, i + 1, keyLetters, keyCounts, sel + [cands[i]], pairs + [(|cands[i].key|, snap[i])])
    ensures !Formable(keyLetters, keyCounts, cands[i]) ==>
              Filtered(cands, snap, i + 1, keyLetters, keyCounts, sel, pairs)
  {
    assert cands[..i + 1][..i] == cands[..i];
    assert snap[..i + 1][..i] == snap[..i];
  }

  /** The buckets after the passing candidates `sel`, as references: one
      per length among them, each the list of the first passing candidate
      of its length. */
  ghost predicate FirstOwners(sel: seq<DictionaryItem>, found: map<int, WordList>)
  {
    && (forall n :: n in found ==> FirstWith(sel, n) < |sel| && found[n] == sel[FirstWith(sel, n)].words)
    && (forall n :: n !in found ==> FirstWith(sel, n) == |sel|)
  }

  /** Each key length among `sel` mapped to the list of the first entry of
      that length. */
  ghost function FirstLists(sel: seq<DictionaryItem>): map<int, WordList>
  {
    map n | n in (set j | 0 <= j < |sel| :: |sel[j].key|) :: sel[FirstWith(sel, n)].words
  }

  lemma FirstOwnersLists(sel: seq<DictionaryItem>, found: map<int, WordList>)
    requires FirstOwners(sel, found)
    ensures found == FirstLists(sel)
  {
    var lens := set j | 0 <= j < |sel| :: |sel[j].key|;
    forall n | n in found ensures n in lens {
      assert |sel[FirstWith(sel, n)].key| == n;
    }
    forall n | n in lens ensures n in found {
      var j :| 0 <= j < |sel| && |sel[j].key| == n;
    }
  }

  /** The buckets are candidates' lists, no two alike, and none of them
      is the list of a candidate from `i` on. */
  ghost predicate Separate(cands: seq<DictionaryItem>, i: nat, found: map<int, WordList>)
  {
    && (forall n :: n in found ==> found[n] in ListsOf(cands))
    && (forall m, n :: m in found && n in found && m != n ==> found[m] != found[n])
    && (forall j :: i <= j < |cands| ==> cands[j].words !in Buckets(found))
  }

  /** The first passing candidate of its length becomes that length's
      bucket; a later one leaves the references as they are. */
  lemma OwnersStep(sel: seq<DictionaryItem>, found: map<int, WordList>, x: DictionaryItem)
    requires FirstOwners(sel, found)
    ensures |x.key| !in found ==> FirstOwners(sel + [x], found[|x.key| := x.words])
    ensures |x.key| in found ==> FirstOwners(sel + [x], found)
  {
    var found' := if |x.key| in found then found else found[|x.key| := x.words];
    var sel' := sel + [x];
    forall m | m in found' ensures FirstWith(sel', m) < |sel'| && found'[m] == sel'[FirstWith(sel', m)].words {
      FirstWithAppend(sel, x, m);
    }
    forall m | m !in found' ensures FirstWith(sel', m) == |sel'| {
      FirstWithAppend(sel, x, m);
    }
  }

  /** A new bucket is the list of the candidate being visited. */
  lemma NewBucketSeparate(cands: seq<DictionaryItem>, i: nat, found: map<int, WordList>, n: int)
    requires DistinctLists(cands) && Separate(cands, i, found)
    requires i < |cands| && n !in found
    ensures Separate(cands, i + 1, found[n := cands[i].words])
  {
    var found' := found[n := cands[i].words];
    assert cands[i].words in ListsOf(cands);
    forall j | i + 1 <= j < |cands| ensures cands[j].words !in Buckets(found') {
      assert cands[j].words != cands[i].words;
    }
  }

  lemma {:induction false} FirstWithAppend(s: seq<DictionaryItem>, x: DictionaryItem, n: int)
    ensures FirstWith(s + [x], n) == if FirstWith(s, n) < |s| || |x.key| == n then FirstWith(s, n) else |s| + 1
  {
    if s != [] && |s[0].key| != n {
      assert (s + [x])[1..] == s[1..] + [x];
      FirstWithAppend(s[1..], x, n);
    }
  }

  /** Accumulating one more pair: a new bucket, or the old one extended. */
  lemma AccumulateAppend(ps: seq<(int, seq<string>)>, p: (int, seq<string>))
    ensures Accumulate(ps + [p]) == var m := Accumulate(ps); if p.0 in m then m[p.0 := m[p.0] + p.1] else m[p.0 := p.1]
  {
    assert (ps + [p])[..|ps|] == ps;
  }

  /** The accumulation loop of the solver: visits the candidates in order
      and, for each passing one, makes its own list the bucket of its
      length or appends its words to the existing bucket (`AddRange`). */
  method CollectBuckets(cands: seq<DictionaryItem>, keyLetters: set<char>, keyCounts: map<char, int>)
    returns (found: map<int, WordList>, ghost snap: seq<seq<string>>)
    requires keyLetters <= keyCounts.Keys && DistinctLists(cands)
    modifies ListsOf(cands)
    ensures snap == old(Snapshot(cands))
    ensures Contents(found) == Accumulate(MatchedPairs(cands, snap, keyLetters, keyCounts))
    ensures found == FirstLists(Matched(cands, keyLetters, keyCounts))
    ensures forall j :: 0 <= j < |cands| && cands[j].words !in Buckets(found) ==>
              cands[j].words.words == snap[j]
  {
    found := map[];
    snap := Snapshot(cands);
    ghost var sel: seq<DictionaryItem> := [];
    ghost var pairs: seq<(int, seq<string>)> := [];
    var i := 0;
    while i < |cands|
      invariant Collected(cands, snap, i, keyLetters, keyCounts, sel, pairs, found)
    {
      found, sel, pairs := Visit(cands, snap, i, keyLetters, keyCounts, sel, pairs, found);
      i := i + 1;
    }
    CollectedAll(cands, snap, keyLetters, keyCounts, sel, pairs, found);
  }

  /** After the last candidate the loop state describes the whole
      candidate list. */
  lemma CollectedAll(cands: seq<DictionaryItem>, snap: seq<seq<string>>,
                     keyLetters: set<char>, keyCounts: map<char, int>,
                     sel: seq<DictionaryItem>, pairs: seq<(int, seq<string>)>, found: map<int, WordList>)
    requires |snap| == |cands| && keyLetters <= keyCounts.Keys
    requires Collected(cands, snap, |cands|, keyLetters, keyCounts, sel, pairs, found)
    ensures Contents(found) == Accumulate(MatchedPairs(cands, snap, keyLetters, keyCounts))
    ensures found == FirstLists(Matched(cands, keyLetters, keyCounts))
    ensures forall j :: 0 <= j < |cands| && cands[j].words !in Buckets(found) ==> cands[j].words.words == snap[j]
  {
    assert cands[..|cands|] == cands && snap[..|snap|] == snap;
    FirstOwnersLists(sel, found);
  }

  /** The accumulation loop's state after `i` candidates: the passing ones
      so far, the buckets as references, their contents, and every other
      candidate list still holding its words from the start. */
  ghost predicate Collected(cands: seq<DictionaryItem>, snap: seq<seq<string>>, i: nat,
                            keyLetters: set<char>, keyCounts: map<char, int>,
                            sel: seq<DictionaryItem>, pairs: seq<(int, seq<string>)>, found: map<int, WordList>)
    requires |snap| == |cands| && keyLetters <= keyCounts.Keys
    reads ListsOf(cands), found.Values
  {
    && Filtered(cands, snap, i, keyLetters, keyCounts, sel, pairs)
    && FirstOwners(sel, found) && Separate(cands, i, found)
    && Contents(found) == Accumulate(pairs)
    && forall j :: 0 <= j < |cands| && cands[j].words !in Buckets(found) ==> cands[j].words.words == snap[j]
  }

  /** One turn of the accumulation loop: tests candidate `i` and, when it
      passes, makes its list the bucket of its length or appends its words
      to that bucket. */
  method Visit(cands: seq<DictionaryItem>, ghost snap: seq<seq<string>>, i: nat,
               keyLetters: set<char>, keyCounts: map<char, int>,
               ghost sel: seq<DictionaryItem>, ghost pairs: seq<(int, seq<string>)>, found: map<int, WordList>)
    returns (found': map<int, WordList>, ghost sel': seq<DictionaryItem>, ghost pairs': seq<(int, seq<string>)>)
    requires |snap| == |cands| && keyLetters <= keyCounts.Keys && DistinctLists(cands)
    requires Collected(cands, snap, i, keyLetters, keyCounts, sel, pairs, found)
    requires i < |cands|
    modifies ListsOf(cands)
    ensures Collected(cands, snap, i + 1, keyLetters, keyCounts, sel', pairs', found')
  {
    var item := cands[i];
    var ok := CheckIfAnagramWithWildcard(keyLetters, keyCounts, item);
    if !ok {
      SkipVisit(cands, snap, i, keyLetters, keyCounts, sel, pairs, found);
      return found, sel, pairs;
    }
    var n := |item.key|;
    if n !in found {
      NewVisit(cands, snap, i, keyLetters, keyCounts, sel, pairs, found);
      found' := found[n := item.words];
    } else {
      assert found[n] in ListsOf(cands);
      AddRange(cands, snap, i, keyLetters, keyCounts, sel, pairs, found);
      found' := found;
    }
    sel' := sel + [item];
    pairs' := pairs + [(n, snap[i])];
  }

  /** A candidate that fails the test changes nothing. */
  lemma SkipVisit(cands: seq<DictionaryItem>, snap: seq<seq<string>>, i: nat,
                  keyLetters: set<char>, keyCounts: map<char, int>,
                  sel: seq<DictionaryItem>, pairs: seq<(int, seq<string>)>, found: map<int, WordList>)
    requires |snap| == |cands| && keyLetters <= keyCounts.Keys
    requires Collected(cands, snap, i, keyLetters, keyCounts, sel, pairs, found)
    requires i < |cands| && !Formable(keyLetters, keyCounts, cands[i])
    ensures Collected(cands, snap, i + 1, keyLetters, keyCounts, sel, pairs, found)
  {
    FilteredStep(cands, snap, i, keyLetters, keyCounts, sel, pairs);
  }

  /** The first passing candidate of its length: its own list becomes the
      bucket. */
  lemma NewVisit(cands: seq<DictionaryItem>, snap: seq<seq<string>>, i: nat,
                 keyLetters: set<char>, keyCounts: map<char, int>,
                 sel: seq<DictionaryItem>, pairs: seq<(int, seq<string>)>, found: map<int, WordList>)
    requires |snap| == |cands| && keyLetters <= keyCounts.Keys && DistinctLists(cands)
    requires Collected(cands, snap, i, keyLetters, keyCounts, sel, pairs, found)
    requires i < |cands| && Formable(keyLetters, keyCounts, cands[i]) && |cands[i].key| !in found
    ensures Collected(cands, snap, i + 1, keyLetters, keyCounts, sel + [cands[i]],
                      pairs + [(|cands[i].key|, snap[i])], found[|cands[i].key| := cands[i].words])
  {
    var n := |cands[i].key|;
    FilteredStep(cands, snap, i, keyLetters, keyCounts, sel, pairs);
    OwnersStep(sel, found, cands[i]);
    NewBucketSeparate(cands, i, found, n);
    AccumulateAppend(pairs, (n, snap[i]));
    ContentsAdd(found, n, cands[i].words);
  }

  /** A later passing candidate of a length that has a bucket: `AddRange`
      appends its words to that bucket, which is another entry's list. */
  method AddRange(cands: seq<DictionaryItem>, ghost snap: seq<seq<string>>, i: nat,
                  keyLetters: set<char>, keyCounts: map<char, int>,
                  ghost sel: seq<DictionaryItem>, ghost pairs: seq<(int, seq<string>)>, found: map<int, WordList>)
    requires |snap| == |cands| && keyLetters <= keyCounts.Keys
    requires Collected(cands, snap, i, keyLetters, keyCounts, sel, pairs, found)
    requires i < |cands| && Formable(keyLetters, keyCounts, cands[i]) && |cands[i].key| in found
    modifies found[|cands[i].key|]
    ensures Collected(cands, snap, i + 1, keyLetters, keyCounts, sel + [cands[i]],
                      pairs + [(|cands[i].key|, snap[i])], found)
  {
    var n := |cands[i].key|;
    FilteredStep(cands, snap, i, keyLetters, keyCounts, sel, pairs);
    OwnersStep(sel, found, cands[i]);
    AccumulateAppend(pairs, (n, snap[i]));
    assert found[n] in Buckets(found);
    assert cands[i].words.words == snap[i];
    ghost var before := Contents(found);
    found[n].words := found[n].words + cands[i].words.words;
    AppendedBucket(found, n, before);
    forall j | 0 <= j < |cands| && cands[j].words !in Buckets(found)
      ensures cands[j].words.words == snap[j]
    {
      assert cands[j].words != found[n];
    }
  }

  /** After an append to bucket `n` alone, the contents differ from the
      earlier ones in that bucket only. */
  lemma AppendedBucket(found: map<int, WordList>, n: int, before: map<int, seq<string>>)
    requires n in found && before.Keys == found.Keys
    requires forall m :: m in found && m != n ==> found[m].words == before[m]
    ensures Contents(found) == before[n := found[n].words]
  {
    var after := before[n := found[n].words];
    assert Contents(found).Keys == after.Keys;
    forall m | m in found
      ensures Contents(found)[m] == after[m]
    {
      if m != n {
        assert after[m] == before[m];
      }
    }
  }

  /** The words each bucket holds: what the response body serialises. */
  function Contents(found: map<int, WordList>): (c: map<int, seq<string>>)
    reads found.Values
  {
    map n | n in found :: found[n].words
  }

  /** The bucket lists themselves. */
  ghost function Buckets(found: map<int, WordList>): set<WordList>
  {
    set n | n in found :: found[n]
  }

  lemma ContentsAdd(found: map<int, WordList>, n: int, w: WordList)
    requires n !in found
    ensures Contents(found[n := w]) == Contents(found)[n := w.words]
    ensures Buckets(found[n := w]) == Buckets(found) + {w}
  {
    var found' := found[n := w];
    forall x | x in Buckets(found') ensures x in Buckets(found) + {w} {
      var m :| m in found' && found'[m] == x;
      if m != n {
        assert found[m] == x;
      }
    }
    forall x | x in Buckets(found) ensures x in Buckets(found') {
      var m :| m in found && found[m] == x;
      assert found'[m] == x;
    }
    assert found'[n] == w;
  }

  /** The filtered pairs are the passing entries' key lengths, one per
      passing entry, in the same order. */
  lemma {:induction false} MatchedPairsOfMatched(cands: seq<DictionaryItem>, snap: seq<seq<string>>,
                                                 keyLetters: set<char>, keyCounts: map<char, int>)
    requires |snap| == |cands| && keyLetters <= keyCounts.Keys
    ensures var ps, sel := MatchedPairs(cands, snap, keyLetters, keyCounts), Matched(cands, keyLetters, keyCounts);
            |ps| == |sel| && forall j :: 0 <= j < |ps| ==> ps[j].0 == |sel[j].key|
  {
    if cands != [] {
      MatchedPairsOfMatched(cands[..|cands| - 1], snap[..|snap| - 1], keyLetters, keyCounts);
    }
  }

  /** Every bucket length is the key length of a passing candidate. */
  lemma BucketOwner(cands: seq<DictionaryItem>, snap: seq<seq<string>>,
                    keyLetters: set<char>, keyCounts: map<char, int>, n: int) returns (x: DictionaryItem)
    requires |snap| == |cands| && keyLetters <= keyCounts.Keys
    requires n in Accumulate(MatchedPairs(cands, snap, keyLetters, keyCounts))
    ensures x in cands && Formable(keyLetters, keyCounts, x) && |x.key| == n
  {
    var ps := MatchedPairs(cands, snap, keyLetters, keyCounts);
    AccumulateIsConcatenation(ps);
    MatchedPairsOfMatched(cands, snap, keyLetters, keyCounts);
    var j :| 0 <= j < |ps| && ps[j].0 == n;
    x := Matched(cands, keyLetters, keyCounts)[j];
  }

  /** Every passing candidate's key length has a bucket. */
  lemma PassingHasBucket(cands: seq<DictionaryItem>, snap: seq<seq<string>>,
                         keyLetters: set<char>, keyCounts: map<char, int>, x: DictionaryItem)
    requires |snap| == |cands| && keyLetters <= keyCounts.Keys
    requires x in cands && Formable(keyLetters, keyCounts, x)
    ensures |x.key| in Accumulate(MatchedPairs(cands, snap, keyLetters, keyCounts))
  {
    var ps := MatchedPairs(cands, snap, keyLetters, keyCounts);
    var sel := Matched(cands, keyLetters, keyCounts);
    AccumulateIsConcatenation(ps);
    MatchedPairsOfMatched(cands, snap, keyLetters, keyCounts);
    var k :| 0 <= k < |cands| && cands[k] == x;
    var j :| 0 <= j < |sel| && sel[j] == x;
    assert ps[j].0 == |x.key|;
  }

  /** Without a wildcard in the key, the passing candidates are exactly
      those whose letters the key can supply. */
  lemma MatchedSubBags(k: string, cands: seq<DictionaryItem>)
    requires '*' !in k
    requires forall x :: x in cands ==> forall c :: c in x.letters ==> x.letters[c] > 0
    ensures forall x :: x in cands ==>
              (x in Matched(cands, Counts(k).Keys, Counts(k)) <==> Bag(x.letters) <= multiset(k))
  {
    var sel := Matched(cands, Counts(k).Keys, Counts(k));
    forall x | x in cands
      ensures x in sel <==> Bag(x.letters) <= multiset(k)
    {
      CheckIfAnagramIsSubBag(k, x);
      if x in sel {
        var j :| 0 <= j < |sel| && sel[j] == x;
      }
    }
  }

  /** The corrected accumulation loop: a bucket starts as a copy of the
      first passing entry's words and later ones are appended to the copy. */
  method CopyBuckets(cands: seq<DictionaryItem>, keyLetters: set<char>, keyCounts: map<char, int>)
    returns (found: map<int, seq<string>>)
    requires keyLetters <= keyCounts.Keys
    ensures found == Accumulate(MatchedPairs(cands, Snapshot(cands), keyLetters, keyCounts))
  {
    ghost var snap := Snapshot(cands);
    found := map[];
    var i := 0;
    while i < |cands|
      invariant i <= |cands|
      invariant found == Accumulate(MatchedPairs(cands[..i], snap[..i], keyLetters, keyCounts))
    {
      var item := cands[i];
      var ok := CheckIfAnagramWithWildcard(keyLetters, keyCounts, item);
      CopyStep(cands, snap, i, keyLetters, keyCounts);
      if ok {
        var n := |item.key|;
        found := if n in found then found[n := found[n] + item.words.words] else found[n := item.words.words];
      }
      i := i + 1;
    }
    assert cands[..i] == cands && snap[..i] == snap;
    assert snap == Snapshot(cands);
  }

  /** When every candidate's key length is its length and that length is
      `bound` (exact) or at most `bound`, so are the bucket lengths. */
  lemma MatchedLengths(cands: seq<DictionaryItem>, snap: seq<seq<string>>,
                       keyLetters: set<char>, keyCounts: map<char, int>, bound: int, exact: bool)
    requires |snap| == |cands| && keyLetters <= keyCounts.Keys
    requires forall x :: x in cands ==> |x.key| == x.length && if exact then x.length == bound else x.length <= bound
    ensures forall n :: n in Accumulate(MatchedPairs(cands, snap, keyLetters, keyCounts)) ==>
              if exact then n == bound else n <= bound
  {
    var ps := MatchedPairs(cands, snap, keyLetters, keyCounts);
    var sel := Matched(cands, keyLetters, keyCounts);
    AccumulateIsConcatenation(ps);
    MatchedPairsOfMatched(cands, snap, keyLetters, keyCounts);
    forall n | n in Accumulate(ps)
      ensures if exact then n == bound else n <= bound
    {
      var j :| 0 <= j < |ps| && ps[j].0 == n;
      assert sel[j] in cands;
    }
  }

  /** One more candidate extends the filtered pairs by its own pair when
      it passes, and the accumulation by that pair. */
  lemma CopyStep(cands: seq<DictionaryItem>, snap: seq<seq<string>>, i: nat,
                 keyLetters: set<char>, keyCounts: map<char, int>)
    requires |snap| == |cands| && keyLetters <= keyCounts.Keys && i < |cands|
    ensures var ps := MatchedPairs(cands[..i], snap[..i], keyLetters, keyCounts);
            var p := (|cands[i].key|, snap[i]);
            Accumulate(MatchedPairs(cands[..i + 1], snap[..i + 1], keyLetters, keyCounts))
              == if Formable(keyLetters, keyCounts, cands[i]) then Accumulate(ps + [p]) else Accumulate(ps)
  {
    var c, sn := cands[..i + 1], snap[..i + 1];
    assert c[..i] == cands[..i] && c[i] == cands[i];
    assert sn[..i] == snap[..i] && sn[i] == snap[i];
    var ps := MatchedPairs(cands[..i], snap[..i], keyLetters, keyCounts);
    var p := (|cands[i].key|, snap[i]);
    if Formable(keyLetters, keyCounts, cands[i]) {
      assert MatchedPairs(c, sn, keyLetters, keyCounts) == ps + [p];
    } else {
      assert MatchedPairs(c, sn, keyLetters, keyCounts) == ps + [];
      assert ps + [] == ps;
    }
  }

  /** The ASCII reading of the character rules, used by the examples. */
  function AsciiRules(): TextRules
  {
    TextRules(c => 'a' <= c <= 'z' || 'A' <= c <= 'Z',
              c => if 'A' <= c <= 'Z' then (c as int + 32) as char else c)
  }

  /** A query's outcome at the HTTP boundary: refused because the index is
      not loaded, refused because the key is not letters and `*`, or the
      buckets. */
  datatype Response = Unavailable | Rejected | Found(buckets: map<int, seq<string>>)

  class AnagramController {
    const dictionary: DictionaryService
    const rules: TextRules

    constructor (dictionary: DictionaryService, rules: TextRules)
      ensures this.dictionary == dictionary && this.rules == rules
    {
      this.dictionary := dictionary;
      this.rules := rules;
    }

    /** The entries the solver is given: exactly the key's length in exact
        mode, up to it otherwise. */
    function Candidates(keyLen: int, exactMode: bool): (r: seq<DictionaryItem>)
      reads dictionary
      ensures dictionary.Valid() ==> forall i :: 0 <= i < |r| ==>
                r[i] in dictionary.items && if exactMode then r[i].length == keyLen else r[i].length <= keyLen
      ensures dictionary.Valid() ==> forall i ::
                0 <= i < |dictionary.items| && (if exactMode then dictionary.items[i].length == keyLen else dictionary.items[i].length <= keyLen)
                ==> dictionary.items[i] in r
    {
      if exactMode then dictionary.GetExact(keyLen) else dictionary.Get(keyLen)
    }

    /** The buckets a query for `key` should produce from the index as it
        stands: the words of the passing candidates, grouped by key length
        in candidate order. */
    ghost function Expected(key: string, exactMode: bool): map<int, seq<string>>
      requires dictionary.Valid()
      reads dictionary, dictionary.Lists()
    {
      var keyCounts := Counts(Lower(rules, key));
      var cands := Candidates(|key|, exactMode);
      Accumulate(MatchedPairs(cands, Snapshot(cands), keyCounts.Keys, keyCounts))
    }
  
    /** The lists a query for `key` uses as buckets: for each length, the
        list of the first passing candidate of that length. */
    ghost function Owners(key: string, exactMode: bool): map<int, WordList>
      reads dictionary
    {
      var keyCounts := Counts(Lower(rules, key));
      FirstLists(Matched(Candidates(|key|, exactMode), keyCounts.Keys, keyCounts))
    }

    /** Solves a key as the controller does. The result maps each length to
        the first passing entry's own word list, into which the later
        passing entries of that length are appended: after the query those
        lists hold the expected buckets, and no other list changed. */
    method SolveAnagram(key: string, exactMode: bool) returns (r: Option<map<int, WordList>>)
      requires dictionary.Valid()
      modifies dictionary.Lists()
      ensures r.None? <==> !ValidKey(rules, key)
      ensures r.None? ==> unchanged(dictionary.Lists())
      ensures r.Some? ==> Contents(r.value) == old(Expected(key, exactMode))
      ensures r.Some? ==> r.value == Owners(key, exactMode)
      ensures r.Some? ==> forall x :: x in old(dictionary.Lists()) && x !in Buckets(r.value) ==> x.words == old(x.words)
    {
      if !ValidKey(rules, key) {
        return None;
      }
      var sortedKey := Lower(rules, key);
      var keyLen := |sortedKey|;
      var keyCounts := Counts(sortedKey);
      var keyLetters := keyCounts.Keys;
      var potential := Candidates(keyLen, exactMode);
      CandidatesDistinct(keyLen, exactMode);
      ghost var expected := Accumulate(MatchedPairs(potential, Snapshot(potential), keyLetters, keyCounts));
      assert expected == Expected(key, exactMode);
      var found, snap := CollectBuckets(potential, keyLetters, keyCounts);
      assert Contents(found) == expected;
      r := Some(found);
    }

    /** `GET /anagram`: refused while the index is not loaded, rejected
        for a key that is not letters and `*`, otherwise the buckets for
        the key and every shorter length. */
    method Get(key: string) returns (resp: Response)
      requires dictionary.Valid()
      modifies dictionary.Lists()
      ensures !dictionary.loaded ==> resp == Unavailable && unchanged(dictionary.Lists())
      ensures dictionary.loaded && !ValidKey(rules, key) ==> resp == Rejected && unchanged(dictionary.Lists())
      ensures dictionary.loaded && ValidKey(rules, key) ==> resp == Found(old(Expected(key, false)))
      ensures resp.Found? ==> resp.buckets == Contents(Owners(key, false))
      ensures resp.Found? ==> forall x :: x in old(dictionary.Lists()) && x !in Buckets(Owners(key, false)) ==>
                x.words == old(x.words)
    {
      if !dictionary.loaded {
        return Unavailable;
      }
      var r := SolveAnagram(key, false);
      if r.None? {
        return Rejected;
      }
      resp := Found(Contents(r.value));
    }

    /** `GET /anagram/exact`: as `Get`, with the buckets for the key's own
        length only. */
    method GetExact(key: string) returns (resp: Response)
      requires dictionary.Valid()
      modifies dictionary.Lists()
      ensures !dictionary.loaded ==> resp == Unavailable && unchanged(dictionary.Lists())
      ensures dictionary.loaded && !ValidKey(rules, key) ==> resp == Rejected && unchanged(dictionary.Lists())
      ensures dictionary.loaded && ValidKey(rules, key) ==> resp == Found(old(Expected(key, true)))
      ensures resp.Found? ==> resp.buckets == Contents(Owners(key, true))
      ensures resp.Found? ==> forall x :: x in old(dictionary.Lists()) && x !in Buckets(Owners(key, true)) ==>
                x.words == old(x.words)
    {
      if !dictionary.loaded {
        return Unavailable;
      }
      var r := SolveAnagram(key, true);
      if r.None? {
        return Rejected;
      }
      resp := Found(Contents(r.value));
    }

    /** Bucket lengths: the key's own length in exact mode, at most that
        length otherwise. */
    lemma ExpectedLengths(key: string, exactMode: bool)
      requires dictionary.Valid()
      ensures forall n :: n in Expected(key, exactMode) ==> if exactMode then n == |key| else n <= |key|
    {
      var keyCounts := Counts(Lower(rules, key));
      var cands := Candidates(|key|, exactMode);
      forall x | x in cands
        ensures |x.key| == x.length && if exactMode then x.length == |key| else x.length <= |key|
      {
        var j :| 0 <= j < |cands| && cands[j] == x;
        var i :| 0 <= i < |dictionary.items| && dictionary.items[i] == x;
      }
      MatchedLengths(cands, Snapshot(cands), keyCounts.Keys, keyCounts, |key|, exactMode);
    }

    /** The empty key passes the key check. Its only possible bucket is
        the one for length 0, which needs a stored entry of length 0; an
        entry for the empty word (key `""`, no letters) passes the plain
        test and so produces that bucket. */
    lemma EmptyKeyBuckets(exactMode: bool)
      requires dictionary.Valid()
      ensures ValidKey(rules, "")
      ensures forall n :: n in Expected("", exactMode) ==>
                n == 0 && exists i :: 0 <= i < |dictionary.items| && dictionary.items[i].length == 0
      ensures (exists i :: 0 <= i < |dictionary.items| && dictionary.items[i].key == "" && dictionary.items[i].letters == map[])
                ==> 0 in Expected("", exactMode)
    {
      var keyCounts := Counts(Lower(rules, ""));
      assert keyCounts == map[];
      var cands := Candidates(0, exactMode);
      forall n | n in Expected("", exactMode)
        ensures n == 0 && exists i :: 0 <= i < |dictionary.items| && dictionary.items[i].length == 0
      {
        var x := BucketOwner(cands, Snapshot(cands), keyCounts.Keys, keyCounts, n);
        var k :| 0 <= k < |cands| && cands[k] == x;
        var i :| 0 <= i < |dictionary.items| && dictionary.items[i] == x;
      }
      if exists i :: 0 <= i < |dictionary.items| && dictionary.items[i].key == "" && dictionary.items[i].letters == map[] {
        var i :| 0 <= i < |dictionary.items| && dictionary.items[i].key == "" && dictionary.items[i].letters == map[];
        var x := dictionary.items[i];
        assert x in cands;
        PassingHasBucket(cands, Snapshot(cands), keyCounts.Keys, keyCounts, x);
      }
    }

    /** The solver with each bucket a fresh list holding copies of the
        words: the result is the expected buckets and no entry's list is
        touched, so repeating a query repeats its answer. */
    method SolveAnagramCopying(key: string, exactMode: bool) returns (r: Option<map<int, seq<string>>>)
      requires dictionary.Valid()
      ensures r.None? <==> !ValidKey(rules, key)
      ensures r.Some? ==> r.value == Expected(key, exactMode)
    {
      if !ValidKey(rules, key) {
        return None;
      }
      var sortedKey := Lower(rules, key);
      var keyCounts := Counts(sortedKey);
      var potential := Candidates(|sortedKey|, exactMode);
      var found := CopyBuckets(potential, keyCounts.Keys, keyCounts);
      r := Some(found);
    }

    /** The endpoints with the copying solver behind the same gate: a
        query changes nothing, and its answer is the expected buckets of
        the index as it stands. */
    method GetWithCopies(key: string, exactMode: bool) returns (resp: Response)
      requires dictionary.Valid()
      ensures !dictionary.loaded ==> resp == Unavailable
      ensures dictionary.loaded && !ValidKey(rules, key) ==> resp == Rejected
      ensures dictionary.loaded && ValidKey(rules, key) ==> resp == Found(Expected(key, exactMode))
    {
      if !dictionary.loaded {
        return Unavailable;
      }
      var r := SolveAnagramCopying(key, exactMode);
      if r.None? {
        return Rejected;
      }
      resp := Found(r.value);
    }

    /** The candidate entries have distinct word lists and are stored
        entries. */
    lemma CandidatesDistinct(keyLen: int, exactMode: bool)
      requires dictionary.Valid()
      ensures DistinctLists(Candidates(keyLen, exactMode))
      ensures forall j :: 0 <= j < |Candidates(keyLen, exactMode)| ==>
                Candidates(keyLen, exactMode)[j].words in dictionary.Lists()
    {
      if exactMode {
        WhereDistinct(dictionary.items, (x: DictionaryItem) => x.length == keyLen);
      } else {
        WhereDistinct(dictionary.items, (x: DictionaryItem) => x.length <= keyLen);
      }
    }
  }
}

