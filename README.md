# Anagram engine of Enitoolkit, modelled in Dafny

Enitoolkit answers `GET /anagram?key=…` and `GET /anagram/exact?key=…`. The
model covers the three parts of its anagram engine.

- **The offline index builder** (`create_index` in
  `Enitoolkit/Dictionaries/index_dict.py`):
  - groups the words by their letters in sorted order (the *key*);
  - records the letter counts of each key;
  - appends every word to its key's bucket in input order.

  Module `IndexBuilder` (`index_dict.dfy`) models it. `CreateIndex` is the
  loop, proved against the recursive specification `Index`/`KeyOrder`. The
  lemmas then state what the index holds:
  - every word is in its key's bucket, duplicates kept;
  - bucket words are permutations of the key;
  - keys are sorted and buckets are never empty;
  - the letters add up to the key length;
  - the word total is preserved;
  - the index file it writes is read in full by the service.
- **The in-memory index** (`DictionaryService` in
  `Enitoolkit/Dictionaries/DictionaryService.cs`; its records are
  `Enitoolkit/Models/DictionaryItem.cs`). Module `Dictionary`
  (`dictionary_service.dfy`) models it:
  - a class with the source's three fields (`items`, `maxKeyLength`,
    `loaded`);
  - `Get` and `GetExact` as order-keeping `Where` filters;
  - `LoadDictionary` as a method whose conversion loop appends one item per
    decoded entry and keeps the running maximum key length.

  A `DictionaryItem` holds its word list by reference, as an object of class
  `WordList`. This is how C#'s `List<string>` behaves, and the controller
  depends on it.
- **The matcher** (`AnagramController` in
  `Enitoolkit/Controllers/AnagramController.cs`). Module `Anagram`
  (`anagram_controller.dfy`) models it:
  - the key check, the lowering and the counting of the key;
  - the plain test `CheckIfAnagram`;
  - the wildcard test `CheckIfAnagramWithWildcard`, a method with the
    source's summing loop;
  - the accumulation loop of `SolveAnagram`, which makes buckets and
    appends to them in place;
  - the two endpoints behind the `Loaded` gate.

  `Char.IsLetter` and the per-character mapping of `ToLower` are parameters
  (`TextRules`).

Module `LetterCounts` (`letter_counts.dfy`) holds the letter tallies that
both sides use:
- `GroupBy`/`Count` on the key and `Counter` on the index side;
- the sum of a tally;
- the multiset a tally stands for.

Module `QueryExamples` (`query_examples.dfy`) loads a two-entry index and
runs the same query twice through the endpoints.

Behaviour of the source worth knowing, each point proved in the model:
- **A load stops at a `null` entry.** In the conversion loop
  (`Enitoolkit/Dictionaries/DictionaryService.cs:98-115`), a `null` value
  throws. The `catch` ends the loop:
  - the items added before it stay;
  - the remaining entries are not read;
  - `loaded` is set anyway.

  See `Loadable` and `LoadDictionary`.
- **The wildcard test is exact.** Take an item whose length is its letter
  total. The test of `Enitoolkit/Controllers/AnagramController.cs:158-177`
  passes exactly when:
  - the item shares a letter with the key; and
  - the copies of the item's letters that the key lacks are no more than
    the key's `*`s.

  Equivalently, for an item whose own letters do not include `*`: the item
  shares a letter with the key and some replacement of the `*`s by letters
  lets the key form it. An entry whose letters include `*` is outside this
  equivalence. Such an entry cannot come from a word list of letters, and it
  can pass without any such replacement. An example is key `a**` against
  letters `{a: 1, *: 3}` (`StarEntryExample`). See `WildcardIsShortfall`,
  `WildcardAcceptsFillable` and `FillableIsAccepted`.
- **Queries change the index.** At
  `Enitoolkit/Controllers/AnagramController.cs:107-110`, a query appends
  into an index entry's own word list. A later query can therefore answer
  differently. See Findings.
- **The empty key is accepted.** The key check of
  `Enitoolkit/Controllers/AnagramController.cs:78` holds vacuously for it.
  The answer holds the buckets of the zero-length entries:
  - there are none unless the word list had a blank line;
  - a blank line gives an entry with key `""` and words `[""]`, and that
    entry passes the plain test.

  See `EmptyKeyBuckets`.

## Model

| member | source | states |
|---|---|---|
| Anagram.Lower | Enitoolkit/Controllers/AnagramController.cs:80-81 | lowering keeps the key's length and maps each character by `ToLower` |
| Anagram.KeyCountsSum | Enitoolkit/Controllers/AnagramController.cs:80-86 | the counts of the lowered key add up to the key's length, wildcards included; the counted characters are exactly the lowered characters of the key, so upper and lower case of a letter are one entry |
| LetterCounts.Counts | Enitoolkit/Controllers/AnagramController.cs:82-84 | the tally has exactly the characters of the string as keys, each with its number of occurrences (at least one) |
| LetterCounts.CountsSum | Enitoolkit/Controllers/AnagramController.cs:82-84 | the counts of a string add up to its length |
| Anagram.CheckIfAnagram | Enitoolkit/Controllers/AnagramController.cs:126-139 | the plain test: for a tally whose keys include the key letters, the test passes when every letter of the item is a key letter and occurs in the key at least as often; its meaning as multiset inclusion is stated in `CheckIfAnagramIsSubBag` |
| Anagram.CheckIfAnagramIsSubBag | Enitoolkit/Controllers/AnagramController.cs:126-139 | against a key's own tally, the plain test passes if and only if the item's letters are a sub-multiset of the key's characters |
| Anagram.CheckIfAnagramOfWord | Enitoolkit/Controllers/AnagramController.cs:126-139 | for an item built from a word, the plain test passes if and only if the word's letters are a sub-multiset of the key's |
| Anagram.CheckIfAnagramWithWildcard | Enitoolkit/Controllers/AnagramController.cs:151-178 | the summing loop returns exactly the test: the plain test without `*`; with `*`, a non-empty shared letter set and covered copies plus wildcards at least the item's length |
| Anagram.WildcardIsShortfall | Enitoolkit/Controllers/AnagramController.cs:158-177 | with `*` in the key and an item whose length is its letter total, the item passes if and only if it shares a letter and its uncovered copies are at most the key's wildcards |
| Anagram.WildcardAcceptsFillable | Enitoolkit/Controllers/AnagramController.cs:158-177 | an item without `*` among its letters that a wildcard key accepts shares a letter with the key; the letters the key lacks number at most its `*`s; and some choice of letters for the `*`s lets the key form the item |
| Anagram.FillableIsAccepted | Enitoolkit/Controllers/AnagramController.cs:158-177 | conversely, an item without `*` among its letters that shares a letter with the key is accepted when some choice of letters for the `*`s lets the key form it |
| Anagram.StarEntryExample | Enitoolkit/Controllers/AnagramController.cs:158-177 | an entry whose letters include `*` is outside the replacement reading: key `a**` accepts letters `{a: 1, *: 3}` of length 4, yet no two letters put in for its `*`s let the key form the entry |
| Anagram.NoSharedLetterRejected | Enitoolkit/Controllers/AnagramController.cs:161-164 | with a wildcard key, an item sharing no letter with the key is rejected whatever the number of `*`s |
| Anagram.WildcardExamples | Enitoolkit/Controllers/AnagramController.cs:154-177 | the key `ca*` accepts an entry for `cat` and rejects one for `dog` |
| Anagram.Matched | Enitoolkit/Controllers/AnagramController.cs:98-102 | the passing candidates: every one of them is a candidate that passes, and every candidate that passes is among them |
| Anagram.MatchedSubBags | Enitoolkit/Controllers/AnagramController.cs:98-102 | without `*`, a candidate passes if and only if its letters are a sub-multiset of the key's characters |
| Anagram.Accumulate | Enitoolkit/Controllers/AnagramController.cs:104-110 | the bucket map built pair by pair: the first pair of a length creates its bucket, and later pairs of that length append to it; `AccumulateIsConcatenation` states what it holds |
| Anagram.AccumulateIsConcatenation | Enitoolkit/Controllers/AnagramController.cs:104-111 | there is a bucket for exactly the lengths that occur, and each bucket is the in-order concatenation of the words of that length's passing entries, with no sorting or deduplication |
| Anagram.BucketOwner | Enitoolkit/Controllers/AnagramController.cs:98-110 | every bucket length is the key length of some passing candidate |
| Anagram.PassingHasBucket | Enitoolkit/Controllers/AnagramController.cs:98-110 | every passing candidate's key length has a bucket |
| Anagram.MatchedLengths | Enitoolkit/Controllers/AnagramController.cs:93-105 | when every candidate's length is exactly (or at most) a bound, so is every bucket key |
| Anagram.CollectBuckets | Enitoolkit/Controllers/AnagramController.cs:98-111 | the loop, whose body `Visit` does the test and then the `continue`, the new bucket or the `AddRange`: after the loop, the buckets hold the accumulated words of the passing candidates as they were at the start; each bucket is the list of the first passing candidate of its length; every other candidate list is unchanged |
| Anagram.AddRange | Enitoolkit/Controllers/AnagramController.cs:105-110 | a later passing candidate of a length that already has a bucket: its words are appended to that bucket, which is another entry's own list; afterwards the loop invariant covers one more candidate |
| Anagram.AnagramController.Candidates | Enitoolkit/Controllers/AnagramController.cs:93-96 | under the index invariant: the candidates are stored items of exactly the key's length (exact mode) or of at most that length, and every such stored item is a candidate |
| Anagram.AnagramController.EmptyKeyBuckets | Enitoolkit/Controllers/AnagramController.cs:76-110 | the empty key passes the key check; its only possible bucket is for length 0, and that needs a stored entry of length 0; an entry with key `""` and no letters does give it that bucket |
| Anagram.AnagramController.SolveAnagram | Enitoolkit/Controllers/AnagramController.cs:76-118 | `null` exactly when the key fails `ValidKey`, that is when a character is neither a letter nor `*` (then nothing changes); otherwise the buckets' contents are the expected buckets of the index before the query, the buckets are entries' own lists, and no other list changes |
| Anagram.AnagramController.Get | Enitoolkit/Controllers/AnagramController.cs:26-40 | unavailable when not loaded; rejected for a bad key; otherwise the expected buckets for the key's length and below; only bucket lists change |
| Anagram.AnagramController.GetExact | Enitoolkit/Controllers/AnagramController.cs:47-61 | as `Get`, in exact mode |
| Anagram.AnagramController.ExpectedLengths | Enitoolkit/Controllers/AnagramController.cs:93-105 | in exact mode every bucket key is the key's length; otherwise every bucket key is at most the key's length |
| Anagram.AnagramController.CandidatesDistinct | Enitoolkit/Dictionaries/DictionaryService.cs:70-83 | the candidates are stored entries, and no two share a word list |
| Anagram.CopyBuckets | Enitoolkit/Controllers/AnagramController.cs:98-111 | the corrected loop, which copies the words: its buckets are the accumulated words of the passing candidates, and no list is modified |
| Anagram.AnagramController.SolveAnagramCopying | Enitoolkit/Controllers/AnagramController.cs:76-118 | the corrected solver: `None` exactly for a bad key, otherwise the expected buckets, with the index unchanged |
| Anagram.AnagramController.GetWithCopies | Enitoolkit/Controllers/AnagramController.cs:26-61 | the corrected endpoints: unavailable, rejected, or the expected buckets of the index as it stands, with the index unchanged |
| Anagram.AnagramController.constructor | Enitoolkit/Controllers/AnagramController.cs:15-19 | the controller holds the given dictionary service |
| Dictionary.Where | Enitoolkit/Dictionaries/DictionaryService.cs:76 | the filtered items are stored items that satisfy the filter, and every stored item that satisfies it is kept |
| Dictionary.WhereAppend | Enitoolkit/Dictionaries/DictionaryService.cs:76 | filtering keeps order: filtering a concatenation concatenates the filtered parts |
| Dictionary.WhereAll | Enitoolkit/Dictionaries/DictionaryService.cs:72-73 | a filter that every item passes returns the whole list |
| Dictionary.DictionaryService.GetAll | Enitoolkit/Dictionaries/DictionaryService.cs:64-68 | the stored list; under the index invariant it holds every stored item, and none of them is longer than the recorded maximum |
| Dictionary.DictionaryService.Get | Enitoolkit/Dictionaries/DictionaryService.cs:64-77 | under the index invariant, the shortcut through `GetAll` and the filter give the same list: the items no longer than `maxLen`, in stored order |
| Dictionary.DictionaryService.GetExact | Enitoolkit/Dictionaries/DictionaryService.cs:79-83 | exactly the stored items of length `exactLen`, in stored order |
| Dictionary.DictionaryService.constructor | Enitoolkit/Dictionaries/DictionaryService.cs:55-57 | starts empty, with maximum 0 and not loaded |
| Dictionary.DictionaryService.LoadDictionary | Enitoolkit/Dictionaries/DictionaryService.cs:85-116 | afterwards `loaded` holds, whether the read failed, a `null` entry stopped the loop, or every entry was converted; the old items are kept; one converted item is appended per loadable entry; the maximum is the running maximum |
| Dictionary.DictionaryService.ConvertItems | Enitoolkit/Dictionaries/DictionaryService.cs:98-108 | the conversion loop appends, in order, an item per entry up to the first `null`, with length equal to the key's length and the imported letters and words, and keeps the index invariant |
| Dictionary.Convert | Enitoolkit/Dictionaries/DictionaryService.cs:100-106 | the item has the entry's key, length equal to the key's length, the imported letters, and a new list holding the imported words |
| Dictionary.Loadable | Enitoolkit/Dictionaries/DictionaryService.cs:88-113 | the loaded entries are none when reading or decoding failed, otherwise the longest prefix without a `null` value |
| Dictionary.RunningMax | Enitoolkit/Dictionaries/DictionaryService.cs:107 | the `Math.Max` fold over the loaded key lengths; `RunningMaxBounds` and `RunningMaxAttained` state that it is their maximum |
| Dictionary.RunningMaxBounds | Enitoolkit/Dictionaries/DictionaryService.cs:107 | the running maximum is at least its start and at least every loaded key length |
| Dictionary.RunningMaxAttained | Enitoolkit/Dictionaries/DictionaryService.cs:56-107 | the running maximum is its start (0 on a first load) or one of the loaded key lengths |
| IndexBuilder.SortChars | Enitoolkit/Dictionaries/index_dict.py:7 | the key is sorted and has the same letters as the word |
| IndexBuilder.SameKeyIffAnagram | Enitoolkit/Dictionaries/index_dict.py:7-8 | two words get the same key if and only if they are anagrams of each other |
| IndexBuilder.KeyOrder | Enitoolkit/Dictionaries/index_dict.py:8-10 | the keys listed in order of first occurrence are distinct |
| IndexBuilder.KeyOrderKeys | Enitoolkit/Dictionaries/index_dict.py:8-10 | the listed keys are exactly the keys of the words |
| IndexBuilder.CreateIndex | Enitoolkit/Dictionaries/index_dict.py:4-12 | the loop, which creates a bucket on the first sight of a key and then appends the word, builds `Index(words)` with keys in `KeyOrder(words)` |
| IndexBuilder.AddWord | Enitoolkit/Dictionaries/index_dict.py:8-11 | one step of the loop: a new key gets an entry with its letter counts and the word; a known key gets the word appended |
| IndexBuilder.Index | Enitoolkit/Dictionaries/index_dict.py:6-11 | the index of a word list, its words added in order; `IndexMeaning` states what it holds |
| IndexBuilder.IndexMeaning | Enitoolkit/Dictionaries/index_dict.py:6-11 | there is a bucket for exactly the words' keys; each holds the counts of its key and, in input order, exactly the words with that key |
| IndexBuilder.WordCountKept | Enitoolkit/Dictionaries/index_dict.py:11 | a word occurs in its key's bucket as often as in the input, so duplicates are kept |
| IndexBuilder.IndexProperties | Enitoolkit/Dictionaries/index_dict.py:4-12 | every word is in its key's bucket; bucket words are permutations of the key; keys are sorted; buckets are non-empty; letters are the key's counts and add up to its length |
| IndexBuilder.TotalWords | Enitoolkit/Dictionaries/index_dict.py:6-11 | the buckets hold as many words in total as the input |
| IndexBuilder.ExportLoads | Enitoolkit/Dictionaries/DictionaryService.cs:98-108 | the service reads every entry of a built index, since none is `null`, and each entry's letter counts add up to its key's length |
| QueryExamples.ExampleLoadable | Enitoolkit/Dictionaries/DictionaryService.cs:98-108 | loading the two-entry example reads both entries, and the maximum key length is 3 |
| QueryExamples.QueryTame | Enitoolkit/Controllers/AnagramController.cs:26-40 | one `tame` query answers both lists' words, and leaves them in the `aet` entry's list |
| QueryExamples.AliasingWitness | Enitoolkit/Controllers/AnagramController.cs:105-110 | the same query twice gives `[ate, eat, tea, mat, tam]`, then `[ate, eat, tea, mat, tam, mat, tam]` |
| QueryExamples.CopyingWitness | Enitoolkit/Controllers/AnagramController.cs:105-110 | through the corrected endpoint, both queries give `[ate, eat, tea, mat, tam]` |

## Left out

- File reading and JSON decoding (`DictionaryService.cs:90-95`, `index_dict.py:14-18`):
  - the loader's input is the decoded entry sequence, or `None` when reading or decoding failed;
  - the builder's output is described by `Export` in file order.
- Logging calls: they have no effect on state.
- HTTP results: `Results.Ok`/`Results.Problem` become the three-way `Response`.
- Unicode behaviour of `Char.IsLetter` and culture-sensitive `ToLower`:
  - they are parameters, and `ToLower` is taken to map character by character;
  - the examples use an ASCII reading (`AsciiRules`).
- `null` values other than a `null` index entry are not modelled: a missing `key` query parameter, or `null` `letters`/`words` inside an entry.
- The DI singleton and the static fields of `DictionaryService`: one service object is modelled.
- Concurrent queries: each method runs alone. The source's unsynchronised in-place appends under concurrent requests are not modelled.
- 32-bit `int` overflow of counts, `wildcard_sum` and lengths: integers are unbounded, which no realistic dictionary reaches.
- The iteration order of the decoded JSON object is taken to be file order.
- The `HashSet` enumeration order of the wildcard test's intersection: the loop takes the letters in an unspecified order, because the sum does not depend on it.
- Dictionary.DictionaryService.LoadDictionary: the `catch` is modelled only for the two failures that can happen in the modelled part, an undecodable file and a `null` entry.

## Findings

| source | as written | input that shows it | evidently intended | confidence | as-written member | corrected member |
|---|---|---|---|---|---|---|
| Enitoolkit/Controllers/AnagramController.cs:107-110 | the first passing entry's own `Words` list becomes the bucket, and later passing entries of that length are `AddRange`d into it, so a query grows an index entry | index `{aet: [ate, eat, tea], amt: [mat, tam]}`, key `tame` twice: the first answer is `{3: [ate, eat, tea, mat, tam]}`, the second is `{3: [ate, eat, tea, mat, tam, mat, tam]}` | a bucket is a new list holding copies of the words; queries leave the index unchanged, and repeating a query repeats its answer | high (not executed); over HTTP the output cache (`Enitoolkit/Program.cs:39-47`, `:68`) answers a repeated identical URL from cache, so the growth shows through another key with the same letters, such as `mate` after `tame` | QueryExamples.AliasingWitness | Anagram.AnagramController.GetWithCopies |

The endpoints `Get` and `GetExact` are modelled as written, over the aliasing
`SolveAnagram`. `GetWithCopies` is the corrected endpoint: the same gate over
`SolveAnagramCopying`, whose loop `CopyBuckets` appends copies. It is proved
to answer the expected buckets of the unchanged index.
`QueryExamples.CopyingWitness` runs the input above through it.
