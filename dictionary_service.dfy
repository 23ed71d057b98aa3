/** The in-memory word index: the items converted from the decoded index
    file, the longest key length seen and the `loaded` flag, with the two
    length filters the matcher asks for its candidates. */
module Dictionary {
  import opened Wrappers

  /** A word list held by reference (`List<string>`): an item and a query
      result may share one, so appending through either is seen by both. */
  class WordList {
    var words: seq<string>
  }

  /** One index entry: the composition key, its length, the per-letter
      counts and the words sharing that composition. */
  datatype DictionaryItem = DictionaryItem(key: string, length: int, letters: map<char, int>, words: WordList)

  /** One decoded value of the index file: `{"letters": ..., "words": ...}`. */
  datatype ImportItem = ImportItem(letters: map<char, int>, words: seq<string>)

  /** One key/value pair of the decoded index file, in file order; a JSON
      `null` value decodes to `None`. */
  datatype ImportEntry = ImportEntry(key: string, value: Option<ImportItem>)

  /** The items of `s` satisfying `p`, in their order in `s` (LINQ `Where`). */
  function Where(s: seq<DictionaryItem>, p: DictionaryItem -> bool): (r: seq<DictionaryItem>)
    ensures |r| <= |s|
    ensures forall i :: 0 <= i < |r| ==> r[i] in s && p(r[i])
    ensures forall i :: 0 <= i < |s| && p(s[i]) ==> s[i] in r
  {
    if s == [] then []
    else Where(s[..|s| - 1], p) + if p(s[|s| - 1]) then [s[|s| - 1]] else []
  }

  /** Filtering a concatenation filters each part: the filter keeps order. */
  lemma {:induction false} WhereAppend(a: seq<DictionaryItem>, b: seq<DictionaryItem>, p: DictionaryItem -> bool)
    ensures Where(a + b, p) == Where(a, p) + Where(b, p)
    decreases |b|
  {
    if b == [] {
      assert a + b == a;
    } else {
      var b', y := b[..|b| - 1], b[|b| - 1];
      assert (a + b)[..|a + b| - 1] == a + b';
      WhereAppend(a, b', p);
    }
  }

  /** A filter every item passes returns the whole list. */
  lemma {:induction false} WhereAll(s: seq<DictionaryItem>, p: DictionaryItem -> bool)
    ensures (forall x :: x in s ==> p(x)) ==> Where(s, p) == s
  {
    if s != [] && forall x :: x in s ==> p(x) {
      var s' := s[..|s| - 1];
      forall x | x in s' ensures p(x) {
        var j :| 0 <= j < |s'| && s'[j] == x;
        assert s[j] == x;
      }
      WhereAll(s', p);
      assert p(s[|s| - 1]);
    }
  }

  /** No two items of `s` share a word list. */
  ghost predicate DistinctLists(s: seq<DictionaryItem>)
  {
    forall j, k :: 0 <= j < k < |s| ==> s[j].words != s[k].words
  }

  /** Filtering keeps word lists distinct. */
  lemma {:induction false} WhereDistinct(s: seq<DictionaryItem>, p: DictionaryItem -> bool)
    requires DistinctLists(s)
    ensures DistinctLists(Where(s, p))
  {
    if s != [] {
      var s', y := s[..|s| - 1], s[|s| - 1];
      WhereDistinct(s', p);
      var r' := Where(s', p);
      forall j | 0 <= j < |r'| ensures r'[j].words != y.words {
        assert r'[j] in s';
        var i :| 0 <= i < |s'| && s'[i] == r'[j];
        assert s[i] == s'[i];
      }
    }
  }

  /** The index invariant over a stored list and its recorded maximum. */
  ghost predicate WellFormed(items: seq<DictionaryItem>, maxKeyLength: int)
  {
    && 0 <= maxKeyLength
    && (forall i :: 0 <= i < |items| ==> items[i].length == |items[i].key| <= maxKeyLength)
    && DistinctLists(items)
  }

  /** Appending an item with its own word list and raising the maximum to
      its length keeps the invariant. */
  lemma AppendKeepsWellFormed(items: seq<DictionaryItem>, m: int, item: DictionaryItem)
    requires WellFormed(items, m)
    requires item.length == |item.key|
    requires forall j :: 0 <= j < |items| ==> items[j].words != item.words
    ensures WellFormed(items + [item], if m >= item.length then m else item.length)
  {
  }

  /** `x` is the item the conversion loop builds from `e`: same key, length
      the key's length, the imported letters and words. */
  ghost predicate Converted(e: ImportEntry, x: DictionaryItem)
  {
    && e.value.Some?
    && x.key == e.key && x.length == |e.key|
    && x.letters == e.value.value.letters
  }

  /** `added` are the items converted from `es`, one by one. */
  ghost predicate ConvertedAll(es: seq<ImportEntry>, added: seq<DictionaryItem>)
  {
    |added| == |es| && forall j :: 0 <= j < |es| ==> Converted(es[j], added[j])
  }

  /** The word lists of a sequence of entries. */
  ghost function ListsOf(s: seq<DictionaryItem>): set<WordList>
  {
    set x | x in s :: x.words
  }

  /** The word lists of `added` hold the imported words of `es`. */
  ghost predicate WordsImported(es: seq<ImportEntry>, added: seq<DictionaryItem>)
    requires ConvertedAll(es, added)
    reads ListsOf(added)
  {
    forall j :: 0 <= j < |es| ==> added[j].words.words == es[j].value.value.words
  }

  lemma ImportedAppend(es: seq<ImportEntry>, added: seq<DictionaryItem>, e: ImportEntry, x: DictionaryItem)
    requires ConvertedAll(es, added) && WordsImported(es, added)
    requires Converted(e, x) && x.words.words == e.value.value.words
    ensures ConvertedAll(es + [e], added + [x]) && WordsImported(es + [e], added + [x])
  {
  }

  /** The conversion loop's state after `i` entries: the list is the
      original one plus the items converted so far, still well formed, and
      `longest` is the running maximum. */
  ghost predicate ConvertedUpTo(entries: seq<ImportEntry>, i: nat, items0: seq<DictionaryItem>, max0: int,
                                list: seq<DictionaryItem>, longest: int, added: seq<DictionaryItem>)
    reads ListsOf(added)
  {
    && i <= |entries|
    && (forall j :: 0 <= j < i ==> entries[j].value.Some?)
    && list == items0 + added
    && WellFormed(list, longest)
    && ConvertedAll(entries[..i], added) && WordsImported(entries[..i], added)
    && longest == RunningMax(max0, entries[..i])
  }

  /** One turn of the conversion loop keeps its state description. */
  lemma ConvertStep(entries: seq<ImportEntry>, i: nat, items0: seq<DictionaryItem>, max0: int,
                    list: seq<DictionaryItem>, longest: int, added: seq<DictionaryItem>, item: DictionaryItem)
    requires ConvertedUpTo(entries, i, items0, max0, list, longest, added)
    requires i < |entries| && Converted(entries[i], item) && item.words.words == entries[i].value.value.words
    requires forall j :: 0 <= j < |list| ==> list[j].words != item.words
    ensures ConvertedUpTo(entries, i + 1, items0, max0, list + [item],
                          if longest >= |entries[i].key| then longest else |entries[i].key|, added + [item])
  {
    AppendKeepsWellFormed(list, longest, item);
    ImportedAppend(entries[..i], added, entries[i], item);
    assert entries[..i + 1] == entries[..i] + [entries[i]];
  }

  /** When the loop ends, the items it added are those of the loadable
      prefix. */
  lemma ConvertDone(entries: seq<ImportEntry>, i: nat, items0: seq<DictionaryItem>, max0: int,
                    list: seq<DictionaryItem>, longest: int, added: seq<DictionaryItem>)
    requires ConvertedUpTo(entries, i, items0, max0, list, longest, added)
    requires i == |entries| || entries[i].value.None?
    ensures WellFormed(list, longest)
    ensures |list| == |items0| + |Loadable(Some(entries))| && list[..|items0|] == items0
    ensures ConvertedAll(Loadable(Some(entries)), list[|items0|..])
    ensures WordsImported(Loadable(Some(entries)), list[|items0|..])
    ensures longest == RunningMax(max0, Loadable(Some(entries)))
  {
    LoadableStops(entries, i);
    assert list[|items0|..] == added;
  }

  /** Builds the item for one decoded entry, with a word list of its own. */
  method Convert(e: ImportEntry) returns (x: DictionaryItem)
    requires e.value.Some?
    ensures Converted(e, x) && x.words.words == e.value.value.words && fresh(x.words)
  {
    var words := new WordList;
    words.words := e.value.value.words;
    x := DictionaryItem(e.key, |e.key|, e.value.value.letters, words);
  }

  /** Running maximum of the key lengths of `es`, starting from `m`. */
  function RunningMax(m: int, es: seq<ImportEntry>): int
  {
    if es == [] then m
    else
      var prev := RunningMax(m, es[..|es| - 1]);
      var len := |es[|es| - 1].key|;
      if prev >= len then prev else len
  }

  /** The running maximum bounds the start and every key length. */
  lemma {:induction false} RunningMaxBounds(m: int, es: seq<ImportEntry>)
    ensures m <= RunningMax(m, es)
    ensures forall j :: 0 <= j < |es| ==> |es[j].key| <= RunningMax(m, es)
  {
    if es != [] {
      var es' := es[..|es| - 1];
      RunningMaxBounds(m, es');
      assert forall j :: 0 <= j < |es'| ==> es'[j] == es[j];
    }
  }

  /** The running maximum is the start or one of the key lengths. */
  lemma {:induction false} RunningMaxAttained(m: int, es: seq<ImportEntry>)
    ensures RunningMax(m, es) == m || exists j :: 0 <= j < |es| && RunningMax(m, es) == |es[j].key|
  {
    if es != [] {
      var es' := es[..|es| - 1];
      RunningMaxAttained(m, es');
      if RunningMax(m, es) != |es[|es| - 1].key| && RunningMax(m, es') != m {
        var j :| 0 <= j < |es'| && RunningMax(m, es') == |es'[j].key|;
        assert es'[j] == es[j];
      }
    }
  }

  /** The entries the conversion loop gets through: all of them, or those
      before the first `null` value (whose dereference throws); none when
      reading or decoding the file failed. */
  function Loadable(source: Option<seq<ImportEntry>>): (es: seq<ImportEntry>)
    ensures source.None? ==> es == []
    ensures source.Some? ==> es <= source.value
    ensures forall j :: 0 <= j < |es| ==> es[j].value.Some?
    ensures source.Some? && |es| < |source.value| ==> source.value[|es|].value.None?
  {
    match source
    case None => []
    case Some(all) => all[..FirstNull(all, 0)]
  }

  /** Where the conversion loop stops is where the loadable prefix ends. */
  lemma LoadableStops(entries: seq<ImportEntry>, i: nat)
    requires i <= |entries|
    requires forall j :: 0 <= j < i ==> entries[j].value.Some?
    requires i == |entries| || entries[i].value.None?
    ensures Loadable(Some(entries)) == entries[..i]
  {
  }

  /** The index of the first `null` value at or after `i`, or `|es|`. */
  function FirstNull(es: seq<ImportEntry>, i: nat): (n: nat)
    requires i <= |es|
    ensures i <= n <= |es|
    ensures forall j :: i <= j < n ==> es[j].value.Some?
    ensures n < |es| ==> es[n].value.None?
    decreases |es| - i
  {
    if i == |es| || es[i].value.None? then i else FirstNull(es, i + 1)
  }

  /** The index service: the stored items, the longest key length and
      whether loading has run. */
  class DictionaryService {
    var items: seq<DictionaryItem>
    var maxKeyLength: int
    var loaded: bool

    /** Every stored item's length is its key's length and is bounded by
        `maxKeyLength`; no two items share a word list. */
    ghost predicate Valid()
      reads this
    {
      WellFormed(items, maxKeyLength)
    }

    /** The word lists of the stored items: the only heap state a query
        can reach. */
    ghost function Lists(): set<WordList>
      reads this
    {
      ListsOf(items)
    }

    constructor ()
      ensures Valid()
      ensures items == [] && maxKeyLength == 0 && !loaded
    {
      items := [];
      maxKeyLength := 0;
      loaded := false;
    }

    /** The stored list itself; under the invariant no item in it is longer
        than the recorded maximum, which is what lets `Get` return it
        unfiltered. */
    function GetAll(): (r: seq<DictionaryItem>)
      reads this
      ensures Valid() ==> forall i :: 0 <= i < |r| ==> r[i] in items && r[i].length <= maxKeyLength
      ensures Valid() ==> forall i :: 0 <= i < |items| ==> items[i] in r
    {
      items
    }

    /** The items no longer than `maxLen`, in stored order; when `maxLen`
        reaches the longest key the whole list is returned unfiltered,
        which is the same list because no item is longer. */
    function Get(maxLen: int): (r: seq<DictionaryItem>)
      reads this
      ensures Valid() ==> r == Where(items, (x: DictionaryItem) => x.length <= maxLen)
    {
      if maxLen >= maxKeyLength then
        WhereAll(items, (x: DictionaryItem) => x.length <= maxLen); GetAll()
      else
        Where(items, (x: DictionaryItem) => x.length <= maxLen)
    }

    /** Exactly the items of length `exactLen`, in stored order. */
    function GetExact(exactLen: int): (r: seq<DictionaryItem>)
      reads this
      ensures forall i :: 0 <= i < |r| ==> r[i] in items && r[i].length == exactLen
      ensures forall i :: 0 <= i < |items| && items[i].length == exactLen ==> items[i] in r
      ensures r == Where(items, (x: DictionaryItem) => x.length == exactLen)
    {
      Where(items, (x: DictionaryItem) => x.length == exactLen)
    }

    /** Imports the decoded index file: converts the entries and marks the
        service loaded, whether the import got through every entry, stopped
        part-way, or never started because reading or decoding failed. */
    method LoadDictionary(source: Option<seq<ImportEntry>>)
      requires Valid()
      modifies this
      ensures Valid() && loaded
      ensures |items| == |old(items)| + |Loadable(source)| && items[..|old(items)|] == old(items)
      ensures ConvertedAll(Loadable(source), items[|old(items)|..])
      ensures WordsImported(Loadable(source), items[|old(items)|..])
      ensures maxKeyLength == RunningMax(old(maxKeyLength), Loadable(source))
      ensures forall j :: |old(items)| <= j < |items| ==> fresh(items[j].words)
    {
      if source.Some? {
        ConvertItems(source.value);
      }
      loaded := true;
    }

    /** The conversion loop: appends one item per entry, in entry order, and
        raises `maxKeyLength`; a `null` value throws, which ends the loop
        with the items added so far kept. */
    method ConvertItems(entries: seq<ImportEntry>)
      requires Valid()
      modifies this`items, this`maxKeyLength
      ensures Valid()
      ensures |items| == |old(items)| + |Loadable(Some(entries))|
      ensures items[..|old(items)|] == old(items)
      ensures ConvertedAll(Loadable(Some(entries)), items[|old(items)|..])
      ensures WordsImported(Loadable(Some(entries)), items[|old(items)|..])
      ensures maxKeyLength == RunningMax(old(maxKeyLength), Loadable(Some(entries)))
      ensures forall j :: |old(items)| <= j < |items| ==> fresh(items[j].words)
    {
      var list, longest := items, maxKeyLength;
      ghost var added: seq<DictionaryItem> := [];
      var i := 0;
      while i < |entries|
        invariant ConvertedUpTo(entries, i, old(items), old(maxKeyLength), list, longest, added)
        invariant forall j :: 0 <= j < |added| ==> fresh(added[j].words)
        modifies {}
      {
        if entries[i].value.None? {
          break;
        }
        var item := Convert(entries[i]);
        ConvertStep(entries, i, old(items), old(maxKeyLength), list, longest, added, item);
        list := list + [item];
        added := added + [item];
        longest := if longest >= |entries[i].key| then longest else |entries[i].key|;
        i := i + 1;
      }
      ghost var items0, max0 := old(items), old(maxKeyLength);
      assert WellFormed(list, longest)
          && |list| == |items0| + |Loadable(Some(entries))| && list[..|items0|] == items0
          && ConvertedAll(Loadable(Some(entries)), list[|items0|..])
          && WordsImported(Loadable(Some(entries)), list[|items0|..])
          && longest == RunningMax(max0, Loadable(Some(entries)))
          && list[|items0|..] == added by {
        ConvertDone(entries, i, items0, max0, list, longest, added);
        assert list[|items0|..] == added;
      }
      items, maxKeyLength := list, longest;
    }
  }
}
