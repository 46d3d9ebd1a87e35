/**
 * Vocabulary construction for the NER tagger: the tag vocabulary and the
 * (character, tag) vocabulary. Each vocabulary is a symbol table whose
 * id space starts with the reserved prefix and continues with the learned
 * symbols, ranked by frequency.
 */
module NerVocab {
  import opened Counting

  /** The reserved symbols that open every vocabulary (VOCAB_PREFIX). */
  const VocabPrefix: seq<string> := ["<PAD>", "<UNK>", "<EMPTY>", "<ROOT>"]

  /** One word of a training sentence: its first field and its list of tags. */
  datatype WordRecord = WordRecord(head: string, tags: seq<string>)

  type Sentence = seq<WordRecord>

  // ---------------------------------------------------------------------
  // Tag vocabulary
  // ---------------------------------------------------------------------

  /** Every tag of every word of a sentence, in reading order. */
  function SentenceTags(sent: Sentence): seq<string>
  {
    if sent == [] then [] else SentenceTags(sent[..|sent| - 1]) + sent[|sent| - 1].tags
  }

  /** Every tag occurrence of the corpus, in reading order (the list given to Counter). */
  function TagOccurrences(data: seq<Sentence>): seq<string>
  {
    if data == [] then [] else TagOccurrences(data[..|data| - 1]) + SentenceTags(data[|data| - 1])
  }

  /**
   * Tag a is ranked before tag b: it is more frequent, or equally frequent
   * and seen first (a stable sort by descending count over Counter keys,
   * which are in first-seen order).
   */
  predicate TagBefore(occ: seq<string>, a: string, b: string)
  {
    Count(occ, a) > Count(occ, b)
    || (Count(occ, a) == Count(occ, b) && Position(occ, a) < Position(occ, b))
  }

  /** r lists every observed tag exactly once, in TagBefore order. */
  ghost predicate IsTagRanking(occ: seq<string>, r: seq<string>)
  {
    && NoDup(r)
    && (forall t :: t in r <==> t in occ)
    && (forall i, j :: 0 <= i < j < |r| ==> TagBefore(occ, r[i], r[j]))
  }

  /** `sorted(counter.keys(), key=lambda k: counter[k], reverse=True)`, as an insertion sort. */
  method RankTags(occ: seq<string>) returns (r: seq<string>)
    ensures IsTagRanking(occ, r)
  {
    var keys := Distinct(occ);
    r := [];
    for i := 0 to |keys|
      invariant NoDup(r)
      invariant forall t :: t in r <==> t in keys[..i]
      invariant forall a, b :: 0 <= a < b < |r| ==> TagBefore(occ, r[a], r[b])
    {
      var x := keys[i];
      var k := 0;
      while k < |r| && Count(occ, r[k]) >= Count(occ, x)
        invariant 0 <= k <= |r|
        invariant forall j :: 0 <= j < k ==> Count(occ, r[j]) >= Count(occ, x)
      {
        k := k + 1;
      }
      forall j | 0 <= j < k ensures TagBefore(occ, r[j], x) {
        var a := Position(keys, r[j]);
        assert r[j] in keys[..i];
        assert a < i;
        DistinctKeepsFirstSeenOrder(occ, a, i);
      }
      forall j | k <= j < |r| ensures TagBefore(occ, x, r[j]) {
        if j > k {
          assert TagBefore(occ, r[k], r[j]);
        }
      }
      InsertKeepsOrder(r, k, x, (a, b) => TagBefore(occ, a, b));
      assert keys[..i + 1] == keys[..i] + [x];
      assert x !in keys[..i];
      r := r[..k] + [x] + r[k..];
    }
    assert keys[..|keys|] == keys;
  }

  /** The ranking of the observed tags is unique, so building is deterministic. */
  lemma TagRankingUnique(occ: seq<string>, r1: seq<string>, r2: seq<string>)
    requires IsTagRanking(occ, r1) && IsTagRanking(occ, r2)
    ensures r1 == r2
  {
    RankingUnique(r1, r2, (a, b) => TagBefore(occ, a, b));
  }

  /**
   * A built tag vocabulary holds the prefix and then every distinct observed
   * tag exactly once, so its size is |prefix| + #distinct tags.
   */
  lemma TagVocabContents(occ: seq<string>, r: seq<string>)
    requires IsTagRanking(occ, r)
    ensures |VocabPrefix + r| == |VocabPrefix| + |set t | t in occ|
    ensures forall t :: t in occ ==> Count(r, t) == 1
  {
    NoDupCardinality(r);
    assert (set t | t in r) == (set t | t in occ);
    forall t | t in occ ensures Count(r, t) == 1 {
      NoDupCountOne(r, t);
    }
  }

  /**
   * `unit2id[id2unit[i]] == i` holds for every id exactly when no observed
   * tag spells one of the reserved symbols; otherwise the learned copy
   * overwrites the reserved symbol's entry in the dict comprehension.
   */
  lemma TagVocabIndexInverse(occ: seq<string>, r: seq<string>)
    requires IsTagRanking(occ, r)
    ensures (forall i :: 0 <= i < |VocabPrefix + r| ==> IndexMap(VocabPrefix + r)[(VocabPrefix + r)[i]] == i)
        <==> (forall t :: t in occ ==> t !in VocabPrefix)
  {
    var units := VocabPrefix + r;
    if forall t :: t in occ ==> t !in VocabPrefix {
      forall i, j | 0 <= i < j < |units| ensures units[i] != units[j] {
        if j >= |VocabPrefix| && i < |VocabPrefix| {
          assert units[j] in r;
        }
      }
    } else {
      var t :| t in occ && t in VocabPrefix;
      var a := Position(VocabPrefix, t);
      var b := Position(r, t);
      assert units[a] == t && units[|VocabPrefix| + b] == t;
      assert IndexMap(units)[units[a]] >= |VocabPrefix| + b;
    }
  }

  /** The tag vocabulary (TagVocab): ids for every output tag seen in training. */
  class TagVocab {
    const data: seq<Sentence>
    var id2unit: seq<string>
    var unit2id: map<string, nat>

    constructor (data: seq<Sentence>)
      ensures this.data == data && id2unit == [] && unit2id == map[]
    {
      this.data := data;
      id2unit := [];
      unit2id := map[];
    }

    /** Rebuilds both tables from the training data. */
    method BuildVocab()
      modifies this
      ensures |id2unit| >= |VocabPrefix| && id2unit[..|VocabPrefix|] == VocabPrefix
      ensures IsTagRanking(TagOccurrences(data), id2unit[|VocabPrefix|..])
      ensures unit2id == IndexMap(id2unit)
    {
      var learned := RankTags(TagOccurrences(data));
      id2unit := VocabPrefix + learned;
      unit2id := IndexMap(id2unit);
      assert id2unit[|VocabPrefix|..] == learned;
    }
  }

  // ---------------------------------------------------------------------
  // Character vocabulary
  // ---------------------------------------------------------------------

  /** The tuple `(w[0], tag)` counted by the character vocabulary. */
  datatype CharKey = CharKey(head: string, tag: string)

  /** An entry of the character vocabulary: a reserved string or a learned pair. */
  datatype CharUnit = Reserved(symbol: string) | Learned(key: CharKey)

  /** Python's `<` on strings: lexicographic by code point, a proper prefix first. */
  predicate StringLess(a: string, b: string)
  {
    if a == [] then b != []
    else if b == [] then false
    else a[0] < b[0] || (a[0] == b[0] && StringLess(a[1..], b[1..]))
  }

  /** Python's `<` on the tuple `(head, tag)`. */
  predicate KeyLess(p: CharKey, q: CharKey)
  {
    StringLess(p.head, q.head) || (p.head == q.head && StringLess(p.tag, q.tag))
  }

  lemma {:induction false} StringLessAsymmetric(a: string, b: string)
    ensures StringLess(a, b) ==> !StringLess(b, a)
  {
    if a != [] && b != [] && a[0] == b[0] {
      StringLessAsymmetric(a[1..], b[1..]);
    }
  }

  lemma {:induction false} StringLessTotal(a: string, b: string)
    ensures a == b || StringLess(a, b) || StringLess(b, a)
  {
    if a != [] && b != [] && a[0] == b[0] {
      StringLessTotal(a[1..], b[1..]);
      if a[1..] == b[1..] {
        assert a == [a[0]] + a[1..] && b == [b[0]] + b[1..];
      }
    }
  }

  lemma {:induction false} StringLessTransitive(a: string, b: string, c: string)
    requires StringLess(a, b) && StringLess(b, c)
    ensures StringLess(a, c)
  {
    if a != [] && a[0] == b[0] && b[0] == c[0] {
      StringLessTransitive(a[1..], b[1..], c[1..]);
    }
  }

  /** Pair p is ranked before pair q: `(count, pair)` is larger, i.e. sorted with reverse=True. */
  predicate CharBefore(occ: seq<CharKey>, p: CharKey, q: CharKey)
  {
    Count(occ, p) > Count(occ, q) || (Count(occ, p) == Count(occ, q) && KeyLess(q, p))
  }

  /** CharBefore is a strict total order on pairs. */
  lemma CharBeforeStrictTotal(occ: seq<CharKey>, p: CharKey, q: CharKey, s: CharKey)
    ensures CharBefore(occ, p, q) ==> !CharBefore(occ, q, p)
    ensures p != q ==> CharBefore(occ, p, q) || CharBefore(occ, q, p)
    ensures CharBefore(occ, p, q) && CharBefore(occ, q, s) ==> CharBefore(occ, p, s)
  {
    StringLessAsymmetric(p.head, q.head);
    StringLessAsymmetric(p.tag, q.tag);
    StringLessTotal(p.head, q.head);
    StringLessTotal(p.tag, q.tag);
    if StringLess(s.head, q.head) && StringLess(q.head, p.head) {
      StringLessTransitive(s.head, q.head, p.head);
    }
    if StringLess(s.tag, q.tag) && StringLess(q.tag, p.tag) {
      StringLessTransitive(s.tag, q.tag, p.tag);
    }
  }

  /** The `(w[0], tag)` pairs of the first n tags of one word. */
  function WordPairsUpTo(w: WordRecord, n: nat): seq<CharKey>
    requires n <= |w.tags|
  {
    if n == 0 then [] else WordPairsUpTo(w, n - 1) + [CharKey(w.head, w.tags[n - 1])]
  }

  /** The `(w[0], tag)` pairs of one word. */
  function WordPairs(w: WordRecord): seq<CharKey>
  {
    WordPairsUpTo(w, |w.tags|)
  }

  /** The pairs of the first n words of a sentence. */
  function SentencePairsUpTo(sent: Sentence, n: nat): seq<CharKey>
    requires n <= |sent|
  {
    if n == 0 then [] else SentencePairsUpTo(sent, n - 1) + WordPairs(sent[n - 1])
  }

  /** The pairs of the first n sentences of the corpus. */
  function PairOccurrencesUpTo(data: seq<Sentence>, n: nat): seq<CharKey>
    requires n <= |data|
  {
    if n == 0 then [] else PairOccurrencesUpTo(data, n - 1) + SentencePairsUpTo(data[n - 1], |data[n - 1]|)
  }

  /** Every `(w[0], tag)` occurrence of the corpus, in reading order (count_list). */
  function PairOccurrences(data: seq<Sentence>): seq<CharKey>
  {
    PairOccurrencesUpTo(data, |data|)
  }

  /** The nested loops that fill count_list. */
  method CollectPairs(data: seq<Sentence>) returns (countList: seq<CharKey>)
    ensures countList == PairOccurrences(data)
  {
    countList := [];
    for si := 0 to |data|
      invariant countList == PairOccurrencesUpTo(data, si)
    {
      var sent := data[si];
      ghost var beforeSent := countList;
      for wi := 0 to |sent|
        invariant countList == beforeSent + SentencePairsUpTo(sent, wi)
      {
        var w := sent[wi];
        ghost var beforeWord := countList;
        for ti := 0 to |w.tags|
          invariant countList == beforeWord + WordPairsUpTo(w, ti)
        {
          countList := countList + [CharKey(w.head, w.tags[ti])];
        }
      }
    }
  }

  /**
   * The loop that deletes every counter key whose count is below the cutoff;
   * the counter is its key sequence together with Count(occ, _).
   */
  method DropRare(occ: seq<CharKey>, keys: seq<CharKey>, cutoff: int) returns (kept: seq<CharKey>)
    requires NoDup(keys)
    ensures NoDup(kept)
    ensures forall p :: p in kept <==> p in keys && Count(occ, p) >= cutoff
  {
    kept := [];
    for i := 0 to |keys|
      invariant NoDup(kept)
      invariant forall p :: p in kept <==> p in keys[..i] && Count(occ, p) >= cutoff
    {
      assert keys[..i + 1] == keys[..i] + [keys[i]];
      if Count(occ, keys[i]) >= cutoff {
        assert keys[i] !in keys[..i];
        kept := kept + [keys[i]];
      }
    }
    assert keys[..|keys|] == keys;
  }

  /** `sorted(counter.keys(), key=lambda k: (counter[k], k), reverse=True)`, as an insertion sort. */
  method RankPairs(occ: seq<CharKey>, keys: seq<CharKey>) returns (r: seq<CharKey>)
    requires NoDup(keys)
    ensures NoDup(r)
    ensures forall p :: p in r <==> p in keys
    ensures forall i, j :: 0 <= i < j < |r| ==> CharBefore(occ, r[i], r[j])
  {
    r := [];
    for i := 0 to |keys|
      invariant NoDup(r)
      invariant forall p :: p in r <==> p in keys[..i]
      invariant forall a, b :: 0 <= a < b < |r| ==> CharBefore(occ, r[a], r[b])
    {
      var x := keys[i];
      var k := 0;
      while k < |r| && CharBefore(occ, r[k], x)
        invariant 0 <= k <= |r|
        invariant forall j :: 0 <= j < k ==> CharBefore(occ, r[j], x)
      {
        k := k + 1;
      }
      assert keys[..i + 1] == keys[..i] + [x];
      assert x !in keys[..i];
      forall j | k <= j < |r| ensures CharBefore(occ, x, r[j]) {
        CharBeforeStrictTotal(occ, x, r[k], r[j]);
        CharBeforeStrictTotal(occ, r[k], x, r[j]);
      }
      InsertKeepsOrder(r, k, x, (a, b) => CharBefore(occ, a, b));
      r := r[..k] + [x] + r[k..];
    }
    assert keys[..|keys|] == keys;
  }

  /** Pair p is kept: observed, and (for data-loader data) at least cutoff times. */
  predicate Survives(occ: seq<CharKey>, generalData: bool, cutoff: int, p: CharKey)
  {
    p in occ && (!generalData || Count(occ, p) >= cutoff)
  }

  /** r lists every surviving pair exactly once, by descending `(count, pair)`. */
  ghost predicate IsCharRanking(occ: seq<CharKey>, generalData: bool, cutoff: int, r: seq<CharKey>)
  {
    && NoDup(r)
    && (forall p :: p in r <==> Survives(occ, generalData, cutoff, p))
    && (forall i, j :: 0 <= i < j < |r| ==> CharBefore(occ, r[i], r[j]))
  }

  /** The ranking of the surviving pairs is unique, so building is deterministic. */
  lemma CharRankingUnique(occ: seq<CharKey>, generalData: bool, cutoff: int, r1: seq<CharKey>, r2: seq<CharKey>)
    requires IsCharRanking(occ, generalData, cutoff, r1) && IsCharRanking(occ, generalData, cutoff, r2)
    ensures r1 == r2
  {
    forall a, b | a in r1 && b in r1 && CharBefore(occ, a, b) ensures !CharBefore(occ, b, a) {
      CharBeforeStrictTotal(occ, a, b, a);
    }
    RankingUnique(r1, r2, (a, b) => CharBefore(occ, a, b));
  }

  /**
   * The learned part has one entry per surviving pair; when no pair
   * survives, the vocabulary is the reserved prefix alone.
   */
  lemma CharVocabSize(occ: seq<CharKey>, generalData: bool, cutoff: int, r: seq<CharKey>)
    requires IsCharRanking(occ, generalData, cutoff, r)
    ensures |r| == |set p | p in occ && Survives(occ, generalData, cutoff, p)|
    ensures (forall p :: p in occ ==> !Survives(occ, generalData, cutoff, p)) ==> r == []
  {
    NoDupCardinality(r);
    assert (set p | p in r) == (set p | p in occ && Survives(occ, generalData, cutoff, p));
  }

  /** The reserved prefix as character-vocabulary entries. */
  function ReservedUnits(prefix: seq<string>): seq<CharUnit>
  {
    seq(|prefix|, i requires 0 <= i < |prefix| => Reserved(prefix[i]))
  }

  /** The ranked pairs as character-vocabulary entries. */
  function LearnedUnits(ks: seq<CharKey>): seq<CharUnit>
  {
    seq(|ks|, i requires 0 <= i < |ks| => Learned(ks[i]))
  }

  /**
   * In a character vocabulary no learned pair can equal a reserved string,
   * so `unit2id[id2unit[i]] == i` for every id.
   */
  lemma CharVocabIndexInverse(r: seq<CharKey>)
    requires NoDup(r)
    ensures forall i :: 0 <= i < |VocabPrefix| + |r| ==>
      IndexMap(ReservedUnits(VocabPrefix) + LearnedUnits(r))[(ReservedUnits(VocabPrefix) + LearnedUnits(r))[i]] == i
  {
    var units := ReservedUnits(VocabPrefix) + LearnedUnits(r);
    forall i, j | 0 <= i < j < |units| ensures units[i] != units[j] {
      if j < |VocabPrefix| {
        assert VocabPrefix[i] != VocabPrefix[j];
      } else if i >= |VocabPrefix| {
        assert units[i] == Learned(r[i - |VocabPrefix|]) && units[j] == Learned(r[j - |VocabPrefix|]);
      }
    }
  }

  /** The character vocabulary (CharVocab of this file): ids for `(w[0], tag)` pairs. */
  class CharVocab {
    const data: seq<Sentence>
    const cutoff: int
    /** `type(data[0][0]) is list`: data from the DataLoader rather than the character LM. */
    const generalData: bool
    var id2unit: seq<CharUnit>
    var unit2id: map<CharUnit, nat>

    constructor (data: seq<Sentence>, cutoff: int, generalData: bool)
      ensures this.data == data && this.cutoff == cutoff && this.generalData == generalData
      ensures id2unit == [] && unit2id == map[]
    {
      this.data := data;
      this.cutoff := cutoff;
      this.generalData := generalData;
      id2unit := [];
      unit2id := map[];
    }

    /**
     * Rebuilds both tables: the prefix, then the surviving pairs by
     * descending `(count, pair)`. `learned` names the ranked pairs.
     */
    method BuildVocab() returns (ghost learned: seq<CharKey>)
      requires |data| > 0 && |data[0]| > 0
      modifies this
      ensures IsCharRanking(PairOccurrences(data), generalData, cutoff, learned)
      ensures id2unit == ReservedUnits(VocabPrefix) + LearnedUnits(learned)
      ensures unit2id == IndexMap(id2unit)
    {
      var countList := CollectPairs(data);
      var keys := Distinct(countList);
      if generalData {
        keys := DropRare(countList, keys, cutoff);
      }
      var ranked := RankPairs(countList, keys);
      id2unit := ReservedUnits(VocabPrefix) + LearnedUnits(ranked);
      unit2id := IndexMap(id2unit);
      learned := ranked;
    }
  }
}
