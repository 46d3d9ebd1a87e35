# NER vocabularies and the FIRE 2013 corpus converter, in Dafny

This project models two pieces of the stanza NER tooling and proves what they
promise.

**Vocabularies** (`stanza/models/ner/vocab.py`):

- The tag vocabulary (`TagVocab.build_vocab`) counts every tag of every word.
  Its `id2unit` is the reserved prefix followed by the observed tags, ranked
  by descending count. Ties keep first-seen order, because Counter keys are
  in insertion order and Python's sort is stable.
- The character vocabulary (`CharVocab.build_vocab`) counts `(w[0], tag)`
  pairs. For DataLoader data it drops the pairs counted fewer than `cutoff`
  times. It ranks the rest by `(count, pair)` with `reverse=True`, so ties go
  to the larger pair.
- Both builders set `unit2id` to the index table of `id2unit`.
- `MultiVocab.state_dict` saves each vocabulary's state under its name. It
  adds the reserved entry `_key2class`, which maps every name to its class
  name.
- `MultiVocab.load_state_dict` pops that entry and restores every other name
  through the registry of `CharVocab`, `PretrainedWordVocab` and `TagVocab`.
  The registry's `CharVocab` is the class defined in the same file, which
  shadows the imported one.

**FIRE 2013 converter** (`stanza/utils/datasets/ner/convert_fire_2013.py`):

- `normalize` validates the three nested entity labels of a token and
  collapses them into one label.
- `convert_fileset` strips every line and cuts each file at blank lines. It
  keeps the runs of two lines or more as sentences. It writes `word TAB label`
  for every line and a blank line after every sentence, and raises on the
  first bad line.
- `convert_fire_2013` splits the shuffled file list 80/10/10 into train, dev
  and test, and converts the three portions in turn.

The modules follow that structure:

- `Results`: Option, Result, and "stop at the first exception" as `Partial`.
- `Counting`: Counter counts, key order and index tables.
- `OrderedDicts`: insertion-ordered dicts as values.
- `Text`: Python's `strip()`.
- `Splitting`: `str.split(sep)`, `sep.join`, and block-wise writing.
- `NerVocab`: the two vocabulary classes.
- `NerMultiVocab`: the container and its save/restore.
- `Fire2013`: the converter.

Python exceptions become `Failure` values that carry the offending data. A
loop that raises after writing some lines becomes a `Partial`: the lines
written so far, plus the error.

## Model

| member | source | states |
|---|---|---|
| Counting.Count | stanza/models/ner/vocab.py:10-13 | a Counter's count of x is positive exactly when x was observed, and never exceeds the number of observations |
| Counting.Distinct | stanza/models/ner/vocab.py:14 | the Counter's keys: no duplicates, and exactly the observed values |
| Counting.DistinctKeepsFirstSeenOrder | stanza/models/ner/vocab.py:10-14 | Counter keys appear in order of first occurrence |
| Counting.IndexMap | stanza/models/ner/vocab.py:15 | `{w: i for i, w in enumerate(units)}`: its keys are exactly the units; each key maps to its last index; on a duplicate-free list, `unit2id[id2unit[i]] == i` |
| NerVocab.RankTags | stanza/models/ner/vocab.py:14 | the sorted Counter keys list every observed tag once, by descending count, ties in first-seen order |
| NerVocab.TagRankingUnique | stanza/models/ner/vocab.py:14 | that ordering determines the list uniquely, so the stable sort's result is the only one possible |
| NerVocab.TagVocabContents | stanza/models/ner/vocab.py:9-14 | id2unit has size \|prefix\| + number of distinct tags, and each observed tag is learned exactly once |
| NerVocab.TagVocabIndexInverse | stanza/models/ner/vocab.py:14-15 | `unit2id[id2unit[i]] == i` for every id if and only if no observed tag spells a reserved symbol |
| NerVocab.TagVocab.BuildVocab | stanza/models/ner/vocab.py:9-15 | the new id2unit is the prefix followed by the tag ranking of the data; unit2id is its index table |
| NerVocab.StringLessTotal | stanza/models/ner/vocab.py:60 | Python's string `<` relates any two distinct strings (with StringLessAsymmetric and StringLessTransitive, a strict total order) |
| NerVocab.CharBeforeStrictTotal | stanza/models/ner/vocab.py:60 | descending `(count, pair)` is a strict total order on pairs |
| NerVocab.CollectPairs | stanza/models/ner/vocab.py:44-48 | the nested loops build count_list: every `(w[0], tag)` pair of the corpus in reading order |
| NerVocab.DropRare | stanza/models/ner/vocab.py:50-52 | after the deletion loop, a key survives exactly when its count is at least cutoff |
| NerVocab.RankPairs | stanza/models/ner/vocab.py:60 | the sorted keys are duplicate-free, the same keys, and strictly descending by `(count, pair)` |
| NerVocab.CharRankingUnique | stanza/models/ner/vocab.py:60 | the character ranking is unique |
| NerVocab.CharVocabSize | stanza/models/ner/vocab.py:43-60 | one learned entry per surviving pair; when nothing survives, only the prefix remains |
| NerVocab.CharVocabIndexInverse | stanza/models/ner/vocab.py:60-61 | no learned pair equals a reserved string, so `unit2id[id2unit[i]] == i` for every id |
| NerVocab.CharVocab.BuildVocab | stanza/models/ner/vocab.py:42-61 | id2unit is the prefix, then every observed pair (DataLoader data: every pair counted at least cutoff times) once, strictly descending by `(count, pair)`; unit2id is its index table |
| OrderedDicts.Put | stanza/models/ner/vocab.py:23-25 | `d[k] = v`: the table gains or updates k, a new key goes last, an existing key keeps its place |
| OrderedDicts.Pop | stanza/models/ner/vocab.py:35 | `d.pop(k)`: k leaves both the table and the key order |
| OrderedDicts.PopAfterPut | stanza/models/ner/vocab.py:25-35 | popping a key that was just added gives the dict back |
| NerMultiVocab.ClassName | stanza/models/ner/vocab.py:24 | `type(v).__name__`, the name of a vocabulary's class; Registry's contract resolves exactly the three built-in names, each to the class bearing it |
| NerMultiVocab.Registry | stanza/models/ner/vocab.py:30-32 | exactly the three registered class names resolve, each to the class of that name |
| NerMultiVocab.StatesFor | stanza/models/ner/vocab.py:22-23 | the state entries, in name order, each the state of that name's vocabulary |
| NerMultiVocab.ClassesFor | stanza/models/ner/vocab.py:22-24 | the key2class table, in name order, each entry the class name of that name's vocabulary |
| NerMultiVocab.SavedState | stanza/models/ner/vocab.py:18-26 | one entry per name, then `_key2class` last, mapping every name to its class name; a vocabulary named `_key2class` is overwritten by the table |
| NerMultiVocab.LoadOne | stanza/models/ner/vocab.py:37-38 | restoring one name; its outcome is stated by LoadOneOutcome |
| NerMultiVocab.LoadOneOutcome | stanza/models/ner/vocab.py:37-38 | one name restores exactly when `_key2class` is a table recording a registered class for it and its entry is a vocabulary state; it is then that class with that state |
| NerMultiVocab.UnknownClassFails | stanza/models/ner/vocab.py:37-38 | a name whose recorded class the registry does not know fails with that class name |
| NerMultiVocab.LoadAll | stanza/models/ner/vocab.py:36-38 | the restore loop succeeds exactly when every name restores; it then holds the names in order, each restored as recorded |
| NerMultiVocab.LoadedVocabs | stanza/models/ner/vocab.py:29-39 | what `load_state_dict` builds; its outcome is stated by LoadedVocabsOutcome, OnlyClassMapLoadsEmpty and SaveLoadRoundTrip |
| NerMultiVocab.LoadedVocabsOutcome | stanza/models/ner/vocab.py:29-39 | loading succeeds exactly when `_key2class` is present, is a table recording a registered class for every other name, and every other entry is a vocabulary state; it then restores exactly the other names, in order, each with its recorded class and own state |
| NerMultiVocab.OnlyClassMapLoadsEmpty | stanza/models/ner/vocab.py:33-39 | a state holding only `_key2class` loads into an empty container, whatever that entry holds, because the loop looks no name up |
| NerMultiVocab.LoadAllFailsAt | stanza/models/ner/vocab.py:36-38 | one name that cannot be restored makes the whole load fail |
| NerMultiVocab.LoadAllFailurePersists | stanza/models/ner/vocab.py:36-38 | the first failing name decides the outcome of the whole load |
| NerMultiVocab.SaveLoadRoundTrip | stanza/models/ner/vocab.py:18-39 | loading a saved state gives the container back, with names, order, classes and states, when no name is `_key2class` and every class is registered |
| NerMultiVocab.UnregisteredClassFailsToLoad | stanza/models/ner/vocab.py:30-38 | a saved vocabulary whose class is not registered makes loading fail |
| NerMultiVocab.ReservedNameIsLost | stanza/models/ner/vocab.py:22-35 | a vocabulary named `_key2class` is not among the loaded names |
| NerMultiVocab.MultiVocab.SetItem | stanza/models/ner/vocab.py:38 | `new[k] = v` stores v under k in insertion order |
| NerMultiVocab.MultiVocab.StateDictOf | stanza/models/ner/vocab.py:18-26 | returns a fresh dict holding exactly SavedState of the container |
| NerMultiVocab.MultiVocab.SavedEntries | stanza/models/ner/vocab.py:20-25 | the loop over the vocabularies, then the `_key2class` store, produce exactly SavedState |
| NerMultiVocab.MultiVocab.LoadStateDict | stanza/models/ner/vocab.py:28-39 | the caller's dict loses `_key2class`; the result is a fresh container equal to LoadedVocabs of the old dict, or the same error |
| Results.MapUntilFailure | stanza/utils/datasets/ner/convert_fire_2013.py:65-71 | a loop that raises on its first bad item: the outputs of the items before it, and that item's error; no error exactly when every item converts |
| Text.Strip | stanza/utils/datasets/ner/convert_fire_2013.py:52 | `line.strip()`; what it removes is stated by StripTrims |
| Text.StripTrims | stanza/utils/datasets/ner/convert_fire_2013.py:52 | `strip()` leaves a contiguous piece of the line with only whitespace around it; the piece neither starts nor ends with whitespace, and it is empty exactly when the line is all whitespace |
| Splitting.Split | stanza/utils/datasets/ner/convert_fire_2013.py:66 | `split(sep)` has one more piece than there are separators, and no piece holds a separator |
| Splitting.JoinSplit | stanza/utils/datasets/ner/convert_fire_2013.py:66 | joining the pieces with the separator restores the input |
| Splitting.SplitJoin | stanza/utils/datasets/ner/convert_fire_2013.py:66 | splitting the join of separator-free pieces gives the pieces back |
| Splitting.MapBlocksUntilFailure | stanza/utils/datasets/ner/convert_fire_2013.py:64-72 | writing blocks stops with an error exactly when some block has a bad item, and the error is that block's |
| Splitting.BlocksSplitBack | stanza/utils/datasets/ner/convert_fire_2013.py:64-72 | when nothing fails and no output equals the separator, splitting the output at the separator gives each block's outputs back |
| Fire2013.Marker | stanza/utils/datasets/ner/convert_fire_2013.py:22 | `e[:2]` is the first two characters, or the whole label when shorter |
| Fire2013.Category | stanza/utils/datasets/ner/convert_fire_2013.py:29 | `e[2:]` is what follows the marker: marker + category == label |
| Fire2013.Normalize | stanza/utils/datasets/ner/convert_fire_2013.py:18-43 | `o` gives `O` whatever the inner labels are; the call fails exactly when the inner labels do not nest (the three error cases); a non-`O` result is e1 or e1's marker + `DATE/TIME`, keeps e1's 2-character marker, and has an output category |
| Fire2013.NormalizeRules | stanza/utils/datasets/ner/convert_fire_2013.py:29-43 | the rule table, category by category, for labels that nest; any other primary category, `DATE/TIME` itself included, becomes `O` |
| Fire2013.ConvertLine | stanza/utils/datasets/ner/convert_fire_2013.py:66-71 | a line converts exactly when it has 6 tab-separated pieces and its labels are consistent (all `o` under an `o`, nesting otherwise); a wrong piece count is reported as the number of pieces |
| Fire2013.ConvertLineColumns | stanza/utils/datasets/ner/convert_fire_2013.py:66-71 | a converted line has two tab-separated columns: the word and the normalized label |
| Fire2013.OutputSentenceBoundaries | stanza/utils/datasets/ner/convert_fire_2013.py:63-72 | a complete output, split at its blank lines, gives back each sentence's converted lines in order |
| Fire2013.WriteSentences | stanza/utils/datasets/ner/convert_fire_2013.py:63-72 | the nested write loops produce ConvertSentences: each sentence's lines then a blank line, stopping at the first bad line with what was already written |
| Fire2013.ConvertSentences | stanza/utils/datasets/ner/convert_fire_2013.py:63-72 | what the write loops produce; stated by OutputSentenceBoundaries and WriteSentences |
| Fire2013.LongRuns | stanza/utils/datasets/ner/convert_fire_2013.py:53-62 | the runs kept as sentences; stated by LongRunsMembers, LongRunsInOrder and LongRunsCount |
| Fire2013.LongRunsInOrder | stanza/utils/datasets/ner/convert_fire_2013.py:53-62 | the kept runs are the runs of two lines or more at strictly increasing positions, covering every such position: nothing is reordered and nothing else is dropped |
| Fire2013.LongRunsCount | stanza/utils/datasets/ner/convert_fire_2013.py:53-62 | a run of two lines or more is kept as often as it occurs; a shorter run never |
| Fire2013.LongRunsMembers | stanza/utils/datasets/ner/convert_fire_2013.py:55-62 | the kept runs are exactly the runs of two lines or more |
| Fire2013.FileSentences | stanza/utils/datasets/ner/convert_fire_2013.py:53-62 | the sentences of one file; stated by SentencesAreMaximalRuns |
| Fire2013.SentencesAreMaximalRuns | stanza/utils/datasets/ner/convert_fire_2013.py:48-62 | a file's sentences are its maximal runs of non-blank stripped lines: the runs rejoin into the stripped file and hold no blank line; exactly those of two or more lines are kept, in file order, each as often as it occurs |
| Fire2013.Scan | stanza/utils/datasets/ner/convert_fire_2013.py:50-60 | the reader's state after some stripped lines; stated by ScanMatchesSplit |
| Fire2013.ScanMatchesSplit | stanza/utils/datasets/ner/convert_fire_2013.py:50-60 | after any number of lines, the reader's closed sentences and open buffer agree with the split at blank lines |
| Fire2013.ReadFile | stanza/utils/datasets/ner/convert_fire_2013.py:49-62 | the per-file loop appends exactly FileSentences of that file, including the run still open at end of file |
| Fire2013.ReadSentences | stanza/utils/datasets/ner/convert_fire_2013.py:47-62 | the sentences of all files, file after file |
| Fire2013.ConvertFileset | stanza/utils/datasets/ner/convert_fire_2013.py:45-72 | what a file set writes: the conversion of all its sentences |
| Fire2013.TrainCutoff | stanza/utils/datasets/ner/convert_fire_2013.py:80 | `int(0.8 * n)`: the largest c with 10c <= 8n |
| Fire2013.DevCutoff | stanza/utils/datasets/ner/convert_fire_2013.py:81 | `int(0.9 * n)`: the largest c with 10c <= 9n |
| Fire2013.Cutoffs | stanza/utils/datasets/ner/convert_fire_2013.py:80-89 | the cut-offs are ordered, and all three portions are non-empty exactly when there are at least 6 files |
| Fire2013.SplitFiles | stanza/utils/datasets/ner/convert_fire_2013.py:80-89 | the portions exist exactly from 6 files on; they are consecutive slices at the two cut-offs, and their concatenation is the input |
| Fire2013.PortionsDisjoint | stanza/utils/datasets/ner/convert_fire_2013.py:83-85 | with no file listed twice, every file lands in exactly one portion |
| Fire2013.ConvertFire2013 | stanza/utils/datasets/ner/convert_fire_2013.py:74-93 | fewer than 6 files fail the assertions; otherwise train, dev and test are converted in that order, and a portion that raises stops the rest |

## Left out

- File and command-line I/O are not modelled: `glob`, `open`, the writes, and the argparse block at the end of the converter. A file is given as its sequence of lines. An output file is the sequence of lines written, without the newline characters.
- `sorted` and `random.shuffle`/`random.seed` are not modelled. The file list is taken in the order the shuffle leaves it, as an arbitrary sequence.
- `int(0.8 * n)` and `int(0.9 * n)` are modelled as `(8 * n) / 10` and `(9 * n) / 10`. This agrees with the floating-point values for the list sizes a corpus has; floating point itself is not modelled.
- The text of exception messages is not modelled. An error is a datatype value that carries the labels, the piece count or the name involved.
- BaseVocab, BaseMultiVocab, PretrainedWordVocab and VOCAB_PREFIX live in other files, which are not part of this model. The prefix is the constant `["<PAD>", "<UNK>", "<EMPTY>", "<ROOT>"]`. Each vocabulary's own `state_dict`/`load_state_dict` is an opaque payload that round-trips.
- `type(v).__name__` is a datatype tag. `OtherKind(name)` stands for any unregistered class.
- `type(self.data[0][0]) is list` is the `generalData` flag. CharVocab.BuildVocab requires a non-empty first sentence, because that line indexes it.
- TagVocab's `self.idx` indirection is fixed to the tag list of the word record. Counting goes over the first `len(w[1])` positions, that is, every tag.
- Counter internals are not modelled. A Counter is its keys in first-seen order (`Distinct`) plus the count function `Count` over the observations. `del counter[k]` drops k from the keys.
- Python's sort is replaced by an insertion sort. Its result is proved to be the unique sequence with the sorted order, so a stable sort gives the same list.
- NerMultiVocab.LoadOne: a `_key2class` entry that is not a name-to-class table fails with `ClassMapNotATable` at the first name looked up. Python instead indexes that object with the name, and what happens then depends on what the object holds; a state holding only `_key2class` loads empty in both.
- NerMultiVocab.LoadOne: a vocabulary entry that holds a name-to-class table fails with `EntryNotAVocab`. Python hands it to the registered class's own `load_state_dict`, which lives in other files and is not part of this model.
- CharVocab.BuildVocab returns the learned ranking as a ghost value for its contract; the Python method returns nothing.
- Fire2013.LongRuns: the function's own contract gives only the length bound. Which runs are kept, in what order and how often, is stated by LongRunsMembers, LongRunsInOrder and LongRunsCount.
