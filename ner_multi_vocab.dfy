/**
 * The container of named vocabularies (MultiVocab) and its save/restore:
 * the saved state holds each vocabulary's own state under its name plus a
 * reserved entry mapping every name to the vocabulary's class name; loading
 * dispatches on that class name through a fixed registry.
 */
module NerMultiVocab {
  import opened Results
  import opened Counting
  import opened OrderedDicts

  /** The reserved state key that holds the name-to-class table. */
  const ClassMapKey: string := "_key2class"

  /**
   * The class of a stored vocabulary. The three registered classes have a
   * constructor each; any other vocabulary class is known only by its name.
   */
  datatype VocabKind = CharVocabKind | PretrainedWordVocabKind | TagVocabKind | OtherKind(className: string)

  /** `type(v).__name__`. */
  function ClassName(kind: VocabKind): string
  {
    match kind
    case CharVocabKind => "CharVocab"
    case PretrainedWordVocabKind => "PretrainedWordVocab"
    case TagVocabKind => "TagVocab"
    case OtherKind(name) => name
  }

  /** The registry `class_dict`: the classes a saved state can be restored into. */
  function Registry(className: string): (r: Option<VocabKind>)
    ensures r.Some? <==> className in ["CharVocab", "PretrainedWordVocab", "TagVocab"]
    ensures r.Some? ==> !r.value.OtherKind? && ClassName(r.value) == className
  {
    if className == "CharVocab" then Some(CharVocabKind)
    else if className == "PretrainedWordVocab" then Some(PretrainedWordVocabKind)
    else if className == "TagVocab" then Some(TagVocabKind)
    else None
  }

  /** The serialised state of one vocabulary, produced and consumed by the vocabulary's own class. */
  type Payload = seq<string>

  /** A stored vocabulary: its class and the state its class saves and restores. */
  datatype Vocab = Vocab(kind: VocabKind, payload: Payload)

  /** A value in a saved state: one vocabulary's state, or the name-to-class table. */
  datatype Entry = VocabState(payload: Payload) | ClassTable(classes: ODict<string>)

  datatype LoadError =
    | MissingClassMap                 // the assertion of line 34
    | ClassMapNotATable               // key2class[k] on a '_key2class' entry that is not a table
    | MissingClassName(name: string)  // key2class[k] raises KeyError
    | UnknownClass(className: string) // class_dict[classname] raises KeyError
    | EntryNotAVocab(name: string)    // a vocabulary entry that holds a class table

  /** The vocabulary states of the given names, stored in that order. */
  function StatesFor(vocabs: ODict<Vocab>, names: seq<string>): (d: ODict<Entry>)
    requires NoDup(names) && forall k :: k in names ==> k in vocabs.entries
    ensures d.Valid() && d.keys == names
    ensures forall k :: k in names ==> d.entries[k] == VocabState(vocabs.entries[k].payload)
  {
    if names == [] then ODict([], map[])
    else
      var init := names[..|names| - 1];
      assert names == init + [names[|names| - 1]];
      Put(StatesFor(vocabs, init), names[|names| - 1], VocabState(vocabs.entries[names[|names| - 1]].payload))
  }

  /** The class names of the given names' vocabularies, stored in that order. */
  function ClassesFor(vocabs: ODict<Vocab>, names: seq<string>): (d: ODict<string>)
    requires NoDup(names) && forall k :: k in names ==> k in vocabs.entries
    ensures d.Valid() && d.keys == names
    ensures forall k :: k in names ==> d.entries[k] == ClassName(vocabs.entries[k].kind)
  {
    if names == [] then ODict([], map[])
    else
      var init := names[..|names| - 1];
      assert names == init + [names[|names| - 1]];
      Put(ClassesFor(vocabs, init), names[|names| - 1], ClassName(vocabs.entries[names[|names| - 1]].kind))
  }

  /** The given names' vocabularies, stored in that order. */
  function VocabsFor(vocabs: ODict<Vocab>, names: seq<string>): (d: ODict<Vocab>)
    requires NoDup(names) && forall k :: k in names ==> k in vocabs.entries
    ensures d.Valid() && d.keys == names
    ensures forall k :: k in names ==> d.entries[k] == vocabs.entries[k]
  {
    if names == [] then ODict([], map[])
    else
      var init := names[..|names| - 1];
      assert names == init + [names[|names| - 1]];
      Put(VocabsFor(vocabs, init), names[|names| - 1], vocabs.entries[names[|names| - 1]])
  }

  /**
   * What `state_dict` returns: every vocabulary's state under its name, in
   * order, then the class table under the reserved key. A vocabulary that
   * is itself named `_key2class` has its state overwritten by the table.
   */
  function SavedState(vocabs: ODict<Vocab>): (st: ODict<Entry>)
    requires vocabs.Valid()
    ensures st.Valid()
    ensures ClassMapKey !in vocabs.entries ==> st.keys == vocabs.keys + [ClassMapKey]
    ensures ClassMapKey in vocabs.entries ==> st.keys == vocabs.keys
    ensures forall k :: k in vocabs.entries && k != ClassMapKey ==> st.entries[k] == VocabState(vocabs.entries[k].payload)
    ensures st.entries[ClassMapKey].ClassTable?
    ensures forall k :: k in vocabs.entries ==>
      k in st.entries[ClassMapKey].classes.entries && st.entries[ClassMapKey].classes.entries[k] == ClassName(vocabs.entries[k].kind)
  {
    Put(StatesFor(vocabs, vocabs.keys), ClassMapKey, ClassTable(ClassesFor(vocabs, vocabs.keys)))
  }

  /**
   * Restoring the vocabulary stored under `name` with the class that the
   * popped `_key2class` entry, `table`, records for it.
   */
  function LoadOne(st: ODict<Entry>, table: Entry, name: string): Result<Vocab, LoadError>
    requires name in st.entries
  {
    if table.VocabState? then Failure(ClassMapNotATable)
    else if name !in table.classes.entries then Failure(MissingClassName(name))
    else
      match Registry(table.classes.entries[name])
      case None => Failure(UnknownClass(table.classes.entries[name]))
      case Some(kind) =>
        match st.entries[name]
        case ClassTable(_) => Failure(EntryNotAVocab(name))
        case VocabState(p) => Success(Vocab(kind, p))
  }

  /** Restoring `names` in order into a new container; the first failure aborts. */
  function LoadAll(st: ODict<Entry>, table: Entry, names: seq<string>): (r: Result<ODict<Vocab>, LoadError>)
    requires NoDup(names)
    requires forall k :: k in names ==> k in st.entries
    ensures r.Success? <==> forall k :: k in names ==> LoadOne(st, table, k).Success?
    ensures r.Success? ==> r.value.Valid() && r.value.keys == names
    ensures r.Success? ==> forall k :: k in names ==> LoadOne(st, table, k) == Success(r.value.entries[k])
  {
    if names == [] then Success(ODict([], map[]))
    else
      var init := names[..|names| - 1];
      var k := names[|names| - 1];
      assert names == init + [k];
      match LoadAll(st, table, init)
      case Failure(e) => Failure(e)
      case Success(d) =>
        match LoadOne(st, table, k)
        case Failure(e) => Failure(e)
        case Success(v) => Success(Put(d, k, v))
  }

  /** What `load_state_dict` builds from a saved state. */
  function LoadedVocabs(st: ODict<Entry>): Result<ODict<Vocab>, LoadError>
    requires st.Valid()
  {
    if ClassMapKey !in st.entries then Failure(MissingClassMap)
    else
      var rest := Pop(st, ClassMapKey);
      LoadAll(rest, st.entries[ClassMapKey], rest.keys)
  }

  /**
   * When loading succeeds: exactly when `_key2class` is present and every
   * other name is a vocabulary state whose class the table records and the
   * registry knows. The result holds the other names, in order, each
   * restored with that class and its own state.
   */
  lemma LoadedVocabsOutcome(st: ODict<Entry>)
    requires st.Valid()
    ensures LoadedVocabs(st).Success? <==>
              && ClassMapKey in st.entries
              && forall k :: k in st.entries && k != ClassMapKey ==>
                   && st.entries[ClassMapKey].ClassTable?
                   && k in st.entries[ClassMapKey].classes.entries
                   && Registry(st.entries[ClassMapKey].classes.entries[k]).Some?
                   && st.entries[k].VocabState?
    ensures LoadedVocabs(st).Success? ==>
              var d := LoadedVocabs(st).value;
              && d.keys == Remove(st.keys, ClassMapKey)
              && forall k :: k in d.entries ==>
                   && st.entries[ClassMapKey].ClassTable?
                   && k in st.entries[ClassMapKey].classes.entries
                   && Registry(st.entries[ClassMapKey].classes.entries[k]).Some?
                   && st.entries[k].VocabState?
                   && d.entries[k] == Vocab(Registry(st.entries[ClassMapKey].classes.entries[k]).value, st.entries[k].payload)
  {
    if ClassMapKey in st.entries {
      var rest := Pop(st, ClassMapKey);
      var table := st.entries[ClassMapKey];
      assert forall k :: k in rest.keys <==> k in st.entries && k != ClassMapKey;
      forall k | k in rest.keys
        ensures
          && (LoadOne(rest, table, k).Success? <==>
                table.ClassTable? && k in table.classes.entries && Registry(table.classes.entries[k]).Some? && st.entries[k].VocabState?)
          && (LoadOne(rest, table, k).Success? ==>
                LoadOne(rest, table, k).value == Vocab(Registry(table.classes.entries[k]).value, st.entries[k].payload))
      {
        LoadOneOutcome(rest, table, k);
      }
    }
  }

  /** One name restores exactly when the table records a registered class for it and it holds a vocabulary state. */
  lemma LoadOneOutcome(st: ODict<Entry>, table: Entry, k: string)
    requires k in st.entries
    ensures
      && (LoadOne(st, table, k).Success? <==>
            table.ClassTable? && k in table.classes.entries && Registry(table.classes.entries[k]).Some? && st.entries[k].VocabState?)
      && (LoadOne(st, table, k).Success? ==>
            LoadOne(st, table, k).value == Vocab(Registry(table.classes.entries[k]).value, st.entries[k].payload))
  {
  }

  /**
   * A saved state holding nothing but `_key2class` loads into an empty
   * container, whatever that entry holds: the loop never looks a name up.
   */
  lemma OnlyClassMapLoadsEmpty(st: ODict<Entry>)
    requires st.Valid() && st.keys == [ClassMapKey]
    ensures LoadedVocabs(st) == Success(ODict([], map[]))
  {
    assert Remove(st.keys, ClassMapKey) == [];
  }

  /** A failure while restoring a prefix of the names is the failure of the whole load. */
  lemma {:induction false} LoadAllFailurePersists(st: ODict<Entry>, table: Entry, names: seq<string>, n: nat)
    requires NoDup(names) && n <= |names|
    requires forall k :: k in names ==> k in st.entries
    requires NoDup(names[..n]) && LoadAll(st, table, names[..n]).Failure?
    ensures LoadAll(st, table, names) == LoadAll(st, table, names[..n])
  {
    if n < |names| {
      var init := names[..|names| - 1];
      assert init[..n] == names[..n];
      assert NoDup(init);
      LoadAllFailurePersists(st, table, init, n);
    } else {
      assert names[..n] == names;
    }
  }

  /** A vocabulary state whose class the table records and the registry knows is restored with that class. */
  lemma LoadOneRecorded(st: ODict<Entry>, classes: ODict<string>, k: string, v: Vocab)
    requires k in st.entries && k in classes.entries && !v.kind.OtherKind?
    requires st.entries[k] == VocabState(v.payload) && classes.entries[k] == ClassName(v.kind)
    ensures LoadOne(st, ClassTable(classes), k) == Success(v)
  {
  }

  /** Restoring some saved names gives back exactly those vocabularies. */
  lemma {:induction false} LoadSavedNames(vocabs: ODict<Vocab>, names: seq<string>)
    requires vocabs.Valid() && ClassMapKey !in vocabs.entries
    requires forall k :: k in vocabs.entries ==> !vocabs.entries[k].kind.OtherKind?
    requires NoDup(names) && forall k :: k in names ==> k in vocabs.entries
    ensures LoadAll(StatesFor(vocabs, vocabs.keys), ClassTable(ClassesFor(vocabs, vocabs.keys)), names) == Success(VocabsFor(vocabs, names))
  {
    if names != [] {
      var init := names[..|names| - 1];
      var k := names[|names| - 1];
      assert names == init + [k];
      LoadSavedNames(vocabs, init);
      LoadOneRecorded(StatesFor(vocabs, vocabs.keys), ClassesFor(vocabs, vocabs.keys), k, vocabs.entries[k]);
    }
  }

  /** Restoring all saved names gives back the container. */
  lemma LoadSavedAll(vocabs: ODict<Vocab>)
    requires vocabs.Valid() && ClassMapKey !in vocabs.entries
    requires forall k :: k in vocabs.entries ==> !vocabs.entries[k].kind.OtherKind?
    ensures LoadAll(StatesFor(vocabs, vocabs.keys), ClassTable(ClassesFor(vocabs, vocabs.keys)), vocabs.keys) == Success(vocabs)
  {
    LoadSavedNames(vocabs, vocabs.keys);
    var back := VocabsFor(vocabs, vocabs.keys);
    assert back.entries == vocabs.entries;
  }

  /**
   * Round trip: loading a saved state restores exactly the stored names, in
   * order, each with its class and state, provided no vocabulary uses the
   * reserved name and every class is one the registry knows.
   */
  lemma SaveLoadRoundTrip(vocabs: ODict<Vocab>)
    requires vocabs.Valid()
    requires ClassMapKey !in vocabs.entries
    requires forall k :: k in vocabs.entries ==> !vocabs.entries[k].kind.OtherKind?
    ensures LoadedVocabs(SavedState(vocabs)) == Success(vocabs)
  {
    var states := StatesFor(vocabs, vocabs.keys);
    var classes := ClassesFor(vocabs, vocabs.keys);
    var st := SavedState(vocabs);
    assert st == Put(states, ClassMapKey, ClassTable(classes));
    PopAfterPut(states, ClassMapKey, ClassTable(classes));
    LoadSavedAll(vocabs);
  }

  /** Loading a state whose class table was appended last restores the entries before it. */
  lemma LoadedAfterPut(states: ODict<Entry>, table: Entry)
    requires states.Valid() && ClassMapKey !in states.entries
    ensures LoadedVocabs(Put(states, ClassMapKey, table)) == LoadAll(states, table, states.keys)
  {
    PopAfterPut(states, ClassMapKey, table);
  }

  /** A name whose recorded class the registry does not know cannot be restored. */
  lemma UnknownClassFails(st: ODict<Entry>, classes: ODict<string>, name: string)
    requires name in st.entries && name in classes.entries && Registry(classes.entries[name]).None?
    ensures LoadOne(st, ClassTable(classes), name) == Failure(UnknownClass(classes.entries[name]))
  {
  }

  /** One name that cannot be restored makes the whole load fail. */
  lemma LoadAllFailsAt(st: ODict<Entry>, table: Entry, names: seq<string>, name: string)
    requires NoDup(names) && forall k :: k in names ==> k in st.entries
    requires name in names && LoadOne(st, table, name).Failure?
    ensures LoadAll(st, table, names).Failure?
  {
  }

  /**
   * A saved state whose class table names a class outside the registry
   * cannot be loaded.
   */
  lemma UnregisteredClassFailsToLoad(vocabs: ODict<Vocab>, name: string)
    requires vocabs.Valid() && ClassMapKey !in vocabs.entries
    requires name in vocabs.entries && Registry(ClassName(vocabs.entries[name].kind)).None?
    ensures LoadedVocabs(SavedState(vocabs)).Failure?
  {
    var states := StatesFor(vocabs, vocabs.keys);
    var table := ClassTable(ClassesFor(vocabs, vocabs.keys));
    assert SavedState(vocabs) == Put(states, ClassMapKey, table);
    LoadedAfterPut(states, table);
    UnknownClassFails(states, table.classes, name);
    LoadAllFailsAt(states, table, states.keys, name);
  }

  /**
   * A vocabulary named `_key2class` does not survive a save and load: its
   * state is replaced by the class table, which loading removes.
   */
  lemma ReservedNameIsLost(vocabs: ODict<Vocab>)
    requires vocabs.Valid() && ClassMapKey in vocabs.entries
    ensures LoadedVocabs(SavedState(vocabs)).Success? ==> ClassMapKey !in LoadedVocabs(SavedState(vocabs)).value.entries
  {
  }

  /** One more name saved: the prefix of the state grows by that name's entry. */
  lemma StatesStep(vocabs: ODict<Vocab>, i: nat)
    requires vocabs.Valid() && i < |vocabs.keys|
    ensures NoDup(vocabs.keys[..i]) && NoDup(vocabs.keys[..i + 1])
    ensures vocabs.keys[i] !in vocabs.keys[..i]
    ensures StatesFor(vocabs, vocabs.keys[..i + 1])
         == Put(StatesFor(vocabs, vocabs.keys[..i]), vocabs.keys[i], VocabState(vocabs.entries[vocabs.keys[i]].payload))
  {
    NoDupPrefix(vocabs.keys, i);
    assert vocabs.keys[..i + 1][..i] == vocabs.keys[..i];
  }

  /** One more name saved: the prefix of the class table grows by that name's class. */
  lemma ClassesStep(vocabs: ODict<Vocab>, i: nat)
    requires vocabs.Valid() && i < |vocabs.keys|
    ensures NoDup(vocabs.keys[..i]) && NoDup(vocabs.keys[..i + 1])
    ensures vocabs.keys[i] !in vocabs.keys[..i]
    ensures ClassesFor(vocabs, vocabs.keys[..i + 1])
         == Put(ClassesFor(vocabs, vocabs.keys[..i]), vocabs.keys[i], ClassName(vocabs.entries[vocabs.keys[i]].kind))
  {
    NoDupPrefix(vocabs.keys, i);
    assert vocabs.keys[..i + 1][..i] == vocabs.keys[..i];
  }

  /** One more name restored: a failure stays, a success grows by that name's vocabulary. */
  lemma LoadStep(st: ODict<Entry>, table: Entry, names: seq<string>, i: nat)
    requires NoDup(names) && i < |names|
    requires forall k :: k in names ==> k in st.entries
    ensures NoDup(names[..i]) && NoDup(names[..i + 1]) && names[i] !in names[..i]
    ensures LoadAll(st, table, names[..i]).Success? && LoadOne(st, table, names[i]).Success? ==>
      LoadAll(st, table, names[..i + 1])
        == Success(Put(LoadAll(st, table, names[..i]).value, names[i], LoadOne(st, table, names[i]).value))
    ensures LoadAll(st, table, names[..i]).Success? && LoadOne(st, table, names[i]).Failure? ==>
      LoadAll(st, table, names[..i + 1]) == Failure(LoadOne(st, table, names[i]).error)
  {
    NoDupPrefix(names, i);
    assert names[..i + 1][..i] == names[..i];
  }

  /** The saved state, held by reference: `load_state_dict` pops from the caller's dict. */
  class StateDict {
    var dict: ODict<Entry>

    ghost predicate Valid()
      reads this
    {
      dict.Valid()
    }

    constructor ()
      ensures Valid() && dict == ODict([], map[])
    {
      dict := ODict([], map[]);
    }
  }

  /** A container of named vocabularies (MultiVocab). */
  class MultiVocab {
    var vocabs: ODict<Vocab>

    ghost predicate Valid()
      reads this
    {
      vocabs.Valid()
    }

    constructor ()
      ensures Valid() && vocabs == ODict([], map[])
    {
      vocabs := ODict([], map[]);
    }

    /** `self[name] = v`: adds a vocabulary or replaces the one of that name. */
    method SetItem(name: string, v: Vocab)
      requires Valid()
      modifies this
      ensures Valid() && vocabs == Put(old(vocabs), name, v)
    {
      vocabs := Put(vocabs, name, v);
    }

    /** `state_dict`: each vocabulary's state by name, plus the name-to-class table. */
    method StateDictOf() returns (state: StateDict)
      requires Valid()
      ensures fresh(state) && state.Valid()
      ensures state.dict == SavedState(vocabs)
    {
      var entries := SavedEntries(vocabs);
      state := new StateDict();
      state.dict := entries;
    }

    /** The loop of `state_dict`: collects the states and the class table name by name. */
    static method SavedEntries(vs: ODict<Vocab>) returns (entries: ODict<Entry>)
      requires vs.Valid()
      ensures entries == SavedState(vs)
    {
      var names := vs.keys;
      entries := ODict([], map[]);
      var key2class: ODict<string> := ODict([], map[]);
      for i := 0 to |names|
        invariant entries == StatesFor(vs, names[..i])
        invariant key2class == ClassesFor(vs, names[..i])
      {
        var k := names[i];
        StatesStep(vs, i);
        ClassesStep(vs, i);
        entries := Put(entries, k, VocabState(vs.entries[k].payload));
        key2class := Put(key2class, k, ClassName(vs.entries[k].kind));
      }
      assert names[..|names|] == names;
      entries := Put(entries, ClassMapKey, ClassTable(key2class));
    }

    /**
     * `load_state_dict`: restores a container from a saved state. The
     * reserved entry is popped from the caller's state before the
     * vocabularies are restored, so it is gone even when a later step fails.
     */
    static method LoadStateDict(state: StateDict) returns (r: Result<MultiVocab, LoadError>)
      requires state.Valid()
      modifies state
      ensures state.Valid()
      ensures ClassMapKey in old(state.dict.entries) ==> state.dict == Pop(old(state.dict), ClassMapKey)
      ensures ClassMapKey !in old(state.dict.entries) ==> state.dict == old(state.dict)
      ensures r.Success? <==> LoadedVocabs(old(state.dict)).Success?
      ensures r.Success? ==> fresh(r.value) && r.value.Valid() && r.value.vocabs == LoadedVocabs(old(state.dict)).value
      ensures r.Failure? ==> r.error == LoadedVocabs(old(state.dict)).error
    {
      var restored := new MultiVocab();
      if ClassMapKey !in state.dict.entries {
        return Failure(MissingClassMap);
      }
      var key2class := state.dict.entries[ClassMapKey];
      state.dict := Pop(state.dict, ClassMapKey);
      var names := state.dict.keys;
      for i := 0 to |names|
        invariant state.dict == Pop(old(state.dict), ClassMapKey)
        invariant restored.Valid() && fresh(restored)
        invariant NoDup(names[..i])
        invariant LoadAll(state.dict, key2class, names[..i]) == Success(restored.vocabs)
      {
        var k := names[i];
        LoadStep(state.dict, key2class, names, i);
        if key2class.VocabState? {
          LoadAllFailurePersists(state.dict, key2class, names, i + 1);
          return Failure(ClassMapNotATable);
        }
        var classes := key2class.classes;
        if k !in classes.entries {
          LoadAllFailurePersists(state.dict, key2class, names, i + 1);
          return Failure(MissingClassName(k));
        }
        var className := classes.entries[k];
        var kind := Registry(className);
        if kind.None? {
          LoadAllFailurePersists(state.dict, key2class, names, i + 1);
          return Failure(UnknownClass(className));
        }
        var entry := state.dict.entries[k];
        if entry.ClassTable? {
          LoadAllFailurePersists(state.dict, key2class, names, i + 1);
          return Failure(EntryNotAVocab(k));
        }
        restored.SetItem(k, Vocab(kind.value, entry.payload));
      }
      assert names[..|names|] == names;
      return Success(restored);
    }
  }
}
