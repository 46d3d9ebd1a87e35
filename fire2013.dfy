/**
 * Conversion of the FIRE 2013 named-entity corpus into a two-column
 * token/label TSV file, and the split of the corpus files into training,
 * development and test portions.
 *
 * A corpus line has six tab-separated columns: the word, its part-of-speech
 * tag, its chunk tag and three nested entity labels (primary, secondary,
 * tertiary).  Only the word and one label derived from the three entity
 * labels are kept.
 */
module Fire2013 {
  import opened Results
  import opened Counting
  import opened Splitting
  import opened Text

  /** The corpus writes "o" for a token outside any entity. */
  const Outside: string := "o"

  /** The label written for a token outside any entity. */
  const OutsideTag: string := "O"

  /** `label[:2]`: the position marker in front of the category, such as "B-". */
  function Marker(e: string): (m: string)
    ensures |m| == if |e| < 2 then |e| else 2
    ensures m == e[..|m|]
  {
    if |e| < 2 then e else e[..2]
  }

  /** `label[2:]`: the entity category after the marker (empty for a short label). */
  function Category(e: string): (c: string)
    ensures Marker(e) + c == e
  {
    if |e| < 2 then [] else e[2..]
  }

  /** Primary categories that are kept whatever the inner layers say. */
  const AlwaysKept: set<string> := {"ORGANIZATION", "ENTERTAINMENT", "FACILITIES"}

  /** Primary categories that all become the single category DATE/TIME. */
  const DateCategories: set<string> := {"DATE", "TIME", "YEAR", "MONTH"}

  const DateTime: string := "DATE/TIME"

  /** Every category the converted corpus can contain. */
  const OutputCategories: set<string> :=
    AlwaysKept + {"DISEASE", "PLANTS", "PERSON", "LOCATION", DateTime}

  /** Why a token's three entity labels are rejected. */
  datatype LabelError =
    | ConflictingPositions(primary: string, secondary: string)
    | TertiaryWithoutSecondary(primary: string, secondary: string, tertiary: string)
    | ConflictingPositions3(primary: string, secondary: string, tertiary: string)

  /**
   * The nesting a labelled token's layers must respect: a secondary label
   * has the primary's marker, and a tertiary label needs a secondary label
   * and has the primary's marker too.
   */
  predicate Nested(e1: string, e2: string, e3: string)
  {
    (e2 == Outside || Marker(e2) == Marker(e1))
    && (e3 == Outside || (e2 != Outside && Marker(e3) == Marker(e1)))
  }

  /**
   * `normalize(e1, e2, e3)`: the single label kept for a token whose
   * primary, secondary and tertiary entity labels are e1, e2 and e3.
   */
  function Normalize(e1: string, e2: string, e3: string): (r: Result<string, LabelError>)
    ensures e1 == Outside ==> r == Success(OutsideTag)
    ensures r.Success? <==> e1 == Outside || Nested(e1, e2, e3)
    ensures r.Success? && e1 != Outside ==>
              r.value == OutsideTag || r.value == e1 || r.value == Marker(e1) + DateTime
    ensures r.Success? && r.value != OutsideTag ==>
              |Marker(e1)| == 2 && Marker(r.value) == Marker(e1)
              && Category(r.value) in OutputCategories
    ensures r.Failure? && r.error.ConflictingPositions3? ==>
              Marker(e2) == Marker(e1) && Marker(e3) != Marker(e1)
  {
    if e1 == Outside then Success(OutsideTag)
    else if e2 != Outside && Marker(e1) != Marker(e2) then
      Failure(ConflictingPositions(e1, e2))
    else if e3 != Outside && e2 == Outside then
      Failure(TertiaryWithoutSecondary(e1, e2, e3))
    else if e3 != Outside && (Marker(e1) != Marker(e2) || Marker(e1) != Marker(e3)) then
      Failure(ConflictingPositions3(e1, e2, e3))
    else
      var c := Category(e1);
      if c in AlwaysKept then Success(e1)
      else if c == "DISEASE" && e2 == Outside then Success(e1)
      else if c == "PLANTS" && Category(e2) != "PARTS" then Success(e1)
      else if c == "PERSON" && Category(e2) == "INDIVIDUAL" then Success(e1)
      else if c == "LOCATION"
              && (Category(e2) == "PLACE"
                  || (Category(e2) == "ADDRESS" && Category(e3) == "STNAME")) then
        Success(e1)
      else if c in DateCategories then
        var t := Marker(e1) + DateTime;
        assert Marker(t) == Marker(e1) && Category(t) == DateTime by {
          assert t[..2] == Marker(e1) && t[2..] == DateTime;
        }
        Success(t)
      else Success(OutsideTag)
  }

  /** The category rules, one primary category at a time, for labels that nest. */
  lemma NormalizeRules(e1: string, e2: string, e3: string)
    requires e1 != Outside && Nested(e1, e2, e3)
    ensures Category(e1) in AlwaysKept ==> Normalize(e1, e2, e3) == Success(e1)
    ensures Category(e1) == "DISEASE" ==>
              Normalize(e1, e2, e3) == Success(if e2 == Outside then e1 else OutsideTag)
    ensures Category(e1) == "PLANTS" ==>
              Normalize(e1, e2, e3) == Success(if Category(e2) != "PARTS" then e1 else OutsideTag)
    ensures Category(e1) == "PERSON" ==>
              Normalize(e1, e2, e3) == Success(if Category(e2) == "INDIVIDUAL" then e1 else OutsideTag)
    ensures Category(e1) == "LOCATION" ==>
              Normalize(e1, e2, e3)
              == Success(if Category(e2) == "PLACE"
                            || (Category(e2) == "ADDRESS" && Category(e3) == "STNAME")
                         then e1 else OutsideTag)
    ensures Category(e1) in DateCategories ==>
              Normalize(e1, e2, e3) == Success(Marker(e1) + DateTime)
    ensures Category(e1) !in AlwaysKept + {"DISEASE", "PLANTS", "PERSON", "LOCATION"} + DateCategories ==>
              Normalize(e1, e2, e3) == Success(OutsideTag)
  {
  }

  /** A converted label never holds a tab when the primary label holds none. */
  lemma NormalizeTabFree(e1: string, e2: string, e3: string)
    requires '\t' !in e1
    requires Normalize(e1, e2, e3).Success?
    ensures '\t' !in Normalize(e1, e2, e3).value
  {
    var t := Normalize(e1, e2, e3).value;
    if t == Marker(e1) + DateTime {
      assert Marker(e1) == e1[..|Marker(e1)|];
      assert forall i :: 0 <= i < |Marker(e1)| ==> Marker(e1)[i] == e1[i];
    }
  }

  /**
   * The three entity layers of a token are consistent: all outside, or a
   * labelled primary with nesting inner layers.
   */
  predicate WellNested(e1: string, e2: string, e3: string)
  {
    if e1 == Outside then e2 == Outside && e3 == Outside else Nested(e1, e2, e3)
  }

  /** Why a corpus line is rejected. */
  datatype LineError =
    | WrongPieceCount(count: nat)
    | InnerLabelUnderOutside
    | BadLabels(labels: LabelError)

  /**
   * One corpus line (already stripped) converted to the output line
   * "word TAB label".
   */
  function ConvertLine(line: string): (r: Result<string, LineError>)
    ensures var ps := Split(line, '\t');
            r.Success? <==> |ps| == 6 && WellNested(ps[3], ps[4], ps[5])
    ensures var ps := Split(line, '\t');
            |ps| != 6 ==> r == Failure(WrongPieceCount(Count(line, '\t') + 1))
  {
    var ps := Split(line, '\t');
    if |ps| != 6 then Failure(WrongPieceCount(|ps|))
    else if ps[3] == Outside && (ps[4] != Outside || ps[5] != Outside) then
      Failure(InnerLabelUnderOutside)
    else
      match Normalize(ps[3], ps[4], ps[5])
      case Failure(e) => Failure(BadLabels(e))
      case Success(tag) => Success(ps[0] + ['\t'] + tag)
  }

  /**
   * A converted line has exactly two tab-separated columns: the word and
   * the normalized label.
   */
  lemma ConvertLineColumns(line: string)
    requires ConvertLine(line).Success?
    ensures var ps := Split(line, '\t');
            Split(ConvertLine(line).value, '\t') == [ps[0], Normalize(ps[3], ps[4], ps[5]).value]
  {
    var ps := Split(line, '\t');
    var tag := Normalize(ps[3], ps[4], ps[5]).value;
    NormalizeTabFree(ps[3], ps[4], ps[5]);
    SplitNoSeparator(ps[0], '\t');
    SplitAppend(ps[0], '\t', tag);
  }

  /** A converted line is never blank: it has two columns. */
  lemma ConvertedLineNotBlank(line: string)
    requires ConvertLine(line).Success?
    ensures ConvertLine(line).value != ""
  {
    var v := ConvertLine(line).value;
    ConvertLineColumns(line);
    assert Count(v, '\t') == 1;
  }

  /**
   * What a conversion writes: the output lines, and the error that stopped
   * it if one did (the lines written before the error stay in the file).
   */
  type Written = Partial<string, LineError>

  /** The output lines of one sentence's lines, up to the first bad line. */
  function ConvertLines(lines: seq<string>): Written
  {
    MapUntilFailure(ConvertLine, lines)
  }

  /**
   * The output lines of a list of sentences: each sentence's lines followed
   * by a blank line, stopping at the first bad line.
   */
  function ConvertSentences(ss: seq<seq<string>>): Written
  {
    MapBlocksUntilFailure(ConvertLine, ss, "")
  }

  /**
   * A complete output file reads back, split at its blank lines, into the
   * converted sentences in order (and the empty remainder after the final
   * blank line): sentence boundaries survive conversion.
   */
  lemma OutputSentenceBoundaries(ss: seq<seq<string>>)
    requires ConvertSentences(ss).error.None?
    ensures Split(ConvertSentences(ss).done, "") == BlockOutputs(ConvertLine, ss) + [[]]
  {
    forall line | ConvertLine(line).Success? ensures ConvertLine(line).value != "" {
      ConvertedLineNotBlank(line);
    }
    BlocksSplitBack(ConvertLine, ss, "");
  }

  /**
   * Writes the sentences one line at a time, a blank line after each
   * sentence, raising on the first bad line.
   */
  method WriteSentences(ss: seq<seq<string>>) returns (written: Written)
    ensures written == ConvertSentences(ss)
  {
    var out: seq<string> := [];
    for i := 0 to |ss|
      invariant MapBlocksUntilFailure(ConvertLine, ss[..i], "") == Partial(out, None)
    {
      var sentence := ss[i];
      ghost var before := out;
      MapBlocksStep(ConvertLine, ss, "", i);
      for j := 0 to |sentence|
        invariant MapUntilFailure(ConvertLine, sentence[..j]).error.None?
        invariant out == before + MapUntilFailure(ConvertLine, sentence[..j]).done
      {
        var r := ConvertLine(sentence[j]);
        if r.Failure? {
          MapBlocksFailure(ConvertLine, ss, "", i, j);
          return Partial(out, Some(r.error));
        }
        MapUntilFailureStep(ConvertLine, sentence, j);
        out := out + [r.value];
      }
      assert sentence[..|sentence|] == sentence;
      out := out + [""];
    }
    assert ss[..|ss|] == ss;
    written := Partial(out, None);
  }

  /** Every line of a file with its surrounding whitespace removed. */
  function StripAll(lines: seq<string>): seq<string>
  {
    seq(|lines|, i requires 0 <= i < |lines| => Strip(lines[i]))
  }

  /** The runs holding two lines or more, in order; shorter runs are dropped. */
  function LongRuns(gs: seq<seq<string>>): (r: seq<seq<string>>)
    ensures |r| <= |gs|
  {
    if gs == [] then []
    else
      var g := gs[|gs| - 1];
      assert gs == gs[..|gs| - 1] + [g];
      LongRuns(gs[..|gs| - 1]) + (if |g| >= 2 then [g] else [])
  }

  /** The kept runs are exactly the runs of two lines or more. */
  lemma {:induction false} LongRunsMembers(gs: seq<seq<string>>)
    ensures forall g :: g in LongRuns(gs) <==> g in gs && |g| >= 2
  {
    if gs != [] {
      var init := gs[..|gs| - 1];
      assert gs == init + [gs[|gs| - 1]];
      LongRunsMembers(init);
    }
  }

  lemma LongRunsAppend(gs: seq<seq<string>>, g: seq<string>)
    ensures LongRuns(gs + [g]) == LongRuns(gs) + (if |g| >= 2 then [g] else [])
  {
    assert (gs + [g])[..|gs|] == gs;
  }

  /** The positions of the runs of two lines or more, in increasing order. */
  function LongRunIndices(gs: seq<seq<string>>): seq<nat>
  {
    if gs == [] then []
    else
      var n := |gs| - 1;
      LongRunIndices(gs[..n]) + (if |gs[n]| >= 2 then [n] else [])
  }

  /**
   * r is gs with the short runs dropped and nothing else changed: r[k] is
   * the run at position idx[k] of gs, the positions increase, and they are
   * exactly the positions of the runs of two lines or more.
   */
  predicate KeptInOrder(gs: seq<seq<string>>, r: seq<seq<string>>, idx: seq<nat>)
  {
    && |idx| == |r|
    && (forall k :: 0 <= k < |idx| ==> idx[k] < |gs| && r[k] == gs[idx[k]])
    && (forall k, l :: 0 <= k < l < |idx| ==> idx[k] < idx[l])
    && (forall j :: 0 <= j < |gs| ==> (j in idx <==> |gs[j]| >= 2))
  }

  /** The kept runs keep their order: LongRuns is gs filtered on length. */
  lemma {:induction false} LongRunsInOrder(gs: seq<seq<string>>)
    ensures KeptInOrder(gs, LongRuns(gs), LongRunIndices(gs))
  {
    if gs != [] {
      var n := |gs| - 1;
      var init := gs[..n];
      var g := gs[n];
      assert gs == init + [g];
      LongRunsInOrder(init);
      var ri := LongRuns(init);
      var ii := LongRunIndices(init);
      assert forall k :: 0 <= k < |ii| ==> ii[k] < n && ri[k] == gs[ii[k]];
      assert forall j :: 0 <= j < n ==> gs[j] == init[j];
      if |g| >= 2 {
        assert LongRuns(gs) == ri + [g] && LongRunIndices(gs) == ii + [n];
        assert forall j :: j in ii + [n] <==> j in ii || j == n;
      } else {
        assert LongRuns(gs) == ri && LongRunIndices(gs) == ii;
        assert n !in ii;
      }
    }
  }

  /** Each run of two lines or more is kept as often as it occurs; the others not at all. */
  lemma {:induction false} LongRunsCount(gs: seq<seq<string>>)
    ensures forall g :: Count(LongRuns(gs), g) == if |g| >= 2 then Count(gs, g) else 0
  {
    if gs != [] {
      var n := |gs| - 1;
      var init := gs[..n];
      var last := gs[n];
      assert gs == init + [last];
      LongRunsCount(init);
      var ri := LongRuns(init);
      if |last| >= 2 {
        assert LongRuns(gs) == ri + [last];
        forall g ensures Count(LongRuns(gs), g) == if |g| >= 2 then Count(gs, g) else 0 {
          CountAppend(init, last, g);
          CountAppend(ri, last, g);
        }
      } else {
        assert LongRuns(gs) == ri;
        forall g ensures Count(LongRuns(gs), g) == if |g| >= 2 then Count(gs, g) else 0 {
          CountAppend(init, last, g);
        }
      }
    }
  }

  /**
   * The sentences of one file: its lines stripped, cut at the blank lines,
   * keeping the runs of two or more lines.
   */
  function FileSentences(lines: seq<string>): seq<seq<string>>
  {
    LongRuns(Split(StripAll(lines), ""))
  }

  /** The sentences of all files, file after file. */
  function AllSentences(files: seq<seq<string>>): seq<seq<string>>
  {
    if files == [] then []
    else AllSentences(files[..|files| - 1]) + FileSentences(files[|files| - 1])
  }

  lemma AllSentencesStep(files: seq<seq<string>>, f: nat)
    requires f < |files|
    ensures AllSentences(files[..f + 1]) == AllSentences(files[..f]) + FileSentences(files[f])
  {
    assert files[..f + 1][..f] == files[..f];
  }

  /**
   * The sentences of a file are its maximal runs of non-blank stripped
   * lines: the runs hold no blank line, joined at blank lines they give the
   * stripped file back, and exactly the runs of two or more lines are kept,
   * in file order, each as often as it occurs.
   */
  lemma SentencesAreMaximalRuns(lines: seq<string>)
    ensures var runs := Split(StripAll(lines), "");
            && Join(runs, "") == StripAll(lines)
            && (forall i :: 0 <= i < |runs| ==> "" !in runs[i])
            && KeptInOrder(runs, FileSentences(lines), LongRunIndices(runs))
            && (forall s :: Count(FileSentences(lines), s) == if |s| >= 2 then Count(runs, s) else 0)
  {
    JoinSplit(StripAll(lines), "");
    LongRunsInOrder(Split(StripAll(lines), ""));
    LongRunsCount(Split(StripAll(lines), ""));
  }

  /**
   * Where a reader stands after some stripped lines: the long runs already
   * ended by a blank line, and the run still open.
   */
  datatype RunState = RunState(closed: seq<seq<string>>, open: seq<string>)

  /** The reader's state after the stripped lines, one line at a time. */
  function Scan(stripped: seq<string>): RunState
  {
    if stripped == [] then RunState([], [])
    else
      var st := Scan(stripped[..|stripped| - 1]);
      var line := stripped[|stripped| - 1];
      if line == "" then
        RunState(st.closed + (if |st.open| >= 2 then [st.open] else []), [])
      else
        RunState(st.closed, st.open + [line])
  }

  /**
   * The reader's state agrees with the split at blank lines: the closed
   * runs are the long runs before the last piece, the open run is the last
   * piece.
   */
  lemma {:induction false} ScanMatchesSplit(stripped: seq<string>)
    ensures var gs := Split(stripped, "");
            Scan(stripped) == RunState(LongRuns(gs[..|gs| - 1]), gs[|gs| - 1])
  {
    if stripped != [] {
      var init := stripped[..|stripped| - 1];
      var line := stripped[|stripped| - 1];
      assert stripped == init + [line];
      ScanMatchesSplit(init);
      var gs := Split(init, "");
      assert gs == gs[..|gs| - 1] + [gs[|gs| - 1]];
      if line == "" {
        LongRunsAppend(gs[..|gs| - 1], gs[|gs| - 1]);
        assert (gs + [[]])[..|gs|] == gs;
      } else {
        var gs' := gs[..|gs| - 1] + [gs[|gs| - 1] + [line]];
        assert gs'[..|gs'| - 1] == gs[..|gs| - 1];
      }
    }
  }

  /** At the end of a file the open run is kept when long. */
  lemma SegmentEnd(stripped: seq<string>)
    ensures var st := Scan(stripped);
            LongRuns(Split(stripped, "")) == st.closed + (if |st.open| >= 2 then [st.open] else [])
  {
    ScanMatchesSplit(stripped);
    var gs := Split(stripped, "");
    assert gs == gs[..|gs| - 1] + [gs[|gs| - 1]];
    LongRunsAppend(gs[..|gs| - 1], gs[|gs| - 1]);
  }

  lemma ScanStep(stripped: seq<string>, j: nat)
    requires j < |stripped|
    ensures var st := Scan(stripped[..j]);
            Scan(stripped[..j + 1])
            == if stripped[j] == "" then
                 RunState(st.closed + (if |st.open| >= 2 then [st.open] else []), [])
               else RunState(st.closed, st.open + [stripped[j]])
  {
    assert stripped[..j + 1][..j] == stripped[..j];
  }

  /**
   * Reads one file's lines after the sentences found so far: each stripped
   * line either ends the current run (a blank line) or extends it; runs of
   * one line are dropped and a run still open at the end is kept.
   */
  method ReadFile(sentences: seq<seq<string>>, lines: seq<string>) returns (found: seq<seq<string>>)
    ensures found == sentences + FileSentences(lines)
  {
    ghost var stripped := StripAll(lines);
    found := sentences;
    var next: seq<string> := [];
    for j := 0 to |lines|
      invariant found == sentences + Scan(stripped[..j]).closed
      invariant next == Scan(stripped[..j]).open
    {
      var line := Strip(lines[j]);
      ScanStep(stripped, j);
      if line == "" {
        if next != [] {
          if |next| > 1 {
            found := found + [next];
          }
          next := [];
        }
      } else {
        next := next + [line];
      }
    }
    assert stripped[..|lines|] == stripped;
    ReadFileEnd(sentences, lines, found, next);
    if next != [] && |next| > 1 {
      found := found + [next];
    }
  }

  /** Keeping the run still open at the end of the file completes its sentences. */
  lemma ReadFileEnd(sentences: seq<seq<string>>, lines: seq<string>,
                    found: seq<seq<string>>, next: seq<string>)
    requires found == sentences + Scan(StripAll(lines)).closed
    requires next == Scan(StripAll(lines)).open
    ensures (if next != [] && |next| > 1 then found + [next] else found)
            == sentences + FileSentences(lines)
  {
    var stripped := StripAll(lines);
    var st := Scan(stripped);
    SegmentEnd(stripped);
    assert FileSentences(lines) == LongRuns(Split(stripped, ""));
    if next != [] && |next| > 1 {
      assert found + [next] == sentences + (st.closed + [st.open]);
    } else {
      assert st.closed + [] == st.closed;
    }
  }

  /** Reads the sentences of every file in turn. */
  method ReadSentences(files: seq<seq<string>>) returns (sentences: seq<seq<string>>)
    ensures sentences == AllSentences(files)
  {
    sentences := [];
    for f := 0 to |files|
      invariant sentences == AllSentences(files[..f])
    {
      sentences := ReadFile(sentences, files[f]);
      AllSentencesStep(files, f);
    }
    assert files[..|files|] == files;
  }

  /** `convert_fileset`: read every file's sentences, then write them all. */
  method ConvertFileset(files: seq<seq<string>>) returns (written: Written)
    ensures written == ConvertSentences(AllSentences(files))
  {
    var sentences := ReadSentences(files);
    written := WriteSentences(sentences);
  }

  /** The training, development and test portions of the file list. */
  datatype Portions<T> = Portions(train: seq<T>, dev: seq<T>, test: seq<T>)

  /** `int(0.8 * n)`: where the training portion ends. */
  function TrainCutoff(n: nat): (c: nat)
    ensures 10 * c <= 8 * n < 10 * c + 10
  {
    (8 * n) / 10
  }

  /** `int(0.9 * n)`: where the development portion ends. */
  function DevCutoff(n: nat): (c: nat)
    ensures 10 * c <= 9 * n < 10 * c + 10
  {
    (9 * n) / 10
  }

  /** The cut-offs are ordered, and all three portions are non-empty exactly from six files on. */
  lemma Cutoffs(n: nat)
    ensures TrainCutoff(n) <= DevCutoff(n) <= n
    ensures 0 < TrainCutoff(n) < DevCutoff(n) < n <==> n >= 6
  {
    if n >= 10 {
      assert 8 * n + 10 <= 9 * n;
      assert (8 * n) / 10 + 1 == (8 * n + 10) / 10;
    }
  }

  /**
   * The first 80% of the files for training, the next 10% for development
   * and the rest for testing; None when a portion would be empty, where
   * the source's assertions fail.
   */
  function SplitFiles<T>(files: seq<T>): (r: Option<Portions<T>>)
    ensures r.Some? <==> |files| >= 6
    ensures r.Some? ==>
              && r.value.train + r.value.dev + r.value.test == files
              && |r.value.train| == TrainCutoff(|files|)
              && |r.value.train| + |r.value.dev| == DevCutoff(|files|)
  {
    var n := |files|;
    Cutoffs(n);
    var p := Portions(files[..TrainCutoff(n)], files[TrainCutoff(n)..DevCutoff(n)], files[DevCutoff(n)..]);
    assert p.train + p.dev + p.test == files;
    if |p.train| > 0 && |p.dev| > 0 && |p.test| > 0 then Some(p) else None
  }

  /** Every file lands in exactly one portion when no file is listed twice. */
  lemma PortionsDisjoint<T>(files: seq<T>)
    requires NoDup(files) && SplitFiles(files).Some?
    ensures var p := SplitFiles(files).value;
            && (forall x :: x in files <==> x in p.train || x in p.dev || x in p.test)
            && (forall x :: x in p.train ==> x !in p.dev && x !in p.test)
            && (forall x :: x in p.dev ==> x !in p.test)
  {
    var p := SplitFiles(files).value;
    assert files == p.train + (p.dev + p.test);
    NoDupApart(p.train, p.dev + p.test);
    assert files == (p.train + p.dev) + p.test;
    NoDupApart(p.train + p.dev, p.test);
  }

  /**
   * `convert_fire_2013` on the corpus files, given in the order the
   * shuffle left them: None when a portion would be empty; otherwise the
   * train, dev and test files written in that order, stopping after the
   * first conversion that raises.
   */
  method ConvertFire2013(files: seq<seq<string>>) returns (r: Option<seq<Written>>)
    ensures r.None? <==> |files| < 6
    ensures r.Some? ==>
              var p := SplitFiles(files).value;
              var ws := r.value;
              && 1 <= |ws| <= 3
              && ws[0] == ConvertSentences(AllSentences(p.train))
              && (|ws| >= 2 ==> ws[0].error.None? && ws[1] == ConvertSentences(AllSentences(p.dev)))
              && (|ws| == 3 ==> ws[1].error.None? && ws[2] == ConvertSentences(AllSentences(p.test)))
              && (|ws| < 3 ==> ws[|ws| - 1].error.Some?)
  {
    var split := SplitFiles(files);
    if split.None? {
      return None;
    }
    var p := split.value;
    var train := ConvertFileset(p.train);
    if train.error.Some? {
      return Some([train]);
    }
    var dev := ConvertFileset(p.dev);
    if dev.error.Some? {
      return Some([train, dev]);
    }
    var test := ConvertFileset(p.test);
    r := Some([train, dev, test]);
  }
}
