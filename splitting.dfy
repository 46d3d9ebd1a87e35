/**
 * Splitting a sequence at every occurrence of a separator element, as
 * Python's `str.split(sep)` does for strings, and the join that undoes it.
 * The tab-separated columns of a corpus line and the blank-line-separated
 * sentences of a corpus file are both splits of this kind.
 */
module Splitting {
  import opened Results
  import opened Counting

  /**
   * The pieces of s between separators: one more piece than there are
   * separators, no piece holding a separator, empty pieces kept.
   */
  function Split<T(==)>(s: seq<T>, sep: T): (ps: seq<seq<T>>)
    ensures |ps| == Count(s, sep) + 1
    ensures forall i :: 0 <= i < |ps| ==> sep !in ps[i]
  {
    if s == [] then [[]]
    else
      var init := s[..|s| - 1];
      var x := s[|s| - 1];
      assert s == init + [x];
      var ps := Split(init, sep);
      if x == sep then ps + [[]]
      else ps[..|ps| - 1] + [ps[|ps| - 1] + [x]]
  }

  /** The pieces with one separator between each two: `sep.join(ps)`. */
  function Join<T>(ps: seq<seq<T>>, sep: T): seq<T>
    requires |ps| >= 1
  {
    if |ps| == 1 then ps[0] else Join(ps[..|ps| - 1], sep) + [sep] + ps[|ps| - 1]
  }

  /** Joining the pieces restores the original sequence. */
  lemma {:induction false} JoinSplit<T>(s: seq<T>, sep: T)
    ensures Join(Split(s, sep), sep) == s
  {
    if s != [] {
      var init := s[..|s| - 1];
      var x := s[|s| - 1];
      assert s == init + [x];
      var ps := Split(init, sep);
      JoinSplit(init, sep);
      if x == sep {
        assert (ps + [[]])[..|ps|] == ps;
      } else {
        JoinExtendLast(ps, sep, [x]);
      }
    }
  }

  /** Extending the last piece extends the join. */
  lemma JoinExtendLast<T>(ps: seq<seq<T>>, sep: T, xs: seq<T>)
    requires |ps| >= 1
    ensures Join(ps[..|ps| - 1] + [ps[|ps| - 1] + xs], sep) == Join(ps, sep) + xs
  {
    var ps' := ps[..|ps| - 1] + [ps[|ps| - 1] + xs];
    if |ps| > 1 {
      assert ps'[..|ps'| - 1] == ps[..|ps| - 1];
    }
  }

  /** A sequence without separators is a single piece. */
  lemma {:induction false} SplitNoSeparator<T>(s: seq<T>, sep: T)
    requires sep !in s
    ensures Split(s, sep) == [s]
  {
    if s != [] {
      var init := s[..|s| - 1];
      assert s == init + [s[|s| - 1]];
      SplitNoSeparator(init, sep);
    }
  }

  /** Splitting a sequence that ends with a separator and then a separator-free tail. */
  lemma {:induction false} SplitAppend<T>(s: seq<T>, sep: T, tail: seq<T>)
    requires sep !in tail
    ensures Split(s + [sep] + tail, sep) == Split(s, sep) + [tail]
  {
    if tail == [] {
      assert (s + [sep] + tail)[..|s|] == s;
      assert s + [sep] + tail == s + [sep];
    } else {
      var init := tail[..|tail| - 1];
      var x := tail[|tail| - 1];
      assert tail == init + [x];
      assert s + [sep] + tail == (s + [sep] + init) + [x];
      assert (s + [sep] + tail)[..|s + [sep] + tail| - 1] == s + [sep] + init;
      SplitAppend(s, sep, init);
    }
  }

  /** Splitting separator-free pieces after joining them gives the pieces back. */
  lemma {:induction false} SplitJoin<T>(ps: seq<seq<T>>, sep: T)
    requires |ps| >= 1
    requires forall i :: 0 <= i < |ps| ==> sep !in ps[i]
    ensures Split(Join(ps, sep), sep) == ps
  {
    if |ps| == 1 {
      SplitNoSeparator(ps[0], sep);
    } else {
      var init := ps[..|ps| - 1];
      var last := ps[|ps| - 1];
      assert ps == init + [last];
      assert forall i :: 0 <= i < |init| ==> init[i] == ps[i];
      SplitJoin(init, sep);
      assert sep !in last;
      SplitAppend(Join(init, sep), sep, last);
    }
  }

  /**
   * Applies f to the items of each block in order, putting sep after each
   * finished block, and stops at the first failure: what a writer that
   * ends every block with a separator line leaves when it raises.
   */
  function MapBlocksUntilFailure<A, B, E>(f: A -> Result<B, E>, blocks: seq<seq<A>>, sep: B)
    : (r: Partial<B, E>)
    ensures r.error.None? <==>
              forall i :: 0 <= i < |blocks| ==> MapUntilFailure(f, blocks[i]).error.None?
    ensures r.error.Some? ==>
              exists i :: 0 <= i < |blocks| && MapUntilFailure(f, blocks[i]).error == r.error
  {
    if blocks == [] then Partial([], None)
    else
      var init := blocks[..|blocks| - 1];
      assert forall i :: 0 <= i < |init| ==> init[i] == blocks[i];
      var w := MapBlocksUntilFailure(f, init, sep);
      if w.error.Some? then w
      else
        var c := MapUntilFailure(f, blocks[|blocks| - 1]);
        if c.error.Some? then Partial(w.done + c.done, c.error)
        else Partial(w.done + c.done + [sep], None)
  }

  /** The outputs of each block, in order. */
  function BlockOutputs<A, B, E>(f: A -> Result<B, E>, blocks: seq<seq<A>>): seq<seq<B>>
  {
    seq(|blocks|, i requires 0 <= i < |blocks| => MapUntilFailure(f, blocks[i]).done)
  }

  /** The last block of a run without failure: its outputs and a separator end the output. */
  lemma MapBlocksLast<A, B, E>(f: A -> Result<B, E>, blocks: seq<seq<A>>, sep: B)
    requires blocks != [] && MapBlocksUntilFailure(f, blocks, sep).error.None?
    ensures var init := blocks[..|blocks| - 1];
            var c := MapUntilFailure(f, blocks[|blocks| - 1]);
            && MapBlocksUntilFailure(f, init, sep).error.None?
            && MapBlocksUntilFailure(f, blocks, sep).done
               == MapBlocksUntilFailure(f, init, sep).done + c.done + [sep]
            && BlockOutputs(f, blocks) == BlockOutputs(f, init) + [c.done]
  {
  }

  /** Joining pieces followed by one more piece and an empty remainder. */
  lemma JoinThenEmpty<T>(front: seq<seq<T>>, last: seq<T>, sep: T)
    ensures Join(front + [last] + [[]], sep) == Join(front + [[]], sep) + last + [sep]
  {
    var ps := front + [last] + [[]];
    assert ps[..|ps| - 1] == front + [last];
    assert Join(ps, sep) == Join(front + [last], sep) + [sep];
    var qs := front + [[]];
    assert qs[..|qs| - 1] == front && qs[|qs| - 1] + last == last;
    JoinExtendLast(qs, sep, last);
  }

  /**
   * When every block succeeds, the output is the join of the block outputs,
   * with an empty remainder after the last separator.
   */
  lemma {:induction false} BlocksJoin<A, B, E>(f: A -> Result<B, E>, blocks: seq<seq<A>>, sep: B)
    requires MapBlocksUntilFailure(f, blocks, sep).error.None?
    ensures Join(BlockOutputs(f, blocks) + [[]], sep) == MapBlocksUntilFailure(f, blocks, sep).done
  {
    if blocks != [] {
      var init := blocks[..|blocks| - 1];
      MapBlocksLast(f, blocks, sep);
      BlocksJoin(f, init, sep);
      JoinThenEmpty(BlockOutputs(f, init), MapUntilFailure(f, blocks[|blocks| - 1]).done, sep);
    }
  }

  /**
   * When every block succeeds and no output equals the separator, splitting
   * the output at the separator gives the block outputs back, followed by
   * the empty remainder after the last separator.
   */
  lemma BlocksSplitBack<A, B, E>(f: A -> Result<B, E>, blocks: seq<seq<A>>, sep: B)
    requires MapBlocksUntilFailure(f, blocks, sep).error.None?
    requires forall a :: f(a).Success? ==> f(a).value != sep
    ensures Split(MapBlocksUntilFailure(f, blocks, sep).done, sep) == BlockOutputs(f, blocks) + [[]]
  {
    BlocksJoin(f, blocks, sep);
    var bs := BlockOutputs(f, blocks) + [[]];
    forall i | 0 <= i < |bs| ensures sep !in bs[i] {
      if i < |blocks| {
        forall j | 0 <= j < |bs[i]| ensures bs[i][j] != sep {
          assert f(blocks[i][j]) == Success(bs[i][j]);
        }
      }
    }
    SplitJoin(bs, sep);
  }

  /** A failure among the first blocks is the failure of the whole run. */
  lemma {:induction false} MapBlocksPrefix<A, B, E>(f: A -> Result<B, E>, blocks: seq<seq<A>>, sep: B, k: nat)
    requires k <= |blocks| && MapBlocksUntilFailure(f, blocks[..k], sep).error.Some?
    ensures MapBlocksUntilFailure(f, blocks, sep) == MapBlocksUntilFailure(f, blocks[..k], sep)
  {
    if k < |blocks| {
      var init := blocks[..|blocks| - 1];
      assert init[..k] == blocks[..k];
      MapBlocksPrefix(f, init, sep, k);
    } else {
      assert blocks[..k] == blocks;
    }
  }

  /** One more block: its outputs and a separator are appended, or its failure ends the run. */
  lemma MapBlocksStep<A, B, E>(f: A -> Result<B, E>, blocks: seq<seq<A>>, sep: B, i: nat)
    requires i < |blocks| && MapBlocksUntilFailure(f, blocks[..i], sep).error.None?
    ensures var done := MapBlocksUntilFailure(f, blocks[..i], sep).done;
            var c := MapUntilFailure(f, blocks[i]);
            MapBlocksUntilFailure(f, blocks[..i + 1], sep)
            == if c.error.Some? then Partial(done + c.done, c.error)
               else Partial(done + c.done + [sep], None)
  {
    assert blocks[..i + 1][..i] == blocks[..i];
  }

  /**
   * A run that fails at item j of block i: the output is everything before
   * that block, then the block's outputs before item j, and the error is
   * item j's.
   */
  lemma MapBlocksFailure<A, B, E>(f: A -> Result<B, E>, blocks: seq<seq<A>>, sep: B, i: nat, j: nat)
    requires i < |blocks| && j < |blocks[i]|
    requires MapBlocksUntilFailure(f, blocks[..i], sep).error.None?
    requires MapUntilFailure(f, blocks[i][..j]).error.None?
    requires f(blocks[i][j]).Failure?
    ensures MapBlocksUntilFailure(f, blocks, sep)
            == Partial(MapBlocksUntilFailure(f, blocks[..i], sep).done
                       + MapUntilFailure(f, blocks[i][..j]).done,
                       Some(f(blocks[i][j]).error))
  {
    MapUntilFailureStep(f, blocks[i], j);
    MapUntilFailurePrefix(f, blocks[i], j + 1);
    MapBlocksStep(f, blocks, sep, i);
    MapBlocksPrefix(f, blocks, sep, i + 1);
  }
}
