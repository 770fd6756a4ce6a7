/**
  The batch splitter of `TensorforceAgent.experience` (tensorforce/agents/tensorforce.py).

  Terminal flags are scanned left to right with a cursor `last`; at each index the
  open run `[last, index)` is cut when its last flag is a terminal or when it has
  reached `experience_size`. Cuts emits exactly the spans that loop emits. The
  properties proved below describe a batching without reference to the scan;
  IsSplitting states them as a predicate and SplittingUnique shows that they
  determine the batches, so Cuts is the one splitting they describe.
*/
module AgentBatching {

  /** A half-open index range `[lo, hi)` of the experience arrays. */
  datatype Span = Span(lo: nat, hi: nat)

  function Max(a: int, b: int): int {
    if a >= b then a else b
  }

  /** The largest run the splitter emits: experience_size, but never less than one step. */
  function Cap(size: int): nat {
    Max(size, 1)
  }

  /**
    The scan from `index` on, with the open run starting at `last`. A run is kept
    open (`continue`) while its last flag is zero and it is shorter than `size`.
  */
  function Cuts(t: seq<int>, size: int, last: nat, index: nat): (r: seq<Span>)
    requires last < index
    decreases |t| + 1 - index
  {
    if index > |t| then []
    else if t[index - 1] == 0 && index - last < size then Cuts(t, size, last, index + 1)
    else [Span(last, index)] + Cuts(t, size, index, index + 1)
  }

  /** The cursor `last` when the scan ends: the end of the part passed to the model. */
  function Consumed(t: seq<int>, size: int, last: nat, index: nat): (r: nat)
    requires last < index
    ensures last <= r
    ensures r == last || r <= |t|
    decreases |t| + 1 - index
  {
    if index > |t| then last
    else if t[index - 1] == 0 && index - last < size then Consumed(t, size, last, index + 1)
    else Consumed(t, size, index, index + 1)
  }

  /** The batches of the terminal flags t, for experience_size `size`. */
  function Batches(t: seq<int>, size: int): (r: seq<Span>)
    ensures r == [] <==> BatchedLength(t, size) == 0
  {
    CutsSplit(t, size, 0, 1);
    TilesBounds(Cuts(t, size, 0, 1), 0, Consumed(t, size, 0, 1));
    Cuts(t, size, 0, 1)
  }

  /** The number of leading steps passed to the model; the rest is dropped. */
  function BatchedLength(t: seq<int>, size: int): nat {
    Consumed(t, size, 0, 1)
  }

  /** Spans that tile `[lo, hi)` in order, each non-empty, the next starting where the last ended. */
  ghost predicate Tiles(spans: seq<Span>, lo: nat, hi: nat) {
    if spans == [] then lo == hi
    else spans[0].lo == lo && spans[0].lo < spans[0].hi && Tiles(spans[1..], spans[0].hi, hi)
  }

  /**
    A batch as the splitter forms it: no terminal before its last step, and either
    its last step is a terminal or it has reached the cap.
  */
  ghost predicate WellCut(t: seq<int>, size: int, b: Span) {
    && b.lo < b.hi <= |t|
    && b.hi - b.lo <= Cap(size)
    && (forall k :: b.lo <= k < b.hi - 1 ==> t[k] == 0)
    && (t[b.hi - 1] != 0 || b.hi - b.lo == Cap(size))
  }

  /** What is left after the last batch: no terminal and shorter than the cap. */
  ghost predicate WellLeft(t: seq<int>, size: int, from: nat) {
    && from <= |t|
    && (forall k :: from <= k < |t| ==> t[k] == 0)
    && |t| - from < Cap(size)
  }

  /** A splitting of t: batches tiling `[0, end)`, each well cut, and a remainder that is well left. */
  ghost predicate IsSplitting(t: seq<int>, size: int, spans: seq<Span>, end: nat) {
    && Tiles(spans, 0, end)
    && (forall i :: 0 <= i < |spans| ==> WellCut(t, size, spans[i]))
    && WellLeft(t, size, end)
  }

  /**
    Invariant of the scan: the open run `[last, index - 1)` holds no terminal and
    is shorter than the cap.
  */
  ghost predicate OpenRun(t: seq<int>, size: int, last: nat, index: nat) {
    && last < index <= |t| + 1
    && (forall k :: last <= k < index - 1 ==> t[k] == 0)
    && index - 1 - last < Cap(size)
  }

  /** The scan from a valid open run emits a splitting of the rest of the flags. */
  lemma {:induction false} CutsSplit(t: seq<int>, size: int, last: nat, index: nat)
    requires OpenRun(t, size, last, index)
    ensures var spans := Cuts(t, size, last, index);
            && Tiles(spans, last, Consumed(t, size, last, index))
            && (forall i :: 0 <= i < |spans| ==> WellCut(t, size, spans[i]))
            && WellLeft(t, size, Consumed(t, size, last, index))
    decreases |t| + 1 - index
  {
    if index > |t| {
    } else if t[index - 1] == 0 && index - last < size {
      CutsSplit(t, size, last, index + 1);
    } else {
      assert OpenRun(t, size, index, index + 1);
      CutsSplit(t, size, index, index + 1);
      var rest := Cuts(t, size, index, index + 1);
      var spans := [Span(last, index)] + rest;
      assert spans[1..] == rest;
      assert WellCut(t, size, Span(last, index));
      forall i | 0 <= i < |spans|
        ensures WellCut(t, size, spans[i])
      {
        if i > 0 {
          assert spans[i] == rest[i - 1];
        }
      }
    }
  }

  /** The batches the agent emits form a splitting of the terminal flags. */
  lemma BatchesSplit(t: seq<int>, size: int)
    ensures IsSplitting(t, size, Batches(t, size), BatchedLength(t, size))
  {
    CutsSplit(t, size, 0, 1);
  }

  /** Spans that tile a range are ordered, contiguous and inside it. */
  lemma {:induction false} TilesBounds(spans: seq<Span>, lo: nat, hi: nat)
    requires Tiles(spans, lo, hi)
    ensures lo <= hi
    ensures forall i :: 0 <= i < |spans| ==> lo <= spans[i].lo < spans[i].hi <= hi
    ensures forall i :: 0 <= i < |spans| - 1 ==> spans[i].hi == spans[i + 1].lo
    ensures spans != [] ==> spans[0].lo == lo && spans[|spans| - 1].hi == hi
    decreases |spans|
  {
    if spans != [] {
      TilesBounds(spans[1..], spans[0].hi, hi);
      forall i | 0 <= i < |spans| - 1
        ensures spans[i].hi == spans[i + 1].lo
      {
        if i > 0 {
          assert spans[i] == spans[1..][i - 1];
        }
      }
    }
  }

  /**
    Every batch has at most `max(experience_size, 1)` steps; with experience_size
    at least one, at most experience_size.
  */
  lemma BatchesBounded(t: seq<int>, size: int)
    ensures forall b :: b in Batches(t, size) ==> 0 < b.hi - b.lo <= Cap(size)
    ensures size >= 1 ==> forall b :: b in Batches(t, size) ==> b.hi - b.lo <= size
  {
    BatchesSplit(t, size);
    var spans := Batches(t, size);
    forall b | b in spans
      ensures 0 < b.hi - b.lo <= Cap(size)
    {
      var i :| 0 <= i < |spans| && spans[i] == b;
      assert WellCut(t, size, spans[i]);
    }
  }

  /**
    The first index `hi` at which a run starting at `lo` is cut: the least one whose
    flag is a terminal or at which the run reaches the cap.
  */
  ghost predicate FirstStop(t: seq<int>, size: int, lo: nat, hi: nat) {
    && lo < hi <= |t|
    && hi - lo <= Cap(size)
    && (t[hi - 1] != 0 || hi - lo == Cap(size))
    && (forall k :: lo <= k < hi - 1 ==> t[k] == 0)
  }

  /** From a valid open run, the scan cuts its first span at the first stop. */
  lemma {:induction false} CutsFirst(t: seq<int>, size: int, last: nat, index: nat, h: nat)
    requires OpenRun(t, size, last, index) && FirstStop(t, size, last, h) && index <= h
    ensures Cuts(t, size, last, index) == [Span(last, h)] + Cuts(t, size, h, h + 1)
    ensures Consumed(t, size, last, index) == Consumed(t, size, h, h + 1)
    decreases h - index
  {
    if t[index - 1] == 0 && index - last < size {
      assert index < h;
      CutsFirst(t, size, last, index + 1, h);
    } else {
      assert index == h;
    }
  }

  /** From a valid open run, the scan cuts nothing when the remainder is well left. */
  lemma {:induction false} CutsNone(t: seq<int>, size: int, last: nat, index: nat)
    requires OpenRun(t, size, last, index) && WellLeft(t, size, last)
    ensures Cuts(t, size, last, index) == [] && Consumed(t, size, last, index) == last
    decreases |t| + 1 - index
  {
    if index <= |t| {
      assert t[index - 1] == 0;
      CutsNone(t, size, last, index + 1);
    }
  }

  /** A splitting of the flags from `lo` on is the scan's output from `lo`. */
  lemma {:induction false} SplittingIsCuts(t: seq<int>, size: int, spans: seq<Span>, lo: nat, end: nat)
    requires Tiles(spans, lo, end)
    requires forall i :: 0 <= i < |spans| ==> WellCut(t, size, spans[i])
    requires WellLeft(t, size, end)
    ensures spans == Cuts(t, size, lo, lo + 1) && end == Consumed(t, size, lo, lo + 1)
    decreases |spans|
  {
    assert OpenRun(t, size, lo, lo + 1) by {
      TilesBounds(spans, lo, end);
    }
    if spans == [] {
      CutsNone(t, size, lo, lo + 1);
    } else {
      var h := spans[0].hi;
      var rest := spans[1..];
      assert spans[0] == Span(lo, h) && FirstStop(t, size, lo, h) by {
        assert WellCut(t, size, spans[0]);
      }
      CutsFirst(t, size, lo, lo + 1, h);
      assert rest == Cuts(t, size, h, h + 1) && end == Consumed(t, size, h, h + 1) by {
        forall i | 0 <= i < |rest|
          ensures WellCut(t, size, rest[i])
        {
          assert rest[i] == spans[i + 1];
        }
        SplittingIsCuts(t, size, rest, h, end);
      }
      assert spans == [spans[0]] + rest;
    }
  }

  /**
    The splitting is unique: any batching that satisfies the properties above is
    exactly the splitter's, and drops exactly the same remainder.
  */
  lemma SplittingUnique(t: seq<int>, size: int, spans: seq<Span>, end: nat)
    requires IsSplitting(t, size, spans, end)
    ensures spans == Batches(t, size) && end == BatchedLength(t, size)
  {
    SplittingIsCuts(t, size, spans, 0, end);
  }

  /**
    The scan's "include terminal in batch" extension never applies: it requires
    the continue condition, which has just failed at every cut.
  */
  lemma {:induction false} IncludeTerminalUnreachable(t: seq<int>, size: int, last: nat, index: nat)
    requires OpenRun(t, size, last, index)
    ensures forall b :: b in Cuts(t, size, last, index) ==>
              0 < b.hi <= |t| && !(b.hi < |t| && t[b.hi - 1] == 0 && t[b.hi] > 0 && b.hi - b.lo < size)
  {
    CutsSplit(t, size, last, index);
    var spans := Cuts(t, size, last, index);
    forall b | b in spans
      ensures 0 < b.hi <= |t| && !(b.hi < |t| && t[b.hi - 1] == 0 && t[b.hi] > 0 && b.hi - b.lo < size)
    {
      var i :| 0 <= i < |spans| && spans[i] == b;
      assert WellCut(t, size, spans[i]);
    }
  }

  /**
    The example of terminal flags [0,0,1,0,0,0] with experience_size 4: one batch
    [0:3] ending at the terminal; the trailing three steps are not passed on.
  */
  lemma TrailingRunDropped()
    ensures Batches([0, 0, 1, 0, 0, 0], 4) == [Span(0, 3)]
    ensures BatchedLength([0, 0, 1, 0, 0, 0], 4) == 3
  {
    var t := [0, 0, 1, 0, 0, 0];
    assert Cuts(t, 4, 3, 4) == [];
    assert Consumed(t, 4, 3, 4) == 3;
  }

  /** Without any terminal, the flags are cut into full batches of experience_size steps. */
  lemma FullBatchesWithoutTerminals(t: seq<int>, size: int)
    requires size >= 1 && forall k :: 0 <= k < |t| ==> t[k] == 0
    ensures forall b :: b in Batches(t, size) ==> b.hi - b.lo == size
    ensures BatchedLength(t, size) == |Batches(t, size)| * size
    ensures |t| - BatchedLength(t, size) < size
  {
    BatchesSplit(t, size);
    var spans := Batches(t, size);
    var end := BatchedLength(t, size);
    forall b | b in spans
      ensures b.hi - b.lo == size
    {
      var i :| 0 <= i < |spans| && spans[i] == b;
      assert WellCut(t, size, spans[i]);
    }
    TilesLength(spans, 0, end, size);
  }

  /** Tiling with spans of one length covers a multiple of it. */
  lemma {:induction false} TilesLength(spans: seq<Span>, lo: nat, hi: nat, size: nat)
    requires Tiles(spans, lo, hi)
    requires forall b :: b in spans ==> b.hi - b.lo == size
    ensures hi - lo == |spans| * size
    decreases |spans|
  {
    if spans != [] {
      var rest := spans[1..];
      assert forall b :: b in rest ==> b in spans;
      TilesLength(rest, spans[0].hi, hi, size);
      assert spans[0].hi - lo == size by {
        assert spans[0] in spans;
      }
      MulSucc(|rest|, size);
    }
  }

  lemma MulSucc(k: nat, size: nat)
    ensures (k + 1) * size == k * size + size
  {
  }
}
