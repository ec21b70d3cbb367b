/**
  The measurement engine of generate_csv.cpp: for every sample element, run
  the untimed preamble, then the timed operation, and add the elapsed time
  into the result matrix under the bucket of the running sample index.

  The clock is replaced by `elapsed`, the nanoseconds each element's timed
  operation took. The preamble and the operation are state transformers over
  the state S of whatever container they act on; an operation may throw,
  which measure does not catch.
*/
module Measurement {

  import opened Books
  import opened Options

  /** Direction::value: Grow = 1, Shrink = -Grow. */
  datatype Direction = Grow | Shrink

  function Step(d: Direction): int {
    if d == Grow then 1 else -1
  }

  /** SAMPLE_SIZE: the width of a bucket. */
  const SampleSize: nat := 250

  /** ((sampleIndex / SAMPLE_SIZE) + 1) * SAMPLE_SIZE */
  function Bucket(sampleIndex: nat): (b: nat)
    ensures b % SampleSize == 0 && SampleSize <= b
    ensures b - SampleSize <= sampleIndex < b
  {
    (sampleIndex / SampleSize + 1) * SampleSize
  }

  lemma BucketMonotone(i: nat, j: nat)
    requires i <= j
    ensures Bucket(i) <= Bucket(j)
  {
  }

  /** The bucket of a multiple of SampleSize is the next multiple. */
  lemma BucketOfMultiple(b: nat)
    requires b % SampleSize == 0
    ensures Bucket(b) == b + SampleSize
  {
  }

  /**
    The running index of element k of an n-element sample: it starts at 0
    (Grow) or at n (Shrink) and moves by Step(d) per element.
  */
  function IndexOf(d: Direction, n: nat, k: nat): (i: nat)
    requires k <= n
  {
    if d == Grow then k else n - k
  }

  // The result matrix: bucket -> structure name -> operation name -> accumulated nanoseconds.

  type Row = map<string, map<string, nat>>
  type TimeMatrix = map<nat, Row>

  /** The (bucket, structure, operation) cell exists. */
  predicate Has(m: TimeMatrix, b: nat, s: string, o: string) {
    b in m && s in m[b] && o in m[b][s]
  }

  /** The accumulated time of a cell; an absent cell reads as zero, as operator[] creates it. */
  function Cell(m: TimeMatrix, b: nat, s: string, o: string): nat {
    if Has(m, b, s, o) then m[b][s][o] else 0
  }

  /** runTimes[b][s][o] += t; what it does is stated by the lemmas below. */
  function Accumulate(m: TimeMatrix, b: nat, s: string, o: string, t: nat): TimeMatrix
  {
    var row: Row := if b in m then m[b] else map[];
    var ops: map<string, nat> := if s in row then row[s] else map[];
    var before: nat := if o in ops then ops[o] else 0;
    var sum: nat := before + t;
    m[b := row[s := ops[o := sum]]]
  }

  /** Accumulate adds t to the cell, reading an absent cell as zero. */
  lemma AccumulateAdds(m: TimeMatrix, b: nat, s: string, o: string, t: nat)
    ensures Cell(Accumulate(m, b, s, o, t), b, s, o) == Cell(m, b, s, o) + t
  {
  }

  /**
    Accumulate creates the bucket and, within it, the structure's row if they
    were absent, and leaves every other bucket's row as it was.
  */
  lemma AccumulateShape(m: TimeMatrix, b: nat, s: string, o: string, t: nat)
    ensures Accumulate(m, b, s, o, t).Keys == m.Keys + {b}
    ensures Accumulate(m, b, s, o, t)[b].Keys == (if b in m then m[b].Keys else {}) + {s}
    ensures forall b' :: b' in m && b' != b ==> Accumulate(m, b, s, o, t)[b'] == m[b']
  {
  }

  /** Accumulate creates exactly the one cell it adds to, if it was absent. */
  lemma AccumulateCells(m: TimeMatrix, b: nat, s: string, o: string, t: nat, b': nat, s': string, o': string)
    ensures Has(Accumulate(m, b, s, o, t), b', s', o') <==> Has(m, b', s', o') || (b' == b && s' == s && o' == o)
  {
  }

  /** Accumulate leaves every other cell as it was. */
  lemma AccumulateLeavesOthers(m: TimeMatrix, b: nat, s: string, o: string, t: nat, b': nat, s': string, o': string)
    requires !(b' == b && s' == s && o' == o)
    ensures Cell(Accumulate(m, b, s, o, t), b', s', o') == Cell(m, b', s', o')
  {
  }

  /**
    The matrix after adding the timings of elements k .. j-1 of a sample
    with one timing per element, in sample order.
  */
  function Tally(m: TimeMatrix, s: string, o: string, d: Direction, elapsed: seq<nat>, k: nat, j: nat): TimeMatrix
    requires k <= j <= |elapsed|
    decreases j - k
  {
    if k == j then m
    else Tally(Accumulate(m, Bucket(IndexOf(d, |elapsed|, k)), s, o, elapsed[k]), s, o, d, elapsed, k + 1, j)
  }

  /** The buckets that elements k .. j-1 of an n-element sample fall into. */
  function Touched(d: Direction, n: nat, k: nat, j: nat): set<nat>
    requires k <= j <= n
  {
    set i | k <= i < j :: Bucket(IndexOf(d, n, i))
  }

  /** The sum of the timings of elements k .. j-1 that fall into bucket b. */
  function BucketSum(d: Direction, elapsed: seq<nat>, k: nat, j: nat, b: nat): nat
    requires k <= j <= |elapsed|
    decreases j - k
  {
    if k == j then 0
    else (if Bucket(IndexOf(d, |elapsed|, k)) == b then elapsed[k] else 0) + BucketSum(d, elapsed, k + 1, j, b)
  }

  lemma TouchedSplit(d: Direction, n: nat, k: nat, j: nat)
    requires k < j <= n
    ensures Touched(d, n, k, j) == {Bucket(IndexOf(d, n, k))} + Touched(d, n, k + 1, j)
  {
  }

  /** The buckets present afterwards are the old ones and the touched ones. */
  lemma {:induction false} TallyBuckets(m: TimeMatrix, s: string, o: string, d: Direction, elapsed: seq<nat>, k: nat, j: nat)
    requires k <= j <= |elapsed|
    ensures Tally(m, s, o, d, elapsed, k, j).Keys == m.Keys + Touched(d, |elapsed|, k, j)
    decreases j - k
  {
    if k < j {
      var b := Bucket(IndexOf(d, |elapsed|, k));
      var next := Accumulate(m, b, s, o, elapsed[k]);
      assert Tally(m, s, o, d, elapsed, k, j) == Tally(next, s, o, d, elapsed, k + 1, j);
      TallyBuckets(next, s, o, d, elapsed, k + 1, j);
      AccumulateShape(m, b, s, o, elapsed[k]);
      TouchedSplit(d, |elapsed|, k, j);
      UnionRegroups(Tally(m, s, o, d, elapsed, k, j).Keys, m.Keys, b, Touched(d, |elapsed|, k + 1, j),
                    Touched(d, |elapsed|, k, j));
    }
  }

  lemma UnionRegroups(result: set<nat>, before: set<nat>, b: nat, later: set<nat>, touched: set<nat>)
    requires result == (before + {b}) + later
    requires touched == {b} + later
    ensures result == before + touched
  {
  }

  /**
    A cell exists afterwards exactly when it existed before or it is this
    structure and operation in a touched bucket; the times do not matter.
  */
  lemma {:induction false} TallyCells(m: TimeMatrix, s: string, o: string, d: Direction, elapsed: seq<nat>, k: nat, j: nat,
                                      b: nat, s': string, o': string)
    requires k <= j <= |elapsed|
    ensures Has(Tally(m, s, o, d, elapsed, k, j), b, s', o') <==>
            Has(m, b, s', o') || (s' == s && o' == o && b in Touched(d, |elapsed|, k, j))
    decreases j - k
  {
    if k < j {
      var next := Accumulate(m, Bucket(IndexOf(d, |elapsed|, k)), s, o, elapsed[k]);
      assert Tally(m, s, o, d, elapsed, k, j) == Tally(next, s, o, d, elapsed, k + 1, j);
      TallyCells(next, s, o, d, elapsed, k + 1, j, b, s', o');
      AccumulateCells(m, Bucket(IndexOf(d, |elapsed|, k)), s, o, elapsed[k], b, s', o');
      TouchedSplit(d, |elapsed|, k, j);
    }
  }

  /** Timings are summed, not replaced: each element adds its time to its own bucket's cell. */
  lemma {:induction false} TallySums(m: TimeMatrix, s: string, o: string, d: Direction, elapsed: seq<nat>, k: nat, j: nat, b: nat)
    requires k <= j <= |elapsed|
    ensures Cell(Tally(m, s, o, d, elapsed, k, j), b, s, o) == Cell(m, b, s, o) + BucketSum(d, elapsed, k, j, b)
    decreases j - k
  {
    if k < j {
      var next := Accumulate(m, Bucket(IndexOf(d, |elapsed|, k)), s, o, elapsed[k]);
      assert Tally(m, s, o, d, elapsed, k, j) == Tally(next, s, o, d, elapsed, k + 1, j);
      TallySums(next, s, o, d, elapsed, k + 1, j, b);
      if Bucket(IndexOf(d, |elapsed|, k)) != b {
        AccumulateLeavesOthers(m, Bucket(IndexOf(d, |elapsed|, k)), s, o, elapsed[k], b, s, o);
      }
    }
  }

  /** Cells of every other structure or operation are untouched. */
  lemma {:induction false} TallyLeavesOthers(m: TimeMatrix, s: string, o: string, d: Direction, elapsed: seq<nat>, k: nat, j: nat,
                                             b: nat, s': string, o': string)
    requires k <= j <= |elapsed|
    requires s' != s || o' != o
    ensures Cell(Tally(m, s, o, d, elapsed, k, j), b, s', o') == Cell(m, b, s', o')
    decreases j - k
  {
    if k < j {
      var next := Accumulate(m, Bucket(IndexOf(d, |elapsed|, k)), s, o, elapsed[k]);
      assert Tally(m, s, o, d, elapsed, k, j) == Tally(next, s, o, d, elapsed, k + 1, j);
      TallyLeavesOthers(next, s, o, d, elapsed, k + 1, j, b, s', o');
      AccumulateLeavesOthers(m, Bucket(IndexOf(d, |elapsed|, k)), s, o, elapsed[k], b, s', o');
    }
  }

  /** Two runs over samples of one size give matrices of the same shape, whatever the times. */
  lemma SameShape(m: TimeMatrix, s: string, o: string, d: Direction, e1: seq<nat>, e2: seq<nat>, j: nat,
                  b: nat, s': string, o': string)
    requires |e1| == |e2| && j <= |e1|
    ensures Tally(m, s, o, d, e1, 0, j).Keys == Tally(m, s, o, d, e2, 0, j).Keys
    ensures Has(Tally(m, s, o, d, e1, 0, j), b, s', o') <==> Has(Tally(m, s, o, d, e2, 0, j), b, s', o')
  {
    TallyBuckets(m, s, o, d, e1, 0, j);
    TallyBuckets(m, s, o, d, e2, 0, j);
    TallyCells(m, s, o, d, e1, 0, j, b, s', o');
    TallyCells(m, s, o, d, e2, 0, j, b, s', o');
  }

  /** A Grow run over n > 0 elements touches exactly the buckets 250, 500, ..., Bucket(n - 1). */
  lemma GrowBuckets(n: nat, b: nat)
    requires n > 0
    ensures b in Touched(Grow, n, 0, n) <==> b % SampleSize == 0 && SampleSize <= b <= Bucket(n - 1)
  {
    if b in Touched(Grow, n, 0, n) {
      var k :| 0 <= k < n && Bucket(IndexOf(Grow, n, k)) == b;
      BucketMonotone(k, n - 1);
    }
    if b % SampleSize == 0 && SampleSize <= b <= Bucket(n - 1) {
      var k := b - SampleSize;
      BucketOfMultiple(k);
      assert Bucket(IndexOf(Grow, n, k)) == b;
    }
  }

  /** A Shrink run over n > 0 elements touches exactly the buckets 250, 500, ..., Bucket(n). */
  lemma ShrinkBuckets(n: nat, b: nat)
    requires n > 0
    ensures b in Touched(Shrink, n, 0, n) <==> b % SampleSize == 0 && SampleSize <= b <= Bucket(n)
  {
    if b in Touched(Shrink, n, 0, n) {
      var k :| 0 <= k < n && Bucket(IndexOf(Shrink, n, k)) == b;
      BucketMonotone(n - k, n);
    }
    if b % SampleSize == 0 && SampleSize <= b <= Bucket(n) {
      var i := if b == SampleSize then 1 else b - SampleSize;
      if b != SampleSize {
        BucketOfMultiple(i);
      }
      var k := n - i;
      assert IndexOf(Shrink, n, k) == i;
      assert Bucket(IndexOf(Shrink, n, k)) == b;
    }
  }

  /** Bucket sets depend on the direction: 500 elements reach bucket 750 only when shrinking. */
  lemma FiveHundredElements()
    ensures 750 in Touched(Shrink, 500, 0, 500)
    ensures 750 !in Touched(Grow, 500, 0, 500)
    ensures Touched(Grow, 500, 0, 500) == {250, 500}
    ensures Touched(Shrink, 500, 0, 500) == {250, 500, 750}
  {
    ShrinkBuckets(500, 750);
    GrowBuckets(500, 750);
    forall b | b in Touched(Grow, 500, 0, 500) ensures b == 250 || b == 500 {
      GrowBuckets(500, b);
    }
    GrowBuckets(500, 250);
    GrowBuckets(500, 500);
    forall b | b in Touched(Shrink, 500, 0, 500) ensures b == 250 || b == 500 || b == 750 {
      ShrinkBuckets(500, b);
    }
    ShrinkBuckets(500, 250);
    ShrinkBuckets(500, 500);
  }

  // Driving the callables

  /** What one call of an operation did: returned with the new state, or threw. */
  datatype Completion<S> = Normal(state: S) | Thrown(error: string)

  /** done: how many elements' operations completed (and so were timed). */
  datatype Driven<S> = Driven(done: nat, completion: Completion<S>)

  /**
    From element k on, in sample order: run the preamble on the element,
    then the operation on the element; stop at the first operation that throws.
  */
  function Drive<S>(preamble: (S, Book) -> S, operation: (S, Book) -> Completion<S>,
                    sample: seq<Book>, k: nat, state: S): (r: Driven<S>)
    requires k <= |sample|
    ensures k <= r.done <= |sample|
    ensures r.completion.Normal? <==> r.done == |sample|
    decreases |sample| - k
  {
    if k == |sample| then Driven(k, Normal(state))
    else
      match operation(preamble(state, sample[k]), sample[k])
      case Thrown(e) => Driven(k, Thrown(e))
      case Normal(next) => Drive(preamble, operation, sample, k + 1, next)
  }

  /**
    The state after elements k .. j-1 were each run through the preamble and
    the operation without a throw, or None when one of them threw.
  */
  function Run<S>(preamble: (S, Book) -> S, operation: (S, Book) -> Completion<S>,
                  sample: seq<Book>, k: nat, j: nat, state: S): Option<S>
    requires k <= j <= |sample|
    decreases j - k
  {
    if k == j then Some(state)
    else
      match operation(preamble(state, sample[k]), sample[k])
      case Thrown(_) => None
      case Normal(next) => Run(preamble, operation, sample, k + 1, j, next)
  }

  /** A run that got through elements k .. j-1 got through every shorter stretch k .. i-1 too. */
  lemma {:induction false} RunPrefix<S>(preamble: (S, Book) -> S, operation: (S, Book) -> Completion<S>,
                                        sample: seq<Book>, k: nat, i: nat, j: nat, state: S)
    requires k <= i <= j <= |sample|
    requires Run(preamble, operation, sample, k, j, state).Some?
    ensures Run(preamble, operation, sample, k, i, state).Some?
    decreases j - k
  {
    if k < i {
      match operation(preamble(state, sample[k]), sample[k])
      case Normal(next) => RunPrefix(preamble, operation, sample, k + 1, i, j, next);
    }
  }

  /**
    Drive stops at the first throw: every element before `done` completed,
    leaving the state Run gives; a completed run ends in that state, and a
    run that threw did so at element `done`, with that element's error.
  */
  lemma {:induction false} DriveStopsAtFirstThrow<S>(preamble: (S, Book) -> S, operation: (S, Book) -> Completion<S>,
                                                     sample: seq<Book>, k: nat, state: S)
    requires k <= |sample|
    ensures var r := Drive(preamble, operation, sample, k, state);
            && Run(preamble, operation, sample, k, r.done, state).Some?
            && (r.completion.Normal? ==> Run(preamble, operation, sample, k, r.done, state) == Some(r.completion.state))
            && (r.completion.Thrown? ==>
                  var before := Run(preamble, operation, sample, k, r.done, state).value;
                  r.done < |sample|
                  && operation(preamble(before, sample[r.done]), sample[r.done]) == Thrown(r.completion.error))
    decreases |sample| - k
  {
    if k < |sample| {
      match operation(preamble(state, sample[k]), sample[k])
      case Thrown(e) =>
      case Normal(next) =>
        DriveStopsAtFirstThrow(preamble, operation, sample, k + 1, next);
    }
  }

  /** The do-nothing preamble of the overload without one. */
  function NoOp<S>(state: S, element: Book): S {
    state
  }

  /** The matrix and the completion a measure call leaves behind. */
  datatype Measured<S> = Measured(matrix: TimeMatrix, completion: Completion<S>)

  /**
    measure from element k on, with matrix m and container state `state`:
    preamble, operation, then the timing of the element into its bucket;
    a thrown error ends the run with the matrix as it stands.
  */
  function MeasureFrom<S>(m: TimeMatrix, s: string, o: string,
                          preamble: (S, Book) -> S, operation: (S, Book) -> Completion<S>, d: Direction,
                          sample: seq<Book>, elapsed: seq<nat>, k: nat, state: S): Measured<S>
    requires |elapsed| == |sample| && k <= |sample|
    decreases |sample| - k
  {
    if k == |sample| then Measured(m, Normal(state))
    else
      match operation(preamble(state, sample[k]), sample[k])
      case Thrown(e) => Measured(m, Thrown(e))
      case Normal(next) =>
        MeasureFrom(Accumulate(m, Bucket(IndexOf(d, |sample|, k)), s, o, elapsed[k]), s, o,
                    preamble, operation, d, sample, elapsed, k + 1, next)
  }

  /**
    A measure run is the callables driven in sample order, and the timings of
    exactly the elements whose operation completed tallied into the matrix.
  */
  lemma {:induction false} MeasureFromDecomposes<S>(m: TimeMatrix, s: string, o: string,
                                                     preamble: (S, Book) -> S, operation: (S, Book) -> Completion<S>, d: Direction,
                                                     sample: seq<Book>, elapsed: seq<nat>, k: nat, state: S)
    requires |elapsed| == |sample| && k <= |sample|
    ensures MeasureFrom(m, s, o, preamble, operation, d, sample, elapsed, k, state)
         == Measured(Tally(m, s, o, d, elapsed, k, Drive(preamble, operation, sample, k, state).done),
                     Drive(preamble, operation, sample, k, state).completion)
    decreases |sample| - k
  {
    if k < |sample| {
      match operation(preamble(state, sample[k]), sample[k])
      case Thrown(e) =>
      case Normal(next) =>
        MeasureFromDecomposes(Accumulate(m, Bucket(IndexOf(d, |sample|, k)), s, o, elapsed[k]), s, o,
                              preamble, operation, d, sample, elapsed, k + 1, next);
    }
  }

  /** The process-wide result matrix and the fixed sample, with the two measure overloads. */
  class Harness {
    var runTimes: TimeMatrix
    const sampleData: seq<Book>

    constructor (sample: seq<Book>)
      ensures runTimes == map[] && sampleData == sample
    {
      runTimes := map[];
      sampleData := sample;
    }

    /** measure(structureName, operationDescription, preamble, operation, direction) */
    method MeasureWithPreamble<S>(structureName: string, operationDescription: string,
                                  preamble: (S, Book) -> S, operation: (S, Book) -> Completion<S>,
                                  direction: Direction, state: S, elapsed: seq<nat>)
      returns (outcome: Completion<S>)
      requires |elapsed| == |sampleData|
      modifies this
      ensures Measured(runTimes, outcome)
           == MeasureFrom(old(runTimes), structureName, operationDescription, preamble, operation, direction,
                          sampleData, elapsed, 0, state)
    {
      ghost var goal := MeasureFrom(runTimes, structureName, operationDescription, preamble, operation, direction,
                                    sampleData, elapsed, 0, state);
      var sampleIndex: int := if direction == Grow then 0 else |sampleData|;
      var current := state;
      var k := 0;
      while k < |sampleData|
        invariant 0 <= k <= |sampleData|
        invariant sampleIndex == IndexOf(direction, |sampleData|, k)
        invariant goal == MeasureFrom(runTimes, structureName, operationDescription, preamble, operation, direction,
                                      sampleData, elapsed, k, current)
      {
        var element := sampleData[k];
        var prepared := preamble(current, element);
        var result := operation(prepared, element);
        if result.Thrown? {
          return result;
        }
        runTimes := Accumulate(runTimes, Bucket(sampleIndex), structureName, operationDescription, elapsed[k]);
        sampleIndex := sampleIndex + Step(direction);
        current := result.state;
        k := k + 1;
      }
      outcome := Normal(current);
    }

    /** measure(structureName, operationDescription, operation, direction): the no-op preamble. */
    method Measure<S>(structureName: string, operationDescription: string,
                      operation: (S, Book) -> Completion<S>,
                      direction: Direction, state: S, elapsed: seq<nat>)
      returns (outcome: Completion<S>)
      requires |elapsed| == |sampleData|
      modifies this
      ensures Measured(runTimes, outcome)
           == MeasureFrom(old(runTimes), structureName, operationDescription, NoOp, operation, direction,
                          sampleData, elapsed, 0, state)
    {
      outcome := MeasureWithPreamble(structureName, operationDescription, NoOp, operation, direction, state, elapsed);
    }
  }

  /** An empty sample creates no bucket and no cell, and the call completes. */
  lemma EmptySample<S>(m: TimeMatrix, s: string, o: string, d: Direction,
                       preamble: (S, Book) -> S, operation: (S, Book) -> Completion<S>, state: S)
    ensures MeasureFrom(m, s, o, preamble, operation, d, [], [], 0, state) == Measured(m, Normal(state))
  {
  }
}
