/**
  The functors used the way the test cases and the measurement driver use
  them: a container built, operated on through its functors, and inspected.
  A final part views the vector's push-back and pop-back functors as the
  state transformers the measurement model drives, and follows a whole run.
*/
module Scenarios {

  import opened Books
  import opened Options
  import opened Operations
  import opened Measurement

  /** Appending at the back of a singly linked list and removing from the back again restores it. */
  method SllBackRoundTrip(items: seq<Book>, book: Book) returns (after: seq<Book>, outcome: Outcome)
    ensures outcome == Done && after == items
  {
    var sll := new ForwardList(items);
    var insert := new InsertAtBackOfSll(sll);
    insert.Apply(book);
    var remove := new RemoveFromBackOfSll(sll);
    outcome := remove.Apply(book);
    after := sll.items;
    assert (items + [book])[..|items|] == items;
  }

  /** Pushing at the front of a list and popping the front again restores it. */
  method DllFrontRoundTrip(items: seq<Book>, book: Book) returns (after: seq<Book>, outcome: Outcome)
    ensures outcome == Done && after == items
  {
    var dll := new List(items);
    var insert := new InsertAtFrontOfDll(dll);
    insert.Apply(book);
    var remove := new RemoveFromFrontOfDll(dll);
    outcome := remove.Apply(book);
    after := dll.items;
  }

  /** After a keyed insert and a keyed remove of the same book, a search finds nothing. */
  method HashTableInsertRemoveSearch(entries: map<string, Book>, book: Book)
    returns (found: Option<string>, after: map<string, Book>)
    ensures found == None
    ensures after == entries - {book.isbn}
  {
    var table := new HashTable(entries);
    var insert := new InsertIntoHashTable(table);
    insert.Apply(book);
    var remove := new RemoveFromHashTable(table);
    remove.Apply(book);
    var search := new SearchWithinHashTable(table, book.isbn);
    found := search.Apply(book);
    after := table.entries;
  }

  /** A book inserted into the ordered map is found under its ISBN, and the entry there is that book. */
  method BstInsertThenSearch(entries: map<string, Book>, book: Book)
    returns (found: Option<string>, stored: Book)
    ensures found == Some(book.isbn) && stored == book
  {
    var bst := new OrderedMap(entries);
    var insert := new InsertIntoBst(bst);
    insert.Apply(book);
    var search := new SearchWithinBst(bst, book.isbn);
    found := search.Apply(book);
    stored := bst.entries[found.value];
  }

  /** Inserting a book at the back of a vector makes a search for its ISBN find it, or an earlier copy. */
  method VectorInsertThenSearch(items: seq<Book>, book: Book) returns (found: Option<nat>)
    ensures found.Some? && found.value <= |items|
    ensures found.value < |items| <==> exists i :: 0 <= i < |items| && items[i].isbn == book.isbn
  {
    var vec := new Vector(items);
    var insert := new InsertAtBackOfVector(vec);
    insert.Apply(book);
    var search := new SearchWithinVector(vec, book.isbn);
    found := search.Apply(book);
    assert vec.items == items + [book];
    assert vec.items[|items|].isbn == book.isbn;
    if found.value < |items| {
      assert items[found.value].isbn == book.isbn;
    } else {
      forall j | 0 <= j < |items| ensures items[j].isbn != book.isbn {
        assert vec.items[j] == items[j];
      }
    }
  }

  /** Every removal from an empty container throws, with the message of its end. */
  method EmptyRemovalsThrow(unused: Book) returns (outcomes: seq<Outcome>)
    ensures outcomes == [OutOfRange(BackRemovalMessage), OutOfRange(BackRemovalMessage), OutOfRange(BackRemovalMessage),
                         OutOfRange(FrontRemovalMessage), OutOfRange(FrontRemovalMessage), OutOfRange(FrontRemovalMessage)]
  {
    var vec := new Vector([]);
    var dll := new List([]);
    var sll := new ForwardList([]);
    var backOfVector := new RemoveFromBackOfVector(vec);
    var backOfDll := new RemoveFromBackOfDll(dll);
    var backOfSll := new RemoveFromBackOfSll(sll);
    var frontOfVector := new RemoveFromFrontOfVector(vec);
    var frontOfDll := new RemoveFromFrontOfDll(dll);
    var frontOfSll := new RemoveFromFrontOfSll(sll);
    var r1 := backOfVector.Apply(unused);
    var r2 := backOfDll.Apply(unused);
    var r3 := backOfSll.Apply(unused);
    var r4 := frontOfVector.Apply(unused);
    var r5 := frontOfDll.Apply(unused);
    var r6 := frontOfSll.Apply(unused);
    outcomes := [r1, r2, r3, r4, r5, r6];
  }

  /** The modifiers chain: each returns the record itself, so the second call sees the first one's change. */
  method ChainedModifiers(title: string, author: string, isbn: string, price: real, newIsbn: string, newPrice: real)
    returns (result: Book)
    ensures result == Book(newIsbn, title, author, newPrice)
  {
    var record := new BookRecord(title, author, isbn, price);
    var self := record.SetIsbn(newIsbn);
    var again := self.SetPrice(newPrice);
    result := again.value;
  }

  // The vector functors as state transformers of the measurement model

  /** insert_at_back_of_vector on the container's contents. */
  function PushBack(items: seq<Book>, book: Book): Completion<seq<Book>> {
    Normal(items + [book])
  }

  /** remove_from_back_of_vector on the container's contents; the book is ignored. */
  function PopBack(items: seq<Book>, unused: Book): Completion<seq<Book>> {
    if items == [] then Thrown(BackRemovalMessage) else Normal(items[..|items| - 1])
  }

  /**
    PopBack undoes PushBack, and on a non-empty vector PushBack of the last
    book undoes PopBack; only the empty vector makes PopBack throw.
  */
  lemma PushPopRoundTrip(items: seq<Book>, book: Book, unused: Book)
    ensures PushBack(items, book).Normal?
    ensures PopBack(PushBack(items, book).state, unused) == Normal(items)
    ensures PopBack(items, unused).Thrown? <==> items == []
    ensures items != [] ==> PushBack(PopBack(items, unused).state, items[|items| - 1]) == Normal(items)
  {
    assert (items + [book])[..|items|] == items;
    if items != [] {
      assert items[..|items| - 1] + [items[|items| - 1]] == items;
    }
  }

  /** insert_at_back_of_vector applied to a vector leaves exactly the contents PushBack gives. */
  method PushBackIsFunctor(v: Vector, book: Book)
    modifies v
    ensures PushBack(old(v.items), book) == Normal(v.items)
  {
    var insert := new InsertAtBackOfVector(v);
    insert.Apply(book);
  }

  /**
    remove_from_back_of_vector applied to a vector throws exactly when PopBack
    does, with the same message, and otherwise leaves the contents PopBack gives.
  */
  method PopBackIsFunctor(v: Vector, book: Book) returns (r: Outcome)
    modifies v
    ensures PopBack(old(v.items), book) == if r.OutOfRange? then Thrown(r.what) else Normal(v.items)
  {
    var remove := new RemoveFromBackOfVector(v);
    r := remove.Apply(book);
  }

  /** Growing by push-back over the sample from element k on appends the rest of the sample. */
  lemma {:induction false} DrivePushBack(sample: seq<Book>, k: nat, items: seq<Book>)
    requires k <= |sample|
    ensures Drive(NoOp, PushBack, sample, k, items) == Driven(|sample|, Normal(items + sample[k..]))
    decreases |sample| - k
  {
    if k < |sample| {
      assert PushBack(NoOp(items, sample[k]), sample[k]) == Normal(items + [sample[k]]);
      assert Drive(NoOp, PushBack, sample, k, items) == Drive(NoOp, PushBack, sample, k + 1, items + [sample[k]]);
      DrivePushBack(sample, k + 1, items + [sample[k]]);
      assert items + [sample[k]] + sample[k + 1..] == items + sample[k..];
    } else {
      assert items + sample[k..] == items;
    }
  }

  /**
    Shrinking by pop-back over the sample from element k on empties a
    container with no more books than elements left, and the run then
    completes only if exactly as many elements were left; with fewer books
    the first pop on the empty container throws.
  */
  lemma {:induction false} DrivePopBack(sample: seq<Book>, k: nat, items: seq<Book>)
    requires k <= |sample| && |items| <= |sample| - k
    ensures Drive(NoOp, PopBack, sample, k, items).done == k + |items|
    ensures Drive(NoOp, PopBack, sample, k, items).completion
         == if |items| == |sample| - k then Normal([]) else Thrown(BackRemovalMessage)
    decreases |sample| - k
  {
    if k < |sample| && items != [] {
      DrivePopBack(sample, k + 1, items[..|items| - 1]);
    }
  }

  /** The growing run completes with the whole sample in the vector, every element timed. */
  lemma GrowVectorRun(structure: string, operation: string, sample: seq<Book>, elapsed: seq<nat>)
    requires |elapsed| == |sample|
    ensures MeasureFrom(map[], structure, operation, NoOp, PushBack, Grow, sample, elapsed, 0, [])
         == Measured(Tally(map[], structure, operation, Grow, elapsed, 0, |sample|), Normal(sample))
  {
    MeasureFromDecomposes(map[], structure, operation, NoOp, PushBack, Grow, sample, elapsed, 0, []);
    DrivePushBack(sample, 0, []);
    assert [] + sample[0..] == sample;
  }

  /** The shrinking run over a vector holding as many books as the sample completes with it empty. */
  lemma ShrinkVectorRun(m: TimeMatrix, structure: string, operation: string, sample: seq<Book>, elapsed: seq<nat>)
    requires |elapsed| == |sample|
    ensures MeasureFrom(m, structure, operation, NoOp, PopBack, Shrink, sample, elapsed, 0, sample)
         == Measured(Tally(m, structure, operation, Shrink, elapsed, 0, |sample|), Normal([]))
  {
    MeasureFromDecomposes(m, structure, operation, NoOp, PopBack, Shrink, sample, elapsed, 0, sample);
    DrivePopBack(sample, 0, sample);
  }

  /**
    What generate_csv.cpp does for the vector ("Vector", then "Insert at the
    back" and "Remove from the back"): grow an empty vector over the whole
    sample, then shrink it over the whole sample. Both runs complete, the
    vector ends as it started, and the matrix holds a cell for each
    operation in exactly the buckets its own run touched.
  */
  lemma GrowThenShrinkVector(structure: string, grow: string, shrink: string,
                             sample: seq<Book>, growTimes: seq<nat>, shrinkTimes: seq<nat>,
                             b: nat, s: string, o: string)
    requires grow != shrink
    requires |growTimes| == |sample| && |shrinkTimes| == |sample|
    ensures var grown := MeasureFrom(map[], structure, grow, NoOp, PushBack, Grow, sample, growTimes, 0, []);
            var shrunk := MeasureFrom(grown.matrix, structure, shrink, NoOp, PopBack, Shrink, sample, shrinkTimes, 0, sample);
            && grown.completion == Normal(sample)
            && shrunk.completion == Normal([])
            && (Has(shrunk.matrix, b, s, o) <==>
                  s == structure
                  && ((o == grow && b in Touched(Grow, |sample|, 0, |sample|))
                      || (o == shrink && b in Touched(Shrink, |sample|, 0, |sample|))))
  {
    GrowVectorRun(structure, grow, sample, growTimes);
    var grown := Tally(map[], structure, grow, Grow, growTimes, 0, |sample|);
    ShrinkVectorRun(grown, structure, shrink, sample, shrinkTimes);
    TallyCells(map[], structure, grow, Grow, growTimes, 0, |sample|, b, s, o);
    TallyCells(grown, structure, shrink, Shrink, shrinkTimes, 0, |sample|, b, s, o);
  }
}
