# Container analysis and comparison, modelled in Dafny

The program times the same operations on five standard containers: a vector, a doubly linked list, a singly linked list, an ISBN-keyed ordered map and an ISBN-keyed hash map. The containers hold `Book` records, and the program writes the accumulated timings as CSV. This project models four parts of it:

- **The operation functors** (`operations.dfy`, module `Operations`). There are twenty-one, one per container and verb: insert at the back or front, keyed insert, remove from the back or front, keyed remove, and search.
  - Each functor is a class holding a reference to a container class. Its `Apply` method changes the container in place.
  - The singly linked list has no tail. Its two functors that walk to the end are loops with invariants, over positions that stand for iterators: `-1` is `before_begin()`, `k` is the k-th node, and `|items|` is `end()`.
  - Removing from an empty container throws `std::out_of_range`. This is the result `OutOfRange(message)`, and the message is the source's own. Back removals end it with a full stop and front removals do not.
  - A search's result pointer is modelled as the position it points at, or the key.
- **The `Book` record** (`book.dfy`, module `Books`). This covers the constructor, the default values, the accessors and modifiers, and the six relational operators. `<` compares isbn, then author, then title, then price. `std::string` ordering is defined in `lex.dfy`.
  - `operator>>` assigns the target only when the whole read succeeded. It acts on a `BookRecord` class that stands for one `Book` variable.
- **The measurement engine and the CSV reporter** (`measure.dfy`, `report.dfy`).
  - `measure` walks the sample in order. For each element it runs the untimed preamble, then the timed operation. It adds that element's elapsed time to `runTimes[((index / 250) + 1) * 250][structure][operation]`, and the index moves by +1 (Grow, starting at 0) or −1 (Shrink, starting at the sample size).
  - The clock is replaced by `elapsed`, the nanoseconds each element's operation took.
  - The preamble and the operation are functions over the state of whatever container they act on. An operation may throw, and `measure` does not catch that.
  - `operator<<(TimeMatrix)` writes a header from the smallest bucket's (structure, operation) pairs, then one line per bucket in ascending order. Both loops follow `std::map` order (`sorting.dfy`).
  - Because the header comes only from the first bucket, a bucket with a different set of cells gets a line that does not match the header. This happens when the sample size is a multiple of 250: the shrinking runs then reach one bucket (sample size + 250) that no growing run reaches (`CsvReport.ShrinkOnlyBucketMisaligns`).
- **The timer's pure parts** (`timer.dfy`, module `Timer`). This covers the `hh_mm_ss` stand-in that timer.hpp compiles before C++20: the split of a nanosecond count into hours, minutes, seconds and milliseconds by truncation, and its `h:m:s.ms` text. It also covers the destructor's choice of display unit (thresholds 1 µs, 1 ms, 1 s and 100 s), and the rule that nothing is written for an empty message.

Supporting modules:

- `options.dfy`: the Option type.
- `decimal.dfy`: `ostream << n` for a non-negative integer, with its inverse.
- `fields.dfy`: splitting text at a separator.
- `scenarios.dfy`: the functors used as the test cases and the driver use them.

The bucket set of a run depends on its direction: 500 elements under Grow touch buckets 250 and 500, and under Shrink they touch 250, 500 and 750 (`Measurement.FiveHundredElements`).

## Model

| member | source | states |
|---|---|---|
| Books.MakeBook | Final-Project-dharbo/book.cpp:14-17 | the constructor stores its title, author, isbn and price arguments, given in that order, into the matching fields |
| Books.DefaultBook | Final-Project-dharbo/book.hpp:22-25 | a default-constructed record has empty isbn, title and author and price 0 |
| Books.Equal | Final-Project-dharbo/book.cpp:97-101 | `==` compares title, author, isbn and price, and holds when all four agree |
| Books.NotEqual | Final-Project-dharbo/book.cpp:103-106 | `!=` is the negation of `==` |
| Books.Less | Final-Project-dharbo/book.cpp:108-123 | `<` decides by the first of isbn, author, title and price that differs, strings by std::string order and prices numerically; equal records are not less |
| Books.LessEq | Final-Project-dharbo/book.cpp:125-128 | `<=` is `<` or `==` |
| Books.Greater | Final-Project-dharbo/book.cpp:130-133 | `>` is `<` with its arguments swapped |
| Books.GreaterEq | Final-Project-dharbo/book.cpp:135-138 | `>=` is `>` or `==` |
| Books.EqualIsStructural | Final-Project-dharbo/book.cpp:97-106 | `==` holds exactly when the records are identical in all four fields; `!=` exactly when they differ |
| Books.LessIrreflexive | Final-Project-dharbo/book.cpp:108-123 | no record is less than itself |
| Books.LessTransitive | Final-Project-dharbo/book.cpp:108-123 | the isbn-author-title-price comparison is transitive |
| Books.Trichotomy | Final-Project-dharbo/book.cpp:97-123 | exactly one of a < b, a == b and b < a holds |
| Books.DerivedOperators | Final-Project-dharbo/book.cpp:125-138 | `<=` is "not greater", `>` is `<` swapped, `>=` is "not less" and agrees with `<=` swapped |
| Books.BookRecord.constructor | Final-Project-dharbo/book.cpp:14-17 | the variable holds the record built from the constructor arguments |
| Books.BookRecord.Isbn | Final-Project-dharbo/book.cpp:30-33 | the const isbn accessor reads the variable's isbn |
| Books.BookRecord.Title | Final-Project-dharbo/book.cpp:35-38 | the const title accessor reads the variable's title |
| Books.BookRecord.Author | Final-Project-dharbo/book.cpp:40-43 | the const author accessor reads the variable's author |
| Books.BookRecord.Price | Final-Project-dharbo/book.cpp:45-48 | the price accessor reads the variable's price |
| Books.BookRecord.CopyIsbn | Final-Project-dharbo/book.cpp:50-53 | the non-const isbn accessor returns the same value as the const one |
| Books.BookRecord.CopyTitle | Final-Project-dharbo/book.cpp:55-58 | the non-const title accessor returns the same value as the const one |
| Books.BookRecord.CopyAuthor | Final-Project-dharbo/book.cpp:60-63 | the non-const author accessor returns the same value as the const one |
| Books.BookRecord.SetIsbn | Final-Project-dharbo/book.cpp:69-73 | replaces the isbn only, leaves the other three fields, returns the record itself |
| Books.BookRecord.SetTitle | Final-Project-dharbo/book.cpp:75-79 | replaces the title only, leaves the other three fields, returns the record itself |
| Books.BookRecord.SetAuthor | Final-Project-dharbo/book.cpp:81-85 | replaces the author only, leaves the other three fields, returns the record itself |
| Books.BookRecord.SetPrice | Final-Project-dharbo/book.cpp:87-91 | replaces the price only, leaves the other three fields, returns the record itself |
| Books.BookRecord.ReadFrom | Final-Project-dharbo/book.cpp:144-154 | the stream state is good exactly when the read succeeded; the target is then the read record, and otherwise unchanged |
| Lex.Less | Final-Project-dharbo/book.cpp:110 | std::string `<`: the first differing character decides, and a proper prefix is smaller |
| Lex.LessIrreflexive | Final-Project-dharbo/book.cpp:110-118 | no string is less than itself under std::string's order |
| Lex.LessTransitive | Final-Project-dharbo/book.cpp:110-118 | std::string's lexicographic order is transitive |
| Lex.LessTotal | Final-Project-dharbo/book.cpp:110-118 | two different strings are ordered one way or the other |
| Lex.LessAsymmetric | Final-Project-dharbo/book.cpp:110-118 | a < b excludes b < a |
| Lex.ProperPrefixIsLess | Final-Project-dharbo/book.cpp:110-118 | a proper prefix compares smaller |
| Lex.StrictTotal | Final-Project-dharbo/book.cpp:110-118 | the string order is a strict total order, as a std::map key order must be |
| Sorting.Ascending | Final-Project-dharbo/generate_csv.cpp:355 | a range-for over a std::map visits every key once, in strictly ascending order |
| Sorting.AscendingStartsAtLeast | Final-Project-dharbo/generate_csv.cpp:348 | the first key visited, `begin()`, is the smallest |
| Decimal.Text | Final-Project-dharbo/generate_csv.cpp:357 | a number prints as non-empty decimal digits without a leading zero |
| Decimal.ValueOfText | Final-Project-dharbo/generate_csv.cpp:357 | reading the printed digits back gives the number |
| Decimal.TextInjective | Final-Project-dharbo/generate_csv.cpp:360 | different numbers print differently |
| Operations.Vector.constructor | Final-Project-dharbo/generate_csv.cpp:90-108 | a vector starts with the given contents: empty, or the whole sample in order |
| Operations.List.constructor | Final-Project-dharbo/generate_csv.cpp:135-153 | a list starts with the given contents: empty, or the whole sample in order |
| Operations.ForwardList.constructor | Final-Project-dharbo/generate_csv.cpp:178-196 | a forward list starts with the given contents: empty, or the whole sample in order |
| Operations.OrderedMap.constructor | Final-Project-dharbo/generate_csv.cpp:220 | an ordered map starts with the given entries |
| Operations.HashTable.constructor | Final-Project-dharbo/generate_csv.cpp:252 | a hash map starts with the given entries |
| Operations.ForwardList.InsertAfter | Final-Project-dharbo/operations.hpp:62 | insert_after(pos) puts the book right after position pos |
| Operations.ForwardList.EraseAfter | Final-Project-dharbo/operations.hpp:217 | erase_after(pos) drops the node right after position pos |
| Operations.InsertAtBackOfVector.Apply | Final-Project-dharbo/operations.hpp:21-27 | the vector becomes its old contents followed by the book |
| Operations.InsertAtBackOfDll.Apply | Final-Project-dharbo/operations.hpp:35-40 | the list becomes its old contents followed by the book |
| Operations.InsertAtBackOfSll.Apply | Final-Project-dharbo/operations.hpp:48-63 | the walk stops on the last node (before_begin when empty), so the list becomes its old contents followed by the book |
| Operations.InsertAtFrontOfVector.Apply | Final-Project-dharbo/operations.hpp:71-76 | the vector becomes the book followed by its old contents |
| Operations.InsertAtFrontOfDll.Apply | Final-Project-dharbo/operations.hpp:84-89 | the list becomes the book followed by its old contents |
| Operations.InsertAtFrontOfSll.Apply | Final-Project-dharbo/operations.hpp:97-102 | the list becomes the book followed by its old contents |
| Operations.InsertIntoBst.Apply | Final-Project-dharbo/operations.hpp:110-116 | the map becomes the old map with the book's ISBN mapped to the book, overwriting any entry there |
| Operations.InsertIntoHashTable.Apply | Final-Project-dharbo/operations.hpp:124-130 | the map becomes the old map with the book's ISBN mapped to the book, overwriting any entry there |
| Operations.RemoveFromBackOfVector.Apply | Final-Project-dharbo/operations.hpp:142-154 | an empty vector throws the back-removal message and stays empty; otherwise exactly the last element is dropped |
| Operations.RemoveFromBackOfDll.Apply | Final-Project-dharbo/operations.hpp:162-174 | an empty list throws the back-removal message and stays empty; otherwise exactly the last element is dropped |
| Operations.RemoveFromBackOfSll.Apply | Final-Project-dharbo/operations.hpp:182-218 | an empty list throws and stays empty; otherwise the predecessor walk stops before the last node, and exactly that node is erased |
| Operations.RemoveFromFrontOfVector.Apply | Final-Project-dharbo/operations.hpp:226-238 | an empty vector throws the front-removal message and stays empty; otherwise exactly the first element is dropped |
| Operations.RemoveFromFrontOfDll.Apply | Final-Project-dharbo/operations.hpp:246-258 | an empty list throws the front-removal message and stays empty; otherwise exactly the first element is dropped |
| Operations.RemoveFromFrontOfSll.Apply | Final-Project-dharbo/operations.hpp:266-278 | an empty list throws the front-removal message and stays empty; otherwise exactly the first element is dropped |
| Operations.RemoveFromBst.Apply | Final-Project-dharbo/operations.hpp:287-297 | the entry under the book's ISBN is removed if present, nothing happens otherwise, and nothing is thrown |
| Operations.RemoveFromHashTable.Apply | Final-Project-dharbo/operations.hpp:306-317 | the entry under the book's ISBN is removed if present, nothing happens otherwise, and nothing is thrown |
| Operations.SearchWithinVector.Apply | Final-Project-dharbo/operations.hpp:330-344 | returns the first position whose ISBN is the target, or none when no element has it; the vector is not changed |
| Operations.SearchWithinDll.Apply | Final-Project-dharbo/operations.hpp:354-368 | returns the first position whose ISBN is the target, or none when no element has it; the list is not changed |
| Operations.SearchWithinSll.Apply | Final-Project-dharbo/operations.hpp:378-392 | returns the first position whose ISBN is the target, or none when no element has it; the list is not changed |
| Operations.SearchWithinBst.Apply | Final-Project-dharbo/operations.hpp:402-417 | finds the entry exactly when the target ISBN is a key, and then points at that key |
| Operations.SearchWithinHashTable.Apply | Final-Project-dharbo/operations.hpp:427-442 | finds the entry exactly when the target ISBN is a key, and then points at that key |
| Operations.IsFirstMatch | Final-Project-dharbo/operations.hpp:330-344 | a found position holds the target ISBN and no earlier position does; none means no position holds it |
| Operations.FirstMatchUnique | Final-Project-dharbo/operations.hpp:330-344 | the linear searches' contract determines the result: at most one position is the first match |
| Operations.KeyedInsertKeepsKeys | Final-Project-dharbo/operations.hpp:115 | keyed insert keeps every entry stored under its own ISBN |
| Operations.KeyedInsertSize | Final-Project-dharbo/operations.hpp:129 | keyed insert grows the map by one exactly when the ISBN is new |
| Operations.KeyedRemoveSize | Final-Project-dharbo/operations.hpp:292-296 | keyed remove shrinks the map by one exactly when the ISBN was present |
| Operations.KeyedInsertRemoveRoundTrip | Final-Project-dharbo/operations.hpp:311-316 | removing a newly inserted ISBN restores the map and leaves the ISBN absent |
| Measurement.Bucket | Final-Project-dharbo/generate_csv.cpp:332 | the bucket of index i is a positive multiple of 250 with bucket − 250 ≤ i < bucket |
| Measurement.Step | Final-Project-dharbo/generate_csv.cpp:32-33 | Grow moves the index by +1 and Shrink by −1 |
| Measurement.IndexOf | Final-Project-dharbo/generate_csv.cpp:320-333 | element k's index is k under Grow and the sample size minus k under Shrink, as the running index starts at 0 or at the size and moves by the direction |
| Measurement.Accumulate | Final-Project-dharbo/generate_csv.cpp:332 | `runTimes[b][s][o] += t`, with absent entries value-initialised; its effect is stated by the Accumulate lemmas |
| Measurement.Tally | Final-Project-dharbo/generate_csv.cpp:321-334 | each timed element's time added in sample order into its bucket's cell for this structure and operation; its effect is stated by the Tally lemmas |
| Measurement.BucketMonotone | Final-Project-dharbo/generate_csv.cpp:332 | the bucket never decreases as the index grows |
| Measurement.BucketOfMultiple | Final-Project-dharbo/generate_csv.cpp:318 | a multiple of 250 falls into the next bucket up |
| Measurement.AccumulateAdds | Final-Project-dharbo/generate_csv.cpp:332 | `+=` adds the time to the cell, and an absent cell counts as zero |
| Measurement.AccumulateShape | Final-Project-dharbo/generate_csv.cpp:332 | `operator[]` creates the bucket and the structure's row if absent, and leaves every other bucket as it was |
| Measurement.AccumulateCells | Final-Project-dharbo/generate_csv.cpp:332 | exactly one cell is created if absent, and no other cell appears or disappears |
| Measurement.AccumulateLeavesOthers | Final-Project-dharbo/generate_csv.cpp:332 | every other cell keeps its time |
| Measurement.TouchedSplit | Final-Project-dharbo/generate_csv.cpp:321-334 | the buckets of elements k..j are element k's bucket plus those of the rest |
| Measurement.TallyBuckets | Final-Project-dharbo/generate_csv.cpp:321-334 | after the elements are timed, the buckets present are the old buckets plus the buckets the elements' indices fall into |
| Measurement.TallyCells | Final-Project-dharbo/generate_csv.cpp:321-334 | a cell exists afterwards exactly when it existed before, or when it is this structure and operation in a touched bucket |
| Measurement.TallySums | Final-Project-dharbo/generate_csv.cpp:321-334 | each bucket's cell for this structure and operation gains the sum of the times of the elements in that bucket: times add up and are not replaced |
| Measurement.TallyLeavesOthers | Final-Project-dharbo/generate_csv.cpp:321-334 | cells of every other structure or operation keep their times |
| Measurement.SameShape | Final-Project-dharbo/generate_csv.cpp:321-334 | the buckets and cells created depend on the sample size and direction only, not on the times |
| Measurement.GrowBuckets | Final-Project-dharbo/generate_csv.cpp:320-333 | a Grow run over N > 0 elements touches exactly the buckets 250, 500, …, ((N − 1)/250 + 1)·250 |
| Measurement.ShrinkBuckets | Final-Project-dharbo/generate_csv.cpp:320-333 | a Shrink run over N > 0 elements touches exactly the buckets 250, 500, …, (N/250 + 1)·250 |
| Measurement.FiveHundredElements | Final-Project-dharbo/generate_csv.cpp:320-333 | 500 elements touch exactly {250, 500} under Grow and exactly {250, 500, 750} under Shrink |
| Measurement.Drive | Final-Project-dharbo/generate_csv.cpp:321-329 | the count of completed elements lies between the starting element and the sample size, and the run completes exactly when every element's operation completed |
| Measurement.Run | Final-Project-dharbo/generate_csv.cpp:321-329 | the state after a stretch of elements each ran through preamble and operation, in sample order, or none when one of them threw |
| Measurement.RunPrefix | Final-Project-dharbo/generate_csv.cpp:321-329 | a stretch of elements that all completed has every shorter stretch from the same start completed too |
| Measurement.DriveStopsAtFirstThrow | Final-Project-dharbo/generate_csv.cpp:321-329 | every element before the stopping point completed; a completed run ends in the state those elements leave, and a run that threw did so at the stopping element's operation, run on the state the earlier elements left, with that operation's error |
| Measurement.MeasureFromDecomposes | Final-Project-dharbo/generate_csv.cpp:300-335 | a measure run is the callables driven in order, with the times of exactly the completed elements tallied into the matrix |
| Measurement.MeasureFrom | Final-Project-dharbo/generate_csv.cpp:300-335 | one measure call from element k on: preamble, operation, then the element's time into its bucket; a throw ends the call with the matrix as it stands |
| Measurement.NoOp | Final-Project-dharbo/generate_csv.cpp:295 | the do-nothing preamble leaves the state as it is |
| Measurement.Harness.constructor | Final-Project-dharbo/generate_csv.cpp:69-73 | the result matrix starts empty and the sample is fixed |
| Measurement.Harness.MeasureWithPreamble | Final-Project-dharbo/generate_csv.cpp:300-335 | the loop with the running index leaves the matrix and container state that the measure run specifies |
| Measurement.Harness.Measure | Final-Project-dharbo/generate_csv.cpp:289-297 | the overload without a preamble is the one with a do-nothing preamble; the direction is always passed explicitly (see Left out) |
| Measurement.EmptySample | Final-Project-dharbo/generate_csv.cpp:320-334 | an empty sample leaves the matrix unchanged and completes |
| CsvReport.BucketsInOrder | Final-Project-dharbo/generate_csv.cpp:355 | the rows visit every bucket once, smallest first |
| CsvReport.Names | Final-Project-dharbo/generate_csv.cpp:348 | structures and operations are visited once each, in string order |
| CsvReport.ColumnsOf | Final-Project-dharbo/generate_csv.cpp:348 | the nested loop's (structure, operation) pairs for the given structures, each structure's operations in name order |
| CsvReport.Columns | Final-Project-dharbo/generate_csv.cpp:348 | the (structure, operation) pairs of one bucket's row, in the nested loop's order |
| CsvReport.ValuesOf | Final-Project-dharbo/generate_csv.cpp:358 | the accumulated times for the given structures, in the nested loop's order |
| CsvReport.Values | Final-Project-dharbo/generate_csv.cpp:358 | the accumulated times of one bucket's row, in the nested loop's order |
| CsvReport.HeaderCells | Final-Project-dharbo/generate_csv.cpp:350 | `,structure/operation` for each column |
| CsvReport.ValueCells | Final-Project-dharbo/generate_csv.cpp:360 | `,` and the decimal nanosecond count for each value |
| CsvReport.RowLine | Final-Project-dharbo/generate_csv.cpp:357-362 | a bucket's line: the bucket, its value cells, and a newline |
| CsvReport.RowLines | Final-Project-dharbo/generate_csv.cpp:355-363 | the lines of the buckets, one after another |
| CsvReport.Report | Final-Project-dharbo/generate_csv.cpp:337-367 | the report is empty exactly when the matrix is |
| CsvReport.HeaderFromSmallestBucket | Final-Project-dharbo/generate_csv.cpp:347-363 | a non-empty report is "Size", the ",structure/operation" cells of the smallest bucket and a newline, then every bucket's line, smallest first |
| CsvReport.GroupMembers | Final-Project-dharbo/generate_csv.cpp:348 | the inner loop visits exactly the structure's operations |
| CsvReport.ColumnsOfMembers | Final-Project-dharbo/generate_csv.cpp:348 | the nested loop visits exactly the cells of the visited structures |
| CsvReport.ColumnsOfAscending | Final-Project-dharbo/generate_csv.cpp:348 | the nested loop visits cells in (structure, operation) order |
| CsvReport.ColumnsAreCells | Final-Project-dharbo/generate_csv.cpp:348 | a row's columns are exactly its cells, each once, in (structure, operation) order |
| CsvReport.ValuesOfMatchColumns | Final-Project-dharbo/generate_csv.cpp:358-361 | the i-th value of the nested loop is the time of its own i-th cell |
| CsvReport.ValuesMatchColumns | Final-Project-dharbo/generate_csv.cpp:358-361 | the i-th value printed for a bucket is the time in that bucket's own i-th column |
| CsvReport.RowsAlign | Final-Project-dharbo/generate_csv.cpp:348-361 | a bucket with the same cells as the header's bucket lines up with the header: value i is the time of header column i |
| CsvReport.ColumnsOfSameShape | Final-Project-dharbo/generate_csv.cpp:348 | the columns depend only on which cells exist, not on their times |
| CsvReport.Texts | Final-Project-dharbo/generate_csv.cpp:360 | one printed field per value |
| CsvReport.NumbersOfTexts | Final-Project-dharbo/generate_csv.cpp:360 | the printed fields read back as the values |
| CsvReport.SplitCells | Final-Project-dharbo/generate_csv.cpp:357-360 | a data line without its newline splits at commas into the bucket's and the values' texts |
| CsvReport.RowReadsBack | Final-Project-dharbo/generate_csv.cpp:356-362 | each bucket's line reads back as the bucket number followed by its times in column order |
| CsvReport.ShrinkOnlyBucketMisaligns | Final-Project-dharbo/generate_csv.cpp:347-363 | with 500 elements grown and then shrunk, bucket 750's line lacks the growing operation's column that the header has |
| CsvReport.EmptyMatrixPrintsNothing | Final-Project-dharbo/generate_csv.cpp:339 | an empty matrix prints nothing |
| Timer.Hours | Final-Project-dharbo/timer.hpp:39 | the duration truncated to whole hours |
| Timer.Minutes | Final-Project-dharbo/timer.hpp:40 | the whole minutes left after the hours, below 60 |
| Timer.Seconds | Final-Project-dharbo/timer.hpp:41 | the whole seconds left after hours and minutes, below 60 |
| Timer.Subseconds | Final-Project-dharbo/timer.hpp:42 | the whole milliseconds left after hours, minutes and seconds, below 1000 |
| Timer.RecomposeBound | Final-Project-dharbo/timer.hpp:39-42 | h·3600e9 + m·60e9 + s·1e9 + ms·1e6 lies within a millisecond below the duration |
| Timer.DecompositionUnique | Final-Project-dharbo/timer.hpp:39-42 | no other bounded hours, minutes, seconds and milliseconds land within a millisecond below the duration |
| Timer.UniqueQuotient | Final-Project-dharbo/timer.hpp:39-42 | a truncated quotient is the only one bracketing its dividend |
| Timer.Format | Final-Project-dharbo/timer.hpp:58-64 | hours, minutes, seconds and milliseconds in plain decimal, separated by `:`, `:` and `.` |
| Timer.FormatReadsBack | Final-Project-dharbo/timer.hpp:58-64 | the printed `h:m:s.ms` reads back as the four fields |
| Timer.FormatDeterminesMillisecond | Final-Project-dharbo/timer.hpp:58-64 | two durations that print alike lie in the same millisecond |
| Timer.ReadingOf | Final-Project-dharbo/timer.hpp:106-110 | below 1 µs a count of nanoseconds, below 1 ms microseconds, below 1 s milliseconds, below 100 s seconds, otherwise hh:mm:ss text; exactly one applies, with the value converted to that unit |
| Timer.UnitMonotone | Final-Project-dharbo/timer.hpp:106-110 | a longer duration never gets a smaller unit |
| Timer.Suffix | Final-Project-dharbo/timer.hpp:106-110 | the text after the value for each unit, as the destructor writes it |
| Timer.SuffixIdentifiesUnit | Final-Project-dharbo/timer.hpp:106-110 | the text after the value differs between units and only between units |
| Timer.Emitted | Final-Project-dharbo/timer.hpp:100-110 | nothing is written exactly when the message is empty; otherwise the message is followed by the reading for the duration |
| Scenarios.SllBackRoundTrip | Final-Project-dharbo/operations.hpp:48-63 | appending at the back of a singly linked list and then removing from the back restores it |
| Scenarios.DllFrontRoundTrip | Final-Project-dharbo/operations.hpp:84-89 | pushing at the front of a list and then removing from the front restores it |
| Scenarios.HashTableInsertRemoveSearch | Final-Project-dharbo/operations.hpp:306-317 | after a keyed insert and a keyed remove of one book, a search for it finds nothing and the other entries are as before |
| Scenarios.BstInsertThenSearch | Final-Project-dharbo/operations.hpp:402-417 | a book inserted into the ordered map is found under its ISBN, and the entry there is that book |
| Scenarios.VectorInsertThenSearch | Final-Project-dharbo/operations.hpp:330-344 | after a back insert, a search for the book's ISBN succeeds, and at an earlier position exactly when an earlier element has that ISBN |
| Scenarios.EmptyRemovalsThrow | Final-Project-dharbo/operations.hpp:149-151 | all six front and back removals on empty containers throw, with the back or front message |
| Scenarios.ChainedModifiers | Final-Project-dharbo/book.cpp:69-91 | chained modifier calls act on one record, so the second sees the first one's change |
| Scenarios.PushPopRoundTrip | Final-Project-dharbo/operations.hpp:142-154 | pop-back undoes push-back; on a non-empty vector, pushing the last book back undoes pop-back; pop-back throws exactly on the empty vector |
| Scenarios.PushBackIsFunctor | Final-Project-dharbo/operations.hpp:21-27 | applying the insert-at-back functor to a vector leaves exactly the contents the state transformer `PushBack` gives for its old contents |
| Scenarios.PopBackIsFunctor | Final-Project-dharbo/operations.hpp:142-154 | applying the remove-from-back functor to a vector throws exactly when the state transformer `PopBack` throws, with the same message, and otherwise leaves the contents `PopBack` gives |
| Scenarios.DrivePushBack | Final-Project-dharbo/generate_csv.cpp:321-334 | growing by push-back over the rest of the sample appends it and completes |
| Scenarios.DrivePopBack | Final-Project-dharbo/generate_csv.cpp:321-334 | for a vector holding no more books than elements remain, shrinking by pop-back empties it; it completes exactly when the vector held as many books as elements remained, and otherwise throws the back message |
| Scenarios.GrowVectorRun | Final-Project-dharbo/generate_csv.cpp:300-335 | the growing run on an empty vector completes holding the whole sample, with every element timed |
| Scenarios.ShrinkVectorRun | Final-Project-dharbo/generate_csv.cpp:300-335 | the shrinking run over a vector holding the sample completes with it empty, with every element timed |
| Scenarios.GrowThenShrinkVector | Final-Project-dharbo/generate_csv.cpp:300-335 | growing then shrinking a vector completes both runs, leaves the vector empty, and creates each operation's cells in exactly the buckets its own run touched |

## Left out

- Clock reads (`Clock::now()` in generate_csv.cpp and timer.hpp): each element's elapsed time is an input, and a timer's duration is a parameter.
- `SampleData`'s shuffle with `std::random_device`: the sample is an input sequence in whatever order the shuffle left it. `shrink_to_fit` has no observable effect.
- Reading the records from standard input (`istream_iterator<Book>`): the sample is given.
- The record text format. The `std::quoted` extraction in `operator>>` and the whole `operator<<` for `Book` are not modelled.
- Books.BookRecord.ReadFrom: the outcome of the four extractions is a parameter (`Some(record)` or `None`). Only the rule "assign only when the read succeeded" is modelled.
- Floating point. The price is a `real`, so NaN and rounding are absent. The timer's microsecond, millisecond and second values are exact `real` quotients, and their printing with six significant digits is not modelled.
- Diagnostic output: `progressRAII`, the `" in "` timer on `std::clog`, and the stream pointer of `TimerType`.
- `main`: the wiring of containers to functors and the twenty-one `measure` calls. The scenarios module follows two of them, the vector's "Insert at the back" (generate_csv.cpp:91) and "Remove from the back" (generate_csv.cpp:103), one growing the vector and the other shrinking it.
- Measurement.Harness.MeasureWithPreamble: the preamble and operation are pure functions over a container state. `Scenarios.PushBackIsFunctor` and `Scenarios.PopBackIsFunctor` prove that `Scenarios.PushBack` and `Scenarios.PopBack` do what the vector's push-back and pop-back functors do to the vector. The heap-based functor classes are not passed to `measure` directly, so the model does not capture aliasing between a functor's container and other state.
- The default argument `direction = Direction::Grow` of both `measure` overloads (generate_csv.cpp:56, 64): `Measurement.Harness.Measure` and `Measurement.Harness.MeasureWithPreamble` take the direction explicitly, and a call that omits it is the call with `Grow`.
- The twenty-one functors' constructors (for example `insert_at_back_of_vector{v}` and `search_within_vector{v, "non-existent"}` in `main`) have no rows of their own. They model aggregate initialisation: they only bind the container and, for the searches, the target ISBN.
- Hashing and bucket layout of `std::unordered_map`: the hash table is a plain map, since nothing iterates it.
- Operations.SearchWithinBst.Apply and Operations.SearchWithinHashTable.Apply: the returned pointer is the key it points at, not an address. The linear searches return a position.
- Integer widths: the sample index and buckets (`std::size_t`) and the nanosecond counts (the clock's signed 64-bit representation) are unbounded naturals. Overflow of an accumulated cell is not modelled.
- Timer.Subseconds and Timer.Format: they model the `hh_mm_ss` stand-in compiled before C++20 (timer.hpp:31-48), whose sub-second field is whole milliseconds. A C++20 build uses the standard `std::chrono::hh_mm_ss<nanoseconds>`, whose sub-second field keeps nanosecond precision. With GCC up to 11.1.1 or Clang up to 12.0.0, the guard at timer.hpp:52-54 still compiles the fallback `operator<<`, which then prints the unpadded nanosecond remainder. Other C++20 builds use the standard library's `operator<<`, which prints zero-padded fields such as `00:01:40.000000000`. Neither C++20 variant is modelled.
- Lex.Less: it compares Dafny characters, which are Unicode scalar values. `std::string` compares bytes as `unsigned char`. The two orders agree when each Dafny character stands for one byte, and also when it stands for one scalar value decoded from valid UTF-8, because byte-wise comparison of UTF-8 orders strings by code point. Other encodings are not modelled.
- `TimerType`'s `reset()`, its implicit conversion to the resolution's count, and the construction of negative durations: durations are non-negative nanosecond counts.
- The `Book` copy constructor, assignment and destructor: these use the defaults, and `Book` is a value type here.
- The test file itself is doctest code. Its cases inform `Scenarios`.
