/**
  The operation functors: one per (container, verb) pair, each holding a
  reference to a live container and applied to one Book.

  The standard containers are classes over the values they hold:
  std::vector and std::list are sequences, std::forward_list is a sequence
  whose iterators are positions (-1 is before_begin(), k the k-th node and
  |items| is end()), and std::map and std::unordered_map are maps from ISBN
  to Book. A search result "pointer" is the position or the key it points at.
*/
module Operations {

  import opened Books
  import opened Options

  /** The result of a functor call: normal completion or std::out_of_range. */
  datatype Outcome = Done | OutOfRange(what: string)

  /** Message of the back removals (with a full stop) and of the front removals (without). */
  const BackRemovalMessage: string := "Cannot remove from empty data structure."
  const FrontRemovalMessage: string := "Cannot remove from empty data structure"

  // Containers

  class Vector {
    var items: seq<Book>

    constructor (items: seq<Book>)
      ensures this.items == items
    {
      this.items := items;
    }
  }

  class List {
    var items: seq<Book>

    constructor (items: seq<Book>)
      ensures this.items == items
    {
      this.items := items;
    }
  }

  class ForwardList {
    var items: seq<Book>

    constructor (items: seq<Book>)
      ensures this.items == items
    {
      this.items := items;
    }

    /** insert_after(pos, b): pos is before_begin() or a node. */
    method InsertAfter(pos: int, b: Book)
      requires -1 <= pos < |items|
      modifies this
      ensures items == old(items[..pos + 1]) + [b] + old(items[pos + 1..])
    {
      items := items[..pos + 1] + [b] + items[pos + 1..];
    }

    /** erase_after(pos): the node after pos must exist. */
    method EraseAfter(pos: int)
      requires -1 <= pos && pos + 1 < |items|
      modifies this
      ensures items == old(items[..pos + 1]) + old(items[pos + 2..])
    {
      items := items[..pos + 1] + items[pos + 2..];
    }
  }

  class OrderedMap {
    var entries: map<string, Book>

    constructor (entries: map<string, Book>)
      ensures this.entries == entries
    {
      this.entries := entries;
    }
  }

  class HashTable {
    var entries: map<string, Book>

    constructor (entries: map<string, Book>)
      ensures this.entries == entries
    {
      this.entries := entries;
    }
  }

  // Insert operations

  class InsertAtBackOfVector {
    const myVector: Vector

    constructor (v: Vector)
      ensures myVector == v
    {
      myVector := v;
    }

    method Apply(book: Book)
      modifies myVector
      ensures myVector.items == old(myVector.items) + [book]
    {
      myVector.items := myVector.items + [book];
    }
  }

  class InsertAtBackOfDll {
    const myDll: List

    constructor (l: List)
      ensures myDll == l
    {
      myDll := l;
    }

    method Apply(book: Book)
      modifies myDll
      ensures myDll.items == old(myDll.items) + [book]
    {
      myDll.items := myDll.items + [book];
    }
  }

  class InsertAtBackOfSll {
    const mySll: ForwardList

    constructor (l: ForwardList)
      ensures mySll == l
    {
      mySll := l;
    }

    /** Walks from before_begin() over every node, then inserts after the last one. */
    method Apply(book: Book)
      modifies mySll
      ensures mySll.items == old(mySll.items) + [book]
    {
      var iter := -1;
      var node := 0;
      while node < |mySll.items|
        invariant 0 <= node <= |mySll.items|
        invariant iter == node - 1
      {
        iter := iter + 1;
        node := node + 1;
      }
      mySll.InsertAfter(iter, book);
    }
  }

  class InsertAtFrontOfVector {
    const myVector: Vector

    constructor (v: Vector)
      ensures myVector == v
    {
      myVector := v;
    }

    method Apply(book: Book)
      modifies myVector
      ensures myVector.items == [book] + old(myVector.items)
    {
      myVector.items := [book] + myVector.items;
    }
  }

  class InsertAtFrontOfDll {
    const myDll: List

    constructor (l: List)
      ensures myDll == l
    {
      myDll := l;
    }

    method Apply(book: Book)
      modifies myDll
      ensures myDll.items == [book] + old(myDll.items)
    {
      myDll.items := [book] + myDll.items;
    }
  }

  class InsertAtFrontOfSll {
    const mySll: ForwardList

    constructor (l: ForwardList)
      ensures mySll == l
    {
      mySll := l;
    }

    method Apply(book: Book)
      modifies mySll
      ensures mySll.items == [book] + old(mySll.items)
    {
      mySll.items := [book] + mySll.items;
    }
  }

  class InsertIntoBst {
    const myBst: OrderedMap

    constructor (m: OrderedMap)
      ensures myBst == m
    {
      myBst := m;
    }

    method Apply(book: Book)
      modifies myBst
      ensures myBst.entries == old(myBst.entries)[book.isbn := book]
    {
      myBst.entries := myBst.entries[book.isbn := book];
    }
  }

  class InsertIntoHashTable {
    const myHashTable: HashTable

    constructor (m: HashTable)
      ensures myHashTable == m
    {
      myHashTable := m;
    }

    method Apply(book: Book)
      modifies myHashTable
      ensures myHashTable.entries == old(myHashTable.entries)[book.isbn := book]
    {
      myHashTable.entries := myHashTable.entries[book.isbn := book];
    }
  }

  // Remove operations: the Book argument of the front and back removals is unused.

  class RemoveFromBackOfVector {
    const myVector: Vector

    constructor (v: Vector)
      ensures myVector == v
    {
      myVector := v;
    }

    method Apply(unused: Book) returns (r: Outcome)
      modifies myVector
      ensures old(myVector.items) == [] ==> r == OutOfRange(BackRemovalMessage) && myVector.items == []
      ensures old(myVector.items) != [] ==>
        r == Done && myVector.items == old(myVector.items)[..|old(myVector.items)| - 1]
    {
      if myVector.items == [] {
        return OutOfRange(BackRemovalMessage);
      }
      myVector.items := myVector.items[..|myVector.items| - 1];
      r := Done;
    }
  }

  class RemoveFromBackOfDll {
    const myDll: List

    constructor (l: List)
      ensures myDll == l
    {
      myDll := l;
    }

    method Apply(unused: Book) returns (r: Outcome)
      modifies myDll
      ensures old(myDll.items) == [] ==> r == OutOfRange(BackRemovalMessage) && myDll.items == []
      ensures old(myDll.items) != [] ==>
        r == Done && myDll.items == old(myDll.items)[..|old(myDll.items)| - 1]
    {
      if myDll.items == [] {
        return OutOfRange(BackRemovalMessage);
      }
      myDll.items := myDll.items[..|myDll.items| - 1];
      r := Done;
    }
  }

  class RemoveFromBackOfSll {
    const mySll: ForwardList

    constructor (l: ForwardList)
      ensures mySll == l
    {
      mySll := l;
    }

    /**
      Walks predecessor and current one node apart until current reaches
      end(), so predecessor stops just before the last node, then erases the
      node after predecessor.
    */
    method Apply(unused: Book) returns (r: Outcome)
      modifies mySll
      ensures old(mySll.items) == [] ==> r == OutOfRange(BackRemovalMessage) && mySll.items == []
      ensures old(mySll.items) != [] ==>
        r == Done && mySll.items == old(mySll.items)[..|old(mySll.items)| - 1]
    {
      if mySll.items == [] {
        return OutOfRange(BackRemovalMessage);
      }
      var predecessor := -1;
      var current := 0;
      current := current + 1;
      while current != |mySll.items|
        invariant 1 <= current <= |mySll.items|
        invariant predecessor == current - 2
        decreases |mySll.items| - current
      {
        current := current + 1;
        predecessor := predecessor + 1;
      }
      mySll.EraseAfter(predecessor);
      r := Done;
    }
  }

  class RemoveFromFrontOfVector {
    const myVector: Vector

    constructor (v: Vector)
      ensures myVector == v
    {
      myVector := v;
    }

    method Apply(unused: Book) returns (r: Outcome)
      modifies myVector
      ensures old(myVector.items) == [] ==> r == OutOfRange(FrontRemovalMessage) && myVector.items == []
      ensures old(myVector.items) != [] ==> r == Done && myVector.items == old(myVector.items)[1..]
    {
      if myVector.items == [] {
        return OutOfRange(FrontRemovalMessage);
      }
      myVector.items := myVector.items[1..];
      r := Done;
    }
  }

  class RemoveFromFrontOfDll {
    const myDll: List

    constructor (l: List)
      ensures myDll == l
    {
      myDll := l;
    }

    method Apply(unused: Book) returns (r: Outcome)
      modifies myDll
      ensures old(myDll.items) == [] ==> r == OutOfRange(FrontRemovalMessage) && myDll.items == []
      ensures old(myDll.items) != [] ==> r == Done && myDll.items == old(myDll.items)[1..]
    {
      if myDll.items == [] {
        return OutOfRange(FrontRemovalMessage);
      }
      myDll.items := myDll.items[1..];
      r := Done;
    }
  }

  class RemoveFromFrontOfSll {
    const mySll: ForwardList

    constructor (l: ForwardList)
      ensures mySll == l
    {
      mySll := l;
    }

    method Apply(unused: Book) returns (r: Outcome)
      modifies mySll
      ensures old(mySll.items) == [] ==> r == OutOfRange(FrontRemovalMessage) && mySll.items == []
      ensures old(mySll.items) != [] ==> r == Done && mySll.items == old(mySll.items)[1..]
    {
      if mySll.items == [] {
        return OutOfRange(FrontRemovalMessage);
      }
      mySll.items := mySll.items[1..];
      r := Done;
    }
  }

  /** Keyed removals delete the entry under the book's ISBN, if any, and never throw. */
  class RemoveFromBst {
    const myBst: OrderedMap

    constructor (m: OrderedMap)
      ensures myBst == m
    {
      myBst := m;
    }

    method Apply(book: Book)
      modifies myBst
      ensures myBst.entries == old(myBst.entries) - {book.isbn}
    {
      if book.isbn in myBst.entries {
        myBst.entries := myBst.entries - {book.isbn};
      }
    }
  }

  class RemoveFromHashTable {
    const myHashTable: HashTable

    constructor (m: HashTable)
      ensures myHashTable == m
    {
      myHashTable := m;
    }

    method Apply(book: Book)
      modifies myHashTable
      ensures myHashTable.entries == old(myHashTable.entries) - {book.isbn}
    {
      if book.isbn in myHashTable.entries {
        myHashTable.entries := myHashTable.entries - {book.isbn};
      }
    }
  }

  // Search operations: the Book argument is unused; the target ISBN is fixed at construction.

  /** `found` is the first position holding `isbn`, or None when no position does. */
  predicate IsFirstMatch(items: seq<Book>, isbn: string, found: Option<nat>) {
    match found
    case Some(k) => k < |items| && items[k].isbn == isbn && forall j :: 0 <= j < k ==> items[j].isbn != isbn
    case None => forall j :: 0 <= j < |items| ==> items[j].isbn != isbn
  }

  /** At most one result satisfies IsFirstMatch, so a search's contract determines it. */
  lemma FirstMatchUnique(items: seq<Book>, isbn: string, a: Option<nat>, b: Option<nat>)
    requires IsFirstMatch(items, isbn, a) && IsFirstMatch(items, isbn, b)
    ensures a == b
  {
  }

  class SearchWithinVector {
    const myVector: Vector
    const targetIsbn: string

    constructor (v: Vector, target: string)
      ensures myVector == v && targetIsbn == target
    {
      myVector := v;
      targetIsbn := target;
    }

    method Apply(unused: Book) returns (found: Option<nat>)
      ensures IsFirstMatch(myVector.items, targetIsbn, found)
    {
      var i := 0;
      while i < |myVector.items|
        invariant 0 <= i <= |myVector.items|
        invariant forall j :: 0 <= j < i ==> myVector.items[j].isbn != targetIsbn
      {
        if myVector.items[i].isbn == targetIsbn {
          return Some(i);
        }
        i := i + 1;
      }
      return None;
    }
  }

  class SearchWithinDll {
    const myDll: List
    const targetIsbn: string

    constructor (l: List, target: string)
      ensures myDll == l && targetIsbn == target
    {
      myDll := l;
      targetIsbn := target;
    }

    method Apply(unused: Book) returns (found: Option<nat>)
      ensures IsFirstMatch(myDll.items, targetIsbn, found)
    {
      var node := 0;
      while node < |myDll.items|
        invariant 0 <= node <= |myDll.items|
        invariant forall j :: 0 <= j < node ==> myDll.items[j].isbn != targetIsbn
      {
        if myDll.items[node].isbn == targetIsbn {
          return Some(node);
        }
        node := node + 1;
      }
      return None;
    }
  }

  class SearchWithinSll {
    const mySll: ForwardList
    const targetIsbn: string

    constructor (l: ForwardList, target: string)
      ensures mySll == l && targetIsbn == target
    {
      mySll := l;
      targetIsbn := target;
    }

    method Apply(unused: Book) returns (found: Option<nat>)
      ensures IsFirstMatch(mySll.items, targetIsbn, found)
    {
      var node := 0;
      while node < |mySll.items|
        invariant 0 <= node <= |mySll.items|
        invariant forall j :: 0 <= j < node ==> mySll.items[j].isbn != targetIsbn
      {
        if mySll.items[node].isbn == targetIsbn {
          return Some(node);
        }
        node := node + 1;
      }
      return None;
    }
  }

  /** find(target) then at(target): the result is the target key when it is present. */
  class SearchWithinBst {
    const myBst: OrderedMap
    const targetIsbn: string

    constructor (m: OrderedMap, target: string)
      ensures myBst == m && targetIsbn == target
    {
      myBst := m;
      targetIsbn := target;
    }

    method Apply(unused: Book) returns (found: Option<string>)
      ensures found.Some? <==> targetIsbn in myBst.entries
      ensures found.Some? ==> found.value == targetIsbn
    {
      if targetIsbn in myBst.entries {
        return Some(targetIsbn);
      }
      return None;
    }
  }

  class SearchWithinHashTable {
    const myHashTable: HashTable
    const targetIsbn: string

    constructor (m: HashTable, target: string)
      ensures myHashTable == m && targetIsbn == target
    {
      myHashTable := m;
      targetIsbn := target;
    }

    method Apply(unused: Book) returns (found: Option<string>)
      ensures found.Some? <==> targetIsbn in myHashTable.entries
      ensures found.Some? ==> found.value == targetIsbn
    {
      if targetIsbn in myHashTable.entries {
        return Some(targetIsbn);
      }
      return None;
    }
  }

  // Properties of the keyed containers

  /** Every entry is stored under its own ISBN, as the keyed inserts store it. */
  ghost predicate KeyedByIsbn(entries: map<string, Book>) {
    forall k :: k in entries ==> entries[k].isbn == k
  }

  /** Keyed insert keeps every entry under its own ISBN. */
  lemma KeyedInsertKeepsKeys(entries: map<string, Book>, book: Book)
    requires KeyedByIsbn(entries)
    ensures KeyedByIsbn(entries[book.isbn := book])
  {
  }

  /** Keyed insert grows the map by one exactly when the ISBN is new. */
  lemma KeyedInsertSize(entries: map<string, Book>, book: Book)
    ensures |entries[book.isbn := book]| == if book.isbn in entries then |entries| else |entries| + 1
  {
  }

  /** Keyed removal shrinks the map by one exactly when the ISBN was present. */
  lemma KeyedRemoveSize(entries: map<string, Book>, book: Book)
    ensures |entries - {book.isbn}| == if book.isbn in entries then |entries| - 1 else |entries|
  {
  }

  /** Removing a freshly inserted ISBN restores the map, and the ISBN is then absent. */
  lemma KeyedInsertRemoveRoundTrip(entries: map<string, Book>, book: Book)
    requires book.isbn !in entries
    ensures entries[book.isbn := book] - {book.isbn} == entries
    ensures book.isbn !in entries[book.isbn := book] - {book.isbn}
  {
  }
}
