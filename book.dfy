/**
  The Book record: isbn, title, author and price, with structural equality and
  the lexicographic order isbn, then author, then title, then price.
  A Book is a value (containers hold copies); in-place modification goes
  through BookRecord, which stands for one Book variable (an lvalue).
*/
module Books {

  import Lex
  import opened Options

  /** Field layout isbn_, title_, author_, price_. */
  datatype Book = Book(isbn: string, title: string, author: string, price: real)

  /** The constructor Book(title, author, isbn, price): note the parameter order. */
  function MakeBook(title: string, author: string, isbn: string, price: real): (b: Book)
    ensures b.title == title && b.author == author && b.isbn == isbn && b.price == price
  {
    Book(isbn, title, author, price)
  }

  /** Book() with every default argument. */
  function DefaultBook(): (b: Book)
    ensures b.isbn == [] && b.title == [] && b.author == [] && b.price == 0.0
  {
    MakeBook([], [], [], 0.0)
  }

  // Relational operators

  predicate Equal(a: Book, b: Book) {
    a.title == b.title && a.author == b.author && a.isbn == b.isbn && a.price == b.price
  }

  predicate NotEqual(a: Book, b: Book) { !Equal(a, b) }

  predicate Less(a: Book, b: Book) {
    if a.isbn != b.isbn then Lex.Less(a.isbn, b.isbn)
    else if a.author != b.author then Lex.Less(a.author, b.author)
    else if a.title != b.title then Lex.Less(a.title, b.title)
    else if a.price != b.price then a.price < b.price
    else false
  }

  predicate LessEq(a: Book, b: Book) { Less(a, b) || Equal(a, b) }

  predicate Greater(a: Book, b: Book) { Less(b, a) }

  predicate GreaterEq(a: Book, b: Book) { Greater(a, b) || Equal(a, b) }

  /** operator== holds exactly when all four fields agree. */
  lemma EqualIsStructural(a: Book, b: Book)
    ensures Equal(a, b) <==> a == b
    ensures NotEqual(a, b) <==> a != b
  {
  }

  lemma LessIrreflexive(a: Book)
    ensures !Less(a, a)
  {
  }

  lemma LessTransitive(a: Book, b: Book, c: Book)
    requires Less(a, b) && Less(b, c)
    ensures Less(a, c)
  {
    Lex.StrictTotal();
  }

  /** Exactly one of a < b, a == b and b < a holds. */
  lemma {:induction false} Trichotomy(a: Book, b: Book)
    ensures Less(a, b) || Equal(a, b) || Less(b, a)
    ensures !(Less(a, b) && Equal(a, b))
    ensures !(Less(b, a) && Equal(a, b))
    ensures !(Less(a, b) && Less(b, a))
  {
    Lex.StrictTotal();
  }

  /** The derived operators agree with the usual reading of a total order. */
  lemma {:induction false} DerivedOperators(a: Book, b: Book)
    ensures LessEq(a, b) <==> !Less(b, a)
    ensures Greater(a, b) <==> Less(b, a)
    ensures GreaterEq(a, b) <==> !Less(a, b)
    ensures GreaterEq(a, b) <==> LessEq(b, a)
  {
    Trichotomy(a, b);
  }

  /**
    One Book variable. Its modifiers assign one field of the variable and
    return the variable itself, so calls chain; operator>> assigns it only
    when the whole read succeeded.
  */
  class BookRecord {
    var value: Book

    constructor (title: string, author: string, isbn: string, price: real)
      ensures value == MakeBook(title, author, isbn, price)
    {
      value := MakeBook(title, author, isbn, price);
    }

    // Const accessors return a reference to the field.

    function Isbn(): string reads this { value.isbn }
    function Title(): string reads this { value.title }
    function Author(): string reads this { value.author }
    function Price(): real reads this { value.price }

    // Non-const accessors return a copy of the field.

    method CopyIsbn() returns (s: string)
      ensures s == Isbn()
    {
      s := value.isbn;
    }

    method CopyTitle() returns (s: string)
      ensures s == Title()
    {
      s := value.title;
    }

    method CopyAuthor() returns (s: string)
      ensures s == Author()
    {
      s := value.author;
    }

    // Modifiers

    method SetIsbn(newIsbn: string) returns (self: BookRecord)
      modifies this
      ensures self == this
      ensures value == old(value).(isbn := newIsbn)
    {
      value := value.(isbn := newIsbn);
      self := this;
    }

    method SetTitle(newTitle: string) returns (self: BookRecord)
      modifies this
      ensures self == this
      ensures value == old(value).(title := newTitle)
    {
      value := value.(title := newTitle);
      self := this;
    }

    method SetAuthor(newAuthor: string) returns (self: BookRecord)
      modifies this
      ensures self == this
      ensures value == old(value).(author := newAuthor)
    {
      value := value.(author := newAuthor);
      self := this;
    }

    method SetPrice(newPrice: real) returns (self: BookRecord)
      modifies this
      ensures self == this
      ensures value == old(value).(price := newPrice)
    {
      value := value.(price := newPrice);
      self := this;
    }

    /**
      operator>>: `read` is what the four quoted/number extractions produced
      into a default-constructed temporary, or None when the stream failed.
      The variable is assigned only on success; `ok` is the stream's state.
    */
    method ReadFrom(read: Option<Book>) returns (ok: bool)
      modifies this
      ensures ok <==> read.Some?
      ensures ok ==> value == read.value
      ensures !ok ==> value == old(value)
    {
      ok := read.Some?;
      if ok {
        value := read.value;
      }
    }
  }
}
