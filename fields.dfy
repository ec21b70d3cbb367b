/**
  Splitting text at a separator character, as a reader of the program's
  text output would: the inverse of writing fields with a separator between.
*/
module Fields {

  import opened Options

  /** The text up to the first c, and what follows it, when c occurs. */
  function SplitAt(text: string, c: char): (r: Option<(string, string)>)
    ensures r.Some? ==> text == r.value.0 + [c] + r.value.1 && c !in r.value.0
    ensures r.None? <==> c !in text
  {
    if text == [] then None
    else if text[0] == c then Some(([], text[1..]))
    else
      match SplitAt(text[1..], c)
      case None => None
      case Some(parts) => Some(([text[0]] + parts.0, parts.1))
  }

  /** Splitting a text made of a field without c, then c, then anything, finds that field. */
  lemma {:induction false} SplitAtFindsField(field: string, c: char, rest: string)
    requires c !in field
    ensures SplitAt(field + [c] + rest, c) == Some((field, rest))
    decreases |field|
  {
    if field != [] {
      assert (field + [c] + rest)[1..] == field[1..] + [c] + rest;
      SplitAtFindsField(field[1..], c, rest);
      assert [field[0]] + field[1..] == field;
    }
  }

  /** The fields of a text separated by c: the text between consecutive occurrences. */
  function Split(text: string, c: char): (r: seq<string>)
    ensures |r| > 0
    decreases |text|
  {
    match SplitAt(text, c)
    case None => [text]
    case Some(parts) => [parts.0] + Split(parts.1, c)
  }

  /** A text without c is a single field. */
  lemma SplitWithout(text: string, c: char)
    requires c !in text
    ensures Split(text, c) == [text]
  {
  }

  /** A field without c, then c, then the rest: the field comes first, then the fields of the rest. */
  lemma SplitFirstField(field: string, c: char, rest: string)
    requires c !in field
    ensures Split(field + [c] + rest, c) == [field] + Split(rest, c)
  {
    SplitAtFindsField(field, c, rest);
  }
}
