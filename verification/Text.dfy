/** Texts cut at a separator, as the client's helper does. */
module Text {

  /** The records of a text between separators. */
  function Split(s: string, separator: char): (records: seq<string>)
    ensures records != []
  {
    if s == [] then [[]]
    else
      var rest := Split(s[1..], separator);
      if s[0] == separator then [[]] + rest else [[s[0]] + rest[0]] + rest[1..]
  }

  /** A text without separators is one record. */
  lemma {:induction false} SplitPlain(s: string, separator: char)
    requires separator !in s
    ensures Split(s, separator) == [s]
  {
    if s != [] {
      SplitPlain(s[1..], separator);
      assert [s[0]] + s[1..] == s;
    }
  }

  /** The first record ends at the first separator. */
  lemma {:induction false} SplitFirst(record: string, separator: char, rest: string)
    requires separator !in record
    ensures Split(record + [separator] + rest, separator) == [record] + Split(rest, separator)
  {
    var s := record + [separator] + rest;
    if record == [] {
      assert s[1..] == rest;
    } else {
      assert s[1..] == record[1..] + [separator] + rest;
      SplitFirst(record[1..], separator, rest);
      assert [record[0]] + record[1..] == record;
    }
  }

  /** No record holds a separator. */
  lemma {:induction false} RecordsArePlain(s: string, separator: char)
    ensures forall i :: 0 <= i < |Split(s, separator)| ==> separator !in Split(s, separator)[i]
  {
    if s != [] {
      RecordsArePlain(s[1..], separator);
    }
  }
}
