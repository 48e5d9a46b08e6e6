/** String operations the models share. */
module Strings {
  /** text.split(separator) */
  function Split(text: string, separator: char): (parts: seq<string>)
    ensures |parts| > 0
  {
    if text == "" then [""]
    else if text[0] == separator then [""] + Split(text[1..], separator)
    else
      var rest := Split(text[1..], separator);
      [[text[0]] + rest[0]] + rest[1..]
  }

  /** The length of the part before the first separator. */
  function Until(text: string, separator: char): (n: nat)
    ensures n <= |text|
    ensures forall i :: 0 <= i < n ==> text[i] != separator
    ensures n < |text| ==> text[n] == separator
  {
    if text == "" || text[0] == separator then 0 else 1 + Until(text[1..], separator)
  }

  function SplitFirst(text: string, separator: char): seq<string> {
    var n := Until(text, separator);
    if n == |text| then [text] else [text[..n]] + Split(text[n + 1..], separator)
  }

  /** Splitting off the first part. */
  lemma {:induction false} SplitHead(text: string, separator: char)
    ensures Split(text, separator) == SplitFirst(text, separator)
  {
    if text != "" && text[0] != separator {
      SplitHead(text[1..], separator);
      var n := Until(text[1..], separator);
      assert [text[0]] + text[1..][..n] == text[..n + 1];
      if n < |text[1..]| {
        assert text[1..][n + 1..] == text[n + 2..];
        var rest := Split(text[1..], separator);
        assert rest[1..] == Split(text[n + 2..], separator);
      } else {
        assert [text[0]] + text[1..] == text;
      }
    }
  }

  /** A part without the separator, then the rest. */
  lemma SplitPart(part: string, separator: char, rest: string)
    requires separator !in part
    ensures Split(part + [separator] + rest, separator) == [part] + Split(rest, separator)
  {
    var text := part + [separator] + rest;
    SplitHead(text, separator);
    var n := Until(text, separator);
    assert n == |part| by {
      assert text[|part|] == separator;
      assert forall i :: 0 <= i < |part| ==> text[i] == part[i];
    }
    assert text[..n] == part && text[n + 1..] == rest;
  }
}
