/** What the models share about characters and text. */
module Text {
  predicate Blank(c: char) {
    c == ' ' || c == '\t'
  }

  predicate HexChar(c: char) {
    '0' <= c <= '9' || 'a' <= c <= 'f'
  }

  /** The first double quote at or after `from`, or the end of the text. */
  function FindQuote(s: string, from: nat): (i: nat)
    requires from <= |s|
    ensures from <= i <= |s| && (i < |s| ==> s[i] == '"') && forall k | from <= k < i :: s[k] != '"'
    decreases |s| - from
  {
    if from == |s| || s[from] == '"' then from else FindQuote(s, from + 1)
  }
}
