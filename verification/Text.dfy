/** Printing and reading of decimal numbers, and splitting of slash-separated names. */
module Text {
  predicate IsDigit(c: char) {
    '0' <= c <= '9'
  }

  predicate IsLowerHexDigit(c: char) {
    IsDigit(c) || 'a' <= c <= 'f'
  }

  predicate AllDigits(s: string) {
    forall k :: 0 <= k < |s| ==> IsDigit(s[k])
  }

  function DigitValue(c: char): (d: nat)
    requires IsDigit(c)
    ensures d < 10
  {
    c as int - '0' as int
  }

  /** The number a digit string denotes in base ten. */
  function Value(s: string): nat
    requires AllDigits(s)
  {
    if s == "" then 0 else Value(s[..|s| - 1]) * 10 + DigitValue(s[|s| - 1])
  }

  function DigitChar(d: nat): (c: char)
    requires d < 10
    ensures IsDigit(c) && DigitValue(c) == d
  {
    "0123456789"[d]
  }

  /** Decimal text of a natural number, as `std::to_string` and `%d` print it. */
  function Decimal(n: nat): string {
    if n < 10 then [DigitChar(n)] else Decimal(n / 10) + [DigitChar(n % 10)]
  }

  /** The text is digits that denote the number, with no leading zero. */
  lemma {:induction false} DecimalDenotes(n: nat)
    ensures AllDigits(Decimal(n)) && Decimal(n) != "" && Value(Decimal(n)) == n
    ensures n > 0 ==> Decimal(n)[0] != '0'
  {
    if n >= 10 {
      DecimalDenotes(n / 10);
      var front := Decimal(n / 10);
      assert (front + [DigitChar(n % 10)])[..|front|] == front;
    }
  }

  lemma DecimalInjective(a: nat, b: nat)
    requires Decimal(a) == Decimal(b)
    ensures a == b
  {
    DecimalDenotes(a);
    DecimalDenotes(b);
  }

  /** A character before some pieces: a slash begins a new one, any other character belongs to the first. */
  function Prepended(c: char, rest: seq<string>): (parts: seq<string>)
    requires |rest| >= 1
    ensures |parts| >= 1
  {
    if c == '/' then [""] + rest else [[c] + rest[0]] + rest[1..]
  }

  /** Python's `s.split("/")`: always at least one piece. */
  function Split(s: string): (parts: seq<string>)
    ensures |parts| >= 1
  {
    if s == "" then [""] else Prepended(s[0], Split(s[1..]))
  }

  /** Python's `"/".join(parts)`. */
  function Join(parts: seq<string>): string {
    if parts == [] then ""
    else if |parts| == 1 then parts[0]
    else parts[0] + "/" + Join(parts[1..])
  }

  lemma {:induction false} SplitPiece(piece: string, tail: string)
    requires '/' !in piece
    ensures Split(piece + "/" + tail) == [piece] + Split(tail)
  {
    var whole := piece + "/" + tail;
    if piece == "" {
      assert whole[1..] == tail;
    } else {
      assert whole[1..] == piece[1..] + "/" + tail;
      SplitPiece(piece[1..], tail);
      assert [piece[0]] + piece[1..] == piece;
    }
  }

  lemma {:induction false} SplitPlain(piece: string)
    requires '/' !in piece
    ensures Split(piece) == [piece]
  {
    if piece != "" {
      SplitPlain(piece[1..]);
      assert [piece[0]] + piece[1..] == piece;
    }
  }

  /** Splitting undoes joining when no piece holds a slash. */
  lemma {:induction false} SplitJoin(parts: seq<string>)
    requires |parts| >= 1
    requires forall k :: 0 <= k < |parts| ==> '/' !in parts[k]
    ensures Split(Join(parts)) == parts
  {
    if |parts| == 1 {
      SplitPlain(parts[0]);
    } else {
      SplitJoin(parts[1..]);
      SplitPiece(parts[0], Join(parts[1..]));
      assert [parts[0]] + parts[1..] == parts;
    }
  }

  /** Joining undoes splitting. */
  lemma {:induction false} JoinSplit(s: string)
    ensures Join(Split(s)) == s
  {
    if s != "" {
      JoinSplit(s[1..]);
      var rest := Split(s[1..]);
      if s[0] == '/' {
        assert ([""] + rest)[1..] == rest;
        assert Join([""] + rest) == "" + "/" + Join(rest);
      } else {
        var parts := [[s[0]] + rest[0]] + rest[1..];
        assert parts[1..] == rest[1..];
        assert |rest| > 1 ==> Join(parts) == [s[0]] + rest[0] + "/" + Join(rest[1..]);
        assert Join(parts) == [s[0]] + Join(rest);
      }
    }
  }

  lemma PrependedToFirst(c: char, first: seq<string>, rest: seq<string>)
    requires |first| >= 1
    ensures Prepended(c, first + rest) == Prepended(c, first) + rest
  {
    assert (first + rest)[1..] == first[1..] + rest;
  }

  /** A slash between two names separates their pieces. */
  lemma {:induction false} SplitConcatenation(a: string, b: string)
    ensures Split(a + "/" + b) == Split(a) + Split(b)
  {
    var whole := a + "/" + b;
    if a == "" {
      assert whole[1..] == b;
    } else {
      assert whole[1..] == a[1..] + "/" + b;
      SplitConcatenation(a[1..], b);
      PrependedToFirst(a[0], Split(a[1..]), Split(b));
    }
  }
}
