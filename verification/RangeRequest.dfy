/** The `Range` header: how it is read, and what the answer's interval is. */
module RangeRequest {
  import opened Outcomes
  import opened Text

  const TWO_64: nat := 0x1_0000_0000_0000_0000

  /** C's `isspace` in the default locale. */
  predicate IsSpace(c: char) {
    c == ' ' || '\t' <= c <= '\r'
  }

  function SkipSpaces(s: string): string {
    if s != "" && IsSpace(s[0]) then SkipSpaces(s[1..]) else s
  }

  /** The longest prefix of decimal digits. */
  function LeadingDigits(s: string): (digits: string)
    ensures AllDigits(digits)
  {
    if s != "" && IsDigit(s[0]) then [s[0]] + LeadingDigits(s[1..]) else ""
  }

  /** Digits after an optional minus sign: a magnitude of 2^64 and more throws, a sign negates modulo 2^64. */
  function Magnitude(digits: string, negative: bool): Option<nat>
    requires AllDigits(digits)
  {
    if digits == "" || Value(digits) >= TWO_64 then None
    else if negative then Some((TWO_64 - Value(digits)) % TWO_64)
    else Some(Value(digits))
  }

  function SignedNumber(t: string): Option<nat> {
    if t != "" && (t[0] == '-' || t[0] == '+') then Magnitude(LeadingDigits(t[1..]), t[0] == '-')
    else Magnitude(LeadingDigits(t), false)
  }

  /** `std::stoull` in base ten: leading blanks, an optional sign, digits, and anything after them. */
  function Stoull(s: string): Option<nat> {
    SignedNumber(SkipSpaces(s))
  }

  function IndexOf(s: string, c: char): Option<nat> {
    if s == "" then None
    else if s[0] == c then Some(0)
    else match IndexOf(s[1..], c)
      case None => None
      case Some(k) => Some(k + 1)
  }

  lemma {:induction false} IndexOfBound(s: string, c: char)
    ensures IndexOf(s, c).Some? ==> IndexOf(s, c).value < |s|
  {
    if s != "" && s[0] != c {
      IndexOfBound(s[1..], c);
    }
  }

  /** `file_size - 1` in 64-bit arithmetic. */
  function LastByte(size: nat): nat
    requires size < TWO_64
  {
    if size == 0 then TWO_64 - 1 else size - 1
  }

  function SuffixInterval(length: string, size: nat): Option<(nat, nat)>
    requires size < TWO_64
  {
    if length == "" then None
    else match Stoull(length)
      case None => None
      case Some(k) => Some((if k == 0 || k > size then 0 else size - k, LastByte(size)))
  }

  function PositionInterval(first: string, last: string, size: nat): Option<(nat, nat)>
    requires size < TWO_64
  {
    match Stoull(first)
    case None => None
    case Some(start) =>
      if start >= size then None
      else if last == "" then Some((start, LastByte(size)))
      else match Stoull(last)
        case None => None
        case Some(end) => Some((start, if end >= size then LastByte(size) else end))
  }

  /** The inclusive interval a non-empty header asks for; none if it cannot be satisfied. */
  function Interval(header: string, size: nat): Option<(nat, nat)>
    requires size < TWO_64
  {
    if !("bytes=" <= header) then None
    else
      var range := header[6..];
      match IndexOf(range, '-')
      case None => None
      case Some(dash) =>
        IndexOfBound(range, '-');
        var (first, second) := (range[..dash], range[dash + 1..]);
        var interval := if first == "" then SuffixInterval(second, size) else PositionInterval(first, second, size);
        if interval.Some? && interval.value.0 > interval.value.1 then None else interval
  }

  /** The parser's result structure. */
  datatype Parsed = Parsed(hasRange: bool, start: nat, end: nat, satisfiable: bool, fileSize: nat)

  method Parse(header: string, size: nat) returns (r: Parsed)
    requires size < TWO_64
    ensures r.fileSize == size && (r.hasRange <==> header != "")
    ensures r.satisfiable <==> header == "" || Interval(header, size).Some?
    ensures r.hasRange && r.satisfiable ==> Interval(header, size) == Some((r.start, r.end))
  {
    r := Parsed(false, 0, 0, true, size);
    if header == "" {
      return;
    }
    r := r.(hasRange := true);
    if !("bytes=" <= header) {
      r := r.(satisfiable := false);
      return;
    }
    var range := header[6..];
    var dash := IndexOf(range, '-');
    if dash.None? {
      r := r.(satisfiable := false);
      return;
    }
    IndexOfBound(range, '-');
    var startText, endText := range[..dash.value], range[dash.value + 1..];
    if startText == "" {
      if endText == "" {
        r := r.(satisfiable := false);
        return;
      }
      var suffix := Stoull(endText);
      if suffix.None? {
        r := r.(satisfiable := false);
        return;
      }
      if suffix.value == 0 || suffix.value > size {
        r := r.(start := 0, end := LastByte(size));
      } else {
        r := r.(start := size - suffix.value, end := LastByte(size));
      }
    } else {
      var start := Stoull(startText);
      if start.None? {
        r := r.(satisfiable := false);
        return;
      }
      r := r.(start := start.value);
      if r.start >= size {
        r := r.(satisfiable := false);
        return;
      }
      if endText == "" {
        r := r.(end := LastByte(size));
      } else {
        var end := Stoull(endText);
        if end.None? {
          r := r.(satisfiable := false);
          return;
        }
        r := r.(end := if end.value >= size then LastByte(size) else end.value);
      }
    }
    if r.start > r.end {
      r := r.(satisfiable := false);
    }
  }

  /** How a download answers: 416, or the bytes of one interval with 206 or 200. */
  datatype Answer = NotSatisfiable(contentRange: string) | Send(partial: bool, start: nat, end: nat, length: nat)

  /** `BuildDownloadResponse` up to the choice of transport; the length is 64-bit arithmetic. */
  function PlanDownload(header: string, size: nat): Answer
    requires size < TWO_64
  {
    if header != "" && Interval(header, size).None? then NotSatisfiable("bytes */" + Decimal(size))
    else
      var (start, end) := if header == "" then (0, LastByte(size)) else Interval(header, size).value;
      Send(header != "", start, end, (end - start + 1) % TWO_64)
  }

  /** Whatever the header, an answer that sends anything sends a non-empty interval inside the file. */
  lemma AnswerLiesInFile(header: string, size: nat)
    requires 0 < size < TWO_64
    ensures var answer := PlanDownload(header, size);
      answer.Send? ==>
        && answer.start <= answer.end < size
        && answer.length == answer.end - answer.start + 1
        && 0 < answer.length <= size
        && (header == "" ==> answer.length == size)
  {
    if header != "" && Interval(header, size).Some? {
      var range := header[6..];
      var dash := IndexOf(range, '-').value;
      IndexOfBound(range, '-');
    }
  }

  lemma {:induction false} DigitsThenOther(digits: string, rest: string)
    requires AllDigits(digits) && (rest == "" || !IsDigit(rest[0]))
    ensures LeadingDigits(digits + rest) == digits
  {
    if digits == "" {
      assert digits + rest == rest;
    } else {
      assert (digits + rest)[1..] == digits[1..] + rest;
      DigitsThenOther(digits[1..], rest);
    }
  }

  /** The six blanks of the default locale. */
  predicate AllBlank(s: string) {
    forall c :: c in s ==> c == ' ' || c == '\t' || c == '\n' || c == '\U{0b}' || c == '\U{0c}' || c == '\r'
  }

  lemma {:induction false} BlanksSkipped(blanks: string, rest: string)
    requires AllBlank(blanks) && (rest == "" || !IsSpace(rest[0]))
    ensures SkipSpaces(blanks + rest) == rest
  {
    if blanks == "" {
      assert blanks + rest == rest;
    } else {
      assert blanks[0] in blanks && (blanks + rest)[1..] == blanks[1..] + rest;
      assert forall c :: c in blanks[1..] ==> c in blanks;
      BlanksSkipped(blanks[1..], rest);
    }
  }

  /** One sign before digits is read. */
  lemma SignIsRead(sign: string, number: string)
    requires sign == "" || sign == "+" || sign == "-"
    requires sign == "" ==> number == "" || (number[0] != '+' && number[0] != '-')
    ensures SignedNumber(sign + number) == Magnitude(LeadingDigits(number), sign == "-")
  {
    var text := sign + number;
    if sign == "" {
      assert text == number;
    } else {
      assert text[0] == sign[0] && text[1..] == number;
    }
  }

  /** What follows blanks and one sign is read up to its last digit. */
  lemma BlanksAndSignAreRead(blanks: string, sign: string, number: string)
    requires AllBlank(blanks) && (sign == "" || sign == "+" || sign == "-")
    requires sign == "" && number != "" ==> !IsSpace(number[0]) && number[0] != '+' && number[0] != '-'
    ensures Stoull(blanks + sign + number) == Magnitude(LeadingDigits(number), sign == "-")
  {
    assert blanks + sign + number == blanks + (sign + number);
    assert sign == "" ==> sign + number == number;
    BlanksSkipped(blanks, sign + number);
    SignIsRead(sign, number);
  }

  lemma MagnitudeOfDecimal(n: nat, negative: bool)
    ensures AllDigits(Decimal(n))
    ensures Magnitude(Decimal(n), negative) ==
      if n >= TWO_64 then None else if negative && n > 0 then Some(TWO_64 - n) else Some(n)
  {
    DecimalDenotes(n);
  }

  /** Blanks before a number and one sign are read; a minus sign negates modulo 2^64. */
  lemma SignedNumberParses(blanks: string, sign: string, n: nat, rest: string)
    requires AllBlank(blanks) && (sign == "" || sign == "+" || sign == "-")
    requires rest == "" || !IsDigit(rest[0])
    ensures Stoull(blanks + sign + (Decimal(n) + rest)) ==
      if n >= TWO_64 then None else if sign == "-" && n > 0 then Some(TWO_64 - n) else Some(n)
  {
    var number := Decimal(n) + rest;
    DecimalDenotes(n);
    assert IsDigit(number[0]);
    DigitsThenOther(Decimal(n), rest);
    BlanksAndSignAreRead(blanks, sign, number);
    MagnitudeOfDecimal(n, sign == "-");
  }

  /** A printed number is read back, whatever follows its last digit; 2^64 and more throw. */
  lemma PrintedNumberParses(n: nat, rest: string)
    requires rest == "" || !IsDigit(rest[0])
    ensures Stoull(Decimal(n) + rest) == if n < TWO_64 then Some(n) else None
  {
    SignedNumberParses("", "", n, rest);
    assert "" + "" + (Decimal(n) + rest) == Decimal(n) + rest;
  }

  lemma {:induction false} DashAfterDigits(digits: string, rest: string)
    requires AllDigits(digits)
    ensures IndexOf(digits + "-" + rest, '-') == Some(|digits|)
  {
    var text := digits + "-" + rest;
    if digits != "" {
      assert text[1..] == digits[1..] + "-" + rest;
      DashAfterDigits(digits[1..], rest);
    }
  }

  /** `bytes=first-last`, where a number is printed in decimal. */
  function RangeHeader(first: string, last: string): string {
    "bytes=" + first + "-" + last
  }

  lemma HeaderSplits(first: string, last: string, size: nat)
    requires AllDigits(first) && size < TWO_64
    ensures var interval := if first == "" then SuffixInterval(last, size) else PositionInterval(first, last, size);
      Interval(RangeHeader(first, last), size) ==
        if interval.Some? && interval.value.0 > interval.value.1 then None else interval
  {
    var header := RangeHeader(first, last);
    assert header[..6] == "bytes=";
    var range := header[6..];
    assert range == first + "-" + last;
    DashAfterDigits(first, last);
    assert range[..|first|] == first && range[|first| + 1..] == last;
  }

  /**
   * A printed range is answered by its clamped interval exactly when it begins inside the file, does
   * not run backwards, and its end fits 64 bits; text after the end's digits, such as further ranges,
   * is ignored.
   */
  lemma PrintedRangeParses(start: nat, end: nat, rest: string, size: nat)
    requires 0 < size < TWO_64 && (rest == "" || !IsDigit(rest[0]))
    ensures Interval(RangeHeader(Decimal(start), Decimal(end) + rest), size) ==
      if start < size && start <= end < TWO_64
      then Some((start, if end < size then end else size - 1))
      else None
  {
    DecimalDenotes(start);
    DecimalDenotes(end);
    PrintedNumberParses(start, "");
    assert Decimal(start) + "" == Decimal(start);
    PrintedNumberParses(end, rest);
    HeaderSplits(Decimal(start), Decimal(end) + rest, size);
  }

  /** An open range runs to the end of the file. */
  lemma OpenRangeParses(start: nat, size: nat)
    requires 0 < size < TWO_64
    ensures Interval(RangeHeader(Decimal(start), ""), size) ==
      if start < size then Some((start, size - 1)) else None
  {
    DecimalDenotes(start);
    PrintedNumberParses(start, "");
    assert Decimal(start) + "" == Decimal(start);
    HeaderSplits(Decimal(start), "", size);
  }

  /**
   * A suffix range is the open range from `size - k`; a suffix of zero, or longer than the file, is
   * the whole file (section 14.1.2 of RFC 9110 makes the zero suffix unsatisfiable).
   */
  lemma SuffixIsOpenRange(k: nat, size: nat)
    requires 0 < size < TWO_64 && k < TWO_64
    ensures Interval(RangeHeader("", Decimal(k)), size) ==
      Interval(RangeHeader(Decimal(if 1 <= k <= size then size - k else 0), ""), size)
  {
    DecimalDenotes(k);
    PrintedNumberParses(k, "");
    assert Decimal(k) + "" == Decimal(k);
    HeaderSplits("", Decimal(k), size);
    OpenRangeParses(if 1 <= k <= size then size - k else 0, size);
  }

  /**
   * A suffix length with a minus sign is accepted and read modulo 2^64: unless the file is enormous,
   * `bytes=--k` is answered with the whole file.
   */
  lemma NegativeSuffixIsRead(k: nat, size: nat)
    requires 0 < size < TWO_64 && 1 <= k < TWO_64
    ensures Interval(RangeHeader("", "-" + Decimal(k)), size) ==
      Some((if TWO_64 - k > size then 0 else size - (TWO_64 - k), size - 1))
  {
    SignedNumberParses("", "-", k, "");
    assert "" + "-" + (Decimal(k) + "") == "-" + Decimal(k);
    HeaderSplits("", "-" + Decimal(k), size);
  }

  lemma AnswerOfInterval(header: string, size: nat, interval: Option<(nat, nat)>)
    requires header != "" && size < TWO_64 && Interval(header, size) == interval
    requires interval.Some? ==> interval.value.0 <= interval.value.1 < size
    ensures PlanDownload(header, size) ==
      if interval.Some?
      then Send(true, interval.value.0, interval.value.1, interval.value.1 - interval.value.0 + 1)
      else NotSatisfiable("bytes */" + Decimal(size))
  {
  }

  /** A printed range that begins inside the file is answered, clamped to it, if its end fits 64 bits. */
  lemma PrintedRangeIsAnswered(start: nat, end: nat, size: nat)
    requires 0 < size < TWO_64 && start < size && start <= end
    ensures var answer := PlanDownload(RangeHeader(Decimal(start), Decimal(end)), size);
      var last := if end < size then end else size - 1;
      if end < TWO_64 then answer == Send(true, start, last, last - start + 1) else answer.NotSatisfiable?
  {
    PrintedRangeParses(start, end, "", size);
    assert Decimal(end) + "" == Decimal(end);
    var last := if end < size then end else size - 1;
    AnswerOfInterval(
      RangeHeader(Decimal(start), Decimal(end)), size, if end < TWO_64 then Some((start, last)) else None);
  }

  /** Without a header the whole file is sent as such; with one, its interval as a part, or a refusal with the size. */
  lemma StatusFollowsHeader(header: string, size: nat)
    requires 0 < size < TWO_64
    ensures header == "" ==> PlanDownload(header, size) == Send(false, 0, size - 1, size)
    ensures header != "" ==>
      match Interval(header, size)
      case Some((start, end)) => PlanDownload(header, size) == Send(true, start, end, end - start + 1)
      case None => PlanDownload(header, size) == NotSatisfiable("bytes */" + Decimal(size))
  {
    AnswerLiesInFile(header, size);
  }

  lemma {:induction false} NoIndexWithout(s: string, c: char)
    ensures IndexOf(s, c).None? <==> c !in s
  {
    if s != "" {
      NoIndexWithout(s[1..], c);
      assert s == [s[0]] + s[1..];
    }
  }

  /** Another unit, no dash, or no number on either side of it is refused. */
  lemma MalformedIsRefused(header: string, size: nat)
    requires 0 < size < TWO_64 && header != ""
    requires |header| < 6 || header[..6] != "bytes=" || '-' !in header[6..] || header == "bytes=-"
    ensures PlanDownload(header, size).NotSatisfiable?
  {
    if "bytes=" <= header {
      NoIndexWithout(header[6..], '-');
      if header == "bytes=-" {
        HeaderSplits("", "", size);
        assert RangeHeader("", "") == header;
      }
    }
  }

  /** The first byte of a file, as a literal header. */
  lemma FirstByteHeader(size: nat)
    requires 0 < size < TWO_64
    ensures PlanDownload("bytes=0-0", size) == Send(true, 0, 0, 1)
  {
    assert Decimal(0) == "0" && RangeHeader("0", "0") == "bytes=0-0";
    PrintedRangeIsAnswered(0, 0, size);
  }

  /** A suffix of one byte is the last byte. */
  lemma LastByteHeader(size: nat)
    requires 0 < size < TWO_64
    ensures PlanDownload("bytes=-1", size) == Send(true, size - 1, size - 1, 1)
  {
    assert Decimal(1) == "1" && RangeHeader("", "1") == "bytes=-1";
    SuffixIsOpenRange(1, size);
    OpenRangeParses(size - 1, size);
    StatusFollowsHeader("bytes=-1", size);
  }

  /** A suffix of no byte is the whole file. */
  lemma NoByteHeader(size: nat)
    requires 0 < size < TWO_64
    ensures PlanDownload("bytes=-0", size) == Send(true, 0, size - 1, size)
  {
    assert Decimal(0) == "0" && RangeHeader("", "0") == "bytes=-0";
    SuffixIsOpenRange(0, size);
    OpenRangeParses(0, size);
    StatusFollowsHeader("bytes=-0", size);
  }

  /** What is no number after blanks and one sign throws. */
  lemma NoDigitsThrow(blanks: string, sign: string, rest: string)
    requires AllBlank(blanks) && (sign == "" || sign == "+" || sign == "-")
    requires rest == "" || !IsDigit(rest[0])
    requires sign == "" && rest != "" ==> !IsSpace(rest[0]) && rest[0] != '+' && rest[0] != '-'
    ensures Stoull(blanks + sign + rest) == None
  {
    BlanksAndSignAreRead(blanks, sign, rest);
  }
}
