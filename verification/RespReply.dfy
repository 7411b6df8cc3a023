/** Replies on the wire, and the client's stream readers for them. */
module RespReply {
  import opened Decimal
  import opened Wrappers

  const CRLF: string := "\r\n"

  type Item = Option<string>

  datatype Resp =
    | Status(text: string)
    | Integer(number: int)
    | Bulk(item: Item)
    | MultiBulk(items: seq<Item>)
    | Nothing                       // no response: the object was never used or was moved from

  predicate PlainText(s: string) { forall i :: 0 <= i < |s| ==> s[i] != '\r' }

  // ----- what the server writes

  function PrintInt(n: int): string { if n < 0 then "-" + Print(-n) else Print(n) }

  function EncodeItem(item: Item): string {
    match item
    case None => "$-1" + CRLF
    case Some(s) => "$" + Print(|s|) + CRLF + s + CRLF
  }

  function EncodeItems(items: seq<Item>): string {
    if items == [] then "" else EncodeItem(items[0]) + EncodeItems(items[1..])
  }

  function Encode(r: Resp): string {
    match r
    case Status(text) => "+" + text + CRLF
    case Integer(n) => ":" + PrintInt(n) + CRLF
    case Bulk(item) => EncodeItem(item)
    case MultiBulk(items) => "*" + Print(|items|) + CRLF + EncodeItems(items)
    case Nothing => ""
  }

  // ----- what the client reads with

  predicate IsSpace(c: char) { c == ' ' || '\t' <= c <= '\r' }

  function SkipSpace(s: string): string {
    if s != "" && IsSpace(s[0]) then SkipSpace(s[1..]) else s
  }

  /** stream >> code. */
  function ReadCode(s: string): Option<(char, string)> {
    var t := SkipSpace(s);
    if t == "" then None else Some((t[0], t[1..]))
  }

  function ReadDigits(sign: int, s: string): Option<(int, string)> {
    var k := DigitRun(s);
    if k == 0 then None else Some((sign * Value(s[..k]), s[k..]))
  }

  /** stream >> number. */
  function ReadNumber(s: string): Option<(int, string)> {
    var t := SkipSpace(s);
    if t != "" && t[0] == '-' then ReadDigits(-1, t[1..])
    else if t != "" && t[0] == '+' then ReadDigits(1, t[1..])
    else ReadDigits(1, t)
  }

  function LineLength(s: string): (n: nat)
    ensures n <= |s| && PlainText(s[..n]) && (n < |s| ==> s[n] == '\r')
  {
    if s == "" || s[0] == '\r' then 0 else 1 + LineLength(s[1..])
  }

  /** getline up to a carriage return, which is dropped. */
  function ReadLine(s: string): Option<(string, string)> {
    var n := LineLength(s);
    if n == |s| then None else Some((s[..n], s[n + 1..]))
  }

  function ReadStatus(s: string): Option<(string, string)> {
    match ReadCode(s)
    case None => None
    case Some((code, rest)) =>
      match ReadLine(rest)
      case None => None
      case Some((text, end)) => if code == '+' then Some((text, end)) else None
  }

  function ReadInteger(s: string): Option<(int, string)> {
    match ReadCode(s)
    case None => None
    case Some((_, rest)) => ReadNumber(rest)
  }

  function ReadHeader(marker: char, s: string): Option<(int, string)> {
    match ReadCode(s)
    case None => None
    case Some((code, rest)) =>
      match ReadNumber(rest)
      case None => None
      case Some((n, end)) => if code == marker then Some((n, end)) else None
  }

  /** A text of n characters, the missing ones NUL. */
  function Padded(body: string, n: nat): (text: string)
    requires |body| <= n
    ensures |text| == n && body <= text
  {
    body + seq(n - |body|, _ => '\0')
  }

  /** The number is followed by two characters that are dropped, then by that many; whether there are so many is
      not looked at. */
  function ReadBulk(s: string): Option<(Item, string)> {
    match ReadHeader('$', s)
    case None => None
    case Some((n, rest)) =>
      if n < 0 then Some((Item.None, rest))
      else if |rest| < n + 2 then Some((Item.Some(Padded(if |rest| < 2 then "" else rest[2..], n)), ""))
      else Some((Item.Some(rest[2..n + 2]), rest[n + 2..]))
  }

  // ----- reading undoes writing, whatever line ending the last reply left behind

  predicate IsLeftover(s: string) { s == "" || s == "\n" || s == "\r\n" }

  lemma SkipOne(c: char, s: string)
    requires IsSpace(c)
    ensures SkipSpace([c] + s) == SkipSpace(s)
  {
    assert ([c] + s)[1..] == s;
  }

  lemma SkipLeftover(left: string, s: string)
    requires IsLeftover(left) && s != "" && !IsSpace(s[0])
    ensures SkipSpace(left + s) == s
  {
    if left == "" {
      assert left + s == s;
    } else {
      SkipOne('\n', s);
      SkipOne('\r', "\n" + s);
      assert left == "\n" || left + s == "\r" + ("\n" + s);
    }
  }

  lemma DigitsReadBack(sign: int, n: nat, tail: string)
    requires tail != "" && !IsDigit(tail[0])
    ensures ReadDigits(sign, Print(n) + tail) == Some((sign * n, tail))
  {
    PrintReadsBack(n, tail);
  }

  lemma NumberReadsBack(n: int, tail: string)
    requires tail != "" && !IsDigit(tail[0])
    ensures ReadNumber(PrintInt(n) + tail) == Some((n, tail))
  {
    hide Print, ReadDigits;
    var s := PrintInt(n) + tail;
    var m := if n < 0 then -n else n;
    assert IsDigit(Print(m)[0]);
    if n < 0 {
      assert s[0] == '-' && s[1..] == Print(m) + tail;
      DigitsReadBack(-1, m, tail);
    } else {
      assert s[0] == Print(m)[0];
      DigitsReadBack(1, m, tail);
    }
  }

  lemma {:induction false} LineReadsBack(text: string, tail: string)
    requires PlainText(text)
    ensures ReadLine(text + "\r" + tail) == Some((text, tail))
    decreases |text|
  {
    var s := text + "\r" + tail;
    if text == "" {
      assert s[..0] == "" && s[1..] == tail;
    } else {
      assert s[1..] == text[1..] + "\r" + tail;
      LineReadsBack(text[1..], tail);
      assert text == [text[0]] + text[1..];
      assert LineLength(s) == |text| && s[..|text|] == text && s[|text| + 1..] == tail;
    }
  }

  lemma CodeReadsBack(left: string, code: char, rest: string)
    requires IsLeftover(left) && !IsSpace(code)
    ensures ReadCode(left + ([code] + rest)) == Some((code, rest))
  {
    SkipLeftover(left, [code] + rest);
  }

  lemma StatusReadsBack(left: string, text: string, tail: string)
    requires IsLeftover(left) && PlainText(text)
    ensures ReadStatus(left + Encode(Status(text)) + tail) == Some((text, "\n" + tail))
  {
    hide ReadCode, ReadLine;
    var rest := text + "\r" + ("\n" + tail);
    assert left + Encode(Status(text)) + tail == left + (['+'] + rest);
    CodeReadsBack(left, '+', rest);
    LineReadsBack(text, "\n" + tail);
  }

  lemma IntegerReadsBack(left: string, n: int, tail: string)
    requires IsLeftover(left)
    ensures ReadInteger(left + Encode(Integer(n)) + tail) == Some((n, CRLF + tail))
  {
    hide ReadCode, ReadNumber, PrintInt;
    var rest := PrintInt(n) + (CRLF + tail);
    assert left + Encode(Integer(n)) + tail == left + ([':'] + rest);
    CodeReadsBack(left, ':', rest);
    NumberReadsBack(n, CRLF + tail);
  }

  lemma HeaderReadsBack(left: string, marker: char, n: int, tail: string)
    requires IsLeftover(left) && !IsSpace(marker)
    ensures ReadHeader(marker, left + ([marker] + PrintInt(n) + CRLF) + tail) == Some((n, CRLF + tail))
  {
    hide ReadCode, ReadNumber, PrintInt;
    var rest := PrintInt(n) + (CRLF + tail);
    assert left + ([marker] + PrintInt(n) + CRLF) + tail == left + ([marker] + rest);
    CodeReadsBack(left, marker, rest);
    NumberReadsBack(n, CRLF + tail);
  }

  lemma NullReadsBack(left: string, tail: string)
    requires IsLeftover(left)
    ensures ReadBulk(left + EncodeItem(Item.None) + tail) == Some((Item.None, CRLF + tail))
  {
    assert PrintInt(-1) == "-" + Print(1) && Print(1) == "1";
    assert EncodeItem(Item.None) == ['$'] + PrintInt(-1) + CRLF;
    HeaderReadsBack(left, '$', -1, tail);
  }

  lemma SomeItemStarts(left: string, t: string, tail: string)
    ensures left + EncodeItem(Item.Some(t)) + tail == left + (['$'] + PrintInt(|t|) + CRLF) + (t + CRLF + tail)
  {
    hide Print;
  }

  lemma BodyReadsBack(t: string, tail: string)
    ensures var rest := CRLF + (t + CRLF + tail);
            |rest| >= |t| + 2 && rest[2..|t| + 2] == t && rest[|t| + 2..] == CRLF + tail
  {
  }

  lemma SomeReadsBack(left: string, t: string, tail: string)
    requires IsLeftover(left)
    ensures ReadBulk(left + EncodeItem(Item.Some(t)) + tail) == Some((Item.Some(t), CRLF + tail))
  {
    hide ReadHeader, PrintInt, EncodeItem;
    SomeItemStarts(left, t, tail);
    HeaderReadsBack(left, '$', |t|, t + CRLF + tail);
    BodyReadsBack(t, tail);
  }

  lemma BulkReadsBack(left: string, item: Item, tail: string)
    requires IsLeftover(left)
    ensures ReadBulk(left + EncodeItem(item) + tail) == Some((item, CRLF + tail))
  {
    match item
    case None => NullReadsBack(left, tail);
    case Some(t) => SomeReadsBack(left, t, tail);
  }

  // ----- replies that are cut short, error replies, and a stream that has failed once

  /** What is left of the stream, and whether its fail bit is set. */
  datatype Stream = Stream(rest: string, failed: bool)

  /** What is left where no number could be read. */
  function AfterSign(s: string): string {
    var t := SkipSpace(s);
    if t != "" && (t[0] == '-' || t[0] == '+') then t[1..] else t
  }

  /** stream >> code >> n: the code is gone even if no number follows it. */
  function CodeAndNumber(s: Stream): (Option<(char, int)>, Stream) {
    if s.failed then (None, s)
    else match ReadCode(s.rest)
      case None => (None, Stream("", true))
      case Some((code, rest)) =>
        match ReadNumber(rest)
        case None => (None, Stream(AfterSign(rest), true))
        case Some((n, end)) => (Some((code, n)), Stream(end, false))
  }

  /** The readers on streams: a value, or None for an exception, and the stream behind it. */
  function IntegerReply(s: Stream): (Option<int>, Stream) {
    var (read, t) := CodeAndNumber(s);
    match read
    case None => (None, t)
    case Some((_, n)) => (Some(n), t)
  }

  function BulkReply(s: Stream): (Option<Item>, Stream) {
    var (read, t) := CodeAndNumber(s);
    match read
    case None => (None, t)
    case Some((code, n)) =>
      if code != '$' then (None, t)
      else if n < 0 then (Some(Item.None), t)
      else if |t.rest| < n + 2 then
        (Some(Item.Some(Padded(if |t.rest| < 2 then "" else t.rest[2..], n))), Stream("", true))
      else (Some(Item.Some(t.rest[2..n + 2])), Stream(t.rest[n + 2..], false))
  }

  function StatusReply(s: Stream): (Option<string>, Stream) {
    if s.failed then (None, s)
    else match ReadCode(s.rest)
      case None => (None, Stream("", true))
      case Some((code, rest)) =>
        match ReadLine(rest)
        case None => (None, Stream("", true))
        case Some((text, end)) => (if code == '+' then Some(text) else None, Stream(end, false))
  }

  /** The header of a list of items. */
  function CountReply(s: Stream): (Option<nat>, Stream) {
    var (read, t) := CodeAndNumber(s);
    match read
    case None => (None, t)
    case Some((code, n)) => (if code == '*' && n >= 0 then Some(n) else None, t)
  }

  /** On a good stream they read what the functions above read. */
  lemma RepliesAreReads(s: string)
    ensures var (r, t) := IntegerReply(Stream(s, false)); ReadInteger(s) == if r.Some? then Some((r.value, t.rest)) else None
    ensures var (r, t) := BulkReply(Stream(s, false)); ReadBulk(s) == if r.Some? then Some((r.value, t.rest)) else None
    ensures var (r, t) := StatusReply(Stream(s, false)); ReadStatus(s) == if r.Some? then Some((r.value, t.rest)) else None
  {
    hide ReadCode, ReadNumber, ReadLine;
  }

  /** A bulk string whose text is cut short by the end of the stream is not noticed: it is filled up with NULs,
      and the stream has failed. */
  lemma CutShortIsPadded(left: string, t: string, k: nat)
    requires IsLeftover(left) && k < |t|
    ensures var s := Stream(left + (['$'] + PrintInt(|t|) + CRLF) + t[..k], false);
            BulkReply(s) == (Some(Item.Some(Padded(t[..k], |t|))), Stream("", true))
  {
    hide Print;
    var rest, body := PrintInt(|t|) + (CRLF + t[..k]), CRLF + t[..k];
    assert left + (['$'] + PrintInt(|t|) + CRLF) + t[..k] == left + (['$'] + rest);
    CodeReadsBack(left, '$', rest);
    NumberReadsBack(|t|, body);
    hide ReadCode, ReadNumber;
    assert body[2..] == t[..k];
  }

  /** An error text that starts with a number. */
  predicate NumberAhead(text: string) {
    text != "" && (IsDigit(text[0]) || ((text[0] == '-' || text[0] == '+') && |text| > 1 && IsDigit(text[1])))
  }

  function ErrorReply(left: string, text: string, tail: string): Stream {
    Stream(left + (['-'] + (text + CRLF + tail)), false)
  }

  /** That number: a sign and all the digits. */
  function LeadingNumber(text: string): int
    requires NumberAhead(text)
  {
    if IsDigit(text[0]) then Value(text[..DigitRun(text)])
    else (if text[0] == '-' then -1 else 1) * Value(text[1..][..DigitRun(text[1..])])
  }

  lemma {:induction false} RunEndsInside(d: string, behind: string)
    requires behind != "" && !IsDigit(behind[0])
    ensures DigitRun(d + behind) == DigitRun(d)
    decreases |d|
  {
    if d == "" {
      assert d + behind == behind;
    } else {
      assert (d + behind)[1..] == d[1..] + behind;
      RunEndsInside(d[1..], behind);
    }
  }

  lemma DigitsInside(sign: int, d: string, behind: string)
    requires behind != "" && !IsDigit(behind[0])
    ensures var k, read := DigitRun(d), ReadDigits(sign, d + behind);
            if k == 0 then read.None? else read.Some? && read.value.0 == sign * Value(d[..k])
  {
    var k := DigitRun(d);
    RunEndsInside(d, behind);
    hide DigitRun, Value;
    assert (d + behind)[..k] == d[..k];
  }

  lemma NumberAheadIff(text: string, tail: string)
    requires text != "" && !IsSpace(text[0])
    ensures var read := ReadNumber(text + CRLF + tail);
            (read.Some? <==> NumberAhead(text)) && (read.Some? ==> read.value.0 == LeadingNumber(text))
  {
    var s := text + (CRLF + tail);
    assert text + CRLF + tail == s && s[0] == text[0] && s[1..] == text[1..] + (CRLF + tail);
    assert SkipSpace(s) == s;
    DigitsInside(1, text, CRLF + tail);
    DigitsInside(if text[0] == '-' then -1 else 1, text[1..], CRLF + tail);
    hide SkipSpace, Value, ReadDigits;
  }

  lemma ErrorIsHalfRead(left: string, text: string, tail: string)
    requires IsLeftover(left) && text != "" && !IsSpace(text[0])
    ensures var (read, t) := CodeAndNumber(ErrorReply(left, text, tail));
            && (read.Some? <==> NumberAhead(text)) && (t.failed <==> !NumberAhead(text))
            && (read.Some? ==> read.value == ('-', LeadingNumber(text)))
  {
    CodeReadsBack(left, '-', text + CRLF + tail);
    NumberAheadIff(text, tail);
    hide ReadCode, ReadNumber, NumberAhead, LeadingNumber;
  }

  /** An error reply where an integer is expected: unless its text starts with a number, which is then taken for
      the reply, the accessor throws and the stream has failed. */
  lemma IntegerErrorIff(left: string, text: string, tail: string)
    requires IsLeftover(left) && text != "" && !IsSpace(text[0])
    ensures var (r, t) := IntegerReply(ErrorReply(left, text, tail));
            && (r.None? <==> !NumberAhead(text)) && (t.failed <==> !NumberAhead(text))
            && (r.Some? ==> r.value == LeadingNumber(text))
  {
    ErrorIsHalfRead(left, text, tail);
    hide CodeAndNumber, NumberAhead, LeadingNumber;
  }

  /** Where a bulk string is expected the accessor always throws, and the stream has failed in the same case. */
  lemma BulkErrorFails(left: string, text: string, tail: string)
    requires IsLeftover(left) && text != "" && !IsSpace(text[0])
    ensures var (r, t) := BulkReply(ErrorReply(left, text, tail)); r.None? && (t.failed <==> !NumberAhead(text))
  {
    ErrorIsHalfRead(left, text, tail);
    hide CodeAndNumber, NumberAhead;
  }

  /** Where a status line is expected the accessor throws and leaves the stream in step. */
  lemma StatusErrorKeepsStep(left: string, text: string, tail: string)
    requires IsLeftover(left) && PlainText(text)
    ensures StatusReply(ErrorReply(left, text, tail)) == (None, Stream("\n" + tail, false))
  {
    var rest := text + "\r" + ("\n" + tail);
    assert text + CRLF + tail == rest;
    CodeReadsBack(left, '-', rest);
    LineReadsBack(text, "\n" + tail);
    hide ReadCode, ReadLine;
  }

  datatype Reader = StatusReader | IntegerReader | BulkReader | CountReader

  /** Whether a reader throws, and the stream behind it. */
  function Take(reader: Reader, s: Stream): (bool, Stream) {
    match reader
    case StatusReader => (StatusReply(s).0.None?, StatusReply(s).1)
    case IntegerReader => (IntegerReply(s).0.None?, IntegerReply(s).1)
    case BulkReader => (BulkReply(s).0.None?, BulkReply(s).1)
    case CountReader => (CountReply(s).0.None?, CountReply(s).1)
  }

  function Throws(readers: seq<Reader>, s: Stream): seq<bool> {
    if readers == [] then [] else [Take(readers[0], s).0] + Throws(readers[1..], Take(readers[0], s).1)
  }

  /** Once the stream has failed every later read throws. */
  lemma {:induction false} FailedForGood(readers: seq<Reader>, s: Stream)
    requires s.failed
    ensures |Throws(readers, s)| == |readers| && forall i :: 0 <= i < |readers| ==> Throws(readers, s)[i]
  {
    if readers != [] {
      assert Take(readers[0], s) == (true, s);
      FailedForGood(readers[1..], s);
    }
  }
}
