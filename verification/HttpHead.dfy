/** The head of an HTTP request: what the client prints and what the server parses. */
module HttpHead {
  import opened LineSpec
  import Decimal
  import opened Wrappers

  type Header = map<string, string>

  // ----- the reference for parsing

  /** string::substr; a negative count stands for one that wrapped around. */
  function SubStr(s: string, pos: nat, count: int): Option<string> {
    if pos > |s| then None
    else if count < 0 || pos + count > |s| then Some(s[pos..])
    else Some(s[pos..pos + count])
  }

  /** string::find from a position on; |s| stands for npos. */
  function FindFrom(s: string, c: char, from: nat): (n: nat)
    ensures n <= |s| && (n < |s| ==> n >= from && s[n] == c) && forall i :: from <= i < n ==> s[i] != c
  {
    if from > |s| then |s|
    else
      var k := IndexOf(s[from..], c);
      assert forall i :: from <= i < from + k ==> s[i] == s[from..][i - from];
      from + k
  }

  function NameOf(line: string): string { line[..IndexOf(line, ':')] }

  /** One space behind the colon is skipped, and the carriage return at the end. */
  function ValueOf(line: string): string
    requires IndexOf(line, ':') < |line|
  {
    var start := IndexOf(line, ':') + 1;
    var from := if start < |line| && line[start] == ' ' then start + 1 else start;
    if from == |line| then "" else line[from..|line| - 1]
  }

  /** Header lines up to the first line without a colon, and what is behind that line. */
  function ReadFields(text: string, m: Header): (Header, string)
    decreases |text|
  {
    var line := FirstRaw(text);
    if text == "" || IndexOf(line, ':') == |line| then (m, AfterFirst(text))
    else ReadFields(AfterFirst(text), m[NameOf(line) := ValueOf(line)])
  }

  datatype Outcome =
    | Request(verb: string, path: string, version: string, header: Header)
    | Response(version: string, status: string, header: Header)
    | Ignored
    | OutOfRange

  /** The request line; header still empty. */
  function RequestLine(line: string): Outcome {
    var methodEnd := IndexOf(line, ' ');
    var pathEnd := FindFrom(line, ' ', methodEnd + 1);
    if methodEnd == |line| || pathEnd == |line| then Ignored
    else match SubStr(line, pathEnd + 6, |line| - pathEnd - 7)
      case None => OutOfRange
      case Some(version) => Request(line[..methodEnd], line[methodEnd + 1..pathEnd], version, map[])
  }

  function StatusLine(line: string): Outcome {
    var versionEnd := IndexOf(line, ' ');
    if versionEnd == |line| then Ignored
    else match SubStr(line, 5, versionEnd - 5)
      case None => OutOfRange
      case Some(version) =>
        match SubStr(line, versionEnd + 1, |line| - versionEnd - 2)
        case None => OutOfRange
        case Some(status) => Response(version, status, map[])
  }

  function WithFields(first: Outcome, rest: string): (Outcome, string) {
    if first.Request? || first.Response? then
      var (header, left) := ReadFields(rest, map[]);
      (first.(header := header), left)
    else (first, rest)
  }

  /** What read_until promises of the text: the blank line that ends a head. */
  ghost predicate HasBlankLine(text: string) { exists i :: BlankLineAt(text, i) }

  predicate BlankLineAt(text: string, i: nat) { i + 4 <= |text| && text[i..i + 4] == "\r\n\r\n" }

  // ----- parsing

  class Stream {
    var rest: string

    constructor (text: string)
      ensures rest == text
    {
      rest := text;
    }

    /** getline on a stream that has something left. */
    method GetLine() returns (line: string)
      requires rest != ""
      modifies this
      ensures line == FirstRaw(old(rest)) && rest == AfterFirst(old(rest)) && |rest| < |old(rest)|
    {
      var i := 0;
      while i < |rest| && rest[i] != '\n'
        invariant i <= |rest| && rest == old(rest) && forall k :: 0 <= k < i ==> rest[k] != '\n'
      {
        i := i + 1;
      }
      FirstRawIs(rest, i);
      IndexOfUnique(rest, '\n', i);
      line := rest[..i];
      rest := if i < |rest| then rest[i + 1..] else "";
    }
  }

  /** A line without a colon is still to come. */
  predicate Ends(text: string)
    decreases |text|
  {
    text != "" && (':' !in FirstRaw(text) || Ends(AfterFirst(text)))
  }

  /** The loop over header lines. */
  method ReadHeader(stream: Stream) returns (header: Header)
    requires Ends(stream.rest)
    modifies stream
    ensures (header, stream.rest) == ReadFields(old(stream.rest), map[])
  {
    ghost var text := stream.rest;
    header := map[];
    var line := stream.GetLine();
    var paramEnd := IndexOf(line, ':');
    ghost var before := text;
    while paramEnd != |line|
      invariant before != "" && Ends(before) && line == FirstRaw(before) && stream.rest == AfterFirst(before)
      invariant paramEnd == IndexOf(line, ':')
      invariant ReadFields(text, map[]) == ReadFields(before, header)
      decreases |before|
    {
      var valueStart := paramEnd + 1;
      if valueStart < |line| && line[valueStart] == ' ' {
        valueStart := valueStart + 1;
      }
      var value := SubStr(line, valueStart, |line| - valueStart - 1);
      assert valueStart == |line| ==> line[valueStart..] == "";
      assert value == Some(ValueOf(line)) && line[..paramEnd] == NameOf(line);
      header := header[line[..paramEnd] := value.value];
      before := stream.rest;
      line := stream.GetLine();
      paramEnd := IndexOf(line, ':');
    }
  }

  lemma EmptyFirst(rest: string)
    requires |rest| >= 2 && rest[0] == '\r' && rest[1] == '\n'
    ensures Ends(rest)
  {
    IndexOfUnique(rest, '\n', 1);
    assert FirstRaw(rest) == "\r";
  }

  lemma BlankLineChars(text: string, i: nat)
    requires BlankLineAt(text, i)
    ensures text[i] == '\r' && text[i + 1] == '\n' && text[i + 2] == '\r' && text[i + 3] == '\n'
  {
    var blank := text[i..i + 4];
    assert text[i] == blank[0] && text[i + 1] == blank[1] && text[i + 2] == blank[2] && text[i + 3] == blank[3];
  }

  lemma BlankLineLater(text: string, i: nat, n: nat)
    requires BlankLineAt(text, i) && n < i
    ensures BlankLineAt(text[n + 1..], i - n - 1)
  {
    assert text[n + 1..][i - n - 1..i - n + 3] == text[i..i + 4];
  }

  /** The blank line comes right behind the first line, or is further on in what follows it. */
  lemma BlankLineStep(text: string, i: nat)
    requires BlankLineAt(text, i)
    ensures var n, rest := IndexOf(text, '\n'), AfterFirst(text);
            && n < |text| && |rest| < |text|
            && if n == i + 1 then |rest| >= 2 && rest[0] == '\r' && rest[1] == '\n'
               else n < i && BlankLineAt(rest, i - n - 1)
  {
    BlankLineChars(text, i);
    var n := IndexOf(text, '\n');
    if n < i { BlankLineLater(text, i, n); }
    assert i + 4 <= |text|;
    hide IndexOf, BlankLineAt;
  }

  /** The blank line is a line without a colon behind the first line. */
  lemma {:induction false} BlankLineEnds(text: string, i: nat)
    requires BlankLineAt(text, i)
    ensures Ends(AfterFirst(text)) && text != ""
    decreases |text|
  {
    BlankLineStep(text, i);
    assert text != "";
    hide Ends, AfterFirst, IndexOf, BlankLineAt;
    var n, rest := IndexOf(text, '\n'), AfterFirst(text);
    if n == i + 1 {
      EmptyFirst(rest);
    } else {
      BlankLineEnds(rest, i - n - 1);
      EndsLater(rest);
    }
  }

  lemma EndsLater(text: string)
    requires text != "" && Ends(AfterFirst(text))
    ensures Ends(text)
  {
    hide AfterFirst, FirstRaw;
  }

  /** parse_request. */
  method ParseRequest(stream: Stream) returns (r: Outcome)
    requires HasBlankLine(stream.rest)
    modifies stream
    ensures (r, stream.rest) == WithFields(RequestLine(FirstRaw(old(stream.rest))), AfterFirst(old(stream.rest)))
  {
    ghost var i :| BlankLineAt(stream.rest, i);
    BlankLineEnds(stream.rest, i);
    hide ReadFields, Ends, AfterFirst, FirstRaw, BlankLineAt, RequestLine;
    var line := stream.GetLine();
    r := RequestLine(line);
    if r.Request? {
      var header := ReadHeader(stream);
      r := Request(r.verb, r.path, r.version, header);
    }
  }

  /** parse_response_header. */
  method ParseResponse(stream: Stream) returns (r: Outcome)
    requires HasBlankLine(stream.rest)
    modifies stream
    ensures (r, stream.rest) == WithFields(StatusLine(FirstRaw(old(stream.rest))), AfterFirst(old(stream.rest)))
  {
    ghost var i :| BlankLineAt(stream.rest, i);
    BlankLineEnds(stream.rest, i);
    hide ReadFields, Ends, AfterFirst, FirstRaw, BlankLineAt, StatusLine;
    var line := stream.GetLine();
    r := StatusLine(line);
    if r.Response? {
      var header := ReadHeader(stream);
      r := Response(r.version, r.status, header);
    }
  }

  // ----- printing

  /** One header line; Authorization is printed without a space. */
  datatype Field = Field(name: string, value: string, spaced: bool)

  const CRLF: string := "\r\n"

  function PrintField(f: Field): string { f.name + (if f.spaced then ": " else ":") + f.value + CRLF }

  function PrintFields(fields: seq<Field>): string {
    if fields == [] then "" else PrintField(fields[0]) + PrintFields(fields[1..])
  }

  /** Last one wins. */
  function Merged(fields: seq<Field>, m: Header): Header {
    if fields == [] then m else Merged(fields[1..], m[fields[0].name := fields[0].value])
  }

  predicate OneLine(s: string) { '\n' !in s }

  predicate Plain(f: Field) {
    OneLine(f.name) && OneLine(f.value) && ':' !in f.name && (f.spaced || f.value == "" || f.value[0] != ' ')
  }

  lemma LineReadsBack(line: string, rest: string)
    requires OneLine(line)
    ensures FirstRaw(line + "\n" + rest) == line && AfterFirst(line + "\n" + rest) == rest
  {
    var t := line + "\n" + rest;
    IndexOfUnique(t, '\n', |line|);
    assert t[..|line|] == line && t[|line| + 1..] == rest;
  }

  lemma LineParts(name: string, gap: string, value: string)
    ensures var line, from := name + gap + value + "\r", |name| + |gap|;
            line[..|name|] == name && line[|name|..from] == gap && line[from..] == value + "\r" && line[from..|line| - 1] == value
  {
  }

  lemma NameAndValue(name: string, gap: string, value: string)
    requires ':' !in name && (gap == ": " || (gap == ":" && (value == "" || value[0] != ' ')))
    ensures var line := name + gap + value + "\r";
            IndexOf(line, ':') == |name| < |line| && NameOf(line) == name && ValueOf(line) == value
  {
    var line := name + gap + value + "\r";
    LineParts(name, gap, value);
    assert line[|name|] == gap[0] && forall i :: 0 <= i < |name| ==> line[i] == name[i];
    IndexOfUnique(line, ':', |name|);
    hide IndexOf;
    assert line[|name| + 1] == if gap == ": " then gap[1] else (value + "\r")[0];
  }

  lemma FieldReadsBack(f: Field, rest: string)
    requires Plain(f)
    ensures var t := PrintField(f) + rest;
            && AfterFirst(t) == rest && t != ""
            && IndexOf(FirstRaw(t), ':') < |FirstRaw(t)| && NameOf(FirstRaw(t)) == f.name && ValueOf(FirstRaw(t)) == f.value
  {
    hide IndexOf, NameOf, ValueOf, FirstRaw, AfterFirst;
    var gap := if f.spaced then ": " else ":";
    var line := f.name + gap + f.value + "\r";
    assert PrintField(f) + rest == line + "\n" + rest;
    LineReadsBack(line, rest);
    NameAndValue(f.name, gap, f.value);
  }

  /** Header lines are read back and leave what is behind the blank line. */
  lemma {:induction false} FieldsReadBack(fields: seq<Field>, body: string, m: Header)
    requires forall f | f in fields :: Plain(f)
    ensures ReadFields(PrintFields(fields) + CRLF + body, m) == (Merged(fields, m), body)
    decreases |fields|
  {
    var rest := PrintFields(fields[if fields == [] then 0 else 1..]) + CRLF + body;
    if fields == [] {
      assert "" + CRLF + body == "\r" + "\n" + body;
      LineReadsBack("\r", body);
      IndexOfUnique("\r", ':', 1);
    } else {
      assert PrintFields(fields) + CRLF + body == PrintField(fields[0]) + rest;
      FieldReadsBack(fields[0], rest);
      FieldsReadBack(fields[1..], body, m[fields[0].name := fields[0].value]);
    }
  }

  predicate DistinctNames(fields: seq<Field>) {
    forall i, j :: 0 <= i < j < |fields| ==> fields[i].name != fields[j].name
  }

  function Names(fields: seq<Field>): set<string> { set i | 0 <= i < |fields| :: fields[i].name }

  lemma NamesSplit(fields: seq<Field>)
    requires fields != []
    ensures Names(fields) == Names(fields[1..]) + {fields[0].name}
    ensures DistinctNames(fields) ==> fields[0].name !in Names(fields[1..])
  {
    var later := fields[1..];
    assert forall i :: 0 < i < |fields| ==> fields[i] == later[i - 1];
    assert forall i :: 0 <= i < |later| ==> later[i] == fields[i + 1] && fields[i + 1].name in Names(fields);
  }

  /** With names of their own, the map gets exactly the printed fields. */
  lemma {:induction false} MergedExactly(fields: seq<Field>, m: Header)
    requires DistinctNames(fields)
    ensures var r := Merged(fields, m);
            && r.Keys == m.Keys + Names(fields)
            && (forall i | 0 <= i < |fields| :: r[fields[i].name] == fields[i].value)
            && (forall name | name in m && name !in Names(fields) :: r[name] == m[name])
    decreases |fields|
  {
    if fields != [] {
      var later := fields[1..];
      MergedExactly(later, m[fields[0].name := fields[0].value]);
      NamesSplit(fields);
      hide Names;
      assert forall i :: 0 < i < |fields| ==> fields[i] == later[i - 1];
    }
  }

  /** A request as the client is asked for it; credentials are encoded already, none when empty. */
  datatype Asked = Asked(verb: string, path: string, host: string, given: seq<Field>, credentials: string, content: string)

  function PrintedPath(path: string): string { if path == "" then "/" else path }

  function Generated(credentials: string, length: nat): seq<Field> {
    (if credentials == "" then [] else [Field("Authorization", "Basic " + credentials, false)])
    + if length == 0 then [] else [Field("Content-Length", Decimal.Print(length), true)]
  }

  /** All header lines, in the order they are printed. */
  function FieldsOf(q: Asked): seq<Field> {
    [Field("Host", q.host, true)] + q.given + Generated(q.credentials, |q.content|)
  }

  predicate Printable(q: Asked) {
    && OneLine(q.verb) && ' ' !in q.verb && OneLine(q.path) && ' ' !in q.path
    && OneLine(q.host) && OneLine(q.credentials)
    && forall f | f in q.given :: Plain(f) && f.spaced
  }

  function Printed(q: Asked): string {
    q.verb + " " + PrintedPath(q.path) + " HTTP/1.1" + CRLF + PrintFields(FieldsOf(q)) + CRLF + q.content
  }

  lemma {:induction false} PrintFieldsConcat(a: seq<Field>, b: seq<Field>)
    ensures PrintFields(a + b) == PrintFields(a) + PrintFields(b)
    decreases |a|
  {
    if a == [] {
      assert a + b == b;
    } else {
      assert (a + b)[1..] == a[1..] + b;
      PrintFieldsConcat(a[1..], b);
    }
  }

  lemma PrintOneMore(fields: seq<Field>, f: Field)
    ensures PrintFields(fields + [f]) == PrintFields(fields) + PrintField(f)
  {
    PrintFieldsConcat(fields, [f]);
    assert [f][1..] == [];
  }

  lemma PrintFirst(host: string)
    ensures PrintFields([Field("Host", host, true)]) == "Host: " + host + CRLF
  {
    assert [Field("Host", host, true)][1..] == [];
    assert "Host" + ": " == "Host: ";
  }

  method PrintGiven(host: string, given: seq<Field>) returns (lines: string)
    requires forall f | f in given :: f.spaced
    ensures lines == PrintFields([Field("Host", host, true)] + given)
  {
    hide PrintFields;
    ghost var first := [Field("Host", host, true)];
    PrintFirst(host);
    lines := "Host: " + host + CRLF;
    assert first + given[..0] == first;
    for i := 0 to |given|
      invariant lines == PrintFields(first + given[..i])
    {
      var h := given[i];
      assert first + given[..i + 1] == first + given[..i] + [h];
      PrintOneMore(first + given[..i], h);
      lines := lines + (h.name + ": " + h.value + CRLF);
    }
    assert given[..|given|] == given;
  }

  /** The lines the client adds of its own accord. */
  method PrintGenerated(credentials: string, length: nat, lines: string, ghost done: seq<Field>) returns (all: string)
    requires lines == PrintFields(done)
    ensures all == PrintFields(done + Generated(credentials, length))
  {
    hide PrintFields;
    all := lines;
    ghost var printed := done;
    if credentials != "" {
      ghost var f := Field("Authorization", "Basic " + credentials, false);
      PrintOneMore(printed, f);
      assert PrintField(f) == "Authorization:Basic " + credentials + CRLF;
      all := all + ("Authorization:Basic " + credentials + CRLF);
      printed := printed + [f];
    }
    if length > 0 {
      ghost var f := Field("Content-Length", Decimal.Print(length), true);
      PrintOneMore(printed, f);
      assert PrintField(f) == "Content-Length: " + Decimal.Print(length) + CRLF;
      all := all + ("Content-Length: " + Decimal.Print(length) + CRLF);
      printed := printed + [f];
    }
    assert printed == done + Generated(credentials, length);
  }

  /** How lines are put together. */
  lemma LinesAre(f: Field, fields: seq<Field>)
    ensures PrintFields([]) == ""
    ensures PrintFields([f] + fields) == f.name + (if f.spaced then ": " else ":") + f.value + "\r\n" + PrintFields(fields)
  {
    assert ([f] + fields)[1..] == fields;
  }

  lemma OneLineIs(f: Field)
    ensures PrintFields([f]) == f.name + (if f.spaced then ": " else ":") + f.value + "\r\n"
  {
    LinesAre(f, []);
    assert [f] + [] == [f];
  }

  lemma GeneratedIs(credentials: string, length: nat)
    ensures PrintFields(Generated(credentials, length)) ==
            (if credentials == "" then "" else "Authorization:Basic " + credentials + "\r\n")
            + (if length == 0 then "" else "Content-Length: " + Decimal.Print(length) + "\r\n")
  {
    var a, l := Field("Authorization", "Basic " + credentials, false), Field("Content-Length", Decimal.Print(length), true);
    OneLineIs(a);
    OneLineIs(l);
    LinesAre(a, [l]);
    hide PrintFields, Decimal.Print;
    assert [a] + [] == [a] && [] + [l] == [l];
    assert "Authorization" + ":" + ("Basic " + credentials) + "\r\n" == "Authorization:Basic " + credentials + "\r\n";
    assert "Content-Length" + ": " == "Content-Length: ";
  }

  lemma PrintedIs(q: Asked)
    ensures Printed(q) == q.verb + " " + (if q.path == "" then "/" else q.path) + " HTTP/1.1\r\n"
                          + ("Host: " + q.host + "\r\n" + PrintFields(q.given)
                             + (if q.credentials == "" then "" else "Authorization:Basic " + q.credentials + "\r\n")
                             + (if q.content == "" then "" else "Content-Length: " + Decimal.Print(|q.content|) + "\r\n"))
                          + "\r\n" + q.content
  {
    FieldLinesAre(q);
    hide PrintFields, FieldsOf, Decimal.Print;
    assert " HTTP/1.1" + CRLF == " HTTP/1.1\r\n";
  }

  lemma FieldLinesAre(q: Asked)
    ensures PrintFields(FieldsOf(q)) ==
            "Host: " + q.host + "\r\n" + PrintFields(q.given)
            + (if q.credentials == "" then "" else "Authorization:Basic " + q.credentials + "\r\n")
            + (if q.content == "" then "" else "Content-Length: " + Decimal.Print(|q.content|) + "\r\n")
  {
    var h := Field("Host", q.host, true);
    GeneratedIs(q.credentials, |q.content|);
    PrintFieldsConcat([h] + q.given, Generated(q.credentials, |q.content|));
    LinesAre(h, q.given);
    hide PrintFields, Generated, Decimal.Print;
    assert "Host" + ": " == "Host: ";
  }

  /** The printer inside request. */
  method PrintRequest(q: Asked) returns (stream: string)
    requires forall f | f in q.given :: f.spaced
    ensures stream == Printed(q)
    ensures stream == q.verb + " " + (if q.path == "" then "/" else q.path) + " HTTP/1.1\r\n"
                      + ("Host: " + q.host + "\r\n" + PrintFields(q.given)
                         + (if q.credentials == "" then "" else "Authorization:Basic " + q.credentials + "\r\n")
                         + (if q.content == "" then "" else "Content-Length: " + Decimal.Print(|q.content|) + "\r\n"))
                      + "\r\n" + q.content
  {
    PrintedIs(q);
    hide PrintFields, Generated;
    var correctedPath := q.path;
    if correctedPath == "" {
      correctedPath := "/";
    }
    stream := q.verb + " " + correctedPath + " HTTP/1.1" + CRLF;
    var lines := PrintGiven(q.host, q.given);
    lines := PrintGenerated(q.credentials, |q.content|, lines, [Field("Host", q.host, true)] + q.given);
    stream := stream + lines + CRLF + q.content;
  }

  lemma DigitsAreOneLine(n: nat)
    ensures OneLine(Decimal.Print(n))
  {
  }

  lemma GeneratedArePlain(credentials: string, length: nat)
    requires OneLine(credentials)
    ensures forall f | f in Generated(credentials, length) :: Plain(f)
  {
    DigitsAreOneLine(length);
    assert ':' !in "Authorization" && ':' !in "Content-Length";
    assert OneLine("Authorization") && OneLine("Content-Length") && OneLine("Basic ");
  }

  lemma FieldsArePlain(q: Asked)
    requires Printable(q)
    ensures forall f | f in FieldsOf(q) :: Plain(f)
  {
    GeneratedArePlain(q.credentials, |q.content|);
    assert Plain(Field("Host", q.host, true));
    hide Plain, Generated;
  }

  lemma FirstSpace(a: string, b: string)
    requires ' ' !in a
    ensures IndexOf(a + " " + b, ' ') == |a|
  {
    IndexOfUnique(a + " " + b, ' ', |a|);
  }

  lemma SpacesAt(a: string, b: string, c: string)
    requires ' ' !in a && ' ' !in b
    ensures var line := a + " " + b + " " + c;
            && IndexOf(line, ' ') == |a| && FindFrom(line, ' ', |a| + 1) == |a| + 1 + |b|
            && line[..|a|] == a && line[|a| + 1..|a| + 1 + |b|] == b
  {
    var line, tail := a + " " + b + " " + c, b + " " + c;
    assert line == a + " " + tail && line[|a| + 1..] == tail;
    FirstSpace(a, tail);
    FirstSpace(b, c);
    hide IndexOf;
  }

  lemma VersionPart(before: string, c: string)
    ensures SubStr(before + c, |before| + 5, |c| - 6) ==
            if |c| < 5 then None else Some(if |c| == 5 then "" else c[5..|c| - 1])
  {
    var line := before + c;
    if |c| > 5 {
      assert line[|before| + 5..|line| - 1] == c[5..|c| - 1];
    } else if |c| == 5 {
      assert line[|line|..] == "";
    }
  }

  /** A line with two spaces: what is in front of them, and a version behind five characters more, without the
      last one of the line; fewer than those five throw. */
  lemma RequestLineParts(a: string, b: string, c: string)
    requires ' ' !in a && ' ' !in b
    ensures RequestLine(a + " " + b + " " + c) ==
            if |c| < 5 then OutOfRange else Request(a, b, if |c| == 5 then "" else c[5..|c| - 1], map[])
  {
    hide IndexOf, FindFrom, SubStr;
    var before, p := a + " " + b + " ", |a| + 1 + |b|;
    SpacesAt(a, b, c);
    VersionPart(before, c);
    assert |before| == p + 1 && |before + c| - p - 7 == |c| - 6;
  }

  /** Every line from which something is read has those parts. */
  lemma PartsOf(line: string) returns (a: string, b: string, c: string)
    requires RequestLine(line) != Ignored
    ensures ' ' !in a && ' ' !in b && line == a + " " + b + " " + c
  {
    hide IndexOf, FindFrom;
    var m := IndexOf(line, ' ');
    var p := FindFrom(line, ' ', m + 1);
    a, b, c := line[..m], line[m + 1..p], line[p + 1..];
    CutTwice(line, m, p);
  }

  lemma CutTwice(line: string, m: nat, p: nat)
    requires m < p < |line| && line[m] == line[p] == ' '
    ensures line == line[..m] + " " + line[m + 1..p] + " " + line[p + 1..]
  {
    assert line[..m] + " " == line[..m + 1];
    assert line[..m + 1] + line[m + 1..p] == line[..p];
    assert line[..p] + " " == line[..p + 1];
    assert line[..p + 1] + line[p + 1..] == line;
  }

  predicate HasParts(line: string, a: string, b: string, c: string) {
    ' ' !in a && ' ' !in b && line == a + " " + b + " " + c
  }

  /** The exception of the server's handler, for exactly these request lines. */
  lemma OutOfRangeIff(line: string)
    ensures RequestLine(line) == OutOfRange <==> exists a, b, c :: HasParts(line, a, b, c) && |c| < 5
    ensures RequestLine(line) == Ignored <==> !exists a, b, c :: HasParts(line, a, b, c)
  {
    if RequestLine(line) != Ignored {
      var a, b, c := PartsOf(line);
      assert HasParts(line, a, b, c);
      RequestLineParts(a, b, c);
    }
    forall a, b, c | HasParts(line, a, b, c)
      ensures RequestLine(line) != Ignored && (|c| < 5 <==> RequestLine(line) == OutOfRange)
    {
      RequestLineParts(a, b, c);
    }
    hide RequestLine;
  }

  /** The same for the client's handler: a line with a space in its first characters that ends before five. */
  lemma StatusOutOfRangeIff(line: string)
    ensures StatusLine(line) == OutOfRange <==> ' ' in line && |line| < 5
  {
  }

  const PROTOCOL: string := "HTTP/1.1\r"

  lemma ProtocolParts(a: string)
    ensures a + " HTTP/1.1\r" == a + " " + PROTOCOL && |PROTOCOL| == 9 && PROTOCOL[5..8] == "1.1"
  {
  }

  lemma RequestLineReadsBack(verb: string, path: string)
    requires ' ' !in verb && ' ' !in path
    ensures RequestLine(verb + " " + path + " HTTP/1.1\r") == Request(verb, path, "1.1", map[])
  {
    ProtocolParts(verb + " " + path);
    RequestLineParts(verb, path, PROTOCOL);
    hide RequestLine;
  }

  /** The head round trip: the server reads exactly what the client was asked for and generated, and
      leaves exactly the content. */
  lemma HeadRoundTrip(q: Asked)
    requires Printable(q)
    ensures HasBlankLine(Printed(q))
    ensures WithFields(RequestLine(FirstRaw(Printed(q))), AfterFirst(Printed(q)))
         == (Request(q.verb, PrintedPath(q.path), "1.1", Merged(FieldsOf(q), map[])), q.content)
  {
    PrintedIsLines(q);
    var line, fields := HeadLine(q), PrintFields(FieldsOf(q));
    var rest := fields + CRLF + q.content;
    LineReadsBack(line, rest);
    RequestLineReadsBack(q.verb, PrintedPath(q.path));
    FieldsArePlain(q);
    FieldsReadBack(FieldsOf(q), q.content, map[]);
    hide PrintFields, RequestLine, ReadFields, FieldsOf, Printed, FirstRaw, AfterFirst;
  }

  function HeadLine(q: Asked): string { q.verb + " " + PrintedPath(q.path) + " HTTP/1.1\r" }

  lemma PrintedIsLines(q: Asked)
    requires Printable(q)
    ensures Printed(q) == HeadLine(q) + "\n" + (PrintFields(FieldsOf(q)) + CRLF + q.content)
    ensures OneLine(HeadLine(q)) && HasBlankLine(Printed(q))
  {
    hide PrintFields, Generated;
    var line, fields := HeadLine(q), PrintFields(FieldsOf(q));
    assert q.verb + " " + PrintedPath(q.path) + " HTTP/1.1" + CRLF == line + "\n";
    assert Printed(q) == line + "\n" + (fields + CRLF + q.content);
    FieldsEndInCrlf(FieldsOf(q));
    BlankLineIn(line + "\n", fields, q.content);
  }

  lemma BlankLineIn(before: string, fields: string, content: string)
    requires |fields| >= 2 && fields[|fields| - 2..] == CRLF
    ensures HasBlankLine(before + (fields + CRLF + content))
  {
    var text, i := before + (fields + CRLF + content), |before| + |fields| - 2;
    assert text[i..i + 2] == fields[|fields| - 2..];
    assert text[i..i + 4] == text[i..i + 2] + CRLF;
    assert BlankLineAt(text, i);
  }

  lemma {:induction false} FieldsEndInCrlf(fields: seq<Field>)
    requires fields != []
    ensures |PrintFields(fields)| >= 2 && PrintFields(fields)[|PrintFields(fields)| - 2..] == CRLF
  {
    if |fields| > 1 { FieldsEndInCrlf(fields[1..]); } else { assert fields[1..] == []; }
  }

  lemma {:induction false} MergedLast(fields: seq<Field>, f: Field, m: Header)
    ensures Merged(fields + [f], m) == Merged(fields, m)[f.name := f.value]
    decreases |fields|
  {
    if fields == [] {
      assert [f][1..] == [] && [] + [f] == [f];
    } else {
      assert (fields + [f])[1..] == fields[1..] + [f];
      MergedLast(fields[1..], f, m[fields[0].name := fields[0].value]);
    }
  }

  /** Whatever headers were given, the length the server reads by is that of the content. */
  lemma LengthWins(q: Asked)
    requires q.content != ""
    ensures var header := Merged(FieldsOf(q), map[]);
            && "Content-Length" in header && Decimal.AllDigits(header["Content-Length"])
            && Decimal.Value(header["Content-Length"]) == |q.content|
  {
    var f := Field("Content-Length", Decimal.Print(|q.content|), true);
    var before := FieldsOf(q)[..|FieldsOf(q)| - 1];
    assert FieldsOf(q) == before + [f];
    MergedLast(before, f, map[]);
    Decimal.PrintValue(|q.content|);
  }

  lemma GivenAreSpaced(q: Asked)
    requires Printable(q)
    ensures forall f | f in q.given :: f.spaced
  {
    hide Plain;
  }

  lemma PathIs(q: Asked)
    ensures PrintedPath(q.path) == if q.path == "" then "/" else q.path
  {
  }

  lemma LengthIsSent(q: Asked)
    ensures var header := Merged(FieldsOf(q), map[]);
            q.content != "" ==> "Content-Length" in header && Decimal.AllDigits(header["Content-Length"])
                                && Decimal.Value(header["Content-Length"]) == |q.content|
  {
    if q.content != "" { LengthWins(q); }
  }

  /** Credentials are sent as they are, whatever headers were given: only the length comes behind them. */
  lemma CredentialsAreSent(q: Asked)
    ensures var header := Merged(FieldsOf(q), map[]);
            q.credentials != "" ==> "Authorization" in header && header["Authorization"] == "Basic " + q.credentials
  {
    if q.credentials != "" {
      var before := [Field("Host", q.host, true)] + q.given;
      var a, l := Field("Authorization", "Basic " + q.credentials, false), Field("Content-Length", Decimal.Print(|q.content|), true);
      MergedLast(before, a, map[]);
      MergedLast(before + [a], l, map[]);
      assert FieldsOf(q) == if q.content == "" then before + [a] else before + [a] + [l];
      hide Merged, FieldsOf, Decimal.Print;
    }
  }

  /** No header is given twice, nor one that the client prints itself. */
  predicate NoNameTwice(q: Asked) {
    && (forall i, j :: 0 <= i < j < |q.given| ==> q.given[i].name != q.given[j].name)
    && (forall f | f in q.given :: f.name != "Host")
    && (q.credentials != "" ==> forall f | f in q.given :: f.name != "Authorization")
    && (q.content != "" ==> forall f | f in q.given :: f.name != "Content-Length")
  }

  lemma GeneratedNames(credentials: string, length: nat)
    ensures DistinctNames(Generated(credentials, length))
    ensures forall f | f in Generated(credentials, length) ::
              f.name != "Host" && (f.name == "Authorization" || f.name == "Content-Length")
    ensures Names(Generated(credentials, length)) ==
            (if credentials == "" then {} else {"Authorization"}) + (if length == 0 then {} else {"Content-Length"})
    ensures forall f | f in Generated(credentials, length) ::
              (f.name == "Authorization" ==> credentials != "") && (f.name == "Content-Length" ==> length != 0)
  {
    hide Decimal.Print;
    assert "Authorization"[0] != "Content-Length"[0] && "Host"[0] != "Authorization"[0] && "Host"[0] != "Content-Length"[0];
    var g := Generated(credentials, length);
    assert credentials != "" ==> g[0].name == "Authorization";
    assert length != 0 ==> g[|g| - 1].name == "Content-Length";
  }

  lemma NamesConcat(a: seq<Field>, b: seq<Field>)
    ensures Names(a + b) == Names(a) + Names(b)
    ensures DistinctNames(a) && DistinctNames(b) && Names(a) !! Names(b) ==> DistinctNames(a + b)
  {
    var all := a + b;
    assert forall i :: 0 <= i < |a| ==> all[i] == a[i];
    assert forall i :: 0 <= i < |b| ==> all[|a| + i] == b[i];
    forall i | 0 <= i < |all| ensures all[i].name in Names(a) + Names(b) {
      assert i >= |a| ==> all[i] == b[i - |a|];
    }
  }

  lemma NamesOfAll(q: Asked)
    requires NoNameTwice(q)
    ensures DistinctNames(FieldsOf(q))
    ensures Names(FieldsOf(q)) == {"Host"} + Names(q.given)
                                  + (if q.credentials == "" then {} else {"Authorization"})
                                  + (if q.content == "" then {} else {"Content-Length"})
  {
    var h, g := [Field("Host", q.host, true)], Generated(q.credentials, |q.content|);
    GeneratedNames(q.credentials, |q.content|);
    assert Names(h) == {"Host"} by { assert h[0].name in Names(h); }
    NamesConcat(h, q.given);
    NamesConcat(h + q.given, g);
    GivenApart(q);
    hide Generated, Names;
  }

  lemma GivenApart(q: Asked)
    requires NoNameTwice(q)
    ensures "Host" !in Names(q.given) && DistinctNames(q.given)
    ensures q.credentials != "" ==> "Authorization" !in Names(q.given)
    ensures q.content != "" ==> "Content-Length" !in Names(q.given)
  {
  }

  lemma NamesAreSent(q: Asked)
    ensures var header := Merged(FieldsOf(q), map[]);
            NoNameTwice(q) ==>
              && header.Keys == {"Host"} + (set i | 0 <= i < |q.given| :: q.given[i].name)
                                + (if q.credentials == "" then {} else {"Authorization"})
                                + (if q.content == "" then {} else {"Content-Length"})
              && header["Host"] == q.host && forall f | f in q.given :: header[f.name] == f.value
  {
    if NoNameTwice(q) {
      var all := FieldsOf(q);
      NamesOfAll(q);
      MergedExactly(all, map[]);
      FieldsStand(q);
      hide Merged, FieldsOf, DistinctNames, NoNameTwice, Names;
      NamesAre(q.given);
    }
  }

  lemma NamesAre(fields: seq<Field>)
    ensures Names(fields) == set i | 0 <= i < |fields| :: fields[i].name
  {
  }

  lemma FieldsStand(q: Asked)
    ensures var all := FieldsOf(q);
            && all[0] == Field("Host", q.host, true)
            && forall f | f in q.given :: exists i :: 0 <= i < |all| && all[i] == f
  {
    var all := FieldsOf(q);
    forall f | f in q.given ensures exists i :: 0 <= i < |all| && all[i] == f {
      var i :| 0 <= i < |q.given| && q.given[i] == f;
      assert all[1 + i] == f;
    }
  }

  /** Client to server. */
  method SendHead(q: Asked) returns (r: Outcome, content: string)
    requires Printable(q)
    ensures r.Request? && r.verb == q.verb && r.path == (if q.path == "" then "/" else q.path) && r.version == "1.1"
    ensures content == q.content && r.header == Merged(FieldsOf(q), map[])
    ensures q.credentials != "" ==>
              "Authorization" in r.header && r.header["Authorization"] == "Basic " + q.credentials
    ensures NoNameTwice(q) ==>
              && r.header.Keys == {"Host"} + (set i | 0 <= i < |q.given| :: q.given[i].name)
                                  + (if q.credentials == "" then {} else {"Authorization"})
                                  + (if q.content == "" then {} else {"Content-Length"})
              && r.header["Host"] == q.host && forall f | f in q.given :: r.header[f.name] == f.value
    ensures content != "" ==> "Content-Length" in r.header && Decimal.AllDigits(r.header["Content-Length"])
                              && Decimal.Value(r.header["Content-Length"]) == |content|
  {
    hide *;
    HeadRoundTrip(q);
    LengthIsSent(q);
    CredentialsAreSent(q);
    NamesAreSent(q);
    PathIs(q);
    GivenAreSpaced(q);
    var text := PrintRequest(q);
    var stream := new Stream(text);
    r := ParseRequest(stream);
    content := stream.rest;
  }

  lemma StatusLineReadsBack(version: string, status: string)
    requires ' ' !in version
    ensures StatusLine("HTTP/" + version + " " + status + "\r") == Response(version, status, map[])
  {
    var line := "HTTP/" + version + " " + status + "\r";
    IndexOfUnique(line, ' ', 5 + |version|);
    assert line[5..5 + |version|] == version && line[|version| + 6..|line| - 1] == status;
  }

  /** A response head written the usual way is read back too. */
  lemma ResponseReadsBack(version: string, status: string, fields: seq<Field>, content: string)
    requires ' ' !in version && OneLine(version) && OneLine(status) && forall f | f in fields :: Plain(f)
    ensures var text := "HTTP/" + version + " " + status + "\r\n" + (PrintFields(fields) + CRLF + content);
            var head := WithFields(StatusLine(FirstRaw(text)), AfterFirst(text));
            head == (Response(version, status, Merged(fields, map[])), content)
  {
    var line := "HTTP/" + version + " " + status + "\r";
    var rest := PrintFields(fields) + CRLF + content;
    assert "HTTP/" + version + " " + status + "\r\n" + rest == line + "\n" + rest;
    LineReadsBack(line, rest);
    StatusLineReadsBack(version, status);
    FieldsReadBack(fields, content, map[]);
  }
}
