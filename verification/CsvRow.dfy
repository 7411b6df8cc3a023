/** Cutting one CSV line into columns in place. Offsets into the buffer stand for pointers; None for null. */
module CsvRow {
  import opened CsvSpec
  import opened Wrappers

  datatype Outcome = Parsed | TooFew | TooMany | NotClosed | Overrun

  // ----- the reference

  datatype Row = Row(outcome: Outcome, fields: seq<string>)

  /** What a column is read as. */
  function Field(p: Policy, chars: set<char>, column: string): Option<string> {
    Unescape(p, Trim(chars, column))
  }

  /** The line behind a column that ends at position e. */
  function Behind(s: string, e: nat): Option<string>
    requires e <= |s|
  {
    if e == |s| then None else Some(s[e + 1..])
  }

  /** Columns that are to be ignored (-1) are cut off but not looked at. */
  function ReadRow(p: Policy, chars: set<char>, line: Option<string>, order: seq<int>): (r: Row)
    ensures r.outcome.Parsed? ==> |r.fields| == |order|
    decreases |order|
  {
    if order == [] then Row(if line.None? then Parsed else TooMany, [])
    else if line.None? then Row(TooFew, [])
    else match ColumnEnd(p, line.value)
      case None => Row(NotClosed, [])
      case Some(e) =>
        var field := if order[0] == -1 then Some("") else Field(p, chars, line.value[..e]);
        if field.None? then Row(Overrun, [])
        else Append(field.value, ReadRow(p, chars, Behind(line.value, e), order[1..]))
  }

  function Append(field: string, r: Row): Row { Row(r.outcome, [field] + r.fields) }

  // ----- what that comes to, for any line

  /** The columns of a line up to one that does not end, and whether there is none such. */
  function Columns(p: Policy, s: string): (seq<string>, bool)
    decreases |s|
  {
    match ColumnEnd(p, s)
    case None => ([], false)
    case Some(e) =>
      if e == |s| then ([s], true)
      else
        var (rest, closed) := Columns(p, s[e + 1..]);
        ([s[..e]] + rest, closed)
  }

  /** A column that is wanted but cannot be unescaped. */
  predicate Unreadable(p: Policy, chars: set<char>, columns: seq<string>, order: seq<int>, i: nat) {
    i < |columns| && i < |order| && order[i] != -1 && Field(p, chars, columns[i]).None?
  }

  /** A column cannot be unescaped exactly when, trimmed, it is wrapped in quotes and the text between them ends in
      an odd number of quotes. */
  lemma NoFieldIff(p: Policy, chars: set<char>, column: string)
    ensures Field(p, chars, column).None? <==>
            var t := Trim(chars, column); Wrapped(p, t) && EndingQuotes(p.quote, t[1..|t| - 1]) % 2 == 1
  {
    var t := Trim(chars, column);
    if Wrapped(p, t) { OverrunIff(p.quote, t[1..|t| - 1]); }
    hide Trim, EndingQuotes;
  }

  /** The outcome by counts alone. */
  function CountOutcome(columns: nat, closed: bool, expected: nat): Outcome {
    if expected < columns || (expected == columns && !closed) then TooMany
    else if expected == columns then Parsed
    else if closed then TooFew
    else NotClosed
  }

  /** What a row comes to, given its columns: it is read exactly when it has as many as expected, all end, and all
      wanted ones can be read; otherwise this is the error. */
  ghost predicate RowIs(p: Policy, chars: set<char>, columns: seq<string>, closed: bool, order: seq<int>, row: Row) {
    && (row.outcome == Overrun <==> exists i: nat :: Unreadable(p, chars, columns, order, i))
    && (row.outcome != Overrun ==> row.outcome == CountOutcome(|columns|, closed, |order|))
    && (row.outcome == Parsed ==>
          |row.fields| == |order| <= |columns|
          && forall i | 0 <= i < |order| ::
               if order[i] == -1 then row.fields[i] == "" else Field(p, chars, columns[i]) == Some(row.fields[i]))
  }

  lemma {:induction false} ReadRowIs(p: Policy, chars: set<char>, s: string, order: seq<int>)
    ensures var (columns, closed) := Columns(p, s);
            RowIs(p, chars, columns, closed, order, ReadRow(p, chars, Some(s), order))
    decreases |order|
  {
    hide Field, ColumnEnd, RowIs;
    if order == [] || ColumnEnd(p, s).None? {
      NoColumnIs(p, chars, s, order);
    } else {
      var e := ColumnEnd(p, s).value;
      var field := if order[0] == -1 then Some("") else Field(p, chars, s[..e]);
      assert s[..|s|] == s;
      if field.None? {
        FirstUnreadable(p, chars, Columns(p, s).0, Columns(p, s).1, order);
      } else if e < |s| {
        ReadRowIs(p, chars, s[e + 1..], order[1..]);
        var (columns, closed) := Columns(p, s[e + 1..]);
        RowIsStep(p, chars, s[..e], columns, closed, order, ReadRow(p, chars, Some(s[e + 1..]), order[1..]), field.value);
      } else {
        RowIsOfNull(p, chars, order[1..]);
        RowIsStep(p, chars, s, [], true, order, ReadRow(p, chars, None, order[1..]), field.value);
        assert [s] + [] == [s];
      }
    }
  }

  /** Nothing is wanted, or not even the first column ends. */
  lemma NoColumnIs(p: Policy, chars: set<char>, s: string, order: seq<int>)
    requires order == [] || ColumnEnd(p, s).None?
    ensures var (columns, closed) := Columns(p, s);
            RowIs(p, chars, columns, closed, order, ReadRow(p, chars, Some(s), order))
  {
    hide Field, ColumnEnd;
  }

  lemma FirstUnreadable(p: Policy, chars: set<char>, columns: seq<string>, closed: bool, order: seq<int>)
    requires order != [] && columns != [] && order[0] != -1 && Field(p, chars, columns[0]).None?
    ensures RowIs(p, chars, columns, closed, order, Row(Overrun, []))
  {
    hide Field;
    assert Unreadable(p, chars, columns, order, 0);
  }

  lemma RowIsOfNull(p: Policy, chars: set<char>, order: seq<int>)
    ensures RowIs(p, chars, [], true, order, ReadRow(p, chars, None, order))
  {
    hide Field;
  }

  /** One more column in front. */
  lemma RowIsStep(p: Policy, chars: set<char>, first: string, rest: seq<string>, closed: bool, order: seq<int>, row: Row,
                  field: string)
    requires order != [] && RowIs(p, chars, rest, closed, order[1..], row)
    requires if order[0] == -1 then field == "" else Field(p, chars, first) == Some(field)
    ensures RowIs(p, chars, [first] + rest, closed, order, Append(field, row))
  {
    hide Field;
    var columns, all := [first] + rest, [field] + row.fields;
    assert columns[1..] == rest;
    UnreadableTail(p, chars, columns, order);
    if row.outcome == Parsed {
      forall i | 0 <= i < |order|
        ensures if order[i] == -1 then all[i] == "" else Field(p, chars, columns[i]) == Some(all[i])
      {
        if i > 0 { assert order[1..][i - 1] == order[i] && columns[i] == rest[i - 1] && all[i] == row.fields[i - 1]; }
      }
    }
  }

  lemma UnreadableTail(p: Policy, chars: set<char>, columns: seq<string>, order: seq<int>)
    requires columns != [] && order != [] && !Unreadable(p, chars, columns, order, 0)
    ensures (exists i: nat :: Unreadable(p, chars, columns, order, i)) <==>
            exists i: nat :: Unreadable(p, chars, columns[1..], order[1..], i)
  {
    hide Field;
    if i: nat :| Unreadable(p, chars, columns, order, i) {
      assert Unreadable(p, chars, columns[1..], order[1..], i - 1);
    }
    if i: nat :| Unreadable(p, chars, columns[1..], order[1..], i) {
      assert Unreadable(p, chars, columns, order, i + 1);
    }
  }

  /** A row on which the copy loop leaves its column: "a"b"" with its quotes, unpaired ones inside. */
  lemma OverrunHappens(chars: set<char>)
    requires '"' !in chars
    ensures ReadRow(DoubleQuote(',', '"'), chars, Some("\"a\"b\"\""), [0]).outcome == Overrun
  {
    var p, s := DoubleQuote(',', '"'), "\"a\"b\"\"";
    assert s[1..] == "a\"b\"\"" && s[1..][1..] == "\"b\"\"" && "\"b\"\""[1..] == "b\"\"";
    assert "b\"\""[1..] == "\"\"" && "\"\""[1..] == "\"" && "\""[1..] == "";
    assert EndFrom(p, "\"\"", false) == Some(2);
    assert EndFrom(p, "\"b\"\"", true) == Some(4);
    assert ColumnEnd(p, s) == Some(6) && s[..6] == s;
    assert Trim(chars, s) == s;
    assert s[1..|s| - 1] == "a\"b\"";
    assert EndingQuotes('"', "a\"b\"") == 1;
    OverrunIff('"', "a\"b\"");
  }

  // ----- C strings in a buffer

  ghost predicate LineAt(a: array<char>, begin: nat, end: nat)
    reads a
  {
    begin <= end < a.Length && a[end] == '\0' && NoNul(a[begin..end])
  }

  ghost function TextAt(a: array<char>, line: Option<nat>, end: nat): Option<string>
    requires line.Some? ==> LineAt(a, line.value, end)
    reads a
  {
    if line.None? then None else Some(a[line.value..end])
  }

  /** A NUL-terminated field at position at. */
  predicate Holds(buffer: seq<char>, at: nat, field: string) {
    at + |field| < |buffer| && buffer[at..at + |field|] == field && buffer[at + |field|] == '\0'
  }

  function Found(r: Option<nat>, begin: nat): Option<nat> {
    match r
    case None => None
    case Some(n) => Some(begin + n)
  }

  // ----- the policies

  lemma EndStep(p: Policy, a: array<char>, i: nat, end: nat, open: bool)
    requires i < end <= a.Length && (open || a[i] != p.sep)
    ensures Found(EndFrom(p, a[i..end], open), i) == Found(EndFrom(p, a[i + 1..end], open != IsQuote(p, a[i])), i + 1)
  {
    assert a[i..end][1..] == a[i + 1..end];
  }

  lemma EndStop(p: Policy, a: array<char>, i: nat, end: nat)
    requires LineAt(a, i, end) && (a[i] == '\0' || a[i] == p.sep)
    ensures Found(EndFrom(p, a[i..end], false), i) == Some(i)
  {
    if i < end { assert a[i..end][0] == a[i]; }
  }

  lemma NulIsEnd(a: array<char>, i: nat, end: nat)
    requires LineAt(a, i, end)
    ensures a[i] == '\0' <==> i == end
  {
    if i < end { assert a[i..end][0] == a[i]; }
  }

  lemma LineStep(a: array<char>, i: nat, end: nat)
    requires LineAt(a, i, end) && i < end
    ensures LineAt(a, i + 1, end)
  {
    assert a[i..end][1..] == a[i + 1..end];
  }

  /** no_quote_escape. */
  method FindUnquotedEnd(p: Policy, a: array<char>, begin: nat, ghost end: nat) returns (r: Option<nat>)
    requires p.NoQuote? && Sound(p) && LineAt(a, begin, end)
    ensures r == Found(ColumnEnd(p, a[begin..end]), begin)
  {
    var i := begin;
    NulIsEnd(a, i, end);
    while a[i] != p.sep && a[i] != '\0'
      invariant begin <= i <= end && LineAt(a, i, end) && (a[i] == '\0' <==> i == end)
      invariant Found(ColumnEnd(p, a[begin..end]), begin) == Found(EndFrom(p, a[i..end], false), i)
      decreases end - i
    {
      EndStep(p, a, i, end, false);
      LineStep(a, i, end);
      NulIsEnd(a, i + 1, end);
      i := i + 1;
    }
    EndStop(p, a, i, end);
    r := Some(i);
  }

  /** double_quote_escape. */
  method FindQuotedEnd(p: Policy, a: array<char>, begin: nat, ghost end: nat) returns (r: Option<nat>)
    requires p.DoubleQuote? && Sound(p) && LineAt(a, begin, end)
    ensures r == Found(ColumnEnd(p, a[begin..end]), begin)
  {
    hide EndFrom;
    var i := begin;
    while a[i] != p.sep && a[i] != '\0'
      invariant begin <= i <= end && LineAt(a, i, end)
      invariant Found(ColumnEnd(p, a[begin..end]), begin) == Found(EndFrom(p, a[i..end], false), i)
      decreases end - i
    {
      if a[i] != p.quote {
        EndStep(p, a, i, end, false);
        LineStep(a, i, end);
        i := i + 1;
      } else {
        var closed := SkipQuoted(p, a, i, end);
        if closed.None? {
          return None;
        }
        i := closed.value;
      }
    }
    EndStop(p, a, i, end);
    r := Some(i);
  }

  /** The do loop over quoted stretches that follow each other. */
  method SkipQuoted(p: Policy, a: array<char>, begin: nat, ghost end: nat) returns (r: Option<nat>)
    requires p.DoubleQuote? && Sound(p) && LineAt(a, begin, end) && a[begin] == p.quote
    ensures r.None? ==> EndFrom(p, a[begin..end], false).None?
    ensures r.Some? ==>
              && begin < r.value <= end && LineAt(a, r.value, end)
              && Found(EndFrom(p, a[begin..end], false), begin) == Found(EndFrom(p, a[r.value..end], false), r.value)
  {
    hide EndFrom;
    var i := begin;
    while true
      invariant begin <= i < end && LineAt(a, i, end) && a[i] == p.quote
      invariant Found(EndFrom(p, a[begin..end], false), begin) == Found(EndFrom(p, a[i..end], false), i)
      decreases end - i
    {
      EndStep(p, a, i, end, false);
      LineStep(a, i, end);
      var close := FindClosing(p, a, i + 1, end);
      if close.None? {
        return None;
      }
      EndStep(p, a, close.value, end, true);
      LineStep(a, close.value, end);
      i := close.value + 1;
      if a[i] != p.quote {
        return Some(i);
      }
    }
  }

  /** The inner loop, inside quotes. */
  method FindClosing(p: Policy, a: array<char>, begin: nat, ghost end: nat) returns (r: Option<nat>)
    requires p.DoubleQuote? && Sound(p) && LineAt(a, begin, end)
    ensures r.None? ==> EndFrom(p, a[begin..end], true).None?
    ensures r.Some? ==>
              && begin <= r.value < end && LineAt(a, r.value, end) && a[r.value] == p.quote
              && Found(EndFrom(p, a[begin..end], true), begin) == Found(EndFrom(p, a[r.value..end], true), r.value)
  {
    hide EndFrom;
    var i := begin;
    while a[i] != p.quote
      invariant begin <= i <= end && LineAt(a, i, end)
      invariant Found(EndFrom(p, a[begin..end], true), begin) == Found(EndFrom(p, a[i..end], true), i)
      decreases end - i
    {
      if a[i] == '\0' {
        NulIsEnd(a, i, end);
        EmptyInside(p, a, i);
        return None;
      }
      EndStep(p, a, i, end, true);
      LineStep(a, i, end);
      i := i + 1;
    }
    r := Some(i);
  }

  lemma EmptyInside(p: Policy, a: array<char>, i: nat)
    requires i <= a.Length
    ensures EndFrom(p, a[i..i], true).None?
  {
  }

  method FindNextColumnEnd(p: Policy, a: array<char>, begin: nat, ghost end: nat) returns (r: Option<nat>)
    requires Sound(p) && LineAt(a, begin, end)
    ensures r == Found(ColumnEnd(p, a[begin..end]), begin)
  {
    match p
    case NoQuote(_) => r := FindUnquotedEnd(p, a, begin, end);
    case DoubleQuote(_, _) => r := FindQuotedEnd(p, a, begin, end);
  }

  /** Removes the quotes in place; the write position never overtakes the read position. */
  method UnescapeColumn(p: Policy, a: array<char>, begin: nat, end: nat) returns (start: nat, stop: nat, overrun: bool)
    requires begin <= end < a.Length && a[end] == '\0'
    modifies a
    ensures forall i :: 0 <= i < a.Length && !(begin <= i <= end) ==> a[i] == old(a[i])
    ensures overrun <==> Unescape(p, old(a[begin..end])).None?
    ensures !overrun ==> begin <= start <= stop <= end && a[stop] == '\0'
                         && Some(a[start..stop]) == Unescape(p, old(a[begin..end]))
  {
    start, stop, overrun := begin, end, false;
    if p.DoubleQuote? && end - begin >= 2 {
      if a[begin] == p.quote && a[end - 1] == p.quote {
        start := begin + 1;
        assert a[begin..end][1..end - begin - 1] == a[begin + 1..end - 1];
        stop, overrun := CompactInner(p.quote, a, start, end - 1);
        if !overrun {
          a[stop] := '\0';
        }
      }
    }
  }

  lemma InnerStep(quote: char, s: string)
    requires s != "" && !(s[0] == quote && |s| == 1)
    ensures var n := if s[0] == quote && s[1] == quote then 2 else 1;
            n <= |s| && Inner(quote, s) == Prepend(s[0], Inner(quote, s[n..]))
  {
  }

  function PrependAll(t: string, r: Option<string>): Option<string> {
    match r
    case None => None
    case Some(u) => Some(t + u)
  }

  lemma PrependNothing(r: Option<string>)
    ensures PrependAll("", r) == r
  {
    if r.Some? { assert "" + r.value == r.value; }
  }

  lemma PrependOne(t: string, c: char, r: Option<string>)
    ensures PrependAll(t, Prepend(c, r)) == PrependAll(t + [c], r)
  {
    if r.Some? { assert t + ([c] + r.value) == t + [c] + r.value; }
  }

  /** The copy loop of unescape between two quotes. */
  method CompactInner(quote: char, a: array<char>, begin: nat, end: nat) returns (out: nat, overrun: bool)
    requires begin <= end < a.Length && a[end] == quote
    modifies a
    ensures forall i :: 0 <= i < a.Length && !(begin <= i < end) ==> a[i] == old(a[i])
    ensures overrun <==> Inner(quote, old(a[begin..end])).None?
    ensures !overrun ==> begin <= out <= end && Some(a[begin..out]) == Inner(quote, old(a[begin..end]))
  {
    hide Inner;
    out := begin;
    var i := begin;
    ghost var whole := Inner(quote, a[begin..end]);
    InnerOfEmpty(quote);
    PrependNothing(whole);
    assert a[begin..begin] == "";
    while i != end
      invariant begin <= out <= i <= end
      invariant forall k :: 0 <= k < a.Length && !(begin <= k < out) ==> a[k] == old(a[k])
      invariant whole == PrependAll(a[begin..out], Inner(quote, a[i..end]))
      decreases end - i
    {
      ghost var done, ahead := a[begin..out], a[i..end];
      var pair := a[i] == quote && a[i + 1] == quote;
      if pair {
        i := i + 1;
        if i == end {
          InnerOfOneQuote(quote, ahead);
          return out, true;
        }
      }
      InnerStep(quote, ahead);
      ghost var later := a[i + 1..end];
      assert ahead[if pair then 2 else 1..] == later;
      PrependOne(done, ahead[0], Inner(quote, later));
      a[out] := a[i];
      assert a[begin..out + 1] == done + [ahead[0]] && a[i + 1..end] == later;
      out, i := out + 1, i + 1;
    }
    assert a[begin..out] + "" == a[begin..out];
    overrun := false;
  }

  lemma InnerOfEmpty(quote: char)
    ensures Inner(quote, "") == Some("")
  {
  }

  lemma InnerOfOneQuote(quote: char, s: string)
    requires |s| == 1 && s[0] == quote
    ensures Inner(quote, s).None?
  {
  }

  /** trim_chars::trim. */
  method TrimColumn(chars: set<char>, a: array<char>, begin: nat, end: nat) returns (start: nat, stop: nat)
    requires begin <= end < a.Length
    modifies a
    ensures begin <= start <= stop <= end && a[stop] == '\0'
    ensures a[start..stop] == Trim(chars, old(a[begin..end]))
    ensures forall i :: 0 <= i < a.Length && i != stop ==> a[i] == old(a[i])
  {
    start, stop := begin, end;
    while a[start] in chars && start != end
      invariant begin <= start <= end
      invariant TrimLeft(chars, a[start..end]) == TrimLeft(chars, a[begin..end])
      decreases end - start
    {
      assert a[start..end][1..] == a[start + 1..end];
      start := start + 1;
    }
    assert TrimLeft(chars, a[begin..end]) == a[start..end];
    while start != stop && a[stop - 1] in chars
      invariant start <= stop <= end
      invariant TrimRight(chars, a[start..stop]) == TrimRight(chars, a[start..end])
      decreases stop
    {
      assert a[start..stop][..stop - start - 1] == a[start..stop - 1];
      stop := stop - 1;
    }
    ghost var text := a[start..stop];
    assert text == Trim(chars, a[begin..end]);
    hide TrimLeft, TrimRight, Trim;
    a[stop] := '\0';
    assert a[start..stop] == text;
  }

  /** Cuts the first column off the line. */
  method ChopNextColumn(p: Policy, a: array<char>, line: nat, ghost end: nat)
    returns (closed: bool, colEnd: nat, next: Option<nat>)
    requires Sound(p) && LineAt(a, line, end)
    modifies a
    ensures closed == ColumnEnd(p, old(a[line..end])).Some?
    ensures closed ==>
              && line <= colEnd <= end && ColumnEnd(p, old(a[line..end])) == Some(colEnd - line)
              && a[colEnd] == '\0' && next == (if colEnd == end then None else Some(colEnd + 1))
              && (next.Some? ==> LineAt(a, colEnd + 1, end))
    ensures closed ==>
              && a[line..colEnd] == old(a[line..end])[..colEnd - line]
              && TextAt(a, next, end) == Behind(old(a[line..end]), colEnd - line)
    ensures forall i :: 0 <= i < a.Length && (!closed || i != colEnd) ==> a[i] == old(a[i])
  {
    var found := FindNextColumnEnd(p, a, line, end);
    if found.None? {
      return false, 0, None;
    }
    closed, colEnd := true, found.value;
    LineSuffix(a, line, colEnd, end);
    NulIsEnd(a, colEnd, end);
    if a[colEnd] == '\0' {
      next := None;
    } else {
      LineStep(a, colEnd, end);
      a[colEnd] := '\0';
      next := Some(colEnd + 1);
    }
  }

  lemma LineSuffix(a: array<char>, begin: nat, i: nat, end: nat)
    requires LineAt(a, begin, end) && begin <= i <= end
    ensures LineAt(a, i, end)
  {
    assert a[i..end] == a[begin..end][i - begin..];
  }

  /** One column that is wanted: its field ends up at position at, inside the column. */
  method ReadColumn(p: Policy, chars: set<char>, a: array<char>, begin: nat, end: nat) returns (at: nat, overrun: bool)
    requires begin <= end < a.Length && a[end] == '\0'
    modifies a
    ensures forall i :: 0 <= i < a.Length && !(begin <= i <= end) ==> a[i] == old(a[i])
    ensures overrun <==> Field(p, chars, old(a[begin..end])).None?
    ensures !overrun ==> begin <= at && at + |Field(p, chars, old(a[begin..end])).value| <= end
                         && Holds(a[..], at, Field(p, chars, old(a[begin..end])).value)
  {
    hide Unescape, Trim;
    var start, stop := TrimColumn(chars, a, begin, end);
    ghost var trimmed := a[start..stop];
    at, stop, overrun := UnescapeColumn(p, a, start, stop);
  }

  // ----- whole lines

  /** The fields read so far sit below limit, each in its slot; the last one wins. */
  ghost predicate Filled(order: seq<int>, fields: seq<string>, sorted: seq<nat>, buffer: seq<char>, limit: nat) {
    |fields| <= |order| && limit <= |buffer|
    && forall i | 0 <= i < |fields| && order[i] != -1 && LastFor(order, |fields|, i) ::
         && 0 <= order[i] < |sorted| && sorted[order[i]] + |fields[i]| < limit
         && Holds(buffer, sorted[order[i]], fields[i])
  }

  predicate LastFor(order: seq<int>, n: nat, i: nat)
    requires n <= |order| && i < n
  {
    forall j | i < j < n :: order[j] != order[i]
  }

  lemma FilledNext(order: seq<int>, fields: seq<string>, sorted: seq<nat>, buffer: seq<char>, limit: nat,
                   field: string, now: seq<nat>, after: seq<char>, next: nat)
    requires Filled(order, fields, sorted, buffer, limit) && |fields| < |order| && limit <= next <= |after|
    requires after[..limit] == buffer[..limit]
    requires if order[|fields|] == -1 then now == sorted
             else 0 <= order[|fields|] < |sorted| && exists at: nat ::
                    now == sorted[order[|fields|] := at] && at + |field| < next && Holds(after, at, field)
    ensures Filled(order, fields + [field], now, after, next)
  {
    var all := fields + [field];
    forall i | 0 <= i < |all| && order[i] != -1 && LastFor(order, |all|, i)
      ensures 0 <= order[i] < |now| && now[order[i]] + |all[i]| < next && Holds(after, now[order[i]], all[i])
    {
      if i < |fields| {
        assert order[|fields|] != order[i];
        HeldBelow(buffer, after, limit, sorted[order[i]], fields[i]);
      }
    }
  }

  lemma HeldBelow(buffer: seq<char>, after: seq<char>, limit: nat, at: nat, field: string)
    requires limit <= |buffer| && limit <= |after| && after[..limit] == buffer[..limit]
    requires Holds(buffer, at, field) && at + |field| < limit
    ensures Holds(after, at, field)
  {
    assert forall i :: 0 <= i < limit ==> after[i] == after[..limit][i] == buffer[..limit][i] == buffer[i];
  }

  function AppendAll(fields: seq<string>, r: Row): Row { Row(r.outcome, fields + r.fields) }

  lemma RowStep(p: Policy, chars: set<char>, fields: seq<string>, text: string, order: seq<int>, i: nat)
    requires i < |order| && ColumnEnd(p, text).Some?
    ensures var e := ColumnEnd(p, text).value;
            var field := if order[i] == -1 then Some("") else Field(p, chars, text[..e]);
            AppendAll(fields, ReadRow(p, chars, Some(text), order[i..])) ==
            if field.None? then Row(Overrun, fields)
            else AppendAll(fields + [field.value], ReadRow(p, chars, Behind(text, e), order[i + 1..]))
  {
    hide Field;
    assert order[i..][1..] == order[i + 1..];
  }

  lemma RowStops(p: Policy, chars: set<char>, fields: seq<string>, line: Option<string>, order: seq<int>, i: nat)
    requires i <= |order|
    ensures i == |order| ==> AppendAll(fields, ReadRow(p, chars, line, order[i..])) ==
                             Row(if line.None? then Parsed else TooMany, fields)
    ensures i < |order| && line.None? ==> AppendAll(fields, ReadRow(p, chars, line, order[i..])) == Row(TooFew, fields)
    ensures i < |order| && line.Some? && ColumnEnd(p, line.value).None? ==>
              AppendAll(fields, ReadRow(p, chars, line, order[i..])) == Row(NotClosed, fields)
    ensures AppendAll([], ReadRow(p, chars, line, order)) == ReadRow(p, chars, line, order)
  {
    hide Field;
  }

  /** parse_line. */
  method ParseLine(p: Policy, chars: set<char>, a: array<char>, begin: nat, sorted: array<nat>, order: seq<int>,
                   ghost end: nat)
    returns (outcome: Outcome, ghost fields: seq<string>)
    requires Sound(p) && LineAt(a, begin, end)
    requires forall i | 0 <= i < |order| :: -1 <= order[i] < sorted.Length
    modifies a, sorted
    ensures Row(outcome, fields) == ReadRow(p, chars, Some(old(a[begin..end])), order)
    ensures outcome.Parsed? ==> |fields| == |order| && Filled(order, fields, sorted[..], a[..], end + 1)
    ensures forall i :: 0 <= i < a.Length && !(begin <= i <= end) ==> a[i] == old(a[i])
  {
    ghost var whole := ReadRow(p, chars, Some(a[begin..end]), order);
    RowStops(p, chars, [], Some(a[begin..end]), order, 0);
    assert order[0..] == order;
    var line: Option<nat> := Some(begin);
    fields := [];
    for i := 0 to |order|
      invariant line.Some? ==> begin <= line.value && LineAt(a, line.value, end)
      invariant |fields| == i && whole == AppendAll(fields, ReadRow(p, chars, TextAt(a, line, end), order[i..]))
      invariant Filled(order, fields, sorted[..], a[..], if line.Some? then line.value else end + 1)
      invariant forall k :: 0 <= k < a.Length && !(begin <= k <= end) ==> a[k] == old(a[k])
    {
      RowStops(p, chars, fields, TextAt(a, line, end), order, i);
      if line.None? {
        return TooFew, fields;
      }
      var result, next, field := ParseColumn(p, chars, a, line.value, sorted, order, i, fields, end);
      if !result.Parsed? {
        return result, fields;
      }
      line, fields := next, fields + [field];
    }
    RowStops(p, chars, fields, TextAt(a, line, end), order, |order|);
    outcome := if line.Some? then TooMany else Parsed;
  }

  /** A column that was cut: if it is wanted, its slot is pointed to its field. */
  method FillSlot(p: Policy, chars: set<char>, a: array<char>, begin: nat, end: nat, sorted: array<nat>, k: int,
                  ghost next: Option<nat>, ghost lineEnd: nat)
    returns (overrun: bool, ghost field: string)
    requires begin <= end < a.Length && a[end] == '\0' && -1 <= k < sorted.Length
    requires next.Some? ==> end < next.value && LineAt(a, next.value, lineEnd)
    modifies a, sorted
    ensures forall i :: 0 <= i < a.Length && !(begin <= i <= end) ==> a[i] == old(a[i])
    ensures next.Some? ==> LineAt(a, next.value, lineEnd)
    ensures TextAt(a, next, lineEnd) == old(TextAt(a, next, lineEnd))
    ensures k == -1 ==> !overrun && field == "" && sorted[..] == old(sorted[..])
    ensures k != -1 ==>
              if overrun then Field(p, chars, old(a[begin..end])).None? else Field(p, chars, old(a[begin..end])) == Some(field)
    ensures k != -1 && !overrun ==> sorted[..] == old(sorted[..])[k := sorted[k]]
                                    && sorted[k] + |field| <= end && Holds(a[..], sorted[k], field)
  {
    hide Field;
    ghost var text, rest := a[begin..end], TextAt(a, next, lineEnd);
    overrun, field := false, "";
    if k != -1 {
      var at;
      at, overrun := ReadColumn(p, chars, a, begin, end);
      assert next.Some? ==> a[next.value..lineEnd] == rest.value;
      if !overrun {
        field := Field(p, chars, text).value;
        sorted[k] := at;
      }
    }
  }

  /** One round of its loop. */
  method ParseColumn(p: Policy, chars: set<char>, a: array<char>, line: nat, sorted: array<nat>, order: seq<int>, i: nat,
                     ghost fields: seq<string>, ghost end: nat)
    returns (result: Outcome, next: Option<nat>, ghost field: string)
    requires Sound(p) && LineAt(a, line, end) && i < |order| && -1 <= order[i] < sorted.Length
    requires |fields| == i && Filled(order, fields, sorted[..], a[..], line)
    modifies a, sorted
    ensures next.Some? ==> line <= next.value && LineAt(a, next.value, end)
    ensures var now := AppendAll(fields, ReadRow(p, chars, Some(old(a[line..end])), order[i..]));
            if result.Parsed? then now == AppendAll(fields + [field], ReadRow(p, chars, TextAt(a, next, end), order[i + 1..]))
            else now == Row(result, fields)
    ensures result.Parsed? ==>
              Filled(order, fields + [field], sorted[..], a[..], if next.Some? then next.value else end + 1)
    ensures forall k :: 0 <= k < a.Length && !(line <= k <= end) ==> a[k] == old(a[k])
  {
    hide Filled, Field, ReadRow, ColumnEnd;
    ghost var text, before, slots := a[line..end], a[..], sorted[..];
    field := "";
    var closed, colEnd: nat;
    closed, colEnd, next := ChopNextColumn(p, a, line, end);
    RowStops(p, chars, fields, Some(text), order, i);
    if !closed {
      return NotClosed, None, field;
    }
    RowStep(p, chars, fields, text, order, i);
    var overrun;
    overrun, field := FillSlot(p, chars, a, line, colEnd, sorted, order[i], next, end);
    if overrun {
      return Overrun, None, field;
    }
    FilledNext(order, fields, slots, before, line, field, sorted[..], a[..], if next.Some? then next.value else end + 1);
    result := Parsed;
  }
}
