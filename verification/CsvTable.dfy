/** Written rows, header lines, and reading columns by their names. */
module CsvTable {
  import opened CsvSpec
  import opened CsvRow
  import opened Wrappers

  // ----- rows as they are written

  /** A field as it may stand in a row: padded on both sides, quoted or not. */
  datatype Cell = Cell(left: string, field: string, quoted: bool, right: string)

  function CellBody(p: Policy, c: Cell): string
    requires c.quoted ==> p.DoubleQuote?
  {
    if c.quoted then Quoted(p, c.field) else c.field
  }

  function CellText(p: Policy, c: Cell): string
    requires c.quoted ==> p.DoubleQuote?
  {
    c.left + CellBody(p, c) + c.right
  }

  /** Padding is what is trimmed; a field that needs quotes has them. */
  predicate GoodCell(p: Policy, chars: set<char>, c: Cell) {
    && (c.quoted ==> p.DoubleQuote?)
    && AllIn(chars - {p.sep}, c.left) && AllIn(chars - {p.sep}, c.right)
    && (!c.quoted ==> p.sep !in c.field && (p.DoubleQuote? ==> p.quote !in c.field) && Bare(chars, c.field))
  }

  /** The quote itself must not be trimmed away. */
  predicate Usable(p: Policy, chars: set<char>) { Sound(p) && (p.DoubleQuote? ==> p.quote !in chars) }

  predicate AllGood(p: Policy, chars: set<char>, cells: seq<Cell>) {
    cells != [] && forall c | c in cells :: GoodCell(p, chars, c)
  }

  function Join(p: Policy, cells: seq<Cell>): string
    requires cells != [] && forall c | c in cells :: c.quoted ==> p.DoubleQuote?
  {
    CellText(p, cells[0]) + if |cells| == 1 then "" else [p.sep] + Join(p, cells[1..])
  }

  lemma JoinSteps(p: Policy, cells: seq<Cell>)
    requires cells != [] && forall c | c in cells :: c.quoted ==> p.DoubleQuote?
    ensures |cells| == 1 ==> Join(p, cells) == CellText(p, cells[0])
    ensures |cells| > 1 ==> Join(p, cells) == CellText(p, cells[0]) + ([p.sep] + Join(p, cells[1..]))
  {
  }

  function Texts(cells: seq<Cell>): (r: seq<string>)
    ensures |r| == |cells| && forall i :: 0 <= i < |cells| ==> r[i] == cells[i].field
  {
    seq(|cells|, i requires 0 <= i < |cells| => cells[i].field)
  }

  lemma CellEnds(p: Policy, chars: set<char>, c: Cell, rest: string)
    requires Usable(p, chars) && GoodCell(p, chars, c) && (rest == "" || rest[0] == p.sep)
    ensures ColumnEnd(p, CellText(p, c) + rest) == Some(|CellText(p, c)|)
  {
    hide EndFrom, Quoted;
    var body := CellBody(p, c);
    SplitCell(p, c, rest);
    PaddingEnds(p, chars, c.left, body + (c.right + rest));
    BodyEnds(p, chars, c, c.right + rest);
    PaddingEnds(p, chars, c.right, rest);
    EndsThere(p, rest);
  }

  lemma SplitCell(p: Policy, c: Cell, rest: string)
    requires c.quoted ==> p.DoubleQuote?
    ensures CellText(p, c) + rest == c.left + (CellBody(p, c) + (c.right + rest))
    ensures |CellText(p, c)| == |c.left| + |CellBody(p, c)| + |c.right|
  {
    hide Quoted;
  }

  lemma EndsThere(p: Policy, rest: string)
    requires rest == "" || rest[0] == p.sep
    ensures EndFrom(p, rest, false) == Some(0)
  {
  }

  lemma PaddingEnds(p: Policy, chars: set<char>, pad: string, rest: string)
    requires Usable(p, chars) && AllIn(chars - {p.sep}, pad)
    ensures EndFrom(p, pad + rest, false) == Further(|pad|, EndFrom(p, rest, false))
  {
    EndBehindPlain(p, pad, rest);
    hide EndFrom;
  }

  lemma BodyEnds(p: Policy, chars: set<char>, c: Cell, rest: string)
    requires Usable(p, chars) && GoodCell(p, chars, c)
    ensures EndFrom(p, CellBody(p, c) + rest, false) == Further(|CellBody(p, c)|, EndFrom(p, rest, false))
  {
    if c.quoted { EndBehindQuoted(p, c.field, rest); } else { EndBehindPlain(p, c.field, rest); }
    hide EndFrom, Quoted;
  }

  lemma CellIsRead(p: Policy, chars: set<char>, c: Cell)
    requires Usable(p, chars) && GoodCell(p, chars, c)
    ensures Field(p, chars, CellText(p, c)) == Some(c.field)
  {
    var body := CellBody(p, c);
    assert Bare(chars, body);
    TrimOfPadded(chars, c.left, body, c.right);
    if c.quoted { UnescapeOfQuoted(p, c.field); }
    hide Trim, Quoted;
  }

  /** The first column of a row, and what is behind it. */
  lemma JoinIsCut(p: Policy, chars: set<char>, cells: seq<Cell>)
    requires Usable(p, chars) && AllGood(p, chars, cells)
    ensures var text, w := Join(p, cells), CellText(p, cells[0]);
            && ColumnEnd(p, text) == Some(|w|) && text[..|w|] == w && Field(p, chars, w) == Some(cells[0].field)
            && Behind(text, |w|) == if |cells| == 1 then None else Some(Join(p, cells[1..]))
  {
    JoinSteps(p, cells);
    hide ColumnEnd, Field, CellText, Join;
    var w := CellText(p, cells[0]);
    var rest := if |cells| == 1 then "" else [p.sep] + Join(p, cells[1..]);
    CellEnds(p, chars, cells[0], rest);
    CellIsRead(p, chars, cells[0]);
    assert w + "" == w;
    assert rest != "" ==> rest[1..] == Join(p, cells[1..]) && (w + rest)[|w| + 1..] == rest[1..];
  }

  lemma ColumnsStep(p: Policy, s: string, e: nat)
    requires ColumnEnd(p, s) == Some(e)
    ensures Behind(s, e).None? ==> Columns(p, s) == ([s[..e]], true)
    ensures Behind(s, e).Some? ==>
              var rest := Columns(p, Behind(s, e).value); Columns(p, s) == ([s[..e]] + rest.0, rest.1)
  {
    hide ColumnEnd;
    assert s[..|s|] == s;
  }

  lemma {:induction false} ColumnsOfJoin(p: Policy, chars: set<char>, cells: seq<Cell>)
    requires Usable(p, chars) && AllGood(p, chars, cells)
    ensures var (columns, closed) := Columns(p, Join(p, cells));
            && closed && |columns| == |cells|
            && forall i | 0 <= i < |cells| :: Field(p, chars, columns[i]) == Some(cells[i].field)
    decreases |cells|
  {
    JoinIsCut(p, chars, cells);
    ColumnsStep(p, Join(p, cells), |CellText(p, cells[0])|);
    hide Field, ColumnEnd, CellText, Join, Columns, Behind;
    if |cells| > 1 { ColumnsOfJoin(p, chars, cells[1..]); }
  }

  /** A row is read back field by field, whatever is padded and whatever is quoted that need not be. */
  lemma RoundTrip(p: Policy, chars: set<char>, cells: seq<Cell>, order: seq<int>)
    requires Usable(p, chars) && AllGood(p, chars, cells)
    ensures var row := ReadRow(p, chars, Some(Join(p, cells)), order);
            && row.outcome == (if |order| < |cells| then TooMany else if |order| > |cells| then TooFew else Parsed)
            && (row.outcome.Parsed? ==>
                  forall i | 0 <= i < |cells| :: row.fields[i] == if order[i] == -1 then "" else cells[i].field)
  {
    ColumnsOfJoin(p, chars, cells);
    ReadRowIs(p, chars, Join(p, cells), order);
    hide Field, Columns, ReadRow, Join, AllGood;
  }

  /** A quote that is not closed, in the first column or behind a column that is read: the row is refused for it
      when that column is expected. */
  lemma OpenQuote(p: Policy, chars: set<char>, c: Cell, pad: string, text: string, order: seq<int>)
    requires p.DoubleQuote? && Usable(p, chars) && GoodCell(p, chars, c) && AllIn(chars - {p.sep}, pad) && p.quote !in text
    ensures var open := pad + [p.quote] + text;
            && (|order| >= 1 ==> ReadRow(p, chars, Some(open), order) == Row(NotClosed, []))
            && (|order| >= 2 ==> ReadRow(p, chars, Some(CellText(p, c) + ([p.sep] + open)), order).outcome == NotClosed)
            && (|order| == 1 ==> ReadRow(p, chars, Some(CellText(p, c) + ([p.sep] + open)), order).outcome == TooMany)
  {
    var open := pad + [p.quote] + text;
    var row := CellText(p, c) + ([p.sep] + open);
    OpenQuoteThrows(p, chars, pad, text);
    CellEnds(p, chars, c, [p.sep] + open);
    CellIsRead(p, chars, c);
    hide ColumnEnd, Field, CellText;
    var n := |CellText(p, c)|;
    assert row[..n] == CellText(p, c) && row[n + 1..] == open && Behind(row, n) == Some(open);
    if |order| >= 2 { assert order[1..] != []; }
  }

  lemma OpenQuoteThrows(p: Policy, chars: set<char>, pad: string, text: string)
    requires p.DoubleQuote? && Usable(p, chars) && AllIn(chars - {p.sep}, pad) && p.quote !in text
    ensures ColumnEnd(p, pad + [p.quote] + text).None?
  {
    assert pad + [p.quote] + text == pad + ([p.quote] + text) && ([p.quote] + text)[1..] == text;
    PaddingEnds(p, chars, pad, [p.quote] + text);
    NeverCloses(p, text);
  }

  lemma {:induction false} NeverCloses(p: Policy, text: string)
    requires p.DoubleQuote? && p.quote !in text
    ensures EndFrom(p, text, true).None?
    decreases |text|
  {
    if text != "" { NeverCloses(p, text[1..]); }
  }

  // ----- headers: the reference

  datatype HeaderOutcome =
    | Accepted
    | BadText(why: Outcome)
    | Duplicated(name: string)
    | Extra(name: string)
    | Missing(name: string)

  /** The first of the names. */
  function IndexOf(names: seq<string>, name: string): (n: nat)
    ensures n <= |names| && forall i :: 0 <= i < n ==> names[i] != name
    ensures n < |names| ==> names[n] == name
  {
    if names == [] || names[0] == name then 0 else 1 + IndexOf(names[1..], name)
  }

  /** One header field after those that gave order so far. */
  function Placed(names: seq<string>, extraOk: bool, order: seq<int>, name: string): (HeaderOutcome, seq<int>) {
    var i := IndexOf(names, name);
    if i == |names| then if extraOk then (Accepted, order + [-1]) else (Extra(name), order)
    else if i in order then (Duplicated(name), order) else (Accepted, order + [i])
  }

  function Scan(p: Policy, chars: set<char>, line: Option<string>, names: seq<string>, extraOk: bool, order: seq<int>)
    : (HeaderOutcome, seq<int>)
    decreases if line.None? then 0 else |line.value| + 1
  {
    if line.None? then (Accepted, order)
    else match ColumnEnd(p, line.value)
      case None => (BadText(NotClosed), order)
      case Some(e) =>
        match Field(p, chars, line.value[..e])
        case None => (BadText(Overrun), order)
        case Some(name) =>
          var (outcome, longer) := Placed(names, extraOk, order, name);
          if outcome.Accepted? then Scan(p, chars, Behind(line.value, e), names, extraOk, longer) else (outcome, order)
  }

  function FirstMissing(names: seq<string>, order: seq<int>, n: nat): (r: nat)
    requires n <= |names|
    ensures n <= r <= |names| && (forall i :: n <= i < r ==> i in order) && (r < |names| ==> r !in order)
    decreases |names| - n
  {
    if n < |names| && n in order then FirstMissing(names, order, n + 1) else n
  }

  function ReadHeader(p: Policy, chars: set<char>, line: string, names: seq<string>, extraOk: bool, missingOk: bool)
    : (HeaderOutcome, seq<int>)
  {
    var (outcome, order) := Scan(p, chars, Some(line), names, extraOk, []);
    if !outcome.Accepted? || missingOk then (outcome, order)
    else
      var n := FirstMissing(names, order, 0);
      (if n < |names| then Missing(names[n]) else Accepted, order)
  }

  // ----- what a header map is

  predicate Distinct(names: seq<string>) { forall i, j :: 0 <= i < j < |names| ==> names[i] != names[j] }

  /** No wanted name twice, no unwanted name unless allowed, every wanted name unless allowed. */
  predicate GoodHeader(hs: seq<string>, names: seq<string>, extraOk: bool, missingOk: bool) {
    && (forall i, j :: 0 <= i < j < |hs| && hs[i] == hs[j] ==> hs[i] !in names)
    && (extraOk || forall h | h in hs :: h in names)
    && (missingOk || forall n | n in names :: n in hs)
  }

  /** Header position i goes to the slot of its name, or nowhere. */
  predicate IsMap(hs: seq<string>, names: seq<string>, order: seq<int>) {
    && |order| == |hs|
    && (forall i | 0 <= i < |hs| :: -1 <= order[i] < |names| && (order[i] == -1 <==> hs[i] !in names))
    && (forall i | 0 <= i < |hs| && order[i] != -1 :: names[order[i]] == hs[i])
    && (forall i, j | 0 <= i < j < |hs| && order[i] != -1 :: order[i] != order[j])
  }

  /** So far so good: nothing duplicated or forbidden among hs. */
  predicate GoodSoFar(hs: seq<string>, names: seq<string>, extraOk: bool) {
    GoodHeader(hs, names, extraOk, true)
  }

  lemma PlacedKeeps(hs: seq<string>, names: seq<string>, extraOk: bool, order: seq<int>, name: string)
    requires Distinct(names) && IsMap(hs, names, order) && GoodSoFar(hs, names, extraOk)
    ensures var (outcome, longer) := Placed(names, extraOk, order, name);
            && (outcome.Accepted? <==> GoodSoFar(hs + [name], names, extraOk))
            && (outcome.Accepted? ==> IsMap(hs + [name], names, longer))
            && (outcome.Extra? ==> !extraOk && outcome.name == name && name !in names)
            && (outcome.Duplicated? ==> outcome.name == name && Twice(hs + [name], name) && name in names)
            && (outcome.Accepted? || outcome.Extra? || outcome.Duplicated?)
  {
    var n, all := IndexOf(names, name), hs + [name];
    assert name in names <==> n < |names|;
    if n < |names| {
      if n in order {
        var i :| 0 <= i < |order| && order[i] == n;
        assert all[i] == all[|hs|] == name;
      } else {
        assert forall i :: 0 <= i < |hs| ==> order[i] in order && order[i] != n;
      }
    } else {
      assert all[|hs|] == name;
    }
  }

  /** The fields of a header up to one that cannot be read, and why it cannot (Parsed if there is none). */
  function Readable(p: Policy, chars: set<char>, line: Option<string>): (seq<string>, Outcome)
    decreases if line.None? then 0 else |line.value| + 1
  {
    if line.None? then ([], Parsed)
    else match ColumnEnd(p, line.value)
      case None => ([], NotClosed)
      case Some(e) =>
        match Field(p, chars, line.value[..e])
        case None => ([], Overrun)
        case Some(f) =>
          var (rest, why) := Readable(p, chars, Behind(line.value, e));
          ([f] + rest, why)
  }

  lemma ReadableStep(p: Policy, chars: set<char>, s: string, e: nat, f: string)
    requires ColumnEnd(p, s) == Some(e) && Field(p, chars, s[..e]) == Some(f)
    ensures var rest := Readable(p, chars, Behind(s, e)); Readable(p, chars, Some(s)) == ([f] + rest.0, rest.1)
    ensures Readable(p, chars, None) == ([], Parsed)
  {
  }

  lemma {:induction false} ReadableOfJoin(p: Policy, chars: set<char>, cells: seq<Cell>)
    requires Usable(p, chars) && AllGood(p, chars, cells)
    ensures Readable(p, chars, Some(Join(p, cells))) == (Texts(cells), Parsed)
    decreases |cells|
  {
    JoinIsCut(p, chars, cells);
    ReadableStep(p, chars, Join(p, cells), |CellText(p, cells[0])|, cells[0].field);
    TextsSplit(cells);
    hide Field, ColumnEnd, CellText, Join, Readable, Behind, Texts;
    if |cells| > 1 { ReadableOfJoin(p, chars, cells[1..]); }
  }

  lemma TextsSplit(cells: seq<Cell>)
    requires cells != []
    ensures Texts(cells) == [cells[0].field] + if |cells| == 1 then [] else Texts(cells[1..])
  {
  }

  /** A name that occurs twice. */
  predicate Twice(hs: seq<string>, name: string) { exists i, j :: 0 <= i < j < |hs| && hs[i] == hs[j] == name }

  /** How the scan ends, given the fields it accepted so far and those that are still to come. */
  ghost predicate ScanRight(hs: seq<string>, why: Outcome, names: seq<string>, extraOk: bool,
                            outcome: HeaderOutcome, order: seq<int>) {
    && (outcome.Accepted? <==> why == Parsed && GoodSoFar(hs, names, extraOk))
    && (outcome.BadText? <==> why != Parsed && GoodSoFar(hs, names, extraOk))
    && (outcome.BadText? ==> outcome.why == why)
    && (outcome.Accepted? ==> IsMap(hs, names, order))
    && (outcome.Extra? ==> !extraOk && outcome.name in hs && outcome.name !in names)
    && (outcome.Duplicated? ==> Twice(hs, outcome.name) && outcome.name in names)
    && !outcome.Missing?
  }

  lemma {:induction false} ScanIff(p: Policy, chars: set<char>, line: Option<string>, names: seq<string>, extraOk: bool,
                                   done: seq<string>, order: seq<int>)
    requires Distinct(names) && IsMap(done, names, order) && GoodSoFar(done, names, extraOk)
    ensures var (outcome, all) := Scan(p, chars, line, names, extraOk, order);
            var (rest, why) := Readable(p, chars, line);
            ScanRight(done + rest, why, names, extraOk, outcome, all)
    decreases if line.None? then 0 else |line.value| + 1
  {
    hide Field, ColumnEnd, IsMap, GoodHeader, Twice;
    assert done + [] == done;
    if line.Some? && ColumnEnd(p, line.value).Some? {
      var e := ColumnEnd(p, line.value).value;
      match Field(p, chars, line.value[..e])
      case None =>
      case Some(name) =>
        PlacedKeeps(done, names, extraOk, order, name);
        var (outcome, longer) := Placed(names, extraOk, order, name);
        var rest := Readable(p, chars, Behind(line.value, e)).0;
        assert done + ([name] + rest) == done + [name] + rest;
        if outcome.Accepted? {
          ScanIff(p, chars, Behind(line.value, e), names, extraOk, done + [name], longer);
        } else {
          BadStaysBad(done + [name], rest, names, extraOk);
          RefusedStays(done + [name], rest, name);
        }
    }
  }

  lemma RefusedStays(hs: seq<string>, more: seq<string>, name: string)
    ensures name in hs ==> name in hs + more
    ensures Twice(hs, name) ==> Twice(hs + more, name)
  {
    var all := hs + more;
    if i, j :| 0 <= i < j < |hs| && hs[i] == hs[j] == name { assert all[i] == all[j] == name; }
  }

  lemma BadStaysBad(hs: seq<string>, more: seq<string>, names: seq<string>, extraOk: bool)
    requires !GoodSoFar(hs, names, extraOk)
    ensures !GoodSoFar(hs + more, names, extraOk)
  {
    var all := hs + more;
    assert forall i :: 0 <= i < |hs| ==> all[i] == hs[i];
    assert forall h :: h in hs ==> h in all;
  }

  /** A header is accepted exactly when all of it can be read and is good, and then the order is its map; it is
      bad text exactly when it is good up to a field that cannot be read; every other error names its culprit. */
  lemma HeaderIff(p: Policy, chars: set<char>, line: string, names: seq<string>, extraOk: bool, missingOk: bool)
    requires Distinct(names)
    ensures var (outcome, order) := ReadHeader(p, chars, line, names, extraOk, missingOk);
            var (hs, why) := Readable(p, chars, Some(line));
            && (outcome.Accepted? <==> why == Parsed && GoodHeader(hs, names, extraOk, missingOk))
            && (outcome.BadText? <==> why != Parsed && GoodSoFar(hs, names, extraOk))
            && (outcome.BadText? ==> outcome.why == why)
            && (outcome.Accepted? ==> IsMap(hs, names, order))
            && (outcome.Extra? ==> !extraOk && outcome.name in hs && outcome.name !in names)
            && (outcome.Duplicated? ==> Twice(hs, outcome.name) && outcome.name in names)
            && (outcome.Missing? ==> !missingOk && why == Parsed && outcome.name in names && outcome.name !in hs)
  {
    ScanIff(p, chars, Some(line), names, extraOk, [], []);
    GoodSplits(Readable(p, chars, Some(line)).0, names, extraOk, missingOk);
    hide Scan, Readable, Twice, GoodHeader, IsMap;
    var (outcome, order) := Scan(p, chars, Some(line), names, extraOk, []);
    var hs := Readable(p, chars, Some(line)).0;
    assert [] + hs == hs;
    if outcome.Accepted? { MissingIff(hs, names, order); }
  }

  lemma GoodSplits(hs: seq<string>, names: seq<string>, extraOk: bool, missingOk: bool)
    ensures GoodHeader(hs, names, extraOk, missingOk) <==>
              GoodSoFar(hs, names, extraOk) && (missingOk || forall n | n in names :: n in hs)
  {
  }

  lemma MissingIff(hs: seq<string>, names: seq<string>, order: seq<int>)
    requires Distinct(names) && IsMap(hs, names, order)
    ensures var n := FirstMissing(names, order, 0);
            (n == |names| <==> forall x | x in names :: x in hs) && (n < |names| ==> names[n] !in hs)
  {
    var n := FirstMissing(names, order, 0);
    forall i | 0 <= i < |hs| && n < |names| ensures hs[i] != names[n] {
      assert order[i] in order && order[i] != n;
    }
    assert n < |names| ==> names[n] in names && names[n] !in hs;
    forall x | x in names && n == |names| ensures x in hs {
      var k :| 0 <= k < |names| && names[k] == x;
      assert (k as int) in order;
      var i :| 0 <= i < |order| && order[i] == k;
      assert hs[i] == x;
    }
  }

  /** Every wanted column of the row can be unescaped. */
  predicate WantedReadable(p: Policy, chars: set<char>, hs: seq<string>, columns: seq<string>, names: seq<string>) {
    forall i | 0 <= i < |hs| && i < |columns| && hs[i] in names :: Field(p, chars, columns[i]).Some?
  }

  /** Reading by name, for any header and any row: after an accepted header a row is read exactly when all its
      columns end, it has as many as the header, and the wanted ones can be unescaped; then the slot of every
      wanted column gets what the column under its name is read as. */
  lemma ByName(p: Policy, chars: set<char>, hs: seq<string>, row: string, names: seq<string>, order: seq<int>)
    requires Distinct(names) && IsMap(hs, names, order)
    ensures var (columns, closed) := Columns(p, row);
            var r := ReadRow(p, chars, Some(row), order);
            && (r.outcome == Overrun <==> !WantedReadable(p, chars, hs, columns, names))
            && (r.outcome != Overrun ==> r.outcome == CountOutcome(|columns|, closed, |hs|))
            && (r.outcome == Parsed ==> forall i, k | 0 <= i < |hs| && 0 <= k < |names| && hs[i] == names[k] ::
                  order[i] == k && LastFor(order, |order|, i) && Field(p, chars, columns[i]) == Some(r.fields[i]))
  {
    ReadRowIs(p, chars, row, order);
    var columns := Columns(p, row).0;
    hide Field, Columns, ReadRow;
    if i: nat :| Unreadable(p, chars, columns, order, i) {
      assert !WantedReadable(p, chars, hs, columns, names);
    }
    if !WantedReadable(p, chars, hs, columns, names) {
      var i :| 0 <= i < |hs| && i < |columns| && hs[i] in names && Field(p, chars, columns[i]).None?;
      assert Unreadable(p, chars, columns, order, i);
    }
  }

  /** The same for a header and a row that were written. */
  lemma WrittenByName(p: Policy, chars: set<char>, header: seq<Cell>, row: seq<Cell>, names: seq<string>,
                      extraOk: bool, missingOk: bool)
    requires Usable(p, chars) && AllGood(p, chars, header) && AllGood(p, chars, row) && Distinct(names)
    ensures var (accepted, order) := ReadHeader(p, chars, Join(p, header), names, extraOk, missingOk);
            var r := ReadRow(p, chars, Some(Join(p, row)), order);
            && (accepted.Accepted? <==> GoodHeader(Texts(header), names, extraOk, missingOk))
            && (accepted.Accepted? ==> (r.outcome == Parsed <==> |row| == |header|))
            && (accepted.Accepted? && r.outcome == Parsed ==>
                  |order| == |header| == |r.fields|
                  && forall i, k | 0 <= i < |header| && 0 <= k < |names| && header[i].field == names[k] ::
                       order[i] == k && r.fields[i] == row[i].field)
  {
    ReadableOfJoin(p, chars, header);
    HeaderIff(p, chars, Join(p, header), names, extraOk, missingOk);
    hide GoodHeader, Readable, ReadRow, Field, Columns, Join, AllGood, ReadHeader, CountOutcome, Texts;
    var (accepted, order) := ReadHeader(p, chars, Join(p, header), names, extraOk, missingOk);
    if accepted.Accepted? {
      RoundTrip(p, chars, row, order);
      ByName(p, chars, Texts(header), Join(p, row), names, order);
    }
  }

  // ----- header lines in place

  lemma {:induction false} TrimNoNul(chars: set<char>, s: string)
    requires NoNul(s)
    ensures NoNul(TrimLeft(chars, s)) && NoNul(TrimRight(chars, s))
    decreases |s|
  {
    if s != "" {
      TrimNoNul(chars, s[1..]);
      TrimNoNul(chars, s[..|s| - 1]);
    }
  }

  lemma {:induction false} InnerNoNul(quote: char, s: string)
    requires NoNul(s)
    ensures Inner(quote, s).Some? ==> NoNul(Inner(quote, s).value)
    decreases |s|
  {
    if s != "" {
      InnerNoNul(quote, s[1..]);
      if |s| > 1 { InnerNoNul(quote, s[2..]); }
    }
  }

  lemma FieldNoNul(p: Policy, chars: set<char>, s: string)
    requires NoNul(s)
    ensures Field(p, chars, s).Some? ==> NoNul(Field(p, chars, s).value)
  {
    TrimNoNul(chars, s);
    TrimNoNul(chars, TrimLeft(chars, s));
    var t := Trim(chars, s);
    if Wrapped(p, t) { InnerNoNul(p.quote, t[1..|t| - 1]); }
  }

  /** Comparing a C string with a std::string. */
  method SameText(a: array<char>, at: nat, name: string, ghost field: string) returns (same: bool)
    requires Holds(a[..], at, field) && NoNul(field)
    ensures same == (field == name)
  {
    assert forall i :: 0 <= i < |field| ==> a[at + i] == a[..][at..at + |field|][i] == field[i];
    var i := 0;
    while i < |name| && a[at + i] != '\0' && a[at + i] == name[i]
      invariant i <= |name| && i <= |field| && name[..i] == field[..i]
    {
      i := i + 1;
    }
    same := i == |name| && a[at + i] == '\0';
    assert name[..|name|] == name && field[..|field|] == field;
  }

  /** The loop over the names: the first that equals the column. */
  method FindName(a: array<char>, at: nat, names: seq<string>, ghost field: string) returns (n: nat)
    requires Holds(a[..], at, field) && NoNul(field)
    ensures n == IndexOf(names, field)
  {
    n := 0;
    while n < |names|
      invariant n <= |names| && forall i :: 0 <= i < n ==> names[i] != field
      decreases |names| - n
    {
      var same := SameText(a, at, names[n], field);
      if same {
        break;
      }
      n := n + 1;
    }
    IndexUnique(names, field, n);
  }

  lemma {:induction false} IndexUnique(names: seq<string>, name: string, n: nat)
    requires n <= |names| && (forall i :: 0 <= i < n ==> names[i] != name) && (n < |names| ==> names[n] == name)
    ensures IndexOf(names, name) == n
  {
  }

  /** found[i] says that slot i was given. */
  ghost predicate Marks(found: array<bool>, order: seq<int>)
    reads found
  {
    forall i :: 0 <= i < found.Length ==> (found[i] <==> i in order)
  }

  /** Cuts off and reads the next column. */
  method CutField(p: Policy, chars: set<char>, a: array<char>, line: nat, ghost end: nat)
    returns (why: Outcome, at: nat, next: Option<nat>)
    requires Sound(p) && LineAt(a, line, end)
    modifies a
    ensures next.Some? ==> line < next.value && LineAt(a, next.value, end)
    ensures var text := old(a[line..end]);
            match ColumnEnd(p, text)
            case None => why == NotClosed
            case Some(e) =>
              match Field(p, chars, text[..e])
              case None => why == Overrun
              case Some(name) => why == Parsed && Holds(a[..], at, name) && TextAt(a, next, end) == Behind(text, e)
    ensures forall i :: 0 <= i < a.Length && !(line <= i <= end) ==> a[i] == old(a[i])
  {
    hide Field, ColumnEnd;
    ghost var text := a[line..end];
    var closed, colEnd;
    closed, colEnd, next := ChopNextColumn(p, a, line, end);
    if !closed {
      return NotClosed, 0, None;
    }
    ghost var e := colEnd - line;
    assert a[line..colEnd] == text[..e];
    assert forall k :: e < k < |text| ==> text[k] == a[line + k];
    var overrun;
    at, overrun := ReadColumn(p, chars, a, line, colEnd);
    if overrun {
      return Overrun, 0, None;
    }
    assert next.Some? ==> a[colEnd + 1..end] == text[e + 1..] && LineAt(a, colEnd + 1, end);
    why := Parsed;
  }

  /** One round of the header loop: the next column, or why it is refused. */
  method ReadName(p: Policy, chars: set<char>, a: array<char>, line: nat, names: seq<string>, extraOk: bool,
                  found: array<bool>, order: seq<int>, ghost end: nat)
    returns (outcome: HeaderOutcome, longer: seq<int>, next: Option<nat>)
    requires Sound(p) && LineAt(a, line, end) && found.Length == |names| && Marks(found, order)
    modifies a, found
    ensures Marks(found, longer)
    ensures next.Some? ==> line < next.value && LineAt(a, next.value, end)
    ensures Scan(p, chars, Some(old(a[line..end])), names, extraOk, order) ==
            if outcome.Accepted? then Scan(p, chars, TextAt(a, next, end), names, extraOk, longer) else (outcome, longer)
    ensures forall i :: 0 <= i < a.Length && !(line <= i <= end) ==> a[i] == old(a[i])
  {
    hide Field, ColumnEnd, IndexOf, Marks;
    longer := order;
    ghost var text := a[line..end];
    var why, at;
    why, at, next := CutField(p, chars, a, line, end);
    if why != Parsed {
      return BadText(why), longer, next;
    }
    ghost var name := Field(p, chars, text[..ColumnEnd(p, text).value]).value;
    FieldNoNul(p, chars, text[..ColumnEnd(p, text).value]);
    outcome, longer := PlaceName(a, at, names, extraOk, found, order, name);
  }

  method PlaceName(a: array<char>, at: nat, names: seq<string>, extraOk: bool, found: array<bool>, order: seq<int>,
                   ghost name: string)
    returns (outcome: HeaderOutcome, longer: seq<int>)
    requires Holds(a[..], at, name) && NoNul(name) && found.Length == |names| && Marks(found, order)
    modifies found
    ensures Marks(found, longer) && (outcome, longer) == Placed(names, extraOk, order, name)
  {
    hide IndexOf;
    longer := order;
    var i := FindName(a, at, names, name);
    if i < |names| {
      if found[i] {
        return Duplicated(names[i]), longer;
      }
      found[i] := true;
      return Accepted, order + [i];
    }
    if extraOk {
      return Accepted, order + [-1];
    }
    outcome := Extra(TextOf(a, at));
    TextOfHeld(a, at, name);
  }

  /** The text of a C string. */
  function TextOf(a: array<char>, at: nat): string
    requires at <= a.Length
    reads a
    decreases a.Length - at
  {
    if at == a.Length || a[at] == '\0' then "" else [a[at]] + TextOf(a, at + 1)
  }

  lemma {:induction false} TextOfHeld(a: array<char>, at: nat, field: string)
    requires Holds(a[..], at, field) && NoNul(field)
    ensures TextOf(a, at) == field
    decreases |field|
  {
    assert forall i :: 0 <= i < |field| ==> a[at + i] == a[..][at..at + |field|][i] == field[i];
    if field != "" {
      assert a[..][at + 1..at + 1 + |field[1..]|] == field[1..];
      TextOfHeld(a, at + 1, field[1..]);
    }
  }

  /** parse_header_line. */
  method ParseHeaderLine(p: Policy, chars: set<char>, a: array<char>, begin: nat, names: seq<string>,
                         extraOk: bool, missingOk: bool, ghost end: nat)
    returns (outcome: HeaderOutcome, order: seq<int>)
    requires Sound(p) && LineAt(a, begin, end)
    modifies a
    ensures (outcome, order) == ReadHeader(p, chars, old(a[begin..end]), names, extraOk, missingOk)
    ensures forall i :: 0 <= i < a.Length && !(begin <= i <= end) ==> a[i] == old(a[i])
  {
    hide Scan;
    order := [];
    var found := new bool[|names|](_ => false);
    var line: Option<nat> := Some(begin);
    ghost var whole := Scan(p, chars, Some(a[begin..end]), names, extraOk, []);
    while line.Some?
      invariant line.Some? ==> begin <= line.value && LineAt(a, line.value, end)
      invariant forall i :: 0 <= i < a.Length && !(begin <= i <= end) ==> a[i] == old(a[i])
      invariant found.Length == |names| && Marks(found, order) && fresh(found)
      invariant whole == Scan(p, chars, TextAt(a, line, end), names, extraOk, order)
      decreases if line.Some? then end + 1 - line.value else 0
    {
      var longer, next;
      outcome, longer, next := ReadName(p, chars, a, line.value, names, extraOk, found, order, end);
      order := longer;
      if !outcome.Accepted? {
        return;
      }
      line := next;
    }
    ScanOfNull(p, chars, names, extraOk, order);
    outcome := Accepted;
    if !missingOk {
      var n := FindMissing(names, found, order);
      if n < |names| {
        outcome := Missing(names[n]);
      }
    }
  }

  lemma ScanOfNull(p: Policy, chars: set<char>, names: seq<string>, extraOk: bool, order: seq<int>)
    ensures Scan(p, chars, None, names, extraOk, order) == (Accepted, order)
  {
  }

  method FindMissing(names: seq<string>, found: array<bool>, ghost order: seq<int>) returns (n: nat)
    requires found.Length == |names| && Marks(found, order)
    ensures n == FirstMissing(names, order, 0)
  {
    n := 0;
    while n < |names| && found[n]
      invariant n <= |names| && FirstMissing(names, order, 0) == FirstMissing(names, order, n)
    {
      n := n + 1;
    }
  }

  /** A header line and a row, read in place by column names, wherever they lie: the slot of every wanted name
      that the header has points to what the column under it is read as, and the reading fails otherwise. */
  method ReadByName(p: Policy, chars: set<char>, header: array<char>, hBegin: nat, row: array<char>, rBegin: nat,
                    names: seq<string>, extraOk: bool, missingOk: bool, sorted: array<nat>,
                    ghost hEnd: nat, ghost rEnd: nat)
    returns (accepted: HeaderOutcome, outcome: Outcome)
    requires Sound(p) && Distinct(names) && sorted.Length == |names|
    requires LineAt(header, hBegin, hEnd) && LineAt(row, rBegin, rEnd)
    requires header == row ==> hEnd < rBegin || rEnd < hBegin
    modifies header, row, sorted
    ensures var (hs, why) := Readable(p, chars, Some(old(header[hBegin..hEnd])));
            accepted.Accepted? <==> why == Parsed && GoodHeader(hs, names, extraOk, missingOk)
    ensures var hs := Readable(p, chars, Some(old(header[hBegin..hEnd]))).0;
            var (columns, closed) := Columns(p, old(row[rBegin..rEnd]));
            accepted.Accepted? ==>
              && (outcome == Overrun <==> !WantedReadable(p, chars, hs, columns, names))
              && (outcome != Overrun ==> outcome == CountOutcome(|columns|, closed, |hs|))
              && (outcome == Parsed ==> forall i, k | 0 <= i < |hs| && 0 <= k < |names| && hs[i] == names[k] ::
                    i < |columns| && PointsTo(row[..], sorted[k], Field(p, chars, columns[i])))
  {
    hide GoodHeader, Readable, Columns, ReadRow, Scan, Placed, Field, ReadHeader, WantedReadable;
    outcome := Overrun;
    ghost var hText, rText := header[hBegin..hEnd], row[rBegin..rEnd];
    HeaderIff(p, chars, hText, names, extraOk, missingOk);
    var order;
    accepted, order := ParseHeaderLine(p, chars, header, hBegin, names, extraOk, missingOk, hEnd);
    assert row[rBegin..rEnd] == rText;
    if accepted.Accepted? {
      ghost var hs := Readable(p, chars, Some(hText)).0;
      ByName(p, chars, hs, rText, names, order);
      ghost var fields;
      outcome, fields := ParseLine(p, chars, row, rBegin, sorted, order, rEnd);
    }
  }

  /** A slot that points to a field. */
  predicate PointsTo(buffer: seq<char>, at: nat, field: Option<string>) { field.Some? && Holds(buffer, at, field.value) }
}
