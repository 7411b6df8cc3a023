/** Lines of a byte text: what a line reader should return, independent of buffering. */
module LineSpec {

  /** Position of the first c in s, or |s| when there is none. */
  function IndexOf(s: string, c: char): (n: nat)
    ensures n <= |s| && forall i :: 0 <= i < n ==> s[i] != c
    ensures n < |s| ==> s[n] == c
  {
    if s == "" || s[0] == c then 0 else 1 + IndexOf(s[1..], c)
  }

  lemma IndexOfUnique(s: string, c: char, n: nat)
    requires n <= |s| && forall i :: 0 <= i < n ==> s[i] != c
    requires n == |s| || s[n] == c
    ensures IndexOf(s, c) == n
  {
  }

  lemma FirstRawIs(s: string, n: nat)
    requires n <= |s| && forall i :: 0 <= i < n ==> s[i] != '\n'
    ensures |FirstRaw(s)| >= n
    ensures n == |s| || s[n] == '\n' ==> FirstRaw(s) == s[..n] && (HasNewline(s) <==> n < |s|)
  {
  }

  predicate HasNewline(s: string) { IndexOf(s, '\n') < |s| }

  /** The first line without its newline, and what follows it. */
  function FirstRaw(s: string): string { s[..IndexOf(s, '\n')] }

  function AfterFirst(s: string): (r: string)
    ensures s != "" ==> |r| < |s|
  {
    if IndexOf(s, '\n') < |s| then s[IndexOf(s, '\n') + 1..] else ""
  }

  function DropCr(l: string): string {
    if l != "" && l[|l| - 1] == '\r' then l[..|l| - 1] else l
  }

  function DropBom(s: string): string {
    if |s| >= 3 && s[0] == '\U{EF}' && s[1] == '\U{BB}' && s[2] == '\U{BF}' then s[3..] else s
  }

  /** A byte-order mark is dropped, once, and only at the front. */
  lemma MarkIsDropped(s: string)
    ensures DropBom("\U{EF}\U{BB}\U{BF}" + s) == s
    ensures !("\U{EF}\U{BB}\U{BF}" <= s) ==> DropBom(s) == s
  {
    assert ("\U{EF}\U{BB}\U{BF}" + s)[3..] == s;
    if |s| >= 3 && s[0] == '\U{EF}' && s[1] == '\U{BB}' && s[2] == '\U{BF}' { assert s[..3] == "\U{EF}\U{BB}\U{BF}"; }
  }

  /** The reference: split on '\n', one '\r' dropped per line, a missing final newline tolerated. */
  function Lines(s: string): seq<string>
    decreases |s|
  {
    if s == "" then [] else [DropCr(FirstRaw(s))] + Lines(AfterFirst(s))
  }

  predicate EndsInNewline(s: string) { s == "" || s[|s| - 1] == '\n' }

  /** Every line of s, before its '\r' is dropped, is shorter than limit bytes. */
  predicate AllShorter(s: string, limit: nat)
    decreases |s|
  {
    s != "" ==> |FirstRaw(s)| < limit && AllShorter(AfterFirst(s), limit)
  }

  datatype LineEnd = Lf | CrLf

  function Terminator(e: LineEnd): string {
    match e
    case Lf => "\n"
    case CrLf => "\r\n"
  }

  /** A text written line by line, each line with a terminator of its own. */
  function Joined(ls: seq<string>, ends: seq<LineEnd>): string
    requires |ls| == |ends|
  {
    if ls == [] then "" else ls[0] + Terminator(ends[0]) + Joined(ls[1..], ends[1..])
  }

  /** A line that can be written with that terminator: what is dropped from a line is one carriage return. */
  predicate PlainLine(l: string, e: LineEnd) {
    (forall i :: 0 <= i < |l| ==> l[i] != '\n') && (e == Lf && l != "" ==> l[|l| - 1] != '\r')
  }

  predicate PlainLines(ls: seq<string>, ends: seq<LineEnd>) {
    |ls| == |ends| && forall i :: 0 <= i < |ls| ==> PlainLine(ls[i], ends[i])
  }

  /** Splitting undoes writing, whichever terminators were used. */
  lemma {:induction false} LinesOfJoined(ls: seq<string>, ends: seq<LineEnd>)
    requires PlainLines(ls, ends)
    ensures Lines(Joined(ls, ends)) == ls
  {
    if ls != [] {
      JoinedStep(ls, ends);
      LinesStep(Raw(ls[0], ends[0]), Joined(ls[1..], ends[1..]));
      LinesOfJoined(ls[1..], ends[1..]);
    }
  }

  /** The same when the last '\n' of the text is missing, unless that leaves an empty last line. */
  lemma {:induction false} LinesOfChopped(ls: seq<string>, ends: seq<LineEnd>)
    requires PlainLines(ls, ends) && ls != []
    requires Raw(ls[|ls| - 1], ends[|ls| - 1]) != ""
    ensures Joined(ls, ends) != "" && Lines(Chop(Joined(ls, ends))) == ls
  {
    hide Lines, Chop, Raw, PlainLine, HasNewline, DropCr;
    var raw, rest := Raw(ls[0], ends[0]), Joined(ls[1..], ends[1..]);
    assert PlainLine(ls[0], ends[0]);
    JoinedStep(ls, ends);
    if |ls| == 1 {
      ChoppedLast(raw);
      assert [ls[0]] == ls;
    } else {
      hide Joined;
      LinesOfChopped(ls[1..], ends[1..]);
      ChoppedFirst(raw, rest);
      assert [ls[0]] + ls[1..] == ls;
    }
  }

  lemma ChoppedLast(raw: string)
    requires raw != "" && !HasNewline(raw)
    ensures Lines(Chop(raw + "\n" + "")) == [DropCr(raw)]
  {
    ChopStep(raw, "");
    LinesOfOne(raw);
  }

  lemma ChoppedFirst(raw: string, rest: string)
    requires !HasNewline(raw) && rest != ""
    ensures Lines(Chop(raw + "\n" + rest)) == [DropCr(raw)] + Lines(Chop(rest))
  {
    ChopStep(raw, rest);
    LinesStep(raw, Chop(rest));
  }

  function Chop(s: string): string
    requires s != ""
  {
    s[..|s| - 1]
  }

  lemma ChopStep(raw: string, rest: string)
    ensures rest == "" ==> Chop(raw + "\n" + rest) == raw
    ensures rest != "" ==> Chop(raw + "\n" + rest) == raw + "\n" + Chop(rest)
  {
  }

  function Raw(l: string, e: LineEnd): string {
    if e == CrLf then l + "\r" else l
  }

  lemma JoinedStep(ls: seq<string>, ends: seq<LineEnd>)
    requires |ls| == |ends| > 0 && PlainLine(ls[0], ends[0])
    ensures !HasNewline(Raw(ls[0], ends[0])) && DropCr(Raw(ls[0], ends[0])) == ls[0]
    ensures Joined(ls, ends) == Raw(ls[0], ends[0]) + "\n" + Joined(ls[1..], ends[1..])
  {
    var l := ls[0];
    if ends[0] == CrLf { assert Raw(l, CrLf)[..|l|] == l; }
    assert forall i :: 0 <= i < |Raw(l, ends[0])| ==> Raw(l, ends[0])[i] != '\n';
    assert l + Terminator(ends[0]) == Raw(l, ends[0]) + "\n";
  }

  lemma LinesOfOne(raw: string)
    requires raw != "" && !HasNewline(raw)
    ensures Lines(raw) == [DropCr(raw)]
  {
    IndexOfUnique(raw, '\n', |raw|);
    assert raw[..|raw|] == raw;
  }

  lemma LinesStep(raw: string, rest: string)
    requires !HasNewline(raw)
    ensures Lines(raw + "\n" + rest) == [DropCr(raw)] + Lines(rest)
  {
    var t := raw + "\n" + rest;
    assert t[..|raw|] == raw;
    IndexOfUnique(t, '\n', |raw|);
  }
}

/** The buffered line reader: three blocks of B bytes slide over a byte source. */
module LineReader {
  import opened LineSpec
  import AsyncReader

  /** A source that returns fewer bytes than asked for only when its text ends. */
  class ByteSource {
    var rest: string

    constructor (text: string)
      ensures rest == text
    {
      rest := text;
    }

    method Read(a: array<char>, off: nat, wanted: nat) returns (got: nat)
      requires off + wanted <= a.Length
      modifies this, a
      ensures got == if |old(rest)| < wanted then |old(rest)| else wanted
      ensures rest == old(rest)[got..]
      ensures forall i :: 0 <= i < a.Length ==>
                a[i] == if off <= i < off + got then old(rest)[i - off] else old(a[i])
    {
      got := if |rest| < wanted then |rest| else wanted;
      for i := 0 to got
        invariant rest == old(rest)
        invariant forall j :: 0 <= j < a.Length ==>
                    a[j] == if off <= j < off + i then rest[j - off] else old(a[j])
      {
        a[off + i] := rest[i];
      }
      rest := rest[got..];
    }
  }

  datatype Outcome =
    | Line(start: nat, len: nat)
    | End
    | TooLong
    | AssertionFailed

  /** What a whole run returns, and how it stops. */
  datatype RunResult = RunResult(lines: seq<string>, stop: Outcome)

  /** The byte found just behind the last byte of the text once all of it has been read: left over from
      the uninitialised buffer, or from the previous fill of the third block. */
  function Stale(text: string, fill: string, B: nat): char
    requires B > 0 && |fill| == 3 * B
  {
    if |text| < 3 * B then fill[|text|] else text[|text| - B]
  }

  /** Some B bytes in a row without a newline. */
  predicate LongAt(s: string, B: nat, i: nat) { i + B <= |s| && forall k :: i <= k < i + B ==> s[k] != '\n' }

  /** A line is too long exactly when there are that many bytes without a newline in a row. */
  lemma {:induction false} TooLongIff(s: string, B: nat)
    requires B > 0
    ensures !AllShorter(s, B) <==> exists i :: LongAt(s, B, i)
    decreases |s|
  {
    if s != "" {
      var n := |FirstRaw(s)|;
      if n >= B {
        assert LongAt(s, B, 0);
      } else {
        TooLongIff(AfterFirst(s), B);
        assert n < |s| ==> s[n] == '\n' && AfterFirst(s) == s[n + 1..];
        if i :| LongAt(AfterFirst(s), B, i) { assert LongAt(s, B, n + 1 + i); }
        if i :| LongAt(s, B, i) { LongIsLater(s, B, i, n); }
      }
    }
  }

  lemma LongIsLater(s: string, B: nat, i: nat, n: nat)
    requires LongAt(s, B, i) && n < B && n <= |s| && (n < |s| ==> s[n] == '\n')
    ensures n < |s| && i > n && LongAt(s[n + 1..], B, i - n - 1)
  {
  }

  /** A run over what is left of a text, as the code behaves. */
  function Run(s: string, stale: char, B: nat): RunResult
    decreases |s|
  {
    if s == "" then RunResult([], End)
    else if |FirstRaw(s)| >= B then RunResult([], TooLong)
    else if !HasNewline(s) && stale == '\n' then RunResult([DropCr(s)], AssertionFailed)
    else
      var r := Run(AfterFirst(s), stale, B);
      RunResult([DropCr(FirstRaw(s))] + r.lines, r.stop)
  }

  /** What a run over s must show: the reference split and then the end, for exactly the texts that have
      no long line and either end in a newline or are not followed by a stale one. */
  predicate SplitsRight(s: string, stale: char, B: nat, r: RunResult) {
    && (r.stop == End <==> AllShorter(s, B) && (EndsInNewline(s) || stale != '\n'))
    && (r.stop == AssertionFailed <==> AllShorter(s, B) && !EndsInNewline(s) && stale == '\n')
    && (r.stop == TooLong <==> !AllShorter(s, B))
    && if r.stop == TooLong then r.lines <= Lines(s) else r.lines == Lines(s)
  }

  lemma {:induction false} RunSplitsRight(s: string, stale: char, B: nat)
    ensures SplitsRight(s, stale, B, Run(s, stale, B))
    decreases |s|
  {
    if s != "" && |FirstRaw(s)| < B {
      if !HasNewline(s) {
        assert FirstRaw(s) == s;
        assert Lines(s) == [DropCr(s)];
      } else {
        assert AfterFirst(s) == "" || s[|s| - 1] == AfterFirst(s)[|AfterFirst(s)| - 1];
        RunSplitsRight(AfterFirst(s), stale, B);
      }
    }
  }

  lemma Consumed(text: string, pos: nat)
    requires pos <= |text|
    ensures var n := |FirstRaw(text[pos..])|;
            if HasNewline(text[pos..])
            then pos + n < |text| && text[pos + n] == '\n' && AfterFirst(text[pos..]) == text[pos + n + 1..]
            else pos + n == |text| && AfterFirst(text[pos..]) == "" == text[|text|..]
  {
  }

  /** The window before a refill. */
  datatype Refilled = Refilled(buffer: string, begin: nat, end: nat, fetched: nat, pos: nat)

  /** A buffer after block three was read and copied down. */
  predicate ReadAndCopied(was: Refilled, now: string, text: string, B: nat, got: nat) {
    && |was.buffer| == |now| == 3 * B && got <= B && was.fetched + got <= |text|
    && forall i {:trigger now[i]} :: 0 <= i < 3 * B ==>
         now[i] == if B <= i < B + got then text[was.fetched + i - B]
                   else if 2 * B <= i < 2 * B + got then text[was.fetched + i - 2 * B]
                   else if B <= i < 2 * B then was.buffer[i + B]
                   else was.buffer[i]
  }

  /** A window that lies in block one, with the stale byte where the refill will look, and block three as it was. */
  predicate CanRefill(was: Refilled, text: string, fill: string, B: nat) {
    && B > 0 && |was.buffer| == |fill| == 3 * B && was.fetched <= |text| && |text| >= 2 * B
    && was.begin < was.end <= B && was.end - was.begin == was.fetched - was.pos && was.pos < was.fetched
    && (forall i {:trigger was.buffer[i]} :: was.begin <= i < was.end ==> was.buffer[i] == text[was.pos + (i - was.begin)])
    && (was.fetched == |text| ==> was.buffer[if was.end == B then 2 * B else was.end] == Stale(text, fill, B))
    && (was.fetched < |text| ==> was.end == B && (was.fetched == 2 * B || was.fetched >= 3 * B))
    && (was.fetched < |text| ==> forall i {:trigger was.buffer[i]} :: 2 * B <= i < 3 * B ==>
          was.buffer[i] == if was.fetched == 2 * B then fill[i] else text[was.fetched - 3 * B + i])
  }

  function BlockLeft(text: string, fetched: nat, B: nat): nat
    requires fetched <= |text|
  {
    if |text| - fetched < B then |text| - fetched else B
  }

  /** The window goes on with what was read, the stale byte is behind it, and block three repeats what was read. */
  predicate WindowGoesOn(was: Refilled, now: string, text: string, fill: string, B: nat, got: nat)
    requires CanRefill(was, text, fill, B) && |now| == 3 * B && got == BlockLeft(text, was.fetched, B)
  {
    && (forall i {:trigger now[i]} :: was.begin <= i < was.end + got ==> now[i] == text[was.pos + (i - was.begin)])
    && (was.fetched + got == |text| ==> now[was.end + got] == Stale(text, fill, B))
    && (was.fetched + got < |text| ==> forall i {:trigger now[i]} :: 2 * B <= i < 3 * B ==>
          now[i] == text[was.fetched + got - 3 * B + i])
  }

  lemma RefilledIsWindow(was: Refilled, now: string, text: string, fill: string, B: nat, got: nat)
    requires CanRefill(was, text, fill, B) && got == BlockLeft(text, was.fetched, B)
    requires ReadAndCopied(was, now, text, B, got)
    ensures WindowGoesOn(was, now, text, fill, B, got)
  {
    forall i | was.begin <= i < was.end + got ensures now[i] == text[was.pos + (i - was.begin)] {
      TextGoesOn(was, now, text, fill, B, got, i);
    }
    if was.fetched + got == |text| { StaleIsBehind(was, now, text, fill, B, got); }
    hide Stale, CanRefill;
  }

  lemma TextGoesOn(was: Refilled, now: string, text: string, fill: string, B: nat, got: nat, i: nat)
    requires CanRefill(was, text, fill, B) && got == BlockLeft(text, was.fetched, B)
    requires ReadAndCopied(was, now, text, B, got) && was.begin <= i < was.end + got
    ensures now[i] == text[was.pos + (i - was.begin)]
  {
    hide Stale;
  }

  lemma StaleIsBehind(was: Refilled, now: string, text: string, fill: string, B: nat, got: nat)
    requires CanRefill(was, text, fill, B) && got == BlockLeft(text, was.fetched, B)
    requires ReadAndCopied(was, now, text, B, got) && was.fetched + got == |text|
    ensures now[was.end + got] == Stale(text, fill, B)
  {
    if got == 0 {
    } else if got < B {
      assert now[B + got] == was.buffer[2 * B + got];
    } else {
      assert now[2 * B] == text[was.fetched];
    }
  }

  class LineReader {
    const B: nat
    const buffer: array<char>
    const source: ByteSource
    var dataBegin: nat
    var dataEnd: nat
    var readerValid: bool
    // Ghost history: the text, the buffer as allocated, bytes read, bytes returned as lines.
    ghost const text: string
    ghost const fill: string
    ghost var fetched: nat
    ghost var pos: nat
    ghost var returned: seq<nat>   // what each finish_read returned
    ghost var broken: bool

    /** What the caller has not been given yet. */
    ghost function Rest(): string
      reads this
      requires pos <= |text|
    {
      text[pos..]
    }

    ghost predicate Shape()
      reads this, buffer, source
    {
      && B > 0 && buffer.Length == 3 * B == |fill|
      && pos <= fetched <= |text|
      && source.rest == text[fetched..]
      && (readerValid <==> |text| >= 2 * B)
      && (!readerValid ==> fetched == |text|)
      && (readerValid ==> |text| - fetched == AsyncReader.LeftAfter(|text| - 2 * B, B, |returned|))
      && (readerValid ==> forall i :: 0 <= i < |returned| ==> returned[i] == AsyncReader.SyncRead(|text| - 2 * B, B, i))
    }

    /** Blocks one and two hold the next bytes of the text; behind the last byte sits the stale one. */
    ghost predicate Window()
      reads this, buffer, source
      requires Shape()
    {
      && dataBegin <= dataEnd <= 2 * B
      && dataEnd - dataBegin == fetched - pos
      && (forall i :: dataBegin <= i < dataEnd ==> buffer[i] == text[pos + (i - dataBegin)])
      && (pos < fetched == |text| ==> buffer[dataEnd] == Stale(text, fill, B))
    }

    /** While text is left in the source the window is full, and block three repeats its last fill. */
    ghost predicate Filling()
      reads this, buffer, source
      requires Shape()
    {
      && (fetched < |text| ==> dataEnd == 2 * B && dataBegin < 2 * B && AsyncReader.MayFinish(returned))
      && (fetched < |text| ==> fetched == 2 * B || fetched >= 3 * B)
      && (fetched < |text| ==> forall i :: 2 * B <= i < 3 * B ==>
            buffer[i] == if fetched == 2 * B then fill[i] else text[fetched - 3 * B + i])
      && (!readerValid && pos < |text| ==> dataEnd < 2 * B)
      && (!AsyncReader.MayFinish(returned) && pos < |text| ==> dataEnd <= B)
    }

    ghost predicate Valid()
      reads this, buffer, source
    {
      && Shape()
      && (if broken then pos == |text| && dataBegin == dataEnd + 1 else Window() && Filling())
    }

    constructor (blockLen: nat, source: ByteSource)
      requires blockLen > 1
      modifies source
      ensures Valid() && !broken && B == blockLen && this.source == source
      ensures fresh(buffer) && text == old(source.rest)
      ensures Rest() == DropBom(text)
    {
      B := blockLen;
      var buf := new char[3 * blockLen];
      ghost var full, before := source.rest, buf[..];
      var got := source.Read(buf, 0, 2 * blockLen);
      buffer, this.source := buf, source;
      text, fill := full, before;
      // A byte-order mark is skipped.
      var bom := got >= 3 && buf[0] == '\U{EF}' && buf[1] == '\U{BB}' && buf[2] == '\U{BF}';
      dataBegin := if bom then 3 else 0;
      pos := if bom then 3 else 0;
      dataEnd, fetched := got, got;
      readerValid := got == 2 * blockLen;
      returned, broken := [], false;
      new;
      assert text[0..] == text && (got >= 3 ==> buffer[0] == text[0] && buffer[1] == text[1] && buffer[2] == text[2]);
      hide AsyncReader.SyncRead, AsyncReader.LeftAfter, AsyncReader.MayFinish, Stale, LineReader.Valid;
      OpenedIsValid();
    }

    /** The buffer after its first two blocks were read. */
    lemma OpenedIsValid()
      requires B > 1 && buffer.Length == 3 * B == |fill| && fetched <= |text| && source.rest == text[fetched..]
      requires fetched == (if |text| < 2 * B then |text| else 2 * B) && readerValid == (fetched == 2 * B)
      requires forall i :: 0 <= i < 3 * B ==> buffer[i] == if i < fetched then text[i] else fill[i]
      requires returned == [] && !broken && dataEnd == fetched && dataBegin == pos <= fetched && pos <= 3
      ensures Valid()
    {
    }

    /** Waits for the worker's read into block three. Requires the discipline under which the worker delivers what
        the synchronous reader would, and promises that. */
    method FinishRead() returns (got: nat)
      requires Shape() && readerValid && AsyncReader.MayFinish(returned)
      modifies buffer, source, `fetched, `returned
      ensures Shape() && got == (if |text| - old(fetched) < B then |text| - old(fetched) else B)
      ensures fetched == old(fetched) + got && returned == old(returned) + [got]
      ensures got == AsyncReader.SyncRead(|text| - 2 * B, B, |old(returned)|)
      ensures forall i :: 0 <= i < 3 * B ==>
                buffer[i] == if 2 * B <= i < 2 * B + got then text[old(fetched) + i - 2 * B] else old(buffer[i])
    {
      got := source.Read(buffer, 2 * B, B);
      fetched := fetched + got;
      returned := returned + [got];
    }

    method CopyBlock(dst: nat)
      requires buffer.Length == 3 * B && dst <= B
      modifies buffer
      ensures forall i :: 0 <= i < 3 * B ==>
                buffer[i] == if dst <= i < dst + B then old(buffer[i + B]) else old(buffer[i])
    {
      for k := 0 to B
        invariant forall i :: 0 <= i < 3 * B ==>
                    buffer[i] == if dst <= i < dst + k then old(buffer[i + B]) else old(buffer[i])
      {
        buffer[dst + k] := buffer[dst + B + k];
      }
    }

    /** Moves the window one block forward. */
    method Slide()
      requires Valid() && !broken && dataBegin < dataEnd && dataBegin >= B
      modifies this`dataBegin, this`dataEnd, this`fetched, this`returned, buffer, source
      ensures Valid() && dataBegin < dataEnd && dataBegin < B
    {
      CopyBlock(0);
      dataBegin, dataEnd := dataBegin - B, dataEnd - B;
      if readerValid {
        Refill();
      }
    }

    /** Appends the worker's block to a window that lies in block one. */
    method Refill()
      requires Shape() && readerValid && AsyncReader.MayFinish(returned) && !broken && pos < fetched
      requires dataBegin < dataEnd <= B && dataEnd - dataBegin == fetched - pos
      requires forall i :: dataBegin <= i < dataEnd ==> buffer[i] == text[pos + (i - dataBegin)]
      requires fetched == |text| ==> buffer[if dataEnd == B then 2 * B else dataEnd] == Stale(text, fill, B)
      requires fetched < |text| ==> dataEnd == B && (fetched == 2 * B || fetched >= 3 * B)
      requires fetched < |text| ==> forall i :: 2 * B <= i < 3 * B ==>
                 buffer[i] == if fetched == 2 * B then fill[i] else text[fetched - 3 * B + i]
      modifies this`dataEnd, this`fetched, this`returned, buffer, source
      ensures Valid() && dataBegin < dataEnd
    {
      ghost var was := Refilled(buffer[..], dataBegin, dataEnd, fetched, pos);
      assert CanRefill(was, text, fill, B);
      hide CanRefill, WindowGoesOn, ReadAndCopied, Stale, LineReader.Window, LineReader.Filling;
      var got := ReadAndCopy(was);
      dataEnd := dataEnd + got;
      RefilledIsWindow(was, buffer[..], text, fill, B, got);
      WindowAgain(was, got);
    }

    method ReadAndCopy(ghost was: Refilled) returns (got: nat)
      requires Shape() && readerValid && AsyncReader.MayFinish(returned) && was.buffer == buffer[..] && was.fetched == fetched
      modifies this`fetched, this`returned, buffer, source
      ensures Shape() && got == BlockLeft(text, was.fetched, B)
      ensures fetched == was.fetched + got && returned == old(returned) + [got]
      ensures ReadAndCopied(was, buffer[..], text, B, got)
    {
      got := FinishRead();
      CopyBlock(B);
      hide AsyncReader.SyncRead, AsyncReader.LeftAfter, AsyncReader.MayFinish;
    }

    lemma WindowAgain(was: Refilled, got: nat)
      requires Shape() && CanRefill(was, text, fill, B) && got == BlockLeft(text, was.fetched, B)
      requires pos == was.pos && fetched == was.fetched + got && dataBegin == was.begin && dataEnd == was.end + got
      requires readerValid && returned != [] && returned[|returned| - 1] == got
      requires WindowGoesOn(was, buffer[..], text, fill, B, got)
      ensures Window() && Filling()
    {
      hide Stale, AsyncReader.LeftAfter, AsyncReader.SyncRead;
      assert forall i {:trigger buffer[i]} :: 0 <= i < 3 * B ==> buffer[..][i] == buffer[i];
    }

    /** The text a call sees: nothing left, a first line that fits, or one that does not. */
    ghost predicate Returns(was: string, r: Outcome)
      reads this, buffer, source
      requires Valid()
    {
      if was == "" then r == End && Rest() == "" && !broken
      else if |FirstRaw(was)| >= B then r == TooLong && Rest() == was && !broken
      else
        && r.Line? && Rest() == AfterFirst(was) && GivesLine(r, DropCr(FirstRaw(was)))
        && (broken <==> !HasNewline(was) && Stale(text, fill, B) == '\n')
    }

    /** The returned pointer is to a NUL-terminated copy of line. */
    ghost predicate GivesLine(r: Outcome, line: string)
      reads buffer
      requires r.Line?
    {
      r.start + r.len < buffer.Length && buffer[r.start..r.start + r.len] == line && buffer[r.start + r.len] == '\0'
    }

    method NextLine() returns (r: Outcome)
      requires Valid()
      modifies this`dataBegin, this`dataEnd, this`fetched, this`returned, this`pos, this`broken, buffer, source
      ensures Valid()
      ensures if old(broken) then r == AssertionFailed && broken else Returns(old(Rest()), r)
    {
      if dataBegin == dataEnd {
        return End;
      }
      if !(dataBegin < dataEnd && dataEnd <= 2 * B) {
        return AssertionFailed;
      }
      if dataBegin >= B {
        Slide();
      }
      r := TakeLine();
    }

    method TakeLine() returns (r: Outcome)
      requires Valid() && !broken && dataBegin < B && dataBegin < dataEnd
      modifies this`dataBegin, this`dataEnd, this`pos, this`broken, buffer
      ensures Valid() && Returns(old(Rest()), r)
    {
      hide FirstRaw, AfterFirst, HasNewline, IndexOf, DropCr, Stale, LineReader.Filling,
           AsyncReader.SyncRead, AsyncReader.LeftAfter, AsyncReader.MayFinish;
      var lineEnd := Scan();
      if lineEnd - dataBegin + 1 > B {
        return TooLong;
      }
      hide LineReader.Window;
      Consumed(text, pos);
      r := CutLine(lineEnd);
    }

    /** Terminates the line in place and moves past it. */
    method CutLine(lineEnd: nat) returns (r: Outcome)
      requires Valid() && !broken && dataBegin < B && dataBegin < dataEnd && dataBegin <= lineEnd <= dataEnd
      requires lineEnd - dataBegin < B && if lineEnd == dataEnd then fetched == |text| else buffer[lineEnd] == '\n'
      modifies this`dataBegin, this`dataEnd, this`pos, this`broken, buffer
      ensures Valid() && r.Line? && GivesLine(r, DropCr(old(buffer[dataBegin..lineEnd])))
      ensures pos == if lineEnd == old(dataEnd) then |text| else old(pos) + (lineEnd - old(dataBegin)) + 1
      ensures broken <==> lineEnd == old(dataEnd) && Stale(text, fill, B) == '\n'
    {
      hide DropCr, Stale, AsyncReader.MayFinish, AsyncReader.SyncRead, AsyncReader.LeftAfter;
      var newline := buffer[lineEnd] == '\n';
      var len := Terminate(dataBegin, lineEnd);
      r := Line(dataBegin, len);
      Advance(lineEnd, newline);
    }

    method Advance(lineEnd: nat, newline: bool)
      requires Shape() && !broken && dataBegin < B && dataBegin < dataEnd && dataBegin <= lineEnd <= dataEnd <= 2 * B
      requires lineEnd - dataBegin < B && dataEnd - dataBegin == fetched - pos
      requires lineEnd < dataEnd ==> newline
      requires lineEnd == dataEnd ==> fetched == |text| && newline == (Stale(text, fill, B) == '\n')
      requires forall i :: lineEnd < i < dataEnd ==> buffer[i] == text[pos + (i - dataBegin)]
      requires lineEnd < dataEnd && fetched == |text| ==> buffer[dataEnd] == Stale(text, fill, B)
      requires Filling()
      modifies this`dataBegin, this`dataEnd, this`pos, this`broken
      ensures Valid()
      ensures pos == if lineEnd == old(dataEnd) then |text| else old(pos) + (lineEnd - old(dataBegin)) + 1
      ensures broken <==> lineEnd == old(dataEnd) && newline
    {
      pos := if lineEnd == dataEnd then |text| else pos + (lineEnd - dataBegin) + 1;
      if !newline {
        dataEnd := dataEnd + 1;
      }
      dataBegin := lineEnd + 1;
      broken := dataBegin > dataEnd;
    }

    /** Puts the NUL, over a '\r' as well; touches nothing outside the line and its end. */
    method Terminate(start: nat, lineEnd: nat) returns (len: nat)
      requires start <= lineEnd < buffer.Length
      modifies buffer
      ensures start + len <= lineEnd && buffer[start + len] == '\0'
      ensures buffer[start..start + len] == DropCr(old(buffer[start..lineEnd]))
      ensures forall i :: 0 <= i < buffer.Length && !(start <= i <= lineEnd) ==> buffer[i] == old(buffer[i])
    {
      buffer[lineEnd] := '\0';
      len := lineEnd - start;
      if lineEnd != start && buffer[lineEnd - 1] == '\r' {
        buffer[lineEnd - 1] := '\0';
        len := len - 1;
      }
    }

    /** Finds the end of the first line, or shows that the line is too long. */
    method Scan() returns (lineEnd: nat)
      requires Valid() && !broken && dataBegin < B && dataBegin < dataEnd
      ensures dataBegin <= lineEnd <= dataEnd
      ensures lineEnd - dataBegin >= B <==> |FirstRaw(Rest())| >= B
      ensures lineEnd - dataBegin < B ==>
                && buffer[dataBegin..lineEnd] == FirstRaw(Rest())
                && (HasNewline(Rest()) <==> lineEnd != dataEnd)
                && if lineEnd == dataEnd then fetched == |text| else buffer[lineEnd] == '\n'
    {
      lineEnd := dataBegin;
      while buffer[lineEnd] != '\n' && lineEnd != dataEnd
        invariant dataBegin <= lineEnd <= dataEnd
        invariant forall i :: dataBegin <= i < lineEnd ==> buffer[i] != '\n'
        decreases dataEnd - lineEnd
      {
        lineEnd := lineEnd + 1;
      }
      ghost var n := lineEnd - dataBegin;
      assert forall i :: 0 <= i < n ==> Rest()[i] == text[pos + i] == buffer[dataBegin + i];
      assert buffer[dataBegin..lineEnd] == Rest()[..n];
      FirstRawIs(Rest(), n);
    }
  }

  /** Consuming one line leaves the result of the whole run unchanged. */
  lemma RunStep(lines: seq<string>, s: string, stale: char, B: nat)
    requires s != "" && |FirstRaw(s)| < B
    ensures !HasNewline(s) && stale == '\n' ==>
              Prepend(lines, Run(s, stale, B)) == RunResult(lines + [DropCr(FirstRaw(s))], AssertionFailed)
    ensures HasNewline(s) || stale != '\n' ==>
              Prepend(lines, Run(s, stale, B)) == Prepend(lines + [DropCr(FirstRaw(s))], Run(AfterFirst(s), stale, B))
  {
    if !HasNewline(s) { assert FirstRaw(s) == s; }
  }

  lemma RunStops(lines: seq<string>, s: string, stale: char, B: nat)
    ensures Prepend([], Run(s, stale, B)) == Run(s, stale, B)
    ensures s == "" ==> Prepend(lines, Run(s, stale, B)) == RunResult(lines, End)
    ensures s != "" && |FirstRaw(s)| >= B ==> Prepend(lines, Run(s, stale, B)) == RunResult(lines, TooLong)
  {
  }

  function Prepend(lines: seq<string>, r: RunResult): RunResult {
    RunResult(lines + r.lines, r.stop)
  }

  /** What a run comes to, given the lines read so far. */
  ghost function Whole(reader: LineReader, lines: seq<string>): RunResult
    reads reader, reader.buffer, reader.source
    requires reader.Valid()
  {
    if reader.broken then RunResult(lines, AssertionFailed)
    else Prepend(lines, Run(reader.Rest(), Stale(reader.text, reader.fill, reader.B), reader.B))
  }

  /** One call of next_line, and the line copied out. */
  method ReadOne(reader: LineReader, ghost lines: seq<string>) returns (r: Outcome, line: string)
    requires reader.Valid()
    modifies reader, reader.buffer, reader.source
    ensures reader.Valid()
    ensures old(Whole(reader, lines)) == if r.Line? then Whole(reader, lines + [line]) else RunResult(lines, r)
    ensures r.Line? ==> reader.pos > old(reader.pos) || (reader.broken && !old(reader.broken) && reader.pos == old(reader.pos))
  {
    hide Run, Prepend, FirstRaw, AfterFirst, HasNewline, DropCr, Stale, LineReader.Window, LineReader.Filling,
         AsyncReader.SyncRead, AsyncReader.LeftAfter, AsyncReader.MayFinish;
    ghost var rest, was := reader.Rest(), reader.broken;
    r := reader.NextLine();
    line := "";
    if !was { WholeGoesOn(reader, lines, rest, r); }
    if r.Line? {
      line := reader.buffer[r.start..r.start + r.len];
    }
  }

  /** The run over a text begins with what next_line returns for it. */
  predicate Begins(lines: seq<string>, rest: string, stale: char, B: nat, whole: RunResult) {
    if rest == "" then whole == RunResult(lines, End)
    else if |FirstRaw(rest)| >= B then whole == RunResult(lines, TooLong)
    else
      var longer := lines + [DropCr(FirstRaw(rest))];
      whole == if !HasNewline(rest) && stale == '\n' then RunResult(longer, AssertionFailed)
               else Prepend(longer, Run(AfterFirst(rest), stale, B))
  }

  lemma RunBegins(lines: seq<string>, rest: string, stale: char, B: nat)
    ensures Begins(lines, rest, stale, B, Prepend(lines, Run(rest, stale, B)))
  {
    RunStops(lines, rest, stale, B);
    if rest != "" && |FirstRaw(rest)| < B { RunStep(lines, rest, stale, B); }
    hide Run, FirstRaw, AfterFirst, HasNewline, DropCr, Prepend;
  }

  /** The run over what was left, once next_line has returned r. */
  lemma WholeGoesOn(reader: LineReader, lines: seq<string>, rest: string, r: Outcome)
    requires reader.Valid() && reader.Returns(rest, r)
    ensures var whole := Prepend(lines, Run(rest, Stale(reader.text, reader.fill, reader.B), reader.B));
            if r.Line? then
              r.start + r.len < reader.buffer.Length
              && whole == Whole(reader, lines + [reader.buffer[r.start..r.start + r.len]])
            else whole == RunResult(lines, r)
    ensures r.Line? ==> |reader.Rest()| < |rest|
  {
    hide Run, Prepend, FirstRaw, AfterFirst, HasNewline, DropCr, Stale, LineReader.Window, LineReader.Filling,
         AsyncReader.SyncRead, AsyncReader.LeftAfter, AsyncReader.MayFinish;
    RunBegins(lines, rest, Stale(reader.text, reader.fill, reader.B), reader.B);
    if r.Line? {
      assert reader.buffer[r.start..r.start + r.len] == DropCr(FirstRaw(rest));
    }
  }

  /** A caller's loop over next_line. */
  method ReadRest(reader: LineReader) returns (result: RunResult)
    requires reader.Valid() && !reader.broken
    modifies reader, reader.buffer, reader.source
    ensures result == Run(old(reader.Rest()), Stale(reader.text, reader.fill, reader.B), reader.B)
  {
    ghost var whole := Whole(reader, []);
    RunStops([], reader.Rest(), Stale(reader.text, reader.fill, reader.B), reader.B);
    var lines := [];
    hide Run, Prepend, Stale, Whole;
    while true
      invariant reader.Valid() && whole == Whole(reader, lines)
      decreases |reader.text| - reader.pos, !reader.broken
    {
      var r, line := ReadOne(reader, lines);
      if !r.Line? {
        return RunResult(lines, r);
      }
      lines := lines + [line];
    }
  }

  /** Opening a source and reading it out. */
  method ReadAll(blockLen: nat, source: ByteSource) returns (result: RunResult, ghost fill: string)
    requires blockLen > 1
    modifies source
    ensures |fill| == 3 * blockLen
    ensures SplitsRight(DropBom(old(source.rest)), Stale(old(source.rest), fill, blockLen), blockLen, result)
    ensures forall s :: old(source.rest) == "\U{EF}\U{BB}\U{BF}" + s ==>
              SplitsRight(s, Stale(old(source.rest), fill, blockLen), blockLen, result)
    ensures !("\U{EF}\U{BB}\U{BF}" <= old(source.rest)) ==>
              SplitsRight(old(source.rest), Stale(old(source.rest), fill, blockLen), blockLen, result)
  {
    hide DropBom, SplitsRight, Stale, Run, LineReader.Window, LineReader.Filling,
         AsyncReader.SyncRead, AsyncReader.LeftAfter, AsyncReader.MayFinish;
    ghost var text := source.rest;
    var reader := new LineReader(blockLen, source);
    fill := reader.fill;
    RunSplitsRight(reader.Rest(), Stale(reader.text, fill, blockLen), blockLen);
    result := ReadRest(reader);
    MarkDecides(text, Stale(text, fill, blockLen), blockLen, result);
  }

  lemma MarkDecides(text: string, stale: char, B: nat, r: RunResult)
    requires SplitsRight(DropBom(text), stale, B, r)
    ensures forall s :: text == "\U{EF}\U{BB}\U{BF}" + s ==> SplitsRight(s, stale, B, r)
    ensures !("\U{EF}\U{BB}\U{BF}" <= text) ==> SplitsRight(text, stale, B, r)
  {
    hide DropBom, SplitsRight;
    MarkIsDropped(text);
    forall s | text == "\U{EF}\U{BB}\U{BF}" + s ensures SplitsRight(s, stale, B, r) { MarkIsDropped(s); }
  }

  function Newlines(n: nat): string { if n == 0 then "" else "\n" + Newlines(n - 1) }

  lemma {:induction false} NewlinesAre(n: nat)
    ensures |Newlines(n)| == n && forall i :: 0 <= i < n ==> Newlines(n)[i] == '\n'
  {
    if n > 0 { NewlinesAre(n - 1); }
  }

  /** For every block length: three blocks of text, all newlines but for the last byte. Whatever the buffer held
      at first, the end is not reported. */
  lemma StaleNewlineBreaks(B: nat, fill: string, c: char)
    requires B > 1 && |fill| == 3 * B && c != '\n'
    ensures var text := Newlines(3 * B - 1) + [c];
            Stale(text, fill, B) == '\n' && Run(DropBom(text), '\n', B).stop == AssertionFailed
  {
    hide Newlines, Run;
    var text := Newlines(3 * B - 1) + [c];
    NewlinesAre(3 * B - 1);
    assert |text| - B == 2 * B && text[0] == text[2 * B] == '\n';
    RunOfNewlines(3 * B - 1, B, c);
  }

  lemma {:induction false} RunOfNewlines(n: nat, B: nat, c: char)
    requires B > 1 && c != '\n'
    ensures Run(Newlines(n) + [c], '\n', B).stop == AssertionFailed
  {
    var s := Newlines(n) + [c];
    if n == 0 {
      assert s == [c];
      IndexOfUnique(s, '\n', 1);
    } else {
      assert s[0] == '\n';
      IndexOfUnique(s, '\n', 0);
      assert AfterFirst(s) == Newlines(n - 1) + [c];
      RunOfNewlines(n - 1, B, c);
    }
  }
}
