/** Commands on the wire: arrays of bulk strings, and the fixed buffer they are built in. */
module RespCommand {
  import opened Decimal
  import opened Wrappers

  const CRLF: string := "\r\n"

  // ----- the protocol: encoding, and the server's parser

  function Bulk(arg: string): string { "$" + Print(|arg|) + CRLF + arg + CRLF }

  function Bulks(args: seq<string>): string {
    if args == [] then "" else Bulk(args[0]) + Bulks(args[1..])
  }

  /** A command as the protocol asks for it. */
  function Encode(words: seq<string>): string { "*" + Print(|words|) + CRLF + Bulks(words) }

  /** A length line: its marker, its number, and what follows. */
  function ParseLength(marker: char, s: string): Option<(nat, string)> {
    if s == "" || s[0] != marker then None else ParseNumberLine(s[1..])
  }

  function ParseNumberLine(s: string): Option<(nat, string)> {
    var k := DigitRun(s);
    if k == 0 || !(CRLF <= s[k..]) then None else Some((Value(s[..k]), s[k..][2..]))
  }

  function ParseBulk(s: string): Option<(string, string)> {
    match ParseLength('$', s)
    case None => None
    case Some((n, rest)) =>
      if |rest| < n + 2 || rest[n..n + 2] != CRLF then None else Some((rest[..n], rest[n + 2..]))
  }

  function ParseBulks(n: nat, s: string): Option<(seq<string>, string)> {
    if n == 0 then Some(([], s))
    else match ParseBulk(s)
      case None => None
      case Some((word, rest)) =>
        match ParseBulks(n - 1, rest)
        case None => None
        case Some((words, end)) => Some(([word] + words, end))
  }

  function ParseCommand(s: string): Option<(seq<string>, string)> {
    match ParseLength('*', s)
    case None => None
    case Some((n, rest)) => ParseBulks(n, rest)
  }

  lemma NumberLineReadsBack(n: nat, rest: string)
    ensures ParseNumberLine(Print(n) + (CRLF + rest)) == Some((n, rest))
  {
    PrintReadsBack(n, CRLF + rest);
    hide Print, DigitRun, Value;
    assert (CRLF + rest)[2..] == rest;
  }

  lemma LengthReadsBack(marker: char, n: nat, rest: string)
    ensures ParseLength(marker, [marker] + Print(n) + CRLF + rest) == Some((n, rest))
  {
    NumberLineReadsBack(n, rest);
    hide Print, ParseNumberLine;
    assert ([marker] + Print(n) + CRLF + rest)[1..] == Print(n) + (CRLF + rest);
  }

  lemma BulkReadsBack(arg: string, rest: string)
    ensures ParseBulk(Bulk(arg) + rest) == Some((arg, rest))
  {
    var body := arg + CRLF + rest;
    assert Bulk(arg) + rest == "$" + Print(|arg|) + CRLF + body;
    LengthReadsBack('$', |arg|, body);
    assert body[..|arg|] == arg && body[|arg|..|arg| + 2] == CRLF && body[|arg| + 2..] == rest;
  }

  lemma BulksStart(args: seq<string>, rest: string)
    requires args != []
    ensures ParseBulk(Bulks(args) + rest) == Some((args[0], Bulks(args[1..]) + rest))
  {
    var tail := Bulks(args[1..]) + rest;
    assert Bulks(args) + rest == Bulk(args[0]) + tail by { hide Bulk; }
    BulkReadsBack(args[0], tail);
  }

  lemma NoBulksReadBack(rest: string)
    ensures ParseBulks(0, Bulks([]) + rest) == Some(([], rest))
  {
    assert "" + rest == rest;
  }

  lemma ParseBulksStep(n: nat, s: string, word: string, rest: string, words: seq<string>, end: string)
    requires n > 0 && ParseBulk(s) == Some((word, rest)) && ParseBulks(n - 1, rest) == Some((words, end))
    ensures ParseBulks(n, s) == Some(([word] + words, end))
  {
    hide ParseBulk;
  }

  lemma {:induction false} BulksReadBack(args: seq<string>, rest: string)
    ensures ParseBulks(|args|, Bulks(args) + rest) == Some((args, rest))
    decreases |args|
  {
    hide ParseBulk, Bulks, ParseBulks;
    if args == [] {
      NoBulksReadBack(rest);
    } else {
      BulksReadBack(args[1..], rest);
      BulksStart(args, rest);
      ParseBulksStep(|args|, Bulks(args) + rest, args[0], Bulks(args[1..]) + rest, args[1..], rest);
      assert [args[0]] + args[1..] == args;
    }
  }

  /** Arbitrary binary words are read back, with whatever follows left unread. */
  lemma CommandReadsBack(words: seq<string>, rest: string)
    ensures ParseCommand(Encode(words) + rest) == Some((words, rest))
  {
    assert Encode(words) + rest == "*" + Print(|words|) + CRLF + (Bulks(words) + rest);
    LengthReadsBack('*', |words|, Bulks(words) + rest);
    BulksReadBack(words, rest);
  }

  /** An argument, letter by letter, and the command line in front of the arguments. */
  lemma WireText(arg: string, words: seq<string>)
    ensures Bulk(arg) == "$" + Print(|arg|) + "\r\n" + arg + "\r\n"
    ensures Bulks([]) == "" && Bulks([arg] + words) == Bulk(arg) + Bulks(words)
    ensures Encode(words) == "*" + Print(|words|) + "\r\n" + Bulks(words)
  {
    hide Print;
    assert ([arg] + words)[1..] == words;
  }

  /** For example a command of two words. */
  lemma WireOfTwo(a: string, b: string)
    ensures Encode([a, b]) ==
            "*2\r\n" + (("$" + Print(|a|) + "\r\n" + a + "\r\n") + ("$" + Print(|b|) + "\r\n" + b + "\r\n"))
  {
    WireText(a, [b]);
    WireText(b, []);
    assert Print(2) == "2";
    WireText(a, [a, b]);
    hide Print, Bulks, Encode, Bulk;
    assert [a] + [b] == [a, b] && [b] + [] == [b];
    assert Bulk(b) + "" == Bulk(b);
    assert "*" + "2" + "\r\n" == "*2\r\n";
  }

  function EncodeAll(commands: seq<seq<string>>): string {
    if commands == [] then "" else Encode(commands[0]) + EncodeAll(commands[1..])
  }

  /** A pipeline of commands decodes in one way only. */
  lemma {:induction false} PipelineDecodesUniquely(a: seq<seq<string>>, b: seq<seq<string>>)
    requires EncodeAll(a) == EncodeAll(b)
    ensures a == b
    decreases |a| + |b|
  {
    hide Encode, ParseCommand;
    EncodedNotEmpty(a);
    EncodedNotEmpty(b);
    if a != [] && b != [] {
      CommandReadsBack(a[0], EncodeAll(a[1..]));
      CommandReadsBack(b[0], EncodeAll(b[1..]));
      PipelineDecodesUniquely(a[1..], b[1..]);
      assert a == [a[0]] + a[1..] && b == [b[0]] + b[1..];
    }
  }

  lemma EncodedNotEmpty(commands: seq<seq<string>>)
    ensures EncodeAll(commands) == "" <==> commands == []
  {
    if commands != [] { assert Encode(commands[0])[0] == '*'; }
    hide Print, Bulks;
  }

  // ----- the client's buffer

  const UINT: nat := 0x1_0000_0000

  /** What writeArg puts down: the length goes through an unsigned int. */
  function WrittenBulk(arg: string): string { "$" + Print(|arg| % UINT) + CRLF + arg + CRLF }

  /** That is a bulk string exactly below four gigabytes. */
  lemma WrittenIsBulkIff(arg: string)
    ensures WrittenBulk(arg) == Bulk(arg) <==> |arg| < UINT
  {
    if WrittenBulk(arg) == Bulk(arg) {
      var rest := arg + CRLF;
      assert WrittenBulk(arg) == "$" + Print(|arg| % UINT) + CRLF + rest;
      assert Bulk(arg) == "$" + Print(|arg|) + CRLF + rest;
      LengthReadsBack('$', |arg| % UINT, rest);
      LengthReadsBack('$', |arg|, rest);
    }
  }

  lemma BulkBehind(before: string, arg: string)
    ensures before + "$" + Print(|arg| % UINT) + CRLF + arg + CRLF == before + WrittenBulk(arg)
  {
    var digits := Print(|arg| % UINT);
    FourBehind(before, "$", digits, CRLF, arg);
    ThreeBehind(before, "$" + digits + CRLF, arg, CRLF);
    hide Print;
  }

  lemma ThreeBehind(a: string, b: string, c: string, d: string)
    ensures a + b + c + d == a + (b + c + d)
  {
  }

  lemma FourBehind(a: string, b: string, c: string, d: string, e: string)
    ensures a + b + c + d == a + (b + c + d) && a + b + c + d + e == a + (b + c + d) + e
  {
  }

  class Buffer {
    const buffer: array<char>
    var spot: nat
    var marked: nat

    ghost predicate Valid()
      reads this, buffer
    {
      marked <= spot <= buffer.Length
    }

    ghost function Contents(): string
      reads this, buffer
      requires Valid()
    {
      buffer[..spot]
    }

    constructor (bufferSize: nat)
      ensures Valid() && fresh(buffer) && buffer.Length == bufferSize && spot == 0 && marked == 0
    {
      buffer := new char[bufferSize];
      spot, marked := 0, 0;
    }

    /** False stands for the exception. */
    predicate HasSpace(needed: nat)
      reads this
    {
      spot + needed < buffer.Length
    }

    method ResetToMark()
      requires Valid()
      modifies `spot
      ensures Valid() && spot == marked && Contents() == old(Contents())[..marked]
    {
      spot := marked;
    }

    /** memcpy at spot; the caller has made sure there is room. */
    method Copy(s: string)
      requires Valid() && spot + |s| <= buffer.Length
      modifies `spot, buffer
      ensures Valid() && Contents() == old(Contents()) + s && marked == old(marked)
    {
      for i := 0 to |s|
        invariant spot == old(spot)
        invariant buffer[..spot] == old(buffer[..spot]) && buffer[spot..spot + i] == s[..i]
      {
        buffer[spot + i] := s[i];
      }
      spot := spot + |s|;
    }

    method Write(s: string) returns (ok: bool)
      requires Valid()
      modifies `spot, buffer
      ensures Valid() && marked == old(marked) && ok == old(HasSpace(|s|))
      ensures Contents() == if ok then old(Contents()) + s else old(Contents())
    {
      ok := HasSpace(|s|);
      if ok {
        Copy(s);
      }
    }

    /** One reservation covers the marker, the length and both line ends: no copy runs past the end. */
    method WriteArg(arg: string) returns (ok: bool)
      requires Valid()
      modifies `spot, buffer
      ensures Valid() && marked == old(marked) && ok == old(HasSpace(|arg| + 16))
      ensures Contents() == if ok then old(Contents()) + WrittenBulk(arg) else old(Contents())
    {
      ok := HasSpace(|arg| + 16);
      if ok {
        Print32Fits(|arg| % UINT);
        hide Print;
        ghost var before := Contents();
        Copy("$");
        Copy(Print(|arg| % UINT));
        Copy(CRLF);
        Copy(arg);
        Copy(CRLF);
        BulkBehind(before, arg);
      }
    }
  }

  function WrittenBulks(args: seq<string>): string {
    if args == [] then "" else WrittenBulks(args[..|args| - 1]) + WrittenBulk(args[|args| - 1])
  }

  /** Every reservation on the way fits the buffer. */
  predicate RoomFor(spot: nat, size: nat, header: string, args: seq<string>) {
    && spot + |header| < size
    && forall i :: 0 <= i < |args| ==> spot + |header| + |WrittenBulks(args[..i])| + |args[i]| + 16 < size
  }

  function Header(cmdName: string, numArgs: nat): string { "*" + Print(numArgs + 1) + CRLF + Bulk(cmdName) }

  class Command {
    const header: string

    constructor (cmdName: string, numArgs: nat)
      ensures header == Header(cmdName, numArgs)
    {
      header := "*" + Print(numArgs + 1) + CRLF + ("$" + Print(|cmdName|) + CRLF + cmdName + CRLF);
    }

    /** Header and arguments, behind what the buffer holds; false when the buffer is full. */
    method Execute(args: seq<string>, dest: Buffer) returns (ok: bool)
      requires dest.Valid()
      modifies dest`spot, dest.buffer
      ensures dest.Valid() && dest.marked == old(dest.marked) && old(dest.Contents()) <= dest.Contents()
      ensures ok <==> RoomFor(|old(dest.Contents())|, dest.buffer.Length, header, args)
      ensures ok ==> dest.Contents() == old(dest.Contents()) + (header + WrittenBulks(args))
    {
      RoomForHeader(dest.spot, dest.buffer.Length, header, args);
      hide WrittenBulk, WrittenBulks, Bulk, RoomFor;
      ghost var before, text := dest.Contents(), header;
      ok := dest.Write(header);
      var i := 0;
      assert header + "" == header;
      while ok && i < |args|
        invariant 0 <= i <= |args| && dest.Valid() && dest.marked == old(dest.marked)
        invariant text == header + WrittenBulks(args[..i])
        invariant if ok then dest.Contents() == before + text else before <= dest.Contents()
        invariant ok ==> RoomFor(|before|, dest.buffer.Length, header, args[..i])
        invariant !ok ==> !RoomFor(|before|, dest.buffer.Length, header, args)
      {
        RoomForNext(|before|, dest.buffer.Length, header, args, i);
        assert dest.spot == |dest.Contents()| == |before| + |text|;
        ok := dest.WriteArg(args[i]);
        Regroup(before, header, WrittenBulks(args[..i]), WrittenBulk(args[i]));
        i := i + 1;
        text := header + WrittenBulks(args[..i]);
      }
      assert args[..|args|] == args;
    }
  }

  lemma Regroup(a: string, b: string, c: string, d: string)
    ensures a + (b + c) + d == a + (b + (c + d)) == a + b + (c + d)
  {
  }

  lemma RoomForHeader(spot: nat, size: nat, header: string, args: seq<string>)
    ensures WrittenBulks(args[..0]) == ""
    ensures if spot + |header| < size then RoomFor(spot, size, header, args[..0]) else !RoomFor(spot, size, header, args)
  {
  }

  lemma OneMoreWritten(args: seq<string>, i: nat)
    requires i < |args|
    ensures WrittenBulks(args[..i + 1]) == WrittenBulks(args[..i]) + WrittenBulk(args[i])
  {
    assert args[..i + 1][..i] == args[..i] && args[..i + 1][i] == args[i];
    hide WrittenBulk;
  }

  lemma RoomForNext(spot: nat, size: nat, header: string, args: seq<string>, i: nat)
    requires i < |args| && RoomFor(spot, size, header, args[..i])
    ensures WrittenBulks(args[..i + 1]) == WrittenBulks(args[..i]) + WrittenBulk(args[i])
    ensures var room := spot + |header| + |WrittenBulks(args[..i])| + |args[i]| + 16 < size;
            && (room ==> RoomFor(spot, size, header, args[..i + 1]))
            && (!room ==> !RoomFor(spot, size, header, args))
  {
    OneMoreWritten(args, i);
    hide WrittenBulk, WrittenBulks, RoomFor;
    if spot + |header| + |WrittenBulks(args[..i])| + |args[i]| + 16 < size {
      RoomGrows(spot, size, header, args, i);
    } else {
      NoRoomAt(spot, size, header, args, i);
    }
  }

  lemma RoomGrows(spot: nat, size: nat, header: string, args: seq<string>, i: nat)
    requires i < |args| && RoomFor(spot, size, header, args[..i])
    requires spot + |header| + |WrittenBulks(args[..i])| + |args[i]| + 16 < size
    ensures RoomFor(spot, size, header, args[..i + 1])
  {
    hide WrittenBulks;
    var before, now := args[..i], args[..i + 1];
    forall j | 0 <= j < |now| ensures spot + |header| + |WrittenBulks(now[..j])| + |now[j]| + 16 < size {
      assert now[..j] == args[..j];
      if j < i { assert before[..j] == args[..j] && before[j] == now[j]; }
    }
  }

  lemma NoRoomAt(spot: nat, size: nat, header: string, args: seq<string>, i: nat)
    requires i < |args| && spot + |header| + |WrittenBulks(args[..i])| + |args[i]| + 16 >= size
    ensures !RoomFor(spot, size, header, args)
  {
    hide WrittenBulks;
  }

  lemma {:induction false} WrittenAreBulks(args: seq<string>)
    requires forall i :: 0 <= i < |args| ==> |args[i]| < UINT
    ensures WrittenBulks(args) == Bulks(args)
    decreases |args|
  {
    if args != [] {
      var n := |args| - 1;
      WrittenAreBulks(args[..n]);
      WrittenIsBulkIff(args[n]);
      BulksAppend(args[..n], args[n]);
      assert args[..n] + [args[n]] == args;
    }
  }

  lemma {:induction false} BulksAppend(args: seq<string>, last: string)
    ensures Bulks(args + [last]) == Bulks(args) + Bulk(last)
  {
    if args == [] {
      assert [last][1..] == [] && Bulks([last]) == Bulk(last) + "";
    } else {
      assert (args + [last])[1..] == args[1..] + [last];
      BulksAppend(args[1..], last);
    }
  }

  lemma CommandText(cmdName: string, args: seq<string>)
    ensures Encode([cmdName] + args) == Header(cmdName, |args|) + Bulks(args)
  {
    hide Bulk, Print;
    var words := [cmdName] + args;
    assert words[1..] == args;
    assert Bulks(words) == Bulk(cmdName) + Bulks(args);
    hide Bulks;
    var start := "*" + Print(|words|) + CRLF;
    assert start + (Bulk(cmdName) + Bulks(args)) == start + Bulk(cmdName) + Bulks(args);
  }

  /** EXECUTE_COMMAND: what reaches the socket is decoded by the server as this command, for arbitrary
      arguments below four gigabytes, and nothing is sent when the buffer is full. */
  method SendCommand(cmdName: string, args: seq<string>, buffer: Buffer) returns (sent: string, ok: bool)
    requires buffer.Valid() && buffer.marked == 0
    requires forall i :: 0 <= i < |args| ==> |args[i]| < UINT
    modifies buffer`spot, buffer.buffer
    ensures buffer.Valid() && buffer.marked == 0
    ensures ok <==> RoomFor(0, buffer.buffer.Length, Header(cmdName, |args|), args)
    ensures ok ==> sent == Encode([cmdName] + args)
    ensures ok ==> forall rest :: ParseCommand(sent + rest) == Some(([cmdName] + args, rest))
    ensures !ok ==> sent == ""
  {
    hide Encode, ParseCommand, Buffer.Valid, RoomFor, Header;
    sent, ok := FillBuffer(cmdName, args, buffer);
    if ok {
      forall rest ensures ParseCommand(sent + rest) == Some(([cmdName] + args, rest)) {
        CommandReadsBack([cmdName] + args, rest);
      }
    }
  }

  method FillBuffer(cmdName: string, args: seq<string>, buffer: Buffer) returns (sent: string, ok: bool)
    requires buffer.Valid() && buffer.marked == 0
    requires forall i :: 0 <= i < |args| ==> |args[i]| < UINT
    modifies buffer`spot, buffer.buffer
    ensures buffer.Valid() && buffer.marked == 0
    ensures ok <==> RoomFor(0, buffer.buffer.Length, Header(cmdName, |args|), args)
    ensures if ok then sent == Encode([cmdName] + args) else sent == ""
  {
    WrittenAreBulks(args);
    CommandText(cmdName, args);
    hide Encode, Header, Bulk, Bulks, WrittenBulks, RoomFor;
    buffer.ResetToMark();
    assert buffer.Contents() == "";
    var command := new Command(cmdName, |args|);
    ok := command.Execute(args, buffer);
    assert "" + (command.header + WrittenBulks(args)) == command.header + WrittenBulks(args);
    sent := if ok then buffer.buffer[..buffer.spot] else "";
  }
}
