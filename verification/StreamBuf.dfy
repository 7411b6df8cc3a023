/** The socket's stream buffer: buffered and direct reads over a connection that fragments as it likes. */
module StreamBuf {

  /** A connected socket: what the peer will send, and what was sent to it. */
  class ClientSocket {
    var incoming: seq<char>
    var outgoing: seq<char>

    constructor (incoming: seq<char>)
      ensures this.incoming == incoming && outgoing == []
    {
      this.incoming, outgoing := incoming, [];
    }

    /** recv: at least one byte and at most len, or none once the peer has closed. */
    method Read(dest: array<char>, off: nat, len: nat) returns (got: nat)
      requires off + len <= dest.Length && len > 0
      modifies this`incoming, dest
      ensures got <= len && got <= |old(incoming)| && (got == 0 <==> old(incoming) == [])
      ensures incoming == old(incoming)[got..]
      ensures forall i :: 0 <= i < dest.Length ==>
                dest[i] == if off <= i < off + got then old(incoming)[i - off] else old(dest[i])
    {
      var fragment: nat := *;
      got := if |incoming| == 0 then 0 else if 0 < fragment <= len && fragment <= |incoming| then fragment else 1;
      for i := 0 to got
        invariant incoming == old(incoming)
        invariant forall j :: 0 <= j < dest.Length ==>
                    dest[j] == if off <= j < off + i then incoming[j - off] else old(dest[j])
      {
        dest[off + i] := incoming[i];
      }
      incoming := incoming[got..];
    }

    /** send: takes at least one of the bytes offered, or fails. */
    method Send(data: array<char>, off: nat, len: nat) returns (ret: int)
      requires off + len <= data.Length && len > 0
      modifies this`outgoing
      ensures ret <= len && outgoing == old(outgoing) + if ret <= 0 then [] else data[off..off + ret]
    {
      var taken: int := *;
      ret := if taken > len then len else taken;
      if ret > 0 {
        outgoing := outgoing + data[off..off + ret];
      }
    }

    /** Sends all of data; when it throws instead, a proper prefix has been sent. */
    method Write(data: array<char>) returns (ok: bool)
      modifies this`outgoing
      ensures ok ==> outgoing == old(outgoing) + data[..]
      ensures !ok ==> exists n :: 0 <= n < data.Length && outgoing == old(outgoing) + data[..n]
    {
      var sent := 0;
      while sent < data.Length
        invariant 0 <= sent <= data.Length && outgoing == old(outgoing) + data[..sent]
      {
        var ret := Send(data, sent, data.Length - sent);
        if ret <= 0 {
          assert outgoing == old(outgoing) + data[..sent] && sent < data.Length;
          return false;
        }
        assert data[..sent] + data[sent..sent + ret] == data[..sent + ret];
        sent := sent + ret;
      }
      assert data[..sent] == data[..];
      return true;
    }
  }

  lemma HandOver(delivered: seq<char>, unread: seq<char>, n: nat)
    requires n <= |unread|
    ensures (delivered + unread[..n]) + unread[n..] == delivered + unread
  {
  }

  lemma Append(a: seq<char>, b: seq<char>, c: seq<char>)
    ensures (a + b) + c == a + (b + c)
  {
  }

  class StreamBuf {
    const conn: ClientSocket
    const inBuffer: array<char>
    var gptr: nat
    var egptr: nat
    // Ghost history: everything the peer sends, and what has been handed out of it.
    ghost const stream: seq<char>
    ghost var delivered: seq<char>

    ghost function Unread(): seq<char>
      reads this, conn, inBuffer
      requires gptr <= egptr <= inBuffer.Length
    {
      inBuffer[gptr..egptr] + conn.incoming
    }

    /** Nothing is lost, repeated or reordered. */
    ghost predicate Valid()
      reads this, conn, inBuffer
    {
      && inBuffer.Length > 0 && gptr <= egptr <= inBuffer.Length
      && delivered + Unread() == stream
    }

    constructor (conn: ClientSocket, bufferSize: nat)
      requires bufferSize > 0
      ensures Valid() && this.conn == conn && fresh(inBuffer) && inBuffer.Length == bufferSize
      ensures stream == conn.incoming && delivered == []
    {
      this.conn := conn;
      inBuffer := new char[bufferSize];
      gptr, egptr := 0, 0;
      stream, delivered := conn.incoming, [];
    }

    /** Refills an exhausted get area; false stands for the exception of a closed connection. */
    method Underflow() returns (ok: bool)
      requires Valid() && gptr == egptr
      modifies this`gptr, this`egptr, conn`incoming, inBuffer
      ensures Valid() && Unread() == old(Unread()) && ok == (Unread() != [])
      ensures ok ==> gptr < egptr
      ensures !ok ==> gptr == egptr
    {
      var got := conn.Read(inBuffer, 0, inBuffer.Length);
      gptr, egptr := 0, got;
      ok := got > 0;
      assert inBuffer[..got] + conn.incoming == old(conn.incoming);
      assert old(Unread()) == old(conn.incoming);
    }

    /** One character, as istream::get reads it. */
    method Get() returns (c: char, ok: bool)
      requires Valid()
      modifies this, conn`incoming, inBuffer
      ensures Valid() && ok == (old(Unread()) != [])
      ensures ok ==> c == old(Unread())[0] && delivered == old(delivered) + [c] && Unread() == old(Unread())[1..]
      ensures !ok ==> delivered == old(delivered)
    {
      ok := true;
      if gptr == egptr {
        ok := Underflow();
      }
      c := '\0';
      if ok {
        c := inBuffer[gptr];
        ghost var unread := Unread();
        assert unread[..1] == [c] && unread[1..] == inBuffer[gptr + 1..egptr] + conn.incoming;
        HandOver(delivered, unread, 1);
        delivered := delivered + [c];
        gptr := gptr + 1;
      }
    }

    /** n characters went from the stream into dest behind its first off. */
    twostate predicate Moved(dest: array<char>, off: nat, n: nat)
      reads this, dest
    {
      && off + n <= dest.Length
      && dest[..off + n] == old(dest[..off]) + dest[off..off + n]
      && delivered == old(delivered) + dest[off..off + n]
    }

    /** Copies the next n characters of the get area. */
    method CopyOut(dest: array<char>, off: nat, n: nat)
      requires Valid() && gptr + n <= egptr && off + n <= dest.Length && dest != inBuffer
      modifies this`gptr, this`delivered, dest
      ensures Valid() && gptr == old(gptr) + n && Moved(dest, off, n)
    {
      for i := 0 to n
        invariant gptr == old(gptr) && delivered == old(delivered)
        invariant forall j :: 0 <= j < dest.Length ==>
                    dest[j] == if off <= j < off + i then inBuffer[gptr + j - off] else old(dest[j])
      {
        dest[off + i] := inBuffer[gptr + i];
      }
      assert dest[off..off + n] == inBuffer[gptr..gptr + n] == Unread()[..n];
      HandOver(delivered, Unread(), n);
      delivered := delivered + inBuffer[gptr..gptr + n];
      gptr := gptr + n;
    }

    /** Reads straight into dest, past the get area; nothing when the peer has closed. */
    method ReadDirect(dest: array<char>, off: nat, len: nat) returns (got: nat)
      requires Valid() && gptr == egptr && off + len <= dest.Length && len > 0 && dest != inBuffer
      modifies this`delivered, conn`incoming, dest
      ensures Valid() && got <= len && Moved(dest, off, got) && (got == 0 ==> delivered == stream)
    {
      ghost var before := conn.incoming;
      assert Unread() == before;
      got := conn.Read(dest, off, len);
      assert dest[off..off + got] == before[..got];
      HandOver(delivered, before, got);
      delivered := delivered + before[..got];
      assert dest[..off] == old(dest[..off]) && dest[..off + got] == dest[..off] + dest[off..off + got];
    }

    /** The rest of a large read. */
    method ReadRest(dest: array<char>, off: nat, size: nat) returns (numRead: nat, ok: bool)
      requires Valid() && gptr == egptr && off <= size <= dest.Length && dest != inBuffer
      modifies this`delivered, conn`incoming, dest
      ensures Valid() && off <= numRead <= size && Moved(dest, off, numRead - off)
      ensures if ok then numRead == size else numRead < size && delivered == stream
    {
      numRead := off;
      while numRead < size
        invariant Valid() && gptr == egptr && off <= numRead <= size && Moved(dest, off, numRead - off)
      {
        ghost var before, front := dest[off..numRead], dest[..numRead];
        assert front == old(dest[..off]) + before && delivered == old(delivered) + before;
        var got := ReadDirect(dest, numRead, size - numRead);
        if got == 0 {
          assert dest[off..numRead] == dest[..numRead][off..] == before;
          return numRead, false;
        }
        ghost var more := dest[numRead..numRead + got];
        assert dest[off..numRead + got] == dest[..numRead + got][off..] == before + more;
        Append(old(dest[..off]), before, more);
        Append(old(delivered), before, more);
        numRead := numRead + got;
      }
      return numRead, true;
    }

    /** Reads exactly size characters in order, or throws when the peer's stream ends before that. */
    method Xsgetn(dest: array<char>, size: nat) returns (numRead: nat, ok: bool)
      requires Valid() && size <= dest.Length && dest != inBuffer
      modifies this, conn`incoming, inBuffer, dest
      ensures Valid() && numRead <= size && delivered == old(delivered) + dest[..numRead]
      ensures ok == (|old(delivered)| + size <= |stream|)
      ensures if ok then numRead == size else delivered == stream
    {
      numRead := 0;
      while numRead < size
        invariant Valid() && numRead <= size && delivered == old(delivered) + dest[..numRead]
        decreases size - numRead, egptr == gptr
      {
        if gptr < egptr {
          var avail := egptr - gptr;
          var toRead := if size - numRead < avail then size - numRead else avail;
          ghost var head := dest[..numRead];
          CopyOut(dest, numRead, toRead);
          Append(old(delivered), head, dest[numRead..numRead + toRead]);
          numRead := numRead + toRead;
          assert delivered == old(delivered) + dest[..numRead];
          if gptr != egptr {
            return numRead, true;
          }
        }
        gptr, egptr := 0, 0;
        var remaining := size - numRead;
        if remaining > 0 {
          if remaining > inBuffer.Length {
            ghost var n, head := numRead, dest[..numRead];
            numRead, ok := ReadRest(dest, numRead, size);
            Append(old(delivered), head, dest[n..numRead]);
            assert delivered == old(delivered) + dest[..numRead];
            if !ok {
              return numRead, false;
            }
          } else {
            var filled := Underflow();
            if !filled {
              return numRead, false;
            }
          }
        }
      }
      return numRead, true;
    }
  }
}
