/** Lazy replies on a connection whose stream has failed: every read throws, but no object makes the same read
    twice. */
module PipelineFailed {
  import opened Decimal
  import opened RespReply
  import opened PipelineState
  import opened Wrappers

  // ----- one object

  /** The reads an object has still to make. */
  function ReadsLeft(o: Reply): nat {
    if !o.conn then 0 else if !o.kind.EnumeratorKind? || !o.headerDone then 1 else o.count
  }

  /** The next of them, on any stream: whether it throws, and the object and the stream behind it. A scalar lets go
      of the connection before it reads; an enumerator marks its header as read, or counts the item, before. */
  function NextRead(o: Reply, s: Stream): (bool, Reply, Stream)
    requires ReadsLeft(o) > 0
  {
    match o.kind
    case VoidKind =>
      var (r, t) := StatusReply(s);
      (r.None?, o.(conn := false, stored := if r.Some? then Flag(true) else o.stored), t)
    case BoolKind =>
      var (r, t) := IntegerReply(s);
      (r.None?, o.(conn := false, stored := if r.Some? then Flag(r.value > 0) else o.stored), t)
    case IntKind =>
      var (r, t) := IntegerReply(s);
      (r.None?, o.(conn := false, stored := if r.Some? then Number(r.value) else o.stored), t)
    case StringKind =>
      var (r, t) := BulkReply(s);
      (r.None?, o.(conn := false, stored := if r.Some? then Text(r.value) else o.stored), t)
    case EnumeratorKind =>
      if o.headerDone then
        var (r, t) := BulkReply(s);
        (r.None?, o.(count := o.count - 1), t)
      else
        var (read, t) := CodeAndNumber(s);
        var n := if read.Some? && read.value.1 > 0 then read.value.1 else 0;
        (read.None? || read.value.0 != '*' || read.value.1 < 0, o.(headerDone := true, count := n), t)
  }

  /** On a good stream the read of a scalar is that of its accessor. */
  lemma GoodReadIsAccessor(o: Reply, s: string)
    requires !o.kind.EnumeratorKind? && ReadsLeft(o) > 0
    ensures var (threw, now, t) := NextRead(o, Stream(s, false));
            var read := ReadScalarText(o.kind, s);
            && (threw <==> read.None?) && !now.conn
            && (read.Some? ==> now.stored == read.value.0 && t.rest == read.value.1)
  {
    RepliesAreReads(s);
    hide ReadStatus, ReadInteger, ReadBulk, StatusReply, IntegerReply, BulkReply;
    match o.kind
    case VoidKind => assert ReadStatus(s).Some? <==> StatusReply(Stream(s, false)).0.Some?;
    case BoolKind => assert ReadInteger(s).Some? <==> IntegerReply(Stream(s, false)).0.Some?;
    case IntKind => assert ReadInteger(s).Some? <==> IntegerReply(Stream(s, false)).0.Some?;
    case StringKind => assert ReadBulk(s).Some? <==> BulkReply(Stream(s, false)).0.Some?;
  }

  /** And the header of an enumerator gives it its count. */
  lemma GoodHeaderCounts(o: Reply, left: string, n: nat, tail: string)
    requires o.kind.EnumeratorKind? && o.conn && !o.headerDone && IsLeftover(left)
    ensures NextRead(o, Stream(left + "*" + Print(n) + "\r\n" + tail, false)) ==
            (false, o.(headerDone := true, count := n), Stream("\r\n" + tail, false))
  {
    var rest := Print(n) + (CRLF + tail);
    CodeReadsBack(left, '*', rest);
    NumberReadsBack(n, CRLF + tail);
    hide ReadCode, ReadNumber, Print;
    HeaderText(left, Print(n), tail);
  }

  lemma HeaderText(left: string, digits: string, tail: string)
    ensures left + "*" + digits + "\r\n" + tail == left + (['*'] + (digits + (CRLF + tail)))
  {
  }

  function AfterThrow(o: Reply): Reply
    requires ReadsLeft(o) > 0
  {
    if !o.kind.EnumeratorKind? then o.(conn := false)
    else if o.headerDone then o.(count := o.count - 1)
    else o.(headerDone := true, count := 0)
  }

  /** After its own error a scalar has nothing left to read, whatever the stream: it answers what it held before. */
  lemma ThrownScalarIsDone(o: Reply, s: Stream)
    requires !o.kind.EnumeratorKind? && ReadsLeft(o) > 0 && NextRead(o, s).0
    ensures NextRead(o, s).1 == AfterThrow(o) && ReadsLeft(AfterThrow(o)) == 0 && AfterThrow(o).stored == o.stored
  {
    hide StatusReply, IntegerReply, BulkReply;
  }

  /** An error reply where an enumerator's header is expected throws; asked again the enumerator is at its end,
      unless the error's text starts with a positive number: then it takes that many items to follow. */
  lemma ErrorForEnumerator(o: Reply, left: string, text: string, tail: string)
    requires o.kind.EnumeratorKind? && o.conn && !o.headerDone
    requires IsLeftover(left) && text != "" && !IsSpace(text[0])
    ensures var (threw, now, t) := NextRead(o, ErrorReply(left, text, tail));
            && threw && now.conn && now.headerDone && (t.failed <==> !NumberAhead(text))
            && ReadsLeft(now) == if NumberAhead(text) && LeadingNumber(text) > 0 then LeadingNumber(text) else 0
  {
    ErrorIsHalfRead(left, text, tail);
    hide CodeAndNumber, NumberAhead, LeadingNumber, ErrorReply;
  }

  /** On a failed stream a read throws, and is not made again. */
  lemma FailedReadThrows(o: Reply, s: Stream)
    requires ReadsLeft(o) > 0 && s.failed
    ensures NextRead(o, s) == (true, AfterThrow(o), s) && ReadsLeft(AfterThrow(o)) == ReadsLeft(o) - 1
  {
    hide ReadCode, ReadNumber, ReadLine;
  }

  // ----- the list of objects

  /** The reads that the objects of a list have still to make. */
  function Debt(list: seq<nat>, objs: Objects): nat {
    if list == [] then 0 else (if list[0] in objs then ReadsLeft(objs[list[0]]) else 0) + Debt(list[1..], objs)
  }

  /** The first object of a list that has to read. */
  function Debtor(list: seq<nat>, objs: Objects): (d: Option<nat>)
    ensures d.Some? ==> d.value in list && d.value in objs && ReadsLeft(objs[d.value]) > 0
  {
    if list == [] then None
    else if list[0] in objs && ReadsLeft(objs[list[0]]) > 0 then Some(list[0])
    else Debtor(list[1..], objs)
  }

  function Paid(objs: Objects, d: Option<nat>): Objects
    requires d.Some? ==> d.value in objs && ReadsLeft(objs[d.value]) > 0
  {
    if d.None? then objs else objs[d.value := AfterThrow(objs[d.value])]
  }

  /** What stands before id. */
  function Front(list: seq<nat>, id: nat): seq<nat> {
    if list == [] || list[0] == id then [] else [list[0]] + Front(list[1..], id)
  }

  /** Whose reads an accessor of id may make: all up to its own, or its own alone behind an enumerator's header. */
  function Reach(list: seq<nat>, o: Reply, id: nat): seq<nat> {
    if !o.conn then [] else if o.kind.EnumeratorKind? && o.headerDone then [id] else Front(list, id) + [id]
  }

  function TakenOut(list: seq<nat>, id: nat): seq<nat> {
    if list == [] then [] else (if list[0] == id then [] else [list[0]]) + TakenOut(list[1..], id)
  }

  /** Connected objects are on the list, and have no items pending; others may be on it after they threw. */
  ghost predicate OnList(list: seq<nat>, objs: Objects) {
    && Distinct(list) && (forall x | x in list :: x in objs)
    && (forall x | x in objs && objs[x].conn :: x in list && objs[x].pending == [])
  }

  lemma {:induction false} DebtorIff(list: seq<nat>, objs: Objects)
    ensures Debtor(list, objs).Some? <==> Debt(list, objs) > 0
    decreases |list|
  {
    if list != [] { DebtorIff(list[1..], objs); }
  }

  /** A throw takes one read off every list that holds the object, and none off any other. */
  lemma {:induction false} PaidOnce(list: seq<nat>, objs: Objects, d: nat)
    requires Distinct(list) && d in objs && ReadsLeft(objs[d]) > 0
    ensures Debt(list, Paid(objs, Some(d))) == Debt(list, objs) - if d in list then 1 else 0
    decreases |list|
  {
    FailedReadThrows(objs[d], Stream("", true));
    if list != [] {
      PaidOnce(list[1..], objs, d);
      assert d in list <==> d == list[0] || d in list[1..];
      assert d == list[0] ==> d !in list[1..];
    }
    hide NextRead, ReadsLeft, AfterThrow;
  }

  lemma {:induction false} FrontIsPrefix(list: seq<nat>, id: nat)
    ensures id !in Front(list, id) && |Front(list, id)| <= |list| && Front(list, id) == list[..|Front(list, id)|]
    ensures id in list ==> |Front(list, id)| < |list| && list[|Front(list, id)|] == id
    decreases |list|
  {
    if list != [] { FrontIsPrefix(list[1..], id); }
  }

  lemma {:induction false} TakenOutKeeps(list: seq<nat>, id: nat)
    ensures forall x :: x in TakenOut(list, id) <==> x in list && x != id
    ensures Distinct(list) ==> Distinct(TakenOut(list, id))
    decreases |list|
  {
    if list != [] {
      TakenOutKeeps(list[1..], id);
      assert forall x :: x in list <==> x == list[0] || x in list[1..];
      if Distinct(list) { assert list[0] !in list[1..]; DistinctFront(list[0], TakenOut(list[1..], id)); }
    }
  }

  lemma DistinctFront(x: nat, list: seq<nat>)
    requires Distinct(list) && x !in list
    ensures Distinct([x] + list)
  {
  }

  lemma {:induction false} TakenOutDebt(list: seq<nat>, objs: Objects, id: nat, o: Reply)
    requires id in objs && ReadsLeft(objs[id]) == 0 == ReadsLeft(o)
    ensures Debt(TakenOut(list, id), objs[id := o]) == Debt(list, objs)
    decreases |list|
  {
    hide ReadsLeft;
    if list != [] {
      TakenOutDebt(list[1..], objs, id, o);
      if list[0] != id {
        assert ([list[0]] + TakenOut(list[1..], id))[1..] == TakenOut(list[1..], id);
      } else {
        assert [] + TakenOut(list[1..], id) == TakenOut(list[1..], id);
      }
    }
  }

  // ----- the accessors, as one step

  datatype Replies = Replies(list: seq<nat>, objs: Objects)

  /** An exhausted enumerator lets go of the connection when it is asked. */
  function Closed(p: Replies, id: nat): Replies
    requires id in p.objs
  {
    if p.objs[id].conn then Replies(TakenOut(p.list, id), p.objs[id := p.objs[id].(conn := false)])
    else if p.objs[id].kind.EnumeratorKind? then p.(objs := p.objs[id := Popped(p.objs[id])])
    else p
  }

  /** One call of id's accessor: whether it throws, and what is left. */
  function Ask(p: Replies, id: nat): (r: (bool, Replies))
    requires id in p.objs
    ensures r.1.objs.Keys == p.objs.Keys
  {
    var d := Debtor(Reach(p.list, p.objs[id], id), p.objs);
    if d.Some? then (true, p.(objs := Paid(p.objs, d))) else (false, Closed(p, id))
  }

  function Owed(p: Replies, id: nat): nat
    requires id in p.objs
  {
    Debt(Reach(p.list, p.objs[id], id), p.objs)
  }

  lemma ReachIsDistinct(list: seq<nat>, o: Reply, id: nat)
    requires Distinct(list) && (o.conn ==> id in list)
    ensures Distinct(Reach(list, o, id)) && (o.conn ==> id in Reach(list, o, id))
    ensures forall x | x in Reach(list, o, id) :: x in list
  {
    FrontIsPrefix(list, id);
    hide Front;
  }

  /** An accessor throws exactly when it owes reads, and then owes one less, and so does the connection. */
  lemma AskThrowsIff(p: Replies, id: nat)
    requires OnList(p.list, p.objs) && id in p.objs
    ensures var (threw, now) := Ask(p, id);
            && (threw <==> Owed(p, id) > 0) && OnList(now.list, now.objs) && now.objs.Keys == p.objs.Keys
            && Debt(now.list, now.objs) == Debt(p.list, p.objs) - if threw then 1 else 0
  {
    var o := p.objs[id];
    var reach := Reach(p.list, o, id);
    DebtorIff(reach, p.objs);
    ReachIsDistinct(p.list, o, id);
    var d := Debtor(reach, p.objs);
    if d.Some? {
      PaidOnce(p.list, p.objs, d.value);
      hide Debt, Debtor, Reach, Front, ReadsLeft;
    } else {
      ClosedKeeps(p, id);
      hide Debt, Debtor, Reach, Front, ReadsLeft, Closed;
    }
  }

  lemma NothingOwed(p: Replies, id: nat)
    requires id in p.objs && Debtor(Reach(p.list, p.objs[id], id), p.objs).None?
    ensures ReadsLeft(p.objs[id]) == 0
  {
    var o := p.objs[id];
    var reach := Reach(p.list, o, id);
    DebtorIff(reach, p.objs);
    if o.conn {
      DebtOfLast(reach[..|reach| - 1], p.objs, id);
      assert reach == reach[..|reach| - 1] + [id];
    }
    hide Debt, Debtor, Front;
  }

  lemma {:induction false} DebtOfLast(front: seq<nat>, objs: Objects, id: nat)
    requires id in objs
    ensures Debt(front + [id], objs) == Debt(front, objs) + ReadsLeft(objs[id])
    decreases |front|
  {
    if front == [] {
      assert [] + [id] == [id] && [id][1..] == [];
    } else {
      assert (front + [id])[1..] == front[1..] + [id];
      DebtOfLast(front[1..], objs, id);
    }
    hide ReadsLeft;
  }

  lemma ClosedKeeps(p: Replies, id: nat)
    requires OnList(p.list, p.objs) && id in p.objs && Debtor(Reach(p.list, p.objs[id], id), p.objs).None?
    ensures var now := Closed(p, id);
            OnList(now.list, now.objs) && now.objs.Keys == p.objs.Keys && Debt(now.list, now.objs) == Debt(p.list, p.objs)
  {
    hide Debt, Debtor, Reach, TakenOut, ReadsLeft;
    var o := p.objs[id];
    ReadsAfter(o);
    if o.conn {
      NothingOwed(p, id);
      TakenOutKeeps(p.list, id);
      TakenOutDebt(p.list, p.objs, id, o.(conn := false));
    } else {
      SameDebt(p.list, p.objs, id, Popped(o));
    }
  }

  lemma ReadsAfter(o: Reply)
    ensures ReadsLeft(o.(conn := false)) == 0 && ReadsLeft(Popped(o)) == ReadsLeft(o)
  {
  }

  lemma {:induction false} SameDebt(list: seq<nat>, objs: Objects, id: nat, o: Reply)
    requires id in objs && ReadsLeft(o) == ReadsLeft(objs[id])
    ensures Debt(list, objs[id := o]) == Debt(list, objs)
    decreases |list|
  {
    if list != [] { SameDebt(list[1..], objs, id, o); }
    hide ReadsLeft;
  }

  lemma {:induction false} DebtorOf(front: seq<nat>, behind: seq<nat>, objs: Objects)
    ensures Debtor(front + behind, objs) == if Debtor(front, objs).Some? then Debtor(front, objs) else Debtor(behind, objs)
    decreases |front|
  {
    if front == [] {
      assert [] + behind == behind;
    } else {
      assert (front + behind)[1..] == front[1..] + behind;
      DebtorOf(front[1..], behind, objs);
    }
    hide ReadsLeft;
  }

  /** Asked again, it owes one read less, or none. */
  lemma OwedOnce(p: Replies, id: nat)
    requires OnList(p.list, p.objs) && id in p.objs
    ensures var (threw, now) := Ask(p, id); Owed(now, id) == if threw then Owed(p, id) - 1 else 0
    ensures Ask(p, id).0 <==> Owed(p, id) > 0
  {
    var reach := Reach(p.list, p.objs[id], id);
    DebtorIff(reach, p.objs);
    ReachIsDistinct(p.list, p.objs[id], id);
    var d := Debtor(reach, p.objs);
    if d.Some? {
      PaidOnce(reach, p.objs, d.value);
      if d.value == id { OwnReadOwed(p, id); }
      hide Debt, Debtor, Front, ReadsLeft, AfterThrow;
      assert d.value != id ==> Paid(p.objs, d)[id] == p.objs[id];
    } else {
      ClosedOwes(p, id);
      hide Debt, Debtor, Reach, Front, ReadsLeft, Closed;
    }
  }

  /** When its own read is due nothing before it has any to make. */
  lemma OwnReadOwed(p: Replies, id: nat)
    requires id in p.objs && Debtor(Reach(p.list, p.objs[id], id), p.objs) == Some(id)
    ensures Debt(Reach(p.list, p.objs[id], id), p.objs) == ReadsLeft(p.objs[id])
    ensures Debt(Reach(p.list, AfterThrow(p.objs[id]), id), Paid(p.objs, Some(id))) == ReadsLeft(p.objs[id]) - 1
  {
    var front, now := Front(p.list, id), Paid(p.objs, Some(id));
    FailedReadThrows(p.objs[id], Stream("", true));
    FrontIsPrefix(p.list, id);
    DebtorOf(front, [id], p.objs);
    DebtorIff(front, p.objs);
    DebtOfLast(front, p.objs, id);
    DebtOfLast([], p.objs, id);
    DebtOfLast([], now, id);
    assert [] + [id] == [id];
    hide NextRead, Front;
  }

  lemma ClosedOwes(p: Replies, id: nat)
    requires OnList(p.list, p.objs) && id in p.objs && Debtor(Reach(p.list, p.objs[id], id), p.objs).None?
    ensures Owed(Closed(p, id), id) == 0 == Owed(p, id)
  {
    DebtorIff(Reach(p.list, p.objs[id], id), p.objs);
    hide TakenOut, Front;
  }

  function Times(p: Replies, id: nat, n: nat): (r: Replies)
    requires id in p.objs
    ensures r.objs.Keys == p.objs.Keys
  {
    if n == 0 then p else Ask(Times(p, id, n - 1), id).1
  }

  /** Asked over and over an object throws exactly as often as reads are owed by it and those before it. */
  lemma {:induction false} AskedOften(p: Replies, id: nat, n: nat)
    requires OnList(p.list, p.objs) && id in p.objs
    ensures Ask(Times(p, id, n), id).0 <==> n < Owed(p, id)
    ensures OnList(Times(p, id, n).list, Times(p, id, n).objs)
    ensures Owed(Times(p, id, n), id) == if n < Owed(p, id) then Owed(p, id) - n else 0
  {
    hide Ask, Owed, OnList;
    if n > 0 {
      AskedOften(p, id, n - 1);
      AskThrowsIff(Times(p, id, n - 1), id);
      OwedOnce(Times(p, id, n - 1), id);
    }
    OwedOnce(Times(p, id, n), id);
  }

  function Throws(p: Replies, asks: seq<nat>): nat
    requires forall id | id in asks :: id in p.objs
    decreases asks
  {
    if asks == [] then 0 else (if Ask(p, asks[0]).0 then 1 else 0) + Throws(Ask(p, asks[0]).1, asks[1..])
  }

  /** However the objects are asked, exceptions are no more than the reads that were outstanding. */
  lemma {:induction false} ThrowsAreBounded(p: Replies, asks: seq<nat>)
    requires OnList(p.list, p.objs) && forall id | id in asks :: id in p.objs
    ensures Throws(p, asks) <= Debt(p.list, p.objs)
    decreases |asks|
  {
    if asks != [] {
      AskThrowsIff(p, asks[0]);
      ThrowsAreBounded(Ask(p, asks[0]).1, asks[1..]);
    }
    hide Ask, Debt, OnList;
  }

  // ----- the client

  /** Whose read an accessor makes. */
  lemma AccessorCases(p: Replies, id: nat)
    requires OnList(p.list, p.objs) && id in p.objs
    ensures var o := p.objs[id];
            var d := Debtor(Reach(p.list, o, id), p.objs);
            && (o.conn ==> o.pending == [] && id in p.list)
            && d == (if o.conn && !(o.kind.EnumeratorKind? && o.headerDone) && Debtor(Front(p.list, id), p.objs).Some?
                     then Debtor(Front(p.list, id), p.objs)
                     else if ReadsLeft(o) > 0 then Some(id) else None)
  {
    var o, front := p.objs[id], Front(p.list, id);
    DebtorOf(front, [id], p.objs);
    assert [id][1..] == [] && Debtor([], p.objs).None?;
    hide Front;
  }

  lemma NextInFront(list: seq<nat>, objs: Objects, front: seq<nat>, i: nat)
    requires i < |front| <= |list| && front == list[..|front|] && list[i] in objs && Debtor(list[..i], objs).None?
    ensures if ReadsLeft(objs[list[i]]) > 0 then Debtor(front, objs) == Some(list[i]) else Debtor(list[..i + 1], objs).None?
    ensures Debtor([], objs).None?
  {
    hide Debtor, ReadsLeft;
    DebtorOf(list[..i], [list[i]], objs);
    DebtorOf(list[..i + 1], front[i + 1..], objs);
    DebtorOfOne(list[i], objs);
    assert list[..i + 1] == list[..i] + [list[i]];
    assert front == list[..i + 1] + front[i + 1..];
  }

  lemma DebtorOfOne(id: nat, objs: Objects)
    requires id in objs
    ensures Debtor([], objs).None? && Debtor([id], objs) == if ReadsLeft(objs[id]) > 0 then Some(id) else None
  {
    assert [id][1..] == [];
    hide ReadsLeft;
  }

  class FailedClient {
    var stream: Stream
    var list: seq<nat>
    var objs: Objects

    ghost predicate Valid()
      reads this
    {
      stream.failed && OnList(list, objs)
    }

    ghost function View(): Replies
      reads this
    {
      Replies(list, objs)
    }

    constructor (stream: Stream, list: seq<nat>, objs: Objects)
      requires stream.failed && OnList(list, objs)
      ensures Valid() && this.stream == stream && this.list == list && this.objs == objs
    {
      this.stream, this.list, this.objs := stream, list, objs;
    }

    /** readResult: an object that has to read throws at its first read. */
    method ReadResult(id: nat) returns (threw: bool)
      requires Valid() && id in objs
      modifies `objs, `stream
      ensures Valid() && (threw <==> ReadsLeft(old(objs)[id]) > 0)
      ensures objs == Paid(old(objs), if threw then Some(id) else None)
    {
      threw := false;
      if ReadsLeft(objs[id]) > 0 {
        FailedReadThrows(objs[id], stream);
        var (t, o, s) := NextRead(objs[id], stream);
        threw, objs, stream := t, objs[id := o], s;
        hide NextRead;
      }
    }

    method ClearPending(id: nat) returns (threw: bool)
      requires Valid() && id in list
      modifies `objs, `stream
      ensures Valid() && (threw <==> Debtor(Front(list, id), old(objs)).Some?)
      ensures objs == Paid(old(objs), Debtor(Front(list, id), old(objs)))
    {
      assert forall x | x in list :: x in objs;
      hide OnList, ReadsLeft, AfterThrow, Debtor, Front;
      FrontIsPrefix(list, id);
      var i := 0;
      while list[i] != id
        invariant i <= |Front(list, id)| && Valid() && objs == old(objs) && Debtor(list[..i], objs).None?
        decreases |list| - i
      {
        NextInFront(list, objs, Front(list, id), i);
        threw := ReadResult(list[i]);
        if threw {
          return;
        }
        i := i + 1;
      }
      threw := false;
    }

    /** A scalar's accessor; None for an exception. */
    method Result(id: nat) returns (value: Option<Value>)
      requires Valid() && id in objs && !objs[id].kind.EnumeratorKind?
      modifies `objs, `stream
      ensures Valid() && View() == Ask(old(View()), id).1
      ensures value == if Ask(old(View()), id).0 then None else Some(old(objs)[id].stored)
    {
      AccessorCases(View(), id);
      if objs[id].conn {
        var threw := ClearPending(id);
        if !threw {
          threw := ReadResult(id);
        }
        assert threw;
        return None;
      }
      value := Some(objs[id].stored);
    }

    /** nextOptional: the next pending item or the end. */
    method NextOptional(id: nat) returns (threw: bool, item: Option<Item>)
      requires Valid() && id in objs && objs[id].kind.EnumeratorKind?
      modifies this
      ensures Valid() && View() == Ask(old(View()), id).1 && threw == Ask(old(View()), id).0
      ensures !threw ==> item == if old(objs)[id].pending == [] then None else Some(old(objs)[id].pending[0])
    {
      AccessorCases(View(), id);
      AskThrowsIff(View(), id);
      hide OnList, Debtor, Front, ReadsLeft, AfterThrow;
      threw, item := false, None;
      if objs[id].pending != [] {
        item, objs := Some(objs[id].pending[0]), objs[id := Popped(objs[id])];
      } else if objs[id].conn {
        if !objs[id].headerDone {
          threw := ClearPending(id);
        }
        if !threw {
          threw := ReadResult(id);
        }
        if !threw {
          list, objs := TakenOut(list, id), objs[id := objs[id].(conn := false)];
        }
      }
    }
  }
}
