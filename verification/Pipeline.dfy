/** The pipelined client: asking for one reply reads all earlier ones. */
module Pipeline {
  import opened RespReply
  import opened PipelineState
  import opened Wrappers

  class Client {
    var stream: string
    var list: seq<nat>
    var objs: Objects

    /** All but the books of handed-out items. */
    ghost predicate Core()
      reads this
    {
      Linked(list, objs) && InSync(stream, list, objs)
    }

    ghost predicate Valid()
      reads this
    {
      Core() && Books(objs)
    }

    constructor ()
      ensures Valid() && objs == map[] && list == []
    {
      stream, list, objs := "", [], map[];
      assert "" == "" + OwesAll([], map[]) && IsLeftover("");
    }

    /** VoidReply::result and its kin, for the object at the front. */
    method ReadScalar(i: nat)
      requires Core() && AtFront(list, objs, i) && ScalarFits(objs[list[i]]) && objs[list[i]].conn
      modifies this
      ensures Core() && list == Without(old(list), i)
      ensures var o := old(objs[list[i]]);
              objs == old(objs)[old(list[i]) := o.(conn := false, stored := Meaning(o.kind, o.answer))]
    {
      hide Encode, ReadScalarText, Meaning, Fits;
      var id := list[i];
      var o := objs[id];
      ghost var left :| IsLeftover(left) && stream == left + OwesAll(list, objs);
      ghost var tail := OwesAll(list[i + 1..], objs);
      FrontOwes(list, objs, i);
      ScalarReadsBack(left, o.kind, o.answer, tail);
      match ReadScalarText(o.kind, stream) {
        case Some((value, rest)) =>
          var done := o.(conn := false, stored := value);
          DoneIsWired(o, done);
          FrontDone(list, objs, i, done, LeftBy(o.kind));
          stream, list, objs := rest, Without(list, i), objs[id := done];
      }
    }

    lemma DoneIsWired(o: Reply, done: Reply)
      requires Wired(o) && ScalarFits(o) && done == o.(conn := false, stored := Meaning(o.kind, o.answer))
      ensures Wired(done)
    {
    }

    /** nextOptional on an object at the front whose pending list is empty: the header if it is unread,
        then an item, or the end. */
    method ReadItem(i: nat) returns (item: Option<Item>)
      requires Core() && AtFront(list, objs, i) && objs[list[i]].kind.EnumeratorKind? && objs[list[i]].conn
      modifies this
      ensures Core()
      ensures var o, id := old(objs[list[i]]), old(list[i]);
              if Start(o) == |Items(o)|
              then item.None? && list == Without(old(list), i) && objs == old(objs)[id := Ended(o)]
              else item == Some(Items(o)[Start(o)]) && objs == old(objs)[id := AfterItem(o)]
                   && list == old(list) && AtFront(list, objs, i)
    {
      ListedIsWired(list, objs, i);
      ghost var o, h := objs[list[i]], WithHeader(objs[list[i]]);
      HeaderFirst(o);
      UpdatedTwice(objs, list[i], h, Ended(o));
      if Start(o) < |Items(o)| { UpdatedTwice(objs, list[i], h, AfterItem(o)); }
      hide InSync, Owes, OwesAll, OwesOf, Encode, Partial, Linked, Without, Start, Items, Ended, AfterItem, AtFront;
      var id := list[i];
      if !objs[id].headerDone {
        ReadHeaderOf(i);
      }
      if objs[id].count == 0 {
        Finish(i);
        return None;
      }
      item := ReadItemOf(i);
    }

    /** Unlinks an enumerator that has read all its items. */
    method Finish(i: nat)
      requires Core() && AtFront(list, objs, i) && objs[list[i]].conn
      requires objs[list[i]].kind.EnumeratorKind? && objs[list[i]].headerDone && objs[list[i]].count == 0
      modifies `list, `objs
      ensures Core() && list == Without(old(list), i)
      ensures objs == old(objs)[old(list[i]) := old(objs[list[i]]).(conn := false)]
    {
      ListedIsWired(list, objs, i);
      var done := objs[list[i]].(conn := false);
      FinishedOwesNothing(objs[list[i]]);
      FrontEnds(stream, list, objs, i, done);
      hide Owes, Wired, Partial, Linked, AtFront, InSync, Without, Start, Items;
      list, objs := Without(list, i), objs[list[i] := done];
    }

    /** The header of a multi bulk reply. */
    method ReadHeaderOf(i: nat)
      requires Core() && AtFront(list, objs, i) && objs[list[i]].conn
      requires objs[list[i]].kind.EnumeratorKind? && !objs[list[i]].headerDone
      modifies this
      ensures Core() && list == old(list) && AtFront(list, objs, i)
      ensures var o := old(objs[list[i]]);
              objs == old(objs)[old(list[i]) := o.(headerDone := true, count := |Items(o)|)]
    {
      ListedIsWired(list, objs, i);
      HeaderRead(objs[list[i]]);
      assert OwesOf(objs, list[i]) == Owes(objs[list[i]]);
      hide ReadHeader, EncodeItems, Encode, Owes, OwesOf, OwesAll, Wired, Partial, Linked, AtFront, Items;
      var id := list[i];
      var o := objs[id];
      ghost var left :| IsLeftover(left) && stream == left + OwesAll(list, objs);
      ghost var tail := OwesAll(list[i + 1..], objs);
      FrontOwes(list, objs, i);
      HeaderIsRead(left, Items(o), tail);
      match ReadHeader('*', stream) {
        case Some((n, rest)) =>
          var read := o.(headerDone := true, count := n);
          FrontRead(list, objs, i, read, CRLF);
          stream, objs := rest, objs[id := read];
      }
    }

    method ReadItemOf(i: nat) returns (item: Option<Item>)
      requires Core() && AtFront(list, objs, i) && objs[list[i]].conn
      requires objs[list[i]].kind.EnumeratorKind? && objs[list[i]].headerDone && objs[list[i]].count > 0
      modifies this
      ensures Core() && list == old(list) && AtFront(list, objs, i)
      ensures var o := old(objs[list[i]]);
              item == Some(Items(o)[Start(o)]) && objs == old(objs)[old(list[i]) := o.(count := o.count - 1)]
    {
      ListedIsWired(list, objs, i);
      ItemRead(objs[list[i]]);
      hide ReadBulk, EncodeItems, Encode, Owes, Wired, Partial, Linked, AtFront, Items, Start;
      var id := list[i];
      var o := objs[id];
      ghost var left :| IsLeftover(left) && stream == left + OwesAll(list, objs);
      ghost var unread, tail := Items(o)[Start(o)..], OwesAll(list[i + 1..], objs);
      FrontOwes(list, objs, i);
      ItemIsRead(left, unread, tail);
      match ReadBulk(stream) {
        case Some((read, rest)) =>
          var now := o.(count := o.count - 1);
          FrontRead(list, objs, i, now, CRLF);
          stream, objs := rest, objs[id := now];
          return Some(read);
      }
    }

    /** readResult, for an object at the front. */
    method ReadResult(i: nat) returns (removed: bool)
      requires Valid() && AtFront(list, objs, i)
      modifies this
      ensures Valid() && objs == old(objs)[old(list[i]) := Drained(old(objs[list[i]]))]
      ensures list == if removed then Without(old(list), i) else old(list)
      ensures Clear(list, objs, if removed then i else i + 1)
    {
      ListedIsWired(list, objs, i);
      DrainedIsRight(objs[list[i]]);
      ClearAfter(list, objs, i, Drained(objs[list[i]]));
      BooksKept(objs, list[i], Drained(objs[list[i]]));
      hide Linked, InSync, Books, Clear, Drained, Without;
      removed := ReadWhole(i);
    }

    method ReadWhole(i: nat) returns (removed: bool)
      requires Core() && AtFront(list, objs, i)
      modifies this
      ensures Core() && objs == old(objs)[old(list[i]) := Drained(old(objs[list[i]]))]
      ensures list == if removed then Without(old(list), i) else old(list)
    {
      ListedIsWired(list, objs, i);
      hide InSync, OwesAll, Encode, Partial, Linked, Wired, Clear, Meaning, Owes, DrainedEnumerator, Without;
      ghost var o := objs[list[i]];
      if !objs[list[i]].kind.EnumeratorKind? {
        WiredScalarFits(o);
        ReadScalar(i);
        return true;
      }
      if objs[list[i]].headerDone && objs[list[i]].count == 0 {
        return false;
      }
      DrainEnumerator(i);
      return true;
    }

    lemma WiredScalarFits(o: Reply)
      requires Wired(o) && o.conn && !o.kind.EnumeratorKind?
      ensures ScalarFits(o) && Drained(o) == o.(conn := false, stored := Meaning(o.kind, o.answer))
    {
    }

    /** Moves all unread items of an enumerator into its pending list. */
    method DrainEnumerator(i: nat)
      requires Core() && AtFront(list, objs, i) && objs[list[i]].kind.EnumeratorKind? && objs[list[i]].conn
      modifies this
      ensures Core() && list == Without(old(list), i)
      ensures objs == old(objs)[old(list[i]) := DrainedEnumerator(old(objs[list[i]]))]
    {
      ListedIsWired(list, objs, i);
      hide InSync, OwesAll, Owes, Encode, Partial, Linked, Wired, OwesOf, AtFront;
      var id := list[i];
      var readPending := ReadToEnd(i);
      UpdatedTwice(old(objs), id, objs[id], DrainedEnumerator(old(objs)[id]));
      StorePending(id, readPending);
    }

    /** Reads items until there are no more. */
    method ReadToEnd(i: nat) returns (readPending: seq<Item>)
      requires Core() && AtFront(list, objs, i) && objs[list[i]].kind.EnumeratorKind? && objs[list[i]].conn
      modifies this
      ensures Core() && list == Without(old(list), i) && readPending == Items(old(objs[list[i]]))[Start(old(objs[list[i]]))..]
      ensures objs == old(objs)[old(list[i]) := Ended(old(objs[list[i]]))]
    {
      ListedIsWired(list, objs, i);
      hide InSync, OwesAll, Owes, Encode, Partial, Linked, Wired, OwesOf, AtFront, Start, Items, AfterItem, Ended, ReadSoFar;
      var id := list[i];
      ghost var o, cur := objs[id], objs[id];
      readPending := [];
      ReadSoFarBegins(o);
      while true
        invariant Core() && list == old(list) && AtFront(list, objs, i)
        invariant objs == old(objs)[id := cur] && ReadSoFar(o, cur, readPending)
        decreases |Items(o)| - |readPending|
      {
        ReadSoFarGoesOn(o, cur, readPending);
        var item := ReadItem(i);
        if item.None? {
          UpdatedTwice(old(objs), id, cur, Ended(cur));
          return;
        }
        UpdatedTwice(old(objs), id, cur, AfterItem(cur));
        readPending, cur := readPending + [item.value], AfterItem(cur);
      }
    }

    method StorePending(id: nat, items: seq<Item>)
      requires Core() && id in objs && !objs[id].conn && objs[id].kind.EnumeratorKind?
      modifies `objs
      ensures Core() && objs == old(objs)[id := old(objs)[id].(pending := old(objs)[id].pending + items)]
    {
      var now := objs[id].(pending := objs[id].pending + items);
      SameText(stream, list, objs, id, now);
      objs := objs[id := now];
    }

    /** clearPendingResults: reads every reply sent before this object's. */
    method ClearPending(id: nat) returns (at: nat)
      requires Valid() && id in list
      modifies this
      ensures Valid() && AtFront(list, objs, at) && list[at] == id
      ensures ReadBefore(old(objs), objs, id) && objs[id] == old(objs)[id]
    {
      NothingReadYet(id);
      hide InSync, OwesAll, Encode, Wired, Accounted, Drained, Owes, Partial, OwesOf, Books, Linked, ReadUpTo, ReadBefore;
      at := 0;
      while list[at] != id
        invariant Valid() && at < |list| && AtFront(list, objs, at) && id in list[at..]
        invariant id in objs && id in old(objs) && objs[id] == old(objs)[id] && ReadUpTo(old(objs), objs, list[at..], id)
        decreases |list| - at
      {
        at := PassOne(old(objs), id, at);
      }
      LaterInList(id, at);
      ReadUpToEnds(old(objs), objs, list[at..], id);
    }

    /** One round of its loop. */
    method PassOne(ghost was: Objects, id: nat, at: nat) returns (next: nat)
      requires Valid() && at < |list| && AtFront(list, objs, at) && id in list[at..] && list[at] != id
      requires id in objs && id in was && objs[id] == was[id] && ReadUpTo(was, objs, list[at..], id)
      modifies this
      ensures Valid() && next < |list| && AtFront(list, objs, next) && id in list[next..]
      ensures id in objs && objs[id] == was[id] && ReadUpTo(was, objs, list[next..], id)
      ensures |list| - next < old(|list| - at)
    {
      ghost var todo := list;
      PlaceBefore(id, at);
      ReadUpToNext(was, objs, list[at..], id);
      hide InSync, OwesAll, Encode, Wired, Accounted, Owes, Partial, OwesOf, Books, Linked, Drained, ReadUpTo, Clear;
      var removed := ReadResult(at);
      next := if removed then at else at + 1;
      TailAfter(todo, at);
      assert list[next..] == todo[at + 1..];
      NextAtFront(id, next);
    }

    lemma NextAtFront(id: nat, at: nat)
      requires Clear(list, objs, at) && id in list[at..]
      ensures AtFront(list, objs, at)
    {
    }

    lemma TailAfter(todo: seq<nat>, at: nat)
      requires at < |todo|
      ensures Without(todo, at)[at..] == todo[at + 1..] == todo[at..][1..]
    {
    }

    lemma NothingReadYet(id: nat)
      requires Valid() && id in list
      ensures id in objs && list[0..] == list && AtFront(list, objs, 0) && ReadUpTo(objs, objs, list, id)
    {
      ConnectedIsListed(list, objs, id);
      forall x | x in objs && x !in list ensures !objs[x].conn && Drained(objs[x]) == objs[x] {
        ConnectedIsListed(list, objs, x);
      }
      hide Linked, InSync, Books, Owes, Drained;
    }

    /** An object in front of another in the list was sent before it. */
    lemma PlaceBefore(id: nat, at: nat)
      requires Core() && at < |list| && id in list[at..] && list[at] != id
      ensures list[at..][0] == list[at] && list[at] in objs && id in objs && objs[list[at]].place < objs[id].place
      ensures list[at] !in list[at..][1..] && id in list[at..][1..]
    {
      hide InSync;
      var k :| 0 <= k < |list| - at && list[at..][k] == id;
      assert list[at + k] == id && list[at..][1..][k - 1] == id;
    }

    lemma LaterInList(id: nat, at: nat)
      requires Core() && at < |list| && list[at] == id
      ensures id in objs && forall x | x in list[at..] && x != id :: x in objs && objs[id].place < objs[x].place
    {
      hide InSync;
      forall x | x in list[at..] && x != id ensures x in objs && objs[id].place < objs[x].place {
        var k :| 0 <= k < |list| - at && list[at..][k] == x;
        assert list[at + k] == x;
      }
    }

    /** A command was sent: the server's response is on its way, and a reply object is constructed. */
    method Execute(id: nat, kind: Kind, r: Resp, place: nat)
      requires Valid() && id !in objs && Fits(kind, r)
      requires forall x | x in list && x in objs :: objs[x].place < place
      modifies this
      ensures Valid() && objs == old(objs)[id := Fresh(kind, r, place)] && list == old(list) + [id]
    {
      var o := Fresh(kind, r, place);
      Appended(stream, list, objs, id, o);
      stream, list, objs := stream + Encode(r), list + [id], objs[id := o];
    }

    /** A default-constructed reply object. */
    method Construct(id: nat, kind: Kind)
      requires Valid() && id !in objs
      modifies `objs
      ensures Valid() && objs == old(objs)[id := Empty(kind)]
    {
      EmptyIsRight(kind);
      AddedUnlisted(stream, list, objs, id, Empty(kind));
      hide Linked, InSync, Accounted, Empty;
      objs := objs[id := Empty(kind)];
    }

    /** The accessor of a scalar reply. */
    method Result(id: nat) returns (value: Value)
      requires Valid() && id in objs && !objs[id].kind.EnumeratorKind?
      modifies this
      ensures Valid() && ResultReads(old(objs), objs, id)
      ensures value == Meaning(objs[id].kind, objs[id].answer)
    {
      hide InSync, OwesAll, Encode, Owes, Partial, Linked, Wired, OwesOf, Accounted;
      ConnectedIsListed(list, objs, id);
      DrainedIsRight(objs[id]);
      if objs[id].conn {
        var at := ClearPending(id);
        ReadScalar(at);
      }
      value := objs[id].stored;
    }

    /** What an accessor of a scalar reads: its own reply and those before it, unless it has been read. */
    ghost predicate ResultReads(was: Objects, now: Objects, id: nat) {
      && id in was && (if was[id].conn then ReadBefore(was, now, id) else OthersSame(was, now, id))
      && now[id] == Drained(was[id]) && !now[id].conn
    }

    /** MultiBulkEnumerator::nextOptional: the items of the response in order, each once, then the end. */
    method NextOptional(id: nat) returns (item: Option<Item>)
      requires Valid() && id in objs && objs[id].kind.EnumeratorKind?
      modifies this
      ensures Valid() && NextReads(old(objs), objs, id) && SameReply(old(objs)[id], objs[id])
      ensures var o := old(objs)[id];
              if o.taken < |Items(o)| then item == Some(Items(o)[o.taken]) && objs[id].taken == o.taken + 1
              else item.None? && objs[id].taken == o.taken
      ensures objs[id].conn <==> old(objs)[id].conn && item.Some?
      ensures objs[id].conn ==> objs[id].headerDone
    {
      ConnectedIsListed(list, objs, id);
      NextCases(objs[id]);
      OneUpdated(objs, id, Popped(objs[id]));
      hide InSync, OwesAll, Encode, Owes, Partial, Wired, Linked, Books, Accounted, Start, Items, OwesOf, OthersSame,
           ReadBefore;
      if objs[id].pending != [] {
        item := TakePending(id);
      } else if !objs[id].conn {
        item := None;
      } else {
        item := NextFromStream(id);
      }
    }

    lemma NextCases(o: Reply)
      requires Wired(o) && Accounted(o) && o.kind.EnumeratorKind?
      ensures if o.pending != [] then !o.conn && o.taken < |Items(o)| && o.pending[0] == Items(o)[o.taken]
              else o.taken == Start(o) && (!o.conn ==> o.taken == |Items(o)|)
    {
      hide Fits, Meaning;
    }

    ghost predicate SameReply(was: Reply, now: Reply) {
      now.kind == was.kind && now.answer == was.answer && now.place == was.place
    }

    /** Only an enumerator whose header is unread has to read the replies before its own. */
    ghost predicate NextReads(was: Objects, now: Objects, id: nat) {
      id in was && if was[id].conn && !was[id].headerDone then ReadBefore(was, now, id) else OthersSame(was, now, id)
    }

    method NextFromStream(id: nat) returns (item: Option<Item>)
      requires Valid() && id in objs && objs[id].kind.EnumeratorKind? && objs[id].conn
      modifies this
      ensures Valid() && NextReads(old(objs), objs, id) && SameReply(old(objs)[id], objs[id])
      ensures var o := old(objs)[id];
              if Start(o) < |Items(o)|
              then item == Some(Items(o)[Start(o)]) && objs[id].taken == o.taken + 1 && objs[id].conn && objs[id].headerDone
              else item.None? && objs[id].taken == o.taken && !objs[id].conn
    {
      hide InSync, OwesAll, Encode, Owes, Accounted, Start, Drained, Linked, Wired, OwesOf;
      ghost var o := objs[id];
      ConnectedIsListed(list, objs, id);
      var at: nat;
      if objs[id].headerDone {
        at := PositionOf(id);
        PartialIsAtFront(list, objs, at);
      } else {
        at := ClearPending(id);
      }
      item := ReadItem(at);
      if item.Some? {
        AfterItemStarts(o);
        HandOut(id);
      } else {
        EndedAccounted(o);
      }
    }

    /** An object after the front of its pending list was handed out. */
    lemma PoppedIsRight(o: Reply)
      requires Wired(o) && o.pending != []
      ensures Wired(Popped(o)) && LooksSame(o, Popped(o)) && (Accounted(o) ==> Accounted(Popped(o)))
    {
      hide Encode, EncodeItems, Fits, Meaning;
    }

    /** Pops the front of the pending list. */
    method TakePending(id: nat) returns (item: Option<Item>)
      requires Valid() && id in objs && objs[id].pending != []
      modifies `objs
      ensures Valid() && item == Some(old(objs)[id].pending[0])
      ensures objs == old(objs)[id := Popped(old(objs)[id])]
    {
      ConnectedIsListed(list, objs, id);
      PoppedIsRight(objs[id]);
      BooksKept(objs, id, Popped(objs[id]));
      hide InSync, OwesAll, Encode, Partial, Linked, Wired, Owes, Books, Accounted, LooksSame;
      SameText(stream, list, objs, id, Popped(objs[id]));
      item := Some(objs[id].pending[0]);
      objs := objs[id := Popped(objs[id])];
    }

    lemma TakenOwesSame(o: Reply)
      ensures var now := o.(taken := o.taken + 1); Owes(now) == Owes(o) && Wired(now) == Wired(o) && Partial(now) == Partial(o)
    {
      hide Fits, Meaning, Encode, EncodeItems;
    }

    /** Books one item as handed out. */
    method HandOut(id: nat)
      requires Core() && id in objs
      modifies `objs
      ensures Core() && objs == old(objs)[id := old(objs)[id].(taken := old(objs)[id].taken + 1)]
    {
      var o := objs[id].(taken := objs[id].taken + 1);
      TakenOwesSame(objs[id]);
      hide InSync, OwesAll, Encode, Partial, Linked, Accounted, Wired, Owes;
      SameText(stream, list, objs, id, o);
      objs := objs[id := o];
    }

    /** iterator_to. */
    method PositionOf(id: nat) returns (at: nat)
      requires id in list
      ensures at < |list| && list[at] == id
    {
      at := 0;
      while list[at] != id
        invariant at < |list| && id !in list[..at]
        decreases |list| - at
      {
        assert list[..at + 1] == list[..at] + [list[at]];
        at := at + 1;
      }
    }

    // ----- copying, assigning and destroying reply objects

    /** The part shared by copy constructors and assignments: dst, which is in no list, takes the place of
        src. */
    method TakePlace(src: nat, dst: nat)
      requires Valid() && src in objs && dst != src && dst !in list
      modifies `list, `objs
      ensures Valid() && objs == Moved(old(objs), src, dst) && list == Replaced(old(list), src, dst)
    {
      ConnectedIsListed(list, objs, src);
      BooksMoved(objs, src, dst);
      MovedKeeps(stream, list, objs, src, dst);
      hide Linked, InSync, Books, Replaced, MovedFrom;
      list, objs := Replaced(list, src, dst), Moved(objs, src, dst);
    }

    /** The copy constructors: the new object stands for the source's response from now on. */
    method Copy(src: nat, id: nat)
      requires Valid() && src in objs && id !in objs
      modifies `list, `objs
      ensures Valid() && objs == old(objs)[src := MovedFrom(old(objs)[src])][id := old(objs)[src]]
      ensures var o := old(objs)[src];
              && objs[id] == o && !objs[src].conn && objs[src].stored == o.stored
              && (o.kind.EnumeratorKind? ==> objs[src].pending == [])
              && (!o.kind.EnumeratorKind? && !o.conn ==> objs[src] == o)
    {
      AllAreWired(list, objs);
      MovedFromKeeps(objs[src]);
      hide Linked, InSync, Books, MovedFrom, Wired;
      TakePlace(src, id);
    }

    /** Assignment of scalar replies: the target's own reply is read first. */
    method Assign(dst: nat, src: nat) returns (ghost mid: Objects)
      requires Valid() && src in objs && dst in objs
      requires objs[src].kind == objs[dst].kind && !objs[dst].kind.EnumeratorKind?
      modifies this
      ensures Valid() && ResultReads(old(objs), mid, dst) && src in mid
      ensures objs == if dst == src then mid else Moved(mid, src, dst)
      ensures dst != src ==> objs[dst] == mid[src] && !objs[src].conn && objs[src].stored == mid[src].stored
                             && (!mid[src].conn ==> objs[src] == mid[src])
    {
      hide Linked, InSync, Books, MovedFrom, Wired, Drained, Meaning, Replaced;
      DrainedKind(objs[src]);
      var _ := Result(dst);
      ConnectedIsListed(list, objs, dst);
      mid := objs;
      if dst != src {
        MovedFromKeeps(mid[src]);
        TakePlace(src, dst);
      }
    }

    /** Takes an object out of the list and the store. */
    method Forget(id: nat)
      requires Core() && id in objs
      modifies `list, `objs
      ensures objs == old(objs) - {id} && Linked(list, objs) && id !in list
      ensures Core() <==> OwesOf(old(objs), id) == ""
    {
      ConnectedIsListed(list, objs, id);
      OwesEnough(objs[id]);
      if id in list {
        var at := PositionOf(id);
        RemovedLinked(list, objs, at);
        WithoutLacks(list, at);
        RemovedText(stream, list, objs, at);
        hide Linked, InSync, Wired, Owes, Without, Partial;
        list, objs := Without(list, at), objs - {id};
      } else {
        RemovedUnlisted(stream, list, objs, id);
        hide Linked, InSync, Wired, Owes, Partial;
        objs := objs - {id};
      }
    }

    /** The loop of the enumerator's destructor: next() until the end, or until it throws at a null item. */
    method DiscardUnread(id: nat) returns (threw: bool)
      requires Valid() && id in objs && objs[id].kind.EnumeratorKind? && objs[id].conn && objs[id].headerDone
      modifies this
      ensures Core() && id in objs && objs == old(objs)[id := objs[id]]
      ensures OwesOf(objs, id) == "" <==> EndsCleanly(old(objs)[id])
      ensures threw <==> !NoNullLeft(old(objs)[id])
      ensures if threw then ReadFrom(old(objs)[id], objs[id]) else objs[id] == Ended(old(objs)[id])
    {
      ConnectedIsListed(list, objs, id);
      var at := PositionOf(id);
      PartialIsAtFront(list, objs, at);
      ghost var o, cur, seen: seq<Item> := objs[id], objs[id], [];
      ReadSoFarBegins(o);
      hide InSync, OwesAll, Owes, Encode, Partial, Linked, Wired, AtFront, Start, Items, AfterItem, Ended, ReadSoFar,
           EndsCleanly, NoNullLeft, Books, Without, ReadFrom;
      while true
        invariant Core() && list == old(list) && AtFront(list, objs, at)
        invariant objs == old(objs)[id := cur] && ReadSoFar(o, cur, seen) && forall x | x in seen :: x.Some?
        decreases |Items(o)| - |seen|
      {
        ListedIsWired(list, objs, at);
        ReadSoFarGoesOn(o, cur, seen);
        DiscardGoesOn(o, cur, seen);
        var item := ReadItem(at);
        if item.None? {
          UpdatedTwice(old(objs), id, cur, Ended(cur));
          EndedOwesNothing(cur);
          return false;
        }
        UpdatedTwice(old(objs), id, cur, AfterItem(cur));
        if item.value.None? {
          AfterLastItem(cur);
          ReadFromNext(o, cur, seen);
          return true;
        }
        seen, cur := seen + [item.value], AfterItem(cur);
      }
    }

    lemma EndedOwesNothing(o: Reply)
      ensures Owes(Ended(o)) == ""
    {
    }

    /** The destructors. The connection stays in step exactly when the object had been read, or its unread
        items, but for the last one, are not null. */
    method Destroy(id: nat)
      requires Valid() && id in objs
      modifies this
      ensures objs.Keys == old(objs).Keys - {id}
      ensures forall x | x in objs :: objs[x] == Destroyed(old(objs), id, x)
      ensures Valid() <==> EndsCleanly(old(objs)[id])
    {
      if !objs[id].kind.EnumeratorKind? {
        DestroyScalar(id);
      } else {
        DestroyEnumerator(id);
      }
    }

    method DestroyEnumerator(id: nat)
      requires Valid() && id in objs && objs[id].kind.EnumeratorKind?
      modifies this
      ensures objs == old(objs) - {id} && (Valid() <==> EndsCleanly(old(objs)[id]))
    {
      ConnectedIsListed(list, objs, id);
      BooksWithout(objs, id);
      if objs[id].conn && objs[id].count > 0 {
        hide Linked, InSync, Wired, Owes, Books, NoNullLeft, EndsCleanly, ReadFrom, Ended;
        var _ := DiscardUnread(id);
      } else {
        NothingToDiscard(objs[id]);
      }
      hide Linked, InSync, Wired, Owes, Books;
      RemovedUpdated(old(objs), id, objs[id]);
      Forget(id);
    }

    method DestroyScalar(id: nat)
      requires Valid() && id in objs && !objs[id].kind.EnumeratorKind?
      modifies this
      ensures objs.Keys == old(objs).Keys - {id} && Valid()
      ensures forall x | x in objs :: objs[x] == Destroyed(old(objs), id, x)
    {
      hide Linked, InSync, Drained, Accounted, Owes;
      var _ := Result(id);
      DoneOwesNothing(id);
      Forget(id);
    }

    lemma DoneOwesNothing(id: nat)
      requires id in objs && !objs[id].conn
      ensures OwesOf(objs, id) == ""
    {
    }

    /** Another object after one was destroyed: a scalar still reads what was sent before it. */
    ghost function Destroyed(was: Objects, id: nat, x: nat): Reply
      requires id in was && x in was
    {
      if !was[id].kind.EnumeratorKind? && was[id].conn && was[x].conn && was[x].place < was[id].place
      then Drained(was[x]) else was[x]
    }

    /** Books the items that were read and thrown away. */
    method BookDiscarded(id: nat)
      requires Core() && id in objs
      modifies `objs
      ensures Core() && objs == old(objs)[id := Booked(old(objs)[id])]
    {
      ConnectedIsListed(list, objs, id);
      BookedIsRight(objs[id]);
      hide Linked, InSync, Accounted, Wired, Owes, Partial, Start;
      SameText(stream, list, objs, id, Booked(objs[id]));
      objs := objs[id := Booked(objs[id])];
    }

    /** dst drops what it stood for and takes src's place, without its pending items. */
    method ReplaceBy(dst: nat, src: nat)
      requires Core() && src in objs && dst in objs && dst != src && Accounted(objs[src])
      requires objs[src].kind.EnumeratorKind? && forall x | x in objs && x != dst :: Accounted(objs[x])
      modifies `list, `objs
      ensures objs == old(objs)[src := AssignedFrom(old(objs)[src])][dst := AssignedTo(old(objs)[src])]
      ensures Core() <==> OwesOf(old(objs), dst) == ""
      ensures Books(objs) <==> old(objs)[src].pending == []
    {
      var s := objs[src];
      ConnectedIsListed(list, objs, src);
      PendingHidden(stream, list, objs, src, AssignedTo(s));
      AssignedBooks(objs, src, dst, s);
      AssignedMap(objs, src, dst);
      hide Linked, InSync, Books, Accounted, Wired, Owes, Partial, Replaced;
      assert OwesOf(objs[src := AssignedTo(s)], dst) == OwesOf(objs, dst);
      objs := objs[src := AssignedTo(s)];
      Forget(dst);
      MovedKeeps(stream, list, objs, src, dst);
      list, objs := Replaced(list, src, dst), Moved(objs, src, dst);
      PendingHidden(stream, list, objs, src, AssignedFrom(s));
      objs := objs[src := AssignedFrom(s)];
    }

    /** The target's part of an assignment: its unread items are read and thrown away, unless a null one
        stops that. */
    method DiscardBeforeAssign(dst: nat) returns (threw: bool)
      requires Valid() && dst in objs && objs[dst].kind.EnumeratorKind?
      modifies this
      ensures threw <==> old(objs)[dst].conn && old(objs)[dst].headerDone && !NoNullLeft(old(objs)[dst])
      ensures dst in objs && objs == old(objs)[dst := objs[dst]] && Core()
      ensures threw ==> Valid() && SameReply(old(objs)[dst], objs[dst])
      ensures !threw ==> (OwesOf(objs, dst) == "" <==> !old(objs)[dst].conn || old(objs)[dst].headerDone)
      ensures !threw ==> var o := old(objs)[dst]; objs[dst] == if o.conn && o.count > 0 then Ended(o) else o
    {
      threw := false;
      ghost var o := objs[dst];
      ConnectedIsListed(list, objs, dst);
      EndedOwesNothing(o);
      if o.conn ==> o.count == 0 { NothingToDiscard(o); } else { DiscardNeedsHeader(o); }
      hide Linked, InSync, Accounted, Books, Wired, Owes, NoNullLeft, Start, Items, EndsCleanly, ReadFrom, Ended, Booked;
      if objs[dst].conn && objs[dst].count > 0 {
        threw := DiscardUnread(dst);
        if threw {
          ConnectedIsListed(list, objs, dst);
          DiscardedBooks(old(objs), dst, objs[dst]);
          BookDiscarded(dst);
        }
      }
    }

    /** Assignment of enumerators. Unless it throws, list and stream stay in step exactly when the target was
        done or its header had been read, and no item is lost exactly when the source had none pending. */
    method AssignEnumerator(dst: nat, src: nat) returns (threw: bool)
      requires Valid() && src in objs && dst in objs && dst != src
      requires objs[src].kind.EnumeratorKind? && objs[dst].kind.EnumeratorKind?
      modifies this
      ensures threw <==> old(objs)[dst].conn && old(objs)[dst].headerDone && !NoNullLeft(old(objs)[dst])
      ensures threw ==> Valid() && dst in objs && objs == old(objs)[dst := objs[dst]] && SameReply(old(objs)[dst], objs[dst])
      ensures !threw ==> objs == old(objs)[src := AssignedFrom(old(objs)[src])][dst := AssignedTo(old(objs)[src])]
      ensures !threw ==> objs[dst] == old(objs)[src].(pending := [])
                         && objs[src].pending == old(objs)[src].pending && !objs[src].conn
      ensures !threw ==> (Core() <==> !old(objs)[dst].conn || old(objs)[dst].headerDone)
      ensures !threw ==> (Books(objs) <==> old(objs)[src].pending == [])
    {
      SourceKeeps(objs[src]);
      hide Linked, InSync, Accounted, OwesOf, NoNullLeft, AssignedFrom, AssignedTo;
      ghost var was := objs;
      threw := DiscardBeforeAssign(dst);
      if !threw {
        UpdatedPair(was, objs[dst], dst, src);
        ReplaceBy(dst, src);
      }
    }

    lemma SourceKeeps(o: Reply)
      ensures AssignedTo(o) == o.(pending := []) && AssignedFrom(o).pending == o.pending && !AssignedFrom(o).conn
    {
    }

    /** An enumerator assigned to itself: unless that throws it gives nothing any more, and stream and other
        objects are untouched. A connected one with no items to count would be asked for its place in the list
        it has just left, which is undefined. */
    method AssignToItself(id: nat) returns (threw: bool)
      requires Valid() && id in objs && objs[id].kind.EnumeratorKind? && (objs[id].conn ==> objs[id].count > 0)
      modifies this
      ensures Valid() && (threw <==> old(objs)[id].conn && !NoNullLeft(old(objs)[id]))
      ensures threw ==> id in objs && objs == old(objs)[id := objs[id]] && SameReply(old(objs)[id], objs[id])
      ensures !threw ==> var o := old(objs)[id]; objs == old(objs)[id := MovedFrom(if o.conn then Ended(o) else o)]
    {
      ghost var o, was := objs[id], objs;
      ConnectedIsListed(list, objs, id);
      if o.conn { DiscardNeedsHeader(o); }
      threw := DiscardBeforeAssign(id);
      if !threw {
        EmptiedIsRight(was, objs[id], id);
        hide Linked, InSync, Accounted, Wired, Books, NoNullLeft, Owes, LooksSame;
        ConnectedIsListed(list, objs, id);
        SameText(stream, list, objs, id, MovedFrom(objs[id]));
        UpdatedTwice(was, id, objs[id], MovedFrom(objs[id]));
        objs := objs[id := MovedFrom(objs[id])];
      }
    }

    lemma EmptiedIsRight(was: Objects, o: Reply, id: nat)
      requires Books(was) && id in was && Wired(o) && !o.conn && o.kind.EnumeratorKind?
      ensures Wired(MovedFrom(o)) && LooksSame(o, MovedFrom(o)) && Books(was[id := MovedFrom(o)])
    {
      assert Accounted(MovedFrom(o));
      BooksKept(was, id, MovedFrom(o));
      hide Books, Accounted;
    }
  }
}
