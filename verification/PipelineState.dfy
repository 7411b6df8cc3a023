/** Lazy replies over one pipelined connection: the objects, and the list of those that still have to read
    from the stream. Objects live in a store and are known by their ids. */
module PipelineState {
  import opened Decimal
  import opened RespReply
  import opened Wrappers

  datatype Kind = VoidKind | BoolKind | IntKind | StringKind | EnumeratorKind

  datatype Value = Flag(flag: bool) | Number(number: int) | Text(item: Item)

  /** A reply object. conn stands for a non-null connection pointer; answer, taken and place are history: the
      response this object stands for, how many of its items were handed out, and where its command stands in
      the order of sending. */
  datatype Reply = Reply(
    kind: Kind, conn: bool, stored: Value,
    headerDone: bool, count: nat, pending: seq<Item>,
    answer: Resp, taken: nat, place: nat)

  /** Responses of the type their command asks for. */
  predicate Fits(kind: Kind, r: Resp) {
    match kind
    case VoidKind => r.Status? && PlainText(r.text)
    case BoolKind => r.Integer?
    case IntKind => r.Integer?
    case StringKind => r.Bulk?
    case EnumeratorKind => r.MultiBulk?
  }

  function Default(kind: Kind): Value {
    match kind
    case VoidKind => Flag(false)
    case BoolKind => Flag(false)
    case IntKind => Number(0)
    case StringKind => Text(Item.None)
    case EnumeratorKind => Flag(false)
  }

  /** What the caller of result() should get. */
  function Meaning(kind: Kind, r: Resp): Value {
    if !Fits(kind, r) then Default(kind)
    else match kind
      case VoidKind => Flag(true)
      case BoolKind => Flag(r.number > 0)
      case IntKind => Number(r.number)
      case StringKind => Text(r.item)
      case EnumeratorKind => Default(kind)
  }

  function Fresh(kind: Kind, r: Resp, place: nat): Reply {
    Reply(kind, true, Default(kind), false, 0, [], r, 0, place)
  }

  /** A default-constructed object. */
  function Empty(kind: Kind): Reply {
    Reply(kind, false, Default(kind), false, 0, [], Nothing, 0, 0)
  }

  // ----- one object

  function Items(o: Reply): seq<Item> { if o.answer.MultiBulk? then o.answer.items else [] }

  /** How many items have been read from the stream. */
  function Start(o: Reply): (n: nat)
    ensures n <= |Items(o)|
  {
    if !o.conn then |Items(o)| else if o.headerDone && o.count <= |Items(o)| then |Items(o)| - o.count else 0
  }

  predicate Wired(o: Reply) {
    && (o.conn ==> !o.answer.Nothing?)
    && (o.answer.Nothing? || Fits(o.kind, o.answer))
    && (if o.kind.EnumeratorKind?
        then (o.conn ==> o.pending == [] && (o.headerDone || o.count == 0)) && (o.answer.MultiBulk? ==> o.count <= |o.answer.items|)
        else o.stored == if o.conn then Default(o.kind) else Meaning(o.kind, o.answer))
  }

  /** Handed out, waiting in pending, and unread make up the response, in this order. */
  predicate Accounted(o: Reply) {
    o.taken + |o.pending| == Start(o) && o.pending == Items(o)[o.taken..Start(o)]
  }

  /** The text of the stream that belongs to this object. */
  function Owes(o: Reply): string {
    if !o.conn then ""
    else if o.kind.EnumeratorKind? && o.headerDone then EncodeItems(Items(o)[Start(o)..])
    else Encode(o.answer)
  }

  // ----- a list of them

  type Objects = map<nat, Reply>

  function OwesOf(objs: Objects, id: nat): string {
    if id in objs then Owes(objs[id]) else ""
  }

  function OwesAll(list: seq<nat>, objs: Objects): string {
    if list == [] then "" else OwesOf(objs, list[0]) + OwesAll(list[1..], objs)
  }

  predicate Distinct(list: seq<nat>) { forall i, j :: 0 <= i < j < |list| ==> list[i] != list[j] }

  lemma {:induction false} OwesSameLists(s: seq<nat>, t: seq<nat>, a: Objects, b: Objects)
    requires |s| == |t| && forall i | 0 <= i < |s| :: OwesOf(a, s[i]) == OwesOf(b, t[i])
    ensures OwesAll(s, a) == OwesAll(t, b)
    decreases |s|
  {
    hide OwesOf;
    if s != [] { OwesSameLists(s[1..], t[1..], a, b); }
  }

  lemma OwesSame(list: seq<nat>, a: Objects, b: Objects)
    requires forall i | 0 <= i < |list| :: OwesOf(a, list[i]) == OwesOf(b, list[i])
    ensures OwesAll(list, a) == OwesAll(list, b)
  {
    hide OwesOf, OwesAll;
    OwesSameLists(list, list, a, b);
  }

  lemma {:induction false} OwesSplit(a: seq<nat>, b: seq<nat>, objs: Objects)
    ensures OwesAll(a + b, objs) == OwesAll(a, objs) + OwesAll(b, objs)
    decreases |a|
  {
    hide OwesOf;
    if a == [] {
      assert a + b == b;
    } else {
      assert (a + b)[0] == a[0] && (a + b)[1..] == a[1..] + b;
      OwesSplit(a[1..], b, objs);
    }
  }

  lemma OwesAround(a: seq<nat>, id: nat, b: seq<nat>, objs: Objects)
    ensures OwesAll(a + [id] + b, objs) == OwesAll(a, objs) + OwesOf(objs, id) + OwesAll(b, objs)
  {
    hide OwesOf;
    OwesSplit(a + [id], b, objs);
    OwesSplit(a, [id], objs);
    assert [id][1..] == [];
    assert OwesAll([id], objs) == OwesOf(objs, id);
  }

  lemma {:induction false} OwesNothing(list: seq<nat>, objs: Objects)
    requires forall i | 0 <= i < |list| :: OwesOf(objs, list[i]) == ""
    ensures OwesAll(list, objs) == ""
    decreases |list|
  {
    hide OwesOf;
    if list != [] { OwesNothing(list[1..], objs); }
  }

  function Without(list: seq<nat>, i: nat): seq<nat>
    requires i < |list|
  {
    list[..i] + list[i + 1..]
  }

  lemma WithoutKeeps(list: seq<nat>, i: nat)
    requires i < |list|
    ensures forall x | x in list && x != list[i] :: x in Without(list, i)
    ensures Without(list, i)[..i] == list[..i]
  {
    forall x | x in list && x != list[i] ensures x in Without(list, i) {
      var k :| 0 <= k < |list| && list[k] == x;
      assert Without(list, i)[if k < i then k else k - 1] == x;
    }
  }

  lemma WithoutLacks(list: seq<nat>, i: nat)
    requires Distinct(list) && i < |list|
    ensures list[i] !in Without(list, i)
  {
  }

  /** Everything before position i has been read. */
  ghost predicate Clear(list: seq<nat>, objs: Objects, i: nat) {
    i <= |list| && forall j | 0 <= j < i :: OwesOf(objs, list[j]) == ""
  }

  ghost predicate AtFront(list: seq<nat>, objs: Objects, i: nat) { i < |list| && Clear(list, objs, i) }

  lemma FrontOwes(list: seq<nat>, objs: Objects, i: nat)
    requires AtFront(list, objs, i)
    ensures OwesAll(list, objs) == OwesOf(objs, list[i]) + OwesAll(list[i + 1..], objs)
  {
    hide OwesOf;
    assert list == list[..i] + [list[i]] + list[i + 1..];
    OwesAround(list[..i], list[i], list[i + 1..], objs);
    OwesNothing(list[..i], objs);
    assert "" + OwesOf(objs, list[i]) == OwesOf(objs, list[i]);
  }

  /** Replacing the object at the front of the stream replaces its text. */
  lemma FrontReplaced(list: seq<nat>, objs: Objects, i: nat, o: Reply)
    requires AtFront(list, objs, i) && Distinct(list)
    ensures AtFront(list, objs[list[i] := o], i)
    ensures OwesAll(list, objs[list[i] := o]) == Owes(o) + OwesAll(list[i + 1..], objs)
  {
    hide Owes;
    var now := objs[list[i] := o];
    assert forall j :: 0 <= j < |list| && j != i ==> OwesOf(now, list[j]) == OwesOf(objs, list[j]);
    FrontOwes(list, now, i);
    OwesSame(list[i + 1..], objs, now);
  }

  /** An object that owes nothing can be unlinked. */
  lemma Unlinked(list: seq<nat>, objs: Objects, i: nat)
    requires i < |list| && OwesOf(objs, list[i]) == ""
    ensures OwesAll(Without(list, i), objs) == OwesAll(list, objs)
  {
    hide OwesOf;
    var a, b := list[..i], list[i + 1..];
    assert list == a + [list[i]] + b;
    OwesAround(a, list[i], b, objs);
    OwesSplit(a, b, objs);
  }

  // ----- the invariant

  predicate Partial(o: Reply) { o.kind.EnumeratorKind? && o.headerDone }

  /** The list holds exactly the connected objects. */
  ghost predicate Listed(list: seq<nat>, objs: Objects) {
    && Distinct(list)
    && (forall i | 0 <= i < |list| :: list[i] in objs && objs[list[i]].conn)
    && (forall id | id in objs && objs[id].conn :: id in list)
  }

  /** Only objects with nothing unread before them have been read in part. */
  ghost predicate PartialInFront(list: seq<nat>, objs: Objects) {
    forall i | 0 <= i < |list| && list[i] in objs && Partial(objs[list[i]]) :: Clear(list, objs, i)
  }

  /** The list is in the order of sending. */
  ghost predicate InOrder(list: seq<nat>, objs: Objects) {
    forall i, j | 0 <= i < j < |list| && list[i] in objs && list[j] in objs :: objs[list[i]].place < objs[list[j]].place
  }

  ghost predicate Linked(list: seq<nat>, objs: Objects) {
    && (forall id | id in objs :: Wired(objs[id]))
    && Listed(list, objs) && InOrder(list, objs) && PartialInFront(list, objs)
  }

  lemma OrderSame(list: seq<nat>, a: Objects, b: Objects)
    requires InOrder(list, a)
    requires forall i | 0 <= i < |list| && list[i] in b :: list[i] in a && a[list[i]].place == b[list[i]].place
    ensures InOrder(list, b)
  {
  }

  lemma OrderWithout(list: seq<nat>, objs: Objects, i: nat)
    requires InOrder(list, objs) && i < |list|
    ensures InOrder(Without(list, i), objs)
  {
    var rest := Without(list, i);
    assert forall k :: 0 <= k < |rest| ==> rest[k] == list[if k < i then k else k + 1];
  }

  /** The stream is a line ending left over by the last read, and the text of the outstanding replies. */
  ghost predicate InSync(stream: string, list: seq<nat>, objs: Objects) {
    AfterLeftover(stream, OwesAll(list, objs))
  }

  ghost predicate AfterLeftover(stream: string, text: string) {
    exists left :: IsLeftover(left) && stream == left + text
  }

  lemma AfterLeftoverGrows(stream: string, text: string, more: string)
    requires AfterLeftover(stream, text)
    ensures AfterLeftover(stream + more, text + more)
  {
    hide IsLeftover;
    var left :| IsLeftover(left) && stream == left + text;
    assert stream + more == left + (text + more);
  }

  lemma ListedIsWired(list: seq<nat>, objs: Objects, i: nat)
    requires Linked(list, objs) && i < |list|
    ensures list[i] in objs && objs[list[i]].conn && Wired(objs[list[i]])
  {
  }

  lemma AllAreWired(list: seq<nat>, objs: Objects)
    requires Linked(list, objs)
    ensures forall id | id in objs :: Wired(objs[id])
    ensures forall id | id in list :: id in objs
  {
  }

  lemma ConnectedIsListed(list: seq<nat>, objs: Objects, id: nat)
    requires Linked(list, objs) && id in objs
    ensures Wired(objs[id]) && (objs[id].conn <==> id in list)
  {
  }

  lemma PartialIsAtFront(list: seq<nat>, objs: Objects, i: nat)
    requires Linked(list, objs) && i < |list| && list[i] in objs && Partial(objs[list[i]])
    ensures AtFront(list, objs, i)
  {
  }

  lemma ClearAfter(list: seq<nat>, objs: Objects, i: nat, o: Reply)
    requires Linked(list, objs) && AtFront(list, objs, i) && Owes(o) == ""
    ensures Clear(Without(list, i), objs[list[i] := o], i) && Clear(list, objs[list[i] := o], i + 1)
  {
    hide Owes, Wired, Partial;
  }

  /** An object may change as long as it stays linked or unlinked and owes the same text. */
  lemma SameText(stream: string, list: seq<nat>, objs: Objects, id: nat, o: Reply)
    requires Linked(list, objs) && InSync(stream, list, objs) && id in objs && Wired(o) && LooksSame(objs[id], o)
    ensures Linked(list, objs[id := o]) && InSync(stream, list, objs[id := o])
  {
    hide Owes, Wired, Partial, InOrder, Listed, PartialInFront, AfterLeftover, LooksSame;
    LooksSameLinked(list, objs, id, o);
  }

  /** Nothing the list or the stream depends on differs. */
  predicate LooksSame(was: Reply, o: Reply) {
    o.conn == was.conn && Owes(o) == Owes(was) && (Partial(o) ==> Partial(was)) && o.place == was.place
  }

  lemma LooksSameLinked(list: seq<nat>, objs: Objects, id: nat, o: Reply)
    requires Linked(list, objs) && id in objs && Wired(o) && LooksSame(objs[id], o)
    ensures Linked(list, objs[id := o]) && OwesAll(list, objs[id := o]) == OwesAll(list, objs)
  {
    hide Owes, Wired, Partial, InOrder, PartialInFront, OwesAll;
    OrderSame(list, objs, objs[id := o]);
    assert forall x :: OwesOf(objs[id := o], x) == OwesOf(objs, x);
    OwesSame(list, objs, objs[id := o]);
    PartialSame(list, objs, id, o);
    hide OwesOf, LooksSame;
  }

  lemma PartialSame(list: seq<nat>, objs: Objects, id: nat, o: Reply)
    requires PartialInFront(list, objs) && id in objs && LooksSame(objs[id], o)
    ensures PartialInFront(list, objs[id := o])
  {
    hide Owes, Partial;
    var now := objs[id := o];
    forall i | 0 <= i < |list| && list[i] in now && Partial(now[list[i]]) ensures Clear(list, now, i) {
      assert Clear(list, objs, i);
    }
  }

  lemma Appended(stream: string, list: seq<nat>, objs: Objects, id: nat, o: Reply)
    requires Linked(list, objs) && InSync(stream, list, objs)
    requires id !in objs && Wired(o) && o.conn && !Partial(o)
    requires forall x | x in list && x in objs :: objs[x].place < o.place
    ensures Linked(list + [id], objs[id := o]) && InSync(stream + Owes(o), list + [id], objs[id := o])
  {
    InSyncAppended(stream, list, objs, id, o);
    ListedAppended(list, objs, id, o);
    OrderAppended(list, objs, id, o);
    hide Owes, Wired, Partial, Listed, PartialInFront, InOrder, InSync;
  }

  lemma OrderAppended(list: seq<nat>, objs: Objects, id: nat, o: Reply)
    requires InOrder(list, objs) && id !in objs && forall x | x in list && x in objs :: objs[x].place < o.place
    requires forall i | 0 <= i < |list| :: list[i] in objs
    ensures InOrder(list + [id], objs[id := o])
  {
  }

  lemma InSyncAppended(stream: string, list: seq<nat>, objs: Objects, id: nat, o: Reply)
    requires InSync(stream, list, objs) && id !in list
    ensures InSync(stream + Owes(o), list + [id], objs[id := o])
  {
    AppendedText(list, objs, id, o);
    hide Owes, OwesAll, AfterLeftover;
    AfterLeftoverGrows(stream, OwesAll(list, objs), Owes(o));
  }

  lemma ListedAppended(list: seq<nat>, objs: Objects, id: nat, o: Reply)
    requires Listed(list, objs) && PartialInFront(list, objs) && id !in objs && o.conn && !Partial(o)
    ensures Listed(list + [id], objs[id := o]) && PartialInFront(list + [id], objs[id := o])
  {
    hide Owes, Partial;
    var longer, now := list + [id], objs[id := o];
    assert forall x :: x in list ==> x in longer;
    forall i | 0 <= i < |longer| && longer[i] in now && Partial(now[longer[i]]) ensures Clear(longer, now, i) {
      assert Clear(list, objs, i);
    }
  }

  lemma AppendedText(list: seq<nat>, objs: Objects, id: nat, o: Reply)
    requires id !in list
    ensures OwesAll(list + [id], objs[id := o]) == OwesAll(list, objs) + Owes(o)
  {
    hide Owes;
    var now := objs[id := o];
    assert forall i :: 0 <= i < |list| ==> OwesOf(now, list[i]) == OwesOf(objs, list[i]);
    OwesSame(list, objs, now);
    OwesAround(list, id, [], now);
    assert list + [id] + [] == list + [id];
  }

  /** Reading the object at the front, or the first part of it. */
  lemma FrontRead(list: seq<nat>, objs: Objects, i: nat, o: Reply, left: string)
    requires Linked(list, objs) && AtFront(list, objs, i) && IsLeftover(left)
    requires Wired(o) && o.conn && (Owes(objs[list[i]]) != "" || Owes(o) == "") && o.place == objs[list[i]].place
    ensures Linked(list, objs[list[i] := o]) && AtFront(list, objs[list[i] := o], i)
    ensures InSync(left + (Owes(o) + OwesAll(list[i + 1..], objs)), list, objs[list[i] := o])
  {
    FrontLinked(list, objs, i, o);
    hide Owes, Wired, Partial, InOrder, PartialInFront, OwesAll, IsLeftover;
    FrontReplaced(list, objs, i, o);
  }

  lemma FrontLinked(list: seq<nat>, objs: Objects, i: nat, o: Reply)
    requires Linked(list, objs) && AtFront(list, objs, i)
    requires Wired(o) && o.conn && (Owes(objs[list[i]]) != "" || Owes(o) == "") && o.place == objs[list[i]].place
    ensures Linked(list, objs[list[i] := o])
  {
    hide Owes, Wired, Partial, InOrder, OwesAll;
    OrderSame(list, objs, objs[list[i] := o]);
  }

  /** Unlinking an object that needs nothing more from the stream. */
  lemma LinkedWithout(list: seq<nat>, objs: Objects, i: nat, o: Reply)
    requires Linked(list, objs) && i < |list| && Wired(o) && !o.conn
    ensures Linked(Without(list, i), objs[list[i] := o])
  {
    hide Owes, Wired, Partial, PartialInFront, InOrder;
    ListedWithout(list, objs, i, o);
    PartialWithout(list, objs, i, o);
    OrderWithout(list, objs, i);
    WithoutLacks(list, i);
    OrderSame(Without(list, i), objs, objs[list[i] := o]);
  }

  lemma ListedWithout(list: seq<nat>, objs: Objects, i: nat, o: Reply)
    requires Listed(list, objs) && i < |list| && !o.conn
    ensures Listed(Without(list, i), objs[list[i] := o])
  {
    var rest := Without(list, i);
    assert forall k :: 0 <= k < |rest| ==> rest[k] == list[if k < i then k else k + 1];
    WithoutKeeps(list, i);
  }

  lemma PartialWithout(list: seq<nat>, objs: Objects, i: nat, o: Reply)
    requires PartialInFront(list, objs) && Distinct(list) && i < |list| && !o.conn
    ensures PartialInFront(Without(list, i), objs[list[i] := o])
  {
    hide Owes, Partial;
    var now, rest := objs[list[i] := o], Without(list, i);
    forall k | 0 <= k < |rest| && rest[k] in now && Partial(now[rest[k]]) ensures Clear(rest, now, k) {
      var m := if k < i then k else k + 1;
      assert rest[k] == list[m] && Clear(list, objs, m);
      forall j | 0 <= j < k ensures OwesOf(now, rest[j]) == "" {
        assert rest[j] == list[if j < i then j else j + 1];
      }
    }
  }

  /** Finishing and unlinking the object at the front. */
  lemma FrontDone(list: seq<nat>, objs: Objects, i: nat, o: Reply, left: string)
    requires Linked(list, objs) && AtFront(list, objs, i) && IsLeftover(left)
    requires Wired(o) && !o.conn
    ensures Linked(Without(list, i), objs[list[i] := o])
    ensures InSync(left + OwesAll(list[i + 1..], objs), Without(list, i), objs[list[i] := o])
  {
    assert Owes(o) == "";
    hide Owes, Wired, Partial;
    LinkedWithout(list, objs, i, o);
    FrontReplaced(list, objs, i, o);
    Unlinked(list, objs[list[i] := o], i);
    assert "" + OwesAll(list[i + 1..], objs) == OwesAll(list[i + 1..], objs);
  }

  /** Unlinking an object that has nothing to read. */
  lemma FrontEnds(stream: string, list: seq<nat>, objs: Objects, i: nat, o: Reply)
    requires Linked(list, objs) && AtFront(list, objs, i) && InSync(stream, list, objs)
    requires OwesOf(objs, list[i]) == "" && Wired(o) && !o.conn
    ensures Linked(Without(list, i), objs[list[i] := o]) && InSync(stream, Without(list, i), objs[list[i] := o])
  {
    hide Linked, Without, Wired, OwesAll, OwesOf;
    var left :| IsLeftover(left) && stream == left + OwesAll(list, objs);
    FrontOwes(list, objs, i);
    assert "" + OwesAll(list[i + 1..], objs) == OwesAll(list[i + 1..], objs);
    FrontDone(list, objs, i, o, left);
  }

  /** An enumerator after one more item, and after the end. */
  function AfterItem(o: Reply): Reply
    requires Start(o) < |Items(o)|
  {
    o.(headerDone := true, count := |Items(o)| - Start(o) - 1)
  }

  /** An item was taken from the pending ones. */
  function Popped(o: Reply): Reply { if o.pending == [] then o else o.(pending := o.pending[1..], taken := o.taken + 1) }

  function Ended(o: Reply): Reply { o.(headerDone := true, count := 0, conn := false) }

  function WithHeader(o: Reply): Reply { if o.headerDone then o else o.(headerDone := true, count := |Items(o)|) }

  lemma HeaderFirst(o: Reply)
    requires Wired(o) && o.conn && o.kind.EnumeratorKind?
    ensures var h := WithHeader(o);
            && h.conn && h.headerDone && h.kind == o.kind && Items(h) == Items(o) && Start(h) == Start(o)
            && (h.count == 0 <==> Start(o) == |Items(o)|)
            && (h.count == 0 ==> h.(conn := false) == Ended(o))
            && (h.count > 0 ==> h.(count := h.count - 1) == AfterItem(o))
  {
  }

  lemma AfterItemStarts(o: Reply)
    requires o.conn && Start(o) < |Items(o)|
    ensures Start(AfterItem(o)) == Start(o) + 1 && Items(AfterItem(o)) == Items(o) && AfterItem(o).conn
    ensures Accounted(o) && o.pending == [] ==> Accounted(AfterItem(o).(taken := o.taken + 1))
  {
    StartAfterItem(o);
    hide Start, Items, AfterItem;
    assert AfterItem(o).(taken := o.taken + 1).pending == o.pending by { PendingAfterItem(o); }
    var next := AfterItem(o).(taken := o.taken + 1);
    if Accounted(o) && o.pending == [] { SlicesNothing(Items(next), next.taken); }
  }

  lemma PendingAfterItem(o: Reply)
    requires o.conn && Start(o) < |Items(o)|
    ensures AfterItem(o).pending == o.pending
  {
  }

  lemma StartAfterItem(o: Reply)
    requires o.conn && Start(o) < |Items(o)|
    ensures Start(AfterItem(o)) == Start(o) + 1 && Items(AfterItem(o)) == Items(o) && AfterItem(o).conn
    ensures var next := AfterItem(o).(taken := o.taken + 1);
            Items(next) == Items(o) && Start(next) == Start(o) + 1
  {
  }

  lemma SlicesNothing(items: seq<Item>, k: nat)
    ensures k <= |items| ==> items[k..k] == []
  {
  }

  lemma EndedAccounted(o: Reply)
    requires Accounted(o) && Start(o) == |Items(o)|
    ensures Accounted(Ended(o))
  {
  }

  lemma FinishedOwesNothing(o: Reply)
    requires Wired(o) && o.conn && o.kind.EnumeratorKind? && o.headerDone && o.count == 0
    ensures Owes(o) == "" && Wired(o.(conn := false))
  {
  }

  lemma HeaderRead(o: Reply)
    requires Wired(o) && o.conn && o.kind.EnumeratorKind? && !o.headerDone
    ensures Owes(o) == Encode(MultiBulk(Items(o))) != ""
    ensures var read := o.(headerDone := true, count := |Items(o)|); Wired(read) && Owes(read) == EncodeItems(Items(o))
  {
    hide EncodeItems, EncodeItem;
    var read := o.(headerDone := true, count := |Items(o)|);
    assert o.answer == MultiBulk(Items(o)) && Items(read) == Items(o) && Start(read) == 0;
    assert Items(o)[0..] == Items(o);
    assert Encode(o.answer)[0] == '*';
  }

  lemma ItemTextNotEmpty(items: seq<Item>)
    requires items != []
    ensures |EncodeItems(items)| >= 4
  {
    assert |EncodeItem(items[0])| >= 4;
  }

  lemma ItemRead(o: Reply)
    requires Wired(o) && o.conn && Partial(o) && o.count > 0
    ensures var unread, read := Items(o)[Start(o)..], o.(count := o.count - 1);
            && |unread| == o.count && unread[0] == Items(o)[Start(o)]
            && Owes(o) == EncodeItems(unread) != "" && Owes(read) == EncodeItems(unread[1..]) && Wired(read)
  {
    hide EncodeItems;
    var unread, read := Items(o)[Start(o)..], o.(count := o.count - 1);
    assert Items(read)[Start(read)..] == unread[1..];
    ItemTextNotEmpty(unread);
  }

  /** What reading a whole reply makes of its object. */
  function Drained(o: Reply): Reply {
    if !o.conn then o
    else if !o.kind.EnumeratorKind? then o.(conn := false, stored := Meaning(o.kind, o.answer))
    else if !o.headerDone || o.count > 0 then DrainedEnumerator(o)
    else o
  }

  function DrainedEnumerator(o: Reply): Reply {
    o.(conn := false, headerDone := true, count := 0, pending := o.pending + Items(o)[Start(o)..])
  }

  /** Reading items of o has made it cur. */
  ghost predicate ReadSoFar(o: Reply, cur: Reply, readPending: seq<Item>) {
    && cur.conn && cur == o.(headerDone := cur.headerDone, count := cur.count)
    && Start(cur) == Start(o) + |readPending| && readPending == Items(o)[Start(o)..Start(cur)]
  }

  lemma ReadSoFarBegins(o: Reply)
    requires o.conn
    ensures ReadSoFar(o, o, [])
  {
  }

  lemma ReadSoFarGoesOn(o: Reply, cur: Reply, readPending: seq<Item>)
    requires ReadSoFar(o, cur, readPending)
    ensures cur.kind == o.kind && cur.conn && |readPending| <= |Items(o)|
    ensures Start(cur) < |Items(cur)| ==>
              && ReadSoFar(o, AfterItem(cur), readPending + [Items(cur)[Start(cur)]])
              && |readPending| < |Items(o)|
    ensures Start(cur) == |Items(cur)| ==>
              Ended(cur) == Ended(o) && readPending == Items(o)[Start(o)..]
  {
    if Start(cur) < |Items(cur)| { AfterItemStarts(cur); }
  }

  lemma DrainedIsRight(o: Reply)
    requires Wired(o)
    ensures Wired(Drained(o)) && Owes(Drained(o)) == ""
    ensures Drained(o).answer == o.answer && Drained(o).taken == o.taken && Drained(o).kind == o.kind
    ensures Accounted(o) ==> Accounted(Drained(o))
  {
    hide Encode, EncodeItems;
    DrainedIsWired(o);
    if Accounted(o) { DrainedIsAccounted(o); }
    hide Wired, Accounted, Fits, Meaning;
    if o.conn && o.kind.EnumeratorKind? && o.headerDone && o.count == 0 { FinishedOwesNothing(o); }
  }

  lemma DrainedIsWired(o: Reply)
    requires Wired(o)
    ensures Wired(Drained(o))
  {
    hide Fits;
  }

  lemma DrainedIsAccounted(o: Reply)
    requires Wired(o) && Accounted(o)
    ensures Accounted(Drained(o))
  {
    if o.answer.MultiBulk? {
      assert Fits(o.kind, o.answer);
    } else {
      hide Fits, Meaning;
    }
  }

  lemma UpdatedTwice(objs: Objects, id: nat, a: Reply, b: Reply)
    ensures objs[id := a][id := b] == objs[id := b]
  {
  }

  /** The replies sent before that of id have been read to their end; nothing else happened to any other. */
  ghost predicate ReadBefore(was: Objects, now: Objects, id: nat) {
    && id in was && now.Keys == was.Keys
    && forall x | x in was && x != id ::
         now[x] == if was[x].conn && was[x].place < was[id].place then Drained(was[x]) else was[x]
  }

  /** What clearPendingResults has done when rest of the list is still to come: the objects not in it have
      been read. */
  ghost predicate ReadUpTo(was: Objects, now: Objects, rest: seq<nat>, id: nat) {
    && id in was && id in rest && now.Keys == was.Keys && now[id] == was[id]
    && (forall x | x in was :: now[x] == if x in rest then was[x] else Drained(was[x]))
    && (forall x | x in was && x !in rest && was[x].conn :: was[x].place < was[id].place)
  }

  lemma ReadUpToNext(was: Objects, now: Objects, rest: seq<nat>, id: nat)
    requires ReadUpTo(was, now, rest, id) && rest != [] && rest[0] in now && rest[0] !in rest[1..] && id in rest[1..]
    requires now[rest[0]].place < now[id].place
    ensures ReadUpTo(was, now[rest[0] := Drained(now[rest[0]])], rest[1..], id)
  {
    hide Drained;
    assert forall x :: x in rest <==> x == rest[0] || x in rest[1..];
  }

  /** With rest in the order of sending from id on, that is ReadBefore. */
  lemma ReadUpToEnds(was: Objects, now: Objects, rest: seq<nat>, id: nat)
    requires ReadUpTo(was, now, rest, id) && forall x | x in rest && x != id :: x in now && now[id].place < now[x].place
    ensures ReadBefore(was, now, id)
  {
    forall x | x in was && !was[x].conn ensures Drained(was[x]) == was[x] {}
    hide Drained;
  }

  ghost predicate OthersSame(was: Objects, now: Objects, id: nat) {
    now.Keys == was.Keys && forall x | x in was && x != id :: now[x] == was[x]
  }

  lemma OneUpdated(objs: Objects, id: nat, o: Reply)
    requires id in objs
    ensures OthersSame(objs, objs[id := o], id) && OthersSame(objs, objs, id)
  {
  }

  ghost predicate Books(objs: Objects) { forall id | id in objs :: Accounted(objs[id]) }

  lemma BooksKept(objs: Objects, id: nat, o: Reply)
    requires Books(objs) && (id in objs && Accounted(objs[id]) ==> Accounted(o))
    ensures id in objs ==> Books(objs[id := o])
  {
    hide Accounted;
  }

  // ----- reading one reply from the front of the stream

  predicate ScalarFits(o: Reply) { !o.kind.EnumeratorKind? && Fits(o.kind, o.answer) }

  /** The reader of a scalar reply: its value, and what it leaves on the stream. */
  function ReadScalarText(kind: Kind, stream: string): Option<(Value, string)>
    requires !kind.EnumeratorKind?
  {
    match kind
    case VoidKind => (match ReadStatus(stream) case None => Option.None case Some((_, rest)) => Some((Flag(true), rest)))
    case BoolKind => (match ReadInteger(stream) case None => Option.None case Some((n, rest)) => Some((Flag(n > 0), rest)))
    case IntKind => (match ReadInteger(stream) case None => Option.None case Some((n, rest)) => Some((Number(n), rest)))
    case StringKind => (match ReadBulk(stream) case None => Option.None case Some((item, rest)) => Some((Text(item), rest)))
  }

  function LeftBy(kind: Kind): string { if kind.VoidKind? then "\n" else CRLF }

  lemma ScalarReadsBack(left: string, kind: Kind, r: Resp, tail: string)
    requires IsLeftover(left) && !kind.EnumeratorKind? && Fits(kind, r)
    ensures ReadScalarText(kind, left + (Encode(r) + tail)) == Some((Meaning(kind, r), LeftBy(kind) + tail))
  {
    hide ReadStatus, ReadInteger, ReadBulk;
    assert left + (Encode(r) + tail) == left + Encode(r) + tail;
    match kind
    case VoidKind => StatusReadsBack(left, r.text, tail);
    case BoolKind => IntegerReadsBack(left, r.number, tail);
    case IntKind => IntegerReadsBack(left, r.number, tail);
    case StringKind => BulkReadsBack(left, r.item, tail);
  }

  /** Each kind's response on the wire, letter by letter, and what its accessor gives. */
  lemma WireMeanings(left: string, text: string, n: int, tail: string)
    requires IsLeftover(left)
    ensures PlainText(text) ==>
              ReadScalarText(VoidKind, left + "+" + text + "\r\n" + tail) == Some((Flag(true), "\n" + tail))
              && Meaning(VoidKind, Status(text)) == Flag(true)
    ensures var digits := if n < 0 then "-" + Print(-n) else Print(n);
            && ReadScalarText(BoolKind, left + ":" + digits + "\r\n" + tail) == Some((Flag(n > 0), "\r\n" + tail))
            && ReadScalarText(IntKind, left + ":" + digits + "\r\n" + tail) == Some((Number(n), "\r\n" + tail))
            && Meaning(BoolKind, Integer(n)) == Flag(n > 0) && Meaning(IntKind, Integer(n)) == Number(n)
    ensures ReadScalarText(StringKind, left + "$" + Print(|text|) + "\r\n" + text + "\r\n" + tail) ==
            Some((Text(Item.Some(text)), "\r\n" + tail))
    ensures ReadScalarText(StringKind, left + "$-1\r\n" + tail) == Some((Text(Item.None), "\r\n" + tail))
    ensures Meaning(StringKind, Bulk(Item.Some(text))) == Text(Item.Some(text))
            && Meaning(StringKind, Bulk(Item.None)) == Text(Item.None)
  {
    hide Print, ReadStatus, ReadInteger, ReadBulk;
    StatusWire(left, text, tail);
    NumberWire(left, n, tail);
    BulkWire(left, text, tail);
  }

  lemma StatusWire(left: string, text: string, tail: string)
    requires IsLeftover(left)
    ensures PlainText(text) ==> ReadStatus(left + "+" + text + "\r\n" + tail) == Some((text, "\n" + tail))
  {
    if PlainText(text) { StatusReadsBack(left, text, tail); }
    hide ReadStatus;
    ThreeInside(left, "+", text, "\r\n");
  }

  lemma NumberWire(left: string, n: int, tail: string)
    requires IsLeftover(left)
    ensures var digits := if n < 0 then "-" + Print(-n) else Print(n);
            ReadInteger(left + ":" + digits + "\r\n" + tail) == Some((n, "\r\n" + tail))
  {
    IntegerReadsBack(left, n, tail);
    hide ReadInteger, Print;
    ThreeInside(left, ":", PrintInt(n), "\r\n");
  }

  lemma BulkWire(left: string, text: string, tail: string)
    requires IsLeftover(left)
    ensures ReadBulk(left + "$" + Print(|text|) + "\r\n" + text + "\r\n" + tail) == Some((Item.Some(text), "\r\n" + tail))
    ensures ReadBulk(left + "$-1\r\n" + tail) == Some((Item.None, "\r\n" + tail))
  {
    BulkReadsBack(left, Item.Some(text), tail);
    BulkReadsBack(left, Item.None, tail);
    hide ReadBulk, Print;
    var head := "$" + Print(|text|) + "\r\n";
    ThreeInside(left, "$", Print(|text|), "\r\n");
    ThreeInside(left, head, text, "\r\n");
    assert EncodeItem(Item.Some(text)) == head + text + "\r\n";
    assert EncodeItem(Item.None) == "$-1\r\n";
  }

  lemma ThreeInside(left: string, a: string, b: string, c: string)
    ensures left + (a + b + c) == left + a + b + c
  {
  }

  /** A list of items on the wire: its header and its items, one behind the other. */
  lemma WireList(left: string, items: seq<Item>, tail: string)
    requires IsLeftover(left)
    ensures ReadHeader('*', left + "*" + Print(|items|) + "\r\n" + tail) == Some((|items|, "\r\n" + tail))
    ensures Encode(MultiBulk(items)) == "*" + Print(|items|) + "\r\n" + EncodeItems(items)
    ensures items == [] ==> EncodeItems(items) == ""
    ensures items != [] && items[0].None? ==> EncodeItems(items) == "$-1\r\n" + EncodeItems(items[1..])
    ensures items != [] && items[0].Some? ==>
              var t := items[0].value; EncodeItems(items) == "$" + Print(|t|) + "\r\n" + t + "\r\n" + EncodeItems(items[1..])
  {
    HeaderReadsBack(left, '*', |items|, tail);
    hide ReadHeader, Print;
    ThreeInside(left, "*", Print(|items|), "\r\n");
    assert items != [] && items[0].None? ==> EncodeItem(items[0]) == "$-1\r\n";
  }

  lemma Regroup(left: string, a: string, b: string, tail: string)
    ensures left + ((a + b) + tail) == left + a + (b + tail)
  {
  }

  lemma HeaderIsRead(left: string, items: seq<Item>, tail: string)
    requires IsLeftover(left)
    ensures ReadHeader('*', left + (Encode(MultiBulk(items)) + tail)) == Some((|items|, CRLF + (EncodeItems(items) + tail)))
  {
    hide ReadHeader, EncodeItems;
    var header := ['*'] + PrintInt(|items|) + CRLF;
    HeaderReadsBack(left, '*', |items|, EncodeItems(items) + tail);
    assert Encode(MultiBulk(items)) == header + EncodeItems(items);
    Regroup(left, header, EncodeItems(items), tail);
  }

  lemma ItemIsRead(left: string, items: seq<Item>, tail: string)
    requires IsLeftover(left) && items != []
    ensures ReadBulk(left + (EncodeItems(items) + tail)) == Some((items[0], CRLF + (EncodeItems(items[1..]) + tail)))
  {
    hide ReadBulk, EncodeItem;
    BulkReadsBack(left, items[0], EncodeItems(items[1..]) + tail);
    Regroup(left, EncodeItem(items[0]), EncodeItems(items[1..]), tail);
  }

  // ----- moving a reply from one object to another

  /** What a copy leaves of its source: nothing of a reply still to be read. */
  function MovedFrom(o: Reply): Reply {
    if o.kind.EnumeratorKind? then o.(conn := false, pending := [], answer := Nothing, taken := 0)
    else if o.conn then o.(conn := false, answer := Nothing)
    else o
  }

  lemma DrainedKind(o: Reply)
    ensures Drained(o).kind == o.kind
  {
  }

  /** A source gives its connection and its pending items away; a scalar keeps the value it holds. */
  lemma MovedFromKeeps(o: Reply)
    ensures var left := MovedFrom(o);
            && !left.conn && left.kind == o.kind && left.stored == o.stored
            && (o.kind.EnumeratorKind? ==> left.pending == [])
            && (!o.kind.EnumeratorKind? && !o.conn ==> left == o)
  {
  }

  function Moved(objs: Objects, src: nat, dst: nat): Objects
    requires src in objs
  {
    objs[src := MovedFrom(objs[src])][dst := objs[src]]
  }

  /** The list with dst in the place of src. */
  function Replaced(list: seq<nat>, src: nat, dst: nat): (r: seq<nat>)
    ensures |r| == |list|
  {
    seq(|list|, i requires 0 <= i < |list| => if list[i] == src then dst else list[i])
  }

  lemma MovedFromIsRight(o: Reply)
    requires Wired(o)
    ensures Wired(MovedFrom(o)) && !MovedFrom(o).conn && (Accounted(o) ==> Accounted(MovedFrom(o)))
  {
  }

  lemma MovedKeeps(stream: string, list: seq<nat>, objs: Objects, src: nat, dst: nat)
    requires Linked(list, objs) && src in objs && dst != src && dst !in list
    ensures Linked(Replaced(list, src, dst), Moved(objs, src, dst))
    ensures InSync(stream, Replaced(list, src, dst), Moved(objs, src, dst)) <==> InSync(stream, list, objs)
  {
    MovedFromIsRight(objs[src]);
    MovedWired(objs, src, dst);
    hide Owes, Wired, Partial, MovedFrom, Replaced, Moved, OwesOf, OwesAll;
    ListedReplaced(list, objs, src, dst);
    MovedOwes(list, objs, src, dst);
    OwesSameLists(list, Replaced(list, src, dst), objs, Moved(objs, src, dst));
    PartialReplaced(list, objs, src, dst);
    OrderReplaced(list, objs, src, dst);
    hide Listed, PartialInFront, InOrder, AfterLeftover;
  }

  lemma MovedWired(objs: Objects, src: nat, dst: nat)
    requires src in objs && Wired(MovedFrom(objs[src])) && forall id | id in objs :: Wired(objs[id])
    ensures forall id | id in Moved(objs, src, dst) :: Wired(Moved(objs, src, dst)[id])
  {
    hide Wired, MovedFrom;
  }

  lemma OrderReplaced(list: seq<nat>, objs: Objects, src: nat, dst: nat)
    requires Listed(list, objs) && InOrder(list, objs) && src in objs && dst != src && dst !in list
    ensures InOrder(Replaced(list, src, dst), Moved(objs, src, dst))
  {
    hide MovedFrom;
    var renamed, now := Replaced(list, src, dst), Moved(objs, src, dst);
    assert forall i :: 0 <= i < |list| ==> renamed[i] in now && now[renamed[i]].place == objs[list[i]].place;
  }

  lemma ListedReplaced(list: seq<nat>, objs: Objects, src: nat, dst: nat)
    requires Listed(list, objs) && src in objs && dst != src && dst !in list && !MovedFrom(objs[src]).conn
    ensures Listed(Replaced(list, src, dst), Moved(objs, src, dst))
  {
    var renamed, now := Replaced(list, src, dst), Moved(objs, src, dst);
    assert forall i :: 0 <= i < |list| ==> renamed[i] == if list[i] == src then dst else list[i];
    forall id | id in now && now[id].conn ensures id in renamed { StillListed(list, objs, src, dst, id); }
    hide MovedFrom, Replaced;
    assert Distinct(renamed);
  }

  lemma StillListed(list: seq<nat>, objs: Objects, src: nat, dst: nat, id: nat)
    requires Listed(list, objs) && src in objs && dst != src && dst !in list && !MovedFrom(objs[src]).conn
    requires id in Moved(objs, src, dst) && Moved(objs, src, dst)[id].conn
    ensures id in Replaced(list, src, dst)
  {
    hide MovedFrom;
    var k :| 0 <= k < |list| && list[k] == if id == dst then src else id;
    assert Replaced(list, src, dst)[k] == id;
  }

  lemma MovedOwes(list: seq<nat>, objs: Objects, src: nat, dst: nat)
    requires src in objs && dst != src && dst !in list
    ensures forall i | 0 <= i < |list| :: OwesOf(Moved(objs, src, dst), Replaced(list, src, dst)[i]) == OwesOf(objs, list[i])
  {
    hide Owes, MovedFrom;
  }

  lemma PartialReplaced(list: seq<nat>, objs: Objects, src: nat, dst: nat)
    requires Listed(list, objs) && PartialInFront(list, objs) && src in objs && dst != src && dst !in list
    ensures PartialInFront(Replaced(list, src, dst), Moved(objs, src, dst))
  {
    var renamed, now := Replaced(list, src, dst), Moved(objs, src, dst);
    MovedOwes(list, objs, src, dst);
    hide Owes, OwesOf, Partial, MovedFrom;
    forall i | 0 <= i < |renamed| && renamed[i] in now && Partial(now[renamed[i]]) ensures Clear(renamed, now, i) {
      assert now[renamed[i]] == objs[list[i]];
      assert Clear(list, objs, i);
    }
  }

  lemma BooksMoved(objs: Objects, src: nat, dst: nat)
    requires Books(objs) && src in objs && Wired(objs[src])
    ensures Books(Moved(objs, src, dst))
  {
    MovedFromIsRight(objs[src]);
    hide Accounted, MovedFrom, Wired;
  }

  // ----- destroying an object

  lemma RemovedLinked(list: seq<nat>, objs: Objects, i: nat)
    requires Linked(list, objs) && i < |list|
    ensures Linked(Without(list, i), objs - {list[i]})
  {
    hide Owes, Wired, Partial, PartialInFront, InOrder, Without;
    RemovedListed(list, objs, i);
    RemovedPartial(list, objs, i);
    OrderWithout(list, objs, i);
    OrderSame(Without(list, i), objs, objs - {list[i]});
    hide Listed;
  }

  lemma RemovedListed(list: seq<nat>, objs: Objects, i: nat)
    requires Listed(list, objs) && i < |list|
    ensures Listed(Without(list, i), objs - {list[i]})
  {
    var rest := Without(list, i);
    assert forall k :: 0 <= k < |rest| ==> rest[k] == list[if k < i then k else k + 1];
    WithoutKeeps(list, i);
  }

  lemma RemovedPartial(list: seq<nat>, objs: Objects, i: nat)
    requires PartialInFront(list, objs) && i < |list|
    ensures PartialInFront(Without(list, i), objs - {list[i]})
  {
    hide Owes, Partial;
    var now, rest := objs - {list[i]}, Without(list, i);
    forall k | 0 <= k < |rest| && rest[k] in now && Partial(now[rest[k]]) ensures Clear(rest, now, k) {
      var m := if k < i then k else k + 1;
      assert rest[k] == list[m] && Clear(list, objs, m);
      forall j | 0 <= j < k ensures OwesOf(now, rest[j]) == "" {
        assert rest[j] == list[if j < i then j else j + 1];
      }
    }
  }

  lemma RemovedUnlisted(stream: string, list: seq<nat>, objs: Objects, id: nat)
    requires Linked(list, objs) && InSync(stream, list, objs) && id !in list
    ensures Linked(list, objs - {id}) && InSync(stream, list, objs - {id})
  {
    hide Owes, Wired, Partial, InOrder;
    OrderSame(list, objs, objs - {id});
    assert forall i :: 0 <= i < |list| ==> OwesOf(objs - {id}, list[i]) == OwesOf(objs, list[i]);
    OwesSame(list, objs, objs - {id});
    forall i | 0 <= i < |list| && list[i] in objs && Partial(objs[list[i]]) ensures Clear(list, objs - {id}, i) {
      assert Clear(list, objs, i);
    }
  }

  lemma EmptyIsRight(kind: Kind)
    ensures Wired(Empty(kind)) && Accounted(Empty(kind)) && !Empty(kind).conn && !Partial(Empty(kind))
  {
  }

  lemma AddedUnlisted(stream: string, list: seq<nat>, objs: Objects, id: nat, o: Reply)
    requires Linked(list, objs) && InSync(stream, list, objs) && id !in objs && Wired(o) && !o.conn
    ensures Linked(list, objs[id := o]) && InSync(stream, list, objs[id := o])
  {
    hide Owes, Wired, Partial, InOrder, PartialInFront, OwesAll, AfterLeftover;
    OrderSame(list, objs, objs[id := o]);
    AddedOwes(list, objs, id, o);
    OwesSame(list, objs, objs[id := o]);
    hide OwesOf;
  }

  lemma AddedOwes(list: seq<nat>, objs: Objects, id: nat, o: Reply)
    requires Listed(list, objs) && PartialInFront(list, objs) && id !in objs && !o.conn
    ensures forall i | 0 <= i < |list| :: OwesOf(objs[id := o], list[i]) == OwesOf(objs, list[i])
    ensures PartialInFront(list, objs[id := o])
  {
    hide Owes, Partial;
    forall i | 0 <= i < |list| && list[i] in objs && Partial(objs[list[i]]) ensures Clear(list, objs[id := o], i) {
      assert Clear(list, objs, i);
    }
  }

  /** The text of a removed object stays on the stream: it is gone from the books for good, so the rest is
      in step only if there was none. */
  lemma RemovedText(stream: string, list: seq<nat>, objs: Objects, i: nat)
    requires Listed(list, objs) && InSync(stream, list, objs) && i < |list|
    requires OwesOf(objs, list[i]) == "" || |OwesOf(objs, list[i])| >= 3
    ensures InSync(stream, Without(list, i), objs - {list[i]}) <==> OwesOf(objs, list[i]) == ""
  {
    hide Owes, OwesAll;
    var now, a, b := objs - {list[i]}, list[..i], list[i + 1..];
    assert list == a + [list[i]] + b;
    OwesAround(a, list[i], b, objs);
    OwesSplit(a, b, now);
    OwesSame(a, objs, now);
    OwesSame(b, objs, now);
    hide OwesOf;
    LengthsTell(stream, OwesAll(a, objs), OwesOf(objs, list[i]), OwesAll(b, objs));
  }

  lemma LengthsTell(stream: string, a: string, gone: string, b: string)
    requires AfterLeftover(stream, a + gone + b) && (gone == "" || |gone| >= 3)
    ensures AfterLeftover(stream, a + b) <==> gone == ""
  {
    if gone == "" {
      assert a + gone + b == a + b;
    }
  }

  lemma OwesEnough(o: Reply)
    requires Wired(o)
    ensures Owes(o) == "" || |Owes(o)| >= 3
    ensures Owes(o) == "" <==> !o.conn || (Partial(o) && o.count == 0)
  {
    hide EncodeItems;
    if o.conn && Partial(o) {
      if o.count > 0 { ItemRead(o); ItemTextNotEmpty(Items(o)[Start(o)..]); } else { FinishedOwesNothing(o); }
    }
  }

  /** Whether the destructor of o reads what is left of it: next() throws at a null item. */
  predicate EndsCleanly(o: Reply) {
    !o.kind.EnumeratorKind? || !o.conn
    || (o.headerDone && forall k | Start(o) <= k < |Items(o)| - 1 :: Items(o)[k].Some?)
  }

  predicate NoNullLeft(o: Reply) { forall k | Start(o) <= k < |Items(o)| :: Items(o)[k].Some? }

  /** Without a null item so far: what the next read decides. */
  lemma DiscardGoesOn(o: Reply, cur: Reply, seen: seq<Item>)
    requires o.kind.EnumeratorKind? && o.headerDone && ReadSoFar(o, cur, seen) && forall x | x in seen :: x.Some?
    ensures Start(cur) == |Items(cur)| ==> EndsCleanly(o) && NoNullLeft(o)
    ensures Start(cur) < |Items(cur)| && Items(cur)[Start(cur)].None? ==>
              (EndsCleanly(o) <==> Start(cur) == |Items(cur)| - 1) && !NoNullLeft(o)
  {
    var items := Items(o);
    assert forall k :: Start(o) <= k < Start(cur) ==> items[k] == seen[k - Start(o)];
    if Start(cur) < |items| - 1 && items[Start(cur)].None? { assert !EndsCleanly(o); }
  }

  lemma AfterLastItem(o: Reply)
    requires o.conn && Start(o) < |Items(o)| && Wired(o) && o.kind.EnumeratorKind?
    ensures Owes(AfterItem(o)) == "" <==> Start(o) == |Items(o)| - 1
  {
    var now := AfterItem(o);
    AfterItemStarts(o);
    assert Wired(now);
    OwesEnough(now);
  }

  // ----- assigning one enumerator to another

  /** Some items of o have been read, and no more than that happened to it. */
  predicate ReadFrom(o: Reply, now: Reply) {
    now == o.(headerDone := now.headerDone, count := now.count) && now.conn && Start(o) < Start(now)
  }

  lemma ReadFromNext(o: Reply, cur: Reply, seen: seq<Item>)
    requires ReadSoFar(o, cur, seen) && Start(cur) < |Items(cur)|
    ensures ReadFrom(o, AfterItem(cur))
  {
    AfterItemStarts(cur);
  }

  /** The source after the assignment: it keeps its pending items and nothing else. */
  function AssignedFrom(o: Reply): Reply { o.(conn := false, answer := Nothing, taken := 0) }

  /** The target: everything but the pending items. */
  function AssignedTo(o: Reply): Reply { o.(pending := []) }

  /** Pending items do not show in the list or the stream, except that a connected enumerator has none. */
  lemma PendingHidden(stream: string, list: seq<nat>, objs: Objects, id: nat, o: Reply)
    requires Linked(list, objs) && id in objs && objs[id].kind.EnumeratorKind?
    requires o == objs[id].(pending := o.pending) && (o.conn ==> o.pending == [])
    ensures Linked(list, objs[id := o])
    ensures InSync(stream, list, objs[id := o]) <==> InSync(stream, list, objs)
  {
    assert Wired(o) && LooksSame(objs[id], o);
    hide Owes, Wired, Partial, InOrder, Listed, PartialInFront, AfterLeftover, LooksSame, OwesAll;
    LooksSameLinked(list, objs, id, o);
  }

  /** Conservation of items across the assignment. */
  lemma AssignedBooks(objs: Objects, src: nat, dst: nat, was: Reply)
    requires Wired(was) && Accounted(was) && dst != src && was.kind.EnumeratorKind?
    requires forall x | x in objs && x != src && x != dst :: Accounted(objs[x])
    ensures Books(objs[src := AssignedFrom(was)][dst := AssignedTo(was)]) <==> was.pending == []
  {
    var now := objs[src := AssignedFrom(was)][dst := AssignedTo(was)];
    assert Start(AssignedTo(was)) == Start(was) && Items(AssignedTo(was)) == Items(was);
    assert Accounted(AssignedTo(was)) <==> was.pending == [];
    assert was.pending == [] ==> Accounted(AssignedFrom(was));
    hide Accounted;
    assert dst in now && now[dst] == AssignedTo(was);
  }

  lemma AssignedMap(objs: Objects, src: nat, dst: nat)
    requires src in objs && dst in objs && dst != src && objs[src].kind.EnumeratorKind?
    ensures var from, to := AssignedFrom(objs[src]), AssignedTo(objs[src]);
            Moved(objs[src := to] - {dst}, src, dst)[src := from] == objs[src := from][dst := to]
  {
  }

  /** An object whose items so far were all handed out or thrown away. */
  function Booked(o: Reply): Reply { o.(taken := Start(o)) }

  lemma BookedIsRight(o: Reply)
    requires Wired(o)
    ensures Wired(Booked(o)) && Owes(Booked(o)) == Owes(o) && Partial(Booked(o)) == Partial(o)
    ensures o.pending == [] ==> Accounted(Booked(o))
  {
    hide Fits, Meaning, Encode, EncodeItems;
  }

  lemma DiscardedBooks(objs: Objects, id: nat, o: Reply)
    requires Books(objs) && id in objs && ReadFrom(objs[id], o) && Wired(o) && o.kind.EnumeratorKind?
    ensures Books(objs[id := Booked(o)]) && objs[id := o][id := Booked(o)] == objs[id := Booked(o)]
    ensures Booked(o).kind == objs[id].kind && Booked(o).answer == objs[id].answer
  {
    BookedIsRight(o);
    BooksKept(objs, id, Booked(o));
    hide Books, Accounted;
  }

  lemma BooksWithout(objs: Objects, id: nat)
    requires Books(objs)
    ensures Books(objs - {id})
  {
    hide Accounted;
  }

  lemma RemovedUpdated(objs: Objects, id: nat, o: Reply)
    ensures objs[id := o] - {id} == objs - {id}
  {
  }

  lemma NothingToDiscard(o: Reply)
    requires Wired(o) && o.kind.EnumeratorKind? && !(o.conn && o.count > 0)
    ensures Owes(o) == "" <==> !o.conn || o.headerDone
    ensures EndsCleanly(o) <==> !o.conn || o.headerDone
    ensures o.conn && o.headerDone ==> NoNullLeft(o)
  {
    OwesEnough(o);
    hide Fits, Encode, EncodeItems;
  }

  lemma DiscardNeedsHeader(o: Reply)
    requires Wired(o) && o.kind.EnumeratorKind? && o.conn && o.count > 0
    ensures o.headerDone
  {
  }

  lemma UpdatedPair(objs: Objects, o: Reply, dst: nat, src: nat)
    requires dst != src && src in objs
    ensures objs[dst := o][src := AssignedFrom(objs[src])][dst := AssignedTo(objs[src])]
         == objs[src := AssignedFrom(objs[src])][dst := AssignedTo(objs[src])]
  {
  }
}
