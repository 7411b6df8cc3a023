/** Whole runs of the pipelined client, against a client that has every response as soon as it sends. */
module PipelineRun {
  import opened RespReply
  import opened PipelineState
  import opened Pipeline
  import opened Wrappers

  /** What a caller can do with reply objects. */
  datatype Op =
    | Make(id: nat, kind: Kind)                // default-construct
    | Send(id: nat, kind: Kind, resp: Resp)
    | Ask(id: nat)
    | Next(id: nat)
    | CopyTo(id: nat, src: nat)
    | AssignTo(id: nat, src: nat)
    | Drop(id: nat)

  datatype Output = Silent | Gave(value: Value) | GaveItem(item: Option<Item>)

  /** How far an object has been read: not at all, its header, to its end. */
  datatype Status = Unread | Partly | Read

  /** What the simple client keeps per object: its response, and books of who has read what. */
  datatype Slot = Slot(kind: Kind, answer: Resp, taken: nat, status: Status, place: nat)

  type Slots = map<nat, Slot>

  /** sent is the number of commands sent. */
  datatype Simple = Simple(slots: Slots, sent: nat)

  function ItemsOf(s: Slot): seq<Item> { if s.answer.MultiBulk? then s.answer.items else [] }

  /** Nothing null between the first item not handed out and one before the end. */
  predicate NoNullBefore(s: Slot, end: int) { forall k | s.taken <= k < |ItemsOf(s)| && k < end :: ItemsOf(s)[k].Some? }

  // ----- what a caller may do

  /** A scalar may always be dropped; an enumerator once it was read, on whoever's behalf, or once its header
      was, unless a null item is left before the last one. */
  predicate CanDrop(s: Slot) {
    !s.kind.EnumeratorKind? || s.status.Read? || (s.status.Partly? && NoNullBefore(s, |ItemsOf(s)| - 1))
  }

  /** Scalars may always be assigned; enumerators unless items of either would be lost. */
  predicate CanAssign(to: Slot, from: Slot) {
    !to.kind.EnumeratorKind?
    || ((to.status.Read? || (to.status.Partly? && NoNullBefore(to, |ItemsOf(to)|)))
        && (from.status.Read? ==> from.taken == |ItemsOf(from)|))
  }

  predicate Legal(m: Slots, op: Op) {
    match op
    case Make(id, _) => id !in m
    case Send(id, kind, resp) => id !in m && Fits(kind, resp)
    case Ask(id) => id in m && !m[id].kind.EnumeratorKind?
    case Next(id) => id in m && m[id].kind.EnumeratorKind?
    case CopyTo(id, src) => id !in m && src in m
    case AssignTo(id, src) =>
      id in m && src in m && m[id].kind == m[src].kind && CanAssign(m[id], m[src])
      && (id == src ==> !m[id].kind.EnumeratorKind?)
    case Drop(id) => id in m && CanDrop(m[id])
  }

  // ----- the simple client: every object answers from its own response

  /** Reading an object on another's behalf. */
  function Settled(s: Slot): Slot {
    if s.status.Partly? && s.taken == |ItemsOf(s)| then s else s.(status := Read)
  }

  function ReadEarlier(m: Slots, id: nat): Slots
    requires id in m
  {
    map x | x in m :: if x != id && !m[x].status.Read? && m[x].place < m[id].place then Settled(m[x]) else m[x]
  }

  /** The books after an accessor of id. */
  function Asked(m: Slots, id: nat): Slots
    requires id in m
  {
    if m[id].status.Read? then m else ReadEarlier(m, id)[id := m[id].(status := Read)]
  }

  function Advanced(s: Slot): Slot {
    if s.taken == |ItemsOf(s)| then s.(status := Read)
    else s.(taken := s.taken + 1, status := if s.status.Read? then Read else Partly)
  }

  function NextItem(s: Slot): Option<Item> {
    if s.taken < |ItemsOf(s)| then Some(ItemsOf(s)[s.taken]) else Option.None
  }

  function Advance(m: Slots, id: nat): Slots
    requires id in m
  {
    (if m[id].status.Unread? then ReadEarlier(m, id) else m)[id := Advanced(m[id])]
  }

  /** What a copy leaves of its source: a scalar that was read stays as it is. */
  function LeftBehind(s: Slot): Slot {
    if s.kind.EnumeratorKind? then s.(answer := Nothing, taken := 0, status := Read)
    else if s.status.Read? then s
    else s.(answer := Nothing, status := Read)
  }

  function Handed(m: Slots, src: nat, dst: nat): Slots
    requires src in m
  {
    m[src := LeftBehind(m[src])][dst := m[src]]
  }

  function Step(m: Simple, op: Op): (Simple, Output)
    requires Legal(m.slots, op)
  {
    var s := m.slots;
    match op
    case Make(id, kind) => (m.(slots := s[id := Slot(kind, Nothing, 0, Read, 0)]), Silent)
    case Send(id, kind, resp) => (Simple(s[id := Slot(kind, resp, 0, Unread, m.sent)], m.sent + 1), Silent)
    case Ask(id) => (m.(slots := Asked(s, id)), Gave(Meaning(s[id].kind, s[id].answer)))
    case Next(id) => (m.(slots := Advance(s, id)), GaveItem(NextItem(s[id])))
    case CopyTo(id, src) => (m.(slots := Handed(s, src, id)), Silent)
    case AssignTo(id, src) =>
      var mid := if s[id].kind.EnumeratorKind? then s else Asked(s, id);
      (m.(slots := if id == src then mid else Handed(mid, src, id)), Silent)
    case Drop(id) => (m.(slots := (if s[id].kind.EnumeratorKind? then s else Asked(s, id)) - {id}), Silent)
  }

  predicate AllLegal(m: Simple, ops: seq<Op>)
    decreases ops
  {
    ops == [] || (Legal(m.slots, ops[0]) && AllLegal(Step(m, ops[0]).0, ops[1..]))
  }

  function Outputs(m: Simple, ops: seq<Op>): seq<Output>
    requires AllLegal(m, ops)
    decreases ops
  {
    if ops == [] then [] else [Step(m, ops[0]).1] + Outputs(Step(m, ops[0]).0, ops[1..])
  }

  const START: Simple := Simple(map[], 0)

  // ----- the simulation: a slot is what is left of an object without the stream

  function StatusOf(o: Reply): Status {
    if !o.conn then Read else if Partial(o) then Partly else Unread
  }

  function SlotOf(o: Reply): Slot { Slot(o.kind, o.answer, o.taken, StatusOf(o), o.place) }

  /** Outstanding commands were sent before now. */
  ghost predicate Placed(m: Simple) {
    forall id | id in m.slots && !m.slots[id].status.Read? :: m.slots[id].place < m.sent
  }

  ghost predicate Mirrors(slots: Slots, objs: Objects) {
    slots.Keys == objs.Keys && forall id | id in objs :: slots[id] == SlotOf(objs[id])
  }

  ghost predicate Refines(m: Simple, objs: Objects) { Mirrors(m.slots, objs) && Placed(m) }

  /** Stored objects that were not handed out beyond what was read. */
  ghost predicate Sound(o: Reply) { Wired(o) && Accounted(o) }

  lemma TakenIsStart(o: Reply)
    requires Sound(o)
    ensures o.taken <= |Items(o)|
    ensures o.conn ==> o.pending == [] || !o.kind.EnumeratorKind?
    ensures o.conn && o.kind.EnumeratorKind? ==> o.taken == Start(o)
    ensures !o.conn ==> (o.pending == [] <==> o.taken == |Items(o)|)
  {
    hide Fits, Meaning;
  }

  lemma DrainedIsSettled(o: Reply)
    requires Sound(o)
    ensures o.conn ==> SlotOf(Drained(o)) == Settled(SlotOf(o))
    ensures !o.kind.EnumeratorKind? ==> SlotOf(Drained(o)) == SlotOf(o).(status := Read)
  {
    TakenIsStart(o);
    hide Fits, Meaning, Accounted;
  }

  lemma MovedFromIsLeftBehind(o: Reply)
    ensures SlotOf(MovedFrom(o)) == LeftBehind(SlotOf(o))
  {
  }

  /** What the caller is asked to keep is exactly what keeps list and stream in step. */
  lemma CanDropIff(o: Reply)
    requires Sound(o)
    ensures CanDrop(SlotOf(o)) <==> EndsCleanly(o)
  {
    TakenIsStart(o);
    hide Wired, Accounted, Start;
  }

  /** And what keeps all items. */
  lemma CanAssignIff(to: Reply, from: Reply)
    requires Sound(to) && Sound(from) && to.kind.EnumeratorKind? && from.kind.EnumeratorKind?
    ensures CanAssign(SlotOf(to), SlotOf(from)) <==>
              (!to.conn || (to.headerDone && NoNullLeft(to))) && from.pending == []
  {
    TakenIsStart(to);
    TakenIsStart(from);
    hide Wired, Accounted, Start;
  }

  ghost predicate AllSound(objs: Objects) { forall id | id in objs :: Sound(objs[id]) }

  lemma StoredAreSound(client: Client)
    requires client.Valid()
    ensures AllSound(client.objs)
  {
    AllAreWired(client.list, client.objs);
    hide Wired, Accounted, Linked, InSync;
  }

  lemma ReadBeforeMirrors(slots: Slots, was: Objects, now: Objects, id: nat, s: Slot)
    requires Mirrors(slots, was) && AllSound(was) && ReadBefore(was, now, id) && SlotOf(now[id]) == s
    ensures Mirrors(ReadEarlier(slots, id)[id := s], now)
  {
    forall x | x in was && x != id && was[x].conn && was[x].place < was[id].place
      ensures SlotOf(now[x]) == Settled(slots[x])
    {
      DrainedIsSettled(was[x]);
    }
    hide Drained, Settled, Sound;
  }

  lemma AskedMirrors(slots: Slots, was: Objects, now: Objects, id: nat)
    requires Mirrors(slots, was) && AllSound(was) && id in was && !was[id].kind.EnumeratorKind?
    requires if was[id].conn then ReadBefore(was, now, id) else OthersSame(was, now, id)
    requires now.Keys == was.Keys && now[id] == Drained(was[id])
    ensures Mirrors(Asked(slots, id), now)
    ensures now[id].kind == slots[id].kind && now[id].answer == slots[id].answer
  {
    DrainedIsSettled(was[id]);
    if was[id].conn {
      ReadBeforeMirrors(slots, was, now, id, slots[id].(status := Read));
      hide Drained, Sound, ReadEarlier, Mirrors;
    } else {
      hide Sound;
    }
  }

  lemma HandedMirrors(slots: Slots, was: Objects, src: nat, dst: nat)
    requires Mirrors(slots, was) && src in was
    ensures Mirrors(Handed(slots, src, dst), Moved(was, src, dst))
  {
    MovedFromIsLeftBehind(was[src]);
    hide LeftBehind, MovedFrom;
  }

  lemma PlacedStep(m: Simple, op: Op)
    requires Placed(m) && Legal(m.slots, op)
    ensures Placed(Step(m, op).0)
  {
    hide Fits, Meaning, CanDrop, CanAssign, NextItem;
  }

  lemma AddedMirrors(slots: Slots, objs: Objects, id: nat, o: Reply)
    requires Mirrors(slots, objs) && id !in slots
    ensures id !in objs && Mirrors(slots[id := SlotOf(o)], objs[id := o])
  {
    hide SlotOf;
  }

  lemma ListedArePlaced(list: seq<nat>, objs: Objects, m: Simple)
    requires Linked(list, objs) && Refines(m, objs)
    ensures forall x | x in list && x in objs :: objs[x].place < m.sent
  {
    forall x | x in list && x in objs ensures objs[x].place < m.sent {
      ConnectedIsListed(list, objs, x);
      assert !m.slots[x].status.Read?;
    }
    hide Linked;
  }

  // ----- one operation

  method DoSend(client: Client, id: nat, kind: Kind, resp: Resp, place: nat, ghost m: Simple)
    requires client.Valid() && Refines(m, client.objs) && Legal(m.slots, Send(id, kind, resp)) && place == m.sent
    modifies client
    ensures client.Valid() && Mirrors(m.slots[id := Slot(kind, resp, 0, Unread, place)], client.objs)
  {
    ListedArePlaced(client.list, client.objs, m);
    AddedMirrors(m.slots, client.objs, id, Fresh(kind, resp, place));
    hide Client.Valid, Fits, Placed, Mirrors;
    client.Execute(id, kind, resp, place);
  }

  method DoMake(client: Client, id: nat, kind: Kind, ghost m: Simple)
    requires client.Valid() && Mirrors(m.slots, client.objs) && Legal(m.slots, Make(id, kind))
    modifies client
    ensures client.Valid() && Mirrors(Step(m, Make(id, kind)).0.slots, client.objs)
  {
    AddedMirrors(m.slots, client.objs, id, Empty(kind));
    hide Client.Valid, Mirrors;
    client.Construct(id, kind);
  }

  method DoAsk(client: Client, id: nat, ghost slots: Slots) returns (value: Value)
    requires client.Valid() && Mirrors(slots, client.objs) && Legal(slots, Ask(id))
    modifies client
    ensures client.Valid() && Mirrors(Asked(slots, id), client.objs)
    ensures value == Meaning(slots[id].kind, slots[id].answer)
  {
    ghost var was := client.objs;
    StoredAreSound(client);
    hide Client.Valid, Meaning, Drained, ReadBefore, OthersSame, AllSound, Asked;
    value := client.Result(id);
    AskedMirrors(slots, was, client.objs, id);
  }

  method DoNext(client: Client, id: nat, ghost slots: Slots) returns (item: Option<Item>)
    requires client.Valid() && Mirrors(slots, client.objs) && Legal(slots, Next(id))
    modifies client
    ensures client.Valid() && Mirrors(Advance(slots, id), client.objs) && item == NextItem(slots[id])
  {
    ghost var was := client.objs;
    StoredAreSound(client);
    hide Client.Valid, Drained, AllSound, ReadBefore, OthersSame, Items, Advance, Advanced, SlotOf, NextItem;
    item := client.NextOptional(id);
    NextAdvances(was[id], client.objs[id], item);
    AdvanceMirrors(slots, was, client.objs, id);
  }

  lemma NextAdvances(o: Reply, now: Reply, item: Option<Item>)
    requires Sound(o) && o.kind.EnumeratorKind?
    requires now.kind == o.kind && now.answer == o.answer && now.place == o.place
    requires if o.taken < |Items(o)| then item == Some(Items(o)[o.taken]) && now.taken == o.taken + 1
             else item == Option.None && now.taken == o.taken
    requires now.conn <==> o.conn && item.Some?
    requires now.conn ==> now.headerDone
    ensures SlotOf(now) == Advanced(SlotOf(o)) && item == NextItem(SlotOf(o))
  {
    TakenIsStart(o);
    hide Wired, Accounted, Start;
  }

  lemma AdvanceMirrors(slots: Slots, was: Objects, now: Objects, id: nat)
    requires Mirrors(slots, was) && AllSound(was) && id in was && id in now && was[id].kind.EnumeratorKind?
    requires if was[id].conn && !was[id].headerDone then ReadBefore(was, now, id) else OthersSame(was, now, id)
    requires SlotOf(now[id]) == Advanced(SlotOf(was[id]))
    ensures Mirrors(Advance(slots, id), now)
  {
    hide ReadBefore, OthersSame, AllSound, Sound, ReadEarlier, Advanced;
    if was[id].conn && !was[id].headerDone {
      ReadBeforeMirrors(slots, was, now, id, Advanced(slots[id]));
    } else {
      OneChanged(slots, was, now, id, Advanced(slots[id]));
    }
    hide Mirrors;
  }

  lemma OneChanged(slots: Slots, was: Objects, now: Objects, id: nat, s: Slot)
    requires Mirrors(slots, was) && id in was && OthersSame(was, now, id) && SlotOf(now[id]) == s
    ensures Mirrors(slots[id := s], now)
  {
    hide SlotOf;
  }

  method DoCopy(client: Client, id: nat, src: nat, ghost slots: Slots)
    requires client.Valid() && Mirrors(slots, client.objs) && Legal(slots, CopyTo(id, src))
    modifies client
    ensures client.Valid() && Mirrors(Handed(slots, src, id), client.objs)
  {
    HandedMirrors(slots, client.objs, src, id);
    hide Client.Valid, MovedFrom, Handed;
    client.Copy(src, id);
  }

  method DoAssign(client: Client, id: nat, src: nat, ghost slots: Slots)
    requires client.Valid() && Mirrors(slots, client.objs) && Legal(slots, AssignTo(id, src))
    requires !slots[id].kind.EnumeratorKind?
    modifies client
    ensures client.Valid()
    ensures Mirrors(if id == src then Asked(slots, id) else Handed(Asked(slots, id), src, id), client.objs)
  {
    ghost var was := client.objs;
    StoredAreSound(client);
    hide Client.Valid, Meaning, Drained, ReadBefore, OthersSame, AllSound, Asked, Moved, Handed;
    ghost var mid := client.Assign(id, src);
    AskedMirrors(slots, was, mid, id);
    HandedMirrors(Asked(slots, id), mid, src, id);
  }

  method DoAssignEnumerator(client: Client, id: nat, src: nat, ghost slots: Slots)
    requires client.Valid() && Mirrors(slots, client.objs) && Legal(slots, AssignTo(id, src))
    requires slots[id].kind.EnumeratorKind?
    modifies client
    ensures client.Valid() && Mirrors(Handed(slots, src, id), client.objs)
  {
    ghost var was := client.objs;
    StoredAreSound(client);
    CanAssignIff(was[id], was[src]);
    HandedMirrors(slots, was, src, id);
    hide Linked, InSync, Books, NoNullLeft, CanAssign, Handed;
    var threw := client.AssignEnumerator(id, src);
    assert AssignedTo(was[src]) == was[src] && AssignedFrom(was[src]) == MovedFrom(was[src]);
  }

  method DoDrop(client: Client, id: nat, ghost slots: Slots)
    requires client.Valid() && Mirrors(slots, client.objs) && Legal(slots, Drop(id))
    modifies client
    ensures client.Valid()
    ensures Mirrors((if slots[id].kind.EnumeratorKind? then slots else Asked(slots, id)) - {id}, client.objs)
  {
    ghost var was := client.objs;
    StoredAreSound(client);
    CanDropIff(was[id]);
    hide Client.Valid, EndsCleanly, Drained, CanDrop, AllSound, Sound;
    client.Destroy(id);
    DestroyedMirrors(client, slots, was, id);
  }

  lemma DestroyedMirrors(client: Client, slots: Slots, was: Objects, id: nat)
    requires Mirrors(slots, was) && AllSound(was) && id in was && client.objs.Keys == was.Keys - {id}
    requires forall x | x in client.objs :: client.objs[x] == client.Destroyed(was, id, x)
    ensures Mirrors((if slots[id].kind.EnumeratorKind? then slots else Asked(slots, id)) - {id}, client.objs)
  {
    hide SlotOf, Drained, Settled, Sound;
    forall x | x in client.objs
      ensures (if slots[id].kind.EnumeratorKind? then slots else Asked(slots, id))[x] == SlotOf(client.objs[x])
    {
      DestroyedIsAsked(client, slots, was, id, x);
    }
  }

  lemma DestroyedIsAsked(client: Client, slots: Slots, was: Objects, id: nat, x: nat)
    requires Mirrors(slots, was) && AllSound(was) && id in was && x in was && x != id
    ensures (if slots[id].kind.EnumeratorKind? then slots else Asked(slots, id))[x] == SlotOf(client.Destroyed(was, id, x))
  {
    hide Drained, Settled, Sound;
    if was[x].conn { DrainedIsSettled(was[x]); }
  }

  method Do(client: Client, op: Op, ghost m: Simple, place: nat) returns (out: Output)
    requires client.Valid() && Refines(m, client.objs) && Legal(m.slots, op) && place == m.sent
    modifies client
    ensures client.Valid() && Refines(Step(m, op).0, client.objs) && out == Step(m, op).1
  {
    PlacedStep(m, op);
    hide Client.Valid, Mirrors, Placed, Asked, Advance, Advanced, Handed, NextItem, Meaning, CanDrop, CanAssign, Fits;
    out := Silent;
    match op {
      case Make(id, kind) => DoMake(client, id, kind, m);
      case Send(id, kind, resp) => DoSend(client, id, kind, resp, place, m);
      case Ask(id) =>
        var value := DoAsk(client, id, m.slots);
        out := Gave(value);
      case Next(id) =>
        var item := DoNext(client, id, m.slots);
        out := GaveItem(item);
      case CopyTo(id, src) => DoCopy(client, id, src, m.slots);
      case AssignTo(id, src) =>
        if KindOf(client, id, m).EnumeratorKind? {
          DoAssignEnumerator(client, id, src, m.slots);
        } else {
          DoAssign(client, id, src, m.slots);
        }
      case Drop(id) => DoDrop(client, id, m.slots);
    }
  }

  function KindOf(client: Client, id: nat, ghost m: Simple): (kind: Kind)
    requires id in m.slots && Mirrors(m.slots, client.objs)
    reads client
    ensures kind == m.slots[id].kind
  {
    client.objs[id].kind
  }

  // ----- runs

  lemma PlayStep(m: Simple, ops: seq<Op>, i: nat)
    requires i < |ops| && AllLegal(m, ops[i..])
    ensures Legal(m.slots, ops[i]) && AllLegal(Step(m, ops[i]).0, ops[i + 1..])
    ensures Outputs(m, ops[i..]) == [Step(m, ops[i]).1] + Outputs(Step(m, ops[i]).0, ops[i + 1..])
  {
    hide Legal, Step;
    assert ops[i..][0] == ops[i] && ops[i..][1..] == ops[i + 1..];
  }

  lemma SentCounts(m: Simple, op: Op)
    requires Legal(m.slots, op)
    ensures Step(m, op).0.sent == m.sent + if op.Send? then 1 else 0
  {
  }

  method PlayFrom(client: Client, ops: seq<Op>) returns (outs: seq<Output>)
    requires client.Valid() && Refines(START, client.objs) && AllLegal(START, ops)
    modifies client
    ensures client.Valid() && outs == Outputs(START, ops)
  {
    hide Client.Valid, Refines, Legal, Step;
    ghost var m := START;
    var sent := 0;
    outs := [];
    assert ops[0..] == ops;
    for i := 0 to |ops|
      invariant client.Valid() && Refines(m, client.objs) && AllLegal(m, ops[i..]) && sent == m.sent
      invariant Outputs(START, ops) == outs + Outputs(m, ops[i..])
    {
      PlayStep(m, ops, i);
      SentCounts(m, ops[i]);
      hide AllLegal, Outputs;
      var out := Do(client, ops[i], m, sent);
      outs, sent := outs + [out], if ops[i].Send? then sent + 1 else sent;
      m := Step(m, ops[i]).0;
    }
  }

  /** Pipelining is transparent: whatever is constructed, sent, asked for, copied, assigned and dropped, and in
      whatever order, every answer is the one the simple client gives. */
  method Play(ops: seq<Op>) returns (outs: seq<Output>)
    requires AllLegal(START, ops)
    ensures outs == Outputs(START, ops)
  {
    hide AllLegal, Outputs;
    var client := new Client();
    outs := PlayFrom(client, ops);
  }
}
