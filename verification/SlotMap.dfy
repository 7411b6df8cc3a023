/** The cluster's slot table: an ordered map from slot ranges to connections. */
module SlotMap {
  import opened KeySlots

  /** One range of the CLUSTER SLOTS reply and the node that serves it. */
  datatype Entry = Entry(first: nat, last: nat, node: string)

  /** A reply element either has the expected shape or has not. */
  datatype Element = Range(entry: Entry) | Malformed

  datatype SlotsReply = Array(elements: seq<Element>) | OtherReply

  datatype Lookup = Found(entry: Entry) | NodeSearchException | NotInitialized | Undefined

  predicate Covers(e: Entry, slot: nat) { e.first <= slot <= e.last }

  // ----- the map, as the sequence of its entries in key order

  ghost predicate Sorted(nodes: seq<Entry>) {
    forall i, j :: 0 <= i < j < |nodes| ==> nodes[i].first < nodes[j].first
  }

  /** lower_bound: the number of entries whose key is below first. */
  function LowerBound(nodes: seq<Entry>, first: nat): (n: nat)
    ensures n <= |nodes|
    ensures forall i :: 0 <= i < n ==> nodes[i].first < first
    ensures n < |nodes| ==> nodes[n].first >= first
  {
    if nodes == [] || nodes[0].first >= first then 0 else 1 + LowerBound(nodes[1..], first)
  }

  /** std::map::insert: an entry whose key is there already is left alone. */
  function Inserted(nodes: seq<Entry>, e: Entry): seq<Entry> {
    var n := LowerBound(nodes, e.first);
    if n < |nodes| && nodes[n].first == e.first then nodes else nodes[..n] + [e] + nodes[n..]
  }

  lemma InsertedSorted(nodes: seq<Entry>, e: Entry)
    requires Sorted(nodes)
    ensures Sorted(Inserted(nodes, e))
  {
    hide LowerBound;
  }

  lemma InsertedKeeps(nodes: seq<Entry>, e: Entry)
    requires Sorted(nodes)
    ensures Sorted(Inserted(nodes, e))
    ensures forall x :: x in Inserted(nodes, e) ==> x in nodes || x == e
    ensures forall x :: x in nodes ==> x in Inserted(nodes, e)
    ensures (forall x | x in nodes :: x.first != e.first) ==> e in Inserted(nodes, e)
  {
    var n, r := LowerBound(nodes, e.first), Inserted(nodes, e);
    hide LowerBound;
    InsertedSorted(nodes, e);
    if r != nodes {
      hide Sorted;
      assert r[n] == e;
      forall x | x in nodes ensures x in r {
        var i :| 0 <= i < |nodes| && nodes[i] == x;
        assert r[if i < n then i else i + 1] == x;
      }
    }
  }

  /** The entries of the reply before its first malformed element. */
  function Usable(elements: seq<Element>): (r: seq<Entry>)
    ensures |r| <= |elements| && (|r| < |elements| ==> elements[|r|].Malformed?)
    ensures forall k :: 0 <= k < |r| ==> elements[k] == Range(r[k])
  {
    if elements == [] || elements[0].Malformed? then [] else [elements[0].entry] + Usable(elements[1..])
  }

  predicate WellFormed(reply: SlotsReply) {
    reply.Array? && forall i | 0 <= i < |reply.elements| :: reply.elements[i].Range?
  }

  /** The entries serve disjoint ranges of slots. */
  ghost predicate Disjoint(entries: seq<Entry>) {
    && (forall e | e in entries :: e.first <= e.last)
    && (forall i, j | 0 <= i < |entries| && 0 <= j < |entries| && i != j ::
          entries[i].last < entries[j].first || entries[j].last < entries[i].first)
  }

  /** The reference: linear search. */
  ghost predicate Serves(entries: seq<Entry>, slot: nat, e: Entry) { e in entries && Covers(e, slot) }

  /** The map after the first n entries. */
  ghost predicate Loaded(nodes: seq<Entry>, entries: seq<Entry>, n: nat)
    requires n <= |entries|
  {
    && Sorted(nodes)
    && (forall e | e in nodes :: e in entries[..n])
    && (Disjoint(entries) ==> forall k :: 0 <= k < n ==> entries[k] in nodes)
  }

  lemma LoadedStep(nodes: seq<Entry>, entries: seq<Entry>, n: nat)
    requires n < |entries| && Loaded(nodes, entries, n)
    ensures Loaded(Inserted(nodes, entries[n]), entries, n + 1)
  {
    var e := entries[n];
    InsertedKeeps(nodes, e);
    hide Inserted, Sorted;
    assert entries[..n + 1] == entries[..n] + [e];
    if Disjoint(entries) {
      forall x | x in nodes ensures x.first != e.first { FirstsDiffer(entries, n, x); }
      hide Disjoint;
    }
  }

  lemma FirstsDiffer(entries: seq<Entry>, n: nat, x: Entry)
    requires Disjoint(entries) && n < |entries| && x in entries[..n]
    ensures x.first != entries[n].first
  {
    var k :| 0 <= k < n && entries[..n][k] == x;
    assert entries[k] == x;
  }

  ghost predicate Served(entries: seq<Entry>, slot: nat) { exists e :: Serves(entries, slot, e) }

  class Cluster {
    var nodes: seq<Entry>
    var readyToUse: bool

    constructor ()
      ensures nodes == [] && !readyToUse
    {
      nodes, readyToUse := [], false;
    }

    /** Opens the connection of a range; connects are taken to succeed. */
    method Insert(e: Entry)
      requires Sorted(nodes)
      modifies `nodes
      ensures nodes == Inserted(old(nodes), e) && Sorted(nodes)
    {
      InsertedKeeps(nodes, e);
      nodes := Inserted(nodes, e);
    }

    /** Reads a CLUSTER SLOTS reply; false stands for the exception. */
    method Init(reply: SlotsReply) returns (ok: bool)
      requires nodes == [] && !readyToUse
      modifies this
      ensures Sorted(nodes) && ok == readyToUse == WellFormed(reply)
      ensures forall e :: e in nodes ==> reply.Array? && e in Usable(reply.elements)
      ensures reply.Array? && Disjoint(Usable(reply.elements)) ==> forall e :: e in Usable(reply.elements) ==> e in nodes
    {
      if reply.OtherReply? {
        return false;
      }
      var i := 0;
      ghost var all := Usable(reply.elements);
      while i < |reply.elements|
        invariant 0 <= i <= |reply.elements| && !readyToUse
        invariant i <= |all| && Loaded(nodes, all, i)
      {
        if reply.elements[i].Malformed? {
          return false;
        }
        var e := reply.elements[i].entry;
        LoadedStep(nodes, all, i);
        Insert(e);
        i := i + 1;
      }
      readyToUse := true;
      return true;
    }

    /** lower_bound of the slot after index, stepped back by one; stepping back from the first entry is undefined. */
    method SearchBySlots(index: nat) returns (r: Lookup)
      requires Sorted(nodes)
      ensures r.Undefined? <==> forall e :: e in nodes ==> index < e.first
      ensures r.Found? ==> Serves(nodes, index, r.entry)
      ensures Disjoint(nodes) && r.Found? ==> forall e :: Serves(nodes, index, e) ==> e == r.entry
      ensures Disjoint(nodes) ==> (r.NodeSearchException? <==>
                !r.Undefined? && forall e :: e in nodes ==> !Covers(e, index))
      ensures !r.NotInitialized?
    {
      var n := LowerBound(nodes, index + 1);
      if n == 0 {
        return Undefined;
      }
      assert nodes[n - 1] in nodes;
      var range := nodes[n - 1];
      if range.first > index || range.last < index {
        return NodeSearchException;
      }
      return Found(range);
    }

    method GetConnection(key: Key) returns (r: Lookup)
      requires Sorted(nodes)
      ensures r.NotInitialized? <==> !readyToUse
      ensures r.Found? ==> Serves(nodes, SlotByKey(key), r.entry)
      ensures readyToUse && Disjoint(nodes) && Served(nodes, SlotByKey(key)) ==>
                r.Found? && forall e :: Serves(nodes, SlotByKey(key), e) ==> e == r.entry
    {
      if !readyToUse {
        return NotInitialized;
      }
      var slot := ComputeSlot(key);
      r := SearchBySlots(slot);
    }
  }

  lemma SubsetDisjoint(entries: seq<Entry>, nodes: seq<Entry>)
    requires Disjoint(entries) && Sorted(nodes) && forall e :: e in nodes ==> e in entries
    ensures Disjoint(nodes)
  {
    forall i, j | 0 <= i < |nodes| && 0 <= j < |nodes| && i != j
      ensures nodes[i].last < nodes[j].first || nodes[j].last < nodes[i].first
    {
      assert nodes[i] in entries && nodes[j] in entries;
      var a :| 0 <= a < |entries| && entries[a] == nodes[i];
      var b :| 0 <= b < |entries| && entries[b] == nodes[j];
      assert nodes[i].first != nodes[j].first;
    }
  }

  /** A reply whose ranges are disjoint and cover every slot: each key finds the one node that serves it. */
  method RouteKey(reply: SlotsReply, key: Key) returns (r: Lookup)
    requires WellFormed(reply) && Disjoint(Usable(reply.elements))
    requires forall slot: nat | slot < SLOTS :: Served(Usable(reply.elements), slot)
    ensures r.Found? && forall e :: Serves(Usable(reply.elements), SlotByKey(key), e) <==> e == r.entry
  {
    var cluster := new Cluster();
    var ok := cluster.Init(reply);
    SubsetDisjoint(Usable(reply.elements), cluster.nodes);
    assert Served(Usable(reply.elements), SlotByKey(key));
    ghost var e :| Serves(Usable(reply.elements), SlotByKey(key), e);
    assert Serves(cluster.nodes, SlotByKey(key), e);
    r := cluster.GetConnection(key);
    assert forall x :: Serves(Usable(reply.elements), SlotByKey(key), x) ==> Serves(cluster.nodes, SlotByKey(key), x);
  }
}
