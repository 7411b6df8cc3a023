/** The generic cache handlers: batch create and list by keywords over a sharded key-value store. */
module GeneralCache {
  import opened KeySlots
  import opened Wrappers

  /** One item of a batch: its id, and its JSON text with the newline the writer ends it with. */
  datatype Item = Item(id: Key, json: string)

  datatype Write = Write(title: Key, id: Key, json: string)

  type Store = map<Key, string>

  function WriteKey(w: Write): Key { KeyOf(w.title, w.id) }

  function WritesOf(title: Key, items: seq<Item>): (r: seq<Write>)
    ensures |r| == |items|
    ensures forall i :: 0 <= i < |items| ==> r[i] == Write(title, items[i].id, items[i].json)
  {
    seq(|items|, i requires 0 <= i < |items| => Write(title, items[i].id, items[i].json))
  }

  /** The value a key should have: that of its last write. */
  function Latest(writes: seq<Write>, key: Key): Option<string> {
    if writes == [] then None
    else if WriteKey(writes[|writes| - 1]) == key then Some(writes[|writes| - 1].json)
    else Latest(writes[..|writes| - 1], key)
  }

  lemma {:induction false} LatestIsWritten(writes: seq<Write>, key: Key)
    ensures Latest(writes, key).Some? <==> exists i :: 0 <= i < |writes| && WriteKey(writes[i]) == key
  {
    if writes != [] {
      var n, front := |writes| - 1, writes[..|writes| - 1];
      LatestIsWritten(front, key);
      if WriteKey(writes[n]) != key && (exists i :: 0 <= i < |writes| && WriteKey(writes[i]) == key) {
        var i :| 0 <= i < |writes| && WriteKey(writes[i]) == key;
        assert front[i] == writes[i];
      }
    }
  }

  /** What KEYS title:* selects, for a title without pattern characters. */
  predicate Listed(title: Key, key: Key) { title + [COLON] <= key }

  /** The handler drops the newline at the end of a stored text. */
  function Stripped(json: string): string {
    if json == "" then "" else json[..|json| - 1]
  }

  /** A stored text is a text and the newline behind it. */
  predicate IsLine(json: string, text: string) { json == text + "\n" }

  lemma LineIsStripped(json: string, text: string)
    requires IsLine(json, text)
    ensures Stripped(json) == text
  {
  }

  lemma OwnKeyListed(title: Key, id: Key)
    ensures Listed(title, KeyOf(title, id))
  {
  }

  /** One title continues the other behind a colon, or is the same. */
  predicate Extends(title: Key, longer: Key) { title + [COLON] <= longer + [COLON] }

  predicate Apart(title: Key, other: Key) { !Extends(title, other) && !Extends(other, title) }

  lemma ApartNotListed(title: Key, other: Key, id: Key)
    requires Apart(title, other)
    ensures !Listed(title, KeyOf(other, id))
  {
    PrefixesNest(title + [COLON], other + [COLON], KeyOf(other, id));
  }

  lemma PrefixesNest(t: Key, o: Key, key: Key)
    ensures t <= key && o <= key ==> t <= o || o <= t
  {
  }

  /** The pattern of one title never lists a key of another exactly when neither title continues the other
      behind a colon. */
  lemma ApartIff(title: Key, other: Key)
    requires title != other
    ensures (forall id :: !Listed(title, KeyOf(other, id))) <==> Apart(title, other)
  {
    if Apart(title, other) {
      forall id ensures !Listed(title, KeyOf(other, id)) { ApartNotListed(title, other, id); }
    } else if Extends(title, other) {
      assert KeyOf(other, []) == other + [COLON];
      assert Listed(title, KeyOf(other, []));
    } else {
      var id := title[|other| + 1..] + [COLON];
      assert title[..|other| + 1] == (title + [COLON])[..|other| + 1] == other + [COLON];
      assert KeyOf(other, id) == title + [COLON];
      assert Listed(title, KeyOf(other, id));
    }
  }

  lemma LatestPush(writes: seq<Write>, w: Write)
    ensures forall key :: Latest(writes + [w], key) ==
                          if WriteKey(w) == key then Some(w.json) else Latest(writes, key)
  {
    assert (writes + [w])[..|writes|] == writes;
  }

  /** The last write to a key decides. */
  lemma {:induction false} LatestIsLast(writes: seq<Write>, i: nat)
    requires i < |writes| && forall j | i < j < |writes| :: WriteKey(writes[j]) != WriteKey(writes[i])
    ensures Latest(writes, WriteKey(writes[i])) == Some(writes[i].json)
    decreases |writes|
  {
    if i < |writes| - 1 { LatestIsLast(writes[..|writes| - 1], i); }
  }

  /** The key is made of title, colon and id, and tells them apart. */
  lemma KeyTellsId(title: Key, a: Key, b: Key)
    ensures KeyOf(title, a) == title + [0x3A] + a
    ensures KeyOf(title, a) == KeyOf(title, b) ==> a == b
  {
    assert KeyOf(title, a)[|title| + 1..] == a && KeyOf(title, b)[|title| + 1..] == b;
  }

  lemma KeyDiffers(title: Key, a: Key, b: Key)
    requires a != b
    ensures KeyOf(title, a) != KeyOf(title, b)
  {
    KeyTellsId(title, a, b);
  }

  /** No later item has the same id. */
  predicate LastItem(items: seq<Item>, i: int) {
    0 <= i < |items| && forall j | i < j < |items| :: items[j].id != items[i].id
  }

  predicate Distinct(keys: seq<Key>) { forall i, j :: 0 <= i < j < |keys| ==> keys[i] != keys[j] }

  class Cache {
    const owner: seq<nat>           // the node of each slot
    var stores: map<nat, Store>
    ghost var writes: seq<Write>

    function NodeOf(key: Key): nat
      requires |owner| == SLOTS
    {
      owner[SlotByKey(key)]
    }

    function StoreOf(node: nat): Store
      reads this
    {
      if node in stores then stores[node] else map[]
    }

    /** Each node holds the latest values of exactly the keys it owns. */
    ghost predicate Valid()
      reads this
    {
      && |owner| == SLOTS
      && forall node, key ::
           if node == NodeOf(key) && Latest(writes, key).Some?
           then key in StoreOf(node) && StoreOf(node)[key] == Latest(writes, key).value
           else key !in StoreOf(node)
    }

    constructor (owner: seq<nat>)
      requires |owner| == SLOTS
      ensures Valid() && writes == [] && this.owner == owner
    {
      this.owner, stores, writes := owner, map[], [];
    }

    method Exists(key: Key) returns (r: bool)
      requires |owner| == SLOTS
      ensures r == (key in StoreOf(NodeOf(key)))
    {
      r := key in StoreOf(NodeOf(key));
    }

    method Del(key: Key)
      requires |owner| == SLOTS
      modifies `stores
      ensures stores == old(stores)[NodeOf(key) := old(StoreOf(NodeOf(key))) - {key}]
    {
      stores := stores[NodeOf(key) := StoreOf(NodeOf(key)) - {key}];
    }

    method Hset(key: Key, json: string)
      requires |owner| == SLOTS
      modifies `stores
      ensures stores == old(stores)[NodeOf(key) := old(StoreOf(NodeOf(key)))[key := json]]
    {
      stores := stores[NodeOf(key) := StoreOf(NodeOf(key))[key := json]];
    }

    method CreateOne(title: Key, item: Item)
      requires Valid()
      modifies this
      ensures Valid() && writes == old(writes) + [Write(title, item.id, item.json)]
      ensures var key := title + [0x3A] + item.id;
              var node := owner[SlotByKey(key)];
              node in stores && key in stores[node] && stores[node][key] == item.json
    {
      hide SlotByKey;
      KeyTellsId(title, item.id, item.id);
      var key := KeyOf(title, item.id);
      var present := Exists(key);
      if present {
        Del(key);
      }
      Hset(key, item.json);
      ghost var home, w := NodeOf(key), Write(title, item.id, item.json);
      assert StoreOf(home) == old(StoreOf(home))[key := item.json];
      assert forall node :: node != home ==> StoreOf(node) == old(StoreOf(node));
      LatestPush(writes, w);
      writes := writes + [w];
      forall node, k
        ensures if node == NodeOf(k) && Latest(writes, k).Some?
                then k in StoreOf(node) && StoreOf(node)[k] == Latest(writes, k).value
                else k !in StoreOf(node)
      {
        assert Latest(writes, k) == if k == key then Some(item.json) else Latest(old(writes), k);
        assert k != key ==> (k in StoreOf(node) <==> k in old(StoreOf(node)));
        assert k == key && node != home ==> k !in old(StoreOf(node));
      }
    }

    method BatchCreate(title: Key, items: seq<Item>)
      requires Valid()
      modifies this
      ensures Valid() && writes == old(writes) + WritesOf(title, items)
    {
      hide SlotByKey;
      var i := 0;
      ghost var all := WritesOf(title, items);
      while i < |items|
        invariant 0 <= i <= |items| && Valid() && writes == old(writes) + all[..i]
      {
        CreateOne(title, items[i]);
        assert all[..i + 1] == all[..i] + [all[i]];
        i := i + 1;
      }
      assert all[..|items|] == all;
    }

    /** KEYS on the node of the pattern's slot, then one HGET for each key. */
    method ListByKeywords(title: Key) returns (keys: seq<Key>, values: seq<string>)
      requires Valid()
      ensures |keys| == |values| && Distinct(keys)
      ensures forall key :: key in keys <==>
                Latest(writes, key).Some? && title + [0x3A] <= key
                && owner[SlotByKey(key)] == owner[SlotByKey(title + [0x3A, 0x2A])]
      ensures forall i :: 0 <= i < |keys| ==>
                Latest(writes, keys[i]).Some? && values[i] == Stripped(Latest(writes, keys[i]).value)
      ensures forall i, text | 0 <= i < |keys| && IsLine(Latest(writes, keys[i]).value, text) :: values[i] == text
    {
      hide SlotByKey;
      assert KeyOf(title, [STAR]) == title + [0x3A, 0x2A];
      var node := NodeOf(KeyOf(title, [STAR]));
      var store := StoreOf(node);
      var todo := set key | key in store && Listed(title, key);
      ghost var all := todo;
      keys, values := [], [];
      while todo != {}
        invariant todo <= all && forall key :: key in keys <==> key in all - todo
        invariant |keys| == |values| && Distinct(keys)
        invariant forall i :: 0 <= i < |keys| ==>
                    Latest(writes, keys[i]).Some? && values[i] == Stripped(Latest(writes, keys[i]).value)
        decreases todo
      {
        var key :| key in todo;
        var value := StoreOf(NodeOf(key))[key];
        assert key !in keys;
        keys, values, todo := keys + [key], values + [Stripped(value)], todo - {key};
      }
      forall i, text | 0 <= i < |keys| && IsLine(Latest(writes, keys[i]).value, text) ensures values[i] == text {
        LineIsStripped(Latest(writes, keys[i]).value, text);
      }
    }

    /** Listing a tagged title returns, once each, the latest value of every id ever written under it and
        nothing written under another title. */
    method ListTitle(title: Key) returns (keys: seq<Key>, values: seq<string>)
      requires Valid() && HasTag(title)
      requires forall i :: 0 <= i < |writes| ==> writes[i].title == title || Apart(title, writes[i].title)
      ensures |keys| == |values| && Distinct(keys)
      ensures forall i :: 0 <= i < |writes| && writes[i].title == title ==> title + [0x3A] + writes[i].id in keys
      ensures forall key :: key in keys ==>
                exists i :: 0 <= i < |writes| && writes[i].title == title && WriteKey(writes[i]) == key
      ensures forall i :: 0 <= i < |keys| ==>
                Latest(writes, keys[i]).Some? && values[i] == Stripped(Latest(writes, keys[i]).value)
      ensures forall i, text | 0 <= i < |keys| && IsLine(Latest(writes, keys[i]).value, text) :: values[i] == text
    {
      keys, values := ListByKeywords(title);
      assert KeyOf(title, [STAR]) == title + [0x3A, 0x2A];
      TitleSharesSlotIff(title);
      forall i | 0 <= i < |writes| && writes[i].title == title ensures title + [0x3A] + writes[i].id in keys {
        KeyTellsId(title, writes[i].id, writes[i].id);
        LatestIsWritten(writes, WriteKey(writes[i]));
        OwnKeyListed(title, writes[i].id);
      }
      forall key | key in keys
        ensures exists i :: 0 <= i < |writes| && writes[i].title == title && WriteKey(writes[i]) == key
      {
        LatestIsWritten(writes, key);
        var i :| 0 <= i < |writes| && WriteKey(writes[i]) == key;
        if writes[i].title != title { ApartNotListed(title, writes[i].title, writes[i].id); }
      }
    }

    /** A batch of lines, and the list of their title behind it: exactly the ids of the batch, each with the text of
        its last item, without the newline it was stored with. */
    method CreateThenList(title: Key, items: seq<Item>, ghost texts: seq<string>) returns (keys: seq<Key>, values: seq<string>)
      requires Valid() && HasTag(title)
      requires forall w | w in writes :: w.title != title && Apart(title, w.title)
      requires |texts| == |items| && forall i | 0 <= i < |items| :: items[i].json == texts[i] + "\n"
      modifies this
      ensures |keys| == |values| && Distinct(keys)
      ensures forall i | LastItem(items, i) ::
                exists k :: 0 <= k < |keys| && keys[k] == title + [0x3A] + items[i].id && values[k] == texts[i]
      ensures forall key | key in keys :: exists i | 0 <= i < |items| :: key == title + [0x3A] + items[i].id
    {
      hide *;
      ghost var was := writes;
      TitlesApart(was, title, items);
      BatchCreate(title, items);
      keys, values := ListTitle(title);
      BatchIsListed(was, title, items, texts, keys, values);
    }
  }

  lemma WritesAre(was: seq<Write>, title: Key, items: seq<Item>)
    ensures var writes := was + WritesOf(title, items);
            && |writes| == |was| + |items| && writes[|was|..] == WritesOf(title, items)
            && (forall i :: 0 <= i < |was| ==> writes[i] == was[i] && writes[i] in was)
            && forall i :: 0 <= i < |items| ==> writes[|was| + i] == Write(title, items[i].id, items[i].json)
  {
  }

  lemma TitlesApart(was: seq<Write>, title: Key, items: seq<Item>)
    requires forall w | w in was :: w.title != title && Apart(title, w.title)
    ensures var writes := was + WritesOf(title, items);
            forall i :: 0 <= i < |writes| ==> writes[i].title == title || Apart(title, writes[i].title)
  {
    hide Apart;
    WritesAre(was, title, items);
    var writes := was + WritesOf(title, items);
    forall i | 0 <= i < |writes| ensures writes[i].title == title || Apart(title, writes[i].title) {
      if i >= |was| { assert writes[i] == Write(title, items[i - |was|].id, items[i - |was|].json); }
    }
  }

  lemma BatchIsListed(was: seq<Write>, title: Key, items: seq<Item>, texts: seq<string>, keys: seq<Key>, values: seq<string>)
    requires |texts| == |items| && forall i | 0 <= i < |items| :: items[i].json == texts[i] + "\n"
    requires |keys| == |values| && forall w | w in was :: w.title != title
    requires var writes := was + WritesOf(title, items);
             && (forall i :: 0 <= i < |writes| && writes[i].title == title ==> title + [0x3A] + writes[i].id in keys)
             && (forall key :: key in keys ==>
                   exists i :: 0 <= i < |writes| && writes[i].title == title && WriteKey(writes[i]) == key)
             && (forall i :: 0 <= i < |keys| ==> Latest(writes, keys[i]).Some?)
             && forall i, text | 0 <= i < |keys| && IsLine(Latest(writes, keys[i]).value, text) :: values[i] == text
    ensures forall i | LastItem(items, i) ::
              exists k :: 0 <= k < |keys| && keys[k] == title + [0x3A] + items[i].id && values[k] == texts[i]
    ensures forall key | key in keys :: exists i | 0 <= i < |items| :: key == title + [0x3A] + items[i].id
  {
    hide KeyOf, Latest;
    var writes := was + WritesOf(title, items);
    WritesAre(was, title, items);
    forall i | LastItem(items, i)
      ensures exists k :: 0 <= k < |keys| && keys[k] == title + [0x3A] + items[i].id && values[k] == texts[i]
    {
      LastIsLatest(writes, title, items, |was|, i);
      KeyTellsId(title, items[i].id, items[i].id);
      assert writes[|was| + i].title == title;
      var k :| 0 <= k < |keys| && keys[k] == KeyOf(title, items[i].id);
      assert IsLine(Latest(writes, keys[k]).value, texts[i]);
    }
    forall key | key in keys ensures exists i | 0 <= i < |items| :: key == title + [0x3A] + items[i].id {
      var n :| 0 <= n < |writes| && writes[n].title == title && WriteKey(writes[n]) == key;
      KeyTellsId(title, writes[n].id, writes[n].id);
      assert n >= |was| && writes[n] == Write(title, items[n - |was|].id, items[n - |was|].json);
    }
  }

  lemma LastIsLatest(writes: seq<Write>, title: Key, items: seq<Item>, before: nat, i: nat)
    requires before <= |writes| && writes[before..] == WritesOf(title, items) && LastItem(items, i)
    ensures before + i < |writes| && writes[before + i] == Write(title, items[i].id, items[i].json)
    ensures Latest(writes, KeyOf(title, items[i].id)) == Some(items[i].json)
  {
    hide KeyOf, Latest;
    assert forall j | before <= j < |writes| :: writes[j] == writes[before..][j - before];
    forall j | before + i < j < |writes| ensures WriteKey(writes[j]) != WriteKey(writes[before + i]) {
      KeyDiffers(title, items[i].id, items[j - before].id);
    }
    LatestIsLast(writes, before + i);
  }
}
