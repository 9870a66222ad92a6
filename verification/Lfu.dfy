/** The LFU cache as the program builds it: nodes rewired in place, one doubly linked list per
    frequency, a hash index and a shortcut to the smallest frequency.  Every method is proved
    to do to the abstract cache `model` what LfuModel says. */
module Lfu {
  import opened Options
  import opened LfuModel

  class Node<K(0), V(0)> {
    var freq: int
    const key: K
    var value: V
    var pre: Node?<K, V>
    var next: Node?<K, V>
    ghost var home: FreqList?<K, V>  // the list the node is linked in

    constructor Sentinel()
      ensures freq == 1 && pre == null && next == null && home == null
    {
      freq, pre, next, home := 1, null, null, null;
    }

    constructor (key: K, value: V)
      ensures this.freq == 1 && this.key == key && this.value == value
      ensures pre == null && next == null && home == null
    {
      this.freq, this.key, this.value := 1, key, value;
      pre, next, home := null, null, null;
    }
  }

  lemma OthersDiffer<T>(s: seq<T>, i: nat)
    requires Distinct(s) && i < |s|
    ensures forall j :: 0 <= j < |s| && j != i ==> s[j] != s[i]
  {
  }

  lemma RemovalKeepsDistinct<T>(s: seq<T>, i: nat)
    requires Distinct(s) && i < |s|
    ensures Distinct(s[..i] + s[i + 1..])
  {
  }

  /** Neighbours in `s` point at each other. */
  ghost predicate Chained<K(0), V(0)>(s: seq<Node<K, V>>)
    reads s`pre, s`next
  {
    forall i {:trigger s[i].next} {:trigger s[i].pre} ::
      0 <= i < |s| ==> (i + 1 < |s| ==> s[i].next == s[i + 1]) && (0 < i ==> s[i].pre == s[i - 1])
  }

  lemma ChainsJoin<K(0), V(0)>(s: seq<Node<K, V>>, t: seq<Node<K, V>>)
    requires s != [] && t != [] && Chained(s) && Chained(t)
    requires s[|s| - 1].next == t[0] && t[0].pre == s[|s| - 1]
    ensures Chained(s + t)
  {
  }

  /** A doubly linked list between two sentinels, oldest node first. */
  class FreqList<K(0), V(0)> {
    const freq: int
    const head: Node<K, V>
    const tail: Node<K, V>
    ghost var chain: seq<Node<K, V>>  // all nodes in order, sentinels included
    ghost var nodes: set<Node<K, V>>  // the same nodes

    ghost predicate Valid()
      reads this, nodes`pre, nodes`next, nodes`home, tail`freq
    {
      && tail.freq == 1
      && |chain| >= 2 && chain[0] == head && chain[|chain| - 1] == tail
      && (forall i :: 0 <= i < |chain| ==> chain[i] in nodes)
      && (forall n :: n in nodes ==> n.home == this)
      && head.pre == null && tail.next == null
      && Chained(chain)
      && Distinct(chain)
    }

    ghost function Members(): seq<Node<K, V>>
      reads this
    {
      if |chain| < 2 then [] else chain[1..|chain| - 1]
    }

    constructor (n: int)
      ensures Valid() && freq == n && Members() == [] && |chain| == 2 && tail in nodes
      ensures fresh(nodes)
    {
      freq := n;
      head := new Node.Sentinel();
      tail := new Node.Sentinel();
      new;
      head.next := tail;
      tail.pre := head;
      head.home, tail.home := this, this;
      chain, nodes := [head, tail], {head, tail};
    }

    method IsEmpty() returns (empty: bool)
      requires Valid()
      ensures empty <==> Members() == []
    {
      assert chain[0].next == chain[1];
      empty := head.next == tail;
      assert |chain| > 2 ==> chain[1] != chain[|chain| - 1];
    }

    /** Links a node in front of the tail. */
    method AddNode(node: Node<K, V>)
      requires Valid() && node.home == null
      modifies `chain, `nodes, node`pre, node`next, node`home, nodes`pre, nodes`next
      ensures Valid() && nodes == old(nodes) + {node}
      ensures chain == old(chain[..|chain| - 1]) + [node, tail]
    {
      ghost var n := |chain|;
      assert chain[n - 1].pre == chain[n - 2];
      node.pre := tail.pre;
      node.next := tail;
      tail.pre.next := node;
      tail.pre := node;
      node.home := this;
      chain, nodes := chain[..n - 1] + [node, tail], nodes + {node};
    }

    /** The rewiring of a removal: what is before the node and what is after it stay chains. */
    method Detach(node: Node<K, V>, ghost i: nat)
      requires Valid() && 0 < i < |chain| - 1 && chain[i] == node
      modifies node`pre, node`next, node`home, nodes`pre, nodes`next
      ensures chain[i - 1].next == chain[i + 1] && chain[i + 1].pre == chain[i - 1]
      ensures Chained(chain[..i]) && Chained(chain[i + 1..])
      ensures head.pre == null && tail.next == null
      ensures node.pre == null && node.next == null && node.home == null
    {
      assert chain[i].pre == chain[i - 1] && chain[i].next == chain[i + 1];
      ghost var before, after := chain[..i], chain[i + 1..];
      assert Chained(before) && Chained(after);
      assert forall j :: 0 <= j < |after| ==> after[j] == chain[i + 1 + j] && after[j] != node;
      node.pre.next := node.next;
      node.next.pre := node.pre;
      node.pre := null;
      node.next := null;
      node.home := null;
      assert Chained(before) && Chained(after);
    }

    /** The nodes that a removal rewires: none if the node has no neighbours. */
    ghost function Rewired(node: Node<K, V>): set<Node<K, V>>
      reads `nodes, node`pre, node`next
    {
      if node.pre != null && node.next != null then nodes + {node} else {}
    }

    ghost function Shortened(node: Node<K, V>): set<FreqList<K, V>>
      reads node`pre, node`next
    {
      if node.pre != null && node.next != null then {this} else {}
    }

    /** Unlinks a node of the list; a node without neighbours is left alone. */
    method RemoveNode(node: Node<K, V>, ghost i: nat)
      requires Valid()
      requires node.pre != null && node.next != null ==> 0 < i < |chain| - 1 && chain[i] == node
      modifies Shortened(node)`chain, Shortened(node)`nodes, Rewired(node)`pre, Rewired(node)`next, Rewired(node)`home
      ensures Valid()
      ensures if old(node.pre != null && node.next != null)
              then node.home == null && chain == old(chain)[..i] + old(chain)[i + 1..] && nodes == old(nodes) - {node}
              else chain == old(chain) && nodes == old(nodes) && node.home == old(node.home)
    {
      if node.pre != null && node.next != null {
        ghost var before, after := chain[..i], chain[i + 1..];
        OthersDiffer(chain, i);
        RemovalKeepsDistinct(chain, i);
        Detach(node, i);
        hide Distinct;
        ChainsJoin(before, after);
        hide Chained;
        chain, nodes := before + after, nodes - {node};
      }
    }

    /** The oldest node; the tail sentinel if the list is empty. */
    method GetFirstNode() returns (node: Node<K, V>)
      requires Valid()
      ensures node == if Members() == [] then tail else Members()[0]
    {
      assert chain[0].next == chain[1];
      node := head.next;
    }
  }

  /** Between its sentinels the chain runs through the nodes of `queue`. */
  ghost predicate Links<K(0), V(0)>(chain: seq<Node<K, V>>, queue: seq<K>, index: map<K, Node<K, V>>) {
    && |chain| == |queue| + 2
    && forall i {:trigger queue[i]} :: 0 <= i < |queue| ==> queue[i] in index && chain[i + 1] == index[queue[i]]
  }

  /** `list` is the list of frequency `f`, and holds the nodes of `queue`. */
  ghost predicate Holds<K(0), V(0)>(list: FreqList<K, V>, f: int, queue: seq<K>, index: map<K, Node<K, V>>)
    reads list, list.nodes`pre, list.nodes`next, list.nodes`home, list.tail`freq
  {
    list.freq == f && list.Valid() && Links(list.chain, queue, index)
  }

  /** The index finds every entry's node. */
  ghost predicate Indexed<K(0), V(0)>(index: map<K, Node<K, V>>, entries: map<K, Entry<V>>)
    reads index.Values`freq, index.Values`value
  {
    && index.Keys == entries.Keys
    && forall k :: k in index ==> index[k].key == k && entries[k] == Entry(index[k].freq, index[k].value)
  }

  lemma HoldsAfterRemoval<K(0), V(0)>(
    list: FreqList<K, V>, f: int, was: seq<Node<K, V>>, queue: seq<K>, i: nat, index: map<K, Node<K, V>>)
    requires list.freq == f && list.Valid() && Links(was, queue, index) && i < |queue|
    requires list.chain == was[..i + 1] + was[i + 2..]
    ensures Holds(list, f, queue[..i] + queue[i + 1..], index)
  {
    var now := queue[..i] + queue[i + 1..];
    forall j | 0 <= j < |now|
      ensures now[j] in index && list.chain[j + 1] == index[now[j]]
    {
      assert now[j] == queue[if j < i then j else j + 1];
    }
  }

  class LfuCache<K(==, !new, 0), V(0)> {
    const capacity: nat
    const maxAverage: nat
    var minFreq: int
    var average: int
    var total: int
    var nodeMap: map<K, Node<K, V>>
    var lists: map<int, FreqList<K, V>>
    ghost var model: State<K, V>
    ghost var Repr: set<object>

    ghost predicate CountersAgree()
      reads this
    {
      && model.capacity == capacity && model.maxAverage == maxAverage
      && model.minFreq == minFreq && model.average == average && model.total == total
    }

    /** The footprint covers every node and list. */
    ghost predicate OwnsAll()
      reads this, Repr
    {
      && (forall k :: k in nodeMap ==> nodeMap[k] in Repr)
      && (forall f :: f in lists ==> lists[f] in Repr && lists[f].tail in Repr && lists[f].nodes <= Repr)
    }

    /** The lists other than that of `f` hold what the model says. */
    ghost predicate OthersHold(f: int)
      reads this, Repr
      requires OwnsAll()
    {
      forall g :: g in lists && g != f && g in model.queues ==> Holds(lists[g], g, model.queues[g], nodeMap)
    }

    /** The nodes, the index and the lists are those of `model`. */
    ghost predicate Consistent()
      reads this, Repr
    {
      && this in Repr && CountersAgree() && OwnsAll()
      && Indexed(nodeMap, model.entries)
      && lists.Keys == model.queues.Keys
      && forall f :: f in lists ==> Holds(lists[f], f, model.queues[f], nodeMap)
    }

    ghost predicate Valid()
      reads this, Repr
    {
      Consistent() && WellLinked(model)
    }

    constructor (capacity: nat, maxAverage: nat)
      ensures Valid() && fresh(Repr) && this in Repr && model == Init(capacity, maxAverage)
      ensures minFreq == 127 && average == total == 0 && nodeMap == map[] && lists == map[]
    {
      this.capacity, this.maxAverage := capacity, maxAverage;
      minFreq, average, total := INT8_MAX, 0, 0;
      nodeMap, lists := map[], map[];
      model := Init(capacity, maxAverage);
      Repr := {this};
    }

    /** Lists share no node. */
    lemma ListsAreApart(f: int)
      requires Consistent() && f in lists
      ensures forall g :: g in lists && g != f ==> lists[g] != lists[f] && lists[g].nodes !! lists[f].nodes
    {
      forall g | g in lists && g != f
        ensures lists[g] != lists[f] && lists[g].nodes !! lists[f].nodes
      {
        assert Holds(lists[f], f, model.queues[f], nodeMap) && Holds(lists[g], g, model.queues[g], nodeMap);
      }
    }

    lemma NodeAt(f: int, i: nat)
      requires Consistent() && f in lists && i < |model.queues[f]|
      ensures var list, node := lists[f], nodeMap[model.queues[f][i]];
              list.Valid() && i < |list.chain| - 2 && list.chain[i + 1] == node && node.pre != null && node.next != null
    {
      var list := lists[f];
      assert Holds(list, f, model.queues[f], nodeMap);
      assert model.queues[f][i] in nodeMap;
      assert list.chain[i + 1].next == list.chain[i + 2];
    }

    /** `i` is the place of the node in its queue; a sentinel has none, and stays. */
    method UnlinkFrom(list: FreqList<K, V>, node: Node<K, V>, ghost f: int, ghost i: Option<nat>)
      requires Consistent() && f in lists && lists[f] == list
      requires i.Some? ==> i.value < |model.queues[f]| && model.queues[f][i.value] in nodeMap
      requires i.Some? ==> nodeMap[model.queues[f][i.value]] == node
      requires i.None? ==> node.next == null
      modifies if i.Some? then Repr - {this} else {}
      ensures i.Some? ==> OwnsAll() && Indexed(nodeMap, model.entries) && OthersHold(f) && node.home == null
      ensures i.Some? ==> Holds(list, f, model.queues[f][..i.value] + model.queues[f][i.value + 1..], nodeMap)
    {
      hide Holds, FreqList.Valid, Links;
      ListFacts(f);
      ListsAreApart(f);
      ghost var was := list.chain;
      if i.Some? {
        NodeAt(f, i.value);
      }
      list.RemoveNode(node, if i.Some? then i.value + 1 else 0);
      if i.Some? {
        HoldsAfterRemoval(list, f, was, model.queues[f], i.value, nodeMap);
      }
    }

    ghost method NowModels(s: State<K, V>)
      requires this in Repr && OwnsAll() && Indexed(nodeMap, s.entries) && lists.Keys == s.queues.Keys
      requires forall f :: f in lists ==> Holds(lists[f], f, s.queues[f], nodeMap)
      requires s.capacity == capacity && s.maxAverage == maxAverage
      requires s.minFreq == minFreq && s.average == average && s.total == total
      modifies `model
      ensures model == s && Consistent()
    {
      hide Holds, Indexed;
      model := s;
    }

    lemma EntryIsLinked(k: K)
      requires Valid() && k in nodeMap
      ensures Linked(model, k) && model.entries[k] == Entry(nodeMap[k].freq, nodeMap[k].value) && nodeMap[k].freq >= 1
    {
    }

    /** `key` is the key of the node; a sentinel has none in the cache. */
    method RemoveFromFreqList(node: Node<K, V>, ghost key: Option<K>)
      requires Valid()
      requires key.Some? ==> key.value in nodeMap && nodeMap[key.value] == node
      requires key.None? ==> node.freq in lists && node.next == null
      modifies `model, if key.Some? then Repr - {this} else {}
      ensures Consistent()
      ensures key.Some? ==> Linked(old(model), key.value) && model == Unlink(old(model), key.value) && node.home == null
      ensures key.None? ==> model == old(model)
    {
      hide Holds, WellQueued, FreqList.Valid, Indexed;
      ghost var f := node.freq;
      ghost var place: Option<nat> := None;
      if key.Some? {
        EntryIsLinked(key.value);
        place := Some(IndexIn(model.queues[f], key.value));
      }
      UnlinkFrom(lists[node.freq], node, f, place);
      if key.Some? {
        NowModels(Unlink(model, key.value));
      }
    }

    method SetFreq(node: Node<K, V>, ghost k: K, freq: int)
      requires Consistent() && k in nodeMap && nodeMap[k] == node && node.home == null
      modifies `model, node`freq
      ensures Consistent() && node.freq == freq
      ensures model == old(model).(entries := old(model.entries)[k := Entry(freq, node.value)])
    {
      hide Holds, FreqList.Valid;
      SentinelsAreLinked();
      node.freq := freq;
      NowModels(model.(entries := model.entries[k := Entry(freq, node.value)]));
    }

    lemma SentinelsAreLinked()
      requires Consistent()
      ensures forall f :: f in lists ==> lists[f].tail.home == lists[f]
    {
      forall f | f in lists
        ensures lists[f].tail.home == lists[f]
      {
        assert Holds(lists[f], f, model.queues[f], nodeMap);
      }
    }

    method SetNodeValue(node: Node<K, V>, ghost k: K, value: V)
      requires Consistent() && k in nodeMap && nodeMap[k] == node
      modifies `model, node`value
      ensures Consistent()
      ensures model == old(model).(entries := old(model.entries)[k := Entry(node.freq, value)])
    {
      hide Holds, FreqList.Valid;
      node.value := value;
      NowModels(model.(entries := model.entries[k := Entry(node.freq, value)]));
    }

    method CreateList(f: int)
      requires Consistent() && f !in lists
      modifies `model, `lists, `Repr
      ensures Consistent() && model == old(model).(queues := old(model.queues)[f := []])
      ensures fresh(Repr - old(Repr)) && old(Repr) <= Repr
      ensures f in lists
    {
      hide Holds, FreqList.Valid, Indexed;
      var list := new FreqList<K, V>(f);
      EmptyListHolds(list, f, nodeMap);
      lists := lists[f := list];
      Repr := Repr + {list} + list.nodes;
      NowModels(model.(queues := model.queues[f := []]));
    }

    method LinkInto(list: FreqList<K, V>, node: Node<K, V>, ghost f: int, ghost k: K)
      requires Consistent() && f in lists && lists[f] == list
      requires k in nodeMap && nodeMap[k] == node && node.home == null
      modifies Repr - {this}
      ensures OwnsAll() && Indexed(nodeMap, model.entries) && OthersHold(f)
      ensures Holds(list, f, model.queues[f] + [k], nodeMap)
    {
      hide Holds, FreqList.Valid, Links;
      ListsAreApart(f);
      UnlinkedIsUnlisted(node);
      ListFacts(f);
      ghost var was := list.chain;
      list.AddNode(node);
      HoldsAfterAddition(list, f, was, model.queues[f], k, nodeMap);
    }

    lemma UnlinkedIsUnlisted(node: Node<K, V>)
      requires Consistent() && node.home == null
      ensures forall g :: g in lists ==> node !in lists[g].nodes
    {
      forall g | g in lists
        ensures node !in lists[g].nodes
      {
        assert Holds(lists[g], g, model.queues[g], nodeMap);
      }
    }

    lemma ListFacts(f: int)
      requires Consistent() && f in lists
      ensures var list := lists[f];
              list.Valid() && list.freq == f && Links(list.chain, model.queues[f], nodeMap)
    {
      assert Holds(lists[f], f, model.queues[f], nodeMap);
    }

    method AddToFreqList(node: Node<K, V>, ghost k: K)
      requires Consistent() && k in nodeMap && nodeMap[k] == node && node.home == null
      modifies `model, `lists, `Repr, Repr - {this}
      ensures Consistent() && model == Link(old(model), k)
      ensures fresh(Repr - old(Repr)) && old(Repr) <= Repr
    {
      hide Holds, FreqList.Valid, Links;
      ghost var linked := Link(model, k);
      FreqOf(k);
      if node.freq !in lists {
        CreateList(node.freq);
      }
      LinkInto(lists[node.freq], node, node.freq, k);
      NowModels(linked);
    }

    lemma FreqOf(k: K)
      requires Consistent() && k in nodeMap
      ensures k in model.entries && model.entries[k] == Entry(nodeMap[k].freq, nodeMap[k].value)
    {
    }

    lemma KeysAgree()
      requires Consistent()
      ensures nodeMap.Keys == model.entries.Keys && |nodeMap| == |model.entries| && lists.Keys == model.queues.Keys
    {
      assert |nodeMap.Keys| == |model.entries.Keys|;
    }

    /** Relinks a node under another frequency, as an access and the aging pass do. */
    method MoveNode(node: Node<K, V>, ghost k: K, freq: int)
      requires Valid() && k in nodeMap && nodeMap[k] == node && freq >= 1
      modifies `model, `lists, `Repr, Repr - {this}
      ensures Valid() && model == Move(old(model), k, freq)
      ensures node.freq == freq
      ensures fresh(Repr - old(Repr)) && old(Repr) <= Repr
    {
      hide WellQueued, Holds, FreqList.Valid, Indexed;
      EntryIsLinked(k);
      MoveKeepsLinked(model, k, freq);
      RemoveFromFreqList(node, Some(k));
      FreqOf(k);
      SetFreq(node, k, freq);
      AddToFreqList(node, k);
      FreqOf(k);
    }

    /** The node of `k` moves up; the shortcut follows if that empties the list it names. */
    method Promote(node: Node<K, V>, ghost k: K)
      requires Valid() && k in nodeMap && nodeMap[k] == node
      modifies `model, `minFreq, `lists, `Repr, Repr - {this}
      ensures Valid() && model == Accessed(old(model), k)
      ensures fresh(Repr - old(Repr)) && old(Repr) <= Repr
    {
      hide WellQueued, Holds, FreqList.Valid, Indexed, Move, Accessed;
      EntryIsLinked(k);
      AccessedIsMove(model, k);
      MoveNode(node, k, node.freq + 1);
      if node.freq - 1 == minFreq {
        KeysAgree();
        var empty := ListIsEmpty(node.freq - 1);
        if empty {
          SetMinFreq(minFreq + 1);
        }
      }
    }

    method GetInternal(node: Node<K, V>, ghost k: K) returns (value: V, ghost order: seq<K>)
      requires Valid() && k in nodeMap && nodeMap[k] == node
      modifies `model, `minFreq, `total, `average, `lists, `Repr, Repr - {this}
      ensures Valid()
      ensures Enumerates(order, nodeMap.Keys) && model == Touch(old(model), k, order)
      ensures value == old(node.value)
      ensures fresh(Repr - old(Repr)) && old(Repr) <= Repr
    {
      hide WellQueued, Holds, FreqList.Valid, Indexed, Accessed, CountAccess;
      EntryIsLinked(k);
      KeysAgree();
      value := node.value;
      Promote(node, k);
      KeysAgree();
      order := AddFreqNum();
    }

    /** `freqToFreqList_[f]->isEmpty()`. */
    method ListIsEmpty(f: int) returns (empty: bool)
      requires Consistent() && f in lists
      ensures empty <==> model.queues[f] == []
    {
      ListFacts(f);
      empty := lists[f].IsEmpty();
    }

    method AddFreqNum() returns (ghost order: seq<K>)
      requires Valid()
      modifies `model, `minFreq, `total, `average, `lists, `Repr, Repr - {this}
      ensures Valid()
      ensures Enumerates(order, nodeMap.Keys) && model == CountAccess(old(model), order)
      ensures fresh(Repr - old(Repr)) && old(Repr) <= Repr
    {
      hide WellQueued, Holds, FreqList.Valid, Indexed;
      KeysAgree();
      total := total + 1;
      average := if |nodeMap| == 0 then 0 else total / |nodeMap|;
      ghost var was := model;
      NowModels(Counted(model));
      if average > maxAverage {
        order := HandleOverMaxAverageNum();
      } else {
        order := SomeOrder(nodeMap.Keys);
      }
    }

    method AgeNode(node: Node<K, V>, ghost k: K)
      requires Valid() && k in nodeMap && nodeMap[k] == node
      modifies `model, `lists, `Repr, Repr - {this}
      ensures Valid() && Linked(old(model), k) && model == AgeOne(old(model), k)
      ensures k in old(model).entries && k in model.entries
      ensures var was, now := old(model).entries[k].freq, model.entries[k].freq;
              now >= 1 && (now == was - maxAverage / 2 || (now == 1 && was <= 1 + maxAverage / 2))
      ensures fresh(Repr - old(Repr)) && old(Repr) <= Repr
    {
      hide WellQueued, Holds, FreqList.Valid, Indexed, Move;
      EntryIsLinked(k);
      AgeOneLowers(model, k);
      var freq := node.freq - maxAverage / 2;
      MoveNode(node, k, if freq < 1 then 1 else freq);
    }

    /** Ages every node; the walk visits the index in any order, and the structure is intact
        after each node. */
    method AgeNodes() returns (ghost order: seq<K>)
      requires Valid()
      modifies `model, `lists, `Repr, Repr - {this}
      ensures Valid() && Enumerates(order, nodeMap.Keys)
      ensures model == Age(old(model), order)
      ensures fresh(Repr - old(Repr)) && old(Repr) <= Repr
    {
      hide WellQueued, Holds, FreqList.Valid, Indexed, AgeOne, Age, Enumerates, Consistent;
      WalkOfNone(model);
      KeysAgree();
      order := [];
      var rest := nodeMap.Keys;
      assert nodeMap.Keys - rest == {};
      while rest != {}
        invariant Valid() && rest <= nodeMap.Keys
        invariant Enumerates(order, nodeMap.Keys - rest)
        invariant forall k :: k in order ==> k in old(model).entries
        invariant model == Age(old(model), order)
        invariant fresh(Repr - old(Repr)) && old(Repr) <= Repr
      {
        var k :| k in rest;
        AgeNode(nodeMap[k], k);
        AgeExtended(old(model), order, k);
        WalkExtended(order, nodeMap.Keys, rest, k);
        order, rest := order + [k], rest - {k};
      }
      assert nodeMap.Keys - rest == nodeMap.Keys;
    }

    method HandleOverMaxAverageNum() returns (ghost order: seq<K>)
      requires Valid()
      modifies `model, `minFreq, `lists, `Repr, Repr - {this}
      ensures Valid() && Enumerates(order, nodeMap.Keys)
      ensures var aged := Age(old(model), order); model == aged.(minFreq := Refreshed(aged.queues))
      ensures fresh(Repr - old(Repr)) && old(Repr) <= Repr
    {
      hide WellQueued, Holds, FreqList.Valid, Indexed, Age;
      KeysAgree();
      order := AgeNodes();
      UpdateMinFreq();
    }

    method UpdateMinFreq()
      requires Valid()
      modifies `minFreq, `model
      ensures Valid() && model == old(model).(minFreq := Refreshed(old(model).queues))
    {
      hide WellQueued, Holds, FreqList.Valid, Indexed;
      KeysAgree();
      var least, rest := INT8_MAX, lists.Keys;
      while rest != {}
        invariant rest <= lists.Keys && least <= INT8_MAX
        invariant least == INT8_MAX || least in LiveFreqs(model.queues)
        invariant forall f :: f in LiveFreqs(model.queues) && f !in rest ==> least <= f
        modifies {}
      {
        ghost var some := AMember(rest);
        var f :| f in rest;
        var empty := ListIsEmpty(f);
        if !empty && f < least {
          least := f;
        }
        rest := rest - {f};
      }
      LeastIsUnique(LiveFreqs(model.queues), least);
      SetMinFreq(if least == INT8_MAX then 1 else least);
    }

    method DecreaseFreqNum(num: int)
      requires Valid()
      modifies `model, `total, `average
      ensures Valid()
      ensures model == old(model).(total := old(model).total - num,
                                   average := AverageOf(old(model).total - num, |old(model).entries|))
    {
      hide WellQueued, Holds, FreqList.Valid, Indexed;
      KeysAgree();
      total := total - num;
      average := if |nodeMap| == 0 then 0 else total / |nodeMap|;
      NowModels(model.(total := total, average := average));
    }

    /** Takes an unlinked key out of the index, if it is there. */
    method EraseKey(k: K)
      requires Consistent() && WellLinked(model.(entries := model.entries - {k}))
      modifies `model, `nodeMap
      ensures Consistent() && model == old(model).(entries := old(model).entries - {k})
    {
      hide WellQueued, Holds, FreqList.Valid;
      ghost var was := nodeMap;
      nodeMap := nodeMap - {k};
      forall f | f in lists
        ensures Holds(lists[f], f, model.queues[f], nodeMap)
      {
        QueuedKeys(model.(entries := model.entries - {k}), f);
        HoldsReindexed(lists[f], f, model.queues[f], was, nodeMap);
      }
      NowModels(model.(entries := model.entries - {k}));
    }

    /** The key of the sentinel that an eviction without a node works on is not in the cache. */
    ghost predicate SentinelApart()
      reads this, Repr
    {
      Consistent() && (!CanEvict(model) && minFreq in lists ==> lists[minFreq].tail.key !in nodeMap)
    }

    /** Evicts the oldest node of the list that `minFreq` names.  If there is none the tail
        sentinel is taken for one: its list keeps it, and the total goes down by its frequency. */
    method KickOut()
      requires Valid() && Named(model) && model.entries != map[] && SentinelApart()
      modifies `model, `nodeMap, `total, `average, Repr - {this}
      ensures Valid() && model == if CanEvict(old(model)) then LfuModel.KickOut(old(model)) else Missed(old(model))
    {
      hide WellQueued, Holds, FreqList.Valid, Indexed, LfuModel.KickOut, CanEvict, Consistent, LfuCache.SentinelApart;
      ghost var was := model;
      if CanEvict(model) {
        VictimIsEntry(model);
      }
      var node := ForgetFirst();
      DecreaseFreqNum(node.freq);
      if !CanEvict(was) {
        assert model == Missed(was);
      }
    }

    method ForgetFirst() returns (node: Node<K, V>)
      requires Valid() && Named(model) && model.entries != map[] && SentinelApart()
      modifies `model, `nodeMap, Repr - {this}
      ensures Valid()
      ensures CanEvict(old(model)) ==> node.freq == old(model).minFreq && Linked(old(model), Victim(old(model)))
      ensures CanEvict(old(model)) ==>
                model == Unlink(old(model), Victim(old(model))).(entries := old(model).entries - {Victim(old(model))})
      ensures !CanEvict(old(model)) ==> model == old(model) && node.freq == 1
    {
      hide WellQueued, Holds, FreqList.Valid, Indexed, Unlink;
      KeysAgree();
      node := FirstOf(minFreq);
      ghost var key: Option<K> := None;
      if CanEvict(model) {
        VictimIsEntry(model);
        FreqOf(node.key);
        key := Some(node.key);
      }
      Forget(node, key);
    }

    method Forget(node: Node<K, V>, ghost key: Option<K>)
      requires Valid()
      requires key.Some? ==> node.key == key.value && node.key in nodeMap && nodeMap[node.key] == node
      requires key.None? ==> node.key !in nodeMap && node.freq in lists && node.next == null
      modifies `model, `nodeMap, if key.Some? then Repr - {this} else {}
      ensures Valid() && node.freq == old(node.freq)
      ensures key.Some? ==> Linked(old(model), node.key)
      ensures key.Some? ==> model == Unlink(old(model), node.key).(entries := old(model).entries - {node.key})
      ensures key.None? ==> model == old(model)
    {
      hide WellQueued, Holds, FreqList.Valid, Indexed;
      KeysAgree();
      if key.Some? {
        EntryIsLinked(node.key);
        UnlinkKeepsOthers(model, node.key);
      } else {
        assert model.entries - {node.key} == model.entries;
      }
      RemoveFromFreqList(node, key);
      if key.Some? {
        FreqOf(node.key);
      }
      EraseKey(node.key);
    }

    method FirstOf(f: int) returns (node: Node<K, V>)
      requires Consistent() && f in lists
      ensures model.queues[f] != [] ==>
                model.queues[f][0] in nodeMap && node == nodeMap[model.queues[f][0]] && node.key == model.queues[f][0]
      ensures model.queues[f] == [] ==> node == lists[f].tail && node.freq == 1 && node.next == null
    {
      ListFacts(f);
      node := lists[f].GetFirstNode();
      assert model.queues[f] != [] ==> model.queues[f][0] in nodeMap;
    }

    /** Puts a fresh node into the index. */
    method NewEntry(key: K, value: V) returns (node: Node<K, V>)
      requires Consistent() && key !in nodeMap && WellLinked(model)
      modifies `model, `nodeMap, `Repr
      ensures Consistent() && model == old(model).(entries := old(model).entries[key := Entry(1, value)])
      ensures key in nodeMap && node == nodeMap[key] && node.home == null
      ensures fresh(Repr - old(Repr)) && old(Repr) <= Repr
    {
      hide WellQueued, Holds, FreqList.Valid;
      ghost var was := nodeMap;
      node := new Node(key, value);
      nodeMap := nodeMap[key := node];
      Repr := Repr + {node};
      forall f | f in lists
        ensures Holds(lists[f], f, model.queues[f], nodeMap)
      {
        QueuedKeys(model, f);
        HoldsReindexed(lists[f], f, model.queues[f], was, nodeMap);
      }
      NowModels(model.(entries := model.entries[key := Entry(1, value)]));
    }

    method PutInternal(key: K, value: V) returns (ghost order: seq<K>)
      requires Valid() && key !in nodeMap && capacity != 0 && (|nodeMap| == capacity ==> Named(model) && SentinelApart())
      modifies this, Repr
      ensures Valid() && Enumerates(order, MadeRoom(old(model)).entries.Keys + {key})
      ensures key !in old(model).entries && model == Insert(MadeRoom(old(model)), key, value, order)
      ensures fresh(Repr - old(Repr)) && old(Repr) <= Repr
    {
      hide WellQueued, Holds, FreqList.Valid, Indexed, CountAccess, LfuModel.KickOut;
      KeysAgree();
      if |nodeMap| == capacity {
        KickOut();
        KeysAgree();
      }
      order := InsertNew(key, value);
    }

    method AddEntry(key: K, value: V)
      requires Valid() && key !in nodeMap
      modifies `model, `nodeMap, `lists, `Repr, Repr - {this}
      ensures Valid() && key !in old(model).entries && model == Added(old(model), key, value)
      ensures fresh(Repr - old(Repr)) && old(Repr) <= Repr
    {
      hide WellQueued, Holds, FreqList.Valid, Indexed;
      KeysAgree();
      ghost var added := Added(model, key, value);
      var node := NewEntry(key, value);
      AddToFreqList(node, key);
      assert model == added;
    }

    method InsertNew(key: K, value: V) returns (ghost order: seq<K>)
      requires Valid() && key !in nodeMap
      modifies this, Repr
      ensures Valid() && key !in old(model).entries && Enumerates(order, old(model).entries.Keys + {key})
      ensures model == Insert(old(model), key, value, order)
      ensures fresh(Repr - old(Repr)) && old(Repr) <= Repr
    {
      hide WellQueued, Holds, FreqList.Valid, Indexed, CountAccess, Added, Enumerates;
      AddEntry(key, value);
      KeysAgree();
      order := AddFreqNum();
      SetMinFreq(if minFreq < 1 then minFreq else 1);
    }

    method SetMinFreq(f: int)
      requires Valid()
      modifies `minFreq, `model
      ensures Valid() && model == old(model).(minFreq := f)
    {
      hide WellQueued, Holds, FreqList.Valid, Indexed;
      minFreq := f;
      NowModels(model.(minFreq := f));
    }

    /** A key that is there gets the value and counts as accessed. */
    method UpdateEntry(key: K, value: V) returns (ghost order: seq<K>)
      requires Valid() && key in nodeMap
      modifies `model, `minFreq, `total, `average, `lists, `Repr, Repr - {this}
      ensures Valid() && key in old(model).entries && Enumerates(order, old(model).entries.Keys)
      ensures model == Touch(SetValue(old(model), key, value), key, order)
      ensures fresh(Repr - old(Repr)) && old(Repr) <= Repr
    {
      hide WellQueued, Holds, FreqList.Valid, Indexed, Touch;
      KeysAgree();
      FreqOf(key);
      var node := nodeMap[key];
      ghost var stored := SetValue(model, key, value);
      SetNodeValue(node, key, value);
      assert model == stored;
      var unused;
      unused, order := GetInternal(node, key);
    }

    /** `order` is the walk of the aging pass, if the operation came to one. */
    method Put(key: K, value: V) returns (ghost order: seq<K>)
      requires Valid() && (Evicts(model, Op.Put(key, value, [])) ==> Named(model) && SentinelApart())
      modifies this, Repr
      ensures Valid()
      ensures Admissible(old(model), Op.Put(key, value, order))
      ensures model == Step(old(model), Op.Put(key, value, order))
      ensures fresh(Repr - old(Repr)) && old(Repr) <= Repr
    {
      hide WellQueued, Holds, FreqList.Valid, Indexed, MadeRoom, SetValue, Touch, Insert;
      KeysAgree();
      order := [];
      if capacity == 0 {
        return;
      }
      if key in nodeMap {
        order := UpdateEntry(key, value);
      } else {
        order := PutInternal(key, value);
      }
    }

    method Get(key: K) returns (hit: Option<V>, ghost order: seq<K>)
      requires Valid()
      modifies this, Repr
      ensures Valid() && hit == Lookup(old(model), key)
      ensures Admissible(old(model), Op.Get(key, order))
      ensures model == Step(old(model), Op.Get(key, order))
      ensures fresh(Repr - old(Repr)) && old(Repr) <= Repr
    {
      hide WellQueued, Holds, FreqList.Valid, Indexed, CountAccess;
      KeysAgree();
      if key in nodeMap {
        FreqOf(key);
        var value;
        value, order := GetInternal(nodeMap[key], key);
        hit := Some(value);
      } else {
        order := SomeOrder(model.entries.Keys);
        hit := None;
      }
    }

    method Purge()
      requires Valid()
      modifies this
      ensures Valid() && model == Step(old(model), Op.Purge)
      ensures nodeMap == map[] && lists == map[]
      ensures minFreq == old(minFreq) && average == old(average) && total == old(total)
      ensures Repr == old(Repr)
    {
      nodeMap, lists := map[], map[];
      model := model.(entries := map[], queues := map[]);
    }
  }

  lemma VictimIsEntry<K(!new), V>(s: State<K, V>)
    requires WellLinked(s) && CanEvict(s)
    ensures Victim(s) in s.entries && s.entries[Victim(s)].freq == s.minFreq
    ensures Linked(s, Victim(s)) && s.minFreq in s.queues && s.queues[s.minFreq] != []
    ensures var rest := Unlink(s, Victim(s)).(entries := s.entries - {Victim(s)});
            var total := s.total - s.minFreq;
            LfuModel.KickOut(s) == rest.(total := total, average := AverageOf(total, |rest.entries|))
  {
    assert s.queues[s.minFreq][0] in s.entries;
    assert (s.entries - {Victim(s)}).Keys == s.entries.Keys - {Victim(s)};
  }

  lemma QueuedKeys<K(!new), V>(s: State<K, V>, f: int)
    requires WellLinked(s) && f in s.queues
    ensures forall k :: k in s.queues[f] ==> k in s.entries
  {
  }

  /** The index may change at keys that are not queued. */
  lemma HoldsReindexed<K(0), V(0)>(
    list: FreqList<K, V>, f: int, queue: seq<K>, was: map<K, Node<K, V>>, now: map<K, Node<K, V>>)
    requires Holds(list, f, queue, was)
    requires forall k :: k in queue ==> k in was && k in now && was[k] == now[k]
    ensures Holds(list, f, queue, now)
  {
    forall i | 0 <= i < |queue|
      ensures queue[i] in now && list.chain[i + 1] == now[queue[i]]
    {
      assert queue[i] in queue;
    }
  }

  lemma AMember<T>(s: set<T>) returns (x: T)
    requires s != {}
    ensures x in s
  {
    x :| x in s;
  }

  /** `Accessed` in terms of the relinked cache. */
  lemma AccessedIsMove<K(!new), V>(s: State<K, V>, k: K)
    requires WellLinked(s) && k in s.entries
    ensures var f := s.entries[k].freq;
            var moved := Move(s, k, f + 1);
            && f in s.queues && f in moved.queues && moved.minFreq == s.minFreq
            && Accessed(s, k) == if f == s.minFreq && moved.queues[f] == [] then moved.(minFreq := s.minFreq + 1) else moved
  {
    hide WellQueued;
    LinkedEntry(s, k);
  }

  lemma LinkedEntry<K(!new), V>(s: State<K, V>, k: K)
    requires WellLinked(s) && k in s.entries
    ensures Linked(s, k)
  {
  }

  lemma WalkOfNone<K(!new), V>(s: State<K, V>)
    requires WellLinked(s)
    ensures Enumerates<K>([], {}) && Age(s, []) == s
  {
  }

  /** The walk of a set, one key further. */
  lemma WalkExtended<K(!new)>(order: seq<K>, keys: set<K>, rest: set<K>, k: K)
    requires rest <= keys && Enumerates(order, keys - rest) && k in rest
    ensures Enumerates(order + [k], keys - (rest - {k}))
  {
  }

  lemma AgeExtended<K(!new), V>(s: State<K, V>, order: seq<K>, k: K)
    requires WellLinked(s) && (forall j :: j in order ==> j in s.entries) && k in s.entries
    ensures Linked(Age(s, order), k)
    ensures Age(s, order + [k]) == AgeOne(Age(s, order), k)
  {
    assert (order + [k])[..|order|] == order;
  }

  lemma EmptyListHolds<K(0), V(0)>(list: FreqList<K, V>, f: int, index: map<K, Node<K, V>>)
    requires list.Valid() && list.freq == f && |list.chain| == 2
    ensures Holds(list, f, [], index)
  {
  }

  lemma HoldsAfterAddition<K(0), V(0)>(
    list: FreqList<K, V>, f: int, was: seq<Node<K, V>>, queue: seq<K>, k: K, index: map<K, Node<K, V>>)
    requires list.freq == f && list.Valid() && Links(was, queue, index) && k in index
    requires list.chain == was[..|was| - 1] + [index[k], list.tail]
    ensures Holds(list, f, queue + [k], index)
  {
  }
}