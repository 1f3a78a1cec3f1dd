/** The chained hash table of hash.c: doubly linked nodes hanging off bucket heads. */
module HashTable {
  import opened Strings

  /** struct hash_node */
  class Node<K, V> {
    const key: K
    const value: V
    var prev: Node?<K, V>
    var next: Node?<K, V>

    constructor (key: K, value: V)
      ensures this.key == key && this.value == value && prev == null && next == null
    {
      this.key, this.value, prev, next := key, value, null, null;
    }
  }

  /** One slot of p_nodes: the head of a chain. */
  class Slot<K(==), V> {
    var head: Node?<K, V>
    /** The nodes of the chain, head first, and the entries they hold. */
    ghost var Chain: seq<Node<K, V>>
    ghost var Entries: map<K, V>
    ghost var Repr: set<object>

    /** prev and next are mutually inverse along an acyclic chain, and null at its ends. */
    ghost predicate Linked()
      reads `head, `Chain, Chain
    {
      && head == (if Chain == [] then null else Chain[0])
      && (forall i {:trigger Chain[i].next} | 0 <= i < |Chain| ::
            Chain[i].next == if i + 1 < |Chain| then Chain[i + 1] else null)
      && (forall i {:trigger Chain[i].prev} | 0 <= i < |Chain| ::
            Chain[i].prev == if i > 0 then Chain[i - 1] else null)
    }

    static ghost predicate HasKey(chain: seq<Node<K, V>>, k: K) {
      exists i | 0 <= i < |chain| :: chain[i].key == k
    }

    /** The chain holds each entry in exactly one node. */
    static ghost predicate Holds(chain: seq<Node<K, V>>, m: map<K, V>) {
      && (forall i | 0 <= i < |chain| :: chain[i].key in m && m[chain[i].key] == chain[i].value)
      && (forall i, j | 0 <= i < j < |chain| :: chain[i].key != chain[j].key)
      && (forall k | k in m :: HasKey(chain, k))
    }

    ghost predicate Valid()
      reads this, Repr
      ensures Valid() ==> this in Repr
    {
      && this in Repr && (forall n | n in Chain :: n in Repr)
      && Linked() && Holds(Chain, Entries)
    }

    constructor ()
      ensures Valid() && fresh(Repr) && Entries == map[]
    {
      head, Chain, Entries, Repr := null, [], map[], {this};
    }

    /** The walk of hash_get_node_by_key; the ghost result says where in the chain the node stands. */
    method Find(key: K) returns (node: Node?<K, V>, ghost at: nat)
      requires Valid()
      ensures node == null <==> key !in Entries
      ensures node != null ==> node.key == key && node.value == Entries[key]
      ensures node != null ==> at < |Chain| && node == Chain[at]
    {
      assert key in Entries ==> HasKey(Chain, key);
      node, at := head, 0;
      while node != null && node.key != key
        invariant at <= |Chain|
        invariant node == if at < |Chain| then Chain[at] else null
        invariant forall j | 0 <= j < at :: Chain[j].key != key
        decreases |Chain| - at
      {
        node := node.next;
        at := at + 1;
      }
    }

    /** The end of hash_add_entry: a new node becomes the head. */
    method PushFront(key: K, value: V)
      requires Valid() && key !in Entries
      modifies Repr
      ensures Valid() && fresh(Repr - old(Repr))
      ensures Entries == old(Entries)[key := value]
    {
      var node := new Node(key, value);
      HoldsAdded(Chain, Entries, node);
      assert forall i, j | 0 <= i < j < |Chain| :: Chain[i] != Chain[j];
      hide Holds, Linked;
      LinkFront(node);
      Entries, Repr := Entries[key := value], Repr + {node};
    }

    method LinkFront(node: Node<K, V>)
      requires Linked() && node !in Chain && node.prev == null && node.next == null
      requires forall i, j | 0 <= i < j < |Chain| :: Chain[i] != Chain[j]
      modifies this`head, this`Chain, node, Chain
      ensures Linked() && Chain == [node] + old(Chain)
    {
      if head == null {
        head := node;
      } else {
        node.next := head;
        head.prev := node;
        head := node;
      }
      Chain := [node] + Chain;
    }

    /** The end of hash_free_entry: a head, middle or tail node is taken out. */
    method Remove(node: Node<K, V>, ghost at: nat)
      requires Valid() && at < |Chain| && node == Chain[at]
      modifies Repr
      ensures Valid() && Repr == old(Repr)
      ensures Entries == old(Entries) - {node.key}
    {
      HoldsRemoved(Chain, Entries, at);
      assert forall i, j | 0 <= i < j < |Chain| :: Chain[i] != Chain[j];
      hide Holds, Linked;
      Unlink(node, at);
      Entries := Entries - {node.key};
    }

    method Unlink(node: Node<K, V>, ghost at: nat)
      requires Linked() && at < |Chain| && node == Chain[at]
      requires forall i, j | 0 <= i < j < |Chain| :: Chain[i] != Chain[j]
      modifies this`head, this`Chain, Chain
      ensures Linked() && Chain == old(Chain)[..at] + old(Chain)[at + 1..]
    {
      assert node.prev == (if at > 0 then Chain[at - 1] else null);
      if node.prev != null {
        node.prev.next := node.next;
      } else {
        head := node.next;
      }
      if node.next != null {
        node.next.prev := node.prev;
      }
      Chain := Chain[..at] + Chain[at + 1..];
    }

    static lemma HoldsAdded(chain: seq<Node<K, V>>, m: map<K, V>, node: Node<K, V>)
      requires Holds(chain, m) && node.key !in m
      ensures Holds([node] + chain, m[node.key := node.value])
    {
      forall k | k in m[node.key := node.value]
        ensures HasKey([node] + chain, k)
      {
        if k == node.key {
          assert ([node] + chain)[0].key == k;
        } else {
          assert HasKey(chain, k);
          var i :| 0 <= i < |chain| && chain[i].key == k;
          assert ([node] + chain)[i + 1].key == k;
        }
      }
    }

    static lemma HoldsRemoved(chain: seq<Node<K, V>>, m: map<K, V>, at: nat)
      requires Holds(chain, m) && at < |chain|
      ensures Holds(chain[..at] + chain[at + 1..], m - {chain[at].key})
    {
      var c := chain[..at] + chain[at + 1..];
      forall k | k in m - {chain[at].key}
        ensures HasKey(c, k)
      {
        assert HasKey(chain, k);
        var i :| 0 <= i < |chain| && chain[i].key == k;
        assert c[if i < at then i else i - 1].key == k;
      }
    }
  }

  /** What a caller sees: a result, or the program stopping in bug(). */
  datatype Outcome = Done | Bug

  /** struct hash */
  class Hash<K(==, !new), V(!new)> {
    const buckets: nat
    const hashFunc: (nat, K) -> nat
    const slots: seq<Slot<K, V>>

    /** The finite map the table stands for. */
    ghost var Contents: map<K, V>
    /** The objects below this one. */
    ghost var Parts: set<object>

    function Bucket(k: K): nat { hashFunc(buckets, k) }

    /** The slots are well formed, within the given objects, and share none. */
    ghost predicate Structure(parts: set<object>)
      reads parts
      ensures Structure(parts) ==> forall b | 0 <= b < |slots| :: slots[b] in parts
    {
      && |slots| == buckets
      && (forall b | 0 <= b < buckets :: slots[b] in parts && slots[b].Repr <= parts && slots[b].Valid())
      && (forall b, c | 0 <= b < c < buckets :: slots[b].Repr !! slots[c].Repr)
    }

    /** Slot b holds entries of the map, in the bucket of their keys. */
    ghost predicate SlotAgrees(b: nat)
      requires b < |slots|
      reads `Contents, slots[b]
    {
      forall k | k in slots[b].Entries :: Bucket(k) == b && k in Contents && Contents[k] == slots[b].Entries[k]
    }

    /** The slots hold exactly the entries of the map. */
    ghost predicate Agreement()
      requires |slots| == buckets
      reads `Contents, slots
    {
      && (forall b | 0 <= b < buckets :: SlotAgrees(b))
      && (forall k | k in Contents :: Bucket(k) < buckets && k in slots[Bucket(k)].Entries)
    }

    ghost predicate Valid()
      reads this, Parts
    {
      this !in Parts && Structure(Parts) && Agreement()
    }

    /** hash_alloc */
    constructor (buckets: nat, hashFunc: (nat, K) -> nat)
      ensures Valid() && fresh(Parts) && Contents == map[]
      ensures this.buckets == buckets && this.hashFunc == hashFunc
    {
      var ss: seq<Slot<K, V>> := [];
      ghost var parts: set<object> := {};
      while |ss| < buckets
        invariant |ss| <= buckets && fresh(parts)
        invariant forall b | 0 <= b < |ss| ::
          ss[b] in parts && ss[b].Repr <= parts && ss[b].Valid() && ss[b].Entries == map[]
        invariant forall b, c | 0 <= b < c < |ss| :: ss[b].Repr !! ss[c].Repr
      {
        var slot := new Slot<K, V>();
        ss, parts := ss + [slot], parts + slot.Repr;
      }
      this.buckets, this.hashFunc, slots := buckets, hashFunc, ss;
      Contents, Parts := map[], parts;
    }

    /** hash_get_node_by_key, with bug() left to the callers */
    method GetNodeByKey(key: K) returns (node: Node?<K, V>, ghost at: nat)
      requires Valid() && Bucket(key) < buckets
      ensures node == null <==> key !in Contents
      ensures node != null ==> node.key == key && Contents[key] == node.value
      ensures node != null ==> at < |slots[Bucket(key)].Chain| && node == slots[Bucket(key)].Chain[at]
    {
      assert SlotAgrees(Bucket(key));
      node, at := slots[Bucket(key)].Find(key);
    }

    /** hash_lookup_entry */
    method LookupEntry(key: K) returns (r: Option<V>, o: Outcome)
      requires Valid()
      ensures o == (if Bucket(key) < buckets then Done else Bug)
      ensures o == Done ==> r == if key in Contents then Some(Contents[key]) else None
    {
      r, o := None, Done;
      if Bucket(key) >= buckets {
        o := Bug;
        return;
      }
      var node, _ := GetNodeByKey(key);
      if node != null {
        r := Some(node.value);
      }
    }

    /** hash_add_entry */
    method AddEntry(key: K, value: V) returns (o: Outcome)
      requires Valid()
      modifies this, Parts
      ensures Valid() && fresh(Parts - old(Parts))
      ensures o == (if Bucket(key) < buckets && key !in old(Contents) then Done else Bug)
      ensures Contents == if o == Done then old(Contents)[key := value] else old(Contents)
    {
      var present;
      present, o := LookupEntry(key);
      if o == Bug || present.Some? {
        return Bug;
      }
      InsertFresh(key, value);
    }

    method InsertFresh(key: K, value: V)
      requires Valid() && Bucket(key) < buckets && key !in Contents
      modifies this, Parts
      ensures Valid() && fresh(Parts - old(Parts))
      ensures Contents == old(Contents)[key := value]
    {
      assert SlotAgrees(Bucket(key));
      AddToSlot(Bucket(key), key, value);
      Contents := Contents[key := value];
      assert |slots| == buckets;
      hide Structure;
      forall b | 0 <= b < buckets
        ensures SlotAgrees(b)
      {
        assert old(SlotAgrees(b));
      }
    }

    method AddToSlot(b: nat, key: K, value: V)
      requires this !in Parts && Structure(Parts) && b < buckets && key !in slots[b].Entries
      modifies `Parts, slots[b].Repr
      ensures this !in Parts && Structure(Parts) && fresh(Parts - old(Parts))
      ensures slots[b].Entries == old(slots[b].Entries)[key := value]
      ensures forall c | 0 <= c < buckets && c != b :: slots[c].Entries == old(slots[c].Entries)
    {
      hide Slot.Valid;
      slots[b].PushFront(key, value);
      Parts := Parts + slots[b].Repr;
    }

    /** hash_free_entry */
    method FreeEntry(key: K) returns (o: Outcome)
      requires Valid()
      modifies this, Parts
      ensures Valid() && fresh(Parts - old(Parts))
      ensures o == (if key in old(Contents) then Done else Bug)
      ensures Contents == old(Contents) - {key}
    {
      if Bucket(key) >= buckets {
        return Bug;
      }
      var node, at := GetNodeByKey(key);
      if node == null {
        return Bug;
      }
      RemoveNode(node, at);
      return Done;
    }

    method RemoveNode(node: Node<K, V>, ghost at: nat)
      requires Valid() && Bucket(node.key) < buckets
      requires at < |slots[Bucket(node.key)].Chain| && node == slots[Bucket(node.key)].Chain[at]
      modifies this, Parts
      ensures Valid() && Parts == old(Parts)
      ensures Contents == old(Contents) - {node.key}
    {
      var bucket := Bucket(node.key);
      RemoveFromSlot(bucket, node, at);
      Contents := Contents - {node.key};
      assert |slots| == buckets;
      hide Structure, Bucket;
      forall b | 0 <= b < buckets
        ensures SlotAgrees(b)
      {
        assert old(SlotAgrees(b));
      }
    }

    method RemoveFromSlot(b: nat, node: Node<K, V>, ghost at: nat)
      requires this !in Parts && Structure(Parts) && b < buckets && at < |slots[b].Chain| && node == slots[b].Chain[at]
      modifies slots[b].Repr
      ensures Structure(Parts)
      ensures slots[b].Entries == old(slots[b].Entries) - {node.key}
      ensures forall c | 0 <= c < buckets && c != b :: slots[c].Entries == old(slots[c].Entries)
    {
      hide Slot.Valid;
      slots[b].Remove(node, at);
    }
  }
}
