/** Who owns which partition. */
module PartitionTable {

  type Pid = x: int | 0 <= x < 0x1_0000
  type NodeId = nat

  datatype Ownership = Owned(node: NodeId) | Transferring(source: NodeId, target: NodeId)

  type Table = map<Pid, Ownership>

  /** The node currently responsible for processing. */
  function ActiveNode(o: Ownership): (n: NodeId) {
    match o
    case Owned(n) => n
    case Transferring(source, _) => source
  }

  /** `order` lists the table's partitions once each: one possible iteration order of its hash map. */
  ghost predicate Enumerates(order: seq<Pid>, keys: set<Pid>) {
    && (forall i, j :: 0 <= i < j < |order| ==> order[i] != order[j])
    && (forall p :: p in order <==> p in keys)
  }

  lemma {:induction false} EnumerationSize(order: seq<Pid>, keys: set<Pid>)
    requires Enumerates(order, keys)
    ensures |order| == |keys|
  {
    if order == [] {
      assert keys == {};
    } else {
      var last := |order| - 1;
      var rest := order[..last];
      assert order == rest + [order[last]];
      assert order[last] !in rest;
      EnumerationSize(rest, keys - {order[last]});
      assert keys == (keys - {order[last]}) + {order[last]};
    }
  }
}
