/** The sentinel-headed linked list of Cond/producer_consumer.c, on the heap. */
module ListNode {
  import opened Wrappers

  class Node {
    var data: int
    var next: Node?

    // creatNode; the model takes allocation to succeed.
    constructor (data: int)
      ensures this.data == data && next == null
    {
      this.data := data;
      next := null;
    }
  }

  class List {
    // The sentinel that InitList allocates; its data is never looked at.
    const head: Node
    // The linked nodes behind the sentinel, in the order the `next` pointers visit them.
    ghost var spine: seq<Node>
    // The nodes given back to the allocator.
    ghost var freed: set<Node>

    // The chain visits each node of `spine` once and then ends: it is acyclic, and no freed node
    // is reached.
    ghost predicate Valid()
      reads this, head, spine
    {
      && head !in spine && head !in freed
      && (forall i | 0 <= i < |spine| :: spine[i] !in freed)
      && (forall i, j | 0 <= i < j < |spine| :: spine[i] != spine[j])
      && head.next == NodeAt(0)
      && (forall i | 0 <= i < |spine| :: spine[i].next == NodeAt(i + 1))
    }

    ghost function NodeAt(i: nat): Node?
      reads this
    {
      if i < |spine| then spine[i] else null
    }

    ghost function Contents(): seq<int>
      reads this, spine
    {
      seq(|spine|, i requires 0 <= i < |spine| reads this, spine => spine[i].data)
    }

    constructor ()
      ensures Valid() && fresh(head) && Contents() == [] && freed == {}
    {
      head := new Node(0);
      spine, freed := [], {};
    }

    // The source answers 0 for an empty list and 1 for any other.
    method IsEmpty() returns (r: int)
      requires Valid()
      ensures r == if Contents() == [] then 0 else 1
    {
      r := if head.next == null then 0 else 1;
    }

    method PushHead(data: int)
      requires Valid()
      modifies this, head
      ensures Valid()
      ensures Contents() == [data] + old(Contents())
      ensures |spine| > 0 && fresh(spine[0]) && spine[1..] == old(spine) && freed == old(freed)
    {
      var node := new Node(data);
      node.next := head.next;
      head.next := node;
      spine := [node] + spine;
    }

    // Unlinks and frees the first node and returns its value. On an empty list the source prints a message
    // and leaves `*data` alone: None.
    method PopHead() returns (data: Option<int>)
      requires Valid()
      modifies this, head
      ensures Valid()
      ensures old(spine) == [] ==> data == None && spine == [] && freed == old(freed)
      ensures old(spine) != [] ==> data == Some(old(Contents())[0]) && spine == old(spine)[1..]
      ensures old(spine) != [] ==> freed == old(freed) + {old(spine)[0]}
      ensures Contents() == if old(Contents()) == [] then [] else old(Contents())[1..]
    {
      var empty := IsEmpty();
      if empty == 0 {
        return None;
      }
      var del := head.next;
      head.next := del.next;
      data := Some(del.data);
      freed := freed + {del};
      spine := spine[1..];
    }

    // What the loop over the chain prints; that the loop ends is the acyclicity of Valid.
    method ShowList() returns (printed: seq<int>)
      requires Valid()
      ensures printed == Contents()
    {
      var cur := head.next;
      ghost var i := 0;
      printed := [];
      while cur != null
        invariant i <= |spine| && cur == NodeAt(i)
        invariant printed == Contents()[..i]
        decreases |spine| - i
      {
        printed := printed + [cur.data];
        cur := cur.next;
        i := i + 1;
      }
    }
  }
}
