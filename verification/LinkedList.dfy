/**
 The intrusive circular list of linked_list.c: my_write appends a node, my_read walks the
 list, hello_exit unlinks and frees every node while it walks.
 */
module LinkedList {
  import opened Kernel
  import opened MessageBuffer

  /** A list_head; for a my_list node with the datum it is embedded in. */
  class ListNode {
    var next: ListNode?
    var prev: ListNode?
    var data: int

    constructor (data: int)
      ensures this.data == data
    {
      this.data := data;
      next, prev := null, null;
    }
  }

  class DeviceList {
    const head: ListNode
    /** temp_value, a 32-bit int. */
    var tempValue: int
    /** The linked nodes in order, and the freed ones in the order of their kfree. */
    ghost var nodes: seq<ListNode>
    ghost var freed: seq<ListNode>

    ghost function First(): ListNode
      reads this
    {
      if nodes == [] then head else nodes[0]
    }

    ghost function Last(): ListNode
      reads this
    {
      if nodes == [] then head else nodes[|nodes| - 1]
    }

    ghost predicate Distinct()
      reads this
    {
      && (forall i, j | 0 <= i < j < |nodes| :: nodes[i] != nodes[j])
      && head !in nodes && head !in freed
      && (forall n | n in nodes :: n !in freed)
    }

    /** next and prev are inverse all round one cycle through the head. */
    ghost predicate Linked()
      reads this, head, nodes
    {
      && head.next == First() && First().prev == head
      && Last().next == head && head.prev == Last()
      && (forall i {:trigger nodes[i].next} | 0 <= i < |nodes| - 1 :: nodes[i].next == nodes[i + 1])
      && (forall i {:trigger nodes[i].prev} | 1 <= i < |nodes| :: nodes[i].prev == nodes[i - 1])
    }

    ghost predicate Valid()
      reads this, head, nodes
    {
      Distinct() && Linked()
    }

    /** The list holds 1, 2, 3, ... in insertion order (as a 32-bit int counts). */
    ghost predicate Counted()
      reads this, nodes
    {
      tempValue == Int32(|nodes|) && forall i | 0 <= i < |nodes| :: nodes[i].data == Int32(i + 1)
    }

    /** LIST_HEAD(head_node) */
    constructor ()
      ensures Valid() && Counted() && nodes == [] && freed == [] && fresh(head)
    {
      var h := new ListNode(0);
      h.next := h;
      h.prev := h;
      head := h;
      tempValue := 0;
      nodes, freed := [], [];
    }

    /** Loads that must not touch a freed node. */
    method Next(n: ListNode) returns (r: ListNode?)
      requires n !in freed
      ensures r == n.next
    {
      r := n.next;
    }

    /** The list part of my_write: `memory` tells whether kmalloc succeeds. */
    method Append(memory: bool) returns (ok: bool)
      requires Valid()
      modifies this`tempValue, this`nodes, head, nodes
      ensures Valid() && ok == memory && freed == old(freed)
      ensures ok ==> |nodes| == |old(nodes)| + 1 && nodes[..|old(nodes)|] == old(nodes) && fresh(nodes[|old(nodes)|])
      ensures !ok ==> nodes == old(nodes) && tempValue == old(tempValue)
      ensures forall n | n in old(nodes) :: n.data == old(n.data)
      ensures old(Counted()) ==> Counted()
    {
      if !memory {
        return false;
      }
      tempValue := Int32(tempValue + 1);
      var node := new ListNode(tempValue);
      AddTail(node);
      return true;
    }

    /** INIT_LIST_HEAD and list_add_tail. */
    method AddTail(node: ListNode)
      requires Valid() && node != head && node !in nodes && node !in freed
      modifies this`nodes, head, nodes, node
      ensures Valid() && nodes == old(nodes) + [node] && freed == old(freed) && node.data == old(node.data)
      ensures forall n | n in old(nodes) :: n.data == old(n.data)
    {
      node.next := node;
      node.prev := node;
      var prev := head.prev;
      head.prev := node;
      node.next := head;
      node.prev := prev;
      prev.next := node;
      nodes := nodes + [node];
    }

    /** The walk of my_read: visits every node once, in order, and stops. */
    method Traverse() returns (visited: seq<int>)
      requires Valid()
      ensures |visited| == |nodes| && forall i | 0 <= i < |nodes| :: visited[i] == nodes[i].data
      ensures Counted() ==> forall i | 0 <= i < |visited| :: visited[i] == Int32(i + 1)
    {
      visited := [];
      var temp := Next(head);
      while temp != head
        invariant |visited| <= |nodes| && temp == if |visited| == |nodes| then head else nodes[|visited|]
        invariant forall i | 0 <= i < |visited| :: visited[i] == nodes[i].data
        decreases |nodes| - |visited|
      {
        assert temp !in freed;
        visited := visited + [temp.data];
        temp := Next(temp);
      }
    }

    /** list_del: unlinks `n`, which is the first node of the list, and poisons its links. */
    method DeleteFirst(n: ListNode)
      requires Valid() && |nodes| > 0 && n == nodes[0]
      modifies this`nodes, head, nodes
      ensures Valid() && nodes == old(nodes)[1..] && freed == old(freed) && n.next == null && n.prev == null
      ensures n !in freed && n !in nodes && n != head
    {
      n.next.prev := n.prev;
      n.prev.next := n.next;
      n.next := null;
      n.prev := null;
      nodes := nodes[1..];
    }

    /** A node is freed at most once, and only after it has been unlinked. */
    method Free(n: ListNode)
      requires Valid() && n !in freed && n != head && n !in nodes
      modifies this`freed
      ensures Valid() && freed == old(freed) + [n]
    {
      freed := freed + [n];
    }

    /** One turn of the exit loop: the first node is unlinked and freed. */
    method RemoveFirst(n: ListNode)
      requires Valid() && |nodes| > 0 && n == nodes[0]
      modifies this`nodes, this`freed, head, nodes
      ensures Valid() && nodes == old(nodes)[1..] && freed + nodes == old(freed + nodes)
    {
      DeleteFirst(n);
      Free(n);
    }

    /** The successor of the first node: the next one, or the head after the last. */
    ghost predicate Follows(temp: ListNode?)
      reads this
    {
      |nodes| > 0 && temp == if |nodes| == 1 then head else nodes[1]
    }

    /** One turn of the exit loop, with the two cursors of list_for_each_entry_safe. */
    method RemoveAndAdvance(n: ListNode, after: ListNode) returns (cursor: ListNode, temp: ListNode?)
      requires Valid() && |nodes| > 0 && n == nodes[0] && Follows(after)
      modifies this`nodes, this`freed, head, nodes
      ensures Valid() && nodes == old(nodes)[1..] && freed + nodes == old(freed + nodes)
      ensures cursor == First() && (cursor != head ==> Follows(temp))
    {
      RemoveFirst(n);
      cursor := after;
      assert cursor == First();
      temp := Next(cursor);
    }

    /** The loop of hello_exit. */
    method DeleteAll()
      requires Valid()
      modifies this`nodes, this`freed, head, nodes
      ensures Valid() && nodes == [] && freed == old(freed) + old(nodes)
      ensures head.next == head && head.prev == head
    {
      ghost var k := 0;
      var cursor := Next(head);
      var temp := Next(cursor);
      while cursor != head
        invariant Valid() && freed + nodes == old(freed + nodes)
        invariant k <= |old(nodes)| && nodes == old(nodes)[k..]
        invariant cursor == First()
        invariant cursor != head ==> Follows(temp)
        decreases |nodes|
      {
        cursor, temp := RemoveAndAdvance(cursor, temp);
        k := k + 1;
      }
    }
  }

  /** The module: a message buffer and a list that grows by one node a message. */
  class ListModule {
    const device: MessageDevice
    const list: DeviceList

    ghost predicate Valid()
      reads this, device, device.deviceBuffer, list, list.head, list.nodes
    {
      device.Valid() && list.Valid() && list.Counted()
    }

    constructor ()
      ensures Valid() && list.nodes == [] && fresh(list) && fresh(list.head) && fresh(device.deviceBuffer)
    {
      device := new MessageDevice();
      list := new DeviceList();
    }

    /** my_write: a fault ends the call before a node is made; when no memory is left for the
        node, the message has already replaced the old one. */
    method MyWrite(msg: seq<Byte>, copied: nat, zeroTail: bool, memory: bool) returns (result: Result)
      requires Valid() && copied <= Min(|msg|, BUFF_SIZE)
      modifies device.deviceBuffer, list`tempValue, list`nodes, list.head, list.nodes
      ensures Valid()
      ensures device.deviceBuffer[..] == Write(old(device.deviceBuffer[..]), msg, copied, zeroTail).0
      ensures |list.nodes| == |old(list.nodes)| + (if result.Count? then 1 else 0)
      ensures list.nodes[..|old(list.nodes)|] == old(list.nodes)
      ensures result == if copied < Min(|msg|, BUFF_SIZE) then Fault else if memory then Count(Min(|msg|, BUFF_SIZE)) else NoMemory
    {
      result := device.MyWrite(msg, copied, zeroTail);
      if result.Fault? {
        return;
      }
      var ok := list.Append(memory);
      if !ok {
        return NoMemory;
      }
    }

    /** my_read prints the list, if there is a message to hand out. */
    method MyRead(offset: nat, copyOk: bool) returns (printed: seq<int>, data: seq<Byte>, offset': nat, result: Result)
      requires Valid()
      modifies device.deviceBuffer
      ensures Valid() && device.deviceBuffer[..] == old(device.deviceBuffer[..])
      ensures (data, offset', result) == Read(old(device.deviceBuffer[..]), offset, copyOk)
      ensures printed == if offset >= Strlen(old(device.deviceBuffer[..])) then [] else seq(|list.nodes|, i => Int32(i + 1))
    {
      var length := device.StringLength();
      printed := [];
      if offset < length {
        printed := list.Traverse();
      }
      data, offset', result := device.MyRead(offset, copyOk);
    }
  }
}
