/** task_queue.c on top of list.h: a queue of nodes, seen as a sequence. */
module TaskQueues {
  import opened Seqs
  import opened Rings

  class TaskQueue {
    const head: ListNode
    var nTasks: nat
    ghost var items: seq<ListNode>

    ghost predicate Valid()
      reads this, head, items
    {
      Ring([head] + items) && nTasks == |items|
    }

    /** tq_init. */
    constructor ()
      ensures Valid() && items == [] && fresh(head)
    {
      head := new ListNode();
      nTasks, items := 0, [];
      new;
      assert [head] + items == [head];
    }

    /** tq_enqueue. */
    method Enqueue(nd: ListNode)
      requires Valid() && nd != head && nd !in items
      modifies this, head, items, nd
      ensures Valid() && items == old(items) + [nd]
    {
      assert [head] + items + [nd] == [head] + (items + [nd]);
      AddTail(nd, head, [head] + items);
      nTasks := nTasks + 1;
      items := items + [nd];
    }

    /** tq_dequeue of a node of this queue, wherever it stands; its own links
        stay as they were. */
    method Dequeue(nd: ListNode)
      requires Valid() && nd in items
      modifies this, head, items
      ensures Valid() && items == Without(old(items), nd)
      ensures nd.next == old(nd.next) && nd.prev == old(nd.prev)
    {
      hide Ring, NoDup, Without;
      ghost var k: nat :| k < |items| && items[k] == nd;
      ghost var s := [head] + items;
      Removed(head, items, k);
      Del(nd, s, k + 1);
      nTasks := nTasks - 1;
      items := items[..k] + items[k + 1..];
    }

    /** tq_pick_next: the first node, which stays. */
    method PickNext() returns (nd: ListNode?)
      requires Valid()
      ensures nd == if items == [] then null else items[0]
    {
      nd := null;
      if nTasks > 0 {
        FirstOf([head] + items);
        nd := head.next;
      }
    }
  }
}
