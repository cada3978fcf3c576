/** The stack of directories still to list (src/filesystem/pending.rs).
    The source's singly linked list is kept as a sequence, head first. */
module PendingDirs {
  import opened Base

  /** One directory to list; a node without a name is the "leave" marker of the
      recursive listing. */
  datatype Pending = Pending(name: Option<string>, realName: Option<string>, cliArg: bool) {

    /** `get_name`: only defined on a real directory node (the source unwraps). */
    function GetName(): (n: string)
      requires name.Some?
      ensures name == Some(n)
    {
      name.value
    }
  }

  class PendingList {
    /** The nodes from `head` along the `next` links. */
    var nodes: seq<Pending>

    /** `PendingList::new` */
    constructor ()
      ensures nodes == []
      ensures !HasNext()
    {
      nodes := [];
    }

    /** `has_next`: whether a head node exists. */
    function HasNext(): (b: bool)
      reads this
      ensures b <==> |nodes| > 0
    {
      nodes != []
    }

    /** `peek`: whether the head has a successor. */
    function Peek(): (b: bool)
      reads this
      ensures b <==> |nodes| >= 2
    {
      if nodes == [] then false else nodes[1..] != []
    }

    /** `queue_directory`: a new head whose successor is the old list. */
    method QueueDirectory(name: Option<string>, realName: Option<string>, cliArg: bool)
      modifies this
      ensures nodes == [Pending(name, realName, cliArg)] + old(nodes)
    {
      var newPending := Pending(name, realName, cliArg);
      nodes := [newPending] + nodes;
    }

    /** `dequeue_directory`: takes the head off, or reports none. */
    method DequeueDirectory() returns (out: Option<Pending>)
      modifies this
      ensures old(nodes) == [] ==> out == None && nodes == []
      ensures old(nodes) != [] ==> out == Some(old(nodes)[0]) && nodes == old(nodes)[1..]
    {
      if nodes == [] {
        out := None;
      } else {
        out := Some(nodes[0]);
        nodes := nodes[1..];
      }
    }
  }

  /** Queueing and then dequeueing gives back the queued node and the original list. */
  method QueueThenDequeue(list: PendingList, name: Option<string>, realName: Option<string>, cliArg: bool)
    returns (out: Option<Pending>)
    modifies list
    ensures out == Some(Pending(name, realName, cliArg))
    ensures list.nodes == old(list.nodes)
  {
    list.QueueDirectory(name, realName, cliArg);
    out := list.DequeueDirectory();
  }

  /** Strict LIFO order: queueing a, b, c on a new list dequeues c, b, a, and then the list is empty. */
  method LifoOrder(a: Pending, b: Pending, c: Pending) returns (x: Option<Pending>, y: Option<Pending>, z: Option<Pending>, more: bool)
    ensures x == Some(c) && y == Some(b) && z == Some(a)
    ensures !more
  {
    var list := new PendingList();
    list.QueueDirectory(a.name, a.realName, a.cliArg);
    list.QueueDirectory(b.name, b.realName, b.cliArg);
    list.QueueDirectory(c.name, c.realName, c.cliArg);
    x := list.DequeueDirectory();
    y := list.DequeueDirectory();
    z := list.DequeueDirectory();
    more := list.HasNext();
  }
}
