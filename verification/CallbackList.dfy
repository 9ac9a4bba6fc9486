/** The singly linked callback queue of the asynchronous engine. */
module CallbackList {
  import opened Bytes

  // A registered callback: the number of its command, and whether a function was given.
  datatype Callback = Callback(id: nat, fn: bool)

  class Node {
    var cb: Callback
    var next: Node?

    constructor (cb: Callback)
      ensures this.cb == cb && next == null
    {
      this.cb, next := cb, null;
    }
  }

  class CallbackList {
    var head: Node?
    var tail: Node?
    ghost var nodes: seq<Node>
    ghost var contents: seq<Callback>
    ghost var repr: set<Node>

    ghost predicate Valid()
      reads this, repr
    {
      && (forall i :: 0 <= i < |nodes| ==> nodes[i] in repr)
      && |contents| == |nodes|
      && (forall i :: 0 <= i < |nodes| ==> nodes[i].cb == contents[i])
      && (forall i, j :: 0 <= i < j < |nodes| ==> nodes[i] != nodes[j])
      && (forall i, j :: 0 <= i && j == i + 1 < |nodes| ==> nodes[i].next == nodes[j])
      && (nodes != [] ==> nodes[|nodes| - 1].next == null)
      && head == (if nodes == [] then null else nodes[0])
      && tail == (if nodes == [] then null else nodes[|nodes| - 1])
    }

    lemma HeadTells()
      requires Valid()
      ensures head == null <==> contents == []
    {
    }

    constructor ()
      ensures Valid() && contents == [] && repr == {}
    {
      head, tail := null, null;
      nodes, contents, repr := [], [], {};
    }

    method Push(source: Callback)
      requires Valid()
      modifies this, repr
      ensures Valid() && contents == old(contents) + [source]
      ensures fresh(repr - old(repr))
    {
      var cb := new Node(source);
      if head == null {
        head := cb;
      }
      if tail != null {
        tail.next := cb;
      }
      tail := cb;
      nodes, contents, repr := nodes + [cb], contents + [source], repr + {cb};
    }

    method Shift() returns (target: Option<Callback>)
      requires Valid()
      modifies this
      ensures Valid() && repr == old(repr)
      ensures match target
              case None => old(contents) == [] == contents
              case Some(cb) => old(contents) == [cb] + contents
    {
      var cb := head;
      if cb != null {
        assert 1 < |nodes| ==> cb.next == nodes[1];
        assert cb == tail ==> |nodes| == 1;
        head := cb.next;
        if cb == tail {
          tail := null;
        }
        nodes, contents := nodes[1..], contents[1..];
        target := Some(cb.cb);
      } else {
        target := None;
      }
    }
  }
}
