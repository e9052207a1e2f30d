/** The doubly linked list with a head and a tail sentinel. */
module LinkedList {
  import opened Options

  class Node<T> {
    var id: int
    /** The sentinels carry nothing. */
    var element: Option<T>
    var next: Node?<T>
    var prev: Node?<T>

    constructor (element: Option<T>, id: int)
      ensures this.element == element && this.id == id && next == null && prev == null
    {
      this.element, this.id, next, prev := element, id, null, null;
    }
  }

  class List<T> {
    var head: Node<T>
    var tail: Node<T>
    var count: nat

    /** All nodes from head to tail, and what the nodes between the sentinels carry. */
    ghost var spine: seq<Node<T>>
    ghost var contents: seq<T>
    /** Every node this list may touch. */
    ghost var nodes: set<Node<T>>

    ghost predicate Valid()
      reads this, nodes
    {
      && |spine| == count + 2 && |contents| == count && Distinct(spine, nodes)
      && spine[0] == head && spine[count + 1] == tail
      && tail.next == null && head.prev == null && Chained(spine) && Carries(spine, contents)
    }

    /** `node` is the one that carries element number `k`. */
    ghost predicate At(node: Node<T>, k: nat)
      reads this
    {
      k + 1 < |spine| - 1 && spine[k + 1] == node
    }

    constructor ()
      ensures Valid() && contents == [] && fresh(nodes)
    {
      var h := new Node<T>(None, 0);
      var t := new Node<T>(None, 0);
      head, tail, count := h, t, 0;
      spine, contents, nodes := [h, t], [], {h, t};
      new;
      t.prev := h;
      h.next := t;
    }

    static ghost predicate Chained(chain: seq<Node<T>>)
      reads chain
    {
      && (forall i {:trigger chain[i].next} :: 0 <= i < |chain| - 1 ==> chain[i].next == chain[i + 1])
      && (forall i {:trigger chain[i].prev} :: 1 <= i < |chain| ==> chain[i].prev == chain[i - 1])
    }

    static ghost predicate Distinct(chain: seq<Node<T>>, among: set<Node<T>>) {
      && (forall i :: 0 <= i < |chain| ==> chain[i] in among)
      && (forall i, j :: 0 <= i < j < |chain| ==> chain[i] != chain[j])
    }

    static ghost predicate Carries(chain: seq<Node<T>>, elements: seq<T>)
      requires |chain| == |elements| + 2
      reads chain
    {
      forall i {:trigger elements[i]} :: 0 <= i < |elements| ==> chain[i + 1].element == Some(elements[i])
    }

    static lemma InsertedDistinct(chain: seq<Node<T>>, k: nat, node: Node<T>, among: set<Node<T>>)
      requires k < |chain| && node !in among && Distinct(chain, among)
      ensures Distinct(chain[..k + 1] + [node] + chain[k + 1..], among + {node})
    {
    }

    /** A node between two neighbours of a chain that is otherwise linked. */
    static lemma InsertedChained(chain: seq<Node<T>>, k: nat, node: Node<T>)
      requires k + 1 < |chain|
      requires forall i {:trigger chain[i].next} :: 0 <= i < |chain| - 1 && i != k ==> chain[i].next == chain[i + 1]
      requires forall i {:trigger chain[i].prev} :: 1 <= i < |chain| && i != k + 1 ==> chain[i].prev == chain[i - 1]
      requires chain[k].next == node && node.prev == chain[k] && node.next == chain[k + 1] && chain[k + 1].prev == node
      ensures Chained(chain[..k + 1] + [node] + chain[k + 1..])
    {
      var s := chain[..k + 1] + [node] + chain[k + 1..];
      forall i | 0 <= i < |s| - 1 ensures s[i].next == s[i + 1] {
        assert i < k ==> chain[i].next == chain[i + 1];
        assert i > k + 1 ==> chain[i - 1].next == chain[i];
      }
      forall i | 1 <= i < |s| ensures s[i].prev == s[i - 1] {
        assert i <= k ==> chain[i].prev == chain[i - 1];
        assert i > k + 2 ==> chain[i - 1].prev == chain[i - 2];
      }
    }

    static lemma InsertedCarries(chain: seq<Node<T>>, elements: seq<T>, k: nat, node: Node<T>, element: T)
      requires |chain| == |elements| + 2 && k <= |elements| && Carries(chain, elements) && node.element == Some(element)
      ensures Carries(chain[..k + 1] + [node] + chain[k + 1..], elements[..k] + [element] + elements[k..])
    {
      var s := chain[..k + 1] + [node] + chain[k + 1..];
      var es := elements[..k] + [element] + elements[k..];
      forall i | 0 <= i < |es| ensures s[i + 1].element == Some(es[i]) {
        assert i < k ==> chain[i + 1].element == Some(elements[i]);
        assert i > k ==> chain[i].element == Some(elements[i - 1]);
      }
    }

    /** Links a fresh node between element `k - 1` and element `k`. */
    method Link(before: Node<T>, after: Node<T>, node: Node<T>, ghost k: nat)
      requires Valid() && k <= count && before == spine[k] && after == spine[k + 1]
      requires node !in nodes && node.element.Some?
      modifies this`count, this`spine, this`contents, this`nodes, before, after, node
      ensures nodes == old(nodes) + {node}
      ensures Valid() && count == old(count) + 1 && At(node, k)
      ensures spine == old(spine)[..k + 1] + [node] + old(spine)[k + 1..]
      ensures node.element == old(node.element) && node.id == old(node.id)
      ensures contents == old(contents)[..k] + [node.element.value] + old(contents)[k..]
    {
      ghost var chain, elements := spine, contents;
      InsertedDistinct(chain, k, node, nodes);
      node.next := after;
      node.prev := before;
      before.next := node;
      after.prev := node;
      count := count + 1;
      InsertedChained(chain, k, node);
      InsertedCarries(chain, elements, k, node, node.element.value);
      hide Chained, Distinct, Carries;
      spine := chain[..k + 1] + [node] + chain[k + 1..];
      contents := elements[..k] + [node.element.value] + elements[k..];
      nodes := nodes + {node};
    }

    /** Takes the node of element `k` out of the chain. */
    method Unlink(node: Node<T>, ghost k: nat)
      requires Valid() && At(node, k)
      modifies this`count, this`spine, this`contents, spine[k], spine[k + 2]
      ensures Valid() && count == old(count) - 1
      ensures spine == old(spine)[..k + 1] + old(spine)[k + 2..]
      ensures contents == old(contents)[..k] + old(contents)[k + 1..]
    {
      var previous, next := node.prev, node.next;
      previous.next := next;
      next.prev := previous;
      count := count - 1;
      spine := spine[..k + 1] + spine[k + 2..];
      contents := contents[..k] + contents[k + 1..];
    }

    /** Adds at the front. */
    method Insert(element: T, id: int)
      requires Valid()
      modifies this, nodes
      ensures Valid() && contents == [element] + old(contents)
      ensures head == old(head) && tail == old(tail)
      ensures fresh(nodes - old(nodes))
    {
      var node := new Node<T>(Some(element), id);
      Link(head, head.next, node, 0);
    }

    /** Adds at the end. */
    method Push(element: T, id: int)
      requires Valid()
      modifies this, nodes
      ensures Valid() && contents == old(contents) + [element]
      ensures head == old(head) && tail == old(tail)
      ensures fresh(nodes - old(nodes))
    {
      var node := new Node<T>(Some(element), id);
      Link(tail.prev, tail, node, count);
    }

    /** Adds after the node of element `k`. */
    method LinkAfter(cur: Node<T>, element: T, id: int, ghost k: nat)
      requires Valid() && At(cur, k) && k < |contents|
      modifies this`count, this`spine, this`contents, this`nodes, nodes
      ensures Valid() && fresh(nodes - old(nodes))
      ensures contents == old(contents)[..k + 1] + [element] + old(contents)[k + 1..]
    {
      var ne := new Node<T>(Some(element), id);
      Link(cur, cur.next, ne, k + 1);
    }

    /** Takes the last element, if there is one. */
    method Pop() returns (element: Option<T>)
      requires Valid()
      modifies this, nodes
      ensures Valid()
      ensures old(contents) == [] ==> element == None && contents == []
      ensures old(contents) != [] ==>
        element == Some(old(contents)[|old(contents)| - 1]) && contents == old(contents)[..|old(contents)| - 1]
      ensures nodes == old(nodes)
    {
      if count == 0 {
        return None;
      }
      var last := tail.prev;
      assert last == spine[count] && last.element == Some(contents[count - 1]);
      element := last.element;
      Unlink(last, count - 1);
    }

    /** Takes out a node the caller holds, during an iteration or not. */
    method RemoveNode(node: Node<T>, ghost k: nat) returns (element: T)
      requires Valid() && At(node, k)
      modifies this, nodes
      ensures Valid() && element == old(contents)[k]
      ensures contents == old(contents)[..k] + old(contents)[k + 1..]
      ensures spine == old(spine)[..k + 1] + old(spine)[k + 2..]
      ensures head == old(head) && tail == old(tail) && nodes == old(nodes)
    {
      assert node.element == Some(contents[k]);
      element := node.element.value;
      Unlink(node, k);
    }

    /** The first node whose element satisfies `f`. */
    method FindNode(f: T ~> bool) returns (node: Node?<T>, ghost k: nat)
      requires Valid() && forall x :: x in contents ==> f.requires(x)
      ensures k <= count == |contents| && forall j :: 0 <= j < k ==> f.requires(contents[j]) && !f(contents[j])
      ensures node == null ==> k == count
      ensures node != null ==>
        At(node, k) && node.element == Some(contents[k]) && f.requires(contents[k]) && f(contents[k])
    {
      var cur := head.next;
      k := 0;
      while cur.next != null
        invariant k <= count && cur == spine[k + 1]
        invariant forall j :: 0 <= j < k ==> f.requires(contents[j]) && !f(contents[j])
        decreases count - k
      {
        assert k < count;
        assert cur.element == Some(contents[k]);
        if f(cur.element.value) {
          return cur, k;
        }
        cur := cur.next;
        k := k + 1;
      }
      node := null;
    }
  }
}
