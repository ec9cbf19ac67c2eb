/**
 The singly linked list under every store (src/util/mtp_list.c). Values stand for the pointers
 the list holds; 0 is the null pointer.
 */
module LinkedList {

  class Node {
    const value: nat
    var link: Node?

    constructor (value: nat)
      ensures this.value == value && link == null
    {
      this.value := value;
      link := null;
    }
  }

  ghost function ValuesOf(nodes: seq<Node>): seq<nat> {
    seq(|nodes|, i requires 0 <= i < |nodes| => nodes[i].value)
  }

  function Skip<T>(s: seq<T>, k: nat): seq<T>
    requires k < |s|
  {
    s[..k] + s[k + 1..]
  }

  class List {
    var start: Node?
    var end: Node?
    var nnodes: nat
    ghost var nodes: seq<Node>  // the nodes reachable from start, in order

    ghost predicate Valid()
      reads this, nodes
    {
      && nnodes == |nodes|
      && start == (if nodes == [] then null else nodes[0])
      && end == (if nodes == [] then null else nodes[|nodes| - 1])
      && (forall i, j :: 0 <= i < j < |nodes| ==> nodes[i] != nodes[j])
      && (forall i {:trigger nodes[i].link} :: 0 <= i < |nodes| ==>
          nodes[i].link == if i + 1 < |nodes| then nodes[i + 1] else null)
    }

    ghost function Values(): seq<nat>
      reads this
    {
      ValuesOf(nodes)
    }

    // _util_init_list
    constructor ()
      ensures Valid() && Values() == [] && nodes == []
    {
      start, end, nnodes, nodes := null, null, 0, [];
    }

    /** _util_add_node: append */
    method Add(value: nat)
      requires Valid()
      modifies this, nodes
      ensures Valid() && Values() == old(Values()) + [value]
      ensures |nodes| == |old(nodes)| + 1 && nodes[..|old(nodes)|] == old(nodes) && fresh(nodes[|old(nodes)|])
    {
      var node := new Node(value);
      if start == null {
        start := node;
      } else {
        end.link := node;
      }
      end := node;
      nnodes := nnodes + 1;
      nodes := nodes + [node];
    }

    // __util_del_first_node
    method DeleteFirst() returns (node: Node)
      requires Valid() && nodes != []
      modifies this
      ensures Valid() && node == old(nodes)[0] && nodes == Skip(old(nodes), 0)
    {
      node := start;
      nnodes := nnodes - 1;
      start := node.link;
      if node == end {
        end := null;
      }
      nodes := Skip(nodes, 0);
    }

    /** _util_delete_node: unlink the first node that holds the value, if one does and the value is not null */
    method Delete(value: nat) returns (node: Node?, ghost k: nat)
      requires Valid()
      modifies this, nodes
      ensures Valid()
      ensures node == null <==> value == 0 || value !in old(Values())
      ensures node == null ==> nodes == old(nodes)
      ensures node != null ==> k < |old(nodes)| && node == old(nodes)[k] && node.value == value
                               && value !in old(Values())[..k] && nodes == Skip(old(nodes), k)
    {
      k := 0;
      if value == 0 || start == null {
        return null, k;
      }
      assert Values()[0] == start.value;
      if start.value == value {
        node := DeleteFirst();
        return;
      }
      var p := start;
      ghost var i := 0;
      while p.link != null && p.link.value != value
        invariant 0 <= i < |nodes| && p == nodes[i] && Valid() && nodes == old(nodes)
        invariant forall j :: 0 <= j <= i ==> Values()[j] != value
        decreases |nodes| - i
      {
        p := p.link;
        i := i + 1;
        assert Values()[i] == p.value;
      }
      if p.link == null {
        return null, k;
      }
      node, k := p.link, i + 1;
      assert Values()[k] == value;
      Splice(p, i);
    }

    // Route the list around the node after p.
    method Splice(p: Node, ghost i: nat)
      requires Valid() && i + 1 < |nodes| && p == nodes[i]
      modifies this, p
      ensures Valid() && nodes == Skip(old(nodes), i + 1)
    {
      var node := p.link;
      p.link := node.link;
      nnodes := nnodes - 1;
      if node == end {
        end := p;
      }
      nodes := Skip(nodes, i + 1);
    }

    /** An iterator run to its end (_util_init_list_iterator, _util_get_list_next) yields the values in order. */
    method Iterate() returns (out: seq<nat>)
      requires Valid()
      ensures out == Values()
    {
      out := [];
      var p := start;
      while p != null
        invariant |out| <= |nodes| && out == Values()[..|out|]
        invariant p == if |out| < |nodes| then nodes[|out|] else null
        decreases |nodes| - |out|
      {
        assert Values()[|out|] == p.value;
        out := out + [p.value];
        p := p.link;
      }
    }
  }

  ghost predicate DistinctValues(nodes: seq<Node>) {
    forall i, j :: 0 <= i < j < |nodes| ==> nodes[i].value != nodes[j].value
  }

  ghost predicate Within(a: seq<Node>, b: seq<Node>) {
    forall i :: 0 <= i < |a| ==> a[i] in b
  }

  /**
   The walk of a delete-all (src/entity/mtp_store.c:757-802). Deleting the object at a node first
   deletes the objects below it, which may stand anywhere else in the list; the walk then steps
   to the link that the node has by now. It always stands on a node of the list, and every value
   left at the end has been visited.
   */
  method DeleteAllWalk(l: List, below: nat -> seq<nat>, doomed: nat -> bool) returns (visited: seq<nat>)
    requires l.Valid() && DistinctValues(l.nodes)
    requires forall v :: v !in below(v)
    modifies l, l.nodes
    ensures l.Valid() && Within(l.nodes, old(l.nodes))
    ensures forall n :: n in l.nodes ==> Spared(n, visited, doomed)
  {
    hide DistinctValues, AllSpared, Spared;
    visited := [];
    ghost var all := l.nodes;
    var node := l.start;
    ghost var k := 0;
    WalkStart(all, visited, doomed);
    while node != null
      invariant l.Valid() && 0 <= k <= |l.nodes|
      invariant node == if k < |l.nodes| then l.nodes[k] else null
      invariant Within(l.nodes, all) && DistinctValues(l.nodes)
      invariant AllSpared(l.nodes[..k], visited, doomed)
      decreases |l.nodes| - k
    {
      ghost var before := l.nodes;
      visited := visited + [node.value];
      ghost var j := Cascade(l, node, k, below(node.value));
      WalkOn(before, k, l.nodes, j, all, visited, doomed);
      k := j;
      var here := node;
      node := node.link;
      if doomed(here.value) {
        ghost var was := l.nodes;
        var dropped;
        ghost var m;
        dropped, m := l.Delete(here.value);
        Dropped(was, k, here.value, dropped == null, m, l.nodes);
        WithinTwice(l.nodes, was, all);
        if dropped == null {
          WalkPast(l.nodes, k, visited, doomed);
          k := k + 1;
        } else {
          assert l.nodes[..k] == was[..k];
        }
      } else {
        WalkPast(l.nodes, k, visited, doomed);
        k := k + 1;
      }
    }
    WalkEnd(l.nodes, visited, doomed);
    assert l.nodes[..k] == l.nodes;
  }

  // The value was visited and was not to be deleted; the null pointer cannot be.
  ghost predicate Spared(n: Node, visited: seq<nat>, doomed: nat -> bool) {
    n.value in visited && (n.value == 0 || !doomed(n.value))
  }

  ghost predicate AllSpared(nodes: seq<Node>, visited: seq<nat>, doomed: nat -> bool) {
    forall n :: n in nodes ==> Spared(n, visited, doomed)
  }

  lemma WalkStart(nodes: seq<Node>, visited: seq<nat>, doomed: nat -> bool)
    ensures Within(nodes, nodes) && AllSpared(nodes[..0], visited, doomed)
  {
  }

  lemma WalkOn(before: seq<Node>, k: nat, after: seq<Node>, j: nat, all: seq<Node>, visited: seq<nat>,
               doomed: nat -> bool)
    requires k < |before| && j < |after| && visited != []
    requires AllSpared(before[..k], visited[..|visited| - 1], doomed) && Within(after[..j], before[..k])
    requires Within(after, before) && Within(before, all)
    ensures AllSpared(after[..j], visited, doomed) && Within(after, all)
  {
    WithinTwice(after, before, all);
    forall n | n in after[..j] ensures Spared(n, visited, doomed) {
      assert n in before[..k];
    }
  }

  lemma WithinTwice(a: seq<Node>, b: seq<Node>, c: seq<Node>)
    requires Within(a, b) && Within(b, c)
    ensures Within(a, c)
  {
  }

  lemma WalkPast(nodes: seq<Node>, k: nat, visited: seq<nat>, doomed: nat -> bool)
    requires k < |nodes| && AllSpared(nodes[..k], visited, doomed) && Spared(nodes[k], visited, doomed)
    ensures AllSpared(nodes[..k + 1], visited, doomed)
  {
    assert nodes[..k + 1] == nodes[..k] + [nodes[k]];
  }

  lemma WalkEnd(nodes: seq<Node>, visited: seq<nat>, doomed: nat -> bool)
    ensures AllSpared(nodes, visited, doomed) ==> forall n :: n in nodes ==> Spared(n, visited, doomed)
  {
  }

  lemma Dropped(was: seq<Node>, k: nat, value: nat, kept: bool, m: nat, now: seq<Node>)
    requires DistinctValues(was) && k < |was| && was[k].value == value
    requires kept <==> value == 0 || value !in ValuesOf(was)
    requires if kept then now == was else m < |was| && was[m].value == value && now == Skip(was, m)
    ensures !kept ==> m == k && now == Skip(was, k)
    ensures kept ==> value == 0
    ensures DistinctValues(now) && Within(now, was)
  {
    assert ValuesOf(was)[k] == value;
  }

  // The deletions below the node at index k; the node stays, and nothing new comes before or after it.
  method Cascade(l: List, node: Node, ghost k: nat, victims: seq<nat>) returns (ghost k': nat)
    requires l.Valid() && k < |l.nodes| && node == l.nodes[k] && DistinctValues(l.nodes)
    requires node.value !in victims
    modifies l, l.nodes
    ensures l.Valid() && k' < |l.nodes| && node == l.nodes[k'] && DistinctValues(l.nodes)
    ensures Within(l.nodes, old(l.nodes)) && Within(l.nodes[..k'], old(l.nodes)[..k])
    ensures |l.nodes| - k' <= |old(l.nodes)| - k
  {
    k' := k;
    var i := 0;
    while i < |victims|
      invariant 0 <= i <= |victims|
      invariant l.Valid() && k' < |l.nodes| && node == l.nodes[k'] && DistinctValues(l.nodes)
      invariant Within(l.nodes, old(l.nodes)) && Within(l.nodes[..k'], old(l.nodes)[..k])
      invariant |l.nodes| - k' <= |old(l.nodes)| - k
    {
      ghost var was := l.nodes;
      var dropped;
      ghost var m;
      dropped, m := l.Delete(victims[i]);
      if dropped != null {
        Skipped(was, k', m);
        k' := if m < k' then k' - 1 else k';
      }
      i := i + 1;
    }
  }

  lemma Skipped(was: seq<Node>, k: nat, m: nat)
    requires DistinctValues(was) && k < |was| && m < |was| && m != k
    ensures var now, k' := Skip(was, m), if m < k then k - 1 else k;
      && k' < |now| && now[k'] == was[k] && DistinctValues(now)
      && Within(now, was) && Within(now[..k'], was[..k]) && |now| - k' <= |was| - k
  {
    var now, k' := Skip(was, m), if m < k then k - 1 else k;
    forall i | 0 <= i < k' ensures now[..k'][i] in was[..k] {
      assert now[i] == was[..k][if i < m then i else i + 1];
    }
  }
}
