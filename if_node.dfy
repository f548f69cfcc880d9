/**
 * `Sass::Tree::IfNode` (lib/sass/tree/if_node.rb): an `@if` node that also
 * stands for the `@else if` and `@else` nodes after it. The nodes form a
 * singly linked list through `else`; the head keeps a reference to the last
 * node (`@last_else`) so that appending does not walk the list. A node whose
 * `expr` is `nil` is a plain `@else`.
 *
 * Marshalling is modelled on the four dumped fields only; the byte format is
 * not part of this model.
 */
module IfNodes {
  import opened Wrappers
  import opened SassTree

  /** What `marshal_dump` writes: `[expr, else, children, options]`. */
  datatype Dump<O> = Dump(expr: Option<Expr>, elseNode: IfNode?<O>, children: seq<Node>, options: Option<O>)

  /** `nodes` are distinct and linked in order through `else`, the last one ending the list. */
  ghost predicate IsChain<O>(nodes: seq<IfNode<O>>)
    reads nodes
  {
    |nodes| > 0 &&
    (forall i, j :: 0 <= i < j < |nodes| ==> nodes[i] != nodes[j]) &&
    (forall i :: 0 <= i < |nodes| - 1 ==> nodes[i].elseNode == nodes[i + 1]) &&
    nodes[|nodes| - 1].elseNode == null
  }

  class IfNode<O> {
    /** The condition; `None` for a plain `@else`. */
    var expr: Option<Expr>
    /** The next node of the `@if`/`@else` list. */
    var elseNode: IfNode?<O>
    /** `@last_else`: the node `add_else` appends after. */
    var lastElse: IfNode?<O>
    var children: seq<Node>
    var options: Option<O>

    /** The node heads `chain` and its `last_else` is the chain's last node. */
    ghost predicate HeadOf(chain: seq<IfNode<O>>)
      reads this, chain
    {
      IsChain(chain) && chain[0] == this && lastElse == chain[|chain| - 1]
    }

    /** `initialize(expr)`: a one-node list whose last node is itself. */
    constructor (expr: Option<Expr>)
      ensures this.expr == expr && elseNode == null && lastElse == this
      ensures children == [] && options == None
      ensures HeadOf([this])
    {
      this.expr := expr;
      elseNode := null;
      lastElse := this;
      children := [];
      options := None;
    }

    /** `IfNode.allocate`, which Marshal calls before `marshal_load`: no field is set. */
    constructor Allocate()
      ensures expr == None && elseNode == null && lastElse == null
      ensures children == [] && options == None
    {
      expr := None;
      elseNode := null;
      lastElse := null;
      children := [];
      options := None;
    }

    /**
     * `add_else(node)`: links `node` after the last node and makes it the last
     * node; two field writes and no walk. When the receiver heads `chain` and
     * `node` is a new single node, the receiver then heads `chain + [node]`.
     */
    method AddElse(node: IfNode<O>, ghost chain: seq<IfNode<O>>)
      requires lastElse != null
      modifies this`lastElse, lastElse`elseNode
      ensures old(lastElse).elseNode == node && lastElse == node
      ensures old(HeadOf(chain)) && node !in chain && old(node.elseNode) == null ==> HeadOf(chain + [node])
    {
      lastElse.elseNode := node;
      lastElse := node;
    }

    /** `marshal_dump` */
    function MarshalDump(): Dump<O>
      reads this
    {
      Dump(expr, elseNode, children, options)
    }

    /**
     * `marshal_load(values)`: restores the four dumped fields, and takes
     * `last_else` from the restored `else` node when there is one; otherwise
     * `last_else` is left as it was (unset on a node Marshal just allocated).
     */
    method MarshalLoad(values: Dump<O>)
      modifies this
      ensures MarshalDump() == values
      ensures values.elseNode != null ==> lastElse == old(values.elseNode.lastElse)
      ensures values.elseNode == null ==> lastElse == old(lastElse)
    {
      expr, elseNode, children, options := values.expr, values.elseNode, values.children, values.options;
      if elseNode != null {
        lastElse := elseNode.lastElse;
      }
    }

    /** `marshal_load` as evidently intended: a node without `else` is its own last node. */
    method MarshalLoadRelinked(values: Dump<O>)
      modifies this
      ensures MarshalDump() == values
      ensures values.elseNode != null ==> lastElse == old(values.elseNode.lastElse)
      ensures values.elseNode == null ==> lastElse == this
    {
      expr, elseNode, children, options := values.expr, values.elseNode, values.children, values.options;
      if elseNode != null {
        lastElse := elseNode.lastElse;
      } else {
        lastElse := this;
      }
    }
  }

  /**
   * The parser's use of `add_else`: appending new single nodes to a fresh head
   * one by one links them after it in the order they were added, and the head's
   * `last_else` is the last one added.
   */
  method AppendAll<O>(head: IfNode<O>, nodes: seq<IfNode<O>>)
    requires head.HeadOf([head])
    requires head !in nodes
    requires forall i, j :: 0 <= i < j < |nodes| ==> nodes[i] != nodes[j]
    requires forall i :: 0 <= i < |nodes| ==> nodes[i].elseNode == null
    modifies head`lastElse, head`elseNode, nodes`elseNode
    ensures head.HeadOf([head] + nodes)
    ensures forall i :: 0 <= i < |nodes| ==> nodes[i].expr == old(nodes[i].expr)
  {
    for i := 0 to |nodes|
      invariant head.HeadOf([head] + nodes[..i])
      invariant forall j :: i <= j < |nodes| ==> nodes[j].elseNode == null
    {
      assert nodes[i] !in [head] + nodes[..i];
      head.AddElse(nodes[i], [head] + nodes[..i]);
      assert [head] + nodes[..i + 1] == ([head] + nodes[..i]) + [nodes[i]];
    }
    assert nodes[..|nodes|] == nodes;
  }

  /** Putting a node that is not in a chain in front of it, linked to the old head, gives a chain. */
  lemma ConsChain<O>(n: IfNode<O>, chain: seq<IfNode<O>>)
    requires chain != [] ==> IsChain(chain)
    requires n !in chain
    requires n.elseNode == if chain == [] then null else chain[0]
    ensures IsChain([n] + chain)
  {
    var c := [n] + chain;
    forall i, j | 0 <= i < j < |c|
      ensures c[i] != c[j]
    {
      if i == 0 {
        assert c[j] == chain[j - 1];
      }
    }
  }

  /** The dump of the node at position `k` of a restored chain, linked to the next restored node. */
  function Relinked<O>(dumps: seq<Dump<O>>, chain: seq<IfNode<O>>, offset: nat, k: nat): Dump<O>
    requires offset + k < |dumps|
  {
    dumps[offset + k].(elseNode := if k + 1 < |chain| then chain[k + 1] else null)
  }

  /** The nodes of `chain` restore `dumps[offset..]`, each linked to the next. */
  ghost predicate RestoresFrom<O>(dumps: seq<Dump<O>>, chain: seq<IfNode<O>>, offset: nat)
    reads chain
  {
    offset + |chain| == |dumps| &&
    (chain != [] ==> IsChain(chain)) &&
    forall k :: 0 <= k < |chain| ==> chain[k].MarshalDump() == Relinked(dumps, chain, offset, k)
  }

  /** A node restored from `dumps[i - 1]` and linked to the restored rest extends the restore by one. */
  lemma RestoresCons<O>(dumps: seq<Dump<O>>, i: nat, chain: seq<IfNode<O>>, n: IfNode<O>)
    requires 0 < i && RestoresFrom(dumps, chain, i) && IsChain([n] + chain)
    requires n.MarshalDump() == dumps[i - 1].(elseNode := if chain == [] then null else chain[0])
    ensures RestoresFrom(dumps, [n] + chain, i - 1)
  {
    var c := [n] + chain;
    forall k | 0 <= k < |c|
      ensures c[k].MarshalDump() == Relinked(dumps, c, i - 1, k)
    {
      if k > 0 {
        assert c[k] == chain[k - 1];
        assert Relinked(dumps, chain, i, k - 1) == Relinked(dumps, c, i - 1, k);
      }
    }
  }

  /**
   * One step of `Marshal.load` on a list: allocate the node for `dumps[i - 1]`
   * and restore it with `marshal_load`, after the nodes already restored.
   */
  method LoadBefore<O>(dumps: seq<Dump<O>>, i: nat, chain: seq<IfNode<O>>) returns (n: IfNode<O>)
    requires 0 < i && RestoresFrom(dumps, chain, i)
    ensures fresh(n) && RestoresFrom(dumps, [n] + chain, i - 1)
    ensures n.lastElse == if chain == [] then null else chain[0].lastElse
  {
    n := new IfNode<O>.Allocate();
    var next: IfNode?<O> := if chain == [] then null else chain[0];
    n.MarshalLoad(dumps[i - 1].(elseNode := next));
    ConsChain(n, chain);
    RestoresCons(dumps, i, chain, n);
  }

  /** `LoadBefore` with `MarshalLoadRelinked`. */
  method LoadBeforeRelinked<O>(dumps: seq<Dump<O>>, i: nat, chain: seq<IfNode<O>>) returns (n: IfNode<O>)
    requires 0 < i && RestoresFrom(dumps, chain, i)
    ensures fresh(n) && RestoresFrom(dumps, [n] + chain, i - 1)
    ensures n.lastElse == if chain == [] then n else chain[0].lastElse
  {
    n := new IfNode<O>.Allocate();
    var next: IfNode?<O> := if chain == [] then null else chain[0];
    n.MarshalLoadRelinked(dumps[i - 1].(elseNode := next));
    ConsChain(n, chain);
    RestoresCons(dumps, i, chain, n);
  }

  /**
   * What `Marshal.load` does to a dumped `@if`/`@else` list: it rebuilds the
   * nodes from the last one back, each restored by `marshal_load` after the
   * node its `else` points to. Every restored node is left with `last_else`
   * unset, the head included.
   */
  method RestoreChain<O>(dumps: seq<Dump<O>>) returns (chain: seq<IfNode<O>>)
    requires |dumps| > 0
    ensures RestoresFrom(dumps, chain, 0) && chain != []
    ensures forall k :: 0 <= k < |chain| ==> fresh(chain[k])
    ensures forall k :: 0 <= k < |chain| ==> chain[k].lastElse == null
    ensures !chain[0].HeadOf(chain)
  {
    var i: nat := |dumps|;
    chain := [];
    while i > 0
      invariant i <= |dumps| && RestoresFrom(dumps, chain, i)
      invariant forall k :: 0 <= k < |chain| ==> fresh(chain[k])
      invariant forall k :: 0 <= k < |chain| ==> chain[k].lastElse == null
    {
      var n := LoadBefore(dumps, i, chain);
      chain := [n] + chain;
      i := i - 1;
    }
  }

  /**
   * The same restore with `MarshalLoadRelinked`: every restored node's
   * `last_else` is the list's last node, so the restored head can be appended to.
   */
  method RestoreChainRelinked<O>(dumps: seq<Dump<O>>) returns (chain: seq<IfNode<O>>)
    requires |dumps| > 0
    ensures RestoresFrom(dumps, chain, 0) && chain != []
    ensures forall k :: 0 <= k < |chain| ==> fresh(chain[k])
    ensures forall k :: 0 <= k < |chain| ==> chain[k].lastElse == chain[|chain| - 1]
    ensures chain[0].HeadOf(chain)
  {
    var i: nat := |dumps|;
    chain := [];
    while i > 0
      invariant i <= |dumps| && RestoresFrom(dumps, chain, i)
      invariant forall k :: 0 <= k < |chain| ==> fresh(chain[k])
      invariant forall k :: 0 <= k < |chain| ==> chain[k].lastElse == chain[|chain| - 1]
    {
      var n := LoadBeforeRelinked(dumps, i, chain);
      chain := [n] + chain;
      i := i - 1;
    }
  }
}
