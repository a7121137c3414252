/**
  The shared workflow graph: named nodes, each with a state, and directed
  edges. One graph is shared by every instance of an orchestrator, and node
  updates are keyed by the node's name.
*/
module Workflow {

  datatype NodeState = Active | Inactive

  /** A node as `add_edge` leaves it: a node that is new is registered with
      state `Inactive`; a node that exists keeps its state. */
  function Register(nodes: map<string, NodeState>, n: string): (r: map<string, NodeState>)
    ensures r.Keys == nodes.Keys + {n}
    ensures n !in nodes ==> r[n] == Inactive
    ensures forall m :: m in nodes ==> r[m] == nodes[m]
  {
    if n in nodes then nodes else nodes[n := Inactive]
  }

  /** Every node of `targets` that exists gets `state`; nothing else changes. */
  function SetAll(nodes: map<string, NodeState>, targets: set<string>, state: NodeState): (r: map<string, NodeState>)
    ensures r.Keys == nodes.Keys
    ensures forall n :: n in nodes ==> r[n] == if n in targets then state else nodes[n]
  {
    map n | n in nodes :: if n in targets then state else nodes[n]
  }

  /** `graph.nodes[node]['state'] = state` where it succeeds: the
      node, when it exists, gets `state`. */
  function Mark(nodes: map<string, NodeState>, node: string, state: NodeState): (r: map<string, NodeState>)
    ensures r.Keys == nodes.Keys
    ensures forall m :: m in nodes ==> r[m] == if m == node then state else nodes[m]
  {
    if node in nodes then nodes[node := state] else nodes
  }

  /** `after` only adds nodes to `before`: every node of `before` keeps its
      state and every new node is inactive. */
  predicate Grows(before: map<string, NodeState>, after: map<string, NodeState>) {
    && before.Keys <= after.Keys
    && forall n :: n in after ==> after[n] == if n in before then before[n] else Inactive
  }

  lemma GrowsTrans(a: map<string, NodeState>, b: map<string, NodeState>, c: map<string, NodeState>)
    requires Grows(a, b) && Grows(b, c)
    ensures Grows(a, c)
  {
  }

  lemma SetAllNone(nodes: map<string, NodeState>, state: NodeState)
    ensures SetAll(nodes, {}, state) == nodes
  {
  }

  /** Setting one more node is one more `Mark`. */
  lemma SetAllAdd(nodes: map<string, NodeState>, targets: set<string>, t: string, state: NodeState)
    ensures SetAll(nodes, targets + {t}, state) == Mark(SetAll(nodes, targets, state), t, state)
  {
  }

  class Graph {
    var nodes: map<string, NodeState>
    var edges: set<(string, string)>

    constructor ()
      ensures nodes == map[] && edges == {}
    {
      nodes := map[];
      edges := {};
    }

    /** `add_node(n, state=s)`: the node exists afterwards with state `s`. */
    method AddNode(n: string, state: NodeState)
      modifies this
      ensures nodes == old(nodes)[n := state] && edges == old(edges)
    {
      nodes := nodes[n := state];
    }

    /** `add_instance(node1, node2)`: an edge from `from` to `to`; either end
        that is new is registered. */
    method AddInstance(from: string, to: string)
      modifies this
      ensures edges == old(edges) + {(from, to)}
      ensures nodes.Keys == old(nodes).Keys + {from, to}
      ensures Grows(old(nodes), nodes)
    {
      nodes := Register(Register(nodes, from), to);
      edges := edges + {(from, to)};
    }

    /** `graph.nodes[n]['state'] = state`: succeeds iff `n` is a node; on a
        missing node the lookup raises and nothing changes. */
    method SetState(n: string, state: NodeState) returns (ok: bool)
      modifies this
      ensures ok <==> n in old(nodes)
      ensures nodes == Mark(old(nodes), n, state)
      ensures nodes.Keys == old(nodes).Keys
      ensures edges == old(edges)
    {
      ok := n in nodes;
      if ok {
        nodes := nodes[n := state];
      }
    }
  }
}
