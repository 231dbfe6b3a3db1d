/** Day 24, part 2 (24-2/main.go): the circuit of part 1 with pairs of
    output wires swapped while the rules are loaded, and aliases given to
    gates found by their inputs, to read the circuit as a ripple-carry
    adder.

    The node fields shared with part 1 (type, value, cache, inputs,
    fan-out) use the Circuit module's records. The one field part 2 adds,
    a node's Alias, is kept beside them as a map from node name to alias,
    where a missing entry is Go's empty string. Pointers to nodes are node
    names, as in part 1. */
module SwappedCircuit {
  import opened Circuit

  /** The name AddRule writes a rule's output to: the swap partner of out
      when it has one. */
  function Redirect(swaps: map<string, string>, out: string): (r: string)
    ensures out in swaps ==> r == swaps[out]
    ensures out !in swaps ==> r == out
  {
    if out in swaps then swaps[out] else out
  }

  /** Every swap goes both ways. */
  ghost predicate Symmetric(swaps: map<string, string>)
  {
    forall k :: k in swaps ==> swaps[k] in swaps && swaps[swaps[k]] == k
  }

  /** Swaps recorded for names that had none keep the swap map symmetric,
      so AddRule sends n1's rule to n2 and n2's to n1. */
  lemma AddSwapSymmetric(swaps: map<string, string>, n1: string, n2: string)
    requires Symmetric(swaps) && n1 !in swaps && n2 !in swaps
    ensures Symmetric(swaps[n1 := n2][n2 := n1])
    ensures Redirect(swaps[n1 := n2][n2 := n1], n1) == n2
    ensures Redirect(swaps[n1 := n2][n2 := n1], n2) == n1
  {
  }

  /** A gate of type op whose inputs are n1 and n2, in either order. */
  predicate Matches(node: LogicNode, op: NodeType, n1: string, n2: string)
  {
    node.Type == op && (node.Inputs == Some((n1, n2)) || node.Inputs == Some((n2, n1)))
  }

  /** Both inputs of the gate name are computed: what part 2's Compute
      makes sure of before it applies the gate. */
  predicate InputsComputed(nodes: map<string, LogicNode>, name: string)
    requires name in nodes
  {
    && nodes[name].Inputs.Some?
    && nodes[name].Inputs.value.0 in nodes && nodes[name].Inputs.value.1 in nodes
    && nodes[nodes[name].Inputs.value.0].Computed && nodes[nodes[name].Inputs.value.1].Computed
  }

  /** Caching a gate whose inputs are computed keeps them computed. */
  lemma InputsKept(nodes: map<string, LogicNode>, name: string, node: LogicNode)
    requires name in nodes && InputsComputed(nodes, name) && node.Inputs == nodes[name].Inputs
    requires nodes[name].Inputs.value.0 != name && nodes[name].Inputs.value.1 != name
    ensures InputsComputed(nodes[name := node], name)
  {
  }

  /** Every alias stands for an existing node. */
  ghost predicate AliasesIn(aliases: map<string, string>, nodes: map<string, LogicNode>)
  {
    forall a :: a in aliases ==> aliases[a] in nodes
  }

  /** Aliases stay valid when nodes are only added. */
  lemma AliasesGrow(aliases: map<string, string>, a: map<string, LogicNode>, b: map<string, LogicNode>)
    requires AliasesIn(aliases, a) && a.Keys <= b.Keys
    ensures AliasesIn(aliases, b)
  {
  }

  class LogicGraph {
    var Nodes: map<string, LogicNode>
    var Alias: map<string, string>
    var Aliases: map<string, string>
    var Outputs: seq<string>
    var Swaps: map<string, string>

    /** The graph is well formed as in part 1, and aliases name nodes. */
    ghost predicate Valid()
      reads this
    {
      WellFormed(Nodes, Outputs) && AliasesIn(Aliases, Nodes)
    }

    constructor ()
      ensures Nodes == map[] && Alias == map[] && Aliases == map[] && Outputs == [] && Swaps == map[]
      ensures Valid()
    {
      Nodes := map[];
      Alias := map[];
      Aliases := map[];
      Outputs := [];
      Swaps := map[];
    }

    /** As in part 1: the node named name, created as an Unknown wire on
        first use; a new 'z' wire joins Outputs. */
    method GetNode(name: string) returns (node: string)
      requires Valid() && |name| > 0
      modifies this`Nodes, this`Outputs
      ensures Valid() && node == name && name in Nodes
      ensures old(Outputs) <= Outputs
      ensures Got(old(Nodes), Nodes, name)
      ensures name in old(Nodes) ==> Nodes == old(Nodes) && Outputs == old(Outputs)
      ensures name !in old(Nodes) ==>
                Outputs == old(Outputs) + (if name[0] == 'z' then [name] else [])
    {
      if name !in Nodes {
        ghost var n0, o0 := Nodes, Outputs;
        Nodes := Nodes[name := Fresh];
        if name[0] == 'z' {
          Outputs := Outputs + [name];
        }
        FreshWellFormed(n0, o0, name, Nodes, Outputs);
        AliasesGrow(Aliases, n0, Nodes);
      }
      node := name;
    }

    /** Records that the rules for n1 and n2 write to each other's wire. */
    method AddSwap(n1: string, n2: string)
      modifies this`Swaps
      ensures Swaps == old(Swaps)[n1 := n2][n2 := n1]
      ensures Swaps[n2] == n1 && (n1 != n2 ==> Swaps[n1] == n2)
    {
      Swaps := Swaps[n1 := n2];
      Swaps := Swaps[n2 := n1];
    }

    /** The node an alias stands for, else the node of that name, else
        nil. */
    function GetByAliasOrName(name: string): (r: Option<string>)
      reads this
      ensures name in Aliases ==> r == Some(Aliases[name])
      ensures name !in Aliases && name in Nodes ==> r == Some(name)
      ensures r.None? <==> name !in Aliases && name !in Nodes
    {
      if name in Aliases then Some(Aliases[name])
      else if name in Nodes then Some(name)
      else None
    }

    method AddConstant(name: string, val: bool)
      requires Valid() && |name| > 0
      modifies this`Nodes, this`Outputs
      ensures Valid()
      ensures Nodes.Keys == old(Nodes.Keys) + {name}
      ensures forall n :: n in Nodes && n != name ==> Nodes[n] == old(Nodes)[n]
      ensures Nodes[name] == Prior(old(Nodes), name).(Type := Constant, Val := val, Computed := true)
    {
      var node := GetNode(name);
      ghost var g2 := Nodes;
      Nodes := Nodes[node := Nodes[node].(Type := Constant, Val := val, Computed := true)];
      ConstantEffect(old(Nodes), g2, Nodes, Outputs, node, val);
      AliasesGrow(Aliases, g2, Nodes);
    }

    /** As in part 1, except that a rule for a swapped wire is written to
        its partner. */
    method AddRule(in1: string, in2: string, op: NodeType, out: string)
      requires Valid() && |in1| > 0 && |in2| > 0 && |Redirect(Swaps, out)| > 0
      modifies this`Nodes, this`Outputs
      ensures Valid() && old(Outputs) <= Outputs
      ensures Nodes.Keys == old(Nodes.Keys) + {Redirect(Swaps, out), in1, in2}
      ensures Nodes[Redirect(Swaps, out)].Type == op
      ensures Nodes[Redirect(Swaps, out)].Inputs == Some((in1, in2))
      ensures forall n :: n in Nodes ==> RuleEffect(old(Nodes), Nodes, in1, in2, Redirect(Swaps, out), n)
    {
      var target := Redirect(Swaps, out);
      WireRule(in1, in2, op, target);
    }

    /** The rule's writes once its output wire is known: the three GetNode
        calls, then the gate and the fan-outs. */
    method WireRule(in1: string, in2: string, op: NodeType, target: string)
      requires Valid() && |in1| > 0 && |in2| > 0 && |target| > 0
      modifies this`Nodes, this`Outputs
      ensures Valid() && old(Outputs) <= Outputs
      ensures Nodes.Keys == old(Nodes.Keys) + {target, in1, in2}
      ensures Nodes[target].Type == op && Nodes[target].Inputs == Some((in1, in2))
      ensures forall n :: n in Nodes ==> RuleEffect(old(Nodes), Nodes, in1, in2, target, n)
    {
      var node := GetNode(target);
      ghost var g1, o1 := Nodes, Outputs;
      var a := GetNode(in1);
      ghost var g2, o2 := Nodes, Outputs;
      var b := GetNode(in2);
      ghost var g3 := Nodes;
      PrefixTrans(old(Outputs), o1, o2, Outputs);
      Nodes := Wire(Nodes, a, b, op, node);
      RuleDone(old(Nodes), g1, g2, g3, Nodes, Outputs, in1, in2, op, target);
      AliasesGrow(Aliases, g3, Nodes);
    }

    /** LogicNode.Compute of part 2: evaluates each input that is not yet
        computed, both of them (no short circuit), then applies the gate to
        the inputs' cached values. The value is the one of part 1. */
    method ComputeNode(name: string, ghost rank: map<string, nat>) returns (val: bool)
      requires name in Nodes && Ranked(Nodes, rank) && Consistent(Nodes, rank)
      modifies this`Nodes
      ensures Evolves(old(Nodes), Nodes)
      ensures Ranked(Nodes, rank) && Consistent(Nodes, rank)
      ensures val == Value(old(Nodes), rank, name) && Nodes[name].Computed
      ensures old(Nodes)[name].Computed ==> val == old(Nodes)[name].Val && Nodes == old(Nodes)
      ensures !old(Nodes)[name].Computed ==> InputsComputed(Nodes, name)
      decreases rank[name]
    {
      var node := Nodes[name];
      if node.Computed {
        return node.Val;
      }
      ghost var start := Nodes;
      ValueOfGate(start, rank, name);
      assert RankedAt(start, rank, name);
      var (in0, in1) := node.Inputs.value;
      if !Nodes[in0].Computed {
        var _ := ComputeNode(in0, rank);
      }
      ghost var mid := Nodes;
      if !Nodes[in1].Computed {
        var _ := ComputeNode(in1, rank);
      }
      EvolvesTrans(start, mid, Nodes);
      assert NodeEvolves(mid[in0], Nodes[in0]);
      ValueStable(start, Nodes, rank, in0);
      ValueStable(start, Nodes, rank, in1);
      var v := Gate(node.Type, Nodes[in0].Val, Nodes[in1].Val);
      Cache(start, Nodes, rank, name, v);
      assert InputsComputed(Nodes, name) by {
        assert NodeEvolves(start[name], Nodes[name]);
      }
      InputsKept(Nodes, name, Nodes[name].(Val := v, Computed := true));
      Nodes := Nodes[name := Nodes[name].(Val := v, Computed := true)];
      val := v;
    }

    /** LogicGraph.Compute: evaluates every output wire. */
    method Compute(ghost rank: map<string, nat>)
      requires Valid() && Ranked(Nodes, rank) && Consistent(Nodes, rank)
      modifies this`Nodes
      ensures Valid() && Evolves(old(Nodes), Nodes)
      ensures Ranked(Nodes, rank) && Consistent(Nodes, rank)
      ensures forall o :: o in Outputs ==> Nodes[o].Computed && Nodes[o].Val == Value(old(Nodes), rank, o)
    {
      ghost var start := Nodes;
      for i := 0 to |Outputs|
        invariant ComputedUpTo(start, Nodes, Outputs, rank, i)
      {
        ghost var before := Nodes;
        var _ := ComputeNode(Outputs[i], rank);
        ComputeStep(start, before, Nodes, Outputs, rank, i);
      }
      AliasesGrow(Aliases, start, Nodes);
      forall o | o in Outputs
        ensures Nodes[o].Val == Value(start, rank, o)
      {
        ValueStable(start, Nodes, rank, o);
      }
    }

    /** Gives the node name the alias, and makes the alias find it. */
    method SetAlias(name: string, alias: string)
      requires Valid() && name in Nodes
      modifies this`Alias, this`Aliases
      ensures Valid()
      ensures Alias == old(Alias)[name := alias] && Aliases == old(Aliases)[alias := name]
      ensures GetByAliasOrName(alias) == Some(name)
    {
      Alias := Alias[name := alias];
      Aliases := Aliases[alias := name];
    }

    /** Finds a gate of type op reading the nodes in1 and in2 stand for (by
        alias or name), in either order, and aliases the first one found;
        the Go map gives no order, so any matching gate may be the one.
        Nothing changes when a name stands for no node or no gate
        matches. */
    method CreateAlias(in1: string, op: NodeType, in2: string, alias: string)
      requires Valid()
      modifies this`Alias, this`Aliases
      ensures Valid()
      ensures old(GetByAliasOrName(in1)).None? || old(GetByAliasOrName(in2)).None?
              ==> Alias == old(Alias) && Aliases == old(Aliases)
      ensures old(GetByAliasOrName(in1)).Some? && old(GetByAliasOrName(in2)).Some? ==>
                var n1 := old(GetByAliasOrName(in1)).value;
                var n2 := old(GetByAliasOrName(in2)).value;
                if exists m :: m in Nodes && Matches(Nodes[m], op, n1, n2) then
                  exists m :: m in Nodes && Matches(Nodes[m], op, n1, n2)
                              && Alias == old(Alias)[m := alias] && Aliases == old(Aliases)[alias := m]
                else Alias == old(Alias) && Aliases == old(Aliases)
    {
      var r1 := GetByAliasOrName(in1);
      if r1.None? {
        return;
      }
      var r2 := GetByAliasOrName(in2);
      if r2.None? {
        return;
      }
      var n1, n2 := r1.value, r2.value;
      var todo := Nodes.Keys;
      while todo != {}
        invariant todo <= Nodes.Keys
        invariant forall m :: m in Nodes && m !in todo ==> !Matches(Nodes[m], op, n1, n2)
        invariant Alias == old(Alias) && Aliases == old(Aliases)
        decreases |todo|
      {
        var name :| name in todo;
        var node := Nodes[name];
        if node.Type == op && (node.Inputs == Some((n1, n2)) || node.Inputs == Some((n2, n1))) {
          assert Matches(Nodes[name], op, n1, n2);
          SetAlias(name, alias);
          return;
        }
        todo := todo - {name};
      }
    }
  }
}
