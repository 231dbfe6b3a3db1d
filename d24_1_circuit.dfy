/** Day 24, part 1 (24-1/main.go): a circuit of named wires, each either a
    constant or an AND/OR/XOR gate of two other wires, evaluated lazily with
    the result cached on the wire.

    The Go nodes are heap objects reached only through their unique names
    (GetNode creates at most one per name), so the graph here maps each name
    to the node's fields, and a pointer to a node is its name. Writing a
    node's field through a pointer is an update of that map entry. */
module Circuit {
  import opened Bits
  import opened Decimal

  datatype Option<T> = None | Some(value: T)

  datatype NodeType = Constant | AND | OR | XOR | Unknown

  datatype LogicNode = LogicNode(
    Type: NodeType,
    Val: bool,
    Computed: bool,
    Inputs: Option<(string, string)>,   // nil until AddRule sets both
    Outputs: seq<string>)

  /** The node GetNode creates for a name it has not seen. */
  const Fresh := LogicNode(Unknown, false, false, None, [])

  predicate IsGate(t: NodeType)
  {
    t == AND || t == OR || t == XOR
  }

  /** What a gate of type op outputs for inputs a and b. */
  function Gate(op: NodeType, a: bool, b: bool): (r: bool)
    requires IsGate(op)
    ensures op == AND ==> (r <==> a && b)
    ensures op == OR ==> (r <==> a || b)
    ensures op == XOR ==> (r <==> a != b)
  {
    match op
    case AND => a && b
    case OR => a || b
    case XOR => a != b
  }

  /** A node an output name stands for: one whose name starts with 'z'. */
  predicate IsOutputName(name: string)
  {
    |name| > 0 && name[0] == 'z'
  }

  /** Node n can be evaluated without a fault: a constant carries its
      value, and a gate reads two existing wires of smaller rank. (A wire
      that is used but never defined stays Unknown, and the Go code stops
      on it.) */
  ghost predicate RankedAt(nodes: map<string, LogicNode>, rank: map<string, nat>, n: string)
    requires n in nodes
  {
    && n in rank
    && ((nodes[n].Type == Constant && nodes[n].Computed)
        || (IsGate(nodes[n].Type) && nodes[n].Inputs.Some?
            && Below(nodes, rank, nodes[n].Inputs.value.0, rank[n])
            && Below(nodes, rank, nodes[n].Inputs.value.1, rank[n])))
  }

  ghost predicate Below(nodes: map<string, LogicNode>, rank: map<string, nat>, n: string, r: nat)
  {
    n in nodes && n in rank && rank[n] < r
  }

  /** Every node can be evaluated, so the wiring has no cycle. */
  ghost predicate Ranked(nodes: map<string, LogicNode>, rank: map<string, nat>)
  {
    forall n :: n in nodes ==> RankedAt(nodes, rank, n)
  }

  /** The value a wire carries: a constant's own value, or its gate applied
      to the values of its inputs. */
  ghost function Value(nodes: map<string, LogicNode>, rank: map<string, nat>, name: string): bool
    requires Ranked(nodes, rank) && name in nodes
    decreases rank[name]
  {
    assert RankedAt(nodes, rank, name);
    var node := nodes[name];
    if node.Type == Constant then node.Val
    else Gate(node.Type, Value(nodes, rank, node.Inputs.value.0), Value(nodes, rank, node.Inputs.value.1))
  }

  /** Every cached value is the wire's value. */
  ghost predicate Consistent(nodes: map<string, LogicNode>, rank: map<string, nat>)
    requires Ranked(nodes, rank)
  {
    forall n :: n in nodes && nodes[n].Computed ==> nodes[n].Val == Value(nodes, rank, n)
  }

  /** What evaluation may do to a node: the same type, wiring and
      fan-out, and a cached value kept. */
  predicate NodeEvolves(a: LogicNode, b: LogicNode)
  {
    && b.Type == a.Type && b.Inputs == a.Inputs && b.Outputs == a.Outputs
    && (a.Computed ==> b.Computed && b.Val == a.Val)
  }

  /** What evaluation may do to the nodes: the same wires, each evolved. */
  ghost predicate Evolves(a: map<string, LogicNode>, b: map<string, LogicNode>)
  {
    a.Keys == b.Keys && forall n :: n in a ==> NodeEvolves(a[n], b[n])
  }

  lemma EvolvesTrans(a: map<string, LogicNode>, b: map<string, LogicNode>, c: map<string, LogicNode>)
    requires Evolves(a, b) && Evolves(b, c)
    ensures Evolves(a, c)
  {
  }

  lemma EvolvesRanked(a: map<string, LogicNode>, b: map<string, LogicNode>, rank: map<string, nat>)
    requires Ranked(a, rank) && Evolves(a, b)
    ensures Ranked(b, rank)
  {
    forall n | n in b ensures RankedAt(b, rank, n) {
      assert RankedAt(a, rank, n);
    }
  }

  /** Caching the value of a wire is an evolution that keeps every cache
      right. */
  lemma CacheValue(a: map<string, LogicNode>, rank: map<string, nat>, name: string, v: bool)
    requires Ranked(a, rank) && Consistent(a, rank) && name in a
    requires v == Value(a, rank, name)
    ensures Evolves(a, a[name := a[name].(Val := v, Computed := true)])
    ensures Ranked(a[name := a[name].(Val := v, Computed := true)], rank)
    ensures Consistent(a[name := a[name].(Val := v, Computed := true)], rank)
  {
    var b := a[name := a[name].(Val := v, Computed := true)];
    assert Evolves(a, b);
    EvolvesRanked(a, b, rank);
    forall n | n in b && b[n].Computed
      ensures b[n].Val == Value(b, rank, n)
    {
      ValueStable(a, b, rank, n);
    }
  }

  /** Caching the value of a wire after its inputs were evaluated. */
  lemma Cache(start: map<string, LogicNode>, mid: map<string, LogicNode>, rank: map<string, nat>, name: string, v: bool)
    requires Ranked(start, rank) && name in start && v == Value(start, rank, name)
    requires Evolves(start, mid) && Ranked(mid, rank) && Consistent(mid, rank)
    ensures Evolves(start, mid[name := mid[name].(Val := v, Computed := true)])
    ensures Ranked(mid[name := mid[name].(Val := v, Computed := true)], rank)
    ensures Consistent(mid[name := mid[name].(Val := v, Computed := true)], rank)
  {
    ValueStable(start, mid, rank, name);
    CacheValue(mid, rank, name, v);
    EvolvesTrans(start, mid, mid[name := mid[name].(Val := v, Computed := true)]);
  }

  /** A gate's value is its gate applied to its inputs' values. */
  lemma ValueOfGate(nodes: map<string, LogicNode>, rank: map<string, nat>, name: string)
    requires Ranked(nodes, rank) && name in nodes && nodes[name].Type != Constant
    ensures IsGate(nodes[name].Type) && nodes[name].Inputs.Some?
    ensures nodes[name].Inputs.value.0 in nodes && nodes[name].Inputs.value.1 in nodes
    ensures Value(nodes, rank, name) ==
      Gate(nodes[name].Type, Value(nodes, rank, nodes[name].Inputs.value.0), Value(nodes, rank, nodes[name].Inputs.value.1))
  {
    assert RankedAt(nodes, rank, name);
  }

  /** Evaluating and caching never changes what a wire's value is. */
  lemma {:induction false} ValueStable(a: map<string, LogicNode>, b: map<string, LogicNode>, rank: map<string, nat>, name: string)
    requires Ranked(a, rank) && Evolves(a, b) && name in a
    ensures Ranked(b, rank) && Value(b, rank, name) == Value(a, rank, name)
    decreases rank[name]
  {
    EvolvesRanked(a, b, rank);
    assert RankedAt(a, rank, name) && RankedAt(b, rank, name);
    var node := a[name];
    if node.Type != Constant {
      ValueStable(a, b, rank, node.Inputs.value.0);
      ValueStable(a, b, rank, node.Inputs.value.1);
    }
  }

  /** The value of a wire does not depend on which ranking shows the
      circuit acyclic. */
  lemma {:induction false} ValueRankFree(nodes: map<string, LogicNode>, r1: map<string, nat>, r2: map<string, nat>, name: string)
    requires Ranked(nodes, r1) && Ranked(nodes, r2) && name in nodes
    ensures Value(nodes, r1, name) == Value(nodes, r2, name)
    decreases r1[name]
  {
    assert RankedAt(nodes, r1, name) && RankedAt(nodes, r2, name);
    var node := nodes[name];
    if node.Type != Constant {
      ValueRankFree(nodes, r1, r2, node.Inputs.value.0);
      ValueRankFree(nodes, r1, r2, node.Inputs.value.1);
    }
  }

  /** Position of an output wire in the result: the number after the 'z'. */
  function BitOf(name: string): nat
    requires IsOutputName(name) && AllDigits(name[1..])
  {
    Parse(name[1..])
  }


  /** Names are non-empty, outputs lists every 'z' wire once, and every
      wire a node refers to exists. */
  ghost predicate WellFormed(nodes: map<string, LogicNode>, outputs: seq<string>)
  {
    && (forall n :: n in nodes ==> |n| > 0)
    && (forall n :: n in outputs <==> n in nodes && IsOutputName(n))
    && (forall i, j :: 0 <= i < j < |outputs| ==> outputs[i] != outputs[j])
    && (forall n :: n in nodes && nodes[n].Inputs.Some? ==>
          nodes[n].Inputs.value.0 in nodes && nodes[n].Inputs.value.1 in nodes)
    && (forall n, o :: n in nodes && o in nodes[n].Outputs ==> o in nodes)
  }

  /** The node name had before, or the one GetNode would create. */
  function Prior(nodes: map<string, LogicNode>, name: string): LogicNode
  {
    if name in nodes then nodes[name] else Fresh
  }

  /** What AddRule does to node n, from before to after: n's fan-out
      gains out once for each input n is; only out changes type and wiring;
      no value or cache changes. */
  ghost predicate RuleEffect(before: map<string, LogicNode>, after: map<string, LogicNode>,
                             in1: string, in2: string, out: string, n: string)
    requires n in after
  {
    var p := Prior(before, n);
    && after[n].Outputs == p.Outputs + (if n == in1 then [out] else []) + (if n == in2 then [out] else [])
    && after[n].Val == p.Val && after[n].Computed == p.Computed
    && (n != out ==> after[n].Type == p.Type && after[n].Inputs == p.Inputs)
  }

  /** The field writes of AddRule once its three nodes exist: out becomes
      the gate in1 op in2, then out is appended to the fan-out of in1 and
      then of in2. (GetNode never touches an existing node, so setting the
      type before creating the inputs, as the Go code does, comes to the
      same.) */
  function Wire(g: map<string, LogicNode>, in1: string, in2: string, op: NodeType, out: string): map<string, LogicNode>
    requires out in g && in1 in g && in2 in g
  {
    var g1 := g[out := g[out].(Type := op, Inputs := Some((in1, in2)))];
    var g2 := g1[in1 := g1[in1].(Outputs := g1[in1].Outputs + [out])];
    g2[in2 := g2[in2].(Outputs := g2[in2].Outputs + [out])]
  }

  lemma WireWellFormed(g: map<string, LogicNode>, outputs: seq<string>, in1: string, in2: string, op: NodeType, out: string)
    requires WellFormed(g, outputs) && out in g && in1 in g && in2 in g
    ensures WellFormed(Wire(g, in1, in2, op, out), outputs)
  {
    var g1 := g[out := g[out].(Type := op, Inputs := Some((in1, in2)))];
    UpdateWellFormed(g, outputs, out, g[out].(Type := op, Inputs := Some((in1, in2))));
    var g2 := g1[in1 := g1[in1].(Outputs := g1[in1].Outputs + [out])];
    UpdateWellFormed(g1, outputs, in1, g1[in1].(Outputs := g1[in1].Outputs + [out]));
    UpdateWellFormed(g2, outputs, in2, g2[in2].(Outputs := g2[in2].Outputs + [out]));
  }

  /** Got(a, b, name): b is what GetNode(name) leaves of a. */
  predicate Got(a: map<string, LogicNode>, b: map<string, LogicNode>, name: string)
  {
    b == if name in a then a else a[name := Fresh]
  }

  /** Three GetNode calls add their names and change no node. */
  lemma GotAll(g0: map<string, LogicNode>, g1: map<string, LogicNode>, g2: map<string, LogicNode>,
               g3: map<string, LogicNode>, a: string, b: string, c: string)
    requires Got(g0, g1, a) && Got(g1, g2, b) && Got(g2, g3, c)
    ensures g3.Keys == g0.Keys + {a, b, c}
    ensures forall n :: Prior(g3, n) == Prior(g0, n)
  {
  }

  /** Wiring a gate after creating its nodes has RuleEffect on every node
      and adds no node beyond the three. */
  lemma WireEffect(g0: map<string, LogicNode>, g: map<string, LogicNode>, in1: string, in2: string, op: NodeType, out: string)
    requires out in g && in1 in g && in2 in g
    requires g.Keys == g0.Keys + {out, in1, in2}
    requires forall n :: Prior(g, n) == Prior(g0, n)
    ensures Wire(g, in1, in2, op, out).Keys == g0.Keys + {out, in1, in2}
    ensures Wire(g, in1, in2, op, out)[out].Type == op
    ensures Wire(g, in1, in2, op, out)[out].Inputs == Some((in1, in2))
    ensures forall n :: n in Wire(g, in1, in2, op, out) ==> RuleEffect(g0, Wire(g, in1, in2, op, out), in1, in2, out, n)
  {
    var w := Wire(g, in1, in2, op, out);
    forall n | n in w
      ensures RuleEffect(g0, w, in1, in2, out, n)
    {
      assert Prior(g, n) == g[n];
    }
  }

  /** Replacing a node by one whose references exist keeps the graph well
      formed. */
  lemma UpdateWellFormed(nodes: map<string, LogicNode>, outputs: seq<string>, n: string, node: LogicNode)
    requires WellFormed(nodes, outputs) && n in nodes
    requires node.Inputs.Some? ==> node.Inputs.value.0 in nodes && node.Inputs.value.1 in nodes
    requires forall o :: o in node.Outputs ==> o in nodes
    ensures WellFormed(nodes[n := node], outputs)
  {
  }

  lemma EvolvesWellFormed(a: map<string, LogicNode>, b: map<string, LogicNode>, outputs: seq<string>)
    requires WellFormed(a, outputs) && Evolves(a, b)
    ensures WellFormed(b, outputs)
  {
    forall n | n in b
      ensures b[n].Inputs == a[n].Inputs && b[n].Outputs == a[n].Outputs
    {
      assert NodeEvolves(a[n], b[n]);
    }
  }

  /** A new Unknown wire, listed as an output when its name starts with
      'z', keeps the graph well formed. */
  lemma FreshWellFormed(nodes: map<string, LogicNode>, outputs: seq<string>, name: string,
                        nodes': map<string, LogicNode>, outputs': seq<string>)
    requires WellFormed(nodes, outputs) && |name| > 0 && name !in nodes
    requires nodes' == nodes[name := Fresh]
    requires outputs' == outputs + (if name[0] == 'z' then [name] else [])
    ensures WellFormed(nodes', outputs')
  {
    assert name !in outputs;
  }

  /** Three GetNode calls only extend the output list. */
  lemma PrefixTrans(a: seq<string>, b: seq<string>, c: seq<string>, d: seq<string>)
    requires a <= b && b <= c && c <= d
    ensures a <= d
  {
  }

  /** AddConstant's effect: after GetNode(name), making name a computed
      constant changes that node only and keeps the graph well formed. */
  lemma ConstantEffect(g0: map<string, LogicNode>, g1: map<string, LogicNode>, g2: map<string, LogicNode>,
                       outputs: seq<string>, name: string, val: bool)
    requires Got(g0, g1, name) && WellFormed(g1, outputs) && name in g1
    requires g2 == g1[name := g1[name].(Type := Constant, Val := val, Computed := true)]
    ensures WellFormed(g2, outputs) && g2.Keys == g0.Keys + {name}
    ensures forall n :: n in g2 && n != name ==> g2[n] == g0[n]
    ensures g2[name] == Prior(g0, name).(Type := Constant, Val := val, Computed := true)
  {
    UpdateWellFormed(g1, outputs, name, g1[name].(Type := Constant, Val := val, Computed := true));
  }

  /** AddRule's effect: after the three GetNode calls, wiring the gate has
      RuleEffect on every node and keeps the graph well formed. */
  lemma RuleDone(g0: map<string, LogicNode>, g1: map<string, LogicNode>, g2: map<string, LogicNode>,
                 g3: map<string, LogicNode>, g4: map<string, LogicNode>, outputs: seq<string>,
                 in1: string, in2: string, op: NodeType, out: string)
    requires Got(g0, g1, out) && Got(g1, g2, in1) && Got(g2, g3, in2)
    requires WellFormed(g3, outputs)
    requires g4 == Wire(g3, in1, in2, op, out)
    ensures WellFormed(g4, outputs) && g4.Keys == g0.Keys + {out, in1, in2}
    ensures g4[out].Type == op && g4[out].Inputs == Some((in1, in2))
    ensures forall n :: n in g4 ==> RuleEffect(g0, g4, in1, in2, out, n)
  {
    GotAll(g0, g1, g2, g3, out, in1, in2);
    WireWellFormed(g3, outputs, in1, in2, op, out);
    WireEffect(g0, g3, in1, in2, op, out);
  }

  /** While Compute runs: outputs[..i] are computed, and the nodes evolved
      from start and stay well formed, evaluable and right. */
  ghost predicate ComputedUpTo(start: map<string, LogicNode>, nodes: map<string, LogicNode>, outputs: seq<string>,
                               rank: map<string, nat>, i: nat)
  {
    && i <= |outputs| && Evolves(start, nodes) && WellFormed(nodes, outputs)
    && Ranked(nodes, rank) && Consistent(nodes, rank)
    && forall k :: 0 <= k < i ==> outputs[k] in nodes && nodes[outputs[k]].Computed
  }

  /** Evaluating output i keeps the earlier outputs computed. */
  lemma ComputeStep(start: map<string, LogicNode>, before: map<string, LogicNode>, nodes: map<string, LogicNode>,
                    outputs: seq<string>, rank: map<string, nat>, i: nat)
    requires ComputedUpTo(start, before, outputs, rank, i) && i < |outputs|
    requires Evolves(before, nodes) && Ranked(nodes, rank) && Consistent(nodes, rank)
    requires outputs[i] in nodes && nodes[outputs[i]].Computed
    ensures ComputedUpTo(start, nodes, outputs, rank, i + 1)
  {
    EvolvesTrans(start, before, nodes);
    EvolvesWellFormed(before, nodes, outputs);
    forall k | 0 <= k < i
      ensures outputs[k] in nodes && nodes[outputs[k]].Computed
    {
      assert NodeEvolves(before[outputs[k]], nodes[outputs[k]]);
    }
  }

  /** While Reset runs: the nodes not in todo have their cache forgotten,
      unless they are constants; nothing else changes. */
  ghost predicate ResetUpTo(a: map<string, LogicNode>, b: map<string, LogicNode>, todo: set<string>)
  {
    && todo <= b.Keys && b.Keys == a.Keys
    && forall n :: n in b ==>
         b[n] == (if n in todo || a[n].Type == Constant then a[n] else a[n].(Computed := false))
  }

  /** Forgetting the cache of one more node. */
  lemma ResetStep(a: map<string, LogicNode>, b: map<string, LogicNode>, todo: set<string>, n: string,
                  b': map<string, LogicNode>, todo': set<string>)
    requires ResetUpTo(a, b, todo) && n in todo
    requires b' == (if b[n].Type != Constant then b[n := b[n].(Computed := false)] else b)
    requires todo' == todo - {n}
    ensures ResetUpTo(a, b', todo')
  {
  }

  /** Forgetting caches keeps the graph well formed. */
  lemma ResetWellFormed(a: map<string, LogicNode>, b: map<string, LogicNode>, outputs: seq<string>)
    requires WellFormed(a, outputs) && ResetUpTo(a, b, {})
    ensures WellFormed(b, outputs)
  {
    forall n | n in b
      ensures b[n].Inputs == a[n].Inputs && b[n].Outputs == a[n].Outputs
    {
    }
  }

  /** GetOutput's loop over the output wires: or-s 1 << k into the result
      for every wire zk that carries true. */
  method OutputBits(nodes: map<string, LogicNode>, outputs: seq<string>) returns (result: nat)
    requires forall j :: 0 <= j < |outputs| ==> outputs[j] in nodes && IsOutputName(outputs[j])
    requires forall j :: 0 <= j < |outputs| ==> |outputs[j]| >= 2 && AllDigits(outputs[j][1..]) && Parse(outputs[j][1..]) < 63
    ensures result < Pow2(63)
    ensures forall k: nat :: TestBit(result, k) <==>
              exists j :: 0 <= j < |outputs| && BitOf(outputs[j]) == k && nodes[outputs[j]].Val
  {
    result := 0;
    forall k: nat ensures !TestBit(0, k) { TestBitZero(k); }
    for i := 0 to |outputs|
      invariant result < Pow2(63)
      invariant forall k: nat :: TestBit(result, k) <==>
                  exists j :: 0 <= j < i && BitOf(outputs[j]) == k && nodes[outputs[j]].Val
    {
      var node := outputs[i];
      var bitPos := Parse(node[1..]);
      ghost var was := result;
      if nodes[node].Val {
        SetBitBound(result, bitPos, 63);
        result := SetBit(result, bitPos);
      }
      forall k: nat
        ensures TestBit(result, k) <==>
                  exists j :: 0 <= j < i + 1 && BitOf(outputs[j]) == k && nodes[outputs[j]].Val
      {
        if nodes[node].Val {
          SetBitTest(was, bitPos, k);
        }
      }
    }
  }

  class LogicGraph {
    var Nodes: map<string, LogicNode>
    var Outputs: seq<string>

    ghost predicate Valid()
      reads this
    {
      WellFormed(Nodes, Outputs)
    }

    constructor ()
      ensures Nodes == map[] && Outputs == [] && Valid()
    {
      Nodes := map[];
      Outputs := [];
    }

    /** The node named name, created as an Unknown wire on first use; a new
        'z' wire joins Outputs, once. */
    method GetNode(name: string) returns (node: string)
      requires Valid() && |name| > 0
      modifies this
      ensures Valid() && node == name && name in Nodes
      ensures old(Outputs) <= Outputs
      ensures Got(old(Nodes), Nodes, name)
      ensures name in old(Nodes) ==> Nodes == old(Nodes) && Outputs == old(Outputs)
      ensures name !in old(Nodes) ==>
                && Nodes == old(Nodes)[name := Fresh]
                && Outputs == old(Outputs) + (if name[0] == 'z' then [name] else [])
    {
      if name !in Nodes {
        ghost var n0, o0 := Nodes, Outputs;
        Nodes := Nodes[name := Fresh];
        if name[0] == 'z' {
          Outputs := Outputs + [name];
        }
        FreshWellFormed(n0, o0, name, Nodes, Outputs);
      }
      node := name;
    }

    /** The wire name becomes the constant val, computed from the start. */
    method AddConstant(name: string, val: bool)
      requires Valid() && |name| > 0
      modifies this
      ensures Valid()
      ensures Nodes.Keys == old(Nodes.Keys) + {name}
      ensures forall n :: n in Nodes && n != name ==> Nodes[n] == old(Nodes)[n]
      ensures Nodes[name] == (if name in old(Nodes) then old(Nodes)[name] else Fresh).(Type := Constant, Val := val, Computed := true)
      ensures Outputs == old(Outputs) + (if name !in old(Nodes) && name[0] == 'z' then [name] else [])
    {
      var node := GetNode(name);
      ghost var g2 := Nodes;
      Nodes := Nodes[node := Nodes[node].(Type := Constant, Val := val, Computed := true)];
      ConstantEffect(old(Nodes), g2, Nodes, Outputs, node, val);
    }

    /** out := in1 op in2: out becomes a gate reading in1 and in2 (each
        created if new), and out is appended to the fan-out of each input,
        twice when both inputs are the same wire. */
    method AddRule(in1: string, in2: string, op: NodeType, out: string)
      requires Valid() && |in1| > 0 && |in2| > 0 && |out| > 0
      modifies this
      ensures Valid() && old(Outputs) <= Outputs
      ensures Nodes.Keys == old(Nodes.Keys) + {out, in1, in2}
      ensures Nodes[out].Type == op && Nodes[out].Inputs == Some((in1, in2))
      ensures forall n :: n in Nodes ==> RuleEffect(old(Nodes), Nodes, in1, in2, out, n)
    {
      var node := GetNode(out);
      ghost var g1, o1 := Nodes, Outputs;
      var a := GetNode(in1);
      ghost var g2, o2 := Nodes, Outputs;
      var b := GetNode(in2);
      ghost var g3 := Nodes;
      PrefixTrans(old(Outputs), o1, o2, Outputs);
      Nodes := Wire(Nodes, a, b, op, node);
      RuleDone(old(Nodes), g1, g2, g3, Nodes, Outputs, in1, in2, op, out);
    }

    /** LogicNode.Compute: the value of wire name, caching it and the values
        of the wires it had to evaluate. AND and OR short-circuit as Go's &&
        and || do, so the second input of an AND whose first input is false
        is not evaluated. */
    method ComputeNode(name: string, ghost rank: map<string, nat>) returns (val: bool)
      requires name in Nodes && Ranked(Nodes, rank) && Consistent(Nodes, rank)
      modifies this
      ensures Evolves(old(Nodes), Nodes) && Outputs == old(Outputs)
      ensures Ranked(Nodes, rank) && Consistent(Nodes, rank)
      ensures val == Value(old(Nodes), rank, name) && Nodes[name].Computed
      ensures old(Nodes)[name].Computed ==> val == old(Nodes)[name].Val && Nodes == old(Nodes)
      decreases rank[name]
    {
      var node := Nodes[name];
      if node.Computed {
        return node.Val;
      }
      ghost var start := Nodes;
      ValueOfGate(start, rank, name);
      assert RankedAt(start, rank, name);
      var (in0, in1) := node.Inputs.value;
      var v0 := ComputeNode(in0, rank);
      var v := false;
      if node.Type == AND {
        if v0 {
          ghost var before := Nodes;
          v := ComputeNode(in1, rank);
          ValueStable(start, before, rank, in1);
          EvolvesTrans(start, before, Nodes);
        }
      } else if node.Type == OR {
        v := true;
        if !v0 {
          ghost var before := Nodes;
          v := ComputeNode(in1, rank);
          ValueStable(start, before, rank, in1);
          EvolvesTrans(start, before, Nodes);
        }
      } else {
        ghost var before := Nodes;
        var v1 := ComputeNode(in1, rank);
        ValueStable(start, before, rank, in1);
        EvolvesTrans(start, before, Nodes);
        v := v0 != v1;
      }
      assert v == Value(start, rank, name);
      Cache(start, Nodes, rank, name, v);
      Nodes := Nodes[name := Nodes[name].(Val := v, Computed := true)];
      val := v;
    }

    /** LogicGraph.Compute: evaluates every output wire. */
    method Compute(ghost rank: map<string, nat>)
      requires Valid() && Ranked(Nodes, rank) && Consistent(Nodes, rank)
      modifies this
      ensures Valid() && Evolves(old(Nodes), Nodes) && Outputs == old(Outputs)
      ensures Ranked(Nodes, rank) && Consistent(Nodes, rank)
      ensures forall o :: o in Outputs ==> Nodes[o].Computed
    {
      ghost var start := Nodes;
      for i := 0 to |Outputs|
        invariant Outputs == old(Outputs) && ComputedUpTo(start, Nodes, Outputs, rank, i)
      {
        ghost var before := Nodes;
        var _ := ComputeNode(Outputs[i], rank);
        ComputeStep(start, before, Nodes, Outputs, rank, i);
      }
    }

    /** Forgets every cached value except the constants'. */
    method Reset()
      requires Valid()
      modifies this
      ensures Valid() && Outputs == old(Outputs) && Nodes.Keys == old(Nodes.Keys)
      ensures forall n :: n in Nodes ==>
                Nodes[n] == (if old(Nodes)[n].Type == Constant then old(Nodes)[n] else old(Nodes)[n].(Computed := false))
    {
      var todo := Nodes.Keys;
      while todo != {}
        invariant Outputs == old(Outputs) && ResetUpTo(old(Nodes), Nodes, todo)
        decreases |todo|
      {
        var n :| n in todo;
        ghost var b, was := Nodes, todo;
        if Nodes[n].Type != Constant {
          Nodes := Nodes[n := Nodes[n].(Computed := false)];
        }
        todo := todo - {n};
        ResetStep(old(Nodes), b, was, n, Nodes, todo);
      }
      ResetWellFormed(old(Nodes), Nodes, Outputs);
    }

    /** The number whose bit k is set exactly when some output wire zk
        carries true (several output names for one bit, like z5 and z05,
        are or-ed). Every bit lies below Go's sign bit, so the number fits
        a 64-bit int unchanged. */
    method GetOutput(ghost rank: map<string, nat>) returns (result: nat)
      requires Valid() && Ranked(Nodes, rank) && Consistent(Nodes, rank)
      requires forall j :: 0 <= j < |Outputs| ==> |Outputs[j]| >= 2 && AllDigits(Outputs[j][1..]) && Parse(Outputs[j][1..]) < 63
      modifies this
      ensures Valid() && Evolves(old(Nodes), Nodes) && Outputs == old(Outputs)
      ensures Ranked(Nodes, rank) && Consistent(Nodes, rank)
      ensures result < Pow2(63)
      ensures forall k: nat :: TestBit(result, k) <==>
                exists j :: 0 <= j < |Outputs| && BitOf(Outputs[j]) == k && Value(old(Nodes), rank, Outputs[j])
    {
      ghost var start := Nodes;
      Compute(rank);
      result := OutputBits(Nodes, Outputs);
      forall j | 0 <= j < |Outputs|
        ensures Nodes[Outputs[j]].Val == Value(start, rank, Outputs[j])
      {
        ValueStable(start, Nodes, rank, Outputs[j]);
      }
    }
  }
}
