/** Script groups: kernels grouped into nodes by script, links between kernels, the depth-first
    ordering of the nodes, the allocations of the links, and execution in ascending order. */
module ScriptGroup {

  import opened Common

  /** A link from the output of one kernel to the input of another. */
  datatype Link = Link(src: nat, dst: nat)

  /** The kernels of one script, and the links into and out of them. */
  datatype Node = Node(script: nat, kernels: seq<nat>, inputs: seq<nat>, outputs: seq<nat>)

  type ScriptOf = nat -> nat

  // ---------------------------------------------------------------------------------------------
  // What the nodes should be

  /** The scripts of the kernels, each once, in order of appearance. */
  function Scripts(scriptOf: ScriptOf, ks: seq<nat>): seq<nat> {
    if |ks| == 0 then [] else
      var front, s := Scripts(scriptOf, ks[..|ks| - 1]), scriptOf(ks[|ks| - 1]);
      if s in front then front else front + [s]
  }

  function KernelsOf(scriptOf: ScriptOf, ks: seq<nat>, s: nat): seq<nat> {
    if |ks| == 0 then [] else
      var k := ks[|ks| - 1];
      KernelsOf(scriptOf, ks[..|ks| - 1], s) + if scriptOf(k) == s then [k] else []
  }

  /** The links among the first `n` that leave script `s`. */
  function OutputsOf(scriptOf: ScriptOf, links: seq<Link>, s: nat, n: nat): seq<nat>
    requires n <= |links|
  {
    if n == 0 then [] else OutputsOf(scriptOf, links, s, n - 1) + if scriptOf(links[n - 1].src) == s then [n - 1]
        else []
  }

  function InputsOf(scriptOf: ScriptOf, links: seq<Link>, s: nat, n: nat): seq<nat>
    requires n <= |links|
  {
    if n == 0 then [] else InputsOf(scriptOf, links, s, n - 1) + if scriptOf(links[n - 1].dst) == s then [n - 1] else []
  }

  lemma {:induction false} ScriptsOk(scriptOf: ScriptOf, ks: seq<nat>)
    ensures forall i, j :: 0 <= i < j < |Scripts(scriptOf, ks)| ==> Scripts(scriptOf, ks)[i] != Scripts(scriptOf, ks)[j]
    ensures forall s :: s in Scripts(scriptOf, ks) <==> exists k :: k in ks && scriptOf(k) == s
  {
    if |ks| > 0 {
      var front, k := ks[..|ks| - 1], ks[|ks| - 1];
      ScriptsOk(scriptOf, front);
      assert ks == front + [k];
      assert forall j :: j in ks <==> j in front || j == k;
    }
  }

  lemma {:induction false} KernelsOk(scriptOf: ScriptOf, ks: seq<nat>, s: nat)
    ensures forall k :: k in KernelsOf(scriptOf, ks, s) <==> k in ks && scriptOf(k) == s
  {
    if |ks| > 0 {
      var front, k := ks[..|ks| - 1], ks[|ks| - 1];
      KernelsOk(scriptOf, front, s);
      assert ks == front + [k];
      assert forall j :: j in ks <==> j in front || j == k;
    }
  }

  lemma {:induction false} OutputsOk(scriptOf: ScriptOf, links: seq<Link>, s: nat, n: nat)
    requires n <= |links|
    ensures forall l: nat :: l in OutputsOf(scriptOf, links, s, n) <==> l < n && scriptOf(links[l].src) == s
  {
    if n > 0 { OutputsOk(scriptOf, links, s, n - 1); }
  }

  lemma {:induction false} InputsOk(scriptOf: ScriptOf, links: seq<Link>, s: nat, n: nat)
    requires n <= |links|
    ensures forall l: nat :: l in InputsOf(scriptOf, links, s, n) <==> l < n && scriptOf(links[l].dst) == s
  {
    if n > 0 { InputsOk(scriptOf, links, s, n - 1); }
  }

  /** The nodes after the kernels `ks` and the first `n` links. */
  function NodesFor(scriptOf: ScriptOf, ks: seq<nat>, links: seq<Link>, n: nat): (r: seq<Node>)
    requires n <= |links|
    ensures |r| == |Scripts(scriptOf, ks)|
  {
    var scripts := Scripts(scriptOf, ks);
    seq(|scripts|, i requires 0 <= i < |scripts| =>
      Node(scripts[i], KernelsOf(scriptOf, ks, scripts[i]), InputsOf(scriptOf, links, scripts[i], n),
          OutputsOf(scriptOf, links, scripts[i], n)))
  }

  /** The node of a script. */
  function NodeOf(scripts: seq<nat>, s: nat): (i: nat)
    requires s in scripts
    ensures i < |scripts| && scripts[i] == s
  {
    if scripts[0] == s then 0 else 1 + NodeOf(scripts[1..], s)
  }

  /** All links are between kernels of the group. */
  ghost predicate LinksOk(ks: seq<nat>, links: seq<Link>) {
    forall l :: 0 <= l < |links| ==> links[l].src in ks && links[l].dst in ks
  }

  ghost predicate HasScript(scriptOf: ScriptOf, n: Node, s: nat) {
    exists i :: 0 <= i < |n.kernels| && scriptOf(n.kernels[i]) == s
  }

  /** In nodes built from kernels, looking for a script finds its node. */
  lemma NodeHas(scriptOf: ScriptOf, ks: seq<nat>, links: seq<Link>, n: nat, i: nat, s: nat)
    requires n <= |links| && i < |Scripts(scriptOf, ks)|
    ensures HasScript(scriptOf, NodesFor(scriptOf, ks, links, n)[i], s) <==> Scripts(scriptOf, ks)[i] == s
  {
    var scripts, kernels := Scripts(scriptOf, ks), KernelsOf(scriptOf, ks, Scripts(scriptOf, ks)[i]);
    ScriptsOk(scriptOf, ks);
    KernelsOk(scriptOf, ks, scripts[i]);
    assert scripts[i] in scripts;
    var k :| k in ks && scriptOf(k) == scripts[i];
    assert k in kernels;
    var j :| 0 <= j < |kernels| && kernels[j] == k;
    forall j | 0 <= j < |kernels| ensures scriptOf(kernels[j]) == scripts[i] { assert kernels[j] in kernels; }
  }

  /** `findNode`; -1 stands for NULL. */
  method FindNode(scriptOf: ScriptOf, nodes: seq<Node>, s: nat, ghost ks: seq<nat>, ghost links: seq<Link>,
      ghost n: nat) returns (r: int)
    requires n <= |links| && nodes == NodesFor(scriptOf, ks, links, n)
    ensures -1 <= r < |nodes| && (r >= 0 <==> s in Scripts(scriptOf, ks))
    ensures r >= 0 ==> Scripts(scriptOf, ks)[r] == s && nodes[r].script == s
  {
    ghost var scripts := Scripts(scriptOf, ks);
    var ct := 0;
    while ct < |nodes|
      invariant 0 <= ct <= |nodes|
      invariant forall i :: 0 <= i < ct ==> scripts[i] != s
    {
      var ct2 := 0;
      NodeHas(scriptOf, ks, links, n, ct, s);
      while ct2 < |nodes[ct].kernels|
        invariant 0 <= ct2 <= |nodes[ct].kernels|
        invariant forall i :: 0 <= i < ct2 ==> scriptOf(nodes[ct].kernels[i]) != s
      {
        if scriptOf(nodes[ct].kernels[ct2]) == s { return ct; }
        ct2 := ct2 + 1;
      }
      ct := ct + 1;
    }
    return -1;
  }

  lemma KernelsAppend(scriptOf: ScriptOf, ks: seq<nat>, k: nat, s: nat)
    ensures KernelsOf(scriptOf, ks + [k], s) == KernelsOf(scriptOf, ks, s) + if scriptOf(k) == s then [k] else []
  {
    assert (ks + [k])[..|ks|] == ks;
  }

  lemma ScriptsAppend(scriptOf: ScriptOf, ks: seq<nat>, k: nat)
    ensures Scripts(scriptOf, ks + [k]) ==
            if scriptOf(k) in Scripts(scriptOf, ks) then Scripts(scriptOf, ks)
                else Scripts(scriptOf, ks) + [scriptOf(k)]
  {
    assert (ks + [k])[..|ks|] == ks;
  }

  lemma {:induction false} NoKernels(scriptOf: ScriptOf, ks: seq<nat>, s: nat)
    requires forall k :: k in ks ==> scriptOf(k) != s
    ensures KernelsOf(scriptOf, ks, s) == []
  {
    if |ks| > 0 { NoKernels(scriptOf, ks[..|ks| - 1], s); }
  }

  /** A kernel of a new script makes a new node. */
  lemma NewNode(scriptOf: ScriptOf, ks: seq<nat>, k: nat, links: seq<Link>)
    requires scriptOf(k) !in Scripts(scriptOf, ks)
    ensures NodesFor(scriptOf, ks + [k], links, 0) ==
        NodesFor(scriptOf, ks, links, 0) + [Node(scriptOf(k), [k], [], [])]
  {
    var s := scriptOf(k);
    var a, b := NodesFor(scriptOf, ks + [k], links, 0), NodesFor(scriptOf, ks, links, 0);
    ScriptsAppend(scriptOf, ks, k);
    ScriptsOk(scriptOf, ks);
    NoKernels(scriptOf, ks, s);
    forall i | 0 <= i < |a| ensures a[i] == (b + [Node(s, [k], [], [])])[i] {
      KernelsAppend(scriptOf, ks, k, Scripts(scriptOf, ks + [k])[i]);
    }
  }

  /** Another kernel joins the node of its script. */
  lemma JoinNode(scriptOf: ScriptOf, ks: seq<nat>, k: nat, links: seq<Link>, n: nat)
    requires n < |Scripts(scriptOf, ks)| && Scripts(scriptOf, ks)[n] == scriptOf(k)
    ensures var b := NodesFor(scriptOf, ks, links, 0);
      NodesFor(scriptOf, ks + [k], links, 0) == b[n := b[n].(kernels := b[n].kernels + [k])]
  {
    var a, b := NodesFor(scriptOf, ks + [k], links, 0), NodesFor(scriptOf, ks, links, 0);
    ScriptsAppend(scriptOf, ks, k);
    ScriptsOk(scriptOf, ks);
    forall i | 0 <= i < |a| ensures a[i] == b[n := b[n].(kernels := b[n].kernels + [k])][i] {
      KernelsAppend(scriptOf, ks, k, Scripts(scriptOf, ks)[i]);
    }
  }

  /** A link joins the outputs of the node it leaves and the inputs of the one it enters. */
  lemma LinkNodes(scriptOf: ScriptOf, ks: seq<nat>, links: seq<Link>, l: nat, from: nat, to: nat)
    requires l < |links| && from < |Scripts(scriptOf, ks)| && to < |Scripts(scriptOf, ks)|
    requires Scripts(scriptOf, ks)[from] == scriptOf(links[l].src) &&
        Scripts(scriptOf, ks)[to] == scriptOf(links[l].dst)
    ensures var b := NodesFor(scriptOf, ks, links, l);
      var c := b[from := b[from].(outputs := b[from].outputs + [l])];
      NodesFor(scriptOf, ks, links, l + 1) == c[to := c[to].(inputs := c[to].inputs + [l])]
  {
    ScriptsOk(scriptOf, ks);
    var a, b := NodesFor(scriptOf, ks, links, l + 1), NodesFor(scriptOf, ks, links, l);
    var c := b[from := b[from].(outputs := b[from].outputs + [l])];
    forall i | 0 <= i < |a| ensures a[i] == c[to := c[to].(inputs := c[to].inputs + [l])][i] {}
  }

  /** The first loop of `calcOrder`: a node for each script. */
  method MakeNodes(scriptOf: ScriptOf, ks: seq<nat>, links: seq<Link>) returns (nodes: seq<Node>)
    ensures nodes == NodesFor(scriptOf, ks, links, 0)
  {
    nodes := [];
    var ct := 0;
    while ct < |ks|
      invariant 0 <= ct <= |ks| && nodes == NodesFor(scriptOf, ks[..ct], links, 0)
    {
      var k := ks[ct];
      assert ks[..ct + 1] == ks[..ct] + [k];
      var n := FindNode(scriptOf, nodes, scriptOf(k), ks[..ct], links, 0);
      if n == -1 {
        NewNode(scriptOf, ks[..ct], k, links);
        nodes := nodes + [Node(scriptOf(k), [k], [], [])];
      } else {
        JoinNode(scriptOf, ks[..ct], k, links, n);
        nodes := nodes[n := nodes[n].(kernels := nodes[n].kernels + [k])];
      }
      ct := ct + 1;
    }
    assert ks[..ct] == ks;
  }

  /** The second loop of `calcOrder`: the links of each node. */
  method AddLinks(scriptOf: ScriptOf, ks: seq<nat>, links: seq<Link>, made: seq<Node>) returns (nodes: seq<Node>)
    requires LinksOk(ks, links) && made == NodesFor(scriptOf, ks, links, 0)
    ensures nodes == NodesFor(scriptOf, ks, links, |links|)
  {
    nodes := made;
    ScriptsOk(scriptOf, ks);
    var ct := 0;
    while ct < |links|
      invariant 0 <= ct <= |links| && nodes == NodesFor(scriptOf, ks, links, ct)
    {
      assert links[ct].src in ks && links[ct].dst in ks;
      var from := FindNode(scriptOf, nodes, scriptOf(links[ct].src), ks, links, ct);
      var to := FindNode(scriptOf, nodes, scriptOf(links[ct].dst), ks, links, ct);
      LinkNodes(scriptOf, ks, links, ct, from, to);
      nodes := nodes[from := nodes[from].(outputs := nodes[from].outputs + [ct])];
      nodes := nodes[to := nodes[to].(inputs := nodes[to].inputs + [ct])];
      ct := ct + 1;
    }
  }

  // ---------------------------------------------------------------------------------------------
  // Order

  /** Kernels and links, as a client gives them to `create`. */
  datatype Group = Group(scriptOf: ScriptOf, kernels: seq<nat>, links: seq<Link>)

  ghost predicate GroupOk(g: Group) {
    LinksOk(g.kernels, g.links)
  }

  function Nodes(g: Group): seq<Node> {
    NodesFor(g.scriptOf, g.kernels, g.links, |g.links|)
  }

  /** The node of a kernel. */
  function NodeOfKernel(g: Group, k: nat): (i: nat)
    requires k in g.kernels
    ensures i < |Nodes(g)| && Scripts(g.scriptOf, g.kernels)[i] == g.scriptOf(k)
  {
    ScriptsOk(g.scriptOf, g.kernels);
    NodeOf(Scripts(g.scriptOf, g.kernels), g.scriptOf(k))
  }

  /** The nodes a link leaves and enters. */
  function From(g: Group, l: nat): nat
    requires LinksOk(g.kernels, g.links) && l < |g.links|
  {
    NodeOfKernel(g, g.links[l].src)
  }

  function To(g: Group, l: nat): nat
    requires LinksOk(g.kernels, g.links) && l < |g.links|
  {
    NodeOfKernel(g, g.links[l].dst)
  }

  /** Output `c` of node `i` is a link that leaves node `i`, and every link that does is one. */
  lemma OutputFrom(g: Group, i: nat, c: nat)
    requires GroupOk(g) && i < |Nodes(g)| && c < |Nodes(g)[i].outputs|
    ensures Nodes(g)[i].outputs[c] < |g.links| && From(g, Nodes(g)[i].outputs[c]) == i
  {
    var scripts := Scripts(g.scriptOf, g.kernels);
    var l := Nodes(g)[i].outputs[c];
    OutputsOk(g.scriptOf, g.links, scripts[i], |g.links|);
    assert l in Nodes(g)[i].outputs;
    ScriptsOk(g.scriptOf, g.kernels);
  }

  lemma LinkIsOutput(g: Group, l: nat) returns (c: nat)
    requires GroupOk(g) && l < |g.links|
    ensures From(g, l) < |Nodes(g)| && c < |Nodes(g)[From(g, l)].outputs| && Nodes(g)[From(g, l)].outputs[c] == l
  {
    var i := From(g, l);
    OutputsOk(g.scriptOf, g.links, Scripts(g.scriptOf, g.kernels)[i], |g.links|);
    assert l in Nodes(g)[i].outputs;
    c :| 0 <= c < |Nodes(g)[i].outputs| && Nodes(g)[i].outputs[c] == l;
  }

  function Unseen(seen: seq<bool>): nat {
    if |seen| == 0 then 0 else Unseen(seen[..|seen| - 1]) + if seen[|seen| - 1] then 0 else 1
  }

  lemma {:induction false} UnseenMark(seen: seq<bool>, n: nat)
    requires n < |seen| && !seen[n]
    ensures Unseen(seen[n := true]) == Unseen(seen) - 1
  {
    var m := |seen| - 1;
    if n == m { assert seen[n := true][..m] == seen[..m]; } else {
      assert seen[n := true][..m] == seen[..m][n := true];
      UnseenMark(seen[..m], n);
    }
  }

  /** From one pass of the recursion to the next: nodes only become seen, and only a node that does
      changes its order, upwards. */
  ghost predicate Grown(seen: seq<bool>, order: seq<int>, seen': seq<bool>, order': seq<int>) {
    && |seen'| == |seen| == |order| == |order'|
    && forall i :: 0 <= i < |seen| ==> Grows(seen[i], order[i], seen'[i], order'[i])
  }

  predicate Grows(seen: bool, order: int, seen': bool, order': int) {
    (seen ==> seen') && order' >= order && (seen == seen' ==> order' == order)
  }

  lemma GrownTwice(a: seq<bool>, oa: seq<int>, b: seq<bool>, ob: seq<int>, c: seq<bool>, oc: seq<int>)
    requires Grown(a, oa, b, ob) && Grown(b, ob, c, oc)
    ensures Grown(a, oa, c, oc)
  {
    forall i | 0 <= i < |a| ensures Grows(a[i], oa[i], c[i], oc[i]) {
      assert Grows(a[i], oa[i], b[i], ob[i]) && Grows(b[i], ob[i], c[i], oc[i]);
    }
  }

  /** The target of output `c` of node `i` is in `v` and comes later. */
  ghost predicate Later(g: Group, v: seq<bool>, order: seq<int>, i: nat, c: nat)
    requires GroupOk(g) && |v| == |order| == |Nodes(g)| && i < |Nodes(g)| && c < |Nodes(g)[i].outputs|
  {
    OutputFrom(g, i, c);
    var t := To(g, Nodes(g)[i].outputs[c]);
    v[t] && order[t] > order[i]
  }

  /** The first `n` outputs of node `i` are. */
  ghost predicate Settled(g: Group, v: seq<bool>, order: seq<int>, i: nat, n: nat)
    requires GroupOk(g) && |v| == |order| == |Nodes(g)| && i < |Nodes(g)| && n <= |Nodes(g)[i].outputs|
  {
    forall c :: 0 <= c < n ==> Later(g, v, order, i, c)
  }

  /** All outputs of the nodes that are in `v` and not in `u`. */
  ghost predicate AllSettled(g: Group, u: seq<bool>, v: seq<bool>, order: seq<int>, except: int)
    requires GroupOk(g) && |u| == |v| == |order| == |Nodes(g)|
  {
    forall i :: 0 <= i < |v| && v[i] && !u[i] && i != except ==> Settled(g, v, order, i, |Nodes(g)[i].outputs|)
  }

  /** What is settled stays so while other nodes are seen. */
  lemma SettledKept(g: Group, v: seq<bool>, order: seq<int>, v': seq<bool>, order': seq<int>, i: nat, n: nat)
    requires GroupOk(g) && |v| == |order| == |Nodes(g)| && i < |Nodes(g)| && n <= |Nodes(g)[i].outputs|
    requires Grown(v, order, v', order') && v[i] && Settled(g, v, order, i, n)
    ensures Settled(g, v', order', i, n)
  {
    assert Grows(v[i], order[i], v'[i], order'[i]);
    forall c | 0 <= c < n ensures Later(g, v', order', i, c) {
      assert Later(g, v, order, i, c);
      OutputFrom(g, i, c);
      var t := To(g, Nodes(g)[i].outputs[c]);
      assert Grows(v[t], order[t], v'[t], order'[t]);
    }
  }

  /** After another child: what was settled before it, and what it settled. */
  lemma SettledBoth(g: Group, u: seq<bool>, v: seq<bool>, order: seq<int>, v': seq<bool>, order': seq<int>, n: nat)
    requires GroupOk(g) && |u| == |v| == |order| == |Nodes(g)| && Grown(v, order, v', order') && n < |v| && v[n]
    requires AllSettled(g, u, v, order, n) && AllSettled(g, v, v', order', -1)
    ensures AllSettled(g, u, v', order', n)
  {
    forall i | 0 <= i < |v| && v'[i] && !u[i] && i != n ensures Settled(g, v', order', i, |Nodes(g)[i].outputs|) {
      if v[i] { SettledKept(g, v, order, v', order', i, |Nodes(g)[i].outputs|); }
    }
  }

  // ---------------------------------------------------------------------------------------------
  // Links that meet

  predicate IsRoot(g: Group, i: int) {
    0 <= i < |Nodes(g)| && |Nodes(g)[i].inputs| == 0
  }

  ghost predicate Edge(g: Group, a: nat, b: nat)
    requires GroupOk(g)
  {
    exists l :: 0 <= l < |g.links| && From(g, l) == a && To(g, l) == b
  }

  ghost predicate Path(g: Group, p: seq<nat>)
    requires GroupOk(g)
  {
    |p| > 0 && forall i :: 0 <= i < |p| - 1 ==> Edge(g, p[i], p[i + 1])
  }

  ghost predicate Leads(g: Group, p: seq<nat>, a: nat, b: nat)
    requires GroupOk(g)
  {
    Path(g, p) && p[0] == a && p[|p| - 1] == b
  }

  ghost predicate Reaches(g: Group, a: nat, b: nat)
    requires GroupOk(g)
  {
    exists p :: Leads(g, p, a, b)
  }

  /** Two links out of nodes that `r` reaches go to the same node. */
  ghost predicate HasClash(g: Group, r: nat)
    requires GroupOk(g)
  {
    exists l, m :: Meet(g, r, l, m)
  }

  ghost predicate Meet(g: Group, r: nat, l: nat, m: nat)
    requires GroupOk(g)
  {
    l < |g.links| && m < |g.links| && l != m && Reaches(g, r, From(g, l)) && Reaches(g, r, From(g, m)) &&
        To(g, l) == To(g, m)
  }

  /** The nodes seen since the root were reached along the links used, no two of which meet; node
      `pending` is about to be seen. */
  ghost predicate Known(g: Group, root: nat, seen: seq<bool>, used: set<nat>, pending: int)
    requires GroupOk(g) && |seen| == |Nodes(g)|
  {
    && (forall l :: l in used ==> LinkKnown(g, seen, pending, l))
    && (forall l, m :: l in used && m in used && l != m ==> Differ(g, l, m))
    && (forall i :: 0 <= i < |seen| && (seen[i] || i == pending) ==> NodeKnown(g, root, used, i))
  }

  ghost predicate LinkKnown(g: Group, seen: seq<bool>, pending: int, l: nat)
    requires GroupOk(g) && |seen| == |Nodes(g)|
  {
    l < |g.links| && seen[From(g, l)] && (seen[To(g, l)] || To(g, l) == pending)
  }

  ghost predicate Differ(g: Group, l: nat, m: nat)
    requires GroupOk(g)
  {
    l < |g.links| && m < |g.links| && To(g, l) != To(g, m)
  }

  ghost predicate NodeKnown(g: Group, root: nat, used: set<nat>, i: nat)
    requires GroupOk(g)
  {
    Reaches(g, root, i) && (i == root || Entered(g, used, i))
  }

  ghost predicate Entered(g: Group, used: set<nat>, i: nat)
    requires GroupOk(g)
  {
    exists l :: l in used && l < |g.links| && To(g, l) == i
  }

  /** From `u`, `before` to `v`, `after`: only links out of newly seen nodes were used, and all of those. */
  ghost predicate Explored(g: Group, u: seq<bool>, before: set<nat>, v: seq<bool>, after: set<nat>, except: int)
    requires GroupOk(g) && |u| == |v| == |Nodes(g)|
  {
    && before <= after
    && (forall l :: l in after && l !in before ==> l < |g.links| && !u[From(g, l)])
    && (forall l :: 0 <= l < |g.links| && v[From(g, l)] && !u[From(g, l)] && From(g, l) != except ==> l in after)
  }

  /** Of the outputs of node `n`, the first `c` have been used. */
  ghost predicate Followed(g: Group, used: set<nat>, n: nat, c: nat)
    requires n < |Nodes(g)|
  {
    forall i :: 0 <= i < |Nodes(g)[n].outputs| ==> (Nodes(g)[n].outputs[i] in used <==> i < c)
  }

  lemma {:induction false} OutputsRise(scriptOf: ScriptOf, links: seq<Link>, s: nat, n: nat)
    requires n <= |links|
    ensures forall i, j :: 0 <= i < j < |OutputsOf(scriptOf, links, s, n)| ==>
        OutputsOf(scriptOf, links, s, n)[i] < OutputsOf(scriptOf, links, s, n)[j]
  {
    if n > 0 {
      OutputsRise(scriptOf, links, s, n - 1);
      OutputsOk(scriptOf, links, s, n - 1);
      var front := OutputsOf(scriptOf, links, s, n - 1);
      forall i | 0 <= i < |front| ensures front[i] < n - 1 { assert front[i] in front; }
    }
  }

  lemma ReachStep(g: Group, root: nat, l: nat)
    requires GroupOk(g) && l < |g.links| && Reaches(g, root, From(g, l))
    ensures Reaches(g, root, To(g, l))
  {
    var p :| Leads(g, p, root, From(g, l));
    var q := p + [To(g, l)];
    forall i | 0 <= i < |q| - 1 ensures Edge(g, q[i], q[i + 1]) {
      if i < |p| - 1 { assert Edge(g, p[i], p[i + 1]); }
    }
    assert Leads(g, q, root, To(g, l));
  }

  lemma Enter(g: Group, root: nat, seen: seq<bool>, used: set<nat>, n: nat)
    requires GroupOk(g) && |seen| == |Nodes(g)| && n < |seen| && !seen[n] && Known(g, root, seen, used, n)
    ensures Known(g, root, seen[n := true], used, -1) && Explored(g, seen, used, seen[n := true], used, n) &&
        Followed(g, used, n, 0)
  {
    forall l | l in used ensures LinkKnown(g, seen[n := true], -1, l) { assert LinkKnown(g, seen, n, l); }
    forall i | 0 <= i < |Nodes(g)[n].outputs| ensures Nodes(g)[n].outputs[i] !in used {
      OutputFrom(g, n, i);
      assert Nodes(g)[n].outputs[i] in used ==> LinkKnown(g, seen, n, Nodes(g)[n].outputs[i]);
    }
  }

  /** A link to a node that has been seen meets the link that node was entered by. */
  lemma Clash(g: Group, root: nat, seen: seq<bool>, used: set<nat>, l: nat)
    requires GroupOk(g) && |seen| == |Nodes(g)| && IsRoot(g, root) && Known(g, root, seen, used, -1)
    requires l < |g.links| && l !in used && seen[From(g, l)] && seen[To(g, l)]
    ensures HasClash(g, root)
  {
    RootUnentered(g, root, l);
    assert NodeKnown(g, root, used, To(g, l)) && NodeKnown(g, root, used, From(g, l));
    var m :| m in used && m < |g.links| && To(g, m) == To(g, l);
    assert LinkKnown(g, seen, -1, m) && NodeKnown(g, root, used, From(g, m));
    assert Meet(g, root, l, m);
  }

  lemma RootUnentered(g: Group, root: nat, l: nat)
    requires GroupOk(g) && IsRoot(g, root) && l < |g.links|
    ensures To(g, l) != root
  {
    InputsOk(g.scriptOf, g.links, g.scriptOf(g.links[l].dst), |g.links|);
    assert l in InputsOf(g.scriptOf, g.links, g.scriptOf(g.links[l].dst), |g.links|);
  }

  lemma Take(g: Group, root: nat, seen: seq<bool>, used: set<nat>, l: nat)
    requires GroupOk(g) && |seen| == |Nodes(g)| && Known(g, root, seen, used, -1)
    requires l < |g.links| && seen[From(g, l)] && !seen[To(g, l)]
    ensures Known(g, root, seen, used + {l}, To(g, l))
  {
    var used' := used + {l};
    assert NodeKnown(g, root, used, From(g, l));
    ReachStep(g, root, l);
    forall m | m in used' ensures LinkKnown(g, seen, To(g, l), m) {
      if m != l { assert LinkKnown(g, seen, -1, m); }
    }
    forall k, m | k in used' && m in used' && k != m ensures Differ(g, k, m) {
      if k == l { assert LinkKnown(g, seen, -1, m); } else if m == l { assert LinkKnown(g, seen, -1, k); }
          else { assert Differ(g, k, m); }
    }
    forall i | 0 <= i < |seen| && (seen[i] || i == To(g, l)) ensures NodeKnown(g, root, used', i) {
      if seen[i] {
        assert NodeKnown(g, root, used, i);
        if i != root { var m :| m in used && m < |g.links| && To(g, m) == i; assert m in used'; }
      } else { assert l in used'; }
    }
  }

  lemma ChildExplored(g: Group, u: seq<bool>, before: set<nat>, v: seq<bool>, w: set<nat>, v': seq<bool>,
      w': set<nat>, n: nat, c: nat)
    requires GroupOk(g) && |u| == |v| == |v'| == |Nodes(g)| && n < |u| && !u[n] && v[n] && c < |Nodes(g)[n].outputs|
    requires forall i :: 0 <= i < |u| && u[i] ==> v[i]
    requires Explored(g, u, before, v, w, n) && Followed(g, w, n, c)
    requires Explored(g, v, w + {Nodes(g)[n].outputs[c]}, v', w', -1)
    ensures Explored(g, u, before, v', w', n) && Followed(g, w', n, c + 1)
  {
    var outs := Nodes(g)[n].outputs;
    OutputFrom(g, n, c);
    OutputsRise(g.scriptOf, g.links, Scripts(g.scriptOf, g.kernels)[n], |g.links|);
    forall i | 0 <= i < |outs| ensures outs[i] in w' <==> i < c + 1 {
      OutputFrom(g, n, i);
    }
  }

  lemma NodeExplored(g: Group, u: seq<bool>, before: set<nat>, v: seq<bool>, after: set<nat>, n: nat)
    requires GroupOk(g) && |u| == |v| == |Nodes(g)| && n < |u|
    requires Explored(g, u, before, v, after, n) && Followed(g, after, n, |Nodes(g)[n].outputs|)
    ensures Explored(g, u, before, v, after, -1)
  {
    forall l | 0 <= l < |g.links| && From(g, l) == n ensures l in after {
      var c := LinkIsOutput(g, l);
    }
  }

  lemma RootKnown(g: Group, none: seq<bool>, root: nat)
    requires GroupOk(g) && root < |none| == |Nodes(g)| && forall i :: 0 <= i < |none| ==> !none[i]
    ensures Known(g, root, none, {}, root)
  {
    assert Leads(g, [root], root, root);
  }

  lemma {:induction false} ReachedSeen(g: Group, root: nat, seen: seq<bool>, p: seq<nat>, n: nat)
    requires GroupOk(g) && root < |seen| == |Nodes(g)| && seen[root] && Path(g, p) && p[0] == root && n < |p|
    requires forall l :: 0 <= l < |g.links| && seen[From(g, l)] ==> seen[To(g, l)]
    ensures p[n] < |seen| && seen[p[n]]
  {
    if n > 0 {
      ReachedSeen(g, root, seen, p, n - 1);
      assert Edge(g, p[n - 1], p[n - 1 + 1]);
    }
  }

  lemma ReachedUsed(g: Group, none: seq<bool>, seen: seq<bool>, used: set<nat>, root: nat, l: nat)
    requires GroupOk(g) && root < |none| == |seen| == |Nodes(g)| && (forall i :: 0 <= i < |none| ==> !none[i]) &&
        l < |g.links|
    requires seen[root] && Known(g, root, seen, used, -1) && Explored(g, none, {}, seen, used, -1)
    ensures Reaches(g, root, From(g, l)) ==> l in used
  {
    forall m | 0 <= m < |g.links| && seen[From(g, m)] ensures seen[To(g, m)] { assert m in used; }
    if Reaches(g, root, From(g, l)) {
      var p :| Leads(g, p, root, From(g, l));
      ReachedSeen(g, root, seen, p, |p| - 1);
    }
  }

  lemma NoMeet(g: Group, none: seq<bool>, seen: seq<bool>, used: set<nat>, root: nat, l: nat, m: nat)
    requires GroupOk(g) && root < |none| == |seen| == |Nodes(g)| && forall i :: 0 <= i < |none| ==> !none[i]
    requires seen[root] && Known(g, root, seen, used, -1) && Explored(g, none, {}, seen, used, -1)
    ensures !Meet(g, root, l, m)
  {
    if l < |g.links| && m < |g.links| && l != m {
      ReachedUsed(g, none, seen, used, root, l);
      ReachedUsed(g, none, seen, used, root, m);
      if l in used && m in used { assert Differ(g, l, m); }
    }
  }

  /** A root that has been explored without a collision reaches no two links that meet. */
  lemma RootExplored(g: Group, none: seq<bool>, seen: seq<bool>, used: set<nat>, root: nat)
    requires GroupOk(g) && root < |none| == |seen| == |Nodes(g)| && forall i :: 0 <= i < |none| ==> !none[i]
    requires seen[root] && Known(g, root, seen, used, -1) && Explored(g, none, {}, seen, used, -1)
    ensures !HasClash(g, root)
  {
    forall l: nat, m: nat ensures !Meet(g, root, l, m) { NoMeet(g, none, seen, used, root, l, m); }
  }

  /** Where the loop of the recursion is: node `n` is marked and its first `c` outputs are done. */
  ghost predicate Progress(g: Group, root: nat, u: seq<bool>, before: set<nat>, v: seq<bool>, after: set<nat>,
      order: seq<int>, n: nat, c: nat)
    requires GroupOk(g) && |u| == |v| == |order| == |Nodes(g)| && n < |u| && c <= |Nodes(g)[n].outputs|
  {
    && AllSettled(g, u, v, order, n) && Settled(g, v, order, n, c)
    && Known(g, root, v, after, -1) && Explored(g, u, before, v, after, n) && Followed(g, after, n, c)
  }

  /** What a call that returns true leaves behind. */
  ghost predicate Result(g: Group, root: nat, u: seq<bool>, before: set<nat>, v: seq<bool>, after: set<nat>,
      order: seq<int>)
    requires GroupOk(g) && |u| == |v| == |order| == |Nodes(g)|
  {
    AllSettled(g, u, v, order, -1) && Known(g, root, v, after, -1) && Explored(g, u, before, v, after, -1)
  }

  lemma ProgressStart(g: Group, root: nat, seen: seq<bool>, used: set<nat>, order: seq<int>, n: nat)
    requires GroupOk(g) && |seen| == |order| == |Nodes(g)| && n < |seen| && !seen[n] && Known(g, root, seen, used, n)
    ensures Progress(g, root, seen, used, seen[n := true], used, order, n, 0)
  {
    Enter(g, root, seen, used, n);
  }

  lemma ProgressClash(g: Group, root: nat, u: seq<bool>, before: set<nat>, v: seq<bool>, after: set<nat>,
      order: seq<int>, n: nat, c: nat)
    requires GroupOk(g) && |u| == |v| == |order| == |Nodes(g)| && n < |u| && c < |Nodes(g)[n].outputs| && v[n] &&
        IsRoot(g, root)
    requires Progress(g, root, u, before, v, after, order, n, c)
    requires Nodes(g)[n].outputs[c] < |g.links| && v[To(g, Nodes(g)[n].outputs[c])]
    ensures HasClash(g, root)
  {
    OutputFrom(g, n, c);
    Clash(g, root, v, after, Nodes(g)[n].outputs[c]);
  }

  lemma ProgressTake(g: Group, root: nat, u: seq<bool>, before: set<nat>, v: seq<bool>, after: set<nat>,
      order: seq<int>, n: nat, c: nat)
    requires GroupOk(g) && |u| == |v| == |order| == |Nodes(g)| && n < |u| && c < |Nodes(g)[n].outputs| && v[n]
    requires Progress(g, root, u, before, v, after, order, n, c)
    requires Nodes(g)[n].outputs[c] < |g.links| && !v[To(g, Nodes(g)[n].outputs[c])]
    ensures Known(g, root, v, after + {Nodes(g)[n].outputs[c]}, To(g, Nodes(g)[n].outputs[c]))
  {
    OutputFrom(g, n, c);
    Take(g, root, v, after, Nodes(g)[n].outputs[c]);
  }

  lemma ProgressChild(g: Group, root: nat, u: seq<bool>, before: set<nat>, v: seq<bool>, w: set<nat>, order: seq<int>,
                      v': seq<bool>, w': set<nat>, order': seq<int>, n: nat, c: nat)
    requires GroupOk(g) && |u| == |v| == |order| == |Nodes(g)| && n < |u| && c < |Nodes(g)[n].outputs| && !u[n] && v[n]
    requires Grown(v, order, v', order') && (forall i :: 0 <= i < |u| && u[i] ==> v[i])
    requires Progress(g, root, u, before, v, w, order, n, c)
    requires Result(g, root, v, w + {Nodes(g)[n].outputs[c]}, v', w', order')
    requires Nodes(g)[n].outputs[c] < |g.links| &&
        var t := To(g, Nodes(g)[n].outputs[c]); v'[t] && order'[t] >= order[n] + 1
    ensures Progress(g, root, u, before, v', w', order', n, c + 1)
  {
    ChildDone(g, u, v, order, v', order', n, c);
    ChildExplored(g, u, before, v, w, v', w', n, c);
  }

  lemma ProgressEnd(g: Group, root: nat, u: seq<bool>, before: set<nat>, v: seq<bool>, after: set<nat>,
      order: seq<int>, n: nat)
    requires GroupOk(g) && |u| == |v| == |order| == |Nodes(g)| && n < |u|
    requires Progress(g, root, u, before, v, after, order, n, |Nodes(g)[n].outputs|)
    ensures Result(g, root, u, before, v, after, order)
  {
    NodeExplored(g, u, before, v, after, n);
  }

  // ---------------------------------------------------------------------------------------------
  // The order that the walk gives

  /** What the walk leaves behind: the marks, the orders, and whether it met no mark. */
  datatype Walk = Walk(seen: seq<bool>, order: seq<int>, ret: bool)

  /** The walk below node `n`. */
  function WalkNode(g: Group, n: nat, depth: int, seen: seq<bool>, order: seq<int>): (w: Walk)
    requires GroupOk(g) && |seen| == |order| == |Nodes(g)| && n < |seen| && !seen[n]
    ensures |w.seen| == |w.order| == |seen| && Unseen(w.seen) < Unseen(seen)
    decreases Unseen(seen), 0
  {
    UnseenMark(seen, n);
    WalkOutputs(g, n, 0, seen[n := true], if order[n] < depth then order[n := depth] else order, true)
  }

  /** The walk below the outputs of node `n` from output `c` on; it stops at a target that is marked. */
  function WalkOutputs(g: Group, n: nat, c: nat, seen: seq<bool>, order: seq<int>, ret: bool): (w: Walk)
    requires GroupOk(g) && |seen| == |order| == |Nodes(g)| && n < |seen| && c <= |Nodes(g)[n].outputs|
    ensures |w.seen| == |w.order| == |seen| && Unseen(w.seen) <= Unseen(seen)
    decreases Unseen(seen), 1 + |Nodes(g)[n].outputs| - c
  {
    if c == |Nodes(g)[n].outputs| then Walk(seen, order, ret) else
    var t := Target(g, n, c);
    if seen[t] then Walk(seen, order, false) else
    var w := WalkNode(g, t, order[n] + 1, seen, order);
    WalkOutputs(g, n, c + 1, w.seen, w.order, ret && w.ret)
  }

  /** Where output `c` of node `n` leads. */
  function Target(g: Group, n: nat, c: nat): (t: nat)
    requires GroupOk(g) && n < |Nodes(g)| && c < |Nodes(g)[n].outputs|
    ensures t < |Nodes(g)| && Nodes(g)[n].outputs[c] < |g.links| && t == To(g, Nodes(g)[n].outputs[c])
  {
    OutputFrom(g, n, c);
    To(g, Nodes(g)[n].outputs[c])
  }

  /** The orders, and whether no walk met a mark. */
  datatype Orders = Orders(order: seq<int>, ret: bool)

  /** The walks below the roots among the first `ct` nodes, each with its own marks. */
  function WalkRoots(g: Group, ct: nat): (r: Orders)
    requires GroupOk(g) && ct <= |Nodes(g)|
    ensures |r.order| == |Nodes(g)|
  {
    if ct == 0 then Orders(seq(|Nodes(g)|, i => 0), true) else
    var was := WalkRoots(g, ct - 1);
    if |Nodes(g)[ct - 1].inputs| > 0 then was else
    var w := WalkNode(g, ct - 1, 0, Unmarked(|Nodes(g)|), was.order);
    Orders(w.order, was.ret && w.ret)
  }

  function Unmarked(n: nat): (r: seq<bool>)
    ensures |r| == n && forall i :: 0 <= i < n ==> !r[i]
  {
    seq(n, i => false)
  }

  /** What `calcOrder` makes of a group. */
  function OrderOf(g: Group): (r: Orders)
    requires GroupOk(g)
    ensures |r.order| == |Nodes(g)|
  {
    WalkRoots(g, |Nodes(g)|)
  }

  /** The walk below a node.  If it meets no mark, every link out of a node it marked goes to another such
      node of larger order, and no two of them to the same one; if it meets one, two links out of nodes
      the root reaches do meet. */
  lemma {:induction false} NodeWalked(g: Group, root: nat, n: nat, depth: int, seen: seq<bool>, order: seq<int>,
      used: set<nat>, good: bool, w: Walk) returns (after: set<nat>)
    requires GroupOk(g) && |seen| == |order| == |Nodes(g)| && n < |seen| && !seen[n]
    requires w == WalkNode(g, n, depth, seen, order)
    requires good ==> IsRoot(g, root) && Known(g, root, seen, used, n)
    ensures Grown(seen, order, w.seen, w.order) && w.seen[n] && w.order[n] >= depth
    ensures good && w.ret ==> Result(g, root, seen, used, w.seen, after, w.order)
    ensures good && !w.ret ==> HasClash(g, root)
    decreases Unseen(seen), 0
  {
    UnseenMark(seen, n);
    var v, o := seen[n := true], if order[n] < depth then order[n := depth] else order;
    if good { ProgressStart(g, root, seen, used, o, n); }
    after := OutputsWalked(g, root, n, 0, v, o, true, good, seen, used, used, w);
    GrownTwice(seen, order, v, o, w.seen, w.order);
    assert Grows(v[n], o[n], w.seen[n], w.order[n]);
    if good && w.ret { ProgressEnd(g, root, seen, used, w.seen, after, w.order, n); }
  }

  lemma {:induction false} OutputsWalked(g: Group, root: nat, n: nat, c: nat, seen: seq<bool>, order: seq<int>,
      ret: bool, good: bool, u: seq<bool>, before: set<nat>, used: set<nat>, w: Walk) returns (after: set<nat>)
    requires GroupOk(g) && |u| == |seen| == |order| == |Nodes(g)| && n < |seen| && c <= |Nodes(g)[n].outputs|
    requires seen[n] && !u[n] && forall i :: 0 <= i < |u| && u[i] ==> seen[i]
    requires w == WalkOutputs(g, n, c, seen, order, ret)
    requires good ==> ret && IsRoot(g, root) && Progress(g, root, u, before, seen, used, order, n, c)
    ensures Grown(seen, order, w.seen, w.order) && (w.ret ==> ret)
    ensures good && w.ret ==> Progress(g, root, u, before, w.seen, after, w.order, n, |Nodes(g)[n].outputs|)
    ensures good && !w.ret ==> HasClash(g, root)
    decreases Unseen(seen), 1 + |Nodes(g)[n].outputs| - c
  {
    after := used;
    if c == |Nodes(g)[n].outputs| {
    } else if seen[Target(g, n, c)] {
      if good { ProgressClash(g, root, u, before, seen, used, order, n, c); }
    } else {
      var t, l := Target(g, n, c), Nodes(g)[n].outputs[c];
      var x := WalkNode(g, t, order[n] + 1, seen, order);
      if good { ProgressTake(g, root, u, before, seen, used, order, n, c); }
      after := NodeWalked(g, root, t, order[n] + 1, seen, order, used + {l}, good, x);
      assert Grows(seen[n], order[n], x.seen[n], x.order[n]);
      StillSeen(u, seen, order, x.seen, x.order);
      if good && x.ret { ProgressChild(g, root, u, before, seen, used, order, x.seen, after, x.order, n, c); }
      after := OutputsWalked(g, root, n, c + 1, x.seen, x.order, ret && x.ret, good && x.ret, u, before, after, w);
      GrownTwice(seen, order, x.seen, x.order, w.seen, w.order);
    }
  }

  lemma StillSeen(u: seq<bool>, v: seq<bool>, order: seq<int>, v': seq<bool>, order': seq<int>)
    requires Grown(v, order, v', order') && |u| == |v| && forall i :: 0 <= i < |u| && u[i] ==> v[i]
    ensures forall i :: 0 <= i < |u| && u[i] ==> v'[i]
  {
    forall i | 0 <= i < |u| && u[i] ensures v'[i] { assert Grows(v[i], order[i], v'[i], order'[i]); }
  }

  lemma RootWalked(g: Group, root: nat, order: seq<int>, w: Walk)
    requires GroupOk(g) && |order| == |Nodes(g)| && IsRoot(g, root)
    requires w == WalkNode(g, root, 0, Unmarked(|order|), order)
    ensures Grown(Unmarked(|order|), order, w.seen, w.order) && w.seen[root] && (w.ret <==> !HasClash(g, root))
    ensures w.ret ==> AllSettled(g, Unmarked(|order|), w.seen, w.order, -1)
  {
    RootKnown(g, Unmarked(|order|), root);
    var after := NodeWalked(g, root, root, 0, Unmarked(|order|), order, {}, true, w);
    if w.ret { RootExplored(g, Unmarked(|order|), w.seen, after, root); }
  }

  /** What the walks below the roots among the first `ct` nodes have found; `v` are the nodes they reached. */
  ghost predicate Found(g: Group, ct: nat, order: seq<int>, ret: bool, v: seq<bool>)
    requires GroupOk(g) && |order| == |Nodes(g)| && ct <= |order|
  {
    && |v| == |order| && (forall i :: 0 <= i < |order| ==> order[i] >= 0)
    && (ret ==> AllSettled(g, Unmarked(|order|), v, order, -1))
    && (forall i :: 0 <= i < ct && |Nodes(g)[i].inputs| == 0 ==> v[i])
    && (ret <==> forall i :: 0 <= i < ct && IsRoot(g, i) ==> !HasClash(g, i))
  }

  lemma RootAdds(g: Group, ct: nat, order: seq<int>, ret: bool, v: seq<bool>, x: Walk) returns (v': seq<bool>)
    requires GroupOk(g) && |order| == |Nodes(g)| && ct < |order| && |Nodes(g)[ct].inputs| == 0
    requires Found(g, ct, order, ret, v) && x == WalkNode(g, ct, 0, Unmarked(|order|), order)
    ensures Found(g, ct + 1, x.order, ret && x.ret, v')
  {
    RootWalked(g, ct, order, x);
    assert forall i :: 0 <= i < |order| ==> Grows(Unmarked(|order|)[i], order[i], x.seen[i], x.order[i]);
    v' := seq(|v|, i => true);
    if ret && x.ret { v' := RootDone(g, Unmarked(|order|), v, order, x.seen, x.order); }
  }

  lemma OtherAdds(g: Group, ct: nat, order: seq<int>, ret: bool, v: seq<bool>)
    requires GroupOk(g) && |order| == |Nodes(g)| && ct < |order| && |Nodes(g)[ct].inputs| > 0
    requires Found(g, ct, order, ret, v)
    ensures Found(g, ct + 1, order, ret, v)
  {
  }

  lemma {:induction false} RootsWalked(g: Group, ct: nat, w: Orders) returns (v: seq<bool>)
    requires GroupOk(g) && ct <= |Nodes(g)| && w == WalkRoots(g, ct)
    ensures Found(g, ct, w.order, w.ret, v)
  {
    if ct == 0 {
      v := Unmarked(|Nodes(g)|);
    } else {
      var was := WalkRoots(g, ct - 1);
      v := RootsWalked(g, ct - 1, was);
      if |Nodes(g)[ct - 1].inputs| > 0 {
        OtherAdds(g, ct - 1, was.order, was.ret, v);
      } else {
        v := RootAdds(g, ct - 1, was.order, was.ret, v, WalkNode(g, ct - 1, 0, Unmarked(|Nodes(g)|), was.order));
      }
    }
  }

  /** The walks meet no mark exactly when no root reaches two links that meet; every link then goes to a
      node of larger order if and only if there is no cycle. */
  lemma OrderIs(g: Group)
    requires GroupOk(g)
    ensures OrderOf(g).ret <==> forall i :: IsRoot(g, i) ==> !HasClash(g, i)
    ensures forall i :: 0 <= i < |Nodes(g)| ==> OrderOf(g).order[i] >= 0
    ensures OrderOf(g).ret ==> (Increasing(g, OrderOf(g).order) <==> Acyclic(g))
  {
    var n, w := |Nodes(g)|, OrderOf(g);
    var v := RootsWalked(g, n, w);
    if w.ret { OrderedIffAcyclic(g, Unmarked(n), v, w.order); }
  }

  class Order {
    const g: Group
    var seen: seq<bool>
    var order: seq<int>

    ghost predicate Valid()
      reads this
    {
      GroupOk(g) && |seen| == |order| == |Nodes(g)|
    }

    constructor (g: Group)
      requires GroupOk(g)
      ensures this.g == g && Valid() && order == seq(|Nodes(g)|, i => 0)
    {
      this.g := g;
      var n := |Nodes(g)|;
      seen, order := seq(n, i => false), seq(n, i => 0);
    }

    /** `calcOrderRecurse`.  It ends on every graph, since every call marks a node. */
    method CalcOrderRecurse(n: nat, depth: int) returns (ret: bool)
      requires Valid() && n < |seen| && !seen[n]
      modifies this
      ensures Valid() && Walk(seen, order, ret) == WalkNode(g, n, depth, old(seen), old(order))
      decreases Unseen(seen), 0
    {
      UnseenMark(seen, n);
      seen := seen[n := true];
      if order[n] < depth { order := order[n := depth]; }
      ret := VisitOutputs(n);
    }

    /** Its loop over the outputs of the node. */
    method VisitOutputs(n: nat) returns (ret: bool)
      requires Valid() && n < |seen|
      modifies this
      ensures Valid() && Walk(seen, order, ret) == WalkOutputs(g, n, 0, old(seen), old(order), true)
      decreases Unseen(seen), 2
    {
      ret := true;
      var outs := |Nodes(g)[n].outputs|;
      ghost var all := WalkOutputs(g, n, 0, seen, order, true);
      var ct := 0;
      while ct < outs
        invariant 0 <= ct <= outs && Valid() && Unseen(seen) <= Unseen(old(seen))
        invariant WalkOutputs(g, n, ct, seen, order, ret) == all
      {
        var stop, sub := VisitOutput(n, ct, ret);
        if stop { return false; }
        ret := ret && sub;
        ct := ct + 1;
      }
    }

    /** One turn of that loop: it stops the loop if the target has been seen. */
    method VisitOutput(n: nat, ct: nat, ghost ret: bool) returns (stop: bool, sub: bool)
      requires Valid() && n < |seen| && ct < |Nodes(g)[n].outputs|
      modifies this
      ensures Valid() && Unseen(seen) <= Unseen(old(seen))
      ensures WalkOutputs(g, n, ct, old(seen), old(order), ret) ==
        if stop then Walk(seen, order, false) else WalkOutputs(g, n, ct + 1, seen, order, ret && sub)
      decreases Unseen(seen), 1
    {
      var nt := FindTarget(n, ct);
      stop, sub := seen[nt], false;
      if !stop { sub := CalcOrderRecurse(nt, order[n] + 1); }
    }

    /** The ordering loop of `calcOrder`. */
    method CalcOrder() returns (ret: bool)
      requires Valid() && order == seq(|Nodes(g)|, i => 0)
      modifies this
      ensures Valid() && Orders(order, ret) == OrderOf(g)
      ensures ret <==> forall i :: IsRoot(g, i) ==> !HasClash(g, i)
      ensures forall i :: 0 <= i < |order| ==> order[i] >= 0
      ensures ret ==> (Increasing(g, order) <==> Acyclic(g))
    {
      ret := true;
      var nodes := Nodes(g);
      var ct := 0;
      while ct < |nodes|
        invariant 0 <= ct <= |nodes| && Valid() && Orders(order, ret) == WalkRoots(g, ct)
      {
        if |nodes[ct].inputs| == 0 {
          seen := seq(|nodes|, i => false);
          assert seen == Unmarked(|order|);
          var sub := CalcOrderRecurse(ct, 0);
          ret := ret && sub;
        }
        ct := ct + 1;
      }
      OrderIs(g);
    }

    /** `findNode` for the target of output `c` of node `n`. */
    method FindTarget(n: nat, c: nat) returns (nt: nat)
      requires Valid() && n < |seen| && c < |Nodes(g)[n].outputs|
      ensures nt == Target(g, n, c)
    {
      OutputFrom(g, n, c);
      var nodes := Nodes(g);
      var l := nodes[n].outputs[c];
      var r := FindNode(g.scriptOf, nodes, g.scriptOf(g.links[l].dst), g.kernels, g.links, |g.links|);
      TargetIs(g, l, r);
      nt := r;
    }
  }

  // ---------------------------------------------------------------------------------------------
  // Order and cycles

  /** Every link goes to a node of larger order. */
  ghost predicate Increasing(g: Group, order: seq<int>)
    requires GroupOk(g) && |order| == |Nodes(g)|
  {
    forall l :: 0 <= l < |g.links| ==> order[From(g, l)] < order[To(g, l)]
  }

  ghost predicate Cycle(g: Group, p: seq<nat>)
    requires GroupOk(g)
  {
    Path(g, p) && |p| > 1 && p[0] == p[|p| - 1]
  }

  ghost predicate Acyclic(g: Group)
    requires GroupOk(g)
  {
    forall p :: !Cycle(g, p)
  }

  lemma {:induction false} PathRises(g: Group, order: seq<int>, p: seq<nat>, n: nat)
    requires GroupOk(g) && |order| == |Nodes(g)| && Increasing(g, order) && Path(g, p) && |p| > 1 && 0 < n < |p|
    ensures p[0] < |order| && p[n] < |order| && order[p[0]] < order[p[n]]
  {
    assert Edge(g, p[n - 1], p[n - 1 + 1]);
    if n > 1 { PathRises(g, order, p, n - 1); }
  }

  /** An increasing order leaves no room for a cycle. */
  lemma IncreasingAcyclic(g: Group, order: seq<int>)
    requires GroupOk(g) && |order| == |Nodes(g)| && Increasing(g, order)
    ensures Acyclic(g)
  {
    forall p | Path(g, p) && |p| > 1 ensures p[0] != p[|p| - 1] { PathRises(g, order, p, |p| - 1); }
  }

  lemma InputTo(g: Group, i: nat) returns (l: nat)
    requires GroupOk(g) && i < |Nodes(g)| && |Nodes(g)[i].inputs| > 0
    ensures l < |g.links| && To(g, l) == i
  {
    l := Nodes(g)[i].inputs[0];
    InputsOk(g.scriptOf, g.links, Scripts(g.scriptOf, g.kernels)[i], |g.links|);
    assert l in Nodes(g)[i].inputs;
    ScriptsOk(g.scriptOf, g.kernels);
  }

  /** Walking back from a node that no root reaches comes round to a node already on the way. */
  lemma {:induction false} FindCycle(g: Group, v: seq<bool>, p: seq<nat>, left: set<nat>) returns (c: seq<nat>)
    requires GroupOk(g) && |v| == |Nodes(g)| && Path(g, p) && p[0] < |v| && !v[p[0]]
    requires forall l :: 0 <= l < |g.links| && v[From(g, l)] ==> v[To(g, l)]
    requires forall i :: 0 <= i < |v| && |Nodes(g)[i].inputs| == 0 ==> v[i]
    requires forall i: nat :: i < |v| ==> i in left || i in p
    ensures Cycle(g, c)
    decreases left
  {
    var l := InputTo(g, p[0]);
    var j := From(g, l);
    var q := [j] + p;
    assert Edge(g, j, p[0]);
    forall i | 0 <= i < |q| - 1 ensures Edge(g, q[i], q[i + 1]) {
      if i > 0 { assert Edge(g, p[i - 1], p[i - 1 + 1]); }
    }
    if k :| 0 <= k < |p| && p[k] == j {
      c := q[..k + 2];
    } else {
      c := FindCycle(g, v, q, left - {j});
    }
  }

  /** Without cycles the roots reach every node. */
  lemma AllReached(g: Group, v: seq<bool>)
    requires GroupOk(g) && |v| == |Nodes(g)| && Acyclic(g)
    requires forall l :: 0 <= l < |g.links| && v[From(g, l)] ==> v[To(g, l)]
    requires forall i :: 0 <= i < |v| && |Nodes(g)[i].inputs| == 0 ==> v[i]
    ensures forall i :: 0 <= i < |v| ==> v[i]
  {
    forall i | 0 <= i < |v| ensures v[i] {
      BelowCount(|v|);
      if !v[i] { var c := FindCycle(g, v, [i], Below(|v|)); }
    }
  }

  /** The nodes reached from the roots so far are settled among themselves. */
  lemma RootDone(g: Group, none: seq<bool>, v: seq<bool>, order: seq<int>, seen: seq<bool>, order': seq<int>)
      returns (v': seq<bool>)
    requires GroupOk(g) && |none| == |v| == |order| == |Nodes(g)| && (forall i :: 0 <= i < |none| ==> !none[i])
    requires Grown(none, order, seen, order') && AllSettled(g, none, v, order, -1) &&
        AllSettled(g, none, seen, order', -1)
    ensures |v'| == |v| && AllSettled(g, none, v', order', -1)
    ensures forall i :: 0 <= i < |v| ==> v'[i] == (v[i] || seen[i])
  {
    v' := seq(|v|, i requires 0 <= i < |v| => v[i] || seen[i]);
    forall i | 0 <= i < |v'| && v'[i] ensures Settled(g, v', order', i, |Nodes(g)[i].outputs|) {
      forall c | 0 <= c < |Nodes(g)[i].outputs| ensures Later(g, v', order', i, c) {
        OutputFrom(g, i, c);
        var t := To(g, Nodes(g)[i].outputs[c]);
        if seen[i] {
          assert Settled(g, seen, order', i, |Nodes(g)[i].outputs|) && Later(g, seen, order', i, c);
        } else {
          assert Settled(g, v, order, i, |Nodes(g)[i].outputs|) && Later(g, v, order, i, c);
          assert Grows(none[i], order[i], seen[i], order'[i]) && Grows(none[t], order[t], seen[t], order'[t]);
        }
      }
    }
  }

  /** A group in which every node has an input has a cycle.  It has no roots either, so that `calcOrder`
      does nothing and reports success. */
  lemma RootlessCyclic(g: Group)
    requires GroupOk(g) && |Nodes(g)| > 0 && forall i :: 0 <= i < |Nodes(g)| ==> |Nodes(g)[i].inputs| > 0
    ensures !Acyclic(g) && forall i :: !IsRoot(g, i)
  {
    Unreached(g, seq(|Nodes(g)|, i => false), 0);
  }

  lemma Unreached(g: Group, v: seq<bool>, n: nat)
    requires GroupOk(g) && |v| == |Nodes(g)| && n < |v| && !v[n]
    requires forall l :: 0 <= l < |g.links| && v[From(g, l)] ==> v[To(g, l)]
    requires forall i :: 0 <= i < |v| && |Nodes(g)[i].inputs| == 0 ==> v[i]
    ensures !Acyclic(g)
  {
    if Acyclic(g) { AllReached(g, v); }
  }

  /** If the roots have been through without a collision, the order is right exactly without cycles. */
  lemma OrderedIffAcyclic(g: Group, none: seq<bool>, v: seq<bool>, order: seq<int>)
    requires GroupOk(g) && |none| == |v| == |order| == |Nodes(g)| && (forall i :: 0 <= i < |none| ==> !none[i])
    requires AllSettled(g, none, v, order, -1) && forall i :: 0 <= i < |v| && |Nodes(g)[i].inputs| == 0 ==> v[i]
    ensures Increasing(g, order) <==> Acyclic(g)
  {
    forall l | 0 <= l < |g.links| && v[From(g, l)] ensures v[To(g, l)] && order[From(g, l)] < order[To(g, l)] {
      var c := LinkIsOutput(g, l);
      assert Settled(g, v, order, From(g, l), |Nodes(g)[From(g, l)].outputs|);
      assert Later(g, v, order, From(g, l), c);
    }
    if Increasing(g, order) { IncreasingAcyclic(g, order); }
    if Acyclic(g) { AllReached(g, v); }
  }

  lemma ChildDone(g: Group, u: seq<bool>, v: seq<bool>, order: seq<int>, v': seq<bool>, order': seq<int>, n: nat,
      c: nat)
    requires GroupOk(g) && |u| == |v| == |order| == |Nodes(g)| && Grown(v, order, v', order') && n < |v| && v[n] &&
        c < |Nodes(g)[n].outputs|
    requires AllSettled(g, u, v, order, n) && AllSettled(g, v, v', order', -1) && Settled(g, v, order, n, c)
    requires Nodes(g)[n].outputs[c] < |g.links| &&
        var t := To(g, Nodes(g)[n].outputs[c]); v'[t] && order'[t] >= order[n] + 1
    ensures AllSettled(g, u, v', order', n) && Settled(g, v', order', n, c + 1)
  {
    SettledBoth(g, u, v, order, v', order', n);
    SettledKept(g, v, order, v', order', n, c);
    assert Grows(v[n], order[n], v'[n], order'[n]);
    assert Later(g, v', order', n, c);
  }

  /** The node found for a link's target is that node. */
  lemma TargetIs(g: Group, l: nat, n: int)
    requires GroupOk(g) && l < |g.links|
    requires g.scriptOf(g.links[l].dst) in Scripts(g.scriptOf, g.kernels) ==>
      0 <= n < |Nodes(g)| && Scripts(g.scriptOf, g.kernels)[n] == g.scriptOf(g.links[l].dst)
    ensures 0 <= n < |Nodes(g)| && n == To(g, l)
  {
    ScriptsOk(g.scriptOf, g.kernels);
  }

  // ---------------------------------------------------------------------------------------------
  // Allocations

  /** Links that have an allocation share it exactly when they share a source, and have it together. */
  ghost predicate Shared(g: Group, alloc: seq<nat>, next: nat) {
    && |alloc| == |g.links| && next > 0
    && (forall l :: 0 <= l < |alloc| ==> alloc[l] < next)
    && (forall l, m :: 0 <= l < |alloc| && 0 <= m < |alloc| ==> Agree(g, alloc, l, m))
  }

  predicate Agree(g: Group, alloc: seq<nat>, l: nat, m: nat)
    requires |alloc| == |g.links| && l < |alloc| && m < |alloc|
  {
    if g.links[l].src == g.links[m].src then alloc[l] == alloc[m] else alloc[l] != 0 ==> alloc[l] != alloc[m]
  }

  /** The innermost loop of the allocation: the outputs with the source of output `c` get `next`. */
  method ShareAllocation(g: Group, outs: seq<nat>, c: nat, alloc0: seq<nat>, next: nat) returns (alloc: seq<nat>)
    requires |alloc0| == |g.links| && c < |outs| && (forall i :: 0 <= i < |outs| ==> outs[i] < |g.links|)
    requires forall i, j :: 0 <= i < j < |outs| ==> outs[i] < outs[j]
    ensures |alloc| == |alloc0|
    ensures forall i :: 0 <= i < |outs| ==>
      alloc[outs[i]] == if i >= c && g.links[outs[i]].src == g.links[outs[c]].src then next else alloc0[outs[i]]
    ensures forall l :: 0 <= l < |alloc| && l !in outs ==> alloc[l] == alloc0[l]
  {
    alloc := alloc0[outs[c] := next];
    var ct3 := c + 1;
    while ct3 < |outs|
      invariant c + 1 <= ct3 <= |outs| && |alloc| == |alloc0|
      invariant forall i :: 0 <= i < |outs| ==>
        alloc[outs[i]] == if c <= i < ct3 && g.links[outs[i]].src == g.links[outs[c]].src then next else alloc0[outs[i]]
      invariant forall l :: 0 <= l < |alloc| && l !in outs ==> alloc[l] == alloc0[l]
    {
      if g.links[outs[ct3]].src == g.links[outs[c]].src { alloc := alloc[outs[ct3] := next]; }
      ct3 := ct3 + 1;
    }
  }

  /** A new allocation for a source that has none keeps the rest as it was. */
  lemma SharedStep(g: Group, n: nat, c: nat, alloc0: seq<nat>, next: nat, alloc: seq<nat>)
    requires GroupOk(g) && n < |Nodes(g)| && c < |Nodes(g)[n].outputs| && Shared(g, alloc0, next) && |alloc| == |alloc0|
    requires forall i :: 0 <= i < |Nodes(g)[n].outputs| ==> Nodes(g)[n].outputs[i] < |g.links|
    requires forall i :: 0 <= i < c ==> alloc0[Nodes(g)[n].outputs[i]] != 0
    requires alloc0[Nodes(g)[n].outputs[c]] == 0
    requires var outs := Nodes(g)[n].outputs; forall i :: 0 <= i < |outs| ==>
      alloc[outs[i]] == if i >= c && g.links[outs[i]].src == g.links[outs[c]].src then next else alloc0[outs[i]]
    requires forall l :: 0 <= l < |alloc| && l !in Nodes(g)[n].outputs ==> alloc[l] == alloc0[l]
    ensures Shared(g, alloc, next + 1)
    ensures forall l :: 0 <= l < |alloc| && alloc0[l] != 0 ==> alloc[l] != 0
  {
    var outs := Nodes(g)[n].outputs;
    var src := g.links[outs[c]].src;
    forall l | 0 <= l < |alloc| ensures alloc[l] == if g.links[l].src == src then next else alloc0[l] {
      if l in outs {
        var i :| 0 <= i < |outs| && outs[i] == l;
        assert Agree(g, alloc0, l, outs[c]);
      } else {
        OutputsOk(g.scriptOf, g.links, Scripts(g.scriptOf, g.kernels)[n], |g.links|);
        assert outs[c] in outs;
      }
    }
    forall l, m | 0 <= l < |alloc| && 0 <= m < |alloc| ensures Agree(g, alloc, l, m) { assert Agree(g, alloc0, l, m); }
    forall l | 0 <= l < |alloc| && alloc0[l] != 0 ensures alloc[l] != 0 { assert Agree(g, alloc0, l, outs[c]); }
  }

  /** The outputs of one node. */
  method AllocateOutputs(g: Group, n: nat, alloc0: seq<nat>, next0: nat) returns (alloc: seq<nat>, next: nat)
    requires GroupOk(g) && n < |Nodes(g)| && Shared(g, alloc0, next0)
    ensures Shared(g, alloc, next)
    ensures forall l :: 0 <= l < |alloc| && (alloc0[l] != 0 || From(g, l) == n) ==> alloc[l] != 0
  {
    alloc, next := alloc0, next0;
    var outs := Nodes(g)[n].outputs;
    forall i | 0 <= i < |outs| ensures outs[i] < |g.links| { OutputFrom(g, n, i); }
    OutputsRise(g.scriptOf, g.links, Scripts(g.scriptOf, g.kernels)[n], |g.links|);
    var ct2 := 0;
    while ct2 < |outs|
      invariant 0 <= ct2 <= |outs| && Shared(g, alloc, next)
      invariant forall i :: 0 <= i < ct2 ==> alloc[outs[i]] != 0
      invariant forall l :: 0 <= l < |alloc| && alloc0[l] != 0 ==> alloc[l] != 0
    {
      if alloc[outs[ct2]] == 0 {
        var a := ShareAllocation(g, outs, ct2, alloc, next);
        SharedStep(g, n, ct2, alloc, next, a);
        alloc, next := a, next + 1;
      }
      ct2 := ct2 + 1;
    }
    forall l | 0 <= l < |alloc| && From(g, l) == n ensures alloc[l] != 0 { var c := LinkIsOutput(g, l); }
  }

  /** The allocation of links in `create`: links share an allocation exactly when they share a source. */
  method AllocateLinks(g: Group) returns (alloc: seq<nat>)
    requires GroupOk(g)
    ensures |alloc| == |g.links| && forall l :: 0 <= l < |alloc| ==> alloc[l] != 0
    ensures forall l, m :: 0 <= l < |alloc| && 0 <= m < |alloc| ==>
        (alloc[l] == alloc[m] <==> g.links[l].src == g.links[m].src)
  {
    alloc := seq(|g.links|, i => 0);
    var next := 1;
    var ct := 0;
    while ct < |Nodes(g)|
      invariant 0 <= ct <= |Nodes(g)| && Shared(g, alloc, next)
      invariant forall l :: 0 <= l < |alloc| && From(g, l) < ct ==> alloc[l] != 0
    {
      alloc, next := AllocateOutputs(g, ct, alloc, next);
      ct := ct + 1;
    }
    forall l, m | 0 <= l < |alloc| && 0 <= m < |alloc| ensures alloc[l] == alloc[m] <==>
        g.links[l].src == g.links[m].src {
      assert Agree(g, alloc, l, m);
    }
  }

  // ---------------------------------------------------------------------------------------------
  // Execution

  /** Allocations: those of links, and those a client binds to the inputs and outputs of the group. */
  datatype Place = LinkAt(alloc: nat) | InAt(kernel: nat) | OutAt(kernel: nat)

  /** What a kernel makes of its input. */
  type Kernels<!V> = (nat, Option<V>) -> V

  /** A group that has been set up: link allocations, and the bound inputs and outputs. */
  datatype Plan<!V> = Plan(g: Group, alloc: seq<nat>, fn: Kernels<V>, inputs: map<nat, V>, outputs: set<nat>)

  /** Links share an allocation exactly when they share their source. */
  ghost predicate Shares(g: Group, alloc: seq<nat>) {
    && |alloc| == |g.links|
    && forall l, m :: 0 <= l < |alloc| && 0 <= m < |alloc| ==>
        (alloc[l] == alloc[m] <==> g.links[l].src == g.links[m].src)
  }

  ghost predicate PlanOk<V(!new)>(p: Plan<V>) {
    GroupOk(p.g) && Shares(p.g, p.alloc)
  }

  /** The last of the first `n` links into kernel `k`, or -1. */
  function LastInto(links: seq<Link>, k: nat, n: nat): (r: int)
    requires n <= |links|
    ensures -1 <= r < n && (r >= 0 ==> links[r].dst == k)
    ensures forall l :: r < l < n ==> links[l].dst != k
  {
    if n == 0 then -1 else if links[n - 1].dst == k then n - 1 else LastInto(links, k, n - 1)
  }

  predicate HasOutput(links: seq<Link>, k: nat) {
    exists l :: 0 <= l < |links| && links[l].src == k
  }

  lemma {:induction false} InputsRise(scriptOf: ScriptOf, links: seq<Link>, s: nat, n: nat)
    requires n <= |links|
    ensures forall i, j :: 0 <= i < j < |InputsOf(scriptOf, links, s, n)| ==>
        InputsOf(scriptOf, links, s, n)[i] < InputsOf(scriptOf, links, s, n)[j]
  {
    if n > 0 {
      InputsRise(scriptOf, links, s, n - 1);
      InputsOk(scriptOf, links, s, n - 1);
      var front := InputsOf(scriptOf, links, s, n - 1);
      forall i | 0 <= i < |front| ensures front[i] < n - 1 { assert front[i] in front; }
    }
  }

  /** The search for the input link of kernel `k` among the inputs of its node. */
  method FindInput(g: Group, k: nat) returns (r: int)
    requires GroupOk(g) && k in g.kernels
    ensures r == LastInto(g.links, k, |g.links|)
  {
    r := -1;
    var n := NodeOfKernel(g, k);
    var ins := Nodes(g)[n].inputs;
    InputsFound(g, k);
    var ct3 := 0;
    while ct3 < |ins|
      invariant 0 <= ct3 <= |ins|
      invariant r == -1 || (0 <= r < |g.links| && g.links[r].dst == k)
      invariant forall i :: 0 <= i < ct3 && g.links[ins[i]].dst == k ==> ins[i] <= r
    {
      if g.links[ins[ct3]].dst == k { r := ins[ct3]; }
      ct3 := ct3 + 1;
    }
    ghost var last := LastInto(g.links, k, |g.links|);
    assert last >= 0 ==> last in ins;
  }

  /** The links into a kernel are among the inputs of its node, which are in order. */
  lemma InputsFound(g: Group, k: nat)
    requires GroupOk(g) && k in g.kernels
    ensures var ins := Nodes(g)[NodeOfKernel(g, k)].inputs;
      && (forall i :: 0 <= i < |ins| ==> ins[i] < |g.links|)
      && (forall i, j :: 0 <= i < j < |ins| ==> ins[i] < ins[j])
      && (forall l: nat :: l < |g.links| && g.links[l].dst == k ==> l in ins)
  {
    var ins := Nodes(g)[NodeOfKernel(g, k)].inputs;
    InputsOk(g.scriptOf, g.links, g.scriptOf(k), |g.links|);
    InputsRise(g.scriptOf, g.links, g.scriptOf(k), |g.links|);
    forall i | 0 <= i < |ins| ensures ins[i] < |g.links| { assert ins[i] in ins; }
  }

  lemma OutputsFound(g: Group, k: nat)
    requires GroupOk(g) && k in g.kernels
    ensures var outs := Nodes(g)[NodeOfKernel(g, k)].outputs;
      && (forall i :: 0 <= i < |outs| ==> outs[i] < |g.links|)
      && (forall l: nat :: l < |g.links| && g.links[l].src == k ==> l in outs)
  {
    var outs := Nodes(g)[NodeOfKernel(g, k)].outputs;
    OutputsOk(g.scriptOf, g.links, g.scriptOf(k), |g.links|);
    forall i | 0 <= i < |outs| ensures outs[i] < |g.links| { assert outs[i] in outs; }
  }

  /** The search for an output link of kernel `k` among the outputs of its node. */
  method FindOutput(g: Group, k: nat) returns (r: int)
    requires GroupOk(g) && k in g.kernels
    ensures -1 <= r < |g.links| && (r >= 0 <==> HasOutput(g.links, k)) && (r >= 0 ==> g.links[r].src == k)
  {
    r := -1;
    var n := NodeOfKernel(g, k);
    var outs := Nodes(g)[n].outputs;
    OutputsFound(g, k);
    var ct3 := 0;
    while ct3 < |outs|
      invariant 0 <= ct3 <= |outs|
      invariant -1 <= r < |g.links| && (r >= 0 ==> g.links[r].src == k)
      invariant r == -1 ==> forall i :: 0 <= i < ct3 ==> g.links[outs[i]].src != k
    {
      if g.links[outs[ct3]].src == k { r := outs[ct3]; }
      ct3 := ct3 + 1;
    }
    assert forall l: nat :: l < |g.links| && g.links[l].src == k ==> l in outs;
  }

  /** Every link has memory, and the bound inputs are in place. */
  ghost predicate Ready<V(!new)>(p: Plan<V>, mem: map<Place, V>) {
    && |p.alloc| == |p.g.links| && (forall l :: 0 <= l < |p.alloc| ==> LinkAt(p.alloc[l]) in mem)
    && forall k :: k in p.inputs ==> InAt(k) in mem && mem[InAt(k)] == p.inputs[k]
  }

  /** What kernel `k` reads: the last link into it, or else its bound input if it has one. */
  function InputOf<V(!new)>(p: Plan<V>, mem: map<Place, V>, k: nat): Option<V>
    requires Ready(p, mem)
  {
    var l := LastInto(p.g.links, k, |p.g.links|);
    if l >= 0 then Some(mem[LinkAt(p.alloc[l])]) else if k in p.inputs then Some(mem[InAt(k)]) else None
  }

  /** Where it writes. */
  ghost function OutputOf<V(!new)>(p: Plan<V>, k: nat): Option<Place>
    requires |p.alloc| == |p.g.links|
  {
    if HasOutput(p.g.links, k) then
      var l :| 0 <= l < |p.g.links| && p.g.links[l].src == k;
      Some(LinkAt(p.alloc[l]))
    else if k in p.outputs then Some(OutAt(k)) else None
  }

  /** Memory after kernel `k`. */
  ghost function RunOne<V(!new)>(p: Plan<V>, mem: map<Place, V>, k: nat): (r: map<Place, V>)
    requires Ready(p, mem)
    ensures Ready(p, r)
  {
    match OutputOf(p, k)
    case None => mem
    case Some(at) => mem[at := p.fn(k, InputOf(p, mem, k))]
  }

  /** Memory after the first `n` kernels of a sequence. */
  ghost function RunAll<V(!new)>(p: Plan<V>, ks: seq<nat>, n: nat, mem: map<Place, V>): (r: map<Place, V>)
    requires Ready(p, mem) && n <= |ks|
    ensures Ready(p, r)
  {
    if n == 0 then mem else RunOne(p, RunAll(p, ks, n - 1, mem), ks[n - 1])
  }

  /** One kernel of `execute`. */
  method RunKernel<V(!new)>(p: Plan<V>, mem0: map<Place, V>, k: nat) returns (mem: map<Place, V>)
    requires PlanOk(p) && k in p.g.kernels && Ready(p, mem0)
    ensures mem == RunOne(p, mem0, k)
  {
    mem := mem0;
    var l := FindInput(p.g, k);
    var ain := if l >= 0 then Some(LinkAt(p.alloc[l])) else None;
    if l < 0 && k in p.inputs { ain := Some(InAt(k)); }
    var o := FindOutput(p.g, k);
    var aout := if o >= 0 then Some(LinkAt(p.alloc[o])) else None;
    if o < 0 && k in p.outputs { aout := Some(OutAt(k)); }
    var value := p.fn(k, if ain.Some? then Some(mem[ain.value]) else None);
    if aout.Some? { mem := mem[aout.value := value]; }
  }

  /** The kernels in the order in which the first `n` nodes of an arrangement run them. */
  function Sequence(g: Group, arr: seq<nat>, n: nat): seq<nat>
    requires n <= |arr| && forall i :: 0 <= i < |arr| ==> arr[i] < |Nodes(g)|
  {
    if n == 0 then [] else Sequence(g, arr, n - 1) + Nodes(g)[arr[n - 1]].kernels
  }

  lemma {:induction false} RunPrefix<V(!new)>(p: Plan<V>, a: seq<nat>, b: seq<nat>, n: nat, mem: map<Place, V>)
    requires Ready(p, mem) && n <= |a|
    ensures RunAll(p, a + b, n, mem) == RunAll(p, a, n, mem)
  {
    if n > 0 { RunPrefix(p, a, b, n - 1, mem); }
  }

  lemma RunNext<V(!new)>(p: Plan<V>, ks: seq<nat>, n: nat, mem: map<Place, V>)
    requires Ready(p, mem) && n < |ks|
    ensures RunAll(p, ks, n + 1, mem) == RunOne(p, RunAll(p, ks, n, mem), ks[n])
  {
  }

  /** The kernels of one node, behind those of the nodes before it. */
  method RunNode<V(!new)>(p: Plan<V>, kernels: seq<nat>, mem0: map<Place, V>, ghost front: seq<nat>,
      ghost start: map<Place, V>) returns (mem: map<Place, V>)
    requires PlanOk(p) && Ready(p, start) && forall k :: k in kernels ==> k in p.g.kernels
    requires mem0 == RunAll(p, front, |front|, start)
    ensures mem == RunAll(p, front + kernels, |front + kernels|, start)
  {
    mem := mem0;
    ghost var all, n := front + kernels, |front|;
    RunPrefix(p, front, kernels, n, start);
    var ct2 := 0;
    while ct2 < |kernels|
      invariant 0 <= ct2 <= |kernels| && n == |front| + ct2 && mem == RunAll(p, all, n, start)
    {
      RunNext(p, all, n, start);
      assert all[n] == kernels[ct2];
      mem := RunKernel(p, mem, kernels[ct2]);
      ct2, n := ct2 + 1, n + 1;
    }
  }

  lemma KernelOf(g: Group, n: nat, i: nat)
    requires n < |Nodes(g)| && i < |Nodes(g)[n].kernels|
    ensures Nodes(g)[n].kernels[i] in g.kernels && NodeOfKernel(g, Nodes(g)[n].kernels[i]) == n
  {
    KernelsOk(g.scriptOf, g.kernels, Scripts(g.scriptOf, g.kernels)[n]);
    assert Nodes(g)[n].kernels[i] in Nodes(g)[n].kernels;
    ScriptsOk(g.scriptOf, g.kernels);
  }

  lemma NodeKernels(g: Group, n: nat)
    requires n < |Nodes(g)|
    ensures forall k :: k in Nodes(g)[n].kernels ==> k in g.kernels
  {
    KernelsOk(g.scriptOf, g.kernels, Scripts(g.scriptOf, g.kernels)[n]);
  }

  /** `execute`, for any arrangement of the nodes. */
  method Execute<V(!new)>(p: Plan<V>, arr: seq<nat>, mem0: map<Place, V>) returns (mem: map<Place, V>)
    requires PlanOk(p) && Ready(p, mem0) && forall i :: 0 <= i < |arr| ==> arr[i] < |Nodes(p.g)|
    ensures mem == RunAll(p, Sequence(p.g, arr, |arr|), |Sequence(p.g, arr, |arr|)|, mem0)
  {
    mem := mem0;
    var ct := 0;
    while ct < |arr|
      invariant 0 <= ct <= |arr|
      invariant mem == RunAll(p, Sequence(p.g, arr, ct), |Sequence(p.g, arr, ct)|, mem0)
    {
      var kernels := Nodes(p.g)[arr[ct]].kernels;
      NodeKernels(p.g, arr[ct]);
      mem := RunNode(p, kernels, mem, Sequence(p.g, arr, ct), mem0);
      ct := ct + 1;
    }
  }

  // ---------------------------------------------------------------------------------------------
  // When execution follows the data

  /** What kernel `k` should be given, if `val` are the values of the kernels. */
  ghost function Given<V(!new)>(p: Plan<V>, val: nat -> V, k: nat): Option<V> {
    var l := LastInto(p.g.links, k, |p.g.links|);
    if l >= 0 then Some(val(p.g.links[l].src)) else if k in p.inputs then Some(p.inputs[k]) else None
  }

  /** The values solve the group: each is what its kernel makes of what it should be given. */
  ghost predicate Solves<V(!new)>(p: Plan<V>, val: nat -> V) {
    forall k :: k in p.g.kernels ==> val(k) == p.fn(k, Given(p, val, k))
  }

  /** Call `i` of a sequence reads what it should. */
  ghost predicate RightCall<V(!new)>(p: Plan<V>, ks: seq<nat>, mem: map<Place, V>, val: nat -> V, i: nat)
    requires Ready(p, mem) && i < |ks|
  {
    InputOf(p, RunAll(p, ks, i, mem), ks[i]) == Given(p, val, ks[i])
  }

  /** The value of kernel `k` is in its links, or in its bound output. */
  ghost predicate Shows<V(!new)>(p: Plan<V>, mem: map<Place, V>, val: nat -> V, k: nat)
    requires Ready(p, mem)
  {
    && (forall l :: 0 <= l < |p.g.links| && p.g.links[l].src == k ==> mem[LinkAt(p.alloc[l])] == val(k))
    && (k in p.outputs && !HasOutput(p.g.links, k) ==> OutAt(k) in mem && mem[OutAt(k)] == val(k))
  }

  /** Kernel `i` of the sequence comes after the one that it reads from. */
  ghost predicate Fed(g: Group, ks: seq<nat>, i: nat)
    requires i < |ks|
  {
    var l := LastInto(g.links, ks[i], |g.links|);
    l >= 0 ==> g.links[l].src in ks[..i]
  }

  ghost predicate FeedersFirst(g: Group, ks: seq<nat>) {
    forall i :: 0 <= i < |ks| ==> Fed(g, ks, i)
  }

  lemma OneShows<V(!new)>(p: Plan<V>, mem: map<Place, V>, val: nat -> V, k: nat)
    requires PlanOk(p) && Ready(p, mem) && Solves(p, val) && k in p.g.kernels && InputOf(p, mem, k) == Given(p, val, k)
    ensures Shows(p, RunOne(p, mem, k), val, k)
  {
  }

  lemma OthersShow<V(!new)>(p: Plan<V>, mem: map<Place, V>, val: nat -> V, k: nat, m: nat)
    requires PlanOk(p) && Ready(p, mem) && m != k && Shows(p, mem, val, m)
    ensures Shows(p, RunOne(p, mem, k), val, m)
  {
  }

  /** If feeders come first, every call reads what it should and every kernel that has run shows its value. */
  lemma {:induction false} CallsRight<V(!new)>(p: Plan<V>, ks: seq<nat>, n: nat, mem: map<Place, V>, val: nat -> V)
    requires PlanOk(p) && Ready(p, mem) && Solves(p, val) && n <= |ks|
    requires FeedersFirst(p.g, ks) && forall k :: k in ks ==> k in p.g.kernels
    ensures forall i :: 0 <= i < n ==> RightCall(p, ks, mem, val, i)
    ensures forall k :: k in ks[..n] ==> Shows(p, RunAll(p, ks, n, mem), val, k)
  {
    if n > 0 {
      CallsRight(p, ks, n - 1, mem, val);
      assert Fed(p.g, ks, n - 1);
      CallRight(p, RunAll(p, ks, n - 1, mem), val, ks[..n - 1], ks[n - 1]);
      assert ks[..n] == ks[..n - 1] + [ks[n - 1]];
    }
  }

  /** One more kernel behind the ones that have run. */
  lemma CallRight<V(!new)>(p: Plan<V>, mem: map<Place, V>, val: nat -> V, ran: seq<nat>, k: nat)
    requires PlanOk(p) && Ready(p, mem) && Solves(p, val) && k in p.g.kernels
    requires forall m :: m in ran ==> Shows(p, mem, val, m)
    requires var l := LastInto(p.g.links, k, |p.g.links|); l >= 0 ==> p.g.links[l].src in ran
    ensures InputOf(p, mem, k) == Given(p, val, k)
    ensures forall m :: m in ran + [k] ==> Shows(p, RunOne(p, mem, k), val, m)
  {
    OneShows(p, mem, val, k);
    forall m | m in ran && m != k ensures Shows(p, RunOne(p, mem, k), val, m) { OthersShow(p, mem, val, k, m); }
  }

  /** A link that no kernel so far has for its output is as it was. */
  lemma {:induction false} Unwritten<V(!new)>(p: Plan<V>, ks: seq<nat>, n: nat, mem: map<Place, V>, l: nat)
    requires PlanOk(p) && Ready(p, mem) && n <= |ks| && l < |p.g.links| && p.g.links[l].src !in ks[..n]
    ensures RunAll(p, ks, n, mem)[LinkAt(p.alloc[l])] == mem[LinkAt(p.alloc[l])]
  {
    if n > 0 {
      assert ks[n - 1] in ks[..n];
      assert forall k :: k in ks[..n - 1] ==> k in ks[..n];
      Unwritten(p, ks, n - 1, mem, l);
    }
  }

  /** Whatever the kernels compute, whatever is bound and whatever the memory holds, every call reads what
      it should. */
  ghost predicate AlwaysRight(g: Group, alloc: seq<nat>, ks: seq<nat>) {
    forall p: Plan<nat>, mem: map<Place, nat>, val: nat -> nat, i: nat ::
      p.g == g && p.alloc == alloc && Ready(p, mem) && Solves(p, val) && i < |ks| ==> RightCall(p, ks, mem, val, i)
  }

  /** That is so exactly if in the sequence every kernel comes after the one it reads from. */
  lemma RightIffFeedersFirst(g: Group, alloc: seq<nat>, ks: seq<nat>)
    requires GroupOk(g) && Shares(g, alloc) && forall k :: k in ks ==> k in g.kernels
    ensures AlwaysRight(g, alloc, ks) <==> FeedersFirst(g, ks)
  {
    if FeedersFirst(g, ks) {
      forall p: Plan<nat>, mem: map<Place, nat>, val: nat -> nat, i: nat |
        p.g == g && p.alloc == alloc && Ready(p, mem) && Solves(p, val) && i < |ks|
        ensures RightCall(p, ks, mem, val, i)
      {
        CallsRight(p, ks, |ks|, mem, val);
      }
    } else {
      var i :| 0 <= i < |ks| && !Fed(g, ks, i);
      var p, mem, val := ReadsUnwritten(g, alloc, ks, i);
      assert !RightCall(p, ks, mem, val, i);
    }
  }

  function PassOn(k: nat, x: Option<nat>): nat {
    if x.Some? then x.value else 0
  }

  function LinkPlaces(alloc: seq<nat>): set<Place> {
    set l | 0 <= l < |alloc| :: LinkAt(alloc[l])
  }

  /** A kernel that comes before the one it reads from reads what the memory held before. */
  lemma ReadsUnwritten(g: Group, alloc: seq<nat>, ks: seq<nat>, i: nat)
      returns (p: Plan<nat>, mem: map<Place, nat>, val: nat -> nat)
    requires GroupOk(g) && Shares(g, alloc) && i < |ks| && !Fed(g, ks, i)
    ensures p.g == g && p.alloc == alloc && Ready(p, mem) && Solves(p, val)
    ensures InputOf(p, RunAll(p, ks, i, mem), ks[i]) == Some(1) && Given(p, val, ks[i]) == Some(0)
  {
    p := Plan(g, alloc, PassOn, map[], {});
    mem := map at | at in LinkPlaces(alloc) :: 1;
    val := k => 0;
    var l := LastInto(g.links, ks[i], |g.links|);
    Unwritten(p, ks, i, mem, l);
  }

  ghost function FirstAt(ks: seq<nat>, k: nat): (i: nat)
    requires k in ks
    ensures i < |ks| && ks[i] == k && k !in ks[..i]
  {
    if ks[0] == k then 0 else 1 + FirstAt(ks[1..], k)
  }

  /** The value of kernel `n` of a sequence, by recursion along the links. */
  ghost function Value<V(!new)>(p: Plan<V>, ks: seq<nat>, n: nat): V
    requires GroupOk(p.g) && FeedersFirst(p.g, ks) && n < |ks|
  {
    assert Fed(p.g, ks, n);
    var l := LastInto(p.g.links, ks[n], |p.g.links|);
    p.fn(ks[n],
      if l >= 0 then Some(Value(p, ks, Before(ks, n, p.g.links[l].src)))
      else if ks[n] in p.inputs then Some(p.inputs[ks[n]]) else None)
  }

  ghost function Before(ks: seq<nat>, n: nat, k: nat): (i: nat)
    requires n <= |ks| && k in ks[..n]
    ensures i < n && i == FirstAt(ks, k)
  {
    FirstAt(ks, k)
  }

  /** Values that solve the group exist if feeders come first. */
  lemma Solvable<V(!new)>(p: Plan<V>, ks: seq<nat>) returns (val: nat -> V)
    requires GroupOk(p.g) && FeedersFirst(p.g, ks) && forall k :: k in p.g.kernels ==> k in ks
    ensures Solves(p, val)
  {
    val := (k: nat) => if k in ks then Value(p, ks, FirstAt(ks, k)) else p.fn(k, None);
    forall k | k in p.g.kernels ensures val(k) == p.fn(k, Given(p, val, k)) { SolvedAt(p, ks, val, k); }
  }

  lemma SolvedAt<V(!new)>(p: Plan<V>, ks: seq<nat>, val: nat -> V, k: nat)
    requires GroupOk(p.g) && FeedersFirst(p.g, ks) && k in ks
    requires forall m: nat :: m in ks ==> val(m) == Value(p, ks, FirstAt(ks, m))
    ensures val(k) == p.fn(k, Given(p, val, k))
  {
    var n := FirstAt(ks, k);
    assert Fed(p.g, ks, n);
    var l := LastInto(p.g.links, k, |p.g.links|);
    if l >= 0 {
      var src := p.g.links[l].src;
      assert Value(p, ks, n) == p.fn(k, Some(Value(p, ks, Before(ks, n, src))));
      assert src in ks;
    } else if k in p.inputs {
      assert Value(p, ks, n) == p.fn(k, Some(p.inputs[k]));
    } else {
      assert Value(p, ks, n) == p.fn(k, None);
    }
  }

  // ---------------------------------------------------------------------------------------------
  // Creating and executing a group

  ghost predicate Ordered(order: seq<int>, arr: seq<nat>) {
    && (forall i :: 0 <= i < |arr| ==> arr[i] < |order|)
    && (forall i, j :: 0 <= i < j < |arr| ==> order[arr[i]] <= order[arr[j]])
  }

  /** Where node `n` goes among nodes that are sorted: behind those of the same order. */
  function PlaceOf(order: seq<int>, arr: seq<nat>, n: nat, pos: nat): (r: nat)
    requires n < |order| && pos <= |arr| && forall i :: 0 <= i < |arr| ==> arr[i] < |order|
    ensures r <= pos
  {
    if pos > 0 && order[arr[pos - 1]] > order[n] then PlaceOf(order, arr, n, pos - 1) else pos
  }

  /** The first `n` nodes, sorted by their order. */
  function SortedNodes(order: seq<int>, n: nat): (arr: seq<nat>)
    requires n <= |order|
    ensures |arr| == n && forall i :: 0 <= i < |arr| ==> arr[i] < |order|
  {
    if n == 0 then [] else
    var arr := SortedNodes(order, n - 1);
    var pos := PlaceOf(order, arr, n - 1, n - 1);
    arr[..pos] + [n - 1] + arr[pos..]
  }

  method FindPlace(order: seq<int>, arr: seq<nat>, n: nat) returns (pos: nat)
    requires Ordered(order, arr) && n < |order|
    ensures pos == PlaceOf(order, arr, n, |arr|) && (forall i :: 0 <= i < pos ==> order[arr[i]] <= order[n])
    ensures forall i :: pos <= i < |arr| ==> order[n] <= order[arr[i]]
  {
    pos := |arr|;
    while pos > 0 && order[arr[pos - 1]] > order[n]
      invariant pos <= |arr| && forall i :: pos <= i < |arr| ==> order[n] <= order[arr[i]]
      invariant PlaceOf(order, arr, n, pos) == PlaceOf(order, arr, n, |arr|)
    {
      pos := pos - 1;
    }
  }

  lemma PlaceIs(arr: seq<nat>, n: nat, pos: nat, i: nat)
    requires pos <= |arr| && i <= |arr|
    ensures (arr[..pos] + [n] + arr[pos..])[i] == if i < pos then arr[i] else if i == pos then n else arr[i - 1]
  {
  }

  lemma PlaceKeeps(order: seq<int>, arr: seq<nat>, n: nat, pos: nat, more: seq<nat>)
    requires Ordered(order, arr) && n < |order| && pos <= |arr| && more == arr[..pos] + [n] + arr[pos..]
    requires forall i :: 0 <= i < pos ==> order[arr[i]] <= order[n]
    requires forall i :: pos <= i < |arr| ==> order[n] <= order[arr[i]]
    ensures Ordered(order, more)
  {
    forall i | 0 <= i < |more| ensures more[i] < |order| { PlaceIs(arr, n, pos, i); }
    forall i, j | 0 <= i < j < |more| ensures order[more[i]] <= order[more[j]] {
      PlaceIs(arr, n, pos, i);
      PlaceIs(arr, n, pos, j);
    }
  }

  lemma PlaceHas(arr: seq<nat>, n: nat, pos: nat, m: nat)
    requires pos <= |arr| && (m in arr || m == n)
    ensures m in arr[..pos] + [n] + arr[pos..]
  {
    assert arr == arr[..pos] + arr[pos..];
  }

  /** The nodes, sorted by their order. */
  method SortNodes(order: seq<int>) returns (arr: seq<nat>)
    ensures arr == SortedNodes(order, |order|) && Ordered(order, arr) && forall n: nat :: n < |order| ==> n in arr
  {
    arr := [];
    var n := 0;
    while n < |order|
      invariant n <= |order| && arr == SortedNodes(order, n) && Ordered(order, arr)
      invariant forall m: nat :: m < n ==> m in arr
    {
      var pos := FindPlace(order, arr, n);
      ghost var was := arr;
      arr := arr[..pos] + [n] + arr[pos..];
      PlaceKeeps(order, was, n, pos, arr);
      n := n + 1;
      forall m: nat | m < n ensures m in arr { PlaceHas(was, n - 1, pos, m); }
    }
  }

  /** The kernels in the order in which `execute` runs them. */
  function RunOrder(g: Group): seq<nat>
    requires GroupOk(g)
  {
    Sequence(g, SortedNodes(OrderOf(g).order, |Nodes(g)|), |Nodes(g)|)
  }

  /** An arrangement of all the nodes in ascending order. */
  ghost predicate Arrangement(g: Group, order: seq<int>, arr: seq<nat>)
    requires GroupOk(g)
  {
    |order| == |Nodes(g)| && Ordered(order, arr) && forall n: nat :: n < |order| ==> n in arr
  }

  /** The kernels that have run stay run. */
  lemma {:induction false} SequenceKeeps(g: Group, arr: seq<nat>, j: nat, n: nat, k: nat)
    requires j <= n <= |arr| && (forall i :: 0 <= i < |arr| ==> arr[i] < |Nodes(g)|) && k in Sequence(g, arr, j)
    ensures k in Sequence(g, arr, n)
  {
    if j < n { SequenceKeeps(g, arr, j, n - 1, k); }
  }

  /** Kernel `i` of the sequence is one of a node `c` of the arrangement, and comes behind every kernel `k` of
      the nodes before. */
  lemma {:induction false} Locate(g: Group, arr: seq<nat>, n: nat, ks: seq<nat>, i: nat, k: nat) returns (c: nat)
    requires n <= |arr| && (forall i :: 0 <= i < |arr| ==> arr[i] < |Nodes(g)|)
    requires ks == Sequence(g, arr, n) && i < |ks|
    ensures c < n && ks[i] in g.kernels && NodeOfKernel(g, ks[i]) == arr[c]
    ensures k in Sequence(g, arr, c) ==> k in ks[..i]
  {
    var front := Sequence(g, arr, n - 1);
    if i < |front| {
      c := Locate(g, arr, n - 1, front, i, k);
      assert front[..i] == ks[..i];
    } else {
      c := n - 1;
      KernelOf(g, arr[c], i - |front|);
      assert front <= ks[..i];
    }
  }

  /** A kernel is in the sequence once its node is. */
  lemma KernelComes(g: Group, arr: seq<nat>, n: nat, c: nat, k: nat)
    requires c < n <= |arr| && (forall i :: 0 <= i < |arr| ==> arr[i] < |Nodes(g)|)
    requires k in g.kernels && NodeOfKernel(g, k) == arr[c]
    ensures k in Sequence(g, arr, n)
  {
    KernelsOk(g.scriptOf, g.kernels, g.scriptOf(k));
    assert k in Nodes(g)[arr[c]].kernels;
    assert k in Sequence(g, arr, c + 1);
    SequenceKeeps(g, arr, c + 1, n, k);
  }

  lemma PositionOf(g: Group, order: seq<int>, arr: seq<nat>, n: nat) returns (c: nat)
    requires GroupOk(g) && Arrangement(g, order, arr) && n < |Nodes(g)|
    ensures c < |arr| && arr[c] == n
  {
    assert n in arr;
    c :| 0 <= c < |arr| && arr[c] == n;
  }

  lemma SequenceHas(g: Group, order: seq<int>, arr: seq<nat>, ks: seq<nat>, k: nat)
    requires GroupOk(g) && Arrangement(g, order, arr) && ks == Sequence(g, arr, |arr|)
    ensures k in ks <==> k in g.kernels
  {
    if k in ks {
      var i :| 0 <= i < |ks| && ks[i] == k;
      var c := Locate(g, arr, |arr|, ks, i, k);
    } else if k in g.kernels {
      var c := PositionOf(g, order, arr, NodeOfKernel(g, k));
      KernelComes(g, arr, |arr|, c, k);
    }
  }

  /** If every link goes to a node of larger order, feeders come first, however nodes of the same order are
      arranged. */
  lemma IncreasingFeeds(g: Group, order: seq<int>, arr: seq<nat>, ks: seq<nat>)
    requires GroupOk(g) && Arrangement(g, order, arr) && Increasing(g, order) && ks == Sequence(g, arr, |arr|)
    ensures FeedersFirst(g, ks)
  {
    forall i | 0 <= i < |ks| ensures Fed(g, ks, i) { FeederBefore(g, order, arr, ks, i); }
  }

  lemma FeederBefore(g: Group, order: seq<int>, arr: seq<nat>, ks: seq<nat>, i: nat)
    requires GroupOk(g) && Arrangement(g, order, arr) && Increasing(g, order) && ks == Sequence(g, arr, |arr|)
    requires i < |ks|
    ensures Fed(g, ks, i)
  {
    var l := LastInto(g.links, ks[i], |g.links|);
    if l >= 0 {
      var c := Locate(g, arr, |arr|, ks, i, g.links[l].src);
      var j := PositionOf(g, order, arr, From(g, l));
      assert order[arr[j]] < order[arr[c]];
      KernelComes(g, arr, c, j, g.links[l].src);
    }
  }

  /** A kernel whose first run comes after one of another is of no earlier node. */
  lemma NoEarlier(g: Group, order: seq<int>, arr: seq<nat>, ks: seq<nat>, i: nat, j: nat)
    requires GroupOk(g) && Arrangement(g, order, arr) && ks == Sequence(g, arr, |arr|)
    requires j < i < |ks| && ks[i] !in ks[..i]
    ensures ks[i] in g.kernels && ks[j] in g.kernels
    ensures order[NodeOfKernel(g, ks[j])] <= order[NodeOfKernel(g, ks[i])]
  {
    var c := Locate(g, arr, |arr|, ks, i, ks[i]);
    var d := Locate(g, arr, |arr|, ks, j, ks[i]);
    if c < d { KernelComes(g, arr, d, c, ks[i]); }
  }

  /** If feeders come first, no kernel reads from one of a node of larger order. */
  lemma FedInOrder(g: Group, order: seq<int>, arr: seq<nat>, ks: seq<nat>, k: nat, l: nat)
    requires GroupOk(g) && Arrangement(g, order, arr) && ks == Sequence(g, arr, |arr|) && FeedersFirst(g, ks)
    requires k in ks && l < |g.links| && LastInto(g.links, k, |g.links|) == l
    ensures order[From(g, l)] <= order[To(g, l)]
  {
    var i := FirstAt(ks, k);
    assert Fed(g, ks, i);
    var j :| 0 <= j < i && ks[j] == g.links[l].src;
    NoEarlier(g, order, arr, ks, i, j);
  }

  /** What the comparator of the compatibility library sorts by. */
  ghost predicate Descending(order: seq<int>, arr: seq<nat>) {
    && (forall i :: 0 <= i < |arr| ==> arr[i] < |order|)
    && (forall i, j :: 0 <= i < j < |arr| ==> order[arr[i]] >= order[arr[j]])
  }

  /** Sorted that way, a kernel whose node has a larger order than the one it reads from comes too early. */
  lemma DescendingStarves(g: Group, order: seq<int>, arr: seq<nat>, ks: seq<nat>, k: nat, l: nat)
    requires GroupOk(g) && |order| == |Nodes(g)| && Descending(order, arr) && ks == Sequence(g, arr, |arr|)
    requires k in ks && l < |g.links| && LastInto(g.links, k, |g.links|) == l && order[From(g, l)] < order[To(g, l)]
    ensures !FeedersFirst(g, ks)
  {
    var i := FirstAt(ks, k);
    if j: nat :| j < i && ks[j] == g.links[l].src {
      var c := Locate(g, arr, |arr|, ks, i, k);
      var d := Locate(g, arr, |arr|, ks, j, k);
      if c < d { KernelComes(g, arr, d, c, k); }
    } else {
      assert !Fed(g, ks, i);
    }
  }

  /** What `create` does to a group, up to the nodes in order and the allocations. */
  method Create(g: Group) returns (ret: bool, arr: seq<nat>, alloc: seq<nat>)
    requires GroupOk(g)
    ensures ret <==> forall i :: IsRoot(g, i) ==> !HasClash(g, i)
    ensures ret && Acyclic(g) ==> Increasing(g, OrderOf(g).order)
    ensures arr == SortedNodes(OrderOf(g).order, |Nodes(g)|) && Arrangement(g, OrderOf(g).order, arr)
    ensures Shares(g, alloc)
  {
    var nodes := MakeNodes(g.scriptOf, g.kernels, g.links);
    nodes := AddLinks(g.scriptOf, g.kernels, g.links, nodes);
    assert nodes == Nodes(g);
    var o := new Order(g);
    ret := o.CalcOrder();
    arr := SortNodes(o.order);
    alloc := AllocateLinks(g);
  }

  /** Everything shows its value if feeders come first, which they do if the order increases. */
  lemma AllShow<V(!new)>(p: Plan<V>, arr: seq<nat>, ks: seq<nat>, start: map<Place, V>, mem: map<Place, V>)
    requires PlanOk(p) && Ready(p, start) && Arrangement(p.g, OrderOf(p.g).order, arr) && |arr| == |Nodes(p.g)|
    requires ks == Sequence(p.g, arr, |arr|) && mem == RunAll(p, ks, |ks|, start)
    ensures Increasing(p.g, OrderOf(p.g).order) ==> FeedersFirst(p.g, ks)
    ensures FeedersFirst(p.g, ks) ==> exists val :: Solves(p, val)
    ensures FeedersFirst(p.g, ks) ==> forall val, k :: Solves(p, val) && k in p.g.kernels ==> Shows(p, mem, val, k)
  {
    var order := OrderOf(p.g).order;
    forall k ensures k in ks <==> k in p.g.kernels { SequenceHas(p.g, order, arr, ks, k); }
    if Increasing(p.g, order) { IncreasingFeeds(p.g, order, arr, ks); }
    if FeedersFirst(p.g, ks) {
      var one := Solvable(p, ks);
      forall val, k | Solves(p, val) && k in p.g.kernels ensures Shows(p, mem, val, k) {
        CallsRight(p, ks, |ks|, start, val);
        assert k in ks[..|ks|];
      }
    }
  }

  /** `create` and then `execute`.  `create` drops what `calcOrder` returns, so every group runs, in the
      order of `RunOrder`.  Every kernel shows the value that solving the group gives it if feeders come
      first in that order, which they do if the ordering succeeds on a group without cycles, or if the
      order rises along every link all the same. */
  method CreateAndExecute<V(!new)>(g: Group, fn: Kernels<V>, inputs: map<nat, V>, outputs: set<nat>,
      blank: nat -> V, mem0: map<Place, V>)
    returns (ret: bool, ghost p: Plan<V>, ghost ks: seq<nat>, ghost start: map<Place, V>, mem: map<Place, V>)
    requires GroupOk(g) && forall k :: k in inputs ==> InAt(k) in mem0 && mem0[InAt(k)] == inputs[k]
    ensures ret <==> forall i :: IsRoot(g, i) ==> !HasClash(g, i)
    ensures PlanOk(p) && p.g == g && p.fn == fn && p.inputs == inputs && p.outputs == outputs
    ensures Ready(p, start) && forall l :: 0 <= l < |g.links| ==> start[LinkAt(p.alloc[l])] == blank(p.alloc[l])
    ensures ks == RunOrder(g) && mem == RunAll(p, ks, |ks|, start)
    ensures ret && Acyclic(g) ==> Increasing(g, OrderOf(g).order)
    ensures Increasing(g, OrderOf(g).order) ==> FeedersFirst(g, ks)
    ensures FeedersFirst(g, ks) ==> exists val :: Solves(p, val)
    ensures FeedersFirst(g, ks) ==> forall val, k :: Solves(p, val) && k in g.kernels ==> Shows(p, mem, val, k)
  {
    var arr, alloc;
    ret, arr, alloc := Create(g);
    var plan := Plan(g, alloc, fn, inputs, outputs);
    var filled := mem0 + map at | at in LinkPlaces(alloc) :: blank(at.alloc);
    StartReady(plan, mem0, blank, filled);
    p, ks, start := plan, RunOrder(g), filled;
    mem := Execute(plan, arr, filled);
    AllShow(plan, arr, ks, start, mem);
  }

  lemma StartReady<V(!new)>(p: Plan<V>, mem0: map<Place, V>, blank: nat -> V, start: map<Place, V>)
    requires |p.alloc| == |p.g.links| && forall k :: k in p.inputs ==> InAt(k) in mem0 && mem0[InAt(k)] == p.inputs[k]
    requires start == mem0 + map at | at in LinkPlaces(p.alloc) :: blank(at.alloc)
    ensures Ready(p, start) && forall l :: 0 <= l < |p.alloc| ==> start[LinkAt(p.alloc[l])] == blank(p.alloc[l])
  {
  }

  // ---------------------------------------------------------------------------------------------
  // Groups that the ordering does not serve

  /** Every kernel has a script, and so a node, of its own. */
  ghost predicate Apart(g: Group) {
    forall i, j :: 0 <= i < j < |g.kernels| ==> g.scriptOf(g.kernels[i]) != g.scriptOf(g.kernels[j])
  }

  lemma {:induction false} ApartScripts(scriptOf: ScriptOf, ks: seq<nat>, i: nat)
    requires i < |ks| && forall i, j :: 0 <= i < j < |ks| ==> scriptOf(ks[i]) != scriptOf(ks[j])
    ensures |Scripts(scriptOf, ks)| == |ks| && Scripts(scriptOf, ks)[i] == scriptOf(ks[i])
  {
    var n := |ks| - 1;
    var front := ks[..n];
    if n > 0 {
      forall j: nat | j < n ensures |Scripts(scriptOf, front)| == n && Scripts(scriptOf, front)[j] == scriptOf(ks[j]) {
        ApartScripts(scriptOf, front, j);
      }
    }
  }

  lemma {:induction false} ApartKernels(scriptOf: ScriptOf, ks: seq<nat>, n: nat, i: nat)
    requires n <= |ks| && i < |ks| && forall i, j :: 0 <= i < j < |ks| ==> scriptOf(ks[i]) != scriptOf(ks[j])
    ensures KernelsOf(scriptOf, ks[..n], scriptOf(ks[i])) == if i < n then [ks[i]] else []
  {
    if n > 0 {
      ApartKernels(scriptOf, ks, n - 1, i);
      assert ks[..n][..n - 1] == ks[..n - 1];
    }
  }

  /** Kernel `i` is node `i`. */
  lemma ApartNode(g: Group, i: nat)
    requires Apart(g) && i < |g.kernels|
    ensures |Nodes(g)| == |g.kernels| && NodeOfKernel(g, g.kernels[i]) == i && Nodes(g)[i].kernels == [g.kernels[i]]
  {
    var n := NodeOfKernel(g, g.kernels[i]);
    ApartScripts(g.scriptOf, g.kernels, i);
    ApartScripts(g.scriptOf, g.kernels, n);
    ApartKernels(g.scriptOf, g.kernels, |g.kernels|, i);
    assert g.kernels[..|g.kernels|] == g.kernels;
  }

  /** No input, exactly if no link comes in. */
  lemma RootIs(g: Group, i: nat)
    requires GroupOk(g) && i < |Nodes(g)|
    ensures IsRoot(g, i) <==> forall l :: 0 <= l < |g.links| ==> To(g, l) != i
  {
    if !IsRoot(g, i) {
      var l := InputTo(g, i);
    } else {
      forall l | 0 <= l < |g.links| ensures To(g, l) != i {
        InputsOk(g.scriptOf, g.links, Scripts(g.scriptOf, g.kernels)[i], |g.links|);
      }
    }
  }

  /** Two kernels and two links between them. */
  ghost predicate Couple(g: Group) {
    && |g.kernels| == |g.links| == 2 && g.scriptOf(g.kernels[0]) != g.scriptOf(g.kernels[1])
    && g.links[0] == Link(g.kernels[0], g.kernels[1])
  }

  lemma CoupleNodes(g: Group)
    requires Couple(g) && g.links[1].src in g.kernels && g.links[1].dst in g.kernels
    ensures GroupOk(g) && |Nodes(g)| == 2 && NodeOfKernel(g, g.kernels[0]) == 0 && NodeOfKernel(g, g.kernels[1]) == 1
  {
    ApartNode(g, 0);
    ApartNode(g, 1);
  }

  /** Groups of the shapes below. */
  lemma Shapes() returns (same: Group, round: Group, triangle: Group)
    ensures Couple(same) && same.links[1] == same.links[0]
    ensures Couple(round) && round.links[1] == Link(round.kernels[1], round.kernels[0])
    ensures Triangle(triangle)
  {
    same := Group(k => k, [0, 1], [Link(0, 1), Link(0, 1)]);
    round := Group(k => k, [0, 1], [Link(0, 1), Link(1, 0)]);
    triangle := Group(k => k, [0, 2, 1], [Link(0, 2), Link(0, 1), Link(1, 2)]);
  }

  /** If both links go the same way they meet: the group is reported as unordered, though it has no cycle. */
  lemma SameWay(g: Group)
    requires Couple(g) && g.links[1] == g.links[0]
    ensures GroupOk(g) && IsRoot(g, 0) && HasClash(g, 0) && Acyclic(g)
  {
    CoupleNodes(g);
    RootIs(g, 0);
    assert Leads(g, [0], 0, 0);
    assert Meet(g, 0, 0, 1);
    IncreasingAcyclic(g, [0, 1]);
  }

  /** If they go round, the group has no root to start from. */
  lemma BothWays(g: Group)
    requires Couple(g) && g.links[1] == Link(g.kernels[1], g.kernels[0])
    ensures GroupOk(g) && |Nodes(g)| == 2 && (forall i :: !IsRoot(g, i)) && !Acyclic(g)
  {
    CoupleNodes(g);
    RootIs(g, 0);
    RootIs(g, 1);
    assert To(g, 0) == 1 && To(g, 1) == 0;
    RootlessCyclic(g);
  }

  /** Kernel 0 feeds 1 and 2, and 2 feeds 1 as well. */
  ghost predicate Triangle(g: Group) {
    && |g.kernels| == |g.links| == 3 && Apart(g)
    && g.links[0] == Link(g.kernels[0], g.kernels[1]) && g.links[1] == Link(g.kernels[0], g.kernels[2])
    && g.links[2] == Link(g.kernels[2], g.kernels[1])
  }

  lemma TriangleNodes(g: Group)
    requires Triangle(g)
    ensures GroupOk(g) && |Nodes(g)| == 3
    ensures From(g, 0) == 0 && To(g, 0) == 1 && From(g, 1) == 0 && To(g, 1) == 2 && From(g, 2) == 2 && To(g, 2) == 1
  {
    ApartNode(g, 0);
    ApartNode(g, 1);
    ApartNode(g, 2);
  }

  lemma ThreeOutputs(g: Group, i: nat)
    requires GroupOk(g) && |g.links| == 3 && i < |Nodes(g)|
    ensures Nodes(g)[i].outputs == (if From(g, 0) == i then [0] else []) + (if From(g, 1) == i then [1] else []) +
      (if From(g, 2) == i then [2] else [])
  {
    var f, links, s := g.scriptOf, g.links, Scripts(g.scriptOf, g.kernels)[i];
    ScriptsOk(f, g.kernels);
    assert OutputsOf(f, links, s, 1) == if f(links[0].src) == s then [0] else [];
    assert OutputsOf(f, links, s, 2) == OutputsOf(f, links, s, 1) + if f(links[1].src) == s then [1] else [];
  }

  lemma TriangleTargets(g: Group)
    requires Triangle(g)
    ensures GroupOk(g) && |Nodes(g)| == 3 && IsRoot(g, 0) && !IsRoot(g, 1) && !IsRoot(g, 2)
    ensures |Nodes(g)[0].outputs| == 2 && |Nodes(g)[1].outputs| == 0 && |Nodes(g)[2].outputs| == 1
    ensures Target(g, 0, 0) == 1 && Target(g, 0, 1) == 2 && Target(g, 2, 0) == 1
  {
    TriangleNodes(g);
    ThreeOutputs(g, 0);
    ThreeOutputs(g, 1);
    ThreeOutputs(g, 2);
    RootIs(g, 0);
    RootIs(g, 1);
    RootIs(g, 2);
  }

  lemma WalkLeaf(g: Group, n: nat, depth: int, seen: seq<bool>, order: seq<int>)
    requires GroupOk(g) && |seen| == |order| == |Nodes(g)| && n < |seen| && !seen[n] && |Nodes(g)[n].outputs| == 0
    requires order[n] < depth
    ensures WalkNode(g, n, depth, seen, order) == Walk(seen[n := true], order[n := depth], true)
  {
  }

  /** The walk from a node whose one output is marked. */
  lemma WalkStop(g: Group, n: nat, depth: int, seen: seq<bool>, order: seq<int>)
    requires GroupOk(g) && |seen| == |order| == |Nodes(g)| && n < |seen| && !seen[n] && |Nodes(g)[n].outputs| == 1
    requires order[n] < depth && seen[Target(g, n, 0)]
    ensures WalkNode(g, n, depth, seen, order) == Walk(seen[n := true], order[n := depth], false)
  {
  }

  lemma WalkOn(g: Group, n: nat, c: nat, seen: seq<bool>, order: seq<int>, ret: bool, x: Walk)
    requires GroupOk(g) && |seen| == |order| == |Nodes(g)| && n < |seen| && c < |Nodes(g)[n].outputs|
    requires !seen[Target(g, n, c)] && x == WalkNode(g, Target(g, n, c), order[n] + 1, seen, order)
    ensures WalkOutputs(g, n, c, seen, order, ret) == WalkOutputs(g, n, c + 1, x.seen, x.order, ret && x.ret)
  {
  }

  /** The walk from a node with two outputs. */
  lemma WalkFork(g: Group, n: nat, seen: seq<bool>, order: seq<int>, x: Walk, y: Walk)
    requires GroupOk(g) && |seen| == |order| == |Nodes(g)| && n < |seen| && !seen[n] && |Nodes(g)[n].outputs| == 2
    requires order[n] == 0 && var s, t := Target(g, n, 0), Target(g, n, 1);
      && s != n && t != n && !seen[s] && x == WalkNode(g, s, 1, seen[n := true], order)
      && x.order[n] == 0 && !x.seen[t] && y == WalkNode(g, t, 1, x.seen, x.order)
    ensures WalkNode(g, n, 0, seen, order) == Walk(y.seen, y.order, x.ret && y.ret)
  {
    WalkOn(g, n, 0, seen[n := true], order, true, x);
    WalkOn(g, n, 1, x.seen, x.order, x.ret, y);
  }

  /** The walk gives the last two nodes the same order, and stops at the link between them. */
  lemma TriangleOrder(g: Group) returns (order: seq<int>)
    requires Triangle(g)
    ensures GroupOk(g) && |Nodes(g)| == 3 && OrderOf(g) == Orders(order, false)
    ensures |order| == 3 && order[0] == 0 && order[1] == order[2] == 1
  {
    TriangleTargets(g);
    var u, zero := Unmarked(3), seq(3, i => 0);
    WalkLeaf(g, 1, 1, u[0 := true], zero);
    var x := WalkNode(g, 1, 1, u[0 := true], zero);
    WalkStop(g, 2, 1, x.seen, x.order);
    var y := WalkNode(g, 2, 1, x.seen, x.order);
    WalkFork(g, 0, u, zero, x, y);
    order := y.order;
    assert WalkRoots(g, 1) == Orders(order, false);
    assert WalkRoots(g, 2) == Orders(order, false);
  }

  /** Nodes that are in order already stay where they are. */
  lemma {:induction false} SortedStay(order: seq<int>, n: nat, i: nat)
    requires i < n <= |order| && forall i, j :: 0 <= i < j < |order| ==> order[i] <= order[j]
    ensures SortedNodes(order, n)[i] == i
  {
    var arr := SortedNodes(order, n - 1);
    if n > 1 { SortedStay(order, n - 1, n - 2); }
    assert PlaceOf(order, arr, n - 1, n - 1) == n - 1;
    if i < n - 1 { SortedStay(order, n - 1, i); }
  }

  lemma {:induction false} ApartSequence(g: Group, arr: seq<nat>, n: nat)
    requires Apart(g) && n <= |arr| == |g.kernels| && forall i :: 0 <= i < |arr| ==> arr[i] == i
    ensures |Nodes(g)| == |arr| && Sequence(g, arr, n) == g.kernels[..n]
  {
    if |arr| > 0 { ApartNode(g, 0); } else { assert g.kernels == []; }
    if n > 0 {
      ApartSequence(g, arr, n - 1);
      ApartNode(g, n - 1);
    }
  }

  /** A triangle has no cycle, but runs kernel 1 before 2, whose link 1 reads: 1 is given what the memory of the
      link held when it was allocated. */
  lemma TriangleRuns(g: Group)
    requires Triangle(g)
    ensures GroupOk(g) && Acyclic(g) && !OrderOf(g).ret && !Increasing(g, OrderOf(g).order)
    ensures RunOrder(g) == g.kernels && !Fed(g, g.kernels, 1)
  {
    TriangleNodes(g);
    IncreasingAcyclic(g, [0, 2, 1]);
    var order := TriangleOrder(g);
    var arr := SortedNodes(order, |order|);
    forall i | 0 <= i < |arr| ensures arr[i] == i { SortedStay(order, |order|, i); }
    ApartSequence(g, arr, |arr|);
  }
}
