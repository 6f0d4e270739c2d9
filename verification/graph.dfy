/**
 Graph building: channels are filtered by owner count, and the surviving
 channels and all persons become nodes, joined by an edge from each person to
 each surviving channel it subscribes to; each surviving channel gets a size
 scaled by its owner count relative to the most-owned surviving channel.

 Nodes are keyed as the graph library keys them: a channel by its id, a
 person by its name, in one shared key space. Edges are undirected in the
 library; here each is written as the pair (person name, channel id).
 */
module NetworkGraph {
  import opened Resolver

  /** The configured default: channels with a single owner are not shown. */
  const DisplayDegreeOneDefault: bool := false

  datatype Graph = Graph(nodes: set<string>, edges: set<(string, string)>, size: map<string, real>)

  const EmptyGraph: Graph := Graph({}, {}, map[])

  /** The outcome of building: a graph, or the division by a zero maximum owner count. */
  datatype BuildResult = Built(graph: Graph) | ZeroDivisionError

  /** A channel passes the filter: shown regardless, or owned more than once. */
  predicate Survives(c: Channel, displayDegreeOne: bool) {
    displayDegreeOne || |c.owners| > 1
  }

  /** `validlist`: the surviving channels, as registry positions in registry order. */
  function Surviving(reg: Registry, displayDegreeOne: bool): (r: seq<ChannelRef>)
    ensures forall k :: 0 <= k < |r| ==> r[k] < |reg|
    ensures forall i: nat :: i in r <==> i < |reg| && Survives(reg[i], displayDegreeOne)
    ensures forall a, b :: 0 <= a < b < |r| ==> r[a] < r[b]
  {
    if reg == [] then []
    else
      var n := |reg| - 1;
      var front := Surviving(reg[..n], displayDegreeOne);
      assert forall i :: 0 <= i < n ==> reg[..n][i] == reg[i];
      front + (if Survives(reg[n], displayDegreeOne) then [n] else [])
  }

  /** The largest owner count among the channels at `refs` (main.py:214). */
  function MaxOwners(reg: Registry, refs: seq<ChannelRef>): (m: nat)
    requires refs != [] && forall k :: 0 <= k < |refs| ==> refs[k] < |reg|
    ensures forall k :: 0 <= k < |refs| ==> |reg[refs[k]].owners| <= m
    ensures exists k :: 0 <= k < |refs| && |reg[refs[k]].owners| == m
  {
    var last := |reg[refs[|refs| - 1]].owners|;
    if |refs| == 1 then last
    else
      var front := refs[..|refs| - 1];
      var m := MaxOwners(reg, front);
      assert forall k :: 0 <= k < |front| ==> front[k] == refs[k];
      if m < last then last else m
  }

  /** A channel's node size: its share of the largest owner count, plus two, times eight (main.py:216), in exact rational arithmetic. */
  function Size(owners: nat, maxOwners: nat): (r: real)
    requires maxOwners > 0
    ensures owners <= maxOwners ==> 16.0 <= r <= 24.0
    ensures r == 24.0 <==> owners == maxOwners
    ensures r > 16.0 <==> owners > 0
  {
    var q := owners as real / maxOwners as real;
    assert q * maxOwners as real == owners as real;
    (q + 2.0) * 8.0
  }

  /**
   The size attribute written for each channel in turn. The key set is the
   channels' ids, and each size is that of a channel carrying the key.
   */
  function Sizes(reg: Registry, refs: seq<ChannelRef>, maxOwners: nat): (m: map<string, real>)
    requires maxOwners > 0 && forall k :: 0 <= k < |refs| ==> refs[k] < |reg|
    ensures forall id :: id in m <==> exists k :: 0 <= k < |refs| && reg[refs[k]].id == id
    ensures forall id :: id in m ==>
              exists k :: 0 <= k < |refs| && reg[refs[k]].id == id && m[id] == Size(|reg[refs[k]].owners|, maxOwners)
  {
    if refs == [] then map[]
    else
      var front := refs[..|refs| - 1];
      var c := reg[refs[|refs| - 1]];
      assert forall k :: 0 <= k < |front| ==> front[k] == refs[k];
      Sizes(reg, front, maxOwners)[c.id := Size(|c.owners|, maxOwners)]
  }

  /** The ids of the channels at the given registry positions. */
  function ChannelNodes(reg: Registry, refs: seq<ChannelRef>): set<string> {
    set i | i in refs && i < |reg| :: reg[i].id
  }

  function Names(persons: seq<Person>): set<string> {
    set p | p in persons :: p.name
  }

  /** An edge from each person to each of its channels among `refs`. */
  function EdgesTo(persons: seq<Person>, reg: Registry, refs: seq<ChannelRef>): set<(string, string)> {
    set p, i | p in persons && i in p.channels && i in refs && i < |reg| :: (p.name, reg[i].id)
  }

  /** The ids of the surviving channels. */
  function SurvivingIds(reg: Registry, displayDegreeOne: bool): set<string> {
    set i | 0 <= i < |reg| && Survives(reg[i], displayDegreeOne) :: reg[i].id
  }

  /** An edge for each person and each of its channels that survived. */
  function SurvivingEdges(persons: seq<Person>, reg: Registry, displayDegreeOne: bool): set<(string, string)> {
    set p, i | p in persons && i in p.channels && i < |reg| && Survives(reg[i], displayDegreeOne) :: (p.name, reg[i].id)
  }

  lemma SurvivingNodes(reg: Registry, displayDegreeOne: bool)
    ensures ChannelNodes(reg, Surviving(reg, displayDegreeOne)) == SurvivingIds(reg, displayDegreeOne)
  {
  }

  lemma SurvivingEdgeSet(persons: seq<Person>, reg: Registry, displayDegreeOne: bool)
    ensures EdgesTo(persons, reg, Surviving(reg, displayDegreeOne)) == SurvivingEdges(persons, reg, displayDegreeOne)
  {
  }

  lemma SizeKeys(reg: Registry, refs: seq<ChannelRef>, maxOwners: nat)
    requires maxOwners > 0 && forall k :: 0 <= k < |refs| ==> refs[k] < |reg|
    ensures Sizes(reg, refs, maxOwners).Keys == ChannelNodes(reg, refs)
  {
    var m := Sizes(reg, refs, maxOwners);
    forall id | id in ChannelNodes(reg, refs)
      ensures id in m
    {
      var i :| i in refs && i < |reg| && reg[i].id == id;
      var k :| 0 <= k < |refs| && refs[k] == i;
    }
  }

  /** The steps of `build_network_graph` (main.py:189-218), taken in the same order. */
  function Build(persons: seq<Person>, reg: Registry, displayDegreeOne: bool): BuildResult {
    var valid := Surviving(reg, displayDegreeOne);
    if valid == [] then
      Built(EmptyGraph)
    else
      var nodes := ChannelNodes(reg, valid) + Names(persons);
      var edges := EdgesTo(persons, reg, valid);
      var maxOwners := MaxOwners(reg, valid);
      if maxOwners == 0 then ZeroDivisionError
      else Built(Graph(nodes, edges, Sizes(reg, valid, maxOwners)))
  }

  lemma BuildEmpty(persons: seq<Person>, reg: Registry, displayDegreeOne: bool)
    ensures Build(persons, reg, displayDegreeOne) == Built(EmptyGraph)
        <==> forall i :: 0 <= i < |reg| ==> !Survives(reg[i], displayDegreeOne)
  {
    var valid := Surviving(reg, displayDegreeOne);
    if valid != [] {
      assert valid[0] in valid;
      if MaxOwners(reg, valid) > 0 {
        assert reg[valid[0]].id in Build(persons, reg, displayDegreeOne).graph.nodes;
      }
    }
  }

  lemma BuildDivides(persons: seq<Person>, reg: Registry, displayDegreeOne: bool)
    ensures Build(persons, reg, displayDegreeOne).ZeroDivisionError? <==>
              && (exists i :: 0 <= i < |reg| && Survives(reg[i], displayDegreeOne))
              && (forall i :: 0 <= i < |reg| && Survives(reg[i], displayDegreeOne) ==> |reg[i].owners| == 0)
  {
    var valid := Surviving(reg, displayDegreeOne);
    if valid != [] {
      assert valid[0] in valid;
      var m := MaxOwners(reg, valid);
      if m == 0 {
        forall i | 0 <= i < |reg| && Survives(reg[i], displayDegreeOne)
          ensures |reg[i].owners| == 0
        {
          var k :| 0 <= k < |valid| && valid[k] == i;
        }
      }
    }
  }

  lemma BuildContents(persons: seq<Person>, reg: Registry, displayDegreeOne: bool)
    requires Build(persons, reg, displayDegreeOne).Built?
    ensures var g := Build(persons, reg, displayDegreeOne).graph;
            g != EmptyGraph ==>
              && g.nodes == SurvivingIds(reg, displayDegreeOne) + Names(persons)
              && g.edges == SurvivingEdges(persons, reg, displayDegreeOne)
              && g.size.Keys == SurvivingIds(reg, displayDegreeOne)
  {
    var valid := Surviving(reg, displayDegreeOne);
    if valid != [] {
      var g := Build(persons, reg, displayDegreeOne).graph;
      assert g.nodes == ChannelNodes(reg, valid) + Names(persons);
      assert g.nodes == SurvivingIds(reg, displayDegreeOne) + Names(persons) by {
        SurvivingNodes(reg, displayDegreeOne);
      }
      assert g.edges == SurvivingEdges(persons, reg, displayDegreeOne) by {
        SurvivingEdgeSet(persons, reg, displayDegreeOne);
      }
      assert g.size.Keys == SurvivingIds(reg, displayDegreeOne) by {
        SurvivingNodes(reg, displayDegreeOne);
        SizeKeys(reg, valid, MaxOwners(reg, valid));
      }
    }
  }

  lemma BuildWellFormed(persons: seq<Person>, reg: Registry, displayDegreeOne: bool)
    requires Build(persons, reg, displayDegreeOne).Built?
    ensures var g := Build(persons, reg, displayDegreeOne).graph;
            && (forall e :: e in g.edges ==> e.0 in g.nodes && e.1 in g.nodes)
            && (forall id :: id in g.size ==> 16.0 <= g.size[id] <= 24.0)
  {
    var valid := Surviving(reg, displayDegreeOne);
    if valid != [] {
      var m := MaxOwners(reg, valid);
      var g := Build(persons, reg, displayDegreeOne).graph;
      forall e | e in g.edges
        ensures e.0 in g.nodes && e.1 in g.nodes
      {
        var p, i :| p in persons && i in p.channels && i in valid && i < |reg| && e == (p.name, reg[i].id);
      }
      forall id | id in g.size
        ensures 16.0 <= g.size[id] <= 24.0
      {
        var k :| 0 <= k < |valid| && reg[valid[k]].id == id && g.size[id] == Size(|reg[valid[k]].owners|, m);
      }
    }
  }

  /** The graph `build_network_graph` returns, or the division by zero it raises (main.py:189-218). */
  function BuildNetworkGraph(persons: seq<Person>, reg: Registry, displayDegreeOne: bool): (r: BuildResult)
    ensures r == Built(EmptyGraph) <==> forall i :: 0 <= i < |reg| ==> !Survives(reg[i], displayDegreeOne)
    ensures r.ZeroDivisionError? <==>
              && (exists i :: 0 <= i < |reg| && Survives(reg[i], displayDegreeOne))
              && (forall i :: 0 <= i < |reg| && Survives(reg[i], displayDegreeOne) ==> |reg[i].owners| == 0)
    ensures r.Built? && r.graph != EmptyGraph ==>
              && r.graph.nodes == SurvivingIds(reg, displayDegreeOne) + Names(persons)
              && r.graph.edges == SurvivingEdges(persons, reg, displayDegreeOne)
              && r.graph.size.Keys == SurvivingIds(reg, displayDegreeOne)
    ensures r.Built? ==> forall e :: e in r.graph.edges ==> e.0 in r.graph.nodes && e.1 in r.graph.nodes
    ensures r.Built? ==> forall id :: id in r.graph.size ==> 16.0 <= r.graph.size[id] <= 24.0
  {
    BuildEmpty(persons, reg, displayDegreeOne);
    BuildDivides(persons, reg, displayDegreeOne);
    if Build(persons, reg, displayDegreeOne).Built? then
      BuildContents(persons, reg, displayDegreeOne);
      BuildWellFormed(persons, reg, displayDegreeOne);
      Build(persons, reg, displayDegreeOne)
    else
      Build(persons, reg, displayDegreeOne)
  }
}
