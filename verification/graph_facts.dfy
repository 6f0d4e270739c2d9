/**
 Properties of the built graph: which edges exist, what the filter removes,
 how channel sizes compare, what switching the filter off adds, and that a
 loaded registry never reaches the division by zero.
 */
module GraphFacts {
  import opened Resolver
  import opened ResolverFacts
  import opened NetworkGraph

  /** No two persons share a name. */
  predicate UniqueNames(persons: seq<Person>) {
    forall a, b :: 0 <= a < b < |persons| ==> persons[a].name != persons[b].name
  }

  lemma SameName(persons: seq<Person>, p: Person, q: Person)
    requires UniqueNames(persons) && p in persons && q in persons && p.name == q.name
    ensures p == q
  {
    var a :| 0 <= a < |persons| && persons[a] == p;
    var b :| 0 <= b < |persons| && persons[b] == q;
    assert !(a < b) && !(b < a);
  }

  lemma SameId(reg: Registry, i: nat, j: nat)
    requires UniqueIds(reg) && i < |reg| && j < |reg| && reg[i].id == reg[j].id
    ensures i == j
  {
    assert !(i < j) && !(j < i);
  }

  /** The edge set as defined by the filter, under distinct ids and names. */
  lemma SurvivingEdgeIff(persons: seq<Person>, reg: Registry, displayDegreeOne: bool, p: Person, i: nat)
    requires UniqueIds(reg) && UniqueNames(persons) && p in persons && i < |reg|
    ensures (p.name, reg[i].id) in SurvivingEdges(persons, reg, displayDegreeOne)
        <==> i in p.channels && Survives(reg[i], displayDegreeOne)
  {
    if (p.name, reg[i].id) in SurvivingEdges(persons, reg, displayDegreeOne) {
      var q, j :| q in persons && j in q.channels && j < |reg| && Survives(reg[j], displayDegreeOne)
                  && (p.name, reg[i].id) == (q.name, reg[j].id);
      SameName(persons, p, q);
      SameId(reg, i, j);
    }
  }

  /**
   With distinct channel ids and person names, a person is joined to a
   channel exactly when the channel is one of its own and survived the filter.
   */
  lemma EdgeIff(persons: seq<Person>, reg: Registry, displayDegreeOne: bool, p: Person, i: nat)
    requires UniqueIds(reg) && UniqueNames(persons) && p in persons && i < |reg|
    requires BuildNetworkGraph(persons, reg, displayDegreeOne).Built?
    ensures (p.name, reg[i].id) in BuildNetworkGraph(persons, reg, displayDegreeOne).graph.edges
        <==> i in p.channels && Survives(reg[i], displayDegreeOne)
  {
    var g := BuildNetworkGraph(persons, reg, displayDegreeOne).graph;
    if g == EmptyGraph {
      assert !Survives(reg[i], displayDegreeOne);
    } else {
      assert g.edges == SurvivingEdges(persons, reg, displayDegreeOne);
      SurvivingEdgeIff(persons, reg, displayDegreeOne, p, i);
    }
  }

  /**
   A channel the filter removed is not a channel node: it gets no size and
   no edge, and its id is a node only when some person carries that name.
   */
  lemma FilteredOut(persons: seq<Person>, reg: Registry, displayDegreeOne: bool, i: nat)
    requires UniqueIds(reg) && i < |reg| && !Survives(reg[i], displayDegreeOne)
    requires BuildNetworkGraph(persons, reg, displayDegreeOne).Built?
    ensures var g := BuildNetworkGraph(persons, reg, displayDegreeOne).graph;
            && reg[i].id !in g.size
            && (forall e :: e in g.edges ==> e.1 != reg[i].id)
            && (reg[i].id in g.nodes ==> reg[i].id in Names(persons))
  {
    assert forall j :: 0 <= j < |reg| && reg[j].id == reg[i].id ==> j == i by {
      forall j | 0 <= j < |reg| && reg[j].id == reg[i].id
        ensures j == i
      {
        SameId(reg, i, j);
      }
    }
  }

  /** Sizing is monotone in the owner count. */
  lemma SizeMonotone(a: nat, b: nat, maxOwners: nat)
    requires maxOwners > 0 && a <= b
    ensures Size(a, maxOwners) <= Size(b, maxOwners)
  {
    var m := maxOwners as real;
    assert (a as real / m) * m <= (b as real / m) * m;
  }

  /** With distinct ids, the size map holds each listed channel's own size. */
  lemma SizeOfListed(reg: Registry, refs: seq<ChannelRef>, maxOwners: nat, i: nat)
    requires UniqueIds(reg) && maxOwners > 0 && forall k :: 0 <= k < |refs| ==> refs[k] < |reg|
    requires i in refs
    ensures reg[i].id in Sizes(reg, refs, maxOwners)
    ensures Sizes(reg, refs, maxOwners)[reg[i].id] == Size(|reg[i].owners|, maxOwners)
  {
    var size := Sizes(reg, refs, maxOwners);
    var k :| 0 <= k < |refs| && refs[k] == i;
    assert reg[refs[k]].id in size;
    var k' :| 0 <= k' < |refs| && reg[refs[k']].id == reg[i].id && size[reg[i].id] == Size(|reg[refs[k']].owners|, maxOwners);
    SameId(reg, i, refs[k']);
  }

  /** Each surviving channel is sized against the largest surviving owner count. */
  lemma SizeOfSurvivor(persons: seq<Person>, reg: Registry, displayDegreeOne: bool, i: nat)
    requires UniqueIds(reg) && i < |reg| && Survives(reg[i], displayDegreeOne)
    requires BuildNetworkGraph(persons, reg, displayDegreeOne).Built?
    ensures var valid := Surviving(reg, displayDegreeOne);
            && valid != [] && MaxOwners(reg, valid) > 0
            && reg[i].id in BuildNetworkGraph(persons, reg, displayDegreeOne).graph.size
            && BuildNetworkGraph(persons, reg, displayDegreeOne).graph.size[reg[i].id]
               == Size(|reg[i].owners|, MaxOwners(reg, valid))
  {
    var valid := Surviving(reg, displayDegreeOne);
    assert i in valid;
    var m := MaxOwners(reg, valid);
    assert BuildNetworkGraph(persons, reg, displayDegreeOne).graph.size == Sizes(reg, valid, m);
    SizeOfListed(reg, valid, m, i);
  }

  /** No surviving channel has more owners than the channel at `i`. */
  predicate MostOwned(reg: Registry, displayDegreeOne: bool, i: nat)
    requires i < |reg|
  {
    forall k :: 0 <= k < |reg| && Survives(reg[k], displayDegreeOne) ==> |reg[k].owners| <= |reg[i].owners|
  }

  /** A survivor's owner count is the maximum over the survivors exactly when no survivor has more. */
  lemma MaximalIff(reg: Registry, displayDegreeOne: bool, i: nat)
    requires i < |reg| && Survives(reg[i], displayDegreeOne)
    ensures i in Surviving(reg, displayDegreeOne)
    ensures |reg[i].owners| <= MaxOwners(reg, Surviving(reg, displayDegreeOne))
    ensures |reg[i].owners| == MaxOwners(reg, Surviving(reg, displayDegreeOne)) <==> MostOwned(reg, displayDegreeOne, i)
  {
    var valid := Surviving(reg, displayDegreeOne);
    var m := MaxOwners(reg, valid);
    var n :| 0 <= n < |valid| && valid[n] == i;
    var top :| 0 <= top < |valid| && |reg[valid[top]].owners| == m;
    assert valid[top] in valid;
    if |reg[i].owners| == m {
      forall k | 0 <= k < |reg| && Survives(reg[k], displayDegreeOne)
        ensures |reg[k].owners| <= m
      {
        var n' :| 0 <= n' < |valid| && valid[n'] == k;
      }
    }
  }

  /**
   Among surviving channels: a size exceeds 16 exactly when the channel has
   an owner, is 24 exactly when no surviving channel has more owners, and
   more owners never means a smaller size.
   */
  lemma ChannelSizes(persons: seq<Person>, reg: Registry, displayDegreeOne: bool, i: nat, j: nat)
    requires UniqueIds(reg) && i < |reg| && j < |reg|
    requires Survives(reg[i], displayDegreeOne) && Survives(reg[j], displayDegreeOne)
    requires BuildNetworkGraph(persons, reg, displayDegreeOne).Built?
    ensures var size := BuildNetworkGraph(persons, reg, displayDegreeOne).graph.size;
            && reg[i].id in size && reg[j].id in size
            && (size[reg[i].id] > 16.0 <==> |reg[i].owners| > 0)
            && (size[reg[i].id] == 24.0 <==> MostOwned(reg, displayDegreeOne, i))
            && (|reg[i].owners| <= |reg[j].owners| ==> size[reg[i].id] <= size[reg[j].id])
  {
    var valid := Surviving(reg, displayDegreeOne);
    SizeOfSurvivor(persons, reg, displayDegreeOne, i);
    SizeOfSurvivor(persons, reg, displayDegreeOne, j);
    var m := MaxOwners(reg, valid);
    var size := BuildNetworkGraph(persons, reg, displayDegreeOne).graph.size;
    var si, sj := size[reg[i].id], size[reg[j].id];
    assert si == Size(|reg[i].owners|, m);
    assert sj == Size(|reg[j].owners|, m);
    MaximalIff(reg, displayDegreeOne, i);
    if |reg[i].owners| <= |reg[j].owners| {
      SizeMonotone(|reg[i].owners|, |reg[j].owners|, m);
    }
  }

  /** With the flag on, every channel survives, in registry order. */
  lemma {:induction false} SurvivingAll(reg: Registry)
    ensures Surviving(reg, true) == seq(|reg|, i => i)
  {
    if reg != [] {
      var n := |reg| - 1;
      SurvivingAll(reg[..n]);
      assert seq(n, i => i) + [n] == seq(|reg|, i => i);
    }
  }

  /**
   With the default filter, building never divides by zero, since every
   surviving channel has at least two owners. Showing degree-one channels
   only adds: every node, edge and sized channel of the filtered graph is in
   the unfiltered one.
   */
  lemma DisplayAllSuperset(persons: seq<Person>, reg: Registry)
    requires BuildNetworkGraph(persons, reg, true).Built?
    ensures BuildNetworkGraph(persons, reg, false).Built?
    ensures var filtered := BuildNetworkGraph(persons, reg, false).graph;
            var all := BuildNetworkGraph(persons, reg, true).graph;
            && filtered.nodes <= all.nodes
            && filtered.edges <= all.edges
            && filtered.size.Keys <= all.size.Keys
  {
    if exists i :: 0 <= i < |reg| && Survives(reg[i], false) {
      var i :| 0 <= i < |reg| && Survives(reg[i], false);
      assert |reg[i].owners| > 1;
    }
    var filtered := BuildNetworkGraph(persons, reg, false).graph;
    var all := BuildNetworkGraph(persons, reg, true).graph;
    if filtered != EmptyGraph {
      var i :| 0 <= i < |reg| && Survives(reg[i], false);
      assert Survives(reg[i], true);
      assert SurvivingIds(reg, false) <= SurvivingIds(reg, true);
      assert SurvivingEdges(persons, reg, false) <= SurvivingEdges(persons, reg, true);
    }
  }

  /**
   After loading, a channel passes the default filter exactly when two or more
   rows across all tables name it, and building never divides by zero.
   */
  lemma LoadedBuild(users: seq<UserTable>, displayDegreeOne: bool)
    ensures DefaultFilterByRows(users, LoadUsers(users).1)
    ensures BuildNetworkGraph(LoadUsers(users).0, LoadUsers(users).1, displayDegreeOne).Built?
  {
    var loaded := LoadUsers(users);
    LoadOwnerCounts(users);
    OwnedByRows(users, loaded.1);
    NeverDivides(loaded.0, loaded.1, displayDegreeOne);
  }

  /** A channel passes the default filter exactly when more than one row over all tables names it. */
  predicate DefaultFilterByRows(users: seq<UserTable>, reg: Registry) {
    forall i :: 0 <= i < |reg| ==> (Survives(reg[i], false) <==> TotalRows(users, reg[i].id) > 1)
  }

  lemma OwnedByRows(users: seq<UserTable>, reg: Registry)
    requires OwnedOncePerRow(users, reg)
    ensures DefaultFilterByRows(users, reg)
    ensures forall i :: 0 <= i < |reg| ==> |reg[i].owners| >= 1
  {
  }

  /** A registry whose every channel has an owner never makes building divide by zero. */
  lemma NeverDivides(persons: seq<Person>, reg: Registry, displayDegreeOne: bool)
    requires forall i :: 0 <= i < |reg| ==> |reg[i].owners| >= 1
    ensures BuildNetworkGraph(persons, reg, displayDegreeOne).Built?
  {
  }
}
