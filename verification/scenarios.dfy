/**
 Concrete cases: two users who share a channel, a channel with one owner,
 no users at all, and the same inputs with degree-one channels shown.
 */
module Scenarios {
  import opened Optional
  import opened Resolver
  import opened NetworkGraph

  const Shared: Row := Row("c1", "Channel One", Some(1000), "https://thumb/c1", "Music,Pop")

  const Alice: UserTable := UserTable("alice", "red", [Shared])
  const Bob: UserTable := UserTable("bob", "blue", [Shared])

  /** The shared channel as created from its row, with the given owners. */
  function C1(owners: seq<string>): Channel {
    Channel("Channel One", "c1", Some(1000), "Music", "https://thumb/c1", owners)
  }

  lemma AliceRow()
    ensures AddRow(Person("alice", "red", []), [], Shared) == (Person("alice", "red", [0]), [C1(["alice"])])
  {
    assert FirstField("Music,Pop") == "Music";
    assert NewChannel(Shared) == C1([]);
    assert Find([], "c1") == None;
    assert [] + [C1([])] == [C1([])];
    assert Resolve([], Shared) == (0, [C1([])]);
    assert [C1([])][0 := C1(["alice"])] == [C1(["alice"])];
    assert RegisterRow([], Shared, "alice") == [C1(["alice"])];
    assert Remember(Person("alice", "red", []), 0) == Person("alice", "red", [0]);
  }

  lemma BobRow()
    ensures AddRow(Person("bob", "blue", []), [C1(["alice"])], Shared) == (Person("bob", "blue", [0]), [C1(["alice", "bob"])])
  {
    assert Find([C1(["alice"])], "c1") == Some(0);
    assert Resolve([C1(["alice"])], Shared) == (0, [C1(["alice"])]);
    assert ["alice"] + ["bob"] == ["alice", "bob"];
    assert [C1(["alice"])][0 := C1(["alice", "bob"])] == [C1(["alice", "bob"])];
    assert RegisterRow([C1(["alice"])], Shared, "bob") == [C1(["alice", "bob"])];
    assert Remember(Person("bob", "blue", []), 0) == Person("bob", "blue", [0]);
  }

  lemma LoadAlice()
    ensures LoadUsers([Alice]) == ([Person("alice", "red", [0])], [C1(["alice"])])
  {
    AliceRow();
    assert [Shared][1..] == [];
    assert GenerateChannels(Person("alice", "red", []), [Shared], []) == (Person("alice", "red", [0]), [C1(["alice"])]);
    assert [Alice][..0] == [];
  }

  lemma GenerateBob()
    ensures GenerateChannels(Person("bob", "blue", []), [Shared], [C1(["alice"])]) == (Person("bob", "blue", [0]), [C1(["alice", "bob"])])
  {
    BobRow();
    assert [Shared][1..] == [];
  }

  lemma LoadBobAfterAlice()
    ensures LoadUser([Person("alice", "red", [0])], [C1(["alice"])], Bob)
            == ([Person("alice", "red", [0]), Person("bob", "blue", [0])], [C1(["alice", "bob"])])
  {
    GenerateBob();
    assert [Person("alice", "red", [0])] + [Person("bob", "blue", [0])] == [Person("alice", "red", [0]), Person("bob", "blue", [0])];
  }

  lemma LoadAliceBob()
    ensures LoadUsers([Alice, Bob]) == ([Person("alice", "red", [0]), Person("bob", "blue", [0])], [C1(["alice", "bob"])])
  {
    assert [Alice, Bob][..1] == [Alice];
    var prev := LoadUsers([Alice]);
    assert prev == ([Person("alice", "red", [0])], [C1(["alice"])]) by {
      LoadAlice();
    }
    assert LoadUsers([Alice, Bob]) == LoadUser(prev.0, prev.1, Bob);
    LoadBobAfterAlice();
  }

  const AliceNode: Person := Person("alice", "red", [0])
  const BobNode: Person := Person("bob", "blue", [0])

  lemma SurvivingOne(owners: seq<string>, displayDegreeOne: bool)
    requires displayDegreeOne || |owners| > 1
    ensures Surviving([C1(owners)], displayDegreeOne) == [0]
  {
    assert [C1(owners)][..0] == [];
  }

  lemma SizesOne(owners: seq<string>)
    requires |owners| > 0
    ensures MaxOwners([C1(owners)], [0]) == |owners|
    ensures Sizes([C1(owners)], [0], |owners|) == map["c1" := 24.0]
  {
    assert [0][..0] == [];
  }

  lemma ChannelNodesOne(owners: seq<string>)
    ensures ChannelNodes([C1(owners)], [0]) == {"c1"}
  {
    assert 0 in [0];
  }

  lemma NamesBoth()
    ensures Names([AliceNode, BobNode]) == {"alice", "bob"}
  {
    assert AliceNode in [AliceNode, BobNode] && BobNode in [AliceNode, BobNode];
  }

  lemma EdgesBoth(owners: seq<string>)
    ensures EdgesTo([AliceNode, BobNode], [C1(owners)], [0]) == {("alice", "c1"), ("bob", "c1")}
  {
    assert AliceNode in [AliceNode, BobNode] && BobNode in [AliceNode, BobNode];
    assert 0 in AliceNode.channels && 0 in BobNode.channels && 0 in [0];
  }

  lemma NamesAlice()
    ensures Names([AliceNode]) == {"alice"}
  {
    assert AliceNode in [AliceNode];
  }

  lemma EdgesAlice(owners: seq<string>)
    ensures EdgesTo([AliceNode], [C1(owners)], [0]) == {("alice", "c1")}
  {
    assert AliceNode in [AliceNode];
    assert 0 in AliceNode.channels && 0 in [0];
  }

  lemma UnionTwo(a: string, b: string)
    ensures {a} + {b} == {a, b}
  {
    forall x
      ensures x in {a} + {b} <==> x in {a, b}
    {
    }
  }

  lemma UnionThree(a: string, b: string, c: string)
    ensures {a} + {b, c} == {a, b, c}
  {
    forall x
      ensures x in {a} + {b, c} <==> x in {a, b, c}
    {
    }
  }

  /** Two users sharing one channel: it is shown, joined to both, at full size. */
  lemma SharedChannelShown()
    ensures var (persons, reg) := LoadUsers([Alice, Bob]);
            BuildNetworkGraph(persons, reg, DisplayDegreeOneDefault)
            == Built(Graph({"c1", "alice", "bob"}, {("alice", "c1"), ("bob", "c1")}, map["c1" := 24.0]))
  {
    LoadAliceBob();
    SharedGraph();
  }

  lemma SharedGraph()
    ensures BuildNetworkGraph([AliceNode, BobNode], [C1(["alice", "bob"])], false)
            == Built(Graph({"c1", "alice", "bob"}, {("alice", "c1"), ("bob", "c1")}, map["c1" := 24.0]))
  {
    var owners := ["alice", "bob"];
    var reg := [C1(owners)];
    assert Surviving(reg, false) == [0] by {
      SurvivingOne(owners, false);
    }
    assert MaxOwners(reg, [0]) == 2 && Sizes(reg, [0], 2) == map["c1" := 24.0] by {
      SizesOne(owners);
    }
    assert ChannelNodes(reg, [0]) + Names([AliceNode, BobNode]) == {"c1", "alice", "bob"} by {
      ChannelNodesOne(owners);
      NamesBoth();
      UnionThree("c1", "alice", "bob");
    }
    assert EdgesTo([AliceNode, BobNode], reg, [0]) == {("alice", "c1"), ("bob", "c1")} by {
      EdgesBoth(owners);
    }
  }

  /** One user with one channel: the channel has a single owner and the default graph is empty. */
  lemma LoneChannelHidden()
    ensures var (persons, reg) := LoadUsers([Alice]);
            BuildNetworkGraph(persons, reg, DisplayDegreeOneDefault) == Built(EmptyGraph)
  {
    LoadAlice();
    assert [C1(["alice"])][..0] == [];
    assert Surviving([C1(["alice"])], false) == [];
  }

  /** The same user with degree-one channels shown: the channel and the user, one edge. */
  lemma LoneChannelShownWhenAllDisplayed()
    ensures var (persons, reg) := LoadUsers([Alice]);
            BuildNetworkGraph(persons, reg, true)
            == Built(Graph({"c1", "alice"}, {("alice", "c1")}, map["c1" := 24.0]))
  {
    LoadAlice();
    AliceGraph();
  }

  lemma AliceGraph()
    ensures BuildNetworkGraph([AliceNode], [C1(["alice"])], true)
            == Built(Graph({"c1", "alice"}, {("alice", "c1")}, map["c1" := 24.0]))
  {
    var owners := ["alice"];
    var reg := [C1(owners)];
    assert Surviving(reg, true) == [0] by {
      SurvivingOne(owners, true);
    }
    assert MaxOwners(reg, [0]) == 1 && Sizes(reg, [0], 1) == map["c1" := 24.0] by {
      SizesOne(owners);
    }
    assert ChannelNodes(reg, [0]) + Names([AliceNode]) == {"c1", "alice"} by {
      ChannelNodesOne(owners);
      NamesAlice();
      UnionTwo("c1", "alice");
    }
    assert EdgesTo([AliceNode], reg, [0]) == {("alice", "c1")} by {
      EdgesAlice(owners);
    }
  }

  /** No users: no channels, and an empty graph whatever the flag. */
  lemma NoUsers(displayDegreeOne: bool)
    ensures LoadUsers([]) == ([], [])
    ensures BuildNetworkGraph([], [], displayDegreeOne) == Built(EmptyGraph)
  {
  }
}
