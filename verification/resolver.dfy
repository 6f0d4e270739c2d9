/**
 Entity resolution: each user's subscription rows are merged into one shared
 channel registry, so that a channel named by several users is one channel
 with several owners.

 The registry is a sequence that only ever grows by appending, so a channel's
 position in it is as stable as an object reference: a person's channel list
 holds positions (`ChannelRef`), and comparing two positions is comparing two
 channel objects by identity.
 */
module Resolver {
  import opened Optional

  /** One row of a user's subscription table. */
  datatype Row = Row(channelId: string, title: string, subscribers: Option<int>, thumbnail: string, category: string)

  /** A channel node; `owners` lists the name of the owning person once per row that named the channel. */
  datatype Channel = Channel(name: string, id: string, numSubs: Option<int>, category: string, icon: string, owners: seq<string>)

  /** A channel object, identified by its position in the registry. */
  type ChannelRef = nat

  type Registry = seq<Channel>

  /** A person node and the channels it subscribes to, in the order first seen. */
  datatype Person = Person(name: string, color: string, channels: seq<ChannelRef>)

  /** One user's table: the person's name and colour, and the rows read for it. */
  datatype UserTable = UserTable(name: string, color: string, rows: seq<Row>)

  /** Every field of a channel except its owners agrees. */
  predicate SameDetails(a: Channel, b: Channel) {
    a.name == b.name && a.id == b.id && a.numSubs == b.numSubs && a.category == b.category && a.icon == b.icon
  }

  predicate UniqueIds(reg: Registry) {
    forall i, j :: 0 <= i < j < |reg| ==> reg[i].id != reg[j].id
  }

  predicate NoDuplicates<T(==)>(s: seq<T>) {
    forall i, j :: 0 <= i < j < |s| ==> s[i] != s[j]
  }

  /** Every channel the person refers to is in the registry. */
  predicate RefsValid(p: Person, reg: Registry) {
    forall k :: 0 <= k < |p.channels| ==> p.channels[k] < |reg|
  }

  function Ids(reg: Registry): set<string> {
    set i | 0 <= i < |reg| :: reg[i].id
  }

  function RowIds(rows: seq<Row>): set<string> {
    set i | 0 <= i < |rows| :: rows[i].channelId
  }

  /** The ids of the channels a person refers to. */
  function RefIds(p: Person, reg: Registry): set<string>
    requires RefsValid(p, reg)
  {
    set k | 0 <= k < |p.channels| :: reg[p.channels[k]].id
  }

  /** The i-th channel is the first one in the registry with this id. */
  predicate IsFirstWith(reg: Registry, i: nat, id: string)
    requires i < |reg|
  {
    reg[i].id == id && forall j :: 0 <= j < i ==> reg[j].id != id
  }

  /** Number of rows naming the channel id, duplicates included. */
  function CountRows(rows: seq<Row>, id: string): nat {
    if rows == [] then 0
    else (if rows[0].channelId == id then 1 else 0) + CountRows(rows[1..], id)
  }

  function Repeat(x: string, n: nat): (r: seq<string>)
    ensures |r| == n && forall k :: 0 <= k < n ==> r[k] == x
  {
    seq(n, _ => x)
  }

  /** The first comma-separated field of a category (main.py:161): the text before the first comma, or all of it. */
  function FirstField(s: string): (r: string)
    ensures r <= s
    ensures ',' !in r
    ensures |r| < |s| ==> s[|r|] == ','
  {
    if s == [] || s[0] == ',' then [] else [s[0]] + FirstField(s[1..])
  }

  /** The lookup of main.py:152: the first registered channel with the id, if any. */
  function Find(reg: Registry, id: string): (r: Option<ChannelRef>)
    ensures r.Some? <==> id in Ids(reg)
    ensures r.Some? ==> r.value < |reg| && IsFirstWith(reg, r.value, id)
  {
    if reg == [] then None
    else if reg[0].id == id then Some(0)
    else match Find(reg[1..], id)
      case Some(i) => assert reg[1..][i] == reg[i + 1]; Some(i + 1)
      case None =>
        assert forall j :: 1 <= j < |reg| ==> reg[j] == reg[1..][j - 1];
        None
  }

  /** The channel created for the first row that names an unseen id. */
  function NewChannel(row: Row): (c: Channel)
    ensures c.id == row.channelId && c.name == row.title && c.numSubs == row.subscribers
    ensures c.icon == row.thumbnail && c.category == FirstField(row.category)
    ensures c.owners == []
  {
    Channel(row.title, row.channelId, row.subscribers, FirstField(row.category), row.thumbnail, [])
  }

  /** `Channel.addOwner`: one more owner at the end, no uniqueness check, nothing else changes. */
  function AddOwner(c: Channel, owner: string): (r: Channel)
    ensures SameDetails(r, c)
    ensures |r.owners| == |c.owners| + 1
    ensures r.owners[..|c.owners|] == c.owners && r.owners[|c.owners|] == owner
  {
    c.(owners := c.owners + [owner])
  }

  /** The channel object for a row: the first channel with the row's id, or a new one appended for it. */
  function Resolve(reg: Registry, row: Row): (r: (ChannelRef, Registry))
    ensures r.0 < |r.1| && r.1[r.0].id == row.channelId
    ensures reg <= r.1
    ensures row.channelId in Ids(reg) ==> r.1 == reg && IsFirstWith(reg, r.0, row.channelId)
    ensures row.channelId !in Ids(reg) ==> r.1 == reg + [NewChannel(row)]
    ensures Ids(r.1) == Ids(reg) + {row.channelId}
    ensures UniqueIds(reg) ==> UniqueIds(r.1)
  {
    match Find(reg, row.channelId)
    case Some(i) => (i, reg)
    case None =>
      IdsAppend(reg, NewChannel(row));
      (|reg|, reg + [NewChannel(row)])
  }

  /** Adds the channel to the person's list unless it is already there (main.py:166-167). */
  function Remember(p: Person, ref: ChannelRef): (r: Person)
    ensures r.name == p.name && r.color == p.color
    ensures p.channels <= r.channels && ref in r.channels
    ensures forall x :: x in r.channels <==> x in p.channels || x == ref
    ensures NoDuplicates(p.channels) ==> NoDuplicates(r.channels)
  {
    if ref in p.channels then p else p.(channels := p.channels + [ref])
  }

  /** The registry with one more owner added to the channel at `ref`. */
  function AddOwnerAt(reg: Registry, ref: ChannelRef, owner: string): (r: Registry)
    requires ref < |reg|
    ensures |r| == |reg|
    ensures forall i :: 0 <= i < |reg| ==> SameDetails(r[i], reg[i])
    ensures forall i :: 0 <= i < |reg| ==> r[i].owners == reg[i].owners + (if i == ref then [owner] else [])
  {
    reg[ref := AddOwner(reg[ref], owner)]
  }

  /**
   The registry side of one iteration of `generateChannels`: the row's channel,
   created if its id is unseen, gains the owner.
   */
  function RegisterRow(reg: Registry, row: Row, owner: string): (r: Registry)
    ensures |r| == if row.channelId in Ids(reg) then |reg| else |reg| + 1
    ensures forall i :: 0 <= i < |reg| ==> SameDetails(r[i], reg[i])
    ensures forall i :: 0 <= i < |reg| ==>
              r[i].owners == reg[i].owners + (if IsFirstWith(reg, i, row.channelId) then [owner] else [])
    ensures |r| > |reg| ==> SameDetails(r[|reg|], NewChannel(row)) && r[|reg|].owners == [owner]
    ensures Ids(r) == Ids(reg) + {row.channelId}
    ensures UniqueIds(reg) ==> UniqueIds(r)
  {
    var (ref, reg1) := Resolve(reg, row);
    var r := AddOwnerAt(reg1, ref, owner);
    assert forall i :: 0 <= i < |reg| ==> (i == ref <==> IsFirstWith(reg, i, row.channelId));
    IdsKept(reg1, r);
    r
  }

  /** One iteration of `generateChannels`: resolve the row's channel, remember it, add the owner. */
  function AddRow(p: Person, reg: Registry, row: Row): (r: (Person, Registry))
    ensures r.0.name == p.name && r.0.color == p.color
    ensures |r.1| == if row.channelId in Ids(reg) then |reg| else |reg| + 1
    ensures forall i :: 0 <= i < |reg| ==> SameDetails(r.1[i], reg[i])
    ensures forall i :: 0 <= i < |reg| ==>
              r.1[i].owners == reg[i].owners + (if IsFirstWith(reg, i, row.channelId) then [p.name] else [])
    ensures |r.1| > |reg| ==> SameDetails(r.1[|reg|], NewChannel(row)) && r.1[|reg|].owners == [p.name]
    ensures Ids(r.1) == Ids(reg) + {row.channelId}
    ensures UniqueIds(reg) ==> UniqueIds(r.1)
    ensures p.channels <= r.0.channels
    ensures NoDuplicates(p.channels) ==> NoDuplicates(r.0.channels)
    ensures RefsValid(p, reg) ==> RefsValid(r.0, r.1) && RefIds(r.0, r.1) == RefIds(p, reg) + {row.channelId}
  {
    var ref := Resolve(reg, row).0;
    var p1 := Remember(p, ref);
    var reg2 := RegisterRow(reg, row, p.name);
    assert reg2[ref].id == row.channelId && |reg| <= |reg2|;
    assert RefsValid(p, reg) ==> RefsValid(p1, reg2) && RefIds(p1, reg2) == RefIds(p, reg) + {row.channelId} by {
      if RefsValid(p, reg) {
        RefIdsKept(p, reg, reg2);
        if ref !in p.channels {
          RefIdsAppend(p, reg2, ref);
        } else {
          var k :| 0 <= k < |p.channels| && p.channels[k] == ref;
          assert row.channelId == reg2[p.channels[k]].id;
        }
      }
    }
    (p1, reg2)
  }

  lemma IdsAppend(reg: Registry, c: Channel)
    ensures Ids(reg + [c]) == Ids(reg) + {c.id}
  {
    var reg' := reg + [c];
    assert reg'[|reg|] == c;
    assert forall i :: 0 <= i < |reg| ==> reg'[i] == reg[i];
  }

  lemma RowIdsSplit(rows: seq<Row>)
    requires rows != []
    ensures RowIds(rows) == {rows[0].channelId} + RowIds(rows[1..])
  {
    assert forall i :: 1 <= i < |rows| ==> rows[i] == rows[1..][i - 1];
    forall x | x in RowIds(rows[1..])
      ensures x in RowIds(rows)
    {
      var i :| 0 <= i < |rows[1..]| && x == rows[1..][i].channelId;
      assert x == rows[i + 1].channelId;
    }
  }

  /** Changing only owners keeps the set of ids and their uniqueness. */
  lemma IdsKept(reg: Registry, reg': Registry)
    requires |reg| == |reg'| && forall i :: 0 <= i < |reg| ==> reg'[i].id == reg[i].id
    ensures Ids(reg') == Ids(reg)
    ensures UniqueIds(reg) ==> UniqueIds(reg')
  {
  }

  /** Ids of the referenced channels do not change when the registry only changes owners or grows. */
  lemma RefIdsKept(p: Person, reg: Registry, reg': Registry)
    requires RefsValid(p, reg) && |reg| <= |reg'|
    requires forall i :: 0 <= i < |reg| ==> reg'[i].id == reg[i].id
    ensures RefsValid(p, reg') && RefIds(p, reg') == RefIds(p, reg)
  {
    assert forall k :: 0 <= k < |p.channels| ==> reg'[p.channels[k]].id == reg[p.channels[k]].id;
  }

  lemma RefIdsAppend(p: Person, reg: Registry, ref: ChannelRef)
    requires RefsValid(p, reg) && ref < |reg|
    ensures RefsValid(p.(channels := p.channels + [ref]), reg)
    ensures RefIds(p.(channels := p.channels + [ref]), reg) == RefIds(p, reg) + {reg[ref].id}
  {
    var p1 := p.(channels := p.channels + [ref]);
    assert p1.channels[|p.channels|] == ref;
    forall x | x in RefIds(p1, reg)
      ensures x in RefIds(p, reg) + {reg[ref].id}
    {
      var k :| 0 <= k < |p1.channels| && x == reg[p1.channels[k]].id;
      if k < |p.channels| {
        assert p1.channels[k] == p.channels[k];
      }
    }
    forall x | x in RefIds(p, reg)
      ensures x in RefIds(p1, reg)
    {
      var k :| 0 <= k < |p.channels| && x == reg[p.channels[k]].id;
      assert p1.channels[k] == p.channels[k];
    }
  }

  lemma UnionChain(x: set<string>, y: set<string>, z: set<string>, a: set<string>, b: set<string>)
    requires y == x + a && z == y + b
    ensures z == x + (a + b)
  {
  }

  /** `Person.generateChannels`: the rows processed in order, threading the registry through. */
  function GenerateChannels(p: Person, rows: seq<Row>, reg: Registry): (r: (Person, Registry))
    ensures r.0.name == p.name && r.0.color == p.color
    ensures |reg| <= |r.1|
    ensures forall i :: 0 <= i < |reg| ==> SameDetails(r.1[i], reg[i])
    ensures Ids(r.1) == Ids(reg) + RowIds(rows)
    ensures UniqueIds(reg) ==> UniqueIds(r.1)
    ensures p.channels <= r.0.channels
    ensures NoDuplicates(p.channels) ==> NoDuplicates(r.0.channels)
    ensures RefsValid(p, reg) ==> RefsValid(r.0, r.1) && RefIds(r.0, r.1) == RefIds(p, reg) + RowIds(rows)
    decreases |rows|
  {
    if rows == [] then (p, reg)
    else
      var step := AddRow(p, reg, rows[0]);
      var rest := GenerateChannels(step.0, rows[1..], step.1);
      assert |reg| <= |step.1| <= |rest.1|;
      assert forall i :: 0 <= i < |reg| ==> SameDetails(rest.1[i], reg[i]) by {
        forall i | 0 <= i < |reg|
          ensures SameDetails(rest.1[i], reg[i])
        {
          assert SameDetails(step.1[i], reg[i]);
          assert SameDetails(rest.1[i], step.1[i]);
        }
      }
      assert RowIds(rows) == {rows[0].channelId} + RowIds(rows[1..]) by {
        RowIdsSplit(rows);
      }
      assert Ids(rest.1) == Ids(reg) + RowIds(rows) by {
        UnionChain(Ids(reg), Ids(step.1), Ids(rest.1), {rows[0].channelId}, RowIds(rows[1..]));
      }
      assert UniqueIds(reg) ==> UniqueIds(rest.1) by {
        if UniqueIds(reg) {
          assert UniqueIds(step.1);
        }
      }
      assert p.channels <= rest.0.channels by {
        assert p.channels <= step.0.channels <= rest.0.channels;
      }
      assert NoDuplicates(p.channels) ==> NoDuplicates(rest.0.channels) by {
        if NoDuplicates(p.channels) {
          assert NoDuplicates(step.0.channels);
        }
      }
      assert RefsValid(p, reg) ==> RefsValid(rest.0, rest.1) && RefIds(rest.0, rest.1) == RefIds(p, reg) + RowIds(rows) by {
        if RefsValid(p, reg) {
          UnionChain(RefIds(p, reg), RefIds(step.0, step.1), RefIds(rest.0, rest.1), {rows[0].channelId}, RowIds(rows[1..]));
        }
      }
      rest
  }

  /** A loaded person: no channel twice, and exactly the channels its rows name. */
  predicate Loaded(p: Person, reg: Registry, rows: seq<Row>) {
    NoDuplicates(p.channels) && RefsValid(p, reg) && RefIds(p, reg) == RowIds(rows)
  }

  /** The owners a channel should have after loading: each user's name once per row naming the id. */
  function ExpectedOwners(users: seq<UserTable>, id: string): seq<string> {
    if users == [] then []
    else
      var last := users[|users| - 1];
      ExpectedOwners(users[..|users| - 1], id) + Repeat(last.name, CountRows(last.rows, id))
  }

  /** Number of rows naming the id across all users' tables. */
  function TotalRows(users: seq<UserTable>, id: string): nat {
    if users == [] then 0
    else TotalRows(users[..|users| - 1], id) + CountRows(users[|users| - 1].rows, id)
  }

  function AllRowIds(users: seq<UserTable>): set<string> {
    if users == [] then {}
    else AllRowIds(users[..|users| - 1]) + RowIds(users[|users| - 1].rows)
  }

  /** One iteration of the loop of `load_users_from_csv`: a fresh person for the table, its rows merged. */
  function LoadUser(persons: seq<Person>, reg: Registry, u: UserTable): (r: (seq<Person>, Registry))
    ensures |r.0| == |persons| + 1 && r.0[..|persons|] == persons
    ensures r.0[|persons|].name == u.name && r.0[|persons|].color == u.color
    ensures Loaded(r.0[|persons|], r.1, u.rows)
    ensures |reg| <= |r.1|
    ensures forall i :: 0 <= i < |reg| ==> r.1[i].id == reg[i].id
    ensures Ids(r.1) == Ids(reg) + RowIds(u.rows)
    ensures UniqueIds(reg) ==> UniqueIds(r.1)
  {
    var newcomer := Person(u.name, u.color, []);
    var step := GenerateChannels(newcomer, u.rows, reg);
    assert RefIds(newcomer, reg) == {};
    (persons + [step.0], step.1)
  }

  /**
   The loop of `load_users_from_csv` without the file reading: users are
   processed in order against one registry that starts empty.
   */
  function LoadUsers(users: seq<UserTable>): (r: (seq<Person>, Registry))
    ensures |r.0| == |users|
    ensures forall k :: 0 <= k < |users| ==> r.0[k].name == users[k].name && r.0[k].color == users[k].color
    ensures UniqueIds(r.1)
    ensures Ids(r.1) == AllRowIds(users)
    ensures forall k :: 0 <= k < |users| ==> Loaded(r.0[k], r.1, users[k].rows)
  {
    if users == [] then ([], [])
    else
      var prev := LoadUsers(users[..|users| - 1]);
      var next := LoadUser(prev.0, prev.1, users[|users| - 1]);
      assert forall k :: 0 <= k < |users| ==>
               && next.0[k].name == users[k].name && next.0[k].color == users[k].color
               && Loaded(next.0[k], next.1, users[k].rows) by {
        forall k | 0 <= k < |users| - 1
          ensures next.0[k].name == users[k].name && next.0[k].color == users[k].color
          ensures Loaded(next.0[k], next.1, users[k].rows)
        {
          assert users[..|users| - 1][k] == users[k];
          assert next.0[k] == prev.0[k];
          RefIdsKept(prev.0[k], prev.1, next.1);
        }
      }
      next
  }
}
