/**
 Properties of entity resolution that relate many rows or many users: how
 many owners each channel ends up with, which row a channel's details come
 from, and how many channels the registry gains.
 */
module ResolverFacts {
  import opened Resolver

  /** Under unique ids, being the first channel with an id is just having that id. */
  lemma FirstWithUnique(reg: Registry, i: nat, id: string)
    requires UniqueIds(reg) && i < |reg|
    ensures IsFirstWith(reg, i, id) <==> reg[i].id == id
  {
  }

  lemma CountRowsSplit(rows: seq<Row>, id: string)
    requires rows != []
    ensures CountRows(rows, id) == (if rows[0].channelId == id then 1 else 0) + CountRows(rows[1..], id)
  {
  }

  lemma RepeatCons(x: string, n: nat)
    ensures [x] + Repeat(x, n) == Repeat(x, n + 1)
  {
  }

  /**
   Going from registry `before` to `after` while processing `rows` for the
   person `name` kept every channel's old owners and appended the name once
   per row naming the channel; channels not in `before` started with none.
   */
  predicate OwnersAfter(before: Registry, after: Registry, name: string, rows: seq<Row>) {
    && |before| <= |after|
    && forall i :: 0 <= i < |after| ==>
         after[i].owners == (if i < |before| then before[i].owners else []) + Repeat(name, CountRows(rows, after[i].id))
  }

  lemma OwnersAfterNothing(reg: Registry, name: string)
    ensures OwnersAfter(reg, reg, name, [])
  {
    assert forall i :: 0 <= i < |reg| ==> reg[i].owners + Repeat(name, 0) == reg[i].owners;
  }

  /** One row adds one owner to the channel with its id, and nothing to the others. */
  lemma AddRowOwners(p: Person, reg: Registry, row: Row)
    requires UniqueIds(reg)
    ensures OwnersAfter(reg, AddRow(p, reg, row).1, p.name, [row])
  {
    var reg' := AddRow(p, reg, row).1;
    forall i | 0 <= i < |reg'|
      ensures reg'[i].owners == (if i < |reg| then reg[i].owners else []) + Repeat(p.name, CountRows([row], reg'[i].id))
    {
      assert CountRows([row], reg'[i].id) == if row.channelId == reg'[i].id then 1 else 0;
      if i < |reg| {
        FirstWithUnique(reg, i, row.channelId);
      }
    }
  }

  /** Owner growth over one row and then over the remaining rows is owner growth over all of them. */
  lemma OwnersCompose(a: Registry, b: Registry, c: Registry, name: string, rows: seq<Row>)
    requires rows != []
    requires OwnersAfter(a, b, name, [rows[0]]) && OwnersAfter(b, c, name, rows[1..])
    requires forall i :: 0 <= i < |b| ==> c[i].id == b[i].id
    requires UniqueIds(c) && rows[0].channelId in Ids(b)
    ensures OwnersAfter(a, c, name, rows)
  {
    forall i | 0 <= i < |c|
      ensures c[i].owners == (if i < |a| then a[i].owners else []) + Repeat(name, CountRows(rows, c[i].id))
    {
      var id := c[i].id;
      var first := CountRows([rows[0]], id);
      var rest := CountRows(rows[1..], id);
      assert [rows[0]][1..] == [];
      CountRowsSplit([rows[0]], id);
      CountRowsSplit(rows, id);
      if i >= |b| {
        var j :| 0 <= j < |b| && b[j].id == rows[0].channelId;
        assert c[j].id == rows[0].channelId;
        assert first == 0;
      } else {
        assert b[i].id == id;
        assert Repeat(name, first) + Repeat(name, rest) == Repeat(name, first + rest);
        assert c[i].owners == (if i < |a| then a[i].owners else []) + Repeat(name, first) + Repeat(name, rest);
      }
    }
  }

  /**
   After `generateChannels`, a channel's owner list is what it was, followed
   by the person's name once for every row that names the channel's id.
   */
  lemma {:induction false} GenerateOwners(p: Person, rows: seq<Row>, reg: Registry)
    requires UniqueIds(reg)
    ensures OwnersAfter(reg, GenerateChannels(p, rows, reg).1, p.name, rows)
    decreases |rows|
  {
    if rows == [] {
      OwnersAfterNothing(reg, p.name);
    } else {
      var step := AddRow(p, reg, rows[0]);
      var reg' := GenerateChannels(step.0, rows[1..], step.1).1;
      GenerateOwners(step.0, rows[1..], step.1);
      FirstRowReady(p, rows, reg);
      OwnersCompose(reg, step.1, reg', p.name, rows);
      GenerateUnfold(p, rows, reg);
    }
  }

  /** The facts about the first row and the rest that composing owner growth needs. */
  lemma FirstRowReady(p: Person, rows: seq<Row>, reg: Registry)
    requires rows != [] && UniqueIds(reg)
    ensures var step := AddRow(p, reg, rows[0]);
            var reg' := GenerateChannels(step.0, rows[1..], step.1).1;
            && OwnersAfter(reg, step.1, p.name, [rows[0]])
            && (forall i :: 0 <= i < |step.1| ==> reg'[i].id == step.1[i].id)
            && UniqueIds(reg') && rows[0].channelId in Ids(step.1)
  {
    AddRowOwners(p, reg, rows[0]);
  }

  lemma GenerateUnfold(p: Person, rows: seq<Row>, reg: Registry)
    requires rows != []
    ensures GenerateChannels(p, rows, reg)
            == GenerateChannels(AddRow(p, reg, rows[0]).0, rows[1..], AddRow(p, reg, rows[0]).1)
  {
  }

  /** The position of the first row naming the id, if any. */
  function FirstRowWith(rows: seq<Row>, id: string): (r: Optional.Option<nat>)
    ensures r.Some? <==> id in RowIds(rows)
    ensures r.Some? ==> r.value < |rows| && rows[r.value].channelId == id
                        && forall j :: 0 <= j < r.value ==> rows[j].channelId != id
  {
    if rows == [] then Optional.None
    else if rows[0].channelId == id then Optional.Some(0)
    else
      RowIdsSplit(rows);
      match FirstRowWith(rows[1..], id)
      case Some(k) => assert rows[1..][k] == rows[k + 1]; Optional.Some(k + 1)
      case None => Optional.None
  }

  /** Every channel of `after` beyond `before` carries the details of the first row naming its id. */
  predicate CreatedFromFirstRow(before: Registry, after: Registry, rows: seq<Row>) {
    && |before| <= |after|
    && forall i :: |before| <= i < |after| ==>
         && FirstRowWith(rows, after[i].id).Some?
         && SameDetails(after[i], NewChannel(rows[FirstRowWith(rows, after[i].id).value]))
  }

  lemma AddRowFirst(p: Person, reg: Registry, row: Row)
    ensures CreatedFromFirstRow(reg, AddRow(p, reg, row).1, [row])
  {
  }

  lemma FirstRowCompose(a: Registry, b: Registry, c: Registry, rows: seq<Row>)
    requires rows != []
    requires CreatedFromFirstRow(a, b, [rows[0]]) && CreatedFromFirstRow(b, c, rows[1..])
    requires forall i :: 0 <= i < |b| ==> SameDetails(c[i], b[i])
    requires UniqueIds(c) && rows[0].channelId in Ids(b)
    ensures CreatedFromFirstRow(a, c, rows)
  {
    forall i | |a| <= i < |c|
      ensures FirstRowWith(rows, c[i].id).Some?
      ensures SameDetails(c[i], NewChannel(rows[FirstRowWith(rows, c[i].id).value]))
    {
      var id := c[i].id;
      if i < |b| {
        assert FirstRowWith([rows[0]], b[i].id).Some?;
        assert id == rows[0].channelId;
      } else {
        var j :| 0 <= j < |b| && b[j].id == rows[0].channelId;
        assert c[j].id == rows[0].channelId;
        var k := FirstRowWith(rows[1..], id).value;
        assert FirstRowWith(rows, id) == Optional.Some(k + 1);
      }
    }
  }

  /**
   A channel created during `generateChannels` carries the title, subscriber
   count, icon and first category field of the first row with its id; later
   rows with that id change only its owners.
   */
  lemma {:induction false} GenerateTakesFirstRow(p: Person, rows: seq<Row>, reg: Registry)
    requires UniqueIds(reg)
    ensures CreatedFromFirstRow(reg, GenerateChannels(p, rows, reg).1, rows)
    decreases |rows|
  {
    var reg' := GenerateChannels(p, rows, reg).1;
    if rows != [] {
      var step := AddRow(p, reg, rows[0]);
      assert reg' == GenerateChannels(step.0, rows[1..], step.1).1;
      GenerateTakesFirstRow(step.0, rows[1..], step.1);
      AddRowFirst(p, reg, rows[0]);
      FirstRowCompose(reg, step.1, reg', rows);
    }
  }

  /** A registry without repeated ids has as many channels as ids. */
  lemma {:induction false} UniqueIdsCount(reg: Registry)
    requires UniqueIds(reg)
    ensures |Ids(reg)| == |reg|
  {
    if reg != [] {
      var front := reg[..|reg| - 1];
      UniqueIdsCount(front);
      assert reg == front + [reg[|reg| - 1]];
      IdsAppend(front, reg[|reg| - 1]);
      assert reg[|reg| - 1].id !in Ids(front);
    }
  }

  /**
   `generateChannels` appends exactly one channel per id it had not seen: a
   row whose id is already registered reuses that channel.
   */
  lemma GenerateAppendsUnseenIds(p: Person, rows: seq<Row>, reg: Registry)
    requires UniqueIds(reg)
    ensures |GenerateChannels(p, rows, reg).1| == |reg| + |RowIds(rows) - Ids(reg)|
  {
    var reg' := GenerateChannels(p, rows, reg).1;
    GrowthByNewIds(reg, reg', RowIds(rows));
  }

  /** A registry grown without repeated ids by a set of ids gains one channel per id that was new. */
  lemma GrowthByNewIds(reg: Registry, reg': Registry, added: set<string>)
    requires UniqueIds(reg) && UniqueIds(reg') && Ids(reg') == Ids(reg) + added
    ensures |reg'| == |reg| + |added - Ids(reg)|
  {
    UniqueIdsCount(reg);
    UniqueIdsCount(reg');
    assert Ids(reg') == Ids(reg) + (added - Ids(reg));
    DisjointUnionSize(Ids(reg), added - Ids(reg));
  }

  lemma DisjointUnionSize(a: set<string>, b: set<string>)
    requires a !! b
    ensures |a + b| == |a| + |b|
  {
  }

  /** A row table that names an id counts at least one row for it. */
  lemma {:induction false} CountRowsPositive(rows: seq<Row>, id: string)
    ensures CountRows(rows, id) > 0 <==> id in RowIds(rows)
  {
    if rows != [] {
      CountRowsPositive(rows[1..], id);
      RowIdsSplit(rows);
    }
  }

  lemma {:induction false} AllRowIdsTotal(users: seq<UserTable>, id: string)
    ensures TotalRows(users, id) > 0 <==> id in AllRowIds(users)
  {
    if users != [] {
      AllRowIdsTotal(users[..|users| - 1], id);
      CountRowsPositive(users[|users| - 1].rows, id);
    }
  }

  lemma {:induction false} ExpectedOwnersLength(users: seq<UserTable>, id: string)
    ensures |ExpectedOwners(users, id)| == TotalRows(users, id)
  {
    if users != [] {
      ExpectedOwnersLength(users[..|users| - 1], id);
    }
  }

  /** Every channel's owners are the expected owners for the loaded users. */
  predicate OwnersLoaded(users: seq<UserTable>, reg: Registry) {
    forall i :: 0 <= i < |reg| ==> reg[i].owners == ExpectedOwners(users, reg[i].id)
  }

  lemma LoadOwnersStep(users: seq<UserTable>, before: Registry, after: Registry)
    requires users != []
    requires OwnersLoaded(users[..|users| - 1], before)
    requires OwnersAfter(before, after, users[|users| - 1].name, users[|users| - 1].rows)
    requires forall i :: 0 <= i < |before| ==> after[i].id == before[i].id
    requires UniqueIds(after) && Ids(before) == AllRowIds(users[..|users| - 1])
    ensures OwnersLoaded(users, after)
  {
    var front := users[..|users| - 1];
    forall i | 0 <= i < |after|
      ensures after[i].owners == ExpectedOwners(users, after[i].id)
    {
      var id := after[i].id;
      if i >= |before| {
        assert id !in Ids(before) by {
          forall j | 0 <= j < |before|
            ensures before[j].id != id
          {
            assert after[j].id == before[j].id;
          }
        }
        AllRowIdsTotal(front, id);
        ExpectedOwnersLength(front, id);
      }
    }
  }

  /**
   After loading every user, each channel's owners are the users' names, in
   load order, each once per row of that user naming the channel.
   */
  lemma {:induction false} LoadOwners(users: seq<UserTable>)
    ensures OwnersLoaded(users, LoadUsers(users).1)
  {
    if users != [] {
      var front := users[..|users| - 1];
      var u := users[|users| - 1];
      var prev := LoadUsers(front);
      LoadOwners(front);
      var newcomer := Person(u.name, u.color, []);
      var reg := GenerateChannels(newcomer, u.rows, prev.1).1;
      assert LoadUsers(users).1 == reg;
      GenerateOwners(newcomer, u.rows, prev.1);
      LoadOwnersStep(users, prev.1, reg);
    }
  }

  /** Each channel has one owner per row naming its id over all tables, and so at least one. */
  predicate OwnedOncePerRow(users: seq<UserTable>, reg: Registry) {
    forall i :: 0 <= i < |reg| ==> |reg[i].owners| == TotalRows(users, reg[i].id) >= 1
  }

  /**
   After loading, a channel's owner count is the number of rows naming its
   id over all users' tables, duplicates included, and so at least one.
   */
  lemma LoadOwnerCounts(users: seq<UserTable>)
    ensures OwnedOncePerRow(users, LoadUsers(users).1)
  {
    var reg := LoadUsers(users).1;
    LoadOwners(users);
    forall i | 0 <= i < |reg|
      ensures |reg[i].owners| == TotalRows(users, reg[i].id) >= 1
    {
      ExpectedOwnersLength(users, reg[i].id);
      assert reg[i].id in Ids(reg);
      AllRowIdsTotal(users, reg[i].id);
    }
  }
}
