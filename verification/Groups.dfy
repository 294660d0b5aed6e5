/** Reading a tab: its groups, each with the fields it lists, in display order. */
module Groups {
  import opened Prelude
  import opened Tab
  import opened WaiterLog
  import opened Discovery
  import opened FakeDevice
  import opened Enumeration
  import F32

  // ----- a group's field ids

  /** What a reply lists: a field index is two bytes; one past 255 is left out. */
  function ListedIn(menu: Menu, r: Option<Bytes>): seq<FieldId> {
    var w := WordAt4(r);
    if w.Some? && w.value < 256 then [FieldIdOf(menu, w.value)] else []
  }

  /** The ids the replies list, in position order. */
  function Listed(menu: Menu, replies: seq<Option<Bytes>>): seq<FieldId> {
    if replies == [] then []
    else Listed(menu, replies[..|replies| - 1]) + ListedIn(menu, replies[|replies| - 1])
  }

  lemma {:induction false} ListedOnTab(menu: Menu, replies: seq<Option<Bytes>>)
    ensures forall id :: id in Listed(menu, replies) ==> MenuOf(id) == menu && id == FieldIdOf(menu, IndexOf(id))
  {
    if replies != [] {
      ListedOnTab(menu, replies[..|replies| - 1]);
      var w := WordAt4(replies[|replies| - 1]);
      if w.Some? && w.value < 256 {
        FieldIdParts(menu, w.value);
      }
    }
  }

  function PositionTargets(addr: Addr, menu: Menu, g: byte, n: nat): (targets: seq<(Addr, Request)>)
    requires n <= 256
    ensures |targets| == n && Asks(targets)
    ensures forall i: byte :: i < n ==> targets[i] == (addr, GroupField(menu, g, i))
  {
    var targets := seq(n, i requires 0 <= i < n => (addr, GroupField(menu, g, i)));
    assert forall i, j :: 0 <= i < j < |targets| ==> targets[i].1.i != targets[j].1.i;
    targets
  }

  /** A group's field ids: whichever replies come late, they are the first occurrences among the answered
      positions, in position order. */
  method FieldIds(disc: Disc, addr: Addr, menu: Menu, g: byte, count: nat)
      returns (ids: seq<FieldId>, ghost replies: seq<Option<Bytes>>)
    requires disc.Valid() && count <= 256
    modifies disc, disc.waiter
    ensures disc.Valid() && Onward(old(disc.Now()), disc.Now())
    ensures Replied(disc.waiter, |old(disc.waiter.log)|, PositionTargets(addr, menu, g, count), replies, disc.retries)
    ensures Lost(PositionTargets(addr, menu, g, count), replies) <= disc.gaveUp
    ensures ids == FirstOccurrences(Listed(menu, replies))
  {
    var targets := PositionTargets(addr, menu, g, count);
    var rs := disc.AskEach(targets, disc.retries);
    replies := rs;
    ghost var now := disc.Now();
    ids := ListedIds(menu, rs);
  }

  /** The ids the replies list, each once. */
  method ListedIds(menu: Menu, rs: seq<Option<Bytes>>) returns (ids: seq<FieldId>)
    ensures ids == FirstOccurrences(Listed(menu, rs))
  {
    ids := [];
    for n := 0 to |rs|
      invariant ids == FirstOccurrences(Listed(menu, rs[..n]))
    {
      assert rs[..n + 1][..n] == rs[..n];
      var w := WordAt4(rs[n]);
      if w.Some? && w.value < 256 {
        var id := FieldIdOf(menu, w.value);
        OneMoreOccurrence(Listed(menu, rs[..n]), id);
        if id !in ids {
          ids := ids + [id];
        }
      } else {
        assert Listed(menu, rs[..n + 1]) == Listed(menu, rs[..n]);
      }
    }
    assert rs[..|rs|] == rs;
  }

  // ----- a group's shape

  /** The fields the device lists at the first `n` positions of a group. */
  function Positions(g: Group, menu: Menu, n: nat): seq<FieldId>
    requires n <= 256
  {
    if n == 0 then []
    else
      Positions(g, menu, n - 1) +
      match FieldAt(g, n - 1)
      case Some(index) => [FieldIdOf(menu, index)]
      case None => []
  }

  /** A group as the device describes it; none when it claims more fields than there are indices. */
  function ShapeSpec(s: Schema, catalog: Catalog, menu: Menu, g: byte): Option<GroupShape> {
    if (menu, g) !in s.groups then Some(GroupShape([], [], false))
    else
      var group := s.groups[(menu, g)];
      var count := F32.ToU32(CountBytes(group));
      if count > 256 then None
      else Some(GroupShape(StringSpec(s, catalog, group.nameSid), FirstOccurrences(Positions(group, menu, count)), true))
  }

  /** What a field-count reply says; a short one says there are none. */
  function CountIn(r: Bytes): nat {
    if |r| >= 8 then F32.ToU32(r[4..8]) else 0
  }

  /** One request to this device, with late replies or without: the reply is the device's own. */
  lemma OneTold(disc: Disc, s: Schema, r: Request, reply: Option<Bytes>, from: nat, tries: nat)
    requires Meets(disc, s) && !r.Value?
    requires Replied(disc.waiter, from, [(s.addr, r)], [reply], tries) && Lost([(s.addr, r)], [reply]) <= disc.gaveUp
    ensures AllAnswered(disc.gaveUp, s) ==> reply == Reply(s, r)
  {
    assert [(s.addr, r)][0] == (s.addr, r) && [reply][0] == reply;
    if reply.None? {
      assert Key(s.addr, r) in Lost([(s.addr, r)], [reply]);
    }
  }

  /** The name id of a group. */
  method GroupNameId(disc: Disc, addr: Addr, menu: Menu, g: byte, ghost s: Schema) returns (sid: Option<Word>)
    requires disc.Valid() && Meets(disc, s) && s.addr == addr
    modifies disc, disc.waiter
    ensures disc.Valid() && Onward(old(disc.Now()), disc.Now())
    ensures AllAnswered(disc.gaveUp, s) ==>
      sid == if (menu, g) in s.groups then Some(s.groups[(menu, g)].nameSid) else None
  {
    ghost var log := disc.waiter.log;
    var r := disc.ReqStd(addr, GroupInfo(menu, OP_GROUP_NAME, g));
    OneTold(disc, s, GroupInfo(menu, OP_GROUP_NAME, g), r, |log|, disc.retries);
    sid := WordAt4(r);
    if (menu, g) in s.groups {
      WordParts(s.groups[(menu, g)].nameSid);
    }
  }

  /** An answered request was sent at least once, and an unanswered one in full. */
  lemma SentFor(disc: Disc, from: nat, addr: Addr, r: Request, reply: Option<Bytes>)
    requires Replied(disc.waiter, from, [(addr, r)], [reply], disc.retries)
    ensures var t := TraceOf(disc.waiter.log, from, Key(addr, r));
      if reply.Some? then 0 < t.sends <= disc.retries else t.sends == disc.retries
  {
    assert [(addr, r)][0] == (addr, r) && [reply][0] == reply;
  }

  /** A group's field count, when it is answered. */
  method AskCount(disc: Disc, addr: Addr, menu: Menu, g: byte, ghost s: Schema) returns (count: Option<nat>)
    requires disc.Valid() && Meets(disc, s) && s.addr == addr
    modifies disc, disc.waiter
    ensures disc.Valid() && Onward(old(disc.Now()), disc.Now())
    ensures AllAnswered(disc.gaveUp, s) ==> count == CountSpec(s, menu, g)
    ensures var t := TraceOf(disc.waiter.log, |old(disc.waiter.log)|, Key(addr, GroupInfo(menu, OP_GROUP_COUNT, g)));
      if count.Some? then 0 < t.sends <= disc.retries else t.sends == disc.retries
  {
    ghost var log := disc.waiter.log;
    var r := disc.ReqPatient(addr, GroupInfo(menu, OP_GROUP_COUNT, g));
    OneTold(disc, s, GroupInfo(menu, OP_GROUP_COUNT, g), r, |log|, disc.retries);
    count := if r.Some? then Some(CountIn(r.value)) else None;
    SentFor(disc, |log|, addr, GroupInfo(menu, OP_GROUP_COUNT, g), r);
    CountRead(s, menu, g);
  }

  lemma CountRead(s: Schema, menu: Menu, g: byte)
    ensures var r := Reply(s, GroupInfo(menu, OP_GROUP_COUNT, g));
      CountSpec(s, menu, g) == if r.Some? then Some(CountIn(r.value)) else None
  {
    if (menu, g) in s.groups {
      var b := CountBytes(s.groups[(menu, g)]);
      assert ([OP_GROUP_COUNT, g, 0, 0] + b)[4..8] == b;
    }
  }

  function CountSpec(s: Schema, menu: Menu, g: byte): Option<nat> {
    if (menu, g) in s.groups then Some(F32.ToU32(CountBytes(s.groups[(menu, g)]))) else None
  }

  /** Whether the count is answered, and the count: one past 256 is asked for again. */
  method FieldCount(disc: Disc, addr: Addr, menu: Menu, g: byte, ghost s: Schema) returns (counted: bool, count: nat)
    requires disc.Valid() && Meets(disc, s) && s.addr == addr
    modifies disc, disc.waiter
    ensures disc.Valid() && Onward(old(disc.Now()), disc.Now())
    ensures AllAnswered(disc.gaveUp, s) ==>
      counted == CountSpec(s, menu, g).Some? && count == CountSpec(s, menu, g).GetOr(0)
    ensures !counted ==> count == 0
    // A count past 256 is believed only after it was asked for twice.
    ensures count > 256 ==>
      TraceOf(disc.waiter.log, |old(disc.waiter.log)|, Key(addr, GroupInfo(menu, OP_GROUP_COUNT, g))).sends >= 2
  {
    var first := AskCount(disc, addr, menu, g, s);
    counted := first.Some?;
    count := first.GetOr(0);
    if count > 256 {
      ghost var a := disc.Now();
      var again := AskCount(disc, addr, menu, g, s);
      count := again.GetOr(count);
      Later(a.log, disc.waiter.log, |old(disc.waiter.log)|, Key(addr, GroupInfo(menu, OP_GROUP_COUNT, g)));
      OnwardChain(old(disc.Now()), a, disc.Now());
      FewerGivenUp(a.gaveUp, disc.gaveUp, s);
    }
  }

  lemma {:induction false} PositionsTold(s: Schema, menu: Menu, g: byte, replies: seq<Option<Bytes>>)
    requires (menu, g) in s.groups && |replies| <= 256
    requires forall i: byte :: i < |replies| ==> replies[i] == Reply(s, GroupField(menu, g, i))
    ensures Listed(menu, replies) == Positions(s.groups[(menu, g)], menu, |replies|)
  {
    if replies != [] {
      PositionsTold(s, menu, g, replies[..|replies| - 1]);
      assert replies[|replies| - 1] == Reply(s, GroupField(menu, g, |replies| - 1));
    }
  }

  /** The field ids of a group, with the device on the other side. */
  method DeviceFieldIds(disc: Disc, addr: Addr, menu: Menu, g: byte, count: nat, ghost s: Schema)
      returns (ids: seq<FieldId>)
    requires disc.Valid() && Meets(disc, s) && s.addr == addr && count <= 256
    modifies disc, disc.waiter
    ensures disc.Valid() && Onward(old(disc.Now()), disc.Now())
    ensures count == 0 ==> ids == []
    ensures AllAnswered(disc.gaveUp, s) && (menu, g) in s.groups ==>
      ids == FirstOccurrences(Positions(s.groups[(menu, g)], menu, count))
  {
    ghost var log := disc.waiter.log;
    ghost var replies;
    ids, replies := FieldIds(disc, addr, menu, g, count);
    if AllAnswered(disc.gaveUp, s) && (menu, g) in s.groups {
      forall i: byte | i < |replies|
        ensures replies[i] == Reply(s, GroupField(menu, g, i))
      {
        PositionTold(disc, s, menu, g, count, replies, |log|, i);
      }
      PositionsTold(s, menu, g, replies);
    }
  }

  lemma PositionTold(disc: Disc, s: Schema, menu: Menu, g: byte, count: nat, replies: seq<Option<Bytes>>, from: nat,
                     i: byte)
    requires Meets(disc, s) && AllAnswered(disc.gaveUp, s) && i < count <= 256
    requires Replied(disc.waiter, from, PositionTargets(s.addr, menu, g, count), replies, disc.retries)
    requires Lost(PositionTargets(s.addr, menu, g, count), replies) <= disc.gaveUp
    ensures replies[i] == Reply(s, GroupField(menu, g, i))
  {
  }

  /** What is asked of a group before its fields: the id of its name, and its field count. */
  method GroupHead(disc: Disc, addr: Addr, menu: Menu, g: byte, ghost s: Schema)
      returns (sid: Option<Word>, counted: bool, count: nat)
    requires disc.Valid() && Meets(disc, s) && s.addr == addr
    modifies disc, disc.waiter
    ensures disc.Valid() && Onward(old(disc.Now()), disc.Now())
    ensures !counted ==> count == 0
    ensures AllAnswered(disc.gaveUp, s) ==>
      sid == (if (menu, g) in s.groups then Some(s.groups[(menu, g)].nameSid) else None) &&
      counted == CountSpec(s, menu, g).Some? && count == CountSpec(s, menu, g).GetOr(0)
  {
    sid := GroupNameId(disc, addr, menu, g, s);
    ghost var a := disc.Now();
    counted, count := FieldCount(disc, addr, menu, g, s);
    OnwardChain(old(disc.Now()), a, disc.Now());
    FewerGivenUp(a.gaveUp, disc.gaveUp, s);
  }

  /** A group's name, where it has one. */
  method GroupName(disc: Disc, addr: Addr, sid: Option<Word>, ghost s: Schema) returns (name: Bytes)
    requires disc.Valid() && Meets(disc, s) && s.addr == addr
    modifies disc, disc.waiter
    ensures disc.Valid() && Onward(old(disc.Now()), disc.Now())
    ensures AllAnswered(disc.gaveUp, s) ==> name == if sid.Some? then StringSpec(s, disc.catalog, sid.value) else []
  {
    name := [];
    if sid.Some? {
      name := DeviceString(disc, addr, sid.value, s);
    }
  }

  /** A group's name and field ids; none when it claims more fields than there are indices. */
  method ReadShape(disc: Disc, addr: Addr, menu: Menu, g: byte, ghost s: Schema) returns (shape: Option<GroupShape>)
    requires disc.Valid() && Meets(disc, s) && s.addr == addr
    modifies disc, disc.waiter
    ensures disc.Valid() && Onward(old(disc.Now()), disc.Now())
    ensures AllAnswered(disc.gaveUp, s) ==> shape == ShapeSpec(s, disc.catalog, menu, g)
  {
    ghost var a := disc.Now();
    var sid, counted, count := GroupHead(disc, addr, menu, g, s);
    if count > 256 {
      return None;
    }
    ghost var b := disc.Now();
    var ids := DeviceFieldIds(disc, addr, menu, g, count, s);
    ghost var c := disc.Now();
    OnwardChain(a, b, c);
    FewerGivenUp(b.gaveUp, c.gaveUp, s);
    var name := GroupName(disc, addr, sid, s);
    OnwardChain(a, c, disc.Now());
    FewerGivenUp(c.gaveUp, disc.gaveUp, s);
    shape := Some(GroupShape(name, ids, counted));
  }
}
