/** Reading a whole tab, and what a complete read of it is. */
module Menus {
  import opened Prelude
  import opened Tab
  import opened WaiterLog
  import opened Discovery
  import opened FakeDevice
  import opened Enumeration
  import opened Groups
  import F32

  // ----- fields of a group

  /** The fields that have metadata, in the order of the ids. */
  function FieldsSpec(s: Schema, catalog: Catalog, ids: seq<FieldId>, wantEventable: bool): (fields: seq<FieldInfo>)
    ensures |fields| <= |ids|
  {
    if ids == [] then []
    else
      var n := |ids| - 1;
      var fields := FieldsSpec(s, catalog, ids[..n], wantEventable);
      match FieldSpec(s, catalog, MenuOf(ids[n]), IndexOf(ids[n]), wantEventable)
      case Some(f) => fields + [f]
      case None => fields
  }

  lemma FieldsNext(s: Schema, catalog: Catalog, ids: seq<FieldId>, wantEventable: bool, n: nat)
    requires n < |ids|
    ensures var fields := FieldsSpec(s, catalog, ids[..n], wantEventable);
      var f := FieldSpec(s, catalog, MenuOf(ids[n]), IndexOf(ids[n]), wantEventable);
      FieldsSpec(s, catalog, ids[..n + 1], wantEventable) == if f.Some? then fields + [f.value] else fields
  {
    assert ids[..n + 1][..n] == ids[..n];
  }

  function GroupSpec(s: Schema, catalog: Catalog, menu: Menu, g: byte, shape: GroupShape): GroupInfo {
    GroupListing(g, shape.name, menu, FieldsSpec(s, catalog, shape.fieldIds, menu == Monitoring))
  }

  /** Read the fields of a group. */
  method FinishGroup(disc: Disc, addr: Addr, menu: Menu, g: byte, shape: GroupShape, ghost s: Schema)
      returns (group: GroupInfo)
    requires disc.Valid() && Meets(disc, s) && s.addr == addr
    modifies disc, disc.waiter
    ensures disc.Valid() && Onward(old(disc.Now()), disc.Now())
    ensures AllAnswered(disc.gaveUp, s) ==> group == GroupSpec(s, disc.catalog, menu, g, shape)
  {
    // Only Monitoring fields can be eventable outputs.
    var wantEventable := menu == Monitoring;
    var fields := [];
    for n := 0 to |shape.fieldIds|
      invariant disc.Valid() && Onward(old(disc.Now()), disc.Now())
      invariant AllAnswered(disc.gaveUp, s) ==> fields == FieldsSpec(s, disc.catalog, shape.fieldIds[..n], wantEventable)
    {
      ghost var a := disc.Now();
      fields := FinishNext(disc, addr, shape.fieldIds, n, wantEventable, fields, s);
      OnwardChain(old(disc.Now()), a, disc.Now());
      FewerGivenUp(a.gaveUp, disc.gaveUp, s);
    }
    assert shape.fieldIds[..|shape.fieldIds|] == shape.fieldIds;
    group := GroupListing(g, shape.name, menu, fields);
  }

  /** Read one field of a group; one without metadata is left out. */
  method FinishNext(disc: Disc, addr: Addr, ids: seq<FieldId>, n: nat, wantEventable: bool, fields: seq<FieldInfo>,
                    ghost s: Schema) returns (more: seq<FieldInfo>)
    requires disc.Valid() && Meets(disc, s) && s.addr == addr && n < |ids|
    modifies disc, disc.waiter
    ensures disc.Valid() && Onward(old(disc.Now()), disc.Now())
    ensures AllAnswered(disc.gaveUp, s) && fields == FieldsSpec(s, disc.catalog, ids[..n], wantEventable) ==>
      more == FieldsSpec(s, disc.catalog, ids[..n + 1], wantEventable)
  {
    var f := EnumerateField(disc, addr, MenuOf(ids[n]), IndexOf(ids[n]), wantEventable, s);
    more := if f.Some? then fields + [f.value] else fields;
    FieldsNext(s, disc.catalog, ids, wantEventable, n);
  }

  // ----- a tab

  /** Whether a group is another again: the same name and the same fields. */
  predicate Repeats(shape: GroupShape, other: GroupShape) {
    shape.fieldIds != [] && shape.name == other.name && shape.fieldIds == other.fieldIds
  }

  function GroupsSelector(menu: Menu): byte {
    match menu
    case Monitoring => 0x02
    case Alarm => 0x08
    case History => 0x04
    case Configuration => 0x06
  }

  /** How far the groups of a tab have been read. */
  datatype Walk = Walk(groups: seq<GroupInfo>, complete: bool, prev: Option<GroupShape>, over: bool)

  const FRESH: Walk := Walk([], true, None, false)

  /** A walk goes on with a group of this shape. */
  function Extended(w: Walk, s: Schema, catalog: Catalog, menu: Menu, g: byte, shape: GroupShape): Walk {
    if w.prev.Some? && Repeats(shape, w.prev.value) then w.(over := true)
    else Walk(w.groups + [GroupSpec(s, catalog, menu, g, shape)], w.complete && shape.counted, Some(shape), false)
  }

  /** The walk after one more group. */
  function NextWalk(w: Walk, s: Schema, catalog: Catalog, menu: Menu, g: byte): Walk {
    if w.over then w
    else
      match ShapeSpec(s, catalog, menu, g)
      case None => w
      case Some(shape) => Extended(w, s, catalog, menu, g, shape)
  }

  function WalkTo(s: Schema, catalog: Catalog, menu: Menu, n: nat): Walk
    requires n <= 256
  {
    if n == 0 then FRESH else NextWalk(WalkTo(s, catalog, menu, n - 1), s, catalog, menu, n - 1)
  }

  lemma {:induction false} WalkStaysOver(s: Schema, catalog: Catalog, menu: Menu, n: nat, m: nat)
    requires n <= m <= 256 && WalkTo(s, catalog, menu, n).over
    ensures WalkTo(s, catalog, menu, m) == WalkTo(s, catalog, menu, n)
  {
    if n < m {
      WalkStaysOver(s, catalog, menu, n, m - 1);
    }
  }

  /** The count a device keeps for a tab's groups, by the selector it is asked for under. */
  function TabCount(s: Schema, menu: Menu): Word {
    match menu
    case Monitoring => At(s.groupCounts, 0x02, 0)
    case History => At(s.groupCounts, 0x04, 0)
    case Configuration => At(s.groupCounts, 0x06, 0)
    case Alarm => At(s.groupCounts, 0x08, 0)
  }

  /** How many groups the device says a tab has. */
  function TotalSpec(s: Schema, menu: Menu): Option<nat> {
    if s.muteCounts then None else Some(TabCount(s, menu))
  }

  function Shown(total: nat): nat {
    if total < 256 then total else 256
  }

  /** A tab as the device describes it: its groups, and whether every group said how many fields it has. */
  function MenuSpec(s: Schema, catalog: Catalog, menu: Menu): Option<(seq<GroupInfo>, bool)> {
    match TotalSpec(s, menu)
    case None => None
    case Some(total) =>
      var w := WalkTo(s, catalog, menu, Shown(total));
      Some((w.groups, w.complete))
  }

  /** A selector's value: `None` unanswered, `Some(None)` refused. */
  method Selector(disc: Disc, addr: Addr, selector: byte, ghost s: Schema) returns (r: Option<Option<Word>>)
    requires disc.Valid() && Meets(disc, s) && s.addr == addr
    modifies disc, disc.waiter
    ensures disc.Valid() && Onward(old(disc.Now()), disc.Now())
    ensures AllAnswered(disc.gaveUp, s) ==> r == SelectorValue(DeviceReply(s, OP_SELECTOR, selector))
  {
    ghost var log := disc.waiter.log;
    var reply := disc.ReqStd(addr, Device(OP_SELECTOR, selector));
    OneTold(disc, s, Device(OP_SELECTOR, selector), reply, |log|, disc.retries);
    r := SelectorValue(reply);
  }

  function SelectorValue(reply: Option<Bytes>): Option<Option<Word>> {
    match reply
    case None => None
    case Some(r) => Some(if |r| >= 4 then Some(U16(r[2], r[3])) else None)
  }

  /** The number of groups on a tab; `None` when the device did not answer. */
  method GroupTotal(disc: Disc, addr: Addr, menu: Menu, ghost s: Schema) returns (total: Option<nat>)
    requires disc.Valid() && Meets(disc, s) && s.addr == addr
    modifies disc, disc.waiter
    ensures disc.Valid() && Onward(old(disc.Now()), disc.Now())
    ensures AllAnswered(disc.gaveUp, s) ==> total == TotalSpec(s, menu)
  {
    var r := Selector(disc, addr, GroupsSelector(menu), s);
    total := if r.Some? then r.value else None;
    TotalTold(s, menu);
  }

  lemma CountReply(s: Schema, selector: byte)
    requires selector < 0x19
    ensures var n := At(s.groupCounts, selector, 0);
      DeviceReply(s, OP_SELECTOR, selector) ==
      if s.muteCounts then None else Some([OP_SELECTOR, selector, Lo(n), Hi(n)])
  {
  }

  lemma WordReply(op: byte, n: byte, w: Word)
    ensures SelectorValue(Some([op, n, Lo(w), Hi(w)])) == Some(Some(w))
  {
    WordParts(w);
  }

  lemma TotalTold(s: Schema, menu: Menu)
    ensures SelectorValue(DeviceReply(s, OP_SELECTOR, GroupsSelector(menu))) ==
      if TotalSpec(s, menu).Some? then Some(TotalSpec(s, menu)) else None
  {
    CountReply(s, GroupsSelector(menu));
    WordReply(OP_SELECTOR, GroupsSelector(menu), At(s.groupCounts, GroupsSelector(menu), 0));
  }

  /** A tab's groups, and whether every group's field count was answered; `None` when the number of groups
      was not. */
  method EnumerateMenu(disc: Disc, addr: Addr, menu: Menu, ghost s: Schema)
      returns (found: Option<(seq<GroupInfo>, bool)>)
    requires disc.Valid() && Meets(disc, s) && s.addr == addr
    modifies disc, disc.waiter
    ensures disc.Valid() && Onward(old(disc.Now()), disc.Now())
    ensures AllAnswered(disc.gaveUp, s) ==> found == MenuSpec(s, disc.catalog, menu)
  {
    var total := GroupTotal(disc, addr, menu, s);
    if total.None? {
      return None;
    }
    ghost var a := disc.Now();
    var groups, complete := ReadGroups(disc, addr, menu, Shown(total.value), s);
    OnwardChain(old(disc.Now()), a, disc.Now());
    FewerGivenUp(a.gaveUp, disc.gaveUp, s);
    found := Some((groups, complete));
  }

  /** Read the first `count` groups of a tab, up to one that repeats the one before it. */
  method ReadGroups(disc: Disc, addr: Addr, menu: Menu, count: nat, ghost s: Schema)
      returns (groups: seq<GroupInfo>, complete: bool)
    requires disc.Valid() && Meets(disc, s) && s.addr == addr && count <= 256
    modifies disc, disc.waiter
    ensures disc.Valid() && Onward(old(disc.Now()), disc.Now())
    ensures AllAnswered(disc.gaveUp, s) ==>
      var w := WalkTo(s, disc.catalog, menu, count); groups == w.groups && complete == w.complete
  {
    var w := FRESH;
    var g := 0;
    while g < count && !w.over
      invariant disc.Valid() && Onward(old(disc.Now()), disc.Now()) && 0 <= g <= count
      invariant AllAnswered(disc.gaveUp, s) ==> w == WalkTo(s, disc.catalog, menu, g)
    {
      ghost var a := disc.Now();
      w := ReadGroup(disc, addr, menu, g, w, s);
      OnwardChain(old(disc.Now()), a, disc.Now());
      FewerGivenUp(a.gaveUp, disc.gaveUp, s);
      g := g + 1;
    }
    if AllAnswered(disc.gaveUp, s) && w.over {
      WalkStaysOver(s, disc.catalog, menu, g, count);
    }
    groups, complete := w.groups, w.complete;
  }

  /** Read one group; one that repeats the group before it ends the tab. */
  method ReadGroup(disc: Disc, addr: Addr, menu: Menu, g: byte, w: Walk, ghost s: Schema) returns (next: Walk)
    requires disc.Valid() && Meets(disc, s) && s.addr == addr && !w.over
    modifies disc, disc.waiter
    ensures disc.Valid() && Onward(old(disc.Now()), disc.Now())
    ensures AllAnswered(disc.gaveUp, s) ==> next == NextWalk(w, s, disc.catalog, menu, g)
  {
    var shape := ReadShape(disc, addr, menu, g, s);
    if shape.None? {
      return w;
    }
    if w.prev.Some? && Repeats(shape.value, w.prev.value) {
      return w.(over := true);
    }
    ghost var a := disc.Now();
    var group := FinishGroup(disc, addr, menu, g, shape.value, s);
    OnwardChain(old(disc.Now()), a, disc.Now());
    FewerGivenUp(a.gaveUp, disc.gaveUp, s);
    next := Walk(w.groups + [group], w.complete && shape.value.counted, shape, false);
  }

  // ----- what that is, for a well-formed device

  /** A tab whose groups can all be read: at most 256 of them, each known, with at most 256 fields, and
      claiming no other number of them. */
  predicate WellFormed(s: Schema, menu: Menu) {
    !s.muteCounts && TabCount(s, menu) <= 256 &&
    forall g: byte :: g < TabCount(s, menu) ==> Readable(s, menu, g)
  }

  predicate Readable(s: Schema, menu: Menu, g: byte) {
    (menu, g) in s.groups && s.groups[(menu, g)].claimed.None? && |s.groups[(menu, g)].fields| <= 256
  }

  function GroupAt(s: Schema, menu: Menu, g: nat): Group {
    if g < 256 && (menu, g) in s.groups then s.groups[(menu, g)] else FieldGroup(0, [], None)
  }

  function IdsAt(group: Group, menu: Menu, n: nat): (ids: seq<FieldId>)
    requires n <= |group.fields|
    ensures |ids| == n && forall i :: 0 <= i < n ==> ids[i] == FieldIdOf(menu, group.fields[i])
  {
    seq(n, i requires 0 <= i < n => FieldIdOf(menu, group.fields[i]))
  }

  /** A group's field ids in display order, each once. */
  function DisplayIds(group: Group, menu: Menu): seq<FieldId> {
    FirstOccurrences(IdsAt(group, menu, |group.fields|))
  }

  function ShapeAsDisplayed(s: Schema, catalog: Catalog, menu: Menu, g: nat): GroupShape {
    var group := GroupAt(s, menu, g);
    GroupShape(StringSpec(s, catalog, group.nameSid), DisplayIds(group, menu), true)
  }

  /** A group as displayed: its name from the string table, and its fields with metadata in display order. */
  function GroupAsDisplayed(s: Schema, catalog: Catalog, menu: Menu, g: byte): GroupInfo {
    GroupSpec(s, catalog, menu, g, ShapeAsDisplayed(s, catalog, menu, g))
  }

  function GroupsAsDisplayed(s: Schema, catalog: Catalog, menu: Menu, n: nat): (groups: seq<GroupInfo>)
    requires n <= 256
    ensures |groups| == n && forall i :: 0 <= i < n ==> groups[i] == GroupAsDisplayed(s, catalog, menu, i)
  {
    seq(n, i requires 0 <= i < n => GroupAsDisplayed(s, catalog, menu, i))
  }

  /** Two neighbouring groups look the same: the same name, the same fields, and some fields. */
  predicate LooksLikeBefore(s: Schema, catalog: Catalog, menu: Menu, g: nat)
    requires g > 0
  {
    var group, before := GroupAt(s, menu, g), GroupAt(s, menu, g - 1);
    group.fields != [] && DisplayIds(group, menu) == DisplayIds(before, menu) &&
    StringSpec(s, catalog, group.nameSid) == StringSpec(s, catalog, before.nameSid)
  }

  lemma {:induction false} PositionsAre(group: Group, menu: Menu, n: nat)
    requires group.claimed.None? && n <= |group.fields| <= 256
    ensures Positions(group, menu, n) == IdsAt(group, menu, n)
  {
    if n > 0 {
      PositionsAre(group, menu, n - 1);
    }
  }

  lemma ShapeIs(s: Schema, catalog: Catalog, menu: Menu, g: byte)
    requires Readable(s, menu, g)
    ensures ShapeSpec(s, catalog, menu, g) == Some(ShapeAsDisplayed(s, catalog, menu, g))
  {
    var group := s.groups[(menu, g)];
    F32.CountRoundTrip(|group.fields|);
    PositionsAre(group, menu, |group.fields|);
  }

  /** The first of `n` groups that looks like the one before it, or `n`. */
  function FirstLike(s: Schema, catalog: Catalog, menu: Menu, n: nat): (g: nat)
    ensures g <= n
    ensures forall i | 0 < i < g :: !LooksLikeBefore(s, catalog, menu, i)
    ensures g < n ==> g > 0 && LooksLikeBefore(s, catalog, menu, g)
  {
    if n == 0 then 0
    else
      var g := FirstLike(s, catalog, menu, n - 1);
      if g < n - 1 then g
      else if n > 1 && LooksLikeBefore(s, catalog, menu, n - 1) then n - 1
      else n
  }

  lemma LikeIsRepeat(s: Schema, catalog: Catalog, menu: Menu, g: byte)
    requires g > 0
    ensures Repeats(ShapeAsDisplayed(s, catalog, menu, g), ShapeAsDisplayed(s, catalog, menu, g - 1)) <==>
      LooksLikeBefore(s, catalog, menu, g)
  {
  }

  lemma GroupsNext(s: Schema, catalog: Catalog, menu: Menu, n: nat)
    requires 0 < n <= 256
    ensures GroupsAsDisplayed(s, catalog, menu, n) ==
      GroupsAsDisplayed(s, catalog, menu, n - 1) + [GroupAsDisplayed(s, catalog, menu, n - 1)]
  {
  }

  /** A walk that has read `last` groups as displayed. */
  function WalkedTo(s: Schema, catalog: Catalog, menu: Menu, last: nat, over: bool): Walk
    requires last <= 256
  {
    Walk(GroupsAsDisplayed(s, catalog, menu, last), true,
         if last == 0 then None else Some(ShapeAsDisplayed(s, catalog, menu, last - 1)), over)
  }

  lemma NextIsExtended(w: Walk, s: Schema, catalog: Catalog, menu: Menu, g: byte, shape: GroupShape)
    requires !w.over && ShapeSpec(s, catalog, menu, g) == Some(shape)
    ensures NextWalk(w, s, catalog, menu, g) == Extended(w, s, catalog, menu, g, shape)
  {
  }

  lemma ExtendedRepeats(s: Schema, catalog: Catalog, menu: Menu, g: byte)
    requires g > 0 && LooksLikeBefore(s, catalog, menu, g)
    ensures Extended(WalkedTo(s, catalog, menu, g, false), s, catalog, menu, g, ShapeAsDisplayed(s, catalog, menu, g))
         == WalkedTo(s, catalog, menu, g, true)
  {
    LikeIsRepeat(s, catalog, menu, g);
  }

  lemma ExtendedOn(s: Schema, catalog: Catalog, menu: Menu, g: byte)
    requires g == 0 || !LooksLikeBefore(s, catalog, menu, g)
    ensures Extended(WalkedTo(s, catalog, menu, g, false), s, catalog, menu, g, ShapeAsDisplayed(s, catalog, menu, g))
         == WalkedTo(s, catalog, menu, g + 1, false)
  {
    if g > 0 {
      LikeIsRepeat(s, catalog, menu, g);
    }
    GroupsNext(s, catalog, menu, g + 1);
  }

  lemma WalkStep(s: Schema, catalog: Catalog, menu: Menu, g: byte)
    requires Readable(s, menu, g)
    ensures NextWalk(WalkedTo(s, catalog, menu, g, false), s, catalog, menu, g) ==
      if g > 0 && LooksLikeBefore(s, catalog, menu, g) then WalkedTo(s, catalog, menu, g, true)
      else WalkedTo(s, catalog, menu, g + 1, false)
  {
    ShapeIs(s, catalog, menu, g);
    NextIsExtended(WalkedTo(s, catalog, menu, g, false), s, catalog, menu, g, ShapeAsDisplayed(s, catalog, menu, g));
    if g > 0 && LooksLikeBefore(s, catalog, menu, g) {
      ExtendedRepeats(s, catalog, menu, g);
    } else {
      ExtendedOn(s, catalog, menu, g);
    }
  }

  /** The walk over a well-formed tab: the groups so far as displayed, up to one that looks like the one before. */
  lemma {:induction false} WalkReads(s: Schema, catalog: Catalog, menu: Menu, n: nat)
    requires n <= 256 && forall g: byte :: g < n ==> Readable(s, menu, g)
    ensures var last := FirstLike(s, catalog, menu, n);
      WalkTo(s, catalog, menu, n) == WalkedTo(s, catalog, menu, last, last < n)
  {
    if n > 0 {
      WalkReads(s, catalog, menu, n - 1);
      WalkReadsOn(s, catalog, menu, n, WalkTo(s, catalog, menu, n - 1));
    }
  }

  lemma WalkReadsOn(s: Schema, catalog: Catalog, menu: Menu, n: nat, w: Walk)
    requires 0 < n <= 256 && Readable(s, menu, n - 1)
    requires var last := FirstLike(s, catalog, menu, n - 1); w == WalkedTo(s, catalog, menu, last, last < n - 1)
    ensures var last := FirstLike(s, catalog, menu, n);
      NextWalk(w, s, catalog, menu, n - 1) == WalkedTo(s, catalog, menu, last, last < n)
  {
    if FirstLike(s, catalog, menu, n - 1) == n - 1 {
      WalkStep(s, catalog, menu, n - 1);
    }
  }

  /** Every group of a well-formed tab is read, in order, each with exactly its fields that have metadata,
      exactly when no group looks like the one before it; else the read stops at the first that does. */
  lemma MenuIsRead(s: Schema, catalog: Catalog, menu: Menu)
    requires WellFormed(s, menu)
    ensures var total := TabCount(s, menu);
      var n := FirstLike(s, catalog, menu, total);
      MenuSpec(s, catalog, menu) == Some((GroupsAsDisplayed(s, catalog, menu, n), true)) &&
      (n == total <==> forall g | 0 < g < total :: !LooksLikeBefore(s, catalog, menu, g))
  {
    WalkReads(s, catalog, menu, TabCount(s, menu));
  }

  /** A group is skipped exactly when it claims more than 256 fields, and its count is missing exactly when the
      device does not know it. */
  lemma ShapeSkippedIff(s: Schema, catalog: Catalog, menu: Menu, g: byte)
    ensures ShapeSpec(s, catalog, menu, g).None? <==>
      (menu, g) in s.groups && F32.ToU32(CountBytes(s.groups[(menu, g)])) >= 257
    ensures ShapeSpec(s, catalog, menu, g).Some? ==>
      (ShapeSpec(s, catalog, menu, g).value.counted <==> (menu, g) in s.groups)
  {
  }

  /** Group `g` is taken into a walk: the walk is not over before it nor with it, and it is not skipped. */
  predicate IsTaken(s: Schema, catalog: Catalog, menu: Menu, g: byte) {
    !WalkTo(s, catalog, menu, g).over && !WalkTo(s, catalog, menu, g + 1).over && ShapeSpec(s, catalog, menu, g).Some?
  }

  predicate IsKnownOrPassed(s: Schema, catalog: Catalog, menu: Menu, g: byte) {
    IsTaken(s, catalog, menu, g) ==> (menu, g) in s.groups
  }

  lemma CompleteStep(s: Schema, catalog: Catalog, menu: Menu, g: byte)
    ensures WalkTo(s, catalog, menu, g + 1).complete <==>
      WalkTo(s, catalog, menu, g).complete && IsKnownOrPassed(s, catalog, menu, g)
  {
    ShapeSkippedIff(s, catalog, menu, g);
    CompleteNext(WalkTo(s, catalog, menu, g), s, catalog, menu, g);
    assert WalkTo(s, catalog, menu, g + 1) == NextWalk(WalkTo(s, catalog, menu, g), s, catalog, menu, g);
  }

  lemma CompleteNext(w: Walk, s: Schema, catalog: Catalog, menu: Menu, g: byte)
    ensures var next := NextWalk(w, s, catalog, menu, g);
      next.complete <==>
        w.complete && (!w.over && !next.over && ShapeSpec(s, catalog, menu, g).Some? ==>
                         ShapeSpec(s, catalog, menu, g).value.counted)
  {
  }

  /** A run of steps is good to its end exactly when every step was. */
  lemma {:induction false} GoodToTheEnd(good: seq<bool>, ok: seq<bool>)
    requires |good| == |ok| + 1 && good[0]
    requires forall i :: 0 <= i < |ok| ==> (good[i + 1] <==> good[i] && ok[i])
    ensures good[|ok|] <==> forall i :: 0 <= i < |ok| ==> ok[i]
  {
    if ok != [] {
      GoodToTheEnd(good[..|ok|], ok[..|ok| - 1]);
      assert forall i :: 0 <= i < |ok| - 1 ==> ok[i] == ok[..|ok| - 1][i];
      assert good[|ok| - 1 + 1] <==> good[|ok| - 1] && ok[|ok| - 1];
    }
  }

  /** A walk is complete exactly when the device knows every group that was taken into it. */
  lemma CompleteIff(s: Schema, catalog: Catalog, menu: Menu, n: nat)
    requires n <= 256
    ensures WalkTo(s, catalog, menu, n).complete <==> forall g: byte :: g < n ==> IsKnownOrPassed(s, catalog, menu, g)
  {
    var good := seq(n + 1, k requires 0 <= k <= 256 => WalkTo(s, catalog, menu, k).complete);
    var ok := seq(n, g requires 0 <= g < 256 => IsKnownOrPassed(s, catalog, menu, g));
    forall i | 0 <= i < n
      ensures good[i + 1] <==> good[i] && ok[i]
    {
      CompleteStep(s, catalog, menu, i);
    }
    GoodToTheEnd(good, ok);
    assert forall g: byte :: g < n ==> ok[g] == IsKnownOrPassed(s, catalog, menu, g);
  }

  /** The ids that have metadata, in their order. */
  function WithMetadata(s: Schema, ids: seq<FieldId>): seq<FieldId> {
    if ids == [] then []
    else WithMetadata(s, ids[..|ids| - 1]) + if ids[|ids| - 1] in s.meta then [ids[|ids| - 1]] else []
  }

  /** Some fields are those of these ids that have metadata, in their order, each as the device describes it. */
  predicate AreDescribed(s: Schema, catalog: Catalog, ids: seq<FieldId>, wantEventable: bool, fields: seq<FieldInfo>) {
    var listed := WithMetadata(s, ids);
    |fields| == |listed| &&
    forall i :: 0 <= i < |fields| ==>
      listed[i] in s.meta && IsOfField(s, catalog, listed[i], s.meta[listed[i]], wantEventable, fields[i])
  }

  lemma {:induction false} FieldsAreDescribed(s: Schema, catalog: Catalog, ids: seq<FieldId>, wantEventable: bool)
    requires forall i :: 0 <= i < |ids| ==> ids[i] == FieldIdOf(MenuOf(ids[i]), IndexOf(ids[i]))
    ensures AreDescribed(s, catalog, ids, wantEventable, FieldsSpec(s, catalog, ids, wantEventable))
  {
    if ids != [] {
      var n := |ids| - 1;
      FieldsAreDescribed(s, catalog, ids[..n], wantEventable);
      FieldIsDescribed(s, catalog, MenuOf(ids[n]), IndexOf(ids[n]), wantEventable);
    }
  }

  /** A group of a well-formed tab as it is read: its own id and tab, its name, and its fields in display order,
      each once and as the device describes it; only Monitoring fields can be eventable outputs. */
  lemma GroupIsDescribed(s: Schema, catalog: Catalog, menu: Menu, g: byte)
    requires Readable(s, menu, g)
    ensures var group, l := s.groups[(menu, g)], GroupAsDisplayed(s, catalog, menu, g);
      l.id == g && l.menu == menu && IsString(s, catalog, group.nameSid, l.name) &&
      AreDescribed(s, catalog, DisplayIds(group, menu), menu == Monitoring, l.fields)
  {
    var group := s.groups[(menu, g)];
    StringIs(s, catalog, group.nameSid);
    forall i | 0 <= i < |DisplayIds(group, menu)|
      ensures var id := DisplayIds(group, menu)[i]; id == FieldIdOf(MenuOf(id), IndexOf(id))
    {
      var id := DisplayIds(group, menu)[i];
      assert id in IdsAt(group, menu, |group.fields|);
      var j :| 0 <= j < |group.fields| && id == FieldIdOf(menu, group.fields[j]);
      FieldIdParts(menu, group.fields[j]);
    }
    FieldsAreDescribed(s, catalog, DisplayIds(group, menu), menu == Monitoring);
  }

  /** A field is listed exactly when it is in the group and has metadata. */
  lemma {:induction false} FieldsListed(s: Schema, catalog: Catalog, ids: seq<FieldId>, wantEventable: bool,
                                        f: FieldInfo)
    requires forall i :: 0 <= i < |ids| ==> ids[i] == FieldIdOf(MenuOf(ids[i]), IndexOf(ids[i]))
    ensures f in FieldsSpec(s, catalog, ids, wantEventable) <==>
      f.id in ids && Some(f) == FieldSpec(s, catalog, MenuOf(f.id), IndexOf(f.id), wantEventable)
  {
    if ids != [] {
      var n := |ids| - 1;
      FieldsListed(s, catalog, ids[..n], wantEventable, f);
      assert ids == ids[..n] + [ids[n]];
    }
  }
}
