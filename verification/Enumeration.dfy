/** Reading a device's schema: groups, fields, names, units and option labels. */
module Enumeration {
  import opened Prelude
  import opened Tab
  import opened WaiterLog
  import opened Strings
  import opened Discovery
  import opened FakeDevice
  import F32
  import Requests

  // ----- the device on the other side

  /** Every payload that arrives under a key of this device is what the device answers that request with. */
  ghost predicate Speaks(allowed: (string, Bytes) -> bool, s: Schema) {
    forall r: Request, d: Bytes :: !r.Value? && allowed(Key(s.addr, r), d) ==> Reply(s, r) == Some(d)
  }

  /** A payload some device on the bus answers with, or the payload of a value. */
  ghost predicate Arrives(devices: seq<Schema>, key: string, d: Bytes) {
    Foreign(key) || exists i :: 0 <= i < |devices| && Answers(devices[i], key, d)
  }

  predicate Apart(devices: seq<Schema>) {
    forall i, j :: 0 <= i < j < |devices| ==> devices[i].addr != devices[j].addr
  }

  /** On a bus of devices with different addresses that only answer, each device speaks for itself. */
  lemma BusSpeaks(devices: seq<Schema>, allowed: (string, Bytes) -> bool, n: nat)
    requires Apart(devices) && n < |devices|
    requires forall key, d :: allowed(key, d) ==> Arrives(devices, key, d)
    ensures Speaks(allowed, devices[n])
  {
    forall r: Request, d: Bytes | !r.Value? && allowed(Key(devices[n].addr, r), d)
      ensures Reply(devices[n], r) == Some(d)
    {
      KeyFamily(devices[n].addr, r);
      var i :| 0 <= i < |devices| && Answers(devices[i], Key(devices[n].addr, r), d);
      var q: Request :| !q.Value? && Key(devices[n].addr, r) == Key(devices[i].addr, q) && Reply(devices[i], q) == Some(d);
      KeyInjective(devices[n].addr, r, devices[i].addr, q);
    }
  }

  /** The bus carries this device, and its strings are ones a fetch can end on. */
  ghost predicate Meets(disc: Disc, s: Schema) {
    Speaks(disc.waiter.allowed, s) &&
    forall sid: Word :: disc.text((s.addr, sid)) == At(s.strings, sid, []) && Ends(At(s.strings, sid, []))
  }

  /** Nothing the device answers was given up: every such request was answered, on time or late. */
  ghost predicate AllAnswered(gaveUp: set<string>, s: Schema) {
    forall r: Request :: !r.Value? && Key(s.addr, r) in gaveUp ==> Reply(s, r).None?
  }

  lemma DeviceTells(disc: Disc, s: Schema, sid: Word)
    requires Meets(disc, s)
    ensures Tells(disc.waiter.allowed, (s.addr, sid), disc.text((s.addr, sid)))
    ensures Ends(disc.text((s.addr, sid)))
  {
    forall q: byte, d: Bytes | disc.waiter.allowed(ChunkKey((s.addr, sid), q), d)
      ensures d == ChunkReply(sid, q, disc.text((s.addr, sid)))
    {
      assert Reply(s, Chunk(sid, q)) == Some(d);
    }
  }

  type Catalog = Option<map<Word, Bytes>>

  // ----- what a complete read finds

  datatype Viz = Float | DropDown | Eventable | CheckBox | Text | Time | Date | DeviceList | EventCommand

  function VizFromWire(code: byte): Viz {
    match code
    case 0x03 => DropDown
    case 0x04 => Eventable
    case 0x05 => CheckBox
    case 0x06 => Text
    case 0x07 => Time
    case 0x08 => Date
    case 0x09 => DeviceList
    case 0x0A => EventCommand
    case _ => Float
  }

  /** The code a device reports for each kind of field. */
  function WireCode(kind: Viz): byte {
    match kind
    case Float => 0x01
    case DropDown => 0x03
    case Eventable => 0x04
    case CheckBox => 0x05
    case Text => 0x06
    case Time => 0x07
    case Date => 0x08
    case DeviceList => 0x09
    case EventCommand => 0x0A
  }

  /** A code is of the kind that reports it; one that no kind reports is a float's. */
  predicate IsOfKind(code: byte, kind: Viz) {
    code == WireCode(kind) || (kind == Float && forall k: Viz :: code != WireCode(k))
  }

  /** A kind's code is decoded as that kind, and any other code as a float. */
  lemma KindReadsBack(code: byte, kind: Viz)
    ensures VizFromWire(code) == kind <==> IsOfKind(code, kind)
    ensures VizFromWire(WireCode(kind)) == kind
  {
    var k := VizFromWire(code);
    assert k != Float ==> code == WireCode(k);
  }

  datatype FieldInfo = FieldInfo(id: FieldId, name: Bytes, unit: Bytes, viz: Viz, writeable: bool, eventable: bool,
                                 max: F32.Bytes4, options: seq<Bytes>)

  datatype GroupShape = GroupShape(name: Bytes, fieldIds: seq<FieldId>, counted: bool)

  datatype GroupInfo = GroupListing(id: byte, name: Bytes, menu: Menu, fields: seq<FieldInfo>)

  /** The string an id stands for: the catalog's, or the device's own. */
  function StringSpec(s: Schema, catalog: Catalog, sid: Word): Bytes {
    if catalog.Some? && sid in catalog.value then catalog.value[sid] else Whole(At(s.strings, sid, []))
  }

  /** A name, unit or label: id 0 is none. */
  function NamedSpec(s: Schema, catalog: Catalog, sid: Word): Bytes {
    if sid == 0 then [] else StringSpec(s, catalog, sid)
  }

  /** How many options a field has labels for; lists longer than 64 are read without them. */
  function OptionCount(viz: Viz, max: F32.Bytes4): (n: nat)
    ensures n <= 64
  {
    if (viz == DropDown || viz == Eventable) && F32.ToU32(max) <= 64 then F32.ToU32(max) else 0
  }

  function OptionSpec(s: Schema, catalog: Catalog, f: Field, i: nat): Bytes {
    if i < |f.optionSids| then NamedSpec(s, catalog, f.optionSids[i]) else []
  }

  /** A field as the device describes it; none without metadata. */
  function FieldSpec(s: Schema, catalog: Catalog, menu: Menu, index: byte, wantEventable: bool): Option<FieldInfo> {
    var id := FieldIdOf(menu, index);
    if id !in s.meta then None
    else
      var f := s.meta[id];
      Some(FieldInfo(id, NamedSpec(s, catalog, f.nameSid), NamedSpec(s, catalog, f.unitSid), VizFromWire(f.viz),
                     f.writeable, wantEventable && f.eventable, f.max,
                     seq(OptionCount(VizFromWire(f.viz), f.max), i requires 0 <= i => OptionSpec(s, catalog, f, i))))
  }

  // ----- what that is, without the functions that compute it

  /** The text of a string id: the catalog's if it lists the id, else the device's own string up to a NUL. */
  predicate IsString(s: Schema, catalog: Catalog, sid: Word, text: Bytes) {
    if catalog.Some? && sid in catalog.value then text == catalog.value[sid] else IsWhole(At(s.strings, sid, []), text)
  }

  predicate IsNamed(s: Schema, catalog: Catalog, sid: Word, text: Bytes) {
    if sid == 0 then text == [] else IsString(s, catalog, sid, text)
  }

  /** A drop-down or eventable field with 1 to 64 options has its labels; no other field has any. */
  predicate HasLabels(s: Schema, catalog: Catalog, f: Field, viz: Viz, options: seq<Bytes>) {
    var n := F32.ToU32(f.max);
    if (viz == DropDown || viz == Eventable) && 1 <= n <= 64 then
      |options| == n &&
      forall i :: 0 <= i < n ==> IsNamed(s, catalog, if i < |f.optionSids| then f.optionSids[i] else 0, options[i])
    else options == []
  }

  /** A field as its device describes it. */
  predicate IsDescribed(s: Schema, catalog: Catalog, menu: Menu, index: byte, wantEventable: bool, f: Option<FieldInfo>) {
    var id := FieldIdOf(menu, index);
    (f.Some? <==> id in s.meta) &&
    (f.Some? ==> IsOfField(s, catalog, id, s.meta[id], wantEventable, f.value))
  }

  predicate IsOfField(s: Schema, catalog: Catalog, id: FieldId, d: Field, wantEventable: bool, f: FieldInfo) {
    f.id == id && IsNamed(s, catalog, d.nameSid, f.name) && IsNamed(s, catalog, d.unitSid, f.unit) &&
    IsOfKind(d.viz, f.viz) && f.writeable == d.writeable && f.eventable == (wantEventable && d.eventable) &&
    f.max == d.max && HasLabels(s, catalog, d, f.viz, f.options)
  }

  lemma StringIs(s: Schema, catalog: Catalog, sid: Word)
    ensures IsString(s, catalog, sid, StringSpec(s, catalog, sid)) && IsNamed(s, catalog, sid, NamedSpec(s, catalog, sid))
  {
    WholeIs(At(s.strings, sid, []));
  }

  /** The field a complete read finds is the one described. */
  lemma FieldIsDescribed(s: Schema, catalog: Catalog, menu: Menu, index: byte, wantEventable: bool)
    ensures IsDescribed(s, catalog, menu, index, wantEventable, FieldSpec(s, catalog, menu, index, wantEventable))
  {
    if FieldIdOf(menu, index) in s.meta {
      var d := s.meta[FieldIdOf(menu, index)];
      var f := FieldSpec(s, catalog, menu, index, wantEventable).value;
      StringIs(s, catalog, d.nameSid);
      StringIs(s, catalog, d.unitSid);
      KindReadsBack(d.viz, f.viz);
      LabelsAre(s, catalog, d, f.viz, f.options);
    }
  }

  lemma LabelsAre(s: Schema, catalog: Catalog, d: Field, viz: Viz, options: seq<Bytes>)
    requires |options| == OptionCount(viz, d.max)
    requires forall i :: 0 <= i < |options| ==> options[i] == OptionSpec(s, catalog, d, i)
    ensures HasLabels(s, catalog, d, viz, options)
  {
    forall i | 0 <= i < |options|
      ensures IsNamed(s, catalog, if i < |d.optionSids| then d.optionSids[i] else 0, options[i])
    {
      StringIs(s, catalog, if i < |d.optionSids| then d.optionSids[i] else 0);
    }
  }

  // ----- fields

  /** The word at offset 4 of a reply. */
  function WordAt4(r: Option<Bytes>): Option<Word> {
    if r.Some? && |r.value| >= 6 then Some(U16(r.value[4], r.value[5])) else None
  }

  function ByteAt4(r: Option<Bytes>): Option<byte> {
    if r.Some? && |r.value| >= 5 then Some(r.value[4]) else None
  }

  function FloatAt4(r: Option<Bytes>): Option<F32.Bytes4> {
    if r.Some? && |r.value| >= 8 then Some(r.value[4..8]) else None
  }

  lemma WordParts(w: Word)
    ensures U16(Lo(w), Hi(w)) == w
  {
  }

  /** A string by id, with the device on the other side. */
  method DeviceString(disc: Disc, addr: Addr, sid: Word, ghost s: Schema) returns (text: Bytes)
    requires disc.Valid() && Meets(disc, s) && s.addr == addr
    modifies disc, disc.waiter
    ensures disc.Valid() && Onward(old(disc.Now()), disc.Now())
    ensures AllAnswered(disc.gaveUp, s) ==> text == StringSpec(s, disc.catalog, sid)
    ensures UpToChunk(StringSpec(s, disc.catalog, sid), text)
  {
    DeviceTells(disc, s, sid);
    text := disc.FetchStr(addr, sid);
    TextIs(disc.gaveUp, s, sid, Whole(At(s.strings, sid, [])), text);
  }

  /** A text cut off at a lost chunk is a part of the whole, and no device that was answered in full has one. */
  lemma TextIs(gaveUp: set<string>, s: Schema, sid: Word, whole: Bytes, text: Bytes)
    ensures CutOff(gaveUp, (s.addr, sid), whole, text) ==> UpToChunk(whole, text) && !AllAnswered(gaveUp, s)
  {
    if AllAnswered(gaveUp, s) {
      forall q: byte
        ensures ChunkKey((s.addr, sid), q) !in gaveUp
      {
        assert Reply(s, Chunk(sid, q)).Some?;
      }
    }
  }

  /** What a discovery holds of a field's metadata is what the device says of it. */
  lemma MetaTold(disc: Disc, s: Schema, menu: Menu, index: byte, wantEventable: bool, meta: map<byte, Bytes>, op: byte)
    requires Meets(disc, s) && AllAnswered(disc.gaveUp, s) && op in AskedOps(wantEventable)
    requires op in meta ==> disc.waiter.allowed(MetaKey(s.addr, menu, index, op), meta[op])
    requires LostOps(s.addr, menu, index, wantEventable, meta) <= disc.gaveUp
    ensures Get(meta, op) == Reply(s, FieldProperty(menu, op, index))
  {
  }

  function LabelTargets(addr: Addr, menu: Menu, index: byte, n: byte): (targets: seq<(Addr, Request)>)
    ensures |targets| == n && Asks(targets)
    ensures forall i: byte :: i < n ==> targets[i] == (addr, OptionLabel(menu, index, i))
  {
    var targets := seq(n, i requires 0 <= i < n => (addr, OptionLabel(menu, index, i)));
    assert forall i, j :: 0 <= i < j < |targets| ==> targets[i].1.opt != targets[j].1.opt;
    targets
  }

  /** The label ids of a field's options: option i's is in the reply to option i, whichever came late. */
  method OptionLabels(disc: Disc, addr: Addr, menu: Menu, index: byte, n: byte)
      returns (sids: seq<Option<Word>>, ghost replies: seq<Option<Bytes>>)
    requires disc.Valid()
    modifies disc, disc.waiter
    ensures disc.Valid() && Onward(old(disc.Now()), disc.Now())
    ensures Replied(disc.waiter, |old(disc.waiter.log)|, LabelTargets(addr, menu, index, n), replies, 1)
    ensures Lost(LabelTargets(addr, menu, index, n), replies) <= disc.gaveUp
    ensures |sids| == n && forall i :: 0 <= i < n ==> sids[i] == WordAt4(replies[i])
  {
    var targets := LabelTargets(addr, menu, index, n);
    var rs := disc.AskEach(targets, 1);
    replies := rs;
    sids := seq(n, i requires 0 <= i < n => WordAt4(rs[i]));
  }

  lemma LabelTold(disc: Disc, s: Schema, menu: Menu, index: byte, n: byte, replies: seq<Option<Bytes>>, from: nat,
                  i: byte)
    requires Meets(disc, s) && AllAnswered(disc.gaveUp, s) && i < n && FieldIdOf(menu, index) in s.meta
    requires Replied(disc.waiter, from, LabelTargets(s.addr, menu, index, n), replies, 1)
    requires Lost(LabelTargets(s.addr, menu, index, n), replies) <= disc.gaveUp
    ensures WordAt4(replies[i]) ==
      var sids := s.meta[FieldIdOf(menu, index)].optionSids; if i < |sids| then Some(sids[i]) else None
  {
  }

  /** The string of an id; one that is missing or 0 is none. */
  method NamedString(disc: Disc, addr: Addr, sid: Option<Word>, ghost s: Schema) returns (text: Bytes)
    requires disc.Valid() && Meets(disc, s) && s.addr == addr
    modifies disc, disc.waiter
    ensures disc.Valid() && Onward(old(disc.Now()), disc.Now())
    ensures AllAnswered(disc.gaveUp, s) ==> text == NamedSpec(s, disc.catalog, sid.GetOr(0))
    ensures UpToChunk(NamedSpec(s, disc.catalog, sid.GetOr(0)), text)
  {
    text := [];
    if sid.GetOr(0) != 0 {
      text := DeviceString(disc, addr, sid.value, s);
    }
  }

  /** The texts of the first ids, whole. */
  predicate AreWhole(s: Schema, catalog: Catalog, sids: seq<Option<Word>>, texts: seq<Bytes>) {
    |texts| <= |sids| && forall i :: 0 <= i < |texts| ==> texts[i] == NamedSpec(s, catalog, sids[i].GetOr(0))
  }

  /** The texts of the first ids, whole or cut. */
  predicate AreCut(s: Schema, catalog: Catalog, sids: seq<Option<Word>>, texts: seq<Bytes>) {
    |texts| <= |sids| && forall i :: 0 <= i < |texts| ==> UpToChunk(NamedSpec(s, catalog, sids[i].GetOr(0)), texts[i])
  }

  method NamedStrings(disc: Disc, addr: Addr, sids: seq<Option<Word>>, ghost s: Schema) returns (texts: seq<Bytes>)
    requires disc.Valid() && Meets(disc, s) && s.addr == addr
    modifies disc, disc.waiter
    ensures disc.Valid() && Onward(old(disc.Now()), disc.Now()) && |texts| == |sids|
    ensures AllAnswered(disc.gaveUp, s) ==> AreWhole(s, disc.catalog, sids, texts)
    ensures AreCut(s, disc.catalog, sids, texts)
  {
    texts := [];
    while |texts| < |sids|
      invariant disc.Valid() && Onward(old(disc.Now()), disc.Now()) && |texts| <= |sids|
      invariant AllAnswered(disc.gaveUp, s) ==> AreWhole(s, disc.catalog, sids, texts)
      invariant AreCut(s, disc.catalog, sids, texts)
      decreases |sids| - |texts|
    {
      ghost var a := disc.Now();
      texts := NextString(disc, addr, sids, texts, s);
      OnwardChain(old(disc.Now()), a, disc.Now());
      FewerGivenUp(a.gaveUp, disc.gaveUp, s);
    }
  }

  method NextString(disc: Disc, addr: Addr, sids: seq<Option<Word>>, texts: seq<Bytes>, ghost s: Schema)
      returns (more: seq<Bytes>)
    requires disc.Valid() && Meets(disc, s) && s.addr == addr && |texts| < |sids| && AreCut(s, disc.catalog, sids, texts)
    modifies disc, disc.waiter
    ensures disc.Valid() && Onward(old(disc.Now()), disc.Now()) && |more| == |texts| + 1
    ensures AllAnswered(disc.gaveUp, s) && AreWhole(s, disc.catalog, sids, texts) ==> AreWhole(s, disc.catalog, sids, more)
    ensures AreCut(s, disc.catalog, sids, more)
  {
    var text := NamedString(disc, addr, sids[|texts|], s);
    more := texts + [text];
  }

  /** A request of a batch to this device: with all it answers answered, the reply is its own. */
  lemma BatchTold(disc: Disc, s: Schema, targets: seq<(Addr, Request)>, out: seq<Option<Bytes>>, from: nat, tries: nat,
                  k: nat)
    requires Meets(disc, s) && AllAnswered(disc.gaveUp, s)
    requires Replied(disc.waiter, from, targets, out, tries) && Lost(targets, out) <= disc.gaveUp
    requires k < |targets| && targets[k].0 == s.addr && !targets[k].1.Value?
    ensures out[k] == Reply(s, targets[k].1)
  {
    if out[k].None? {
      assert Key(targets[k].0, targets[k].1) in Lost(targets, out);
    }
  }

  lemma FewerGivenUp(a: set<string>, b: set<string>, s: Schema)
    requires a <= b
    ensures AllAnswered(b, s) ==> AllAnswered(a, s)
  {
  }

  /** A field's metadata, read as values, with the defaults for what did not come. */
  datatype FieldMetadata = FieldMetadata(nameSid: Option<Word>, unitSid: Option<Word>, viz: Viz, max: F32.Bytes4,
                                         writeable: bool, eventable: bool)

  function Read(meta: map<byte, Bytes>): FieldMetadata {
    FieldMetadata(WordAt4(Get(meta, OP_NAME)), WordAt4(Get(meta, OP_UNIT)),
                  VizFromWire(ByteAt4(Get(meta, OP_VIZ)).GetOr(0x01)), FloatAt4(Get(meta, OP_MAX)).GetOr(ZERO),
                  ByteAt4(Get(meta, OP_WRITEABLE)).GetOr(0) != 0, ByteAt4(Get(meta, OP_EVENTABLE)).GetOr(0) != 0)
  }

  lemma WordsReadBack(f: Field, index: byte)
    ensures WordAt4(PropertyReply(f, OP_NAME, index)) == Some(f.nameSid)
    ensures WordAt4(PropertyReply(f, OP_UNIT, index)) == Some(f.unitSid)
  {
  }

  lemma BytesReadBack(f: Field, index: byte)
    ensures ByteAt4(PropertyReply(f, OP_VIZ, index)) == Some(f.viz)
    ensures FloatAt4(PropertyReply(f, OP_MAX, index)) == Some(f.max)
    ensures ByteAt4(PropertyReply(f, OP_WRITEABLE, index)).GetOr(0) != 0 <==> f.writeable
    ensures ByteAt4(PropertyReply(f, OP_EVENTABLE, index)).GetOr(0) != 0 <==> f.eventable
  {
    assert ([OP_MAX, index, 0, 0] + f.max)[4..8] == f.max;
  }

  /** Metadata read back is the device's own. */
  lemma ReadBack(s: Schema, menu: Menu, index: byte, wantEventable: bool, meta: map<byte, Bytes>)
    requires FieldIdOf(menu, index) in s.meta
    requires forall op :: op in AskedOps(wantEventable) ==>
      Get(meta, op) == PropertyReply(s.meta[FieldIdOf(menu, index)], op, index)
    requires forall op :: op in meta ==> op in AskedOps(wantEventable)
    ensures var f := s.meta[FieldIdOf(menu, index)];
      Read(meta) == FieldMetadata(Some(f.nameSid), Some(f.unitSid), VizFromWire(f.viz), f.max, f.writeable,
                                  wantEventable && f.eventable)
  {
    var f := s.meta[FieldIdOf(menu, index)];
    WordsReadBack(f, index);
    BytesReadBack(f, index);
    OpsAsked(wantEventable);
  }

  lemma OpsAsked(wantEventable: bool)
    ensures forall op :: op in AskedOps(wantEventable) <==>
      op == OP_NAME || op == OP_VIZ || op == OP_MAX || op == OP_UNIT || op == OP_WRITEABLE || (op == OP_EVENTABLE && wantEventable)
  {
  }

  /** Each label is the device's, or the part of it before a lost chunk; the whole of one may be lost. */
  predicate ArePartly(s: Schema, catalog: Catalog, f: Field, options: seq<Bytes>) {
    forall i :: 0 <= i < |options| ==> UpToChunk(OptionSpec(s, catalog, f, i), options[i])
  }

  lemma LabelIds(disc: Disc, s: Schema, menu: Menu, index: byte, n: byte, sids: seq<Option<Word>>,
                 replies: seq<Option<Bytes>>, from: nat)
    requires Meets(disc, s) && FieldIdOf(menu, index) in s.meta
    requires Replied(disc.waiter, from, LabelTargets(s.addr, menu, index, n), replies, 1)
    requires |sids| == n && forall i :: 0 <= i < n ==> sids[i] == WordAt4(replies[i])
    ensures var all := s.meta[FieldIdOf(menu, index)].optionSids;
      forall i :: 0 <= i < n && sids[i].Some? ==> i < |all| && sids[i].value == all[i]
  {
    var all := s.meta[FieldIdOf(menu, index)].optionSids;
    forall i | 0 <= i < n && sids[i].Some?
      ensures i < |all| && sids[i].value == all[i]
    {
      ReplyIs(disc, s, LabelTargets(s.addr, menu, index, n), replies, from, 1, i);
      LabelReply(s, menu, index, i);
    }
  }

  lemma LabelReply(s: Schema, menu: Menu, index: byte, i: byte)
    requires FieldIdOf(menu, index) in s.meta
    ensures WordAt4(Reply(s, OptionLabel(menu, index, i))) ==
      var all := s.meta[FieldIdOf(menu, index)].optionSids; if i < |all| then Some(all[i]) else None
  {
  }

  /** A reply to a request of a batch to this device is its own. */
  lemma ReplyIs(disc: Disc, s: Schema, targets: seq<(Addr, Request)>, out: seq<Option<Bytes>>, from: nat, tries: nat,
                k: nat)
    requires Meets(disc, s) && Replied(disc.waiter, from, targets, out, tries)
    requires k < |targets| && targets[k].0 == s.addr && !targets[k].1.Value? && out[k].Some?
    ensures out[k] == Reply(s, targets[k].1)
  {
    assert Requests.Asked(disc.waiter, from, Key(targets[k].0, targets[k].1), out[k], tries);
  }

  /** The labels of a field's options. */
  method FieldOptions(disc: Disc, addr: Addr, menu: Menu, index: byte, n: byte, ghost s: Schema)
      returns (options: seq<Bytes>)
    requires disc.Valid() && Meets(disc, s) && s.addr == addr
    modifies disc, disc.waiter
    ensures disc.Valid() && Onward(old(disc.Now()), disc.Now()) && |options| == n
    ensures AllAnswered(disc.gaveUp, s) && FieldIdOf(menu, index) in s.meta ==>
      forall i :: 0 <= i < n ==> options[i] == OptionSpec(s, disc.catalog, s.meta[FieldIdOf(menu, index)], i)
    ensures FieldIdOf(menu, index) in s.meta ==> ArePartly(s, disc.catalog, s.meta[FieldIdOf(menu, index)], options)
  {
    ghost var log := disc.waiter.log;
    var sids;
    ghost var replies;
    sids, replies := OptionLabels(disc, addr, menu, index, n);
    if FieldIdOf(menu, index) in s.meta {
      LabelIds(disc, s, menu, index, n, sids, replies, |log|);
    }
    ghost var a := disc.Now();
    if AllAnswered(disc.gaveUp, s) && FieldIdOf(menu, index) in s.meta {
      forall i | 0 <= i < n
        ensures sids[i] == var all := s.meta[FieldIdOf(menu, index)].optionSids; if i < |all| then Some(all[i]) else None
      {
        LabelTold(disc, s, menu, index, n, replies, |log|, i);
      }
    }
    options := NamedStrings(disc, addr, sids, s);
    OnwardChain(old(disc.Now()), a, disc.Now());
    FewerGivenUp(a.gaveUp, disc.gaveUp, s);
    if FieldIdOf(menu, index) in s.meta {
      OptionsPartly(s, disc.catalog, s.meta[FieldIdOf(menu, index)], sids, options);
    }
  }

  lemma OptionsPartly(s: Schema, catalog: Catalog, f: Field, sids: seq<Option<Word>>, options: seq<Bytes>)
    requires |options| == |sids|
    requires forall i :: 0 <= i < |sids| ==> UpToChunk(NamedSpec(s, catalog, sids[i].GetOr(0)), options[i])
    requires forall i :: 0 <= i < |sids| && sids[i].Some? ==> i < |f.optionSids| && sids[i].value == f.optionSids[i]
    ensures ArePartly(s, catalog, f, options)
  {
  }

  /** A field's options, name and unit, from its metadata. */
  method FieldStrings(disc: Disc, addr: Addr, menu: Menu, index: byte, m: FieldMetadata, ghost s: Schema)
      returns (options: seq<Bytes>, name: Bytes, unit: Bytes)
    requires disc.Valid() && Meets(disc, s) && s.addr == addr
    modifies disc, disc.waiter
    ensures disc.Valid() && Onward(old(disc.Now()), disc.Now()) && |options| == OptionCount(m.viz, m.max)
    ensures AllAnswered(disc.gaveUp, s) ==>
      name == NamedSpec(s, disc.catalog, m.nameSid.GetOr(0)) && unit == NamedSpec(s, disc.catalog, m.unitSid.GetOr(0))
    ensures AllAnswered(disc.gaveUp, s) && FieldIdOf(menu, index) in s.meta ==>
      forall i :: 0 <= i < |options| ==> options[i] == OptionSpec(s, disc.catalog, s.meta[FieldIdOf(menu, index)], i)
    ensures UpToChunk(NamedSpec(s, disc.catalog, m.nameSid.GetOr(0)), name)
    ensures UpToChunk(NamedSpec(s, disc.catalog, m.unitSid.GetOr(0)), unit)
    ensures FieldIdOf(menu, index) in s.meta ==> ArePartly(s, disc.catalog, s.meta[FieldIdOf(menu, index)], options)
  {
    ghost var a := disc.Now();
    options := FieldOptions(disc, addr, menu, index, OptionCount(m.viz, m.max), s);
    ghost var b := disc.Now();
    name := NamedString(disc, addr, m.nameSid, s);
    ghost var c := disc.Now();
    unit := NamedString(disc, addr, m.unitSid, s);
    OnwardChain(a, b, c);
    OnwardChain(a, c, disc.Now());
    FewerGivenUp(b.gaveUp, disc.gaveUp, s);
    FewerGivenUp(c.gaveUp, disc.gaveUp, s);
  }

  method MetaOf(disc: Disc, addr: Addr, menu: Menu, index: byte, wantEventable: bool) returns (meta: map<byte, Bytes>)
    requires disc.Valid()
    modifies disc, disc.waiter
    ensures disc.Valid() && Onward(old(disc.Now()), disc.Now())
    ensures forall op :: op in meta ==>
      op in AskedOps(wantEventable) && disc.waiter.allowed(MetaKey(addr, menu, index, op), meta[op])
    ensures LostOps(addr, menu, index, wantEventable, meta) <= disc.gaveUp
  {
    ghost var first;
    meta, first := disc.FieldMeta(addr, menu, index, wantEventable);
  }

  /** The metadata of a field, as far as the device answers any. */
  method MetadataOf(disc: Disc, addr: Addr, menu: Menu, index: byte, wantEventable: bool, ghost s: Schema)
      returns (m: Option<FieldMetadata>)
    requires disc.Valid() && Meets(disc, s) && s.addr == addr
    modifies disc, disc.waiter
    ensures disc.Valid() && Onward(old(disc.Now()), disc.Now())
    ensures AllAnswered(disc.gaveUp, s) ==> m == MetadataSpec(s, menu, index, wantEventable)
    ensures m.Some? ==> FieldIdOf(menu, index) in s.meta && IsPartly(s.meta[FieldIdOf(menu, index)], wantEventable, m.value)
    ensures m.None? ==> forall op :: op in AskedOps(wantEventable) ==> MetaKey(addr, menu, index, op) in disc.gaveUp
  {
    var meta := MetaOf(disc, addr, menu, index, wantEventable);
    if AllAnswered(disc.gaveUp, s) {
      FieldTold(disc, s, menu, index, wantEventable, meta);
    }
    m := if meta == map[] then None else Some(Read(meta));
    MetaHeard(disc, s, menu, index, wantEventable, meta);
    NothingHeard(menu, index, wantEventable, addr, meta, disc.gaveUp);
  }

  lemma MetaHeard(disc: Disc, s: Schema, menu: Menu, index: byte, wantEventable: bool, meta: map<byte, Bytes>)
    requires Meets(disc, s)
    requires forall op :: op in meta ==>
      op in AskedOps(wantEventable) && disc.waiter.allowed(MetaKey(s.addr, menu, index, op), meta[op])
    ensures meta != map[] ==>
      FieldIdOf(menu, index) in s.meta && IsPartly(s.meta[FieldIdOf(menu, index)], wantEventable, Read(meta))
  {
    forall op | op in meta
      ensures Reply(s, FieldProperty(menu, op, index)) == Some(meta[op])
    {
      assert disc.waiter.allowed(Key(s.addr, FieldProperty(menu, op, index)), meta[op]);
    }
    if meta != map[] {
      ReadPartly(s, menu, index, wantEventable, meta);
    }
  }

  lemma NothingHeard(menu: Menu, index: byte, wantEventable: bool, addr: Addr, meta: map<byte, Bytes>, gaveUp: set<string>)
    requires LostOps(addr, menu, index, wantEventable, meta) <= gaveUp
    ensures meta == map[] ==> forall op :: op in AskedOps(wantEventable) ==> MetaKey(addr, menu, index, op) in gaveUp
  {
  }

  /** Metadata as far as it came: each part is the device's, or the default for what did not come. */
  predicate IsPartly(f: Field, wantEventable: bool, m: FieldMetadata) {
    m.nameSid in {None, Some(f.nameSid)} && m.unitSid in {None, Some(f.unitSid)} &&
    (m.viz == Float || IsOfKind(f.viz, m.viz)) && m.max in {ZERO, f.max} &&
    (m.writeable ==> f.writeable) && (m.eventable ==> wantEventable && f.eventable)
  }

  lemma ReadPartly(s: Schema, menu: Menu, index: byte, wantEventable: bool, meta: map<byte, Bytes>)
    requires meta != map[]
    requires forall op :: op in meta ==> op in AskedOps(wantEventable)
    requires forall op :: op in meta ==> Reply(s, FieldProperty(menu, op, index)) == Some(meta[op])
    ensures FieldIdOf(menu, index) in s.meta && IsPartly(s.meta[FieldIdOf(menu, index)], wantEventable, Read(meta))
  {
    var op :| op in meta;
    assert Reply(s, FieldProperty(menu, op, index)).Some?;
    HeardPartly(s.meta[FieldIdOf(menu, index)], index, wantEventable, meta);
  }

  lemma HeardPartly(f: Field, index: byte, wantEventable: bool, meta: map<byte, Bytes>)
    requires forall op :: op in meta ==> op in AskedOps(wantEventable) && PropertyReply(f, op, index) == Some(meta[op])
    ensures IsPartly(f, wantEventable, Read(meta))
  {
    WordsReadBack(f, index);
    BytesReadBack(f, index);
    OpsAsked(wantEventable);
    KindReadsBack(f.viz, VizFromWire(f.viz));
    KindReadsBack(0x01, Float);
  }

  function MetadataSpec(s: Schema, menu: Menu, index: byte, wantEventable: bool): Option<FieldMetadata> {
    if FieldIdOf(menu, index) !in s.meta then None
    else
      var f := s.meta[FieldIdOf(menu, index)];
      Some(FieldMetadata(Some(f.nameSid), Some(f.unitSid), VizFromWire(f.viz), f.max, f.writeable,
                         wantEventable && f.eventable))
  }

  /** A field as far as its device was heard: texts whole or cut at a lost chunk, and defaults for what did not
      come. */
  predicate IsHonest(s: Schema, catalog: Catalog, id: FieldId, d: Field, wantEventable: bool, f: FieldInfo) {
    f.id == id && UpToChunk(NamedSpec(s, catalog, d.nameSid), f.name) &&
    UpToChunk(NamedSpec(s, catalog, d.unitSid), f.unit) &&
    (f.viz == Float || IsOfKind(d.viz, f.viz)) && f.max in {ZERO, d.max} &&
    (f.writeable ==> d.writeable) && (f.eventable ==> wantEventable && d.eventable) &&
    ArePartly(s, catalog, d, f.options)
  }

  lemma HonestFrom(s: Schema, catalog: Catalog, id: FieldId, d: Field, wantEventable: bool, m: FieldMetadata, f: FieldInfo)
    requires IsPartly(d, wantEventable, m) && f.id == id && ArePartly(s, catalog, d, f.options)
    requires f.viz == m.viz && f.writeable == m.writeable && f.eventable == m.eventable && f.max == m.max
    requires UpToChunk(NamedSpec(s, catalog, m.nameSid.GetOr(0)), f.name)
    requires UpToChunk(NamedSpec(s, catalog, m.unitSid.GetOr(0)), f.unit)
    ensures IsHonest(s, catalog, id, d, wantEventable, f)
  {
  }

  /** One field of a tab: nothing when none of its metadata was answered. */
  method EnumerateField(disc: Disc, addr: Addr, menu: Menu, index: byte, wantEventable: bool, ghost s: Schema)
      returns (f: Option<FieldInfo>)
    requires disc.Valid() && Meets(disc, s) && s.addr == addr
    modifies disc, disc.waiter
    ensures disc.Valid() && Onward(old(disc.Now()), disc.Now())
    ensures AllAnswered(disc.gaveUp, s) ==>
      f == FieldSpec(s, disc.catalog, menu, index, wantEventable) &&
      IsDescribed(s, disc.catalog, menu, index, wantEventable, f)
    // Whatever was lost, a field shows nothing that its device does not say.
    ensures f.Some? ==>
      var id := FieldIdOf(menu, index);
      id in s.meta && IsHonest(s, disc.catalog, id, s.meta[id], wantEventable, f.value)
    ensures f.None? ==> forall op :: op in AskedOps(wantEventable) ==> MetaKey(addr, menu, index, op) in disc.gaveUp
  {
    FieldIsDescribed(s, disc.catalog, menu, index, wantEventable);
    var found := MetadataOf(disc, addr, menu, index, wantEventable, s);
    if found.None? {
      return None;
    }
    ghost var b := disc.Now();
    var info := FieldFrom(disc, addr, menu, index, found.value, wantEventable, s);
    f := Some(info);
    OnwardChain(old(disc.Now()), b, disc.Now());
    FewerGivenUp(b.gaveUp, disc.gaveUp, s);
  }

  /** A field from its metadata. */
  method FieldFrom(disc: Disc, addr: Addr, menu: Menu, index: byte, m: FieldMetadata, ghost wantEventable: bool,
                   ghost s: Schema) returns (f: FieldInfo)
    requires disc.Valid() && Meets(disc, s) && s.addr == addr && FieldIdOf(menu, index) in s.meta
    requires IsPartly(s.meta[FieldIdOf(menu, index)], wantEventable, m)
    modifies disc, disc.waiter
    ensures disc.Valid() && Onward(old(disc.Now()), disc.Now())
    ensures AllAnswered(disc.gaveUp, s) && MetadataSpec(s, menu, index, wantEventable) == Some(m) ==>
      FieldSpec(s, disc.catalog, menu, index, wantEventable) == Some(f)
    ensures var id := FieldIdOf(menu, index); IsHonest(s, disc.catalog, id, s.meta[id], wantEventable, f)
  {
    var options, name, unit := FieldStrings(disc, addr, menu, index, m, s);
    f := FieldInfo(FieldIdOf(menu, index), name, unit, m.viz, m.writeable, m.eventable, m.max, options);
    HonestFrom(s, disc.catalog, FieldIdOf(menu, index), s.meta[FieldIdOf(menu, index)], wantEventable, m, f);
    if AllAnswered(disc.gaveUp, s) && MetadataSpec(s, menu, index, wantEventable) == Some(m) {
      assert options == FieldSpec(s, disc.catalog, menu, index, wantEventable).value.options;
    }
  }

  lemma FieldTold(disc: Disc, s: Schema, menu: Menu, index: byte, wantEventable: bool, meta: map<byte, Bytes>)
    requires Meets(disc, s) && AllAnswered(disc.gaveUp, s)
    requires forall op :: op in meta ==>
      op in AskedOps(wantEventable) && disc.waiter.allowed(MetaKey(s.addr, menu, index, op), meta[op])
    requires LostOps(s.addr, menu, index, wantEventable, meta) <= disc.gaveUp
    ensures (if meta == map[] then None else Some(Read(meta))) == MetadataSpec(s, menu, index, wantEventable)
  {
    forall op | op in AskedOps(wantEventable)
      ensures Get(meta, op) == Reply(s, FieldProperty(menu, op, index))
    {
      MetaTold(disc, s, menu, index, wantEventable, meta, op);
    }
    MetaSpecRead(s, menu, index, wantEventable, meta);
  }

  lemma MetaSpecRead(s: Schema, menu: Menu, index: byte, wantEventable: bool, meta: map<byte, Bytes>)
    requires forall op :: op in meta ==> op in AskedOps(wantEventable)
    requires forall op :: op in AskedOps(wantEventable) ==> Get(meta, op) == Reply(s, FieldProperty(menu, op, index))
    ensures (if meta == map[] then None else Some(Read(meta))) == MetadataSpec(s, menu, index, wantEventable)
  {
    OpsAsked(wantEventable);
    if FieldIdOf(menu, index) in s.meta {
      ReadBack(s, menu, index, wantEventable, meta);
      assert OP_NAME in meta;
    } else {
      assert meta.Keys == {};
    }
  }
}
