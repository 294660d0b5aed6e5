/** The fake bus device: what a device answers to each request. */
module FakeDevice {
  import opened Prelude
  import opened Tab
  import opened Routing
  import opened WaiterLog
  import F32

  /** One field's metadata. */
  datatype Field = Field(nameSid: Word, unitSid: Word, viz: byte, max: F32.Bytes4,
                         writeable: bool, eventable: bool, optionSids: seq<Word>)

  type Indices = f: seq<byte> | |f| < 0x100_0000

  /** One group: its fields in display order, and a field count it may claim instead of theirs. */
  datatype Group = FieldGroup(nameSid: Word, fields: Indices, claimed: Option<F32.Bytes4>)

  /** A half of the firmware version. */
  datatype Version = Version(minor: byte, major: byte)

  /** What a device knows about itself; strings are Latin-1. */
  datatype Schema = Schema(
    addr: Addr,
    level: byte,
    strings: map<Word, Bytes>,
    propSids: map<byte, Word>,
    firmware0: Version,
    firmware1: Version,
    groupCounts: map<byte, Word>,
    outputs: seq<byte>,
    uncounted: bool,
    muteCounts: bool,
    groups: map<(Menu, byte), Group>,
    meta: map<FieldId, Field>)

  function At<K, V>(m: map<K, V>, k: K, default: V): V {
    if k in m then m[k] else default
  }

  function CountBytes(g: Group): F32.Bytes4 {
    match g.claimed
    case Some(b) => b
    case None => F32.OfNat(|g.fields|)
  }

  /** The field at a position, read round and round when the group claims another count. */
  function FieldAt(g: Group, i: byte): Option<byte> {
    if g.claimed.Some? && g.fields != [] then Some(g.fields[i % |g.fields|])
    else if i < |g.fields| then Some(g.fields[i])
    else None
  }

  /** Up to four bytes of a string, followed by a NUL when it runs out. */
  function ChunkOf(s: Bytes, seqNo: byte): Bytes {
    var start := 4 * seqNo as int;
    if start + 4 <= |s| then s[start..start + 4]
    else if start <= |s| then s[start..] + [0]
    else [0]
  }

  function DeviceReply(s: Schema, op: byte, n: byte): Option<Bytes> {
    if op == OP_SELECTOR then
      if n == 0x19 then Some([op, n, s.level, 0])
      else if n == 0x3F then
        if s.uncounted then None
        else if s.outputs != [] then Some([op, n, |s.outputs| % 256, 0])
        else Some([op, n])
      else if n >= 0x40 then
        if n - 0x40 < |s.outputs| then Some([op, n, s.outputs[n - 0x40], 0]) else Some([op, n])
      else if s.muteCounts then None
      else Some([op, n, Lo(At(s.groupCounts, n, 0)), Hi(At(s.groupCounts, n, 0))])
    else if op == OP_FIRMWARE then
      var part := if n == 0 then s.firmware0 else s.firmware1;
      Some([op, n, part.minor, part.major])
    else if op == OP_PROPERTY_ID then
      Some([op, n, Lo(At(s.propSids, n, 0)), Hi(At(s.propSids, n, 0))])
    else None
  }

  function PropertyReply(f: Field, op: byte, index: byte): Option<Bytes> {
    var head := [op, index, 0, 0];
    if op == OP_NAME then Some(head + [Lo(f.nameSid), Hi(f.nameSid)])
    else if op == OP_UNIT then Some(head + [Lo(f.unitSid), Hi(f.unitSid)])
    else if op == OP_VIZ then Some(head + [f.viz])
    else if op == OP_MAX then Some(head + f.max)
    else if op == OP_WRITEABLE then Some(head + [if f.writeable then 1 else 0])
    else if op == OP_EVENTABLE && f.eventable then Some(head + [1])
    else None
  }

  /** The payload a device answers a request with; `None` is silence. Values are not covered. */
  function Reply(s: Schema, r: Request): Option<Bytes> {
    match r
    case Device(op, n) => DeviceReply(s, op, n)
    case Chunk(sid, seqNo) => Some([OP_STRING, Lo(sid), Hi(sid), seqNo] + ChunkOf(At(s.strings, sid, []), seqNo))
    case GroupInfo(menu, op, g) =>
      if (menu, g) !in s.groups then None
      else if op == OP_GROUP_NAME then
        Some([op, g, 0, 0, Lo(s.groups[(menu, g)].nameSid), Hi(s.groups[(menu, g)].nameSid)])
      else if op == OP_GROUP_COUNT then Some([op, g, 0, 0] + CountBytes(s.groups[(menu, g)]))
      else None
    case GroupField(menu, g, i) =>
      if (menu, g) !in s.groups then None
      else
        (match FieldAt(s.groups[(menu, g)], i)
         case Some(index) => Some([OP_GROUP_FIELD, g, 0, i, index, 0])
         case None => None)
    case FieldProperty(menu, op, index) =>
      if FieldIdOf(menu, index) in s.meta then PropertyReply(s.meta[FieldIdOf(menu, index)], op, index) else None
    case OptionLabel(menu, index, opt) =>
      if FieldIdOf(menu, index) in s.meta && opt < |s.meta[FieldIdOf(menu, index)].optionSids| then
        var sid := s.meta[FieldIdOf(menu, index)].optionSids[opt];
        Some([OP_OPTION, index, 0, opt, Lo(sid), Hi(sid)])
      else None
    case Value(_, _) => None
  }

  /** The frame a reply travels in: refusals of output selectors come from the shadow address. */
  function ReplyId(s: Schema, r: Request, payload: Bytes): nat {
    match r
    case Device(op, n) =>
      CanId(PROPERTY_INFO, if op == OP_SELECTOR && n >= 0x3F && |payload| == 2 then SetHigh(s.addr) else s.addr)
    case Chunk(_, _) => CanId(PROPERTY_INFO, s.addr)
    case GroupInfo(menu, _, _) => ExchangeOf(menu, Kind.Group).info.Id(s.addr)
    case GroupField(menu, _, _) => ExchangeOf(menu, Kind.Group).info.Id(s.addr)
    case FieldProperty(menu, _, _) => ExchangeOf(menu, Property).info.Id(s.addr)
    case OptionLabel(menu, _, _) => ExchangeOf(menu, Property).info.Id(s.addr)
    case Value(menu, _) => ExchangeOf(menu, Data).info.Id(s.addr)
  }

  /** A payload the device answers the request of this key with; under a value key, any payload. */
  ghost predicate Answers(s: Schema, key: string, d: Bytes) {
    Foreign(key) || exists r: Request :: !r.Value? && key == Key(s.addr, r) && Reply(s, r) == Some(d)
  }

  /** Everything the frames are delivered as is the device's answer. */
  ghost predicate OnlyAnswers(s: Schema, frames: seq<Frame>) {
    forall i, j :: 0 <= i < |frames| && 0 <= j < |Deliveries(frames[i])| ==>
      var (key, d) := Deliveries(frames[i])[j];
      Answers(s, key, d)
  }

  ghost predicate IsRequest(addr: Addr, f: Frame) {
    exists r: Request :: Encode(addr, r) == f
  }

  /** Every reply is delivered under the key of the request it answers, and under no other. */
  lemma RepliesAreRouted(s: Schema, r: Request)
    requires Reply(s, r).Some?
    ensures var d := Reply(s, r).value;
      Deliveries(Frame(ReplyId(s, r, d), d)) == [(Key(s.addr, r), d)]
  {
    match r
    case Device(op, n) => DeviceReplyRouted(s, op, n);
    case Chunk(sid, seqNo) => ChunkRouted(s, sid, seqNo);
    case _ => TabReplyRouted(s, r);
  }

  lemma DeviceReplyRouted(s: Schema, op: byte, n: byte)
    requires DeviceReply(s, op, n).Some?
    ensures var d := DeviceReply(s, op, n).value;
      Deliveries(Frame(ReplyId(s, Device(op, n), d), d)) == [(Key(s.addr, Device(op, n)), d)]
  {
    HighParts(s.addr);
    IdParts(PROPERTY_INFO, s.addr);
    IdParts(PROPERTY_INFO, SetHigh(s.addr));
  }

  lemma ChunkRouted(s: Schema, sid: Word, seqNo: byte)
    ensures var d := Reply(s, Chunk(sid, seqNo)).value;
      Deliveries(Frame(ReplyId(s, Chunk(sid, seqNo), d), d)) == [(Key(s.addr, Chunk(sid, seqNo)), d)]
  {
    HighParts(s.addr);
    IdParts(PROPERTY_INFO, s.addr);
    var d := Reply(s, Chunk(sid, seqNo)).value;
    ChunkSubject(s.addr, d, sid, seqNo);
  }

  lemma ChunkSubject(addr: Addr, d: Bytes, sid: Word, seqNo: byte)
    requires |d| >= 4 && d[0] == OP_STRING && d[1] == Lo(sid) && d[2] == Hi(sid) && d[3] == seqNo
    ensures Subject(PROPERTY_INFO, addr, d) == Some((addr, Chunk(sid, seqNo)))
    ensures ValueSubject(PROPERTY_INFO, addr, d) == None
  {
    HighParts(addr);
    NoAnswerFrom(PAIRS, PROPERTY_INFO, addr);
    assert U16(d[1], d[2]) == sid;
  }

  function TabOf(r: Request): Menu
    requires r.GroupInfo? || r.GroupField? || r.FieldProperty? || r.OptionLabel? || r.Value?
  {
    r.menu
  }

  function KindOf(r: Request): Kind
    requires r.GroupInfo? || r.GroupField? || r.FieldProperty? || r.OptionLabel? || r.Value?
  {
    if r.Value? then Data else if r.GroupInfo? || r.GroupField? then Kind.Group else Property
  }

  /** A frame of a tab's answer type goes to the waiter by its payload alone, never to the value layer. */
  lemma AnswerFrame(addr: Addr, menu: Menu, kind: Kind, d: Bytes)
    requires kind != Data && |d| >= 2
    ensures var f := Frame(ExchangeOf(menu, kind).info.Id(addr), d);
      var c, a := FrameClass(f.id), FrameAddr(f.id);
      c != PROPERTY_INFO && Answer(c, a) == Some((menu, kind, false)) && ClearHigh(a) == addr &&
      ValueSubject(c, a, d) == None
  {
    var w := ExchangeOf(menu, kind).info;
    WireParts(w, addr);
    AnswerNames(menu, kind, FrameAddr(w.Id(addr)));
  }

  lemma TabReplyRouted(s: Schema, r: Request)
    requires !r.Device? && !r.Chunk? && Reply(s, r).Some?
    ensures var d := Reply(s, r).value;
      Deliveries(Frame(ReplyId(s, r, d), d)) == [(Key(s.addr, r), d)]
  {
    var d := Reply(s, r).value;
    AnswerFrame(s.addr, TabOf(r), KindOf(r), d);
    var f := Frame(ReplyId(s, r, d), d);
    assert Subject(FrameClass(f.id), FrameAddr(f.id), d) == Some((s.addr, r));
  }

  /** A value's frame is delivered under the value key of its tab and index. */
  lemma ValuesAreRouted(addr: Addr, menu: Menu, index: byte, v: F32.Bytes4)
    ensures Deliveries(Frame(ExchangeOf(menu, Data).info.Id(addr), [index, 0] + v))
         == [(Key(addr, Value(menu, index)), v)]
  {
    var w := ExchangeOf(menu, Data).info;
    var d := [index, 0] + v;
    WireParts(w, addr);
    AnswerNames(menu, Data, FrameAddr(w.Id(addr)));
    assert d[2..] == v && d[2..6] == v;
  }

  predicate IsTabRequest(r: Request) {
    !r.Device? && !r.Chunk?
  }

  lemma RequestWire(addr: Addr, r: Request)
    ensures var f := Encode(addr, r);
      ClearHigh(FrameAddr(f.id)) == addr &&
      (if IsTabRequest(r) then ExchangeOf(TabOf(r), KindOf(r)).req.Is(FrameClass(f.id), FrameAddr(f.id))
       else FrameClass(f.id) == PROPERTY_REQ && !IsHigh(FrameAddr(f.id)))
  {
    HighParts(addr);
    IdParts(PROPERTY_REQ, addr);
    if IsTabRequest(r) {
      WireParts(ExchangeOf(TabOf(r), KindOf(r)).req, addr);
    }
  }

  lemma RequestTypesDiffer(m: Menu, k: Kind, m': Menu, k': Kind, c: byte, a: nat)
    requires ExchangeOf(m, k).req.Is(c, a) && ExchangeOf(m', k').req.Is(c, a)
    ensures m == m' && k == k'
  {
  }

  /** The frames report the reply, or the silence, in a frame with the given id. */
  predicate Reports(frames: seq<Frame>, carrier: nat, reply: Option<Bytes>) {
    frames == if reply.Some? then [Frame(carrier, reply.value)] else []
  }

  function UpToNul(s: Bytes): Bytes {
    if s == [] || s[0] == 0 then [] else [s[0]] + UpToNul(s[1..])
  }

  /** The index before, wrapping: an output's commit register comes after the output. */
  function Before(index: byte): byte {
    if index == 0 then 255 else index - 1
  }

  const ZERO: F32.Bytes4 := [0, 0, 0, 0]

  /** A scriptable device. */
  class Device {
    const addr: Addr
    var level: byte
    var codes: map<byte, F32.Bytes4>
    var btm1: map<byte, F32.Bytes4>
    var btm3: map<byte, F32.Bytes4>
    var tabValues: map<FieldId, F32.Bytes4>
    var strings: map<Word, Bytes>
    var propSids: map<byte, Word>
    var firmware0: Version
    var firmware1: Version
    var mute: set<byte>
    var settleReads: byte
    var pending: map<byte, (F32.Bytes4, byte)>
    var groupCounts: map<byte, Word>
    var outputs: seq<byte>
    var uncommitted: map<byte, F32.Bytes4>
    var uncounted: bool
    var muteCounts: bool
    var groups: map<(Menu, byte), Group>
    /** How many more field-count queries a group answers, for the groups that go silent. */
    var countAnswers: map<(Menu, byte), nat>
    var meta: map<FieldId, Field>

    constructor (addr: Addr)
      ensures this.addr == addr && firmware0 == Version(0, 1) && firmware1 == Version(0, 0) && groups == map[] && meta == map[]
    {
      this.addr := addr;
      level := 0;
      codes, btm1, btm3, tabValues := map[], map[], map[], map[];
      strings, propSids := map[], map[];
      firmware0, firmware1 := Version(0, 1), Version(0, 0);
      mute, settleReads, pending := {}, 0, map[];
      groupCounts, outputs, uncommitted := map[], [], map[];
      uncounted, muteCounts := false, false;
      groups, countAnswers, meta := map[], map[], map[];
    }

    function View(): Schema
      reads this
    {
      Schema(addr, level, strings, propSids, firmware0, firmware1, groupCounts, outputs, uncounted, muteCounts, groups, meta)
    }

    /** What a value read shows: a write that has settled, else the old value. */
    function Shown(menu: Menu, index: byte): F32.Bytes4
      reads this
    {
      match menu
      case Monitoring =>
        if index in pending && pending[index].1 == 0 then pending[index].0 else At(btm1, index, ZERO)
      case Configuration => At(btm3, index, ZERO)
      case _ => At(tabValues, FieldIdOf(menu, index), ZERO)
    }

    predicate Silenced(r: Request)
      reads this
    {
      r.GroupInfo? && r.op == OP_GROUP_COUNT && At(countAnswers, (r.menu, r.group), 1) == 0
    }

    /** A tab's groups: name, field count, field index. */
    method GroupRequest(menu: Menu, data: Bytes, carrier: nat) returns (frames: seq<Frame>)
      modifies this`countAnswers
      ensures forall r: Request | IsTabRequest(r) && TabOf(r) == menu && KindOf(r) == Kind.Group && Encode(addr, r).data == data ::
        if old(Silenced(r)) then frames == [] else Reports(frames, carrier, Reply(View(), r))
    {
      frames := [];
      if |data| == 3 && data[0] == OP_GROUP_NAME {
        if (menu, data[1]) in groups {
          var sid := groups[(menu, data[1])].nameSid;
          frames := [Frame(carrier, [OP_GROUP_NAME, data[1], 0, 0, Lo(sid), Hi(sid)])];
        }
      } else if |data| == 3 && data[0] == OP_GROUP_COUNT {
        var g := (menu, data[1]);
        if g in groups && At(countAnswers, g, 1) != 0 {
          if g in countAnswers {
            countAnswers := countAnswers[g := countAnswers[g] - 1];
          }
          frames := [Frame(carrier, [OP_GROUP_COUNT, data[1], 0, 0] + CountBytes(groups[g]))];
        }
      } else if |data| == 4 && data[0] == OP_GROUP_FIELD {
        if (menu, data[1]) in groups {
          var index := FieldAt(groups[(menu, data[1])], data[3]);
          if index.Some? {
            frames := [Frame(carrier, [OP_GROUP_FIELD, data[1], 0, data[3], index.value, 0])];
          }
        }
      }
    }

    /** Per-field metadata, one property per request; an index with no field stays silent. */
    method PropertyOfField(menu: Menu, data: Bytes, carrier: nat) returns (frames: seq<Frame>)
      ensures forall r: Request | IsTabRequest(r) && TabOf(r) == menu && KindOf(r) == Property && Encode(addr, r).data == data ::
        Reports(frames, carrier, Reply(View(), r))
    {
      frames := [];
      if |data| == 4 && data[0] == OP_OPTION {
        var fid := FieldIdOf(menu, data[1]);
        if fid in meta && data[3] < |meta[fid].optionSids| {
          var sid := meta[fid].optionSids[data[3]];
          frames := [Frame(carrier, [OP_OPTION, data[1], 0, data[3], Lo(sid), Hi(sid)])];
        }
        return;
      }
      // The wire index is a 16-bit word; a field's index is one byte.
      if |data| != 3 || data[2] != 0 || FieldIdOf(menu, data[1]) !in meta {
        return;
      }
      var f := meta[FieldIdOf(menu, data[1])];
      var head := [data[0], data[1], data[2], 0];
      if data[0] == OP_NAME {
        frames := [Frame(carrier, head + [Lo(f.nameSid), Hi(f.nameSid)])];
      } else if data[0] == OP_UNIT {
        frames := [Frame(carrier, head + [Lo(f.unitSid), Hi(f.unitSid)])];
      } else if data[0] == OP_VIZ {
        frames := [Frame(carrier, head + [f.viz])];
      } else if data[0] == OP_MAX {
        frames := [Frame(carrier, head + f.max)];
      } else if data[0] == OP_WRITEABLE {
        frames := [Frame(carrier, head + [if f.writeable then 1 else 0])];
      } else if data[0] == OP_EVENTABLE && f.eventable {
        frames := [Frame(carrier, head + [1])];
      }
    }

    /** Login, counts, firmware, property string ids, and string chunks in both directions. */
    method DeviceRequest(data: Bytes) returns (frames: seq<Frame>)
      modifies this`level, this`strings
      ensures forall r: Request | !IsTabRequest(r) && Encode(addr, r).data == data ::
        View() == old(View()) &&
        match Reply(View(), r)
        case None => frames == []
        case Some(d) => frames == [Frame(ReplyId(View(), r, d), d)]
      // A string write puts its bytes, up to the first NUL, after what earlier chunks wrote.
      ensures |data| > 4 && data[0] == OP_STRING ==>
        var sid: Word := U16(data[1], data[2]);
        strings == old(strings)[sid := (if data[3] == 0 then [] else At(old(strings), sid, [])) + UpToNul(data[4..])]
    {
      var info := CanId(PROPERTY_INFO, addr);
      var shadow := CanId(PROPERTY_INFO, SetHigh(addr));
      frames := [];
      if |data| == 2 && data[0] == OP_SELECTOR {
        var n := data[1];
        if n == 0x19 {
          frames := [Frame(info, [OP_SELECTOR, 0x19, level, 0])];
        } else if n == 0x3F {
          if uncounted {
          } else if outputs != [] {
            frames := [Frame(info, [OP_SELECTOR, n, |outputs| % 256, 0])];
          } else {
            frames := [Frame(shadow, [OP_SELECTOR, n])];
          }
        } else if n >= 0x40 {
          if n - 0x40 < |outputs| {
            frames := [Frame(info, [OP_SELECTOR, n, outputs[n - 0x40], 0])];
          } else {
            frames := [Frame(shadow, [OP_SELECTOR, n])];
          }
        } else if !muteCounts {
          var count := At(groupCounts, n, 0);
          frames := [Frame(info, [OP_SELECTOR, n, Lo(count), Hi(count)])];
        }
      } else if |data| == 4 && data[0] == OP_SELECTOR && data[1] == 0x19 {
        level := 0;
        frames := [Frame(info, [OP_SELECTOR, 0x19, level, 0])];
      } else if |data| == 8 && data[0] == OP_SELECTOR && data[1] == 0x19 {
        if data[2] in codes && codes[data[2]] == data[4..8] && data[2] <= 3 {
          level := data[2];
        }
        frames := [Frame(info, [OP_SELECTOR, 0x19, level, 0])];
      } else if |data| == 2 && data[0] == OP_FIRMWARE {
        var part := if data[1] == 0 then firmware0 else firmware1;
        frames := [Frame(info, [OP_FIRMWARE, data[1], part.minor, part.major])];
      } else if |data| == 2 && data[0] == OP_PROPERTY_ID {
        var sid := At(propSids, data[1], 0);
        frames := [Frame(info, [OP_PROPERTY_ID, data[1], Lo(sid), Hi(sid)])];
      } else if |data| == 4 && data[0] == OP_STRING {
        var sid: Word := U16(data[1], data[2]);
        frames := [Frame(info, data + ChunkOf(At(strings, sid, []), data[3]))];
      } else if |data| > 4 && data[0] == OP_STRING {
        var sid: Word := U16(data[1], data[2]);
        var text := if data[3] == 0 then [] else At(strings, sid, []);
        strings := strings[sid := text + UpToNul(data[4..])];
        frames := [Frame(info, data[..4])];
      }
    }

    /** A Monitoring value: a two-byte read, or a six-byte write, which is silent. */
    method MonitoringValue(data: Bytes) returns (frames: seq<Frame>)
      modifies this`btm1, this`pending, this`uncommitted
      ensures |data| == 2 && data[0] in mute ==> frames == []
      ensures |data| == 2 && data[0] !in mute ==>
        frames == [Frame(CanId(MONITORING_DATA, addr), data + old(Shown(Monitoring, data[0])))]
      ensures |data| == 6 ==> frames == []
      // An output acts only once its commit follows; other writes act at once or after some reads.
      ensures |data| == 6 && data[0] in outputs ==> btm1 == old(btm1) && uncommitted == old(uncommitted)[data[0] := data[2..6]]
      ensures |data| == 6 && data[0] !in outputs && Before(data[0]) in outputs && Before(data[0]) in old(uncommitted) ==>
        btm1 == old(btm1)[Before(data[0]) := old(uncommitted)[Before(data[0])]] && Before(data[0]) !in uncommitted
      ensures |data| == 6 && data[0] !in outputs && Before(data[0]) !in outputs && settleReads == 0 ==>
        btm1 == old(btm1)[data[0] := data[2..6]]
    {
      frames := [];
      if |data| == 2 {
        var f := data[0];
        if f in mute {
          return;
        }
        if f in pending {
          if pending[f].1 == 0 {
            btm1 := btm1[f := pending[f].0];
            pending := pending - {f};
          } else {
            pending := pending[f := (pending[f].0, pending[f].1 - 1)];
          }
        }
        frames := [Frame(CanId(MONITORING_DATA, addr), data + At(btm1, f, ZERO))];
      } else if |data| == 6 {
        var f := data[0];
        if f in outputs {
          uncommitted := uncommitted[f := data[2..6]];
        } else if Before(f) in outputs {
          if Before(f) in uncommitted {
            btm1 := btm1[Before(f) := uncommitted[Before(f)]];
            uncommitted := uncommitted - {Before(f)};
          }
        } else if settleReads > 0 {
          pending := pending[f := (data[2..6], settleReads)];
        } else {
          btm1 := btm1[f := data[2..6]];
        }
      }
    }

    /** A value read or write on another tab; both are answered with the value. */
    method TabValue(menu: Menu, data: Bytes, carrier: nat) returns (frames: seq<Frame>)
      requires menu != Monitoring
      modifies this`btm3, this`tabValues
      ensures |data| == 2 && data[0] in mute ==> frames == []
      ensures |data| == 2 && data[0] !in mute ==> frames == [Frame(carrier, data + old(Shown(menu, data[0])))]
      ensures |data| == 6 ==> Shown(menu, data[0]) == data[2..6] && frames == [Frame(carrier, data)]
    {
      frames := [];
      if |data| == 2 {
        if data[0] !in mute {
          frames := [Frame(carrier, data + Shown(menu, data[0]))];
        }
      } else if |data| == 6 {
        if menu == Configuration {
          btm3 := btm3[data[0] := data[2..6]];
        } else {
          tabValues := tabValues[FieldIdOf(menu, data[0]) := data[2..6]];
        }
        frames := [Frame(carrier, data)];
      }
    }

    method TabRequest(menu: Menu, kind: Kind, data: Bytes) returns (frames: seq<Frame>)
      modifies this
      ensures kind != Data ==> forall r: Request | IsTabRequest(r) && TabOf(r) == menu && KindOf(r) == kind && Encode(addr, r).data == data ::
        View() == old(View()) &&
        if old(Silenced(r)) then frames == [] else Reports(frames, ExchangeOf(menu, kind).info.Id(addr), Reply(View(), r))
      ensures kind == Data && |data| == 2 ==>
        View() == old(View()) && frames ==
          if data[0] in mute then []
          else [Frame(ExchangeOf(menu, kind).info.Id(addr), data + old(Shown(menu, data[0])))]
    {
      var carrier := ExchangeOf(menu, kind).info.Id(addr);
      match kind
      case Data =>
        if menu == Monitoring {
          HighParts(addr);
          frames := MonitoringValue(data);
        } else {
          frames := TabValue(menu, data, carrier);
        }
      case Property =>
        frames := PropertyOfField(menu, data, carrier);
      case Group =>
        frames := GroupRequest(menu, data, carrier);
    }

    /** The frames sent in answer to one frame. */
    method Dispatch(id: nat, data: Bytes) returns (frames: seq<Frame>)
      modifies this
      ensures ClearHigh(FrameAddr(id)) != addr ==> frames == [] && View() == old(View())
      ensures forall r: Request | !r.Value? && Encode(addr, r) == Frame(id, data) ::
        View() == old(View()) &&
        frames == if Reply(View(), r).None? || old(Silenced(r)) then []
                  else [Frame(ReplyId(View(), r, Reply(View(), r).value), Reply(View(), r).value)]
      ensures forall menu: Menu, index: byte | Encode(addr, Value(menu, index)) == Frame(id, data) ::
        View() == old(View()) &&
        frames == if index in mute then []
                  else [Frame(ExchangeOf(menu, Data).info.Id(addr), [index, 0] + old(Shown(menu, index)))]
    {
      var c, a := FrameClass(id), FrameAddr(id);
      forall r: Request | Encode(addr, r) == Frame(id, data)
        ensures ClearHigh(a) == addr
        ensures if IsTabRequest(r) then ExchangeOf(TabOf(r), KindOf(r)).req.Is(c, a) else c == PROPERTY_REQ && !IsHigh(a)
      {
        RequestWire(addr, r);
      }
      frames := [];
      if ClearHigh(a) == addr {
        if c == PROPERTY_REQ && !IsHigh(a) {
          frames := DeviceRequest(data);
        } else {
          var pair := RequestTypeOf(c, a);
          if pair.Some? {
            frames := TabRequest(pair.value.0, pair.value.1, data);
          }
        }
      }
    }

    /** Answer one frame. A frame for another address, or on a class the device does not speak, draws silence. */
    method Respond(id: nat, data: Bytes) returns (frames: seq<Frame>)
      modifies this
      ensures ClearHigh(FrameAddr(id)) != addr ==> frames == [] && View() == old(View())
      // A request changes nothing the device says about itself, and its reply goes to its key alone.
      ensures forall r: Request | !r.Value? && Encode(addr, r) == Frame(id, data) ::
        View() == old(View()) &&
        if Reply(View(), r).None? || old(Silenced(r)) then frames == []
        else |frames| == 1 && Deliveries(frames[0]) == [(Key(addr, r), Reply(View(), r).value)]
      ensures forall menu: Menu, index: byte | Encode(addr, Value(menu, index)) == Frame(id, data) ::
        View() == old(View()) &&
        if index in mute then frames == []
        else |frames| == 1 && Deliveries(frames[0]) == [(Key(addr, Value(menu, index)), old(Shown(menu, index)))]
      // What a request or a value read draws is never anything but the answer under its key.
      ensures IsRequest(addr, Frame(id, data)) ==> OnlyAnswers(View(), frames)
    {
      frames := Dispatch(id, data);
      forall r: Request | !r.Value? && Reply(View(), r).Some?
        ensures var d := Reply(View(), r).value; Deliveries(Frame(ReplyId(View(), r, d), d)) == [(Key(addr, r), d)]
      {
        RepliesAreRouted(View(), r);
      }
      forall menu: Menu, index: byte
        ensures Deliveries(Frame(ExchangeOf(menu, Data).info.Id(addr), [index, 0] + old(Shown(menu, index))))
             == [(Key(addr, Value(menu, index)), old(Shown(menu, index)))]
      {
        ValuesAreRouted(addr, menu, index, old(Shown(menu, index)));
      }
      if r: Request :| Encode(addr, r) == Frame(id, data) {
        KeyFamily(addr, r);
        assert r.Value? ==> Encode(addr, Value(r.menu, r.index)) == Frame(id, data);
      }
    }

    /** The tab and kind of message a frame's class and address ask for. */
    method RequestTypeOf(c: byte, a: nat) returns (pair: Option<(Menu, Kind)>)
      ensures forall m, k | ExchangeOf(m, k).req.Is(c, a) :: pair == Some((m, k))
    {
      var n := 0;
      while n < |PAIRS|
        invariant 0 <= n <= |PAIRS|
        invariant forall i :: 0 <= i < n ==> !ExchangeOf(PAIRS[i].0, PAIRS[i].1).req.Is(c, a)
      {
        var (menu, kind) := PAIRS[n];
        if ExchangeOf(menu, kind).req.Is(c, a) {
          forall m, k | ExchangeOf(m, k).req.Is(c, a)
            ensures m == menu && k == kind
          {
            RequestTypesDiffer(m, k, menu, kind, c, a);
          }
          return Some((menu, kind));
        }
        n := n + 1;
      }
      forall m, k
        ensures !ExchangeOf(m, k).req.Is(c, a)
      {
        assert PAIRS[PairIndex(m, k)] == (m, k);
      }
      pair := None;
    }
  }
}
