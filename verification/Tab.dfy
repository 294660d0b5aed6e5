/** The four tabs of a device: message types, frames, requests and waiter keys. */
module Tab {
  import opened Prelude
  import Text

  datatype Menu = Monitoring | Alarm | History | Configuration

  datatype Kind = Data | Property | Group

  // ----- addresses and CAN ids

  /** Address bit 23, set on half of the message types. */
  const HIGH: nat := 0x80_0000
  const ADDRS: nat := 0x100_0000

  predicate IsHigh(addr: nat) {
    addr / HIGH % 2 == 1
  }

  function SetHigh(addr: nat): nat {
    if IsHigh(addr) then addr else addr + HIGH
  }

  function ClearHigh(addr: nat): nat {
    if IsHigh(addr) then addr - HIGH else addr
  }

  /** A device's real address: 24 bits with bit 23 clear. */
  type Addr = a: nat | a < HIGH witness 0

  datatype Frame = Frame(id: nat, data: Bytes)

  function CanId(class_: byte, addr: nat): nat {
    class_ * ADDRS + addr % ADDRS
  }

  /** `frame_from_raw`: the class is bits 28:24, the address bits 23:0. */
  function FrameClass(id: nat): byte {
    id % 0x2000_0000 / ADDRS
  }

  function FrameAddr(id: nat): nat {
    id % 0x2000_0000 % ADDRS
  }

  // ----- message types

  datatype Wire = Wire(class_: byte, high: bool) {
    function Id(addr: nat): nat {
      CanId(class_, if high then SetHigh(addr) else ClearHigh(addr))
    }

    predicate Is(c: byte, addr: nat) {
      class_ == c && IsHigh(addr) == high
    }
  }

  datatype Exchange = Exchange(req: Wire, info: Wire, na: Wire)

  function X(req: byte, reqHigh: bool, info: byte, infoHigh: bool, na: byte, naHigh: bool): Exchange {
    Exchange(Wire(req, reqHigh), Wire(info, infoHigh), Wire(na, naHigh))
  }

  function ExchangeOf(menu: Menu, kind: Kind): Exchange {
    match (menu, kind)
    case (Monitoring, Data) => X(0x18, false, 0x08, false, 0x10, false)
    case (Monitoring, Property) => X(0x18, true, 0x08, true, 0x10, true)
    case (Monitoring, Group) => X(0x19, false, 0x09, false, 0x11, false)
    case (Alarm, Data) => X(0x03, false, 0x02, false, 0x02, true)
    case (Alarm, Property) => X(0x19, true, 0x09, true, 0x11, true)
    case (Alarm, Group) => X(0x1A, false, 0x0A, false, 0x12, false)
    case (History, Data) => X(0x1D, true, 0x0D, true, 0x15, true)
    case (History, Property) => X(0x1A, true, 0x0A, true, 0x12, true)
    case (History, Group) => X(0x1B, false, 0x0B, false, 0x13, false)
    case (Configuration, Data) => X(0x1B, true, 0x0B, true, 0x13, true)
    case (Configuration, Property) => X(0x1C, false, 0x0C, false, 0x14, false)
    case (Configuration, Group) => X(0x1C, true, 0x0C, true, 0x14, true)
  }

  /** The tabs and kinds in the order they are searched. */
  const PAIRS: seq<(Menu, Kind)> := [
    (Monitoring, Data), (Monitoring, Property), (Monitoring, Group),
    (Alarm, Data), (Alarm, Property), (Alarm, Group),
    (History, Data), (History, Property), (History, Group),
    (Configuration, Data), (Configuration, Property), (Configuration, Group)]

  /** What a frame answers: the first tab and kind whose answer or refusal it is. */
  function AnswerFrom(pairs: seq<(Menu, Kind)>, c: byte, addr: nat): Option<(Menu, Kind, bool)> {
    if pairs == [] then None
    else
      var (menu, kind) := pairs[0];
      var e := ExchangeOf(menu, kind);
      if e.info.Is(c, addr) then Some((menu, kind, false))
      else if e.na.Is(c, addr) then Some((menu, kind, true))
      else AnswerFrom(pairs[1..], c, addr)
  }

  function Answer(c: byte, addr: nat): Option<(Menu, Kind, bool)> {
    AnswerFrom(PAIRS, c, addr)
  }

  // ----- field ids

  function Code(menu: Menu): nat {
    match menu
    case Monitoring => 0
    case Configuration => 1
    case Alarm => 2
    case History => 3
  }

  /** The tab in bits 8 and 9, the index below. */
  type FieldId = nat

  function FieldIdOf(menu: Menu, index: byte): FieldId {
    256 * Code(menu) + index
  }

  function MenuOf(id: FieldId): Menu {
    match id / 256 % 4
    case 0 => Monitoring
    case 1 => Configuration
    case 2 => Alarm
    case _ => History
  }

  function IndexOf(id: FieldId): byte {
    id % 256
  }

  lemma FieldIdParts(menu: Menu, index: byte)
    ensures MenuOf(FieldIdOf(menu, index)) == menu && IndexOf(FieldIdOf(menu, index)) == index
  {
  }

  // ----- requests

  const DEVICE_BROADCAST: byte := 0x04
  const PROPERTY_INFO: byte := 0x06
  const PROPERTY_REQ: byte := 0x07
  const MONITORING_DATA: byte := 0x08
  const MONITORING_REQ: byte := 0x18

  const OP_VIZ: byte := 0x02
  const OP_MAX: byte := 0x07
  const OP_WRITEABLE: byte := 0x0B
  const OP_EVENTABLE: byte := 0x0D
  const OP_OPTION: byte := 0x26
  const OP_NAME: byte := 0x28
  const OP_UNIT: byte := 0x2C
  const OP_GROUP_FIELD: byte := 0x03
  const OP_GROUP_COUNT: byte := 0x07
  const OP_GROUP_NAME: byte := 0x28
  const OP_SELECTOR: byte := 0x08
  const OP_PROPERTY_ID: byte := 0x09
  const OP_FIRMWARE: byte := 0x82
  const OP_STRING: byte := 0x30

  /** What can be asked of a device. */
  datatype Request =
    | Device(op: byte, n: byte)
    | Chunk(sid: Word, seqNo: byte)
    | GroupInfo(menu: Menu, op: byte, group: byte)
    | GroupField(menu: Menu, group: byte, i: byte)
    | FieldProperty(menu: Menu, op: byte, index: byte)
    | OptionLabel(menu: Menu, index: byte, opt: byte)
    | Value(menu: Menu, index: byte)

  /** The request builders of `encode.rs`. */
  function Encode(addr: Addr, r: Request): Frame {
    match r
    case Device(op, n) => Frame(CanId(PROPERTY_REQ, addr), [op, n])
    case Chunk(sid, seqNo) => Frame(CanId(PROPERTY_REQ, addr), [OP_STRING, Lo(sid), Hi(sid), seqNo])
    case GroupInfo(menu, op, g) => Frame(ExchangeOf(menu, Group).req.Id(addr), [op, g, 0])
    case GroupField(menu, g, i) => Frame(ExchangeOf(menu, Group).req.Id(addr), [OP_GROUP_FIELD, g, 0, i])
    case FieldProperty(menu, op, index) => Frame(ExchangeOf(menu, Property).req.Id(addr), [op, index, 0])
    case OptionLabel(menu, index, opt) =>
      Frame(ExchangeOf(menu, Property).req.Id(addr), [OP_OPTION, index, 0, opt])
    case Value(menu, index) => Frame(ExchangeOf(menu, Data).req.Id(addr), [index, 0])
  }

  // ----- waiter keys

  function Tag(menu: Menu): string {
    match menu
    case Monitoring => "monitoring"
    case Alarm => "alarm"
    case History => "history"
    case Configuration => "configuration"
  }

  /** The colon-separated parts of a request's waiter key. */
  function KeyParts(addr: nat, r: Request): seq<string> {
    var a := Text.Hex(addr, 6);
    match r
    case Device(op, n) => ["p", a, Text.Hex(op, 2), Text.Hex(n, 2)]
    case Chunk(sid, seqNo) => ["str", a, Text.Hex(sid, 4), Text.Dec(seqNo)]
    case GroupInfo(menu, op, g) => ["group", Tag(menu), a, Text.Hex(op, 2), Text.Dec(g)]
    case GroupField(menu, g, i) => ["group", Tag(menu), a, "03", Text.Dec(g), Text.Dec(i)]
    case FieldProperty(menu, op, index) => ["prop", Tag(menu), a, Text.Hex(op, 2), Text.Dec(index)]
    case OptionLabel(menu, index, opt) => ["prop", Tag(menu), a, "26", Text.Dec(index), Text.Dec(opt)]
    case Value(menu, index) => ["val", a, Text.Hex(FieldIdOf(menu, index), 4)]
  }

  /** The key a reply to the request is delivered under. */
  function Key(addr: nat, r: Request): string {
    Text.Join(KeyParts(addr, r), ':')
  }

  lemma HexFree(n: nat, w: nat)
    ensures Text.Free(Text.Hex(n, w), ':')
  {
    Text.NumeralFree(Text.Hex(n, w), 16);
  }

  lemma DecFree(n: nat)
    ensures Text.Free(Text.Dec(n), ':')
  {
    Text.NumeralFree(Text.Dec(n), 10);
  }

  lemma KeyPartsFree(addr: nat, r: Request)
    ensures forall i :: 0 <= i < |KeyParts(addr, r)| ==> Text.Free(KeyParts(addr, r)[i], ':')
  {
    HexFree(addr, 6);
    match r
    case Device(op, n) => HexFree(op, 2); HexFree(n, 2);
    case Chunk(sid, seqNo) => HexFree(sid, 4); DecFree(seqNo);
    case GroupInfo(menu, op, g) => HexFree(op, 2); DecFree(g);
    case GroupField(menu, g, i) => DecFree(g); DecFree(i);
    case FieldProperty(menu, op, index) => HexFree(op, 2); DecFree(index);
    case OptionLabel(menu, index, opt) => DecFree(index); DecFree(opt);
    case Value(menu, index) => HexFree(FieldIdOf(menu, index), 4);
  }

  lemma HexInjective(a: nat, b: nat, w: nat)
    requires Text.Hex(a, w) == Text.Hex(b, w)
    ensures a == b
  {
    Text.FormattedValue(a, w, 16);
    Text.FormattedValue(b, w, 16);
  }

  lemma DecInjective(a: nat, b: nat)
    requires Text.Dec(a) == Text.Dec(b)
    ensures a == b
  {
    Text.ValueOfNumeral(a, 10);
    Text.ValueOfNumeral(b, 10);
  }

  /** A key names one device and one request: no two are delivered to each other. */
  lemma KeyInjective(a: nat, r: Request, b: nat, q: Request)
    requires Key(a, r) == Key(b, q)
    ensures a == b && r == q
  {
    var p, s := KeyParts(a, r), KeyParts(b, q);
    KeyPartsFree(a, r);
    KeyPartsFree(b, q);
    Text.SplitOfJoin(p, ':');
    Text.SplitOfJoin(s, ':');
    assert p == s;
    PartsInjective(a, r, b, q);
  }

  lemma PartsInjective(a: nat, r: Request, b: nat, q: Request)
    requires KeyParts(a, r) == KeyParts(b, q)
    ensures a == b && r == q
  {
    var p, s := KeyParts(a, r), KeyParts(b, q);
    assert |p| == |s| && p[0] == s[0] && p[1] == s[1] && p[2] == s[2];
    match r
    case Device(op, n) =>
      assert p[0] == "p" && q.Device?;
      HexInjective(a, b, 6); HexInjective(op, q.op, 2); HexInjective(n, q.n, 2);
    case Chunk(sid, seqNo) =>
      assert p[0] == "str" && q.Chunk?;
      HexInjective(a, b, 6); HexInjective(sid, q.sid, 4); DecInjective(seqNo, q.seqNo);
    case GroupInfo(menu, op, g) =>
      assert p[0][0] == 'g' && q.GroupInfo?;
      TagInjective(menu, q.menu);
      HexInjective(a, b, 6); HexInjective(op, q.op, 2); DecInjective(g, q.group);
    case GroupField(menu, g, i) =>
      assert p[0][0] == 'g' && q.GroupField?;
      TagInjective(menu, q.menu);
      HexInjective(a, b, 6); DecInjective(g, q.group); DecInjective(i, q.i);
    case FieldProperty(menu, op, index) =>
      assert p[0][1] == 'r' && q.FieldProperty?;
      TagInjective(menu, q.menu);
      HexInjective(a, b, 6); HexInjective(op, q.op, 2); DecInjective(index, q.index);
    case OptionLabel(menu, index, opt) =>
      assert p[0][1] == 'r' && q.OptionLabel?;
      TagInjective(menu, q.menu);
      HexInjective(a, b, 6); DecInjective(index, q.index); DecInjective(opt, q.opt);
    case Value(menu, index) =>
      assert p[0] == "val" && q.Value?;
      HexInjective(a, b, 6); HexInjective(FieldIdOf(menu, index), FieldIdOf(q.menu, q.index), 4);
      FieldIdParts(menu, index); FieldIdParts(q.menu, q.index);
  }

  lemma TagInjective(m: Menu, n: Menu)
    requires Tag(m) == Tag(n)
    ensures m == n
  {
  }

  /** But for Alarm values, an answer's class is 0x10 below its request's and a refusal's 8 above the answer's, all
      three on one half of the addresses; no two requests share a class and half, nor one with the device requests. */
  lemma ExchangesAreRegular(menu: Menu, kind: Kind, menu': Menu, kind': Kind)
    ensures var e := ExchangeOf(menu, kind);
      if menu == Alarm && kind == Data then e == X(0x03, false, 0x02, false, 0x02, true)
      else
        e.info.class_ == e.req.class_ - 0x10 && e.na.class_ == e.info.class_ + 8 &&
        e.req.high == e.info.high == e.na.high && 0x18 <= e.req.class_ <= 0x1D
    ensures ExchangeOf(menu, kind).req == ExchangeOf(menu', kind').req ==> menu == menu' && kind == kind'
    ensures ExchangeOf(menu, kind).req.class_ != PROPERTY_REQ
  {
  }

  /** The bytes of the requests, by opcode. */
  lemma RequestsAreBytes(addr: Addr, menu: Menu, sid: Word, a: byte, b: byte)
    ensures Encode(addr, Chunk(sid, a)) == Frame(0x700_0000 + addr, [0x30, sid % 256, sid / 256, a])
    ensures Encode(addr, Device(OP_SELECTOR, a)).data == [0x08, a]
    ensures Encode(addr, Device(OP_PROPERTY_ID, a)).data == [0x09, a]
    ensures Encode(addr, Device(OP_FIRMWARE, a)).data == [0x82, a]
    ensures Encode(addr, GroupInfo(menu, OP_GROUP_NAME, a)).data == [0x28, a, 0]
    ensures Encode(addr, GroupInfo(menu, OP_GROUP_COUNT, a)).data == [0x07, a, 0]
    ensures Encode(addr, GroupField(menu, a, b)).data == [0x03, a, 0, b]
    ensures Encode(addr, OptionLabel(menu, a, b)).data == [0x26, a, 0, b]
    ensures Encode(addr, FieldProperty(menu, OP_NAME, a)).data == [0x28, a, 0]
    ensures Encode(addr, FieldProperty(menu, OP_VIZ, a)).data == [0x02, a, 0]
    ensures Encode(addr, FieldProperty(menu, OP_MAX, a)).data == [0x07, a, 0]
    ensures Encode(addr, FieldProperty(menu, OP_UNIT, a)).data == [0x2C, a, 0]
    ensures Encode(addr, FieldProperty(menu, OP_WRITEABLE, a)).data == [0x0B, a, 0]
    ensures Encode(addr, FieldProperty(menu, OP_EVENTABLE, a)).data == [0x0D, a, 0]
  {
  }
}
