/** Where the reader thread delivers an incoming frame. */
module Routing {
  import opened Prelude
  import opened Tab

  /** The device and request a tab's group or property answer is about. */
  function TabSubject(c: byte, addr: nat, data: Bytes): Option<(nat, Request)> {
    match Answer(c, addr)
    case None => None
    case Some((menu, kind, _)) =>
      if |data| < 2 then None
      else
        match kind
        case Data => None
        case Property =>
          if data[0] == OP_OPTION && |data| >= 4 then
            Some((ClearHigh(addr), OptionLabel(menu, data[1], data[3])))
          else
            Some((ClearHigh(addr), FieldProperty(menu, data[0], data[1])))
        case Group =>
          if data[0] == OP_GROUP_FIELD then
            if |data| >= 4 then Some((ClearHigh(addr), GroupField(menu, data[1], data[3]))) else None
          else
            Some((ClearHigh(addr), GroupInfo(menu, data[0], data[1])))
  }

  /** The device and request a discovery reply is about. */
  function Subject(c: byte, addr: nat, data: Bytes): Option<(nat, Request)> {
    if c == PROPERTY_INFO then
      if |data| < 2 then None
      else if IsHigh(addr) then
        // A refused output-list selector, echoed alone from the shadow address.
        if |data| == 2 && data[0] == OP_SELECTOR && data[1] >= 0x3F then
          Some((ClearHigh(addr), Device(OP_SELECTOR, data[1])))
        else None
      else if data[0] == OP_STRING && |data| >= 4 then
        Some((addr, Chunk(U16(data[1], data[2]), data[3])))
      else Some((addr, Device(data[0], data[1])))
    else TabSubject(c, addr, data)
  }

  /** `waiter_key_for_frame`. */
  function WaiterKeyForFrame(c: byte, addr: nat, data: Bytes): Option<string> {
    match Subject(c, addr, data)
    case None => None
    case Some((a, r)) => Some(Key(a, r))
  }

  /** The value a frame carries for the value layer, and the request it answers. */
  function ValueSubject(c: byte, addr: nat, data: Bytes): Option<(nat, Request, Bytes)> {
    if (c == MONITORING_DATA || c == MONITORING_REQ) && |data| >= 6 && !IsHigh(addr) then
      Some((addr, Value(Monitoring, data[0]), data[2..]))
    else
      match Answer(c, addr)
      case Some((menu, Data, false)) =>
        if menu != Monitoring && |data| >= 6 then Some((ClearHigh(addr), Value(menu, data[0]), data[2..6]))
        else None
      case _ => None
  }

  /** What `handle_frame` deposits in the waiter for a received frame. */
  function Deliveries(f: Frame): seq<(string, Bytes)> {
    var c, addr := FrameClass(f.id), FrameAddr(f.id);
    (match WaiterKeyForFrame(c, addr, f.data)
     case None => []
     case Some(k) => [(k, f.data)])
    +
    (match ValueSubject(c, addr, f.data)
     case None => []
     case Some((a, r, raw)) => [(Key(a, r), raw)])
  }

  /** Replies with one key are about the same device, tab, kind, opcode, index and option or position. */
  lemma SameKeySameSubject(c: byte, a: nat, data: Bytes, c': byte, a': nat, data': Bytes)
    requires WaiterKeyForFrame(c, a, data).Some?
    requires WaiterKeyForFrame(c, a, data) == WaiterKeyForFrame(c', a', data')
    ensures Subject(c, a, data) == Subject(c', a', data')
  {
    var s, s' := Subject(c, a, data).value, Subject(c', a', data').value;
    KeyInjective(s.0, s.1, s'.0, s'.1);
  }

  lemma IdParts(c: byte, addr: nat)
    requires c < 32 && addr < ADDRS
    ensures FrameClass(CanId(c, addr)) == c && FrameAddr(CanId(c, addr)) == addr
  {
  }

  lemma HighParts(addr: Addr)
    ensures !IsHigh(addr) && ClearHigh(addr) == addr
    ensures IsHigh(SetHigh(addr)) && ClearHigh(SetHigh(addr)) == addr && SetHigh(addr) < ADDRS
  {
  }

  /** A message type's frame says which message type it is, and of which device. */
  lemma WireParts(w: Wire, addr: Addr)
    requires w.class_ < 32
    ensures FrameClass(w.Id(addr)) == w.class_
    ensures IsHigh(FrameAddr(w.Id(addr))) == w.high && ClearHigh(FrameAddr(w.Id(addr))) == addr
  {
  }

  /** No two message types share a class and address half, so an answer names its tab and kind. */
  lemma AnswerNames(menu: Menu, kind: Kind, addr: nat)
    ensures var e := ExchangeOf(menu, kind);
      (IsHigh(addr) == e.info.high ==> Answer(e.info.class_, addr) == Some((menu, kind, false))) &&
      (IsHigh(addr) == e.na.high ==> Answer(e.na.class_, addr) == Some((menu, kind, true)))
  {
    if IsHigh(addr) == ExchangeOf(menu, kind).info.high {
      InfoNames(menu, kind, addr);
    }
    if IsHigh(addr) == ExchangeOf(menu, kind).na.high {
      RefusalNames(menu, kind, addr);
    }
  }

  lemma InfoNames(menu: Menu, kind: Kind, addr: nat)
    requires IsHigh(addr) == ExchangeOf(menu, kind).info.high
    ensures Answer(ExchangeOf(menu, kind).info.class_, addr) == Some((menu, kind, false))
  {
    AnswerAt(PAIRS, PairIndex(menu, kind), ExchangeOf(menu, kind).info.class_, addr);
  }

  lemma RefusalNames(menu: Menu, kind: Kind, addr: nat)
    requires IsHigh(addr) == ExchangeOf(menu, kind).na.high
    ensures Answer(ExchangeOf(menu, kind).na.class_, addr) == Some((menu, kind, true))
  {
    AnswerAt(PAIRS, PairIndex(menu, kind), ExchangeOf(menu, kind).na.class_, addr);
  }

  function PairIndex(menu: Menu, kind: Kind): (n: nat)
    ensures n < |PAIRS| && PAIRS[n] == (menu, kind)
  {
    (match menu case Monitoring => 0 case Alarm => 3 case History => 6 case Configuration => 9)
    + (match kind case Data => 0 case Property => 1 case Group => 2)
  }

  lemma {:induction false} AnswerAt(pairs: seq<(Menu, Kind)>, n: nat, c: byte, addr: nat)
    requires n < |pairs|
    requires forall i :: 0 <= i < n ==>
      var e := ExchangeOf(pairs[i].0, pairs[i].1); !e.info.Is(c, addr) && !e.na.Is(c, addr)
    requires var e := ExchangeOf(pairs[n].0, pairs[n].1); e.info.Is(c, addr) || e.na.Is(c, addr)
    ensures AnswerFrom(pairs, c, addr) ==
      Some((pairs[n].0, pairs[n].1, !ExchangeOf(pairs[n].0, pairs[n].1).info.Is(c, addr)))
  {
    if n > 0 {
      AnswerAt(pairs[1..], n - 1, c, addr);
    }
  }

  lemma {:induction false} NoAnswerFrom(pairs: seq<(Menu, Kind)>, c: byte, addr: nat)
    requires c == PROPERTY_INFO || c == DEVICE_BROADCAST
    ensures AnswerFrom(pairs, c, addr) == None
  {
    if pairs != [] {
      NoAnswerFrom(pairs[1..], c, addr);
    }
  }

  /** A device's announcement of itself is delivered under no key. */
  lemma AnnouncementsAreUnheard(addr: Addr, data: Bytes)
    ensures Deliveries(Frame(CanId(DEVICE_BROADCAST, addr), data)) == []
  {
    IdParts(DEVICE_BROADCAST, addr);
    NoAnswerFrom(PAIRS, DEVICE_BROADCAST, addr);
  }
}
