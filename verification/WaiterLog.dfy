/** The history of a waiter, and what it says about each key. */
module WaiterLog {
  import opened Prelude
  import opened Tab
  import Text

  datatype Slot = Slot(data: Option<Bytes>, cancelled: bool)

  /** A step at the waiter. `own` tells the steps of the discovery the history is about from those the
      scheduler takes on its own account in between. */
  datatype Event =
    | Registered(key: string, own: bool)
    | Delivered(key: string, data: Bytes)
    | Removed(key: string, own: bool)
    | TimedOut(key: string, own: bool)
    | Sent(key: string, frame: Frame, own: bool)
    | Cancelled

  type Log = seq<Event>

  function Init(h: Log): Log
    requires h != []
  {
    h[..|h| - 1]
  }

  function Last(h: Log): Event
    requires h != []
  {
    h[|h| - 1]
  }

  function NextSlot(s: Option<Slot>, e: Event, k: string): Option<Slot> {
    match e
    case Registered(q, _) => if q == k then Some(Slot(None, false)) else s
    case Delivered(q, d) => if q == k && s.Some? then Some(s.value.(data := Some(d))) else s
    case Removed(q, _) => if q == k then None else s
    case TimedOut(_, _) => s
    case Sent(_, _, _) => s
    case Cancelled => if s.Some? then Some(s.value.(cancelled := true)) else None
  }

  /** A key's slot after a history. */
  function SlotOf(h: Log, k: string): Option<Slot> {
    if h == [] then None else NextSlot(SlotOf(Init(h), k), Last(h), k)
  }

  /** What a wait takes out of a slot. */
  function Outcome(s: Option<Slot>): Option<Bytes> {
    if s.Some? && !s.value.cancelled then s.value.data else None
  }

  /** An empty slot nobody has cancelled: what a wait waits on. */
  predicate Open(s: Option<Slot>) {
    s.Some? && s.value.data.None? && !s.value.cancelled
  }

  /** What the discovery itself did with one key: what its last removal returned, how often its request was
      sent, how often a wait for it ended with the key removed or kept, how often it was sent after an answer or
      while the key was not registered, and whether any removal found an answer or none. */
  datatype Trace = Trace(got: Option<Bytes>, sends: nat, waits: nat, kept: nat, repeats: nat, unheard: nat,
                         answered: bool, missed: bool)

  const NOTHING: Trace := Trace(None, 0, 0, 0, 0, 0, false, false)

  function NextTrace(t: Trace, e: Event, k: string, s: Option<Slot>): Trace {
    match e
    case Removed(q, own) =>
      if q != k || !own then t
      else Waited(t, Outcome(s))
    case Sent(q, _, own) =>
      if q != k || !own then t
      else SentOn(t, s.Some?)
    case TimedOut(q, own) => if q != k || !own then t else KeptOn(t)
    case _ => t
  }

  /** A trace after the request was sent once more. */
  function SentOn(t: Trace, registered: bool): Trace {
    t.(sends := t.sends + 1, repeats := t.repeats + (if t.got.Some? then 1 else 0),
       unheard := t.unheard + if registered then 0 else 1)
  }

  /** A trace after a wait that ran out and kept the key. */
  function KeptOn(t: Trace): Trace {
    t.(kept := t.kept + 1)
  }

  /** A trace after a wait that returned `r`. */
  function Waited(t: Trace, r: Option<Bytes>): Trace {
    t.(got := r, waits := t.waits + 1, answered := t.answered || r.Some?, missed := t.missed || r.None?)
  }

  /** A key's trace from position `n` of a history on. */
  function TraceOf(h: Log, n: nat, k: string): Trace {
    if |h| <= n then NOTHING else NextTrace(TraceOf(Init(h), n, k), Last(h), k, SlotOf(Init(h), k))
  }

  // ----- how histories grow

  /** What the reader thread does by itself. */
  predicate ReaderEvent(e: Event) {
    e.Delivered? || e.Cancelled?
  }

  predicate Extends(h: Log, h': Log) {
    |h| <= |h'| && h'[..|h|] == h
  }

  predicate ReaderExtends(h: Log, h': Log) {
    Extends(h, h') && forall i :: |h| <= i < |h'| ==> ReaderEvent(h'[i])
  }

  /** Reader events, then one event of the requester. */
  predicate Stepped(h: Log, h': Log, e: Event) {
    h' != [] && Last(h') == e && ReaderExtends(h, Init(h'))
  }

  // ----- the scheduler's turn

  /** The keys of the scheduler's value reads, which no discovery uses. */
  predicate Foreign(k: string) {
    |k| >= 4 && k[..4] == "val:"
  }

  predicate IsChunkKey(k: string) {
    |k| >= 4 && k[..4] == "str:"
  }

  /** The keys of field properties and option labels. */
  predicate IsPropertyKey(k: string) {
    |k| >= 5 && k[..5] == "prop:"
  }

  /** What a turn asks under a discovery's keys: the string a text value names, and a device's access level. */
  predicate TurnAsks(r: Request) {
    r.Chunk? || r == Device(OP_SELECTOR, 0x19)
  }

  ghost predicate Nested(k: string) {
    exists addr: Addr, r: Request :: TurnAsks(r) && k == Key(addr, r)
  }

  /** How a request's key begins. */
  function KeyHead(r: Request): string {
    match r
    case Device(_, _) => "p:"
    case Chunk(_, _) => "str:"
    case GroupInfo(_, _, _) => "group:"
    case GroupField(_, _, _) => "group:"
    case FieldProperty(_, _, _) => "prop:"
    case OptionLabel(_, _, _) => "prop:"
    case Value(_, _) => "val:"
  }

  lemma KeyBegins(a: nat, r: Request)
    ensures KeyHead(r) <= Key(a, r)
  {
    var parts := KeyParts(a, r);
    assert Key(a, r) == parts[0] + [':'] + Text.Join(parts[1..], ':');
    assert KeyHead(r) == parts[0] + [':'];
  }

  lemma KeyFamily(a: nat, r: Request)
    ensures Foreign(Key(a, r)) <==> r.Value?
    ensures IsChunkKey(Key(a, r)) <==> r.Chunk?
    ensures IsPropertyKey(Key(a, r)) <==> r.FieldProperty? || r.OptionLabel?
  {
    KeyBegins(a, r);
    var k, p := Key(a, r), KeyHead(r);
    assert p[0] == k[0] && p[1] == k[1];
    assert r.Value? <==> p[0] == 'v';
    assert r.Chunk? <==> p[0] == 's';
    assert r.FieldProperty? || r.OptionLabel? <==> p[0] == 'p' && p[1] == 'r';
  }

  lemma NestedIff(addr: Addr, r: Request)
    ensures Nested(Key(addr, r)) <==> TurnAsks(r)
  {
    if Nested(Key(addr, r)) {
      var a: Addr, q: Request :| TurnAsks(q) && Key(addr, r) == Key(a, q);
      KeyInjective(addr, r, a, q);
    }
  }

  lemma NestedIsOurs(k: string)
    requires Nested(k)
    ensures !Foreign(k)
  {
    var a: Addr, q: Request :| TurnAsks(q) && k == Key(a, q);
    KeyFamily(a, q);
  }

  predicate Registers(h: Log, k: string) {
    SlotOf(h, k).Some?
  }

  /** None of the keys a turn may ask under is registered. */
  ghost predicate NestedFree(h: Log) {
    forall k :: Nested(k) ==> !Registers(h, k)
  }

  /** What can happen in the scheduler's turn: the reader's events, and steps the scheduler takes on its own account. */
  ghost predicate TurnEvent(e: Event) {
    ReaderEvent(e) || (!e.Delivered? && !e.Cancelled? && !e.own && (Foreign(e.key) || Nested(e.key)))
  }

  ghost predicate TurnEvents(h: Log, h': Log) {
    Extends(h, h') && forall i :: |h| <= i < |h'| ==> TurnEvent(h'[i])
  }

  /** Nothing was done with the key; the reader may have filled its slot. */
  ghost predicate Untouched(h: Log, h': Log, k: string) {
    (SlotOf(h', k).Some? <==> SlotOf(h, k).Some?) &&
    forall n: nat :: n <= |h| ==> TraceOf(h', n, k) == TraceOf(h, n, k)
  }

  /** Nothing was done with any discovery key but these. */
  ghost predicate Touches(h: Log, h': Log, keys: set<string>) {
    Extends(h, h') && forall k :: k !in keys && !Foreign(k) ==> Untouched(h, h', k)
  }

  lemma ExtendsChain(a: Log, b: Log, c: Log)
    requires Extends(a, b) && Extends(b, c)
    ensures Extends(a, c)
  {
  }

  lemma TouchesChain(a: Log, b: Log, c: Log, p: set<string>, q: set<string>)
    requires Touches(a, b, p) && Touches(b, c, q)
    ensures Touches(a, c, p + q)
  {
  }

  lemma TouchesFewer(h: Log, h': Log, p: set<string>, q: set<string>)
    requires Touches(h, h', p) && p <= q
    ensures Touches(h, h', q)
  {
  }

  /** Only the discovery's own steps count in a trace. */
  lemma {:induction false} TurnTrace(h: Log, h': Log, n: nat, k: string)
    requires TurnEvents(h, h') && n <= |h|
    ensures TraceOf(h', n, k) == TraceOf(h, n, k)
    decreases |h'|
  {
    if |h'| > |h| {
      TurnTrace(h, Init(h'), n, k);
      assert TurnEvent(Last(h'));
    } else {
      assert h' == h;
    }
  }

  /** Only steps on a key change whether it is registered. */
  lemma {:induction false} SlotKept(h: Log, h': Log, k: string)
    requires Extends(h, h')
    requires forall i :: |h| <= i < |h'| ==> ReaderEvent(h'[i]) || h'[i].key != k
    ensures Registers(h', k) <==> Registers(h, k)
    decreases |h'|
  {
    if |h'| > |h| {
      SlotKept(h, Init(h'), k);
      assert ReaderEvent(Last(h')) || Last(h').key != k;
    } else {
      assert h' == h;
    }
  }

  /** The reader leaves every key's registration and trace alone. */
  lemma ReaderKeeps(h: Log, h': Log, k: string)
    requires ReaderExtends(h, h')
    ensures Untouched(h, h', k)
  {
    SlotKept(h, h', k);
    forall n: nat | n <= |h|
      ensures TraceOf(h', n, k) == TraceOf(h, n, k)
    {
      TurnTrace(h, h', n, k);
    }
  }

  lemma ReaderTouchesNothing(h: Log, h': Log, keys: set<string>)
    requires ReaderExtends(h, h')
    ensures Touches(h, h', keys)
  {
    forall k
      ensures Untouched(h, h', k)
    {
      ReaderKeeps(h, h', k);
    }
  }

  /** A part of a turn that is about one of its keys. */
  ghost predicate TurnOn(h: Log, h': Log, k: string) {
    Extends(h, h') && forall i :: |h| <= i < |h'| ==> ReaderEvent(h'[i]) || (!h'[i].own && h'[i].key == k)
  }

  lemma TurnOnChain(a: Log, b: Log, c: Log, k: string)
    requires TurnOn(a, b, k) && TurnOn(b, c, k)
    ensures TurnOn(a, c, k)
  {
  }

  lemma TurnGoesOn(a: Log, h: Log, h': Log, k: string)
    requires TurnEvents(a, h) && NestedFree(h) && TurnOn(h, h', k)
    requires Foreign(k) || (Nested(k) && !Registers(h', k))
    ensures TurnEvents(a, h') && NestedFree(h')
  {
    forall q | Nested(q)
      ensures !Registers(h', q)
    {
      NestedIsOurs(q);
      if q != k {
        SlotKept(h, h', q);
      }
    }
  }

  /** A turn that finds its keys free and leaves them free does nothing to a discovery's keys. */
  lemma TurnTouchesNothing(h: Log, h': Log)
    requires TurnEvents(h, h') && NestedFree(h) && NestedFree(h')
    ensures Touches(h, h', {})
  {
    forall k | !Foreign(k)
      ensures Untouched(h, h', k)
    {
      if Nested(k) {
        assert !Registers(h, k) && !Registers(h', k);
      } else {
        forall i | |h| <= i < |h'|
          ensures ReaderEvent(h'[i]) || h'[i].key != k
        {
          assert TurnEvent(h'[i]);
        }
        SlotKept(h, h', k);
      }
      forall n: nat | n <= |h|
        ensures TraceOf(h', n, k) == TraceOf(h, n, k)
      {
        TurnTrace(h, h', n, k);
      }
    }
  }

  /** Steps on some keys leave the turn's keys free, if they leave those among them free. */
  lemma NestedFreeKept(h: Log, h': Log, keys: set<string>)
    requires NestedFree(h) && Touches(h, h', keys)
    requires forall k :: k in keys && Nested(k) ==> !Registers(h', k)
    ensures NestedFree(h')
  {
    forall k | Nested(k)
      ensures !Registers(h', k)
    {
      NestedIsOurs(k);
      if k !in keys {
        assert Untouched(h, h', k);
        assert !Registers(h, k);
      }
    }
  }

  /** A requester's event changes its own key's slot and trace, and no other key's. */
  lemma SteppedOwn(h: Log, h': Log, e: Event, k: string)
    requires Stepped(h, h', e) && !e.Cancelled? && !e.Delivered? && e.key == k
    ensures Extends(h, h')
    ensures Untouched(h, Init(h'), k)
    ensures SlotOf(h', k) == NextSlot(SlotOf(Init(h'), k), e, k)
    ensures forall n: nat :: n <= |h| ==> TraceOf(h', n, k) == NextTrace(TraceOf(h, n, k), e, k, SlotOf(Init(h'), k))
  {
    assert h'[..|h|] == Init(h')[..|h|];
    ReaderKeeps(h, Init(h'), k);
    forall n: nat | n <= |h|
      ensures TraceOf(h', n, k) == NextTrace(TraceOf(h, n, k), e, k, SlotOf(Init(h'), k))
    {
      assert TraceOf(Init(h'), n, k) == TraceOf(h, n, k);
    }
  }

  lemma SteppedOther(h: Log, h': Log, e: Event)
    requires Stepped(h, h', e) && !e.Cancelled? && !e.Delivered?
    ensures Touches(h, h', {e.key})
  {
    assert h'[..|h|] == Init(h')[..|h|];
    forall k | k != e.key && !Foreign(k)
      ensures Untouched(h, h', k)
    {
      ReaderKeeps(h, Init(h'), k);
      forall n: nat | n <= |h|
        ensures TraceOf(h', n, k) == TraceOf(h, n, k)
      {
        assert TraceOf(Init(h'), n, k) == TraceOf(h, n, k);
      }
    }
  }

  // ----- what a history means

  predicate About(e: Event, k: string) {
    e.Cancelled? || (!e.Sent? && !e.TimedOut? && e.key == k)
  }

  predicate RegisteredAt(h: Log, k: string, reg: nat) {
    reg < |h| && h[reg].Registered? && h[reg].key == k
  }

  /** `d` was the latest payload delivered to `k` since its last registration, at position `end`,
      and nothing was cancelled since. */
  predicate Latest(h: Log, k: string, d: Bytes, reg: nat, dlv: nat, end: nat) {
    reg < dlv < end <= |h| && RegisteredAt(h, k, reg) && h[dlv] == Delivered(k, d) &&
    (forall i :: reg < i < end && About(h[i], k) ==> h[i].Delivered?) &&
    (forall i :: dlv < i < end ==> !About(h[i], k))
  }

  /** Registered at `reg` and neither answered, removed nor cancelled since. */
  predicate StillOpen(h: Log, k: string, reg: nat) {
    RegisteredAt(h, k, reg) && forall i :: reg < i < |h| ==> !About(h[i], k)
  }

  lemma {:induction false} OpenSince(h: Log, k: string) returns (reg: nat)
    requires Open(SlotOf(h, k))
    ensures StillOpen(h, k, reg)
  {
    if Last(h).Registered? && Last(h).key == k {
      reg := |h| - 1;
    } else {
      reg := OpenSince(Init(h), k);
    }
  }

  lemma {:induction false} OutcomeSince(h: Log, k: string) returns (reg: nat, dlv: nat)
    requires Outcome(SlotOf(h, k)).Some?
    ensures Latest(h, k, Outcome(SlotOf(h, k)).value, reg, dlv, |h|)
  {
    if Last(h).Delivered? && Last(h).key == k {
      dlv := |h| - 1;
      if Open(SlotOf(Init(h), k)) {
        reg := OpenSince(Init(h), k);
      } else {
        var earlier;
        reg, earlier := OutcomeSince(Init(h), k);
      }
    } else {
      reg, dlv := OutcomeSince(Init(h), k);
    }
  }

  lemma {:induction false} LatestHolds(h: Log, k: string, d: Bytes, reg: nat, dlv: nat)
    requires Latest(h, k, d, reg, dlv, |h|)
    ensures SlotOf(h, k) == Some(Slot(Some(d), false))
  {
    if dlv == |h| - 1 {
      SlotStaysUncancelled(Init(h), k, reg);
    } else {
      assert !About(Last(h), k);
      LatestHolds(Init(h), k, d, reg, dlv);
    }
  }

  lemma {:induction false} SlotStaysUncancelled(h: Log, k: string, reg: nat)
    requires RegisteredAt(h, k, reg)
    requires forall i :: reg < i < |h| && About(h[i], k) ==> h[i].Delivered?
    ensures SlotOf(h, k).Some? && !SlotOf(h, k).value.cancelled
  {
    if reg < |h| - 1 {
      assert About(Last(h), k) ==> Last(h).Delivered?;
      SlotStaysUncancelled(Init(h), k, reg);
    }
  }

  /** A slot holds exactly the latest uncancelled payload delivered since the key was registered. */
  lemma OutcomeIsLatest(h: Log, k: string, d: Bytes)
    ensures Outcome(SlotOf(h, k)) == Some(d) <==> exists reg: nat, dlv: nat :: Latest(h, k, d, reg, dlv, |h|)
  {
    if Outcome(SlotOf(h, k)) == Some(d) {
      var reg, dlv := OutcomeSince(h, k);
    }
    forall reg: nat, dlv: nat | Latest(h, k, d, reg, dlv, |h|)
      ensures Outcome(SlotOf(h, k)) == Some(d)
    {
      LatestHolds(h, k, d, reg, dlv);
    }
  }

  /** The wait that ended at `end` is the discovery's last one on `k` since `n`. */
  predicate LastWait(h: Log, n: nat, k: string, end: nat) {
    n <= end < |h| && h[end] == Removed(k, true) && forall i :: end < i < |h| ==> h[i] != Removed(k, true)
  }

  lemma {:induction false} GotAtLastWait(h: Log, n: nat, k: string, end: nat)
    requires LastWait(h, n, k, end)
    ensures TraceOf(h, n, k).got == Outcome(SlotOf(h[..end], k))
  {
    if end < |h| - 1 {
      assert Last(h) != Removed(k, true);
      GotAtLastWait(Init(h), n, k, end);
      assert Init(h)[..end] == h[..end];
    }
  }

  lemma {:induction false} GotHasWait(h: Log, n: nat, k: string) returns (end: nat)
    requires TraceOf(h, n, k).got.Some?
    ensures LastWait(h, n, k, end)
  {
    if Last(h) == Removed(k, true) {
      end := |h| - 1;
    } else {
      end := GotHasWait(Init(h), n, k);
    }
  }

  lemma LatestOfPrefix(h: Log, k: string, d: Bytes, reg: nat, dlv: nat, end: nat)
    requires end <= |h|
    ensures Latest(h, k, d, reg, dlv, end) <==> Latest(h[..end], k, d, reg, dlv, end)
  {
  }

  /** What was got for a key since position `n` is the latest payload delivered to it between its last
      registration and the end of its last wait: nothing older, and nothing lost unless cancelled. */
  lemma GotIsLatest(h: Log, n: nat, k: string, d: Bytes)
    ensures TraceOf(h, n, k).got == Some(d) <==>
      exists reg: nat, dlv: nat, end: nat :: LastWait(h, n, k, end) && Latest(h, k, d, reg, dlv, end)
  {
    if TraceOf(h, n, k).got == Some(d) {
      var end := GotHasWait(h, n, k);
      GotAtLastWait(h, n, k, end);
      var reg, dlv := OutcomeSince(h[..end], k);
      LatestOfPrefix(h, k, d, reg, dlv, end);
    }
    forall reg: nat, dlv: nat, end: nat | LastWait(h, n, k, end) && Latest(h, k, d, reg, dlv, end)
      ensures TraceOf(h, n, k).got == Some(d)
    {
      GotAtLastWait(h, n, k, end);
      LatestOfPrefix(h, k, d, reg, dlv, end);
      LatestHolds(h[..end], k, d, reg, dlv);
    }
  }

  /** A payload was delivered to the key at or after position `n`. */
  predicate Heard(h: Log, n: nat, k: string, d: Bytes) {
    exists i :: n <= i < |h| && h[i] == Delivered(k, d)
  }

  lemma {:induction false} DataHeard(h: Log, n: nat, k: string, d: Bytes)
    requires n <= |h|
    requires var s := SlotOf(h[..n], k); s.Some? ==> s.value.data.None?
    requires SlotOf(h, k).Some? && SlotOf(h, k).value.data == Some(d)
    ensures Heard(h, n, k, d)
  {
    assert h[..|h|] == h;
    if n < |h| && Last(h) != Delivered(k, d) {
      assert Init(h)[..n] == h[..n];
      DataHeard(Init(h), n, k, d);
      var i :| n <= i < |Init(h)| && Init(h)[i] == Delivered(k, d);
      assert h[i] == Delivered(k, d);
    } else if n < |h| {
      assert h[|h| - 1] == Delivered(k, d);
    }
  }

  /** If the key was not registered at `n`, what was got since was delivered since. */
  lemma {:induction false} GotWasHeard(h: Log, n: nat, k: string)
    requires n <= |h| && SlotOf(h[..n], k).None? && TraceOf(h, n, k).got.Some?
    ensures Heard(h, n, k, TraceOf(h, n, k).got.value)
  {
    var d := TraceOf(h, n, k).got.value;
    assert Init(h)[..n] == h[..n];
    if Last(h) == Removed(k, true) {
      DataHeard(Init(h), n, k, d);
    } else {
      GotWasHeard(Init(h), n, k);
    }
    var i :| n <= i < |Init(h)| && Init(h)[i] == Delivered(k, d);
    assert h[i] == Delivered(k, d);
  }

  /** A trace is the trace of a first part continued by the trace of the rest. */
  function Continued(t: Trace, u: Trace): Trace {
    Trace(if u.answered || u.missed then u.got else t.got,
          t.sends + u.sends, t.waits + u.waits, t.kept + u.kept, 0, t.unheard + u.unheard, t.answered || u.answered, t.missed || u.missed)
  }

  /** One more event, on both sides of a split. */
  lemma NextContinued(all: Trace, t: Trace, u: Trace, e: Event, k: string, s: Option<Slot>)
    requires all.(repeats := 0) == Continued(t, u) && (u.got.Some? ==> u.answered)
    ensures NextTrace(all, e, k, s).(repeats := 0) == Continued(t, NextTrace(u, e, k, s))
    ensures NextTrace(u, e, k, s).got.Some? ==> NextTrace(u, e, k, s).answered
  {
  }

  lemma {:induction false} TraceSplit(h: Log, n: nat, m: nat, k: string)
    requires n <= m <= |h|
    ensures TraceOf(h, n, k).(repeats := 0) == Continued(TraceOf(h[..m], n, k), TraceOf(h, m, k))
    ensures TraceOf(h, m, k).got.Some? ==> TraceOf(h, m, k).answered
  {
    if m == |h| {
      assert h[..m] == h;
    } else {
      assert Init(h)[..m] == h[..m];
      TraceSplit(Init(h), n, m, k);
      NextContinued(TraceOf(Init(h), n, k), TraceOf(h[..m], n, k), TraceOf(Init(h), m, k), Last(h), k, SlotOf(Init(h), k));
    }
  }

  /** A key nothing was done with before `m` has the same trace from any earlier position. */
  lemma {:induction false} TraceFrom(h: Log, n: nat, m: nat, k: string)
    requires n <= m <= |h| && TraceOf(h[..m], n, k) == NOTHING
    ensures TraceOf(h, n, k) == TraceOf(h, m, k)
  {
    if m == |h| {
      assert h[..m] == h;
    } else {
      assert Init(h)[..m] == h[..m];
      TraceFrom(Init(h), n, m, k);
    }
  }

  /** Some time from position `n` on, the key was registered and cancelled. */
  ghost predicate WasCancelled(h: Log, n: nat, k: string) {
    exists m :: n <= m <= |h| && IsCancelled(SlotOf(h[..m], k))
  }

  predicate IsCancelled(s: Option<Slot>) {
    s.Some? && s.value.cancelled
  }

  lemma CancelledStill(h: Log, h': Log, n: nat, k: string)
    requires Extends(h, h') && WasCancelled(h, n, k)
    ensures forall n': nat :: n' <= n ==> WasCancelled(h', n', k)
  {
    var m :| n <= m <= |h| && IsCancelled(SlotOf(h[..m], k));
    assert h'[..m] == h[..m];
  }

  /** A slot that is empty, closed and registered is cancelled. */
  lemma CancelledAtLast(h: Log, n: nat, k: string)
    requires n < |h| && Registers(Init(h), k) && !Open(SlotOf(Init(h), k)) && Outcome(SlotOf(Init(h), k)).None?
    ensures WasCancelled(h, n, k)
  {
    assert h[..|h| - 1] == Init(h);
  }

  /** A trace after a wait, whichever way it ended. */
  function Ended(t: Trace, kept: bool, r: Option<Bytes>): Trace {
    if kept then KeptOn(t) else Waited(t, r)
  }

  /** The discovery's own steps since `h`, up to `m` registrations, then up to `n` sends, then ends of waits. */
  predicate Pipelined(h: Log, h': Log, m: nat, n: nat) {
    |h| <= m <= n <= |h'| &&
    (forall i :: |h| <= i < m && Own(h'[i]) ==> Registering(h'[i])) &&
    (forall i :: m <= i < n && Own(h'[i]) ==> Sending(h'[i])) &&
    (forall i :: n <= i < |h'| && Own(h'[i]) ==> EndingWait(h'[i]))
  }

  predicate Own(e: Event) {
    !ReaderEvent(e) && e.own
  }

  predicate Registering(e: Event) {
    e.Registered?
  }

  predicate Sending(e: Event) {
    e.Sent?
  }

  predicate EndingWait(e: Event) {
    e.Removed? || e.TimedOut?
  }

  /** All that happened since `h`, of the discovery's own steps, is of this kind. */
  predicate OnlyOwn(h: Log, h': Log, kind: Event -> bool) {
    Extends(h, h') && forall i :: |h| <= i < |h'| && Own(h'[i]) ==> kind(h'[i])
  }

  lemma OnlyOwnChain(a: Log, b: Log, c: Log, kind: Event -> bool)
    requires OnlyOwn(a, b, kind) && OnlyOwn(b, c, kind)
    ensures OnlyOwn(a, c, kind)
  {
  }

  lemma SteppedIsOwn(h: Log, h': Log, e: Event, kind: Event -> bool)
    requires Stepped(h, h', e) && kind(e)
    ensures OnlyOwn(h, h', kind)
  {
    assert h'[..|h|] == Init(h')[..|h|];
    assert forall i :: |h| <= i < |h'| - 1 ==> h'[i] == Init(h')[i];
  }

  lemma PhasesArePipelined(h: Log, h1: Log, h2: Log, h3: Log, h4: Log)
    requires TurnEvents(h, h1) && OnlyOwn(h1, h2, Registering) && OnlyOwn(h2, h3, Sending)
    requires OnlyOwn(h3, h4, EndingWait)
    ensures Pipelined(h, h4, |h2|, |h3|)
  {
    forall i | |h| <= i < |h1|
      ensures !Own(h1[i])
    {
      assert TurnEvent(h1[i]);
    }
    assert forall i :: |h| <= i < |h2| ==> h4[i] == h3[i] == h2[i];
    assert forall i :: |h| <= i < |h1| ==> h2[i] == h1[i];
    assert forall i :: |h2| <= i < |h3| ==> h4[i] == h3[i];
  }

  /** Since `h`, the key was only registered. */
  ghost predicate JustRegistered(h: Log, h': Log, k: string) {
    forall n: nat :: n <= |h| ==> TraceOf(h', n, k) == TraceOf(h, n, k)
  }

  /** Since `h`, the key's request was sent once. */
  ghost predicate JustSent(h: Log, h': Log, k: string) {
    forall n: nat :: n <= |h| ==> TraceOf(h', n, k) == SentOn(TraceOf(h, n, k), Registers(h, k))
  }

  /** Since `h`, the key was waited on once: `r` came, or nothing and it stayed registered. */
  ghost predicate JustWaited(h: Log, h': Log, k: string, kept: bool, r: Option<Bytes>) {
    (kept ==> r.None?) && (!Registers(h, k) ==> r.None?) &&
    forall n: nat :: n <= |h| ==>
      TraceOf(h', n, k) == if kept then KeptOn(TraceOf(h, n, k)) else Waited(TraceOf(h, n, k), r)
  }

  /** Since `h`, the key was registered, its request sent once, and waited on once. */
  ghost predicate JustExchanged(h: Log, h': Log, k: string, kept: bool, r: Option<Bytes>) {
    (kept ==> r.None?) &&
    forall n: nat :: n <= |h| ==>
      TraceOf(h', n, k) == Ended(SentOn(TraceOf(h, n, k), true), kept, r)
  }
}
